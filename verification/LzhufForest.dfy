/** The forest of search trees that InsertNode and DeleteNode of archive/lharc/lzhuf.c keep
    in lson, rson and dad, as a value with its invariant.

    Every node x owns an open interval (lo[x], hi[x]) of key values; its own value divides it
    into the slots of its two sons.  A tree head d > N has one slot, (Bound(d), Bound(d + 1)),
    whose son is rson[d].  The invariant only speaks of pairs of nodes: no paths, no
    recursion.  Its heart is that intervals are nested or disjoint (Laminar) and that an
    empty slot holds no live value (EmptyOk). */
module LzhufForest {
  import opened LzhufKeys

  datatype Forest = Forest(
    ls: seq<nat>, rs: seq<nat>, da: seq<nat>, // lson, rson, dad
    live: set<nat>,                           // the nodes in the trees
    lo: seq<int>, hi: seq<int>,               // each node's interval
    val: seq<int>, head: seq<nat>)            // each position's value and tree head

  ghost predicate Sized(g: Forest) {
    && |g.ls| == N + 1 && |g.rs| == 2 * N + 1 && |g.da| == N + 1
    && |g.lo| == N && |g.hi| == N && |g.val| == N && |g.head| == N
    && (forall x :: x in g.live ==> x < N)
    && (forall x :: 0 <= x < N ==> N < g.head[x] <= 2 * N && Bound(g.head[x]) < g.val[x] < Bound(g.head[x] + 1))
  }

  // A slot of node or head p: its son and its interval.

  ghost predicate IsSlot(g: Forest, p: nat, right: bool) {
    p in g.live || (N < p <= 2 * N && right)
  }

  function Kid(g: Forest, p: nat, right: bool): nat
    requires Sized(g) && IsSlot(g, p, right)
  {
    if right then g.rs[p] else g.ls[p]
  }

  ghost function SlotLo(g: Forest, p: nat, right: bool): int
    requires Sized(g) && IsSlot(g, p, right)
  {
    if p > N then Bound(p) else if right then g.val[p] else g.lo[p]
  }

  ghost function SlotHi(g: Forest, p: nat, right: bool): int
    requires Sized(g) && IsSlot(g, p, right)
  {
    if p > N then Bound(p + 1) else if right then g.hi[p] else g.val[p]
  }

  function HeadOf(g: Forest, p: nat): nat
    requires Sized(g) && p <= 2 * N
  {
    if p < N then g.head[p] else p
  }

  /** No live value lies strictly between a and b. */
  ghost predicate NoneIn(g: Forest, a: int, b: int)
    requires Sized(g)
  {
    forall y :: y in g.live ==> !(a < g.val[y] < b)
  }

  /** dad[x] names the slot that holds x, and x owns that slot's interval. */
  ghost predicate UpOk(g: Forest, x: nat)
    requires Sized(g) && x in g.live
  {
    var p := g.da[x];
    && p <= 2 * N
    && var right := g.rs[p] == x;
    && IsSlot(g, p, right) && Kid(g, p, right) == x
    && HeadOf(g, p) == g.head[x]
    && g.lo[x] == SlotLo(g, p, right) && g.hi[x] == SlotHi(g, p, right)
  }

  /** A slot's son is NIL and the slot empty, or it is a live node whose dad owns the slot. */
  ghost predicate SlotOk(g: Forest, p: nat, right: bool)
    requires Sized(g) && IsSlot(g, p, right)
  {
    var q := Kid(g, p, right);
    if q == NIL then NoneIn(g, SlotLo(g, p, right), SlotHi(g, p, right))
    else q in g.live && g.da[q] == p && (g.rs[p] == q <==> right)
  }

  ghost predicate BoundsOk(g: Forest, x: nat)
    requires Sized(g) && x in g.live
  {
    Bound(g.head[x]) <= g.lo[x] < g.val[x] < g.hi[x] <= Bound(g.head[x] + 1)
  }

  /** The intervals of two nodes are disjoint, or one lies in a slot of the other. */
  ghost predicate Laminar(g: Forest, x: nat, y: nat)
    requires Sized(g) && x < N && y < N
  {
    || g.hi[x] <= g.lo[y] || g.hi[y] <= g.lo[x]
    || (g.lo[x] <= g.lo[y] && g.hi[y] <= g.val[x]) || (g.val[x] <= g.lo[y] && g.hi[y] <= g.hi[x])
    || (g.lo[y] <= g.lo[x] && g.hi[x] <= g.val[y]) || (g.val[y] <= g.lo[x] && g.hi[x] <= g.hi[y])
  }

  /** The ends of an interval are live values or ends of a tree. */
  ghost predicate Border(g: Forest, v: int)
    requires Sized(g)
  {
    (exists y :: y in g.live && g.val[y] == v) || (exists e: nat :: v == Bound(e))
  }

  ghost predicate BordersOk(g: Forest, x: nat)
    requires Sized(g) && x in g.live
  {
    Border(g, g.lo[x]) && Border(g, g.hi[x])
  }

  ghost predicate AllBorders(g: Forest) requires Sized(g) { forall x :: x in g.live ==> BordersOk(g, x) }
  ghost predicate AllUp(g: Forest) requires Sized(g) { forall x :: x in g.live ==> UpOk(g, x) }
  ghost predicate AllBounds(g: Forest) requires Sized(g) { forall x :: x in g.live ==> BoundsOk(g, x) }
  ghost predicate AllSlots(g: Forest) requires Sized(g) {
    forall p, right :: IsSlot(g, p, right) ==> SlotOk(g, p, right)
  }
  ghost predicate AllLaminar(g: Forest) requires Sized(g) {
    forall x, y :: x in g.live && y in g.live && x != y ==> Laminar(g, x, y)
  }
  ghost predicate DadTells(g: Forest) requires Sized(g) {
    forall x :: 0 <= x < N ==> (x in g.live <==> g.da[x] != NIL)
  }

  ghost predicate Valid(g: Forest) {
    Sized(g) && AllUp(g) && AllBounds(g) && AllBorders(g) && AllSlots(g) && AllLaminar(g) && DadTells(g)
  }

  // ------------------------------------------------------------------- attach

  /** r becomes the son of an empty slot. */
  function Attach(g: Forest, p: nat, right: bool, r: nat, lo: int, hi: int): Forest
    requires Sized(g) && IsSlot(g, p, right) && r < N
  {
    g.(rs := if right then g.rs[r := NIL][p := r] else g.rs[r := NIL],
       ls := if right then g.ls[r := NIL] else g.ls[r := NIL][p := r],
       da := g.da[r := p], live := g.live + {r}, lo := g.lo[r := lo], hi := g.hi[r := hi])
  }

  ghost predicate CanAttach(g: Forest, p: nat, right: bool, r: nat) {
    && Valid(g) && IsSlot(g, p, right) && r < N && r !in g.live
    && Kid(g, p, right) == NIL && HeadOf(g, p) == g.head[r]
    && SlotLo(g, p, right) < g.val[r] < SlotHi(g, p, right)
  }

  // The parts of the invariant, one instance at a time.

  lemma {:induction false} SlotFact(g: Forest, p: nat, right: bool)
    requires Valid(g) && IsSlot(g, p, right)
    ensures SlotOk(g, p, right)
  {
  }

  lemma {:induction false} NodeFact(g: Forest, x: nat)
    requires Valid(g) && x in g.live
    ensures UpOk(g, x) && BoundsOk(g, x) && SlotOk(g, x, true) && SlotOk(g, x, false)
  {
    hide Border;
  }

  lemma {:induction false} BorderFact(g: Forest, x: nat)
    requires Valid(g) && x in g.live
    ensures Border(g, g.lo[x]) && Border(g, g.hi[x])
  {
    hide Border;
  }

  lemma {:induction false} SlotBorders(g: Forest, p: nat, right: bool)
    requires Valid(g) && IsSlot(g, p, right)
    ensures Border(g, SlotLo(g, p, right)) && Border(g, SlotHi(g, p, right))
  {
    if p < N { BorderFact(g, p); }
  }

  lemma {:induction false} PairFact(g: Forest, x: nat, y: nat)
    requires Valid(g) && x in g.live && y in g.live && x != y
    ensures Laminar(g, x, y) && BoundsOk(g, x) && BoundsOk(g, y)
  {
  }

  /** No value lies in two empty slots of nodes. */
  lemma {:induction false} NodeSlotsApart(g: Forest, p: nat, right: bool, s: nat, side: bool, v: int)
    requires Sized(g) && p in g.live && s in g.live && p != s
    requires Laminar(g, p, s) && BoundsOk(g, p) && BoundsOk(g, s)
    requires NoneIn(g, SlotLo(g, p, right), SlotHi(g, p, right))
    requires NoneIn(g, SlotLo(g, s, side), SlotHi(g, s, side))
    requires SlotLo(g, p, right) < v < SlotHi(g, p, right)
    ensures !(SlotLo(g, s, side) < v < SlotHi(g, s, side))
  {
    hide Bound;
    assert !(SlotLo(g, p, right) < g.val[s] < SlotHi(g, p, right));
    assert !(SlotLo(g, s, side) < g.val[p] < SlotHi(g, s, side));
    hide NoneIn;
  }

  /** Slots of different trees do not meet; in one tree an empty head has no nodes. */
  lemma {:induction false} HeadsApart(g: Forest, p: nat, right: bool, r: nat, s: nat, side: bool)
    requires CanAttach(g, p, right, r) && IsSlot(g, s, side) && s != p && (s > N || p > N)
    requires SlotOk(g, p, right) && SlotOk(g, s, side) && Kid(g, s, side) == NIL
    ensures !(SlotLo(g, s, side) < g.val[r] < SlotHi(g, s, side))
  {
    hide Bound, AllUp, AllBorders, AllSlots, AllLaminar, DadTells;
    var hp, hs := HeadOf(g, p), HeadOf(g, s);
    if p < N { assert BoundsOk(g, p); }
    if s < N { assert BoundsOk(g, s); }
    if hs < hp {
      BoundMonotone(hs + 1, hp);
    } else if hp < hs {
      BoundMonotone(hp + 1, hs);
    }
  }

  /** The interval of a new son is nested in or disjoint from that of every node. */
  lemma {:induction false} AttachLaminarAt(g: Forest, p: nat, right: bool, r: nat, x: nat)
    requires CanAttach(g, p, right, r) && x in g.live
    ensures var g' := Attach(g, p, right, r, SlotLo(g, p, right), SlotHi(g, p, right));
      Sized(g') && Laminar(g', r, x) && Laminar(g', x, r)
  {
    hide Bound, AllUp, AllBounds, AllBorders, AllSlots, AllLaminar, DadTells;
    if p > N { AttachLaminarHead(g, p, right, r, x); } else { AttachLaminarNode(g, p, right, r, x); }
  }

  lemma {:induction false} AttachLaminarHead(g: Forest, p: nat, right: bool, r: nat, x: nat)
    requires CanAttach(g, p, right, r) && x in g.live && p > N
    ensures var g' := Attach(g, p, right, r, SlotLo(g, p, right), SlotHi(g, p, right));
      Sized(g') && Laminar(g', r, x) && Laminar(g', x, r)
  {
    hide Bound, AllUp, AllBounds, AllBorders, AllSlots, AllLaminar, DadTells;
    SlotFact(g, p, right);
    NodeFact(g, x);
    if p < g.head[x] { BoundMonotone(p + 1, g.head[x]); }
    if g.head[x] < p { BoundMonotone(g.head[x] + 1, p); }
  }

  lemma {:induction false} AttachLaminarNode(g: Forest, p: nat, right: bool, r: nat, x: nat)
    requires CanAttach(g, p, right, r) && x in g.live && p <= N
    ensures var g' := Attach(g, p, right, r, SlotLo(g, p, right), SlotHi(g, p, right));
      Sized(g') && Laminar(g', r, x) && Laminar(g', x, r)
  {
    hide Bound, AllUp, AllBounds, AllBorders, AllSlots, AllLaminar, DadTells;
    SlotFact(g, p, right);
    NodeFact(g, x);
    NodeFact(g, p);
    if x != p { PairFact(g, p, x); }
  }

  /** The new value lies in no other empty slot. */
  lemma {:induction false} AttachSlotAt(g: Forest, p: nat, right: bool, r: nat, s: nat, side: bool)
    requires CanAttach(g, p, right, r)
    requires var g' := Attach(g, p, right, r, SlotLo(g, p, right), SlotHi(g, p, right));
      Sized(g') && IsSlot(g', s, side)
    ensures var g' := Attach(g, p, right, r, SlotLo(g, p, right), SlotHi(g, p, right));
      SlotOk(g', s, side)
  {
    hide Bound, AllUp, AllBounds, AllBorders, AllSlots, AllLaminar, DadTells;
    var g' := Attach(g, p, right, r, SlotLo(g, p, right), SlotHi(g, p, right));
    SlotFact(g, p, right);
    if p < N { SlotFact(g, p, true); }
    if s == r {
      assert g'.ls[r] == NIL && g'.rs[r] == NIL;
    } else if s == p && side == right {
    } else {
      SlotFact(g, s, side);
      if Kid(g, s, side) == NIL {
        OtherSlotMisses(g, p, right, r, s, side);
      }
    }
  }

  lemma {:induction false} AttachUpNew(g: Forest, p: nat, right: bool, r: nat)
    requires CanAttach(g, p, right, r)
    ensures var g' := Attach(g, p, right, r, SlotLo(g, p, right), SlotHi(g, p, right));
      Sized(g') && UpOk(g', r) && BoundsOk(g', r)
  {
    hide Bound, AllUp, AllBounds, AllBorders, AllSlots, AllLaminar, DadTells, NoneIn;
    SlotFact(g, p, right);
    if p < N { NodeFact(g, p); }
  }

  lemma {:induction false} AttachUpAt(g: Forest, p: nat, right: bool, r: nat, x: nat)
    requires CanAttach(g, p, right, r) && x in g.live
    ensures var g' := Attach(g, p, right, r, SlotLo(g, p, right), SlotHi(g, p, right));
      Sized(g') && UpOk(g', x) && BoundsOk(g', x)
  {
    hide Bound, AllUp, AllBounds, AllBorders, AllSlots, AllLaminar, DadTells, NoneIn;
    SlotFact(g, p, right);
    NodeFact(g, x);
  }

  /** Attaching a position to an empty slot its value fits keeps the forest valid. */
  lemma {:induction false} AttachValid(g: Forest, p: nat, right: bool, r: nat)
    requires CanAttach(g, p, right, r)
    ensures Valid(Attach(g, p, right, r, SlotLo(g, p, right), SlotHi(g, p, right)))
  {
    hide Bound, AllUp, AllBorders, AllSlots, AllLaminar, UpOk, BoundsOk, SlotOk, Laminar;
    var g' := Attach(g, p, right, r, SlotLo(g, p, right), SlotHi(g, p, right));
    AttachAllUp(g, p, right, r);
    AttachAllBorders(g, p, right, r);
    AttachAllSlots(g, p, right, r);
    AttachAllLaminar(g, p, right, r);
    assert DadTells(g');
  }

  lemma {:induction false} AttachAllUp(g: Forest, p: nat, right: bool, r: nat)
    requires CanAttach(g, p, right, r)
    ensures var g' := Attach(g, p, right, r, SlotLo(g, p, right), SlotHi(g, p, right));
      Sized(g') && AllUp(g') && AllBounds(g')
  {
    hide Bound, UpOk, BoundsOk;
    var g' := Attach(g, p, right, r, SlotLo(g, p, right), SlotHi(g, p, right));
    forall x | x in g'.live ensures UpOk(g', x) && BoundsOk(g', x) {
      if x == r { AttachUpNew(g, p, right, r); } else { AttachUpAt(g, p, right, r, x); }
    }
  }

  /** An end that is a value or the end of a tree stays one when there are more nodes. */
  lemma {:induction false} BorderInMore(g: Forest, h: Forest, v: int)
    requires Sized(g) && Sized(h) && g.val == h.val && g.live <= h.live && Border(g, v)
    ensures Border(h, v)
  {
    hide Bound;
  }

  lemma {:induction false} AttachAllBorders(g: Forest, p: nat, right: bool, r: nat)
    requires CanAttach(g, p, right, r)
    ensures var g' := Attach(g, p, right, r, SlotLo(g, p, right), SlotHi(g, p, right));
      Sized(g') && AllBorders(g')
  {
    hide Bound, AllUp, AllBounds, AllSlots, AllLaminar, DadTells, Border, SlotLo, SlotHi;
    var lo, hi := SlotLo(g, p, right), SlotHi(g, p, right);
    var g' := Attach(g, p, right, r, lo, hi);
    SlotBorders(g, p, right);
    forall x | x in g'.live ensures BordersOk(g', x) {
      if x != r { BorderFact(g, x); }
      var a, b := if x == r then lo else g.lo[x], if x == r then hi else g.hi[x];
      BorderInMore(g, g', a);
      BorderInMore(g, g', b);
    }
  }

  lemma {:induction false} AttachAllSlots(g: Forest, p: nat, right: bool, r: nat)
    requires CanAttach(g, p, right, r)
    ensures var g' := Attach(g, p, right, r, SlotLo(g, p, right), SlotHi(g, p, right));
      Sized(g') && AllSlots(g')
  {
    hide Bound, SlotOk, AllUp, AllBounds, AllLaminar;
    var g' := Attach(g, p, right, r, SlotLo(g, p, right), SlotHi(g, p, right));
    AttachUpNew(g, p, right, r);
    forall s, side | IsSlot(g', s, side) ensures SlotOk(g', s, side) { AttachSlotAt(g, p, right, r, s, side); }
  }

  lemma {:induction false} AttachAllLaminar(g: Forest, p: nat, right: bool, r: nat)
    requires CanAttach(g, p, right, r)
    ensures var g' := Attach(g, p, right, r, SlotLo(g, p, right), SlotHi(g, p, right));
      Sized(g') && AllLaminar(g')
  {
    hide Bound, AllUp, AllBounds, AllBorders, AllSlots;
    var g' := Attach(g, p, right, r, SlotLo(g, p, right), SlotHi(g, p, right));
    AttachUpNew(g, p, right, r);
    forall x, y | x in g'.live && y in g'.live && x != y ensures Laminar(g', x, y) {
      if x == r {
        AttachLaminarAt(g, p, right, r, y);
      } else if y == r {
        AttachLaminarAt(g, p, right, r, x);
      } else {
        PairFact(g, x, y);
      }
    }
  }

  lemma {:induction false} OtherSlotMisses(g: Forest, p: nat, right: bool, r: nat, s: nat, side: bool)
    requires CanAttach(g, p, right, r) && IsSlot(g, s, side)
    requires Kid(g, s, side) == NIL && !(s == p && side == right)
    ensures !(SlotLo(g, s, side) < g.val[r] < SlotHi(g, s, side))
  {
    hide Bound, AllUp, AllBounds, AllBorders, AllSlots, AllLaminar, DadTells;
    SlotFact(g, p, right);
    SlotFact(g, s, side);
    if s > N || p > N {
      HeadsApart(g, p, right, r, s, side);
    } else if s != p {
      PairFact(g, p, s);
      NodeSlotsApart(g, p, right, s, side, g.val[r]);
    }
  }

  // ------------------------------------------------------------------- detach

  function ReLo(g: Forest, p: nat, emptyRight: bool): (r: seq<int>)
    requires Sized(g) && p < N
    ensures |r| == N
  {
    if emptyRight then g.lo
    else seq(N, x requires 0 <= x < N => if g.lo[x] == g.val[p] then g.lo[p] else g.lo[x])
  }

  function ReHi(g: Forest, p: nat, emptyRight: bool): (r: seq<int>)
    requires Sized(g) && p < N
    ensures |r| == N
  {
    if emptyRight then seq(N, x requires 0 <= x < N => if g.hi[x] == g.val[p] then g.hi[p] else g.hi[x])
    else g.hi
  }

  ghost predicate CanDetach(g: Forest, p: nat, emptyRight: bool) {
    Valid(g) && p in g.live && Kid(g, p, emptyRight) == NIL
  }

  /** The links of p name a slot and two sons. */
  ghost predicate Placed(g: Forest, p: nat) {
    && Sized(g) && p in g.live
    && g.da[p] <= 2 * N && (g.rs[g.da[p]] == p || g.da[p] < N)
    && g.ls[p] <= N && g.rs[p] <= N
  }

  lemma {:induction false} IsPlaced(g: Forest, p: nat)
    requires Valid(g) && p in g.live
    ensures Placed(g, p)
  {
    hide Bound, AllUp, AllBounds, AllBorders, AllSlots, AllLaminar, DadTells, NoneIn;
    NodeFact(g, p);
  }

  /** Put q where p was in the slot that holds p. */
  function Hang(g: Forest, p: nat, q: nat): (h: Forest)
    requires Placed(g, p) && q <= N
    ensures Sized(h) && h.live == g.live && h.lo == g.lo && h.hi == g.hi && h.val == g.val && h.head == g.head
  {
    var d := g.da[p];
    if g.rs[d] == p then g.(rs := g.rs[d := q], da := g.da[q := d])
    else g.(ls := g.ls[d := q], da := g.da[q := d])
  }

  /** Node p, one of whose slots is empty, gives its place to its other son. */
  function Detach(g: Forest, p: nat, emptyRight: bool): (r: Forest)
    requires CanDetach(g, p, emptyRight)
    ensures Sized(r)
  {
    IsPlaced(g, p);
    var h := Hang(g, p, Kid(g, p, !emptyRight));
    h.(da := h.da[p := NIL], live := g.live - {p}, lo := ReLo(g, p, emptyRight), hi := ReHi(g, p, emptyRight))
  }

  /** Nodes whose intervals meet are in one tree. */
  lemma {:induction false} SameTree(g: Forest, x: nat, y: nat)
    requires Sized(g) && x in g.live && y in g.live && BoundsOk(g, x) && BoundsOk(g, y)
    requires g.lo[y] < g.hi[x] && g.lo[x] < g.hi[y]
    ensures g.head[x] == g.head[y]
  {
    hide Bound;
    if g.head[x] < g.head[y] { BoundMonotone(g.head[x] + 1, g.head[y]); }
    if g.head[y] < g.head[x] { BoundMonotone(g.head[y] + 1, g.head[x]); }
  }

  lemma {:induction false} DetachLaminarAt(g: Forest, p: nat, emptyRight: bool, x: nat, y: nat)
    requires CanDetach(g, p, emptyRight) && x in g.live && y in g.live && x != p && y != p && x != y
    ensures var g' := Detach(g, p, emptyRight); Sized(g') && Laminar(g', x, y)
  {
    hide Bound, AllUp, AllBounds, AllBorders, AllSlots, AllLaminar, DadTells;
    hide NoneIn;
    PairFact(g, x, y);
    PairFact(g, p, x);
    PairFact(g, p, y);
    NotInEmpty(g, p, emptyRight, x);
    NotInEmpty(g, p, emptyRight, y);
  }

  lemma {:induction false} NotInEmpty(g: Forest, p: nat, emptyRight: bool, x: nat)
    requires CanDetach(g, p, emptyRight) && x in g.live
    ensures !(SlotLo(g, p, emptyRight) < g.val[x] < SlotHi(g, p, emptyRight))
  {
    hide Bound, AllUp, AllBounds, AllBorders, AllSlots, AllLaminar, DadTells;
    SlotFact(g, p, emptyRight);
  }

  lemma {:induction false} DetachBoundsAt(g: Forest, p: nat, emptyRight: bool, x: nat)
    requires CanDetach(g, p, emptyRight) && x in g.live && x != p
    ensures var g' := Detach(g, p, emptyRight); Sized(g') && BoundsOk(g', x)
  {
    hide Bound, AllUp, AllBounds, AllBorders, AllSlots, AllLaminar, DadTells, NoneIn;
    PairFact(g, p, x);
    if g.lo[p] < g.hi[x] && g.lo[x] < g.hi[p] { SameTree(g, p, x); }
  }

  lemma {:induction false} NotBound(g: Forest, p: nat, e: nat)
    requires Sized(g) && p in g.live && BoundsOk(g, p)
    ensures g.val[p] != Bound(e)
  {
    hide Bound;
    if e <= g.head[p] { BoundMonotone(e, g.head[p]); } else { BoundMonotone(g.head[p] + 1, e); }
  }

  lemma {:induction false} DetachUpSon(g: Forest, p: nat, emptyRight: bool, x: nat)
    requires CanDetach(g, p, emptyRight) && x in g.live && x != p && g.da[x] == p
    ensures UpOk(Detach(g, p, emptyRight), x)
  {
    hide Bound, AllUp, AllBounds, AllBorders, AllSlots, AllLaminar, DadTells, NoneIn;
    NodeFact(g, p);
    NodeFact(g, x);
    assert x == Kid(g, p, !emptyRight);
    var d := g.da[p];
    if d < N { NodeFact(g, d); }
  }

  /** The slot of x, whose dad is not p, still holds x. */
  lemma {:induction false} DetachKeepsKid(g: Forest, p: nat, emptyRight: bool, x: nat)
    requires CanDetach(g, p, emptyRight) && x in g.live && x != p && g.da[x] != p
    requires UpOk(g, x) && UpOk(g, p)
    ensures Detach(g, p, emptyRight).da[x] == g.da[x]
    ensures Detach(g, p, emptyRight).rs[g.da[x]] == x <==> g.rs[g.da[x]] == x
    ensures g.rs[g.da[x]] != x ==> Detach(g, p, emptyRight).ls[g.da[x]] == x
  {
    hide Bound, AllUp, AllBounds, AllBorders, AllSlots, AllLaminar, DadTells, NoneIn, Laminar, BoundsOk;
    SlotFact(g, p, !emptyRight);
    if g.da[x] < N { SlotFact(g, g.da[x], true); }
  }

  lemma {:induction false} DetachUpOther(g: Forest, p: nat, emptyRight: bool, x: nat)
    requires CanDetach(g, p, emptyRight) && x in g.live && x != p && g.da[x] != p
    ensures UpOk(Detach(g, p, emptyRight), x)
  {
    hide Bound, AllUp, AllBounds, AllBorders, AllSlots, AllLaminar, DadTells, NoneIn;
    NodeFact(g, p);
    NodeFact(g, x);
    DetachKeepsKid(g, p, emptyRight, x);
    DetachLive(g, p, emptyRight);
    var e := g.da[x];
    if e < N {
      PairFact(g, p, e);
    } else {
      NotBound(g, p, e);
      NotBound(g, p, e + 1);
    }
    hide Hang;
  }

  lemma {:induction false} DetachUpAt(g: Forest, p: nat, emptyRight: bool, x: nat)
    requires CanDetach(g, p, emptyRight) && x in g.live && x != p
    ensures UpOk(Detach(g, p, emptyRight), x)
  {
    if g.da[x] == p {
      DetachUpSon(g, p, emptyRight, x);
    } else {
      DetachUpOther(g, p, emptyRight, x);
    }
  }

  /** Removing p empties no slot that held another value, nor fills one. */
  lemma {:induction false} DetachSlotAt(g: Forest, p: nat, emptyRight: bool, s: nat, side: bool)
    requires CanDetach(g, p, emptyRight) && s != p && IsSlot(g, s, side)
    ensures SlotOk(Detach(g, p, emptyRight), s, side)
  {
    hide Bound, AllUp, AllBounds, AllBorders, AllSlots, AllLaminar, DadTells;
    NodeFact(g, p);
    SlotFact(g, s, side);
    var d := g.da[p];
    if s == d && side == (g.rs[d] == p) {
      DetachParentSlot(g, p, emptyRight);
    } else if Kid(g, s, side) == NIL {
      DetachEmptySlot(g, p, emptyRight, s, side);
    } else {
      DetachFullSlot(g, p, emptyRight, s, side);
    }
  }

  /** The slot that held p holds the other son now, or is empty with p's interval. */
  lemma {:induction false} DetachParentSlot(g: Forest, p: nat, emptyRight: bool)
    requires CanDetach(g, p, emptyRight)
    ensures var d := g.da[p];
      d <= 2 * N && IsSlot(Detach(g, p, emptyRight), d, g.rs[d] == p)
        && SlotOk(Detach(g, p, emptyRight), d, g.rs[d] == p)
  {
    hide Bound, AllUp, AllBounds, AllBorders, AllSlots, AllLaminar, DadTells, SlotOk, Detach;
    NodeFact(g, p);
    if Kid(g, p, !emptyRight) == NIL {
      DetachParentEmpty(g, p, emptyRight);
    } else {
      DetachParentFull(g, p, emptyRight);
    }
  }

  lemma {:induction false} DetachParentEmpty(g: Forest, p: nat, emptyRight: bool)
    requires CanDetach(g, p, emptyRight) && Kid(g, p, !emptyRight) == NIL
    ensures var d, g' := g.da[p], Detach(g, p, emptyRight);
      d <= 2 * N && Sized(g') && IsSlot(g', d, g.rs[d] == p) && SlotOk(g', d, g.rs[d] == p)
  {
    hide Bound, AllUp, AllBounds, AllBorders, AllSlots, AllLaminar, DadTells;
    NodeFact(g, p);
    var d := g.da[p];
    if d < N { NodeFact(g, d); }
    NoneInside(g, p, emptyRight);
  }

  lemma {:induction false} DetachParentFull(g: Forest, p: nat, emptyRight: bool)
    requires CanDetach(g, p, emptyRight) && Kid(g, p, !emptyRight) != NIL
    ensures var d, g' := g.da[p], Detach(g, p, emptyRight);
      d <= 2 * N && Sized(g') && IsSlot(g', d, g.rs[d] == p) && SlotOk(g', d, g.rs[d] == p)
  {
    hide Bound, AllUp, AllBounds, AllBorders, AllSlots, AllLaminar, DadTells, NoneIn;
    NodeFact(g, p);
    var d := g.da[p];
    if d < N { NodeFact(g, d); }
  }

  /** A node without sons is alone in its interval. */
  lemma {:induction false} NoneInside(g: Forest, p: nat, emptyRight: bool)
    requires CanDetach(g, p, emptyRight) && Kid(g, p, !emptyRight) == NIL
    ensures forall y :: y in g.live && y != p ==> !(g.lo[p] < g.val[y] < g.hi[p])
  {
    hide Bound, AllUp, AllBounds, AllBorders, AllSlots, AllLaminar, DadTells;
    NodeFact(g, p);
    forall y | y in g.live && y != p ensures !(g.lo[p] < g.val[y] < g.hi[p]) {
      PairFact(g, p, y);
    }
  }

  lemma {:induction false} DetachEmptySlot(g: Forest, p: nat, emptyRight: bool, s: nat, side: bool)
    requires CanDetach(g, p, emptyRight) && s != p && IsSlot(g, s, side) && Kid(g, s, side) == NIL
    ensures SlotOk(Detach(g, p, emptyRight), s, side)
  {
    hide Bound, AllUp, AllBounds, AllBorders, AllSlots, AllLaminar, DadTells;
    NodeFact(g, p);
    SlotFact(g, s, side);
    DetachMisses(g, p, emptyRight, s, side);
    assert Kid(Detach(g, p, emptyRight), s, side) == NIL;
  }

  lemma {:induction false} DetachMisses(g: Forest, p: nat, emptyRight: bool, s: nat, side: bool)
    requires CanDetach(g, p, emptyRight) && s != p && IsSlot(g, s, side) && Kid(g, s, side) == NIL
    ensures var g' := Detach(g, p, emptyRight);
      Sized(g') && IsSlot(g', s, side) && forall y :: y in g.live && y != p ==>
        !(SlotLo(g', s, side) < g.val[y] < SlotHi(g', s, side))
  {
    hide Bound, AllUp, AllBounds, AllBorders, AllSlots, AllLaminar, DadTells;
    NodeFact(g, p);
    SlotFact(g, s, side);
    SlotFact(g, p, emptyRight);
    if s < N { PairFact(g, p, s); }
    var g' := Detach(g, p, emptyRight);
    forall y | y in g.live && y != p
      ensures !(SlotLo(g', s, side) < g.val[y] < SlotHi(g', s, side))
    {
      PairFact(g, p, y);
    }
  }

  lemma {:induction false} DetachFullSlot(g: Forest, p: nat, emptyRight: bool, s: nat, side: bool)
    requires CanDetach(g, p, emptyRight) && s != p && IsSlot(g, s, side) && Kid(g, s, side) != NIL
    requires !(s == g.da[p] && side == (g.rs[g.da[p]] == p))
    ensures SlotOk(Detach(g, p, emptyRight), s, side)
  {
    hide Bound, AllUp, AllBounds, AllBorders, AllSlots, AllLaminar, DadTells, NoneIn;
    NodeFact(g, p);
    SlotFact(g, s, side);
    if s < N { SlotFact(g, s, true); }
    NodeFact(g, Kid(g, s, side));
  }

  lemma {:induction false} DetachBordersAt(g: Forest, p: nat, emptyRight: bool, x: nat)
    requires CanDetach(g, p, emptyRight) && x in g.live && x != p
    ensures BordersOk(Detach(g, p, emptyRight), x)
  {
    hide Bound, AllUp, AllBounds, AllBorders, AllSlots, AllLaminar, DadTells;
    var g' := Detach(g, p, emptyRight);
    BorderFact(g, p);
    BorderFact(g, x);
    NodeFact(g, p);
    BorderStays(g, g', p, g.lo[p]);
    BorderStays(g, g', p, g.hi[p]);
    if g.lo[x] != g.val[p] { BorderStays(g, g', p, g.lo[x]); }
    if g.hi[x] != g.val[p] { BorderStays(g, g', p, g.hi[x]); }
    DetachBorderMoves(g, p, emptyRight, x);
  }

  /** No other interval ends at p on the side of its empty slot. */
  lemma {:induction false} DetachBorderMoves(g: Forest, p: nat, emptyRight: bool, x: nat)
    requires CanDetach(g, p, emptyRight) && x in g.live && x != p
    ensures emptyRight ==> g.lo[x] != g.val[p]
    ensures !emptyRight ==> g.hi[x] != g.val[p]
  {
    hide Bound, AllUp, AllBounds, AllBorders, AllSlots, AllLaminar, DadTells;
    SlotFact(g, p, emptyRight);
    PairFact(g, p, x);
  }

  lemma {:induction false} BorderStays(g: Forest, g': Forest, p: nat, v: int)
    requires Sized(g) && Sized(g') && p < N && g'.val == g.val && g.live - {p} <= g'.live
    requires Border(g, v) && v != g.val[p]
    ensures Border(g', v)
  {
    hide Bound;
  }

  /** A node with an empty slot can be taken out of the forest. */
  lemma {:induction false} DetachValid(g: Forest, p: nat, emptyRight: bool)
    requires CanDetach(g, p, emptyRight)
    ensures Valid(Detach(g, p, emptyRight))
  {
    var g' := Detach(g, p, emptyRight);
    assert AllUp(g') by {
      hide Detach, UpOk;
      forall x | x in g'.live ensures UpOk(g', x) { DetachLive(g, p, emptyRight); DetachUpAt(g, p, emptyRight, x); }
    }
    assert AllBounds(g') by {
      hide Detach, BoundsOk;
      forall x | x in g'.live ensures BoundsOk(g', x) {
        DetachLive(g, p, emptyRight);
        DetachBoundsAt(g, p, emptyRight, x);
      }
    }
    assert AllBorders(g') by {
      hide Detach, BordersOk;
      forall x | x in g'.live ensures BordersOk(g', x) {
        DetachLive(g, p, emptyRight);
        DetachBordersAt(g, p, emptyRight, x);
      }
    }
    assert AllLaminar(g') by {
      hide Detach, Laminar;
      forall x, y | x in g'.live && y in g'.live && x != y ensures Laminar(g', x, y) {
        DetachLive(g, p, emptyRight);
        DetachLaminarAt(g, p, emptyRight, x, y);
      }
    }
    assert AllSlots(g') by {
      hide Detach, SlotOk;
      forall s, side | IsSlot(g', s, side) ensures SlotOk(g', s, side) {
        DetachLive(g, p, emptyRight);
        DetachSlotAt(g, p, emptyRight, s, side);
      }
    }
    assert DadTells(g') by {
      DetachDad(g, p, emptyRight);
    }
  }

  lemma {:induction false} DetachLive(g: Forest, p: nat, emptyRight: bool)
    requires CanDetach(g, p, emptyRight)
    ensures Detach(g, p, emptyRight).live == g.live - {p} && p < N
  {
  }

  lemma {:induction false} DetachDad(g: Forest, p: nat, emptyRight: bool)
    requires CanDetach(g, p, emptyRight)
    ensures DadTells(Detach(g, p, emptyRight))
  {
    hide Bound, AllUp, AllBounds, AllBorders, AllSlots, AllLaminar, NoneIn;
    NodeFact(g, p);
    var q := Kid(g, p, !emptyRight);
    SlotFact(g, p, !emptyRight);
  }

  // --------------------------------------------------------------- substitute

  /** No live value but p's lies from that of q up to that of p. */
  ghost predicate CanSubstitute(g: Forest, p: nat, q: nat) {
    && Valid(g) && p in g.live && q < N && q !in g.live
    && g.head[q] == g.head[p] && g.lo[p] < g.val[q] <= g.val[p]
    && (forall y :: y in g.live && y != p ==> !(g.val[q] <= g.val[y] < g.val[p]))
  }

  function ReBound(b: seq<int>, from: int, to: int): (r: seq<int>)
    requires |b| == N
    ensures |r| == N
    ensures forall x :: 0 <= x < N ==> r[x] == if b[x] == from then to else b[x]
  {
    seq(N, x requires 0 <= x < N => if b[x] == from then to else b[x])
  }

  /** q takes the place of p, with p's sons. */
  function Substitute(g: Forest, p: nat, q: nat): (r: Forest)
    requires CanSubstitute(g, p, q)
    ensures Sized(r)
  {
    IsPlaced(g, p);
    Swap(g, p, q)
  }

  function Swap(g: Forest, p: nat, q: nat): (r: Forest)
    requires Placed(g, p) && q < N
    ensures Sized(r)
  {
    var h := Hang(g, p, q);
    h.(ls := h.ls[q := g.ls[p]], rs := h.rs[q := g.rs[p]],
       da := h.da[g.ls[p] := q][g.rs[p] := q][p := NIL],
       live := g.live - {p} + {q},
       lo := ReBound(g.lo, g.val[p], g.val[q])[q := g.lo[p]],
       hi := ReBound(g.hi, g.val[p], g.val[q])[q := g.hi[p]])
  }

  /** No interval ends between the values of q and p. */
  lemma {:induction false} NoBorderBetween(g: Forest, p: nat, q: nat, v: int)
    requires CanSubstitute(g, p, q) && Border(g, v)
    ensures !(g.val[q] <= v < g.val[p])
  {
    hide AllUp, AllBounds, AllBorders, AllSlots, AllLaminar, DadTells;
    if y :| y in g.live && g.val[y] == v {
    } else {
      var e: nat :| v == Bound(e);
      NodeFact(g, p);
      if e <= g.head[p] { BoundMonotone(e, g.head[p]); } else { BoundMonotone(g.head[p] + 1, e); }
    }
  }

  /** How another node lies to p and q. */
  lemma {:induction false} SubstituteFact(g: Forest, p: nat, q: nat, x: nat)
    requires CanSubstitute(g, p, q) && x in g.live && x != p
    ensures Laminar(g, p, x) && BoundsOk(g, p) && BoundsOk(g, x)
    ensures !(g.val[q] <= g.lo[x] < g.val[p]) && !(g.val[q] <= g.hi[x] < g.val[p])
  {
    hide Bound, AllUp, AllBounds, AllBorders, AllSlots, AllLaminar, DadTells;
    PairFact(g, p, x);
    BorderFact(g, x);
    NoBorderBetween(g, p, q, g.lo[x]);
    NoBorderBetween(g, p, q, g.hi[x]);
  }

  lemma {:induction false} SubstituteBoundsAt(g: Forest, p: nat, q: nat, x: nat)
    requires CanSubstitute(g, p, q) && (x == q || (x in g.live && x != p))
    ensures BoundsOk(Substitute(g, p, q), x)
  {
    hide Bound, AllUp, AllBounds, AllBorders, AllSlots, AllLaminar, DadTells, Hang;
    NodeFact(g, p);
    if x != q {
      PairFact(g, p, x);
      if g.lo[p] < g.hi[x] && g.lo[x] < g.hi[p] { SameTree(g, p, x); }
    }
  }

  lemma {:induction false} SubstituteLaminarAt(g: Forest, p: nat, q: nat, x: nat, y: nat)
    requires CanSubstitute(g, p, q) && x in g.live && y in g.live && x != p && y != p && x != y
    ensures Laminar(Substitute(g, p, q), x, y)
  {
    hide Bound, AllUp, AllBounds, AllBorders, AllSlots, AllLaminar, DadTells, Hang;
    PairFact(g, x, y);
    SubstituteFact(g, p, q, x);
    SubstituteFact(g, p, q, y);
    hide Border;
  }

  lemma {:induction false} SubstituteLaminarNew(g: Forest, p: nat, q: nat, x: nat)
    requires CanSubstitute(g, p, q) && x in g.live && x != p
    ensures Laminar(Substitute(g, p, q), q, x) && Laminar(Substitute(g, p, q), x, q)
  {
    hide Bound, AllUp, AllBounds, AllBorders, AllSlots, AllLaminar, DadTells, Hang;
    SubstituteFact(g, p, q, x);
  }

  lemma {:induction false} SubstituteUpNew(g: Forest, p: nat, q: nat)
    requires CanSubstitute(g, p, q)
    ensures UpOk(Substitute(g, p, q), q)
  {
    hide Bound, AllUp, AllBounds, AllBorders, AllSlots, AllLaminar, DadTells, NoneIn, Laminar;
    NodeFact(g, p);
    var d := g.da[p];
    if d < N { NodeFact(g, d); }
  }

  lemma {:induction false} SubstituteUpSon(g: Forest, p: nat, q: nat, x: nat)
    requires CanSubstitute(g, p, q) && x in g.live && x != p && g.da[x] == p
    ensures UpOk(Substitute(g, p, q), x)
  {
    hide Bound, AllUp, AllBounds, AllBorders, AllSlots, AllLaminar, DadTells, NoneIn, Laminar;
    NodeFact(g, p);
    NodeFact(g, x);
  }

  lemma {:induction false} SubstituteKeepsKid(g: Forest, p: nat, q: nat, x: nat)
    requires CanSubstitute(g, p, q) && x in g.live && x != p && g.da[x] != p
    requires UpOk(g, x) && UpOk(g, p)
    ensures Substitute(g, p, q).da[x] == g.da[x] && g.da[x] != q
    ensures Substitute(g, p, q).rs[g.da[x]] == x <==> g.rs[g.da[x]] == x
    ensures g.rs[g.da[x]] != x ==> Substitute(g, p, q).ls[g.da[x]] == x
  {
    hide Bound, AllUp, AllBounds, AllBorders, AllSlots, AllLaminar, DadTells, NoneIn, Laminar, BoundsOk;
    SlotFact(g, p, true);
    SlotFact(g, p, false);
    if g.da[x] < N { SlotFact(g, g.da[x], true); }
  }

  lemma {:induction false} SubstituteUpOther(g: Forest, p: nat, q: nat, x: nat)
    requires CanSubstitute(g, p, q) && x in g.live && x != p && g.da[x] != p
    ensures UpOk(Substitute(g, p, q), x)
  {
    hide Bound, AllUp, AllBounds, AllBorders, AllSlots, AllLaminar, DadTells, NoneIn, Hang;
    NodeFact(g, p);
    NodeFact(g, x);
    SubstituteKeepsKid(g, p, q, x);
    var e := g.da[x];
    if e < N {
      PairFact(g, p, e);
    } else {
      NotBound(g, p, e);
      NotBound(g, p, e + 1);
    }
  }

  lemma {:induction false} SubstituteUpAt(g: Forest, p: nat, q: nat, x: nat)
    requires CanSubstitute(g, p, q) && (x == q || (x in g.live && x != p))
    ensures UpOk(Substitute(g, p, q), x)
  {
    if x == q {
      SubstituteUpNew(g, p, q);
    } else if g.da[x] == p {
      SubstituteUpSon(g, p, q, x);
    } else {
      SubstituteUpOther(g, p, q, x);
    }
  }

  /** The slots of q are those of p. */
  lemma {:induction false} SubstituteSlotNew(g: Forest, p: nat, q: nat, side: bool)
    requires CanSubstitute(g, p, q)
    ensures SlotOk(Substitute(g, p, q), q, side)
  {
    hide Bound, AllUp, AllBounds, AllBorders, AllSlots, AllLaminar, DadTells;
    NodeFact(g, p);
    if Kid(g, p, side) == NIL {
      forall y | y in g.live && y != p
        ensures side ==> !(g.val[q] < g.val[y] < g.hi[p])
        ensures !side ==> !(g.lo[p] < g.val[y] < g.val[q])
      {
        PairFact(g, p, y);
      }
    } else {
      hide NoneIn;
    }
  }

  lemma {:induction false} SubstituteParentSlot(g: Forest, p: nat, q: nat)
    requires CanSubstitute(g, p, q)
    ensures var d := g.da[p];
      d <= 2 * N && IsSlot(Substitute(g, p, q), d, g.rs[d] == p) && SlotOk(Substitute(g, p, q), d, g.rs[d] == p)
  {
    hide Bound, AllUp, AllBounds, AllBorders, AllSlots, AllLaminar, DadTells, NoneIn, Laminar;
    NodeFact(g, p);
    if g.da[p] < N { NodeFact(g, g.da[p]); }
  }

  lemma {:induction false} SubstituteEmptySlot(g: Forest, p: nat, q: nat, s: nat, side: bool)
    requires CanSubstitute(g, p, q) && s != p && IsSlot(g, s, side) && Kid(g, s, side) == NIL
    ensures SlotOk(Substitute(g, p, q), s, side)
  {
    hide Bound, AllUp, AllBounds, AllBorders, AllSlots, AllLaminar, DadTells;
    NodeFact(g, p);
    SlotFact(g, s, side);
    SubstituteMissesOthers(g, p, q, s, side);
    SubstituteMisses(g, p, q, s, side);
    assert Kid(Substitute(g, p, q), s, side) == NIL;
  }

  /** An empty slot stays empty, as far as the other nodes go. */
  lemma {:induction false} SubstituteMissesOthers(g: Forest, p: nat, q: nat, s: nat, side: bool)
    requires CanSubstitute(g, p, q) && s != p && IsSlot(g, s, side) && Kid(g, s, side) == NIL
    ensures var g' := Substitute(g, p, q);
      Sized(g') && IsSlot(g', s, side) && forall y :: y in g.live && y != p ==>
        !(SlotLo(g', s, side) < g.val[y] < SlotHi(g', s, side))
  {
    hide Bound, AllUp, AllBounds, AllBorders, AllSlots, AllLaminar, DadTells;
    NodeFact(g, p);
    SlotFact(g, s, side);
    if s < N { PairFact(g, p, s); }
    var g' := Substitute(g, p, q);
    forall y | y in g.live && y != p
      ensures !(SlotLo(g', s, side) < g.val[y] < SlotHi(g', s, side))
    {
      PairFact(g, p, y);
    }
  }

  lemma {:induction false} SubstituteMisses(g: Forest, p: nat, q: nat, s: nat, side: bool)
    requires CanSubstitute(g, p, q) && s != p && IsSlot(g, s, side) && Kid(g, s, side) == NIL
    ensures var g' := Substitute(g, p, q);
      !(SlotLo(g', s, side) < g.val[q] < SlotHi(g', s, side))
  {
    hide Bound, AllUp, AllBounds, AllBorders, AllSlots, AllLaminar, DadTells, Hang;
    NodeFact(g, p);
    SlotFact(g, s, side);
    if s < N {
      SubstituteFact(g, p, q, s);
    } else {
      if s < g.head[p] { BoundMonotone(s + 1, g.head[p]); }
      if g.head[p] < s { BoundMonotone(g.head[p] + 1, s); }
    }
  }

  lemma {:induction false} SubstituteFullSlot(g: Forest, p: nat, q: nat, s: nat, side: bool)
    requires CanSubstitute(g, p, q) && s != p && IsSlot(g, s, side) && Kid(g, s, side) != NIL
    requires !(s == g.da[p] && side == (g.rs[g.da[p]] == p))
    ensures SlotOk(Substitute(g, p, q), s, side)
  {
    hide Bound, AllUp, AllBounds, AllBorders, AllSlots, AllLaminar, DadTells, NoneIn;
    NodeFact(g, p);
    SlotFact(g, s, side);
    if s < N { SlotFact(g, s, true); }
    NodeFact(g, Kid(g, s, side));
  }

  lemma {:induction false} SubstituteSlotAt(g: Forest, p: nat, q: nat, s: nat, side: bool)
    requires CanSubstitute(g, p, q) && s != p && (s == q || IsSlot(g, s, side))
    ensures SlotOk(Substitute(g, p, q), s, side)
  {
    NodeFact(g, p);
    if s == q {
      SubstituteSlotNew(g, p, q, side);
    } else if s == g.da[p] && side == (g.rs[s] == p) {
      SubstituteParentSlot(g, p, q);
    } else if Kid(g, s, side) == NIL {
      SubstituteEmptySlot(g, p, q, s, side);
    } else {
      SubstituteFullSlot(g, p, q, s, side);
    }
  }

  lemma {:induction false} SubstituteLive(g: Forest, p: nat, q: nat)
    requires CanSubstitute(g, p, q)
    ensures Substitute(g, p, q).live == g.live - {p} + {q} && p < N && p != q
  {
  }

  lemma {:induction false} SubstituteBordersAt(g: Forest, p: nat, q: nat, x: nat)
    requires CanSubstitute(g, p, q) && (x == q || (x in g.live && x != p))
    ensures BordersOk(Substitute(g, p, q), x)
  {
    hide Bound, AllUp, AllBounds, AllBorders, AllSlots, AllLaminar, DadTells, Hang;
    var g' := Substitute(g, p, q);
    var y := if x == q then p else x;
    BorderFact(g, y);
    NodeFact(g, p);
    if g.lo[y] != g.val[p] { BorderStays(g, g', p, g.lo[y]); }
    if g.hi[y] != g.val[p] { BorderStays(g, g', p, g.hi[y]); }
    assert q in g'.live && Border(g', g.val[q]);
  }

  lemma {:induction false} SubstituteDad(g: Forest, p: nat, q: nat)
    requires CanSubstitute(g, p, q)
    ensures DadTells(Substitute(g, p, q))
  {
    hide Bound, AllUp, AllBounds, AllBorders, AllSlots, AllLaminar, NoneIn;
    NodeFact(g, p);
    SlotFact(g, p, true);
    SlotFact(g, p, false);
  }

  lemma {:induction false} SubstituteAllNodes(g: Forest, p: nat, q: nat)
    requires CanSubstitute(g, p, q)
    ensures var g' := Substitute(g, p, q); AllUp(g') && AllBounds(g') && AllBorders(g')
  {
    hide Substitute, UpOk, BoundsOk, BordersOk, CanSubstitute;
    var g' := Substitute(g, p, q);
    SubstituteLive(g, p, q);
    forall x | x in g'.live ensures UpOk(g', x) && BoundsOk(g', x) && BordersOk(g', x) {
      SubstituteUpAt(g, p, q, x);
      SubstituteBoundsAt(g, p, q, x);
      SubstituteBordersAt(g, p, q, x);
    }
  }

  lemma {:induction false} SubstituteAllLaminar(g: Forest, p: nat, q: nat)
    requires CanSubstitute(g, p, q)
    ensures AllLaminar(Substitute(g, p, q))
  {
    hide Substitute, Laminar, AllUp, AllBounds, AllBorders, AllSlots, DadTells;
    var g' := Substitute(g, p, q);
    SubstituteLive(g, p, q);
    forall x, y | x in g'.live && y in g'.live && x != y ensures Laminar(g', x, y) {
      if x == q {
        SubstituteLaminarNew(g, p, q, y);
      } else if y == q {
        SubstituteLaminarNew(g, p, q, x);
      } else {
        SubstituteLaminarAt(g, p, q, x, y);
      }
    }
  }

  lemma {:induction false} SubstituteAllSlots(g: Forest, p: nat, q: nat)
    requires CanSubstitute(g, p, q)
    ensures AllSlots(Substitute(g, p, q))
  {
    hide Substitute, SlotOk, AllUp, AllBounds, AllBorders, AllLaminar, DadTells;
    var g' := Substitute(g, p, q);
    SubstituteLive(g, p, q);
    forall s, side | IsSlot(g', s, side) ensures SlotOk(g', s, side) {
      SubstituteSlotAt(g, p, q, s, side);
    }
  }

  /** A node's place can be taken by a position whose value fits between the same others. */
  lemma {:induction false} SubstituteValid(g: Forest, p: nat, q: nat)
    requires CanSubstitute(g, p, q)
    ensures Valid(Substitute(g, p, q))
  {
    hide Substitute, AllUp, AllBounds, AllBorders, AllSlots, AllLaminar, DadTells, CanSubstitute;
    SubstituteAllNodes(g, p, q);
    SubstituteAllLaminar(g, p, q);
    SubstituteAllSlots(g, p, q);
    SubstituteDad(g, p, q);
  }

  // ------------------------------------------------------- what does not count

  /** Two forests that agree on their live nodes and on the heads. */
  ghost predicate SameForest(a: Forest, b: Forest) {
    && Sized(a) && Sized(b) && a.live == b.live
    && (forall x :: x in a.live ==>
          a.ls[x] == b.ls[x] && a.rs[x] == b.rs[x] && a.da[x] == b.da[x] && a.lo[x] == b.lo[x] && a.hi[x] == b.hi[x]
          && a.val[x] == b.val[x] && a.head[x] == b.head[x])
    && (forall d :: N < d <= 2 * N ==> a.rs[d] == b.rs[d])
    && DadTells(b)
  }

  lemma {:induction false} SameUp(a: Forest, b: Forest, x: nat)
    requires SameForest(a, b) && x in b.live && UpOk(a, x)
    ensures UpOk(b, x)
  {
    hide Bound, DadTells;
    assert x in a.live;
    if a.da[x] < N { assert a.da[x] in a.live; }
  }

  lemma {:induction false} SameBorder(a: Forest, b: Forest, v: int)
    requires SameForest(a, b) && Border(a, v)
    ensures Border(b, v)
  {
    hide Bound;
    if y :| y in a.live && a.val[y] == v {
      assert y in b.live && b.val[y] == v;
    }
  }

  lemma {:induction false} SameNode(a: Forest, b: Forest, x: nat)
    requires Valid(a) && SameForest(a, b) && x in b.live
    ensures UpOk(b, x) && BoundsOk(b, x) && BordersOk(b, x)
  {
    hide Bound, AllUp, AllBounds, AllBorders, AllSlots, AllLaminar, DadTells, NoneIn, Border, UpOk;
    NodeFact(a, x);
    BorderFact(a, x);
    SameUp(a, b, x);
    SameBorder(a, b, a.lo[x]);
    SameBorder(a, b, a.hi[x]);
  }

  lemma {:induction false} SameSlot(a: Forest, b: Forest, p: nat, right: bool)
    requires Valid(a) && SameForest(a, b) && IsSlot(b, p, right)
    ensures SlotOk(b, p, right)
  {
    hide Bound, AllUp, AllBounds, AllSlots, AllLaminar, DadTells, AllBorders;
    SlotFact(a, p, right);
    if Kid(a, p, right) != NIL { hide NoneIn; }
  }

  /** The invariant does not depend on the links and values of positions not in a tree. */
  lemma {:induction false} SameValid(a: Forest, b: Forest)
    requires Valid(a) && SameForest(a, b)
    ensures Valid(b)
  {
    hide UpOk, BoundsOk, BordersOk, SlotOk;
    forall x | x in b.live ensures UpOk(b, x) && BoundsOk(b, x) && BordersOk(b, x) { SameNode(a, b, x); }
    forall p, right | IsSlot(b, p, right) ensures SlotOk(b, p, right) { SameSlot(a, b, p, right); }
    forall x, y | x in b.live && y in b.live && x != y ensures Laminar(b, x, y) { PairFact(a, x, y); }
  }

  // ------------------------------------------------------------------- remove

  /** The rightmost node below the left son of p: its value comes right before p's. */
  ghost predicate Before(g: Forest, p: nat, q: nat)
    requires Sized(g)
  {
    && p in g.live && q in g.live && q != p
    && g.hi[q] == g.val[p] && g.lo[p] <= g.lo[q]
  }

  lemma {:induction false} BeforeSon(g: Forest, p: nat)
    requires Valid(g) && p in g.live && g.ls[p] != NIL
    ensures Before(g, p, g.ls[p])
  {
    hide Bound, AllUp, AllBounds, AllBorders, AllSlots, AllLaminar, DadTells, NoneIn;
    NodeFact(g, p);
    NodeFact(g, g.ls[p]);
  }

  lemma {:induction false} BeforeStep(g: Forest, p: nat, q: nat)
    requires Valid(g) && Before(g, p, q) && g.rs[q] != NIL
    ensures Before(g, p, g.rs[q]) && g.rs[q] in g.live && g.val[q] < g.val[g.rs[q]] < g.val[p]
  {
    hide Bound, AllUp, AllBounds, AllBorders, AllSlots, AllLaminar, DadTells, NoneIn;
    NodeFact(g, q);
    NodeFact(g, g.rs[q]);
  }

  /** Once the rightmost node is found it can be detached and put in the place of p. */
  lemma {:induction false} BeforeSubstitutes(g: Forest, p: nat, q: nat)
    requires Valid(g) && Before(g, p, q) && g.rs[q] == NIL
    ensures CanDetach(g, q, true) && CanSubstitute(Detach(g, q, true), p, q)
  {
    hide Bound, AllUp, AllBounds, AllBorders, AllSlots, AllLaminar, DadTells;
    NodeFact(g, p);
    NodeFact(g, q);
    PairFact(g, p, q);
    SameTree(g, p, q);
    DetachValid(g, q, true);
    var g' := Detach(g, q, true);
    forall y | y in g'.live && y != p ensures !(g.val[q] <= g.val[y] < g.val[p]) {
      PairFact(g, q, y);
    }
  }
}
