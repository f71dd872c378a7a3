/** What the search of InsertNode in archive/lharc/lzhuf.c knows at each node, and what the
    cached prefix lengths in same[] stand for. */
module LzhufSearch {
  import opened LzhufKeys
  import opened LzhufForest

  /** ks[x] is the string at window position x; the forest's values are those strings'. */
  ghost predicate Keyed(g: Forest, ks: seq<Key>) {
    && Sized(g) && |ks| == N
    && (forall x :: 0 <= x < N ==> g.val[x] == KeyVal(ks[x]) && g.head[x] == Head(ks[x]))
  }

  /** The length same[x] stands for: how far x agrees with its dad; 1 below a head. */
  ghost function Agreed(ks: seq<Key>, p: nat, x: nat): nat
    requires |ks| == N && x < N
  {
    if p < N then Lcp(ks[p], ks[x]) else 1
  }

  ghost predicate SameOk(g: Forest, ks: seq<Key>, same: seq<nat>)
    requires Keyed(g, ks)
  {
    |same| == N + 1 && forall x :: x in g.live ==> same[x] == Agreed(ks, g.da[x], x)
  }

  function Cap(ml: nat): nat { if ml > THRESHOLD then ml else THRESHOLD }

  /** Every live string outside the interval searched next agrees with r at most Cap(ml) far. */
  ghost predicate Excluded(g: Forest, ks: seq<Key>, r: nat, lo: int, hi: int, ml: nat)
    requires Keyed(g, ks) && r < N
  {
    forall y :: y in g.live ==> lo < g.val[y] < hi || Lcp(ks[y], ks[r]) <= Cap(ml)
  }

  ghost predicate Searching(g: Forest, ks: seq<Key>, r: nat, p: nat, right: bool, i: nat, ml: nat) {
    && Valid(g) && Keyed(g, ks) && r < N && r !in g.live
    && IsSlot(g, p, right) && HeadOf(g, p) == g.head[r]
    && SlotLo(g, p, right) < g.val[r] < SlotHi(g, p, right)
    && 1 <= i < F && i == Agreed(ks, p, r)
    && Excluded(g, ks, r, SlotLo(g, p, right), SlotHi(g, p, right), ml)
  }

  lemma {:induction false} SameHead(g: Forest, ks: seq<Key>, x: nat, y: nat)
    requires Valid(g) && Keyed(g, ks) && x in g.live && y < N && g.lo[x] < g.val[y] < g.hi[x]
    ensures Head(ks[x]) == Head(ks[y])
  {
    hide AllUp, AllBounds, AllBorders, AllSlots, AllLaminar, DadTells, Head, KeyVal, Bound;
    NodeFact(g, x);
    if g.head[x] < g.head[y] { BoundMonotone(g.head[x] + 1, g.head[y]); }
    if g.head[y] < g.head[x] { BoundMonotone(g.head[y] + 1, g.head[x]); }
  }

  /** The search starts at the head of the tree r belongs to. */
  lemma {:induction false} SearchStart(g: Forest, ks: seq<Key>, r: nat)
    requires Valid(g) && Keyed(g, ks) && r < N && r !in g.live
    ensures Searching(g, ks, r, g.head[r], true, 1, 0)
  {
    hide AllUp, AllBounds, AllBorders, AllSlots, AllLaminar, DadTells, Head, KeyVal, Bound, Lcp;
    forall y | y in g.live
      ensures Bound(g.head[r]) < g.val[y] < Bound(g.head[r] + 1) || Lcp(ks[y], ks[r]) <= THRESHOLD
    {
      HeadLcp(ks[y], ks[r]);
    }
  }

  /** How far r agrees with the next node q, from same[q] and how far it agrees with p. */
  lemma {:induction false} SearchKid(g: Forest, ks: seq<Key>, r: nat, p: nat, right: bool, i: nat, ml: nat, q: nat,
                                     j: nat)
    requires Searching(g, ks, r, p, right, i, ml) && q == Kid(g, p, right) != NIL
    requires q in g.live ==> j == Agreed(ks, g.da[q], q)
    ensures q in g.live && g.da[q] == p && 1 <= j
    ensures i > j ==> Lcp(ks[r], ks[q]) == j
    ensures i == j ==> Lcp(ks[r], ks[q]) >= i
    ensures i < j ==> p < N && Lcp(ks[r], ks[q]) == i && ks[q][i] == ks[p][i]
  {
    hide AllUp, AllBounds, AllBorders, AllSlots, AllLaminar, DadTells, Head, KeyVal, Bound, Lcp, Excluded, NoneIn;
    SlotFact(g, p, right);
    NodeFact(g, q);
    HeadLcp(ks[r], ks[q]);
    if p < N {
      HeadLcp(ks[p], ks[q]);
      LcpSym(ks[p], ks[r]);
      LcpTriangle(ks[r], ks[p], ks[q]);
    }
  }

  /** Comparing r with the node q it agrees with i far says on which side r belongs. */
  lemma {:induction false} SideOf(g: Forest, ks: seq<Key>, r: nat, q: nat, i: nat)
    requires Keyed(g, ks) && r < N && q < N && g.head[q] == g.head[r]
    requires i == Lcp(ks[r], ks[q]) < F
    ensures ks[r][i] != ks[q][i]
    ensures ks[q][i] < ks[r][i] <==> g.val[q] < g.val[r]
    ensures g.val[q] != g.val[r]
  {
    hide Lcp, KeyVal, Num, Head;
    KeyValOrder(ks[r], ks[q]);
    KeyValOrder(ks[q], ks[r]);
    NumOrder(ks[r], ks[q]);
  }

  /** A string on the far side of q agrees with r no further than q does. */
  lemma {:induction false} FarSide(g: Forest, ks: seq<Key>, r: nat, q: nat, y: nat)
    requires Keyed(g, ks) && r < N && q < N && y < N && g.head[q] == g.head[r] == g.head[y]
    requires g.val[y] <= g.val[q] < g.val[r] || g.val[r] < g.val[q] <= g.val[y]
    ensures Lcp(ks[y], ks[r]) <= Lcp(ks[r], ks[q])
  {
    hide Lcp, KeyVal, Num, Head;
    KeyValOrder(ks[y], ks[q]);
    KeyValOrder(ks[q], ks[y]);
    KeyValOrder(ks[q], ks[r]);
    KeyValOrder(ks[r], ks[q]);
    NumOrder(ks[y], ks[q]);
    LcpSym(ks[r], ks[q]);
    LcpSym(ks[r], ks[y]);
    if g.val[q] < g.val[r] {
      LcpBetween(ks[y], ks[q], ks[r]);
    } else {
      LcpBetween(ks[r], ks[q], ks[y]);
    }
  }

  /** One step down: the slot of q on r's side. */
  lemma {:induction false} SearchStep(g: Forest, ks: seq<Key>, r: nat, p: nat, right: bool, i: nat, ml: nat, q: nat,
                                      i': nat, ml': nat)
    requires Searching(g, ks, r, p, right, i, ml) && q == Kid(g, p, right) != NIL && q in g.live && g.da[q] == p
    requires i' == Lcp(ks[r], ks[q]) && 1 <= i' < F
    requires Cap(ml') >= Cap(ml) && Cap(ml') >= i'
    ensures g.head[q] == g.head[r] && g.val[q] != g.val[r]
    ensures Searching(g, ks, r, q, g.val[q] < g.val[r], i', ml')
  {
    hide AllUp, AllBounds, AllBorders, AllSlots, AllLaminar, DadTells, Head, KeyVal, Bound, Lcp, NoneIn;
    SlotFact(g, p, right);
    NodeFact(g, q);
    SideOf(g, ks, r, q, i');
    LcpSym(ks[r], ks[q]);
    var right' := g.val[q] < g.val[r];
    forall y | y in g.live
      ensures SlotLo(g, q, right') < g.val[y] < SlotHi(g, q, right') || Lcp(ks[y], ks[r]) <= Cap(ml')
    {
      if g.lo[q] < g.val[y] < g.hi[q] {
        SameHead(g, ks, q, y);
        if !(SlotLo(g, q, right') < g.val[y] < SlotHi(g, q, right')) { FarSide(g, ks, r, q, y); }
      }
    }
  }

  /** At an empty slot the search is over: no live string agrees further. */
  lemma {:induction false} SearchDone(g: Forest, ks: seq<Key>, r: nat, p: nat, right: bool, i: nat, ml: nat)
    requires Searching(g, ks, r, p, right, i, ml) && Kid(g, p, right) == NIL
    ensures CanAttach(g, p, right, r)
    ensures forall y :: y in g.live ==> Lcp(ks[y], ks[r]) <= Cap(ml)
  {
    hide AllUp, AllBounds, AllBorders, AllSlots, AllLaminar, DadTells, Head, KeyVal, Bound, Lcp;
    SlotFact(g, p, right);
  }

  /** A node that agrees in full can be replaced. */
  lemma {:induction false} SearchFull(g: Forest, ks: seq<Key>, r: nat, q: nat)
    requires Valid(g) && Keyed(g, ks) && r < N && r !in g.live && q in g.live && Lcp(ks[r], ks[q]) == F
    ensures ks[q] == ks[r] && CanSubstitute(g, q, r)
  {
    hide AllUp, AllBounds, AllBorders, AllSlots, AllLaminar, DadTells, Head, KeyVal, Bound, Lcp, Num;
    NumOrder(ks[r], ks[q]);
    NodeFact(g, q);
  }

  // --------------------------------------------------------- what same[] keeps

  lemma {:induction false} AttachSame(g: Forest, ks: seq<Key>, same: seq<nat>, p: nat, right: bool, r: nat, i: nat)
    requires CanAttach(g, p, right, r) && Keyed(g, ks) && SameOk(g, ks, same) && i == Agreed(ks, p, r)
    ensures var g' := Attach(g, p, right, r, SlotLo(g, p, right), SlotHi(g, p, right));
      Keyed(g', ks) && SameOk(g', ks, same[r := i])
  {
    hide AllUp, AllBounds, AllBorders, AllSlots, AllLaminar, DadTells, Head, KeyVal, Bound, Lcp, Agreed;
  }

  lemma {:induction false} SubstituteSame(g: Forest, ks: seq<Key>, same: seq<nat>, p: nat, q: nat)
    requires CanSubstitute(g, p, q) && Keyed(g, ks) && SameOk(g, ks, same) && ks[p] == ks[q]
    ensures Keyed(Substitute(g, p, q), ks) && SameOk(Substitute(g, p, q), ks, same[q := same[p]])
  {
    hide AllUp, AllBounds, AllBorders, AllSlots, AllLaminar, DadTells, Head, KeyVal, Bound, Lcp;
    SubstituteLive(g, p, q);
    NodeFact(g, p);
    var g' := Substitute(g, p, q);
    forall x | x in g'.live ensures same[q := same[p]][x] == Agreed(ks, g'.da[x], x) {
      if x != q {
        NodeFact(g, x);
        if g.da[x] != p { SubstituteKeepsKid(g, p, q, x); }
      }
    }
  }

}
