/** Removing a node with two sons, as DeleteNode in archive/lharc/lzhuf.c relinks the arrays:
    the node q that comes right before p leaves its place and takes that of p. */
module LzhufSplice {
  import opened LzhufKeys
  import opened LzhufForest
  import opened LzhufSearch

  /** The links q has to p, its own dad and its left son. */
  ghost predicate Splicing(g: Forest, p: nat, q: nat) {
    && Valid(g) && Before(g, p, q) && g.rs[q] == NIL && g.ls[p] != NIL && g.rs[p] != NIL
  }

  /** The last three statements of DeleteNode. */
  function Finish(g: Forest, p: nat, q: nat): (r: Forest)
    requires Sized(g) && p < N && q <= N && g.da[p] <= 2 * N
    requires g.rs[g.da[p]] == p || g.da[p] < N
    ensures Sized(r)
  {
    var d := g.da[p];
    var da' := g.da[q := d][p := NIL];
    (if g.rs[d] == p then g.(rs := g.rs[d := q], da := da')
      else g.(ls := g.ls[d := q], da := da')).(live := g.live - {p})
  }

  /** The links before that when q is the left son of p. */
  function NearLinks(g: Forest, p: nat, q: nat): (r: Forest)
    requires Sized(g) && p < N && q < N && g.rs[p] <= N
    ensures Sized(r)
  {
    g.(rs := g.rs[q := g.rs[p]], da := g.da[g.rs[p] := q])
  }

  /** The links before that when q is further down. */
  function FarLinks(g: Forest, p: nat, q: nat): (r: Forest)
    requires Sized(g) && p < N && q < N && g.rs[p] <= N && g.ls[p] <= N && g.ls[q] <= N && g.da[q] <= 2 * N
    ensures Sized(r)
  {
    var e := g.da[q];
    g.(rs := g.rs[e := g.ls[q]][q := g.rs[p]],
       ls := g.ls[q := g.ls[p]],
       da := g.da[g.ls[q] := e][g.ls[p] := q][g.rs[p] := q])
  }

  /** Where the nodes concerned lie to each other. */
  lemma {:induction false} SpliceFacts(g: Forest, p: nat, q: nat)
    requires Splicing(g, p, q)
    ensures p < N && q < N && Placed(g, p) && Placed(g, q)
    ensures g.ls[p] in g.live && g.rs[p] in g.live && g.da[g.ls[p]] == p && g.da[g.rs[p]] == p && g.ls[p] != g.rs[p]
    ensures g.ls[q] != NIL ==> g.ls[q] in g.live && g.da[g.ls[q]] == q
    ensures g.da[p] != q && g.da[p] != p && g.da[q] != q && g.rs[p] != q
    ensures g.da[q] == p <==> g.ls[p] == q
    ensures g.da[q] != p ==> g.rs[g.da[q]] == q && g.da[q] in g.live && g.da[q] != g.da[p]
    ensures g.da[p] in g.live || N < g.da[p] <= 2 * N
  {
    hide Bound, AllUp, AllBounds, AllBorders, AllSlots, AllLaminar, DadTells, NoneIn;
    IsPlaced(g, p);
    IsPlaced(g, q);
    NodeFact(g, p);
    NodeFact(g, q);
    SpliceSide(g, p, q);
  }

  /** q hangs on the right of its dad unless that is p. */
  lemma {:induction false} SpliceSide(g: Forest, p: nat, q: nat)
    requires Splicing(g, p, q)
    ensures g.da[q] != p ==> g.rs[g.da[q]] == q && g.da[q] in g.live && g.da[q] != g.da[p]
    ensures g.da[q] == p ==> g.ls[p] == q
  {
    hide Bound, AllUp, AllBounds, AllBorders, AllSlots, AllLaminar, DadTells, NoneIn;
    NodeFact(g, q);
    NodeFact(g, p);
    var e := g.da[q];
    if e < N {
      NodeFact(g, e);
      if e != p { PairFact(g, p, e); }
    } else {
      NotBound(g, p, e + 1);
    }
  }

  ghost function Ideal(g: Forest, p: nat, q: nat): (r: Forest)
    requires CanDetach(g, q, true) && CanSubstitute(Detach(g, q, true), p, q)
  {
    Substitute(Detach(g, q, true), p, q)
  }

  lemma {:induction false} IdealFacts(g: Forest, p: nat, q: nat)
    requires CanDetach(g, q, true) && CanSubstitute(Detach(g, q, true), p, q)
    ensures Valid(Ideal(g, p, q)) && Ideal(g, p, q).live == g.live - {p}
    ensures Ideal(g, p, q).val == g.val && Ideal(g, p, q).head == g.head
  {
    hide Valid;
    SubstituteValid(Detach(g, q, true), p, q);
    DetachLive(g, q, true);
    SubstituteLive(Detach(g, q, true), p, q);
  }

  /** Detaching q and putting it in the place of p leaves the links DeleteNode leaves. */
  ghost predicate SameLinks(i: Forest, c: Forest, p: nat)
    requires Sized(i) && Sized(c) && p < N
  {
    && (forall x :: 0 <= x < N && x != p ==> i.ls[x] == c.ls[x] && i.da[x] == c.da[x])
    && (forall x :: 0 <= x <= 2 * N && x != p ==> i.rs[x] == c.rs[x])
    && i.da[p] == c.da[p] == NIL
  }

  // The links as plain sequence updates.

  lemma {:induction false} DetachLinks(g: Forest, q: nat)
    requires CanDetach(g, q, true) && Placed(g, q)
    ensures var h, e := Detach(g, q, true), g.da[q];
      && h.da == g.da[g.ls[q] := e][q := NIL]
      && (g.rs[e] == q ==> h.rs == g.rs[e := g.ls[q]] && h.ls == g.ls)
      && (g.rs[e] != q ==> h.rs == g.rs && h.ls == g.ls[e := g.ls[q]])
  {
    hide Valid;
  }

  lemma {:induction false} SwapLinks(h: Forest, p: nat, q: nat)
    requires Placed(h, p) && q < N
    ensures var i, d := Swap(h, p, q), h.da[p];
      && i.da == h.da[q := d][h.ls[p] := q][h.rs[p] := q][p := NIL]
      && (h.rs[d] == p ==> i.rs == h.rs[d := q][q := h.rs[p]] && i.ls == h.ls[q := h.ls[p]])
      && (h.rs[d] != p ==> i.rs == h.rs[q := h.rs[p]] && i.ls == h.ls[d := q][q := h.ls[p]])
  {
  }

  lemma {:induction false} IdealLinks(g: Forest, p: nat, q: nat)
    requires Splicing(g, p, q)
    requires CanDetach(g, q, true) && CanSubstitute(Detach(g, q, true), p, q)
    ensures Placed(g, p) && Placed(g, q) && p < N && q < N && Placed(Detach(g, q, true), p)
    ensures Sized(Detach(g, q, true))
    ensures Ideal(g, p, q) == Swap(Detach(g, q, true), p, q)
  {
    SpliceFacts(g, p, q);
    IsPlaced(Detach(g, q, true), p);
  }

  /** Positions of p, q, p's dad and sons, q's dad and left son. */
  ghost predicate Apart(g: Forest, p: nat, q: nat) {
    && Placed(g, p) && Placed(g, q) && p < N && q < N && p != q
    && g.da[p] != q && g.da[p] != p && g.da[q] != q && g.da[p] != N
    && g.rs[p] != q && g.rs[p] != p && g.ls[p] != p && g.ls[q] != p && g.ls[q] != q && g.rs[p] != N && g.ls[p] != N
    && g.rs[p] != g.ls[q] && g.rs[p] != g.ls[p]
    && (g.ls[p] == q <==> g.da[q] == p)
    && (g.da[q] != p ==> g.rs[g.da[q]] == q && g.da[q] < N && g.da[q] != g.da[p] && g.ls[p] != g.ls[q])
    && (g.ls[q] != N && g.ls[p] == q ==> g.da[g.ls[q]] == q)
  }

  lemma {:induction false} SpliceApart(g: Forest, p: nat, q: nat)
    requires Splicing(g, p, q)
    ensures Apart(g, p, q)
  {
    hide Valid, Before;
    SpliceFacts(g, p, q);
  }

  lemma {:induction false} NearEqual(g: Forest, h: Forest, i: Forest, p: nat, q: nat)
    requires Apart(g, p, q) && g.ls[p] == q && Sized(h) && Sized(i)
    requires h.da == g.da[g.ls[q] := p][q := NIL] && h.rs == g.rs && h.ls == g.ls[p := g.ls[q]]
    requires i.da == h.da[q := h.da[p]][h.ls[p] := q][h.rs[p] := q][p := NIL]
    requires h.rs[h.da[p]] == p ==> i.rs == h.rs[h.da[p] := q][q := h.rs[p]] && i.ls == h.ls[q := h.ls[p]]
    requires h.rs[h.da[p]] != p ==> i.rs == h.rs[q := h.rs[p]] && i.ls == h.ls[h.da[p] := q][q := h.ls[p]]
    ensures SameLinks(i, Finish(NearLinks(g, p, q), p, q), p)
  {
  }

  lemma {:induction false} FarEqual(g: Forest, h: Forest, i: Forest, p: nat, q: nat)
    requires Apart(g, p, q) && g.ls[p] != q && Sized(h) && Sized(i)
    requires h.da == g.da[g.ls[q] := g.da[q]][q := NIL] && h.rs == g.rs[g.da[q] := g.ls[q]] && h.ls == g.ls
    requires i.da == h.da[q := h.da[p]][h.ls[p] := q][h.rs[p] := q][p := NIL]
    requires h.rs[h.da[p]] == p ==> i.rs == h.rs[h.da[p] := q][q := h.rs[p]] && i.ls == h.ls[q := h.ls[p]]
    requires h.rs[h.da[p]] != p ==> i.rs == h.rs[q := h.rs[p]] && i.ls == h.ls[h.da[p] := q][q := h.ls[p]]
    ensures SameLinks(i, Finish(FarLinks(g, p, q), p, q), p)
  {
  }

  /** What DeleteNode leaves is the forest without p. */
  function Spliced(g: Forest, p: nat, q: nat): (c: Forest)
    requires Apart(g, p, q)
    ensures Sized(c)
  {
    Finish(if g.ls[p] == q then NearLinks(g, p, q) else FarLinks(g, p, q), p, q)
  }

  lemma {:induction false} IdealIsSpliced(g: Forest, p: nat, q: nat)
    requires Splicing(g, p, q) && Apart(g, p, q)
    requires CanDetach(g, q, true) && CanSubstitute(Detach(g, q, true), p, q)
    ensures SameLinks(Ideal(g, p, q), Spliced(g, p, q), p)
  {
    hide Valid, Before, CanSubstitute, Detach, Swap, Substitute, SameLinks;
    IdealLinks(g, p, q);
    DetachLinks(g, q);
    var h := Detach(g, q, true);
    SwapLinks(h, p, q);
    if g.ls[p] == q {
      NearEqual(g, h, Ideal(g, p, q), p, q);
    } else {
      FarEqual(g, h, Ideal(g, p, q), p, q);
    }
  }

  /** The forest after the splice, with the intervals the ideal removal leaves. */
  ghost function After(g: Forest, p: nat, q: nat): (c: Forest)
    requires Apart(g, p, q) && CanDetach(g, q, true) && CanSubstitute(Detach(g, q, true), p, q)
  {
    Spliced(g, p, q).(lo := Ideal(g, p, q).lo, hi := Ideal(g, p, q).hi)
  }

  lemma {:induction false} SplicedPlain(g: Forest, p: nat, q: nat)
    requires Apart(g, p, q)
    ensures Spliced(g, p, q).live == g.live - {p} && Spliced(g, p, q).val == g.val && Spliced(g, p, q).head == g.head
  {
  }

  lemma {:induction false} AfterValid(g: Forest, p: nat, q: nat)
    requires Splicing(g, p, q)
    ensures Apart(g, p, q) && CanDetach(g, q, true) && CanSubstitute(Detach(g, q, true), p, q)
    ensures Valid(After(g, p, q))
  {
    SpliceApart(g, p, q);
    BeforeSubstitutes(g, p, q);
    IdealFacts(g, p, q);
    IdealIsSpliced(g, p, q);
    SplicedPlain(g, p, q);
    IdealSame(g, p, q);
    SameValid(Ideal(g, p, q), After(g, p, q));
  }

  lemma {:induction false} LinksMakeSame(i: Forest, c: Forest, p: nat)
    requires Sized(i) && DadTells(i) && Sized(c) && p < N && SameLinks(i, c, p)
    requires i.live == c.live && p !in i.live && i.val == c.val && i.head == c.head && i.lo == c.lo && i.hi == c.hi
    ensures SameForest(i, c)
  {
    hide Bound;
  }

  lemma {:induction false} IdealSame(g: Forest, p: nat, q: nat)
    requires Apart(g, p, q) && CanDetach(g, q, true) && CanSubstitute(Detach(g, q, true), p, q)
    requires Valid(Ideal(g, p, q)) && Ideal(g, p, q).live == g.live - {p}
    requires Ideal(g, p, q).val == g.val && Ideal(g, p, q).head == g.head
    requires SameLinks(Ideal(g, p, q), Spliced(g, p, q), p)
    ensures SameForest(Ideal(g, p, q), After(g, p, q))
  {
    hide Valid, CanDetach, CanSubstitute, Ideal, Spliced, Bound;
    SplicedPlain(g, p, q);
    var i, c := Ideal(g, p, q), After(g, p, q);
    IdealDad(i);
    LinksMakeSame(i, c, p);
  }

  lemma {:induction false} IdealDad(i: Forest)
    requires Valid(i)
    ensures Sized(i) && DadTells(i)
  {
  }

  // ------------------------------------------------------------ cached lengths

  /** same[] after the link and linknode calls of the two-son case. */
  ghost function Relinked(g: Forest, ks: seq<Key>, same: seq<nat>, p: nat, q: nat): (s: seq<nat>)
    requires Apart(g, p, q) && |ks| == N && |same| == N + 1
    ensures |s| == N + 1
  {
    var s1 := if g.ls[p] != q && g.ls[q] != NIL then same[g.ls[q] := Agreed(ks, g.da[q], g.ls[q])] else same;
    var s2 := if g.ls[p] != q then s1[g.ls[p] := Agreed(ks, q, g.ls[p])] else s1;
    s2[q := Agreed(ks, g.da[p], q)][g.rs[p] := Agreed(ks, q, g.rs[p])]
  }

  lemma {:induction false} RelinkedAt(g: Forest, ks: seq<Key>, same: seq<nat>, p: nat, q: nat, x: nat)
    requires Apart(g, p, q) && Keyed(g, ks) && SameOk(g, ks, same) && x in g.live && x != p
    requires g.da[x] == p ==> x == g.ls[p] || x == g.rs[p]
    requires g.da[x] == q ==> x == g.ls[q]
    ensures Relinked(g, ks, same, p, q)[x] == Agreed(ks, Spliced(g, p, q).da[x], x)
  {
    hide Head, KeyVal, Bound, Agreed;
  }

  lemma {:induction false} AfterSame(g: Forest, ks: seq<Key>, same: seq<nat>, p: nat, q: nat)
    requires Splicing(g, p, q) && Keyed(g, ks) && SameOk(g, ks, same)
    requires Apart(g, p, q) && CanDetach(g, q, true) && CanSubstitute(Detach(g, q, true), p, q)
    ensures Keyed(After(g, p, q), ks) && SameOk(After(g, p, q), ks, Relinked(g, ks, same, p, q))
  {
    hide Head, KeyVal, Bound, Agreed, Ideal, Relinked, Spliced, Apart, Valid, CanDetach, CanSubstitute;
    SplicedPlain(g, p, q);
    AfterValid(g, p, q);
    IdealDad(After(g, p, q));
    forall x | x in g.live && x != p
      ensures Relinked(g, ks, same, p, q)[x] == Agreed(ks, Spliced(g, p, q).da[x], x)
    {
      SonsOf(g, p, x);
      SonsOf(g, q, x);
      RelinkedAt(g, ks, same, p, q, x);
    }
  }

  lemma {:induction false} SonsOf(g: Forest, p: nat, x: nat)
    requires Valid(g) && p in g.live && x in g.live
    ensures p < N && x < N && (g.da[x] == p ==> x == g.ls[p] || x == g.rs[p])
  {
    hide AllUp, AllBounds, AllBorders, AllSlots, AllLaminar, DadTells, Bound, NoneIn;
    NodeFact(g, x);
  }
}
