/** huft_build of archive/gzip/inflate.c as a whole: what it returns for every set of code
    lengths, and what its tables find. */
module Hufts {
  import opened BitString
  import opened Canonical
  import opened Ladder
  import opened HuftTables
  import opened HuftWalk
  import opened HuftMake
  import opened HuftSound

  // ------------------------------------------------------------ lengths and order

  function MaxLen(b: seq<nat>): (m: nat)
    ensures NoneAbove(b, m)
  {
    if b == [] then 0
    else
      var n, m := b[|b| - 1], MaxLen(b[..|b| - 1]);
      if n > m then n else m
  }

  lemma {:induction false} MaxLenUsed(b: seq<nat>)
    ensures MaxLen(b) > 0 ==> Count(b, MaxLen(b)) >= 1
    ensures b == [] || Count(b, MaxLen(b)) >= 1
  {
    if b != [] { MaxLenUsed(b[..|b| - 1]); }
  }

  lemma {:induction false} MaxLenIs(b: seq<nat>, m: nat)
    requires NoneAbove(b, m) && Count(b, m) >= 1
    ensures MaxLen(b) == m
  {
    var i := AtRank(b, m, 0);
    if MaxLen(b) > m { MaxLenUsed(b); CountNone(b, m, MaxLen(b)); }
  }

  /** The symbols with codes of k bits. */
  function SymsOf(b: seq<nat>, k: nat): (v: seq<nat>)
    ensures |v| == Count(b, k)
  {
    if b == [] then [] else SymsOf(b[..|b| - 1], k) + (if b[|b| - 1] == k then [|b| - 1] else [])
  }

  /** The symbols with codes of up to k bits, by length. */
  function SymsTo(b: seq<nat>, k: nat): seq<nat> {
    if k == 0 then [] else SymsTo(b, k - 1) + SymsOf(b, k)
  }

  function Order(b: seq<nat>): seq<nat> { SymsTo(b, MaxLen(b)) }

  /** Where symbol i stands in the order. */
  function Slot(b: seq<nat>, i: nat): nat
    requires i < |b|
  {
    Base(b, b[i]) + Count(b[..i], b[i])
  }

  lemma {:induction false} SymsOfAt(b: seq<nat>, i: nat)
    requires i < |b|
    ensures Count(b[..i], b[i]) < Count(b, b[i]) && SymsOf(b, b[i])[Count(b[..i], b[i])] == i
    decreases |b|
  {
    RankBound(b, i);
    var n := |b| - 1;
    if i < n {
      SymsOfAt(b[..n], i);
      assert b[..n][..i] == b[..i];
    }
  }

  lemma {:induction false} SymsToSize(b: seq<nat>, k: nat)
    ensures |SymsTo(b, k)| == Base(b, k + 1)
  {
    if k > 0 { SymsToSize(b, k - 1); }
  }

  lemma {:induction false} SymsToAt(b: seq<nat>, i: nat, k: nat)
    requires i < |b| && 1 <= b[i] <= k
    ensures Slot(b, i) < |SymsTo(b, k)| && SymsTo(b, k)[Slot(b, i)] == i
    decreases k
  {
    hide SymsOf, Count, Base;
    SymsOfAt(b, i);
    SymsToSize(b, k - 1);
    if b[i] < k { SymsToAt(b, i, k - 1); }
  }

  /** Every place is some symbol's. */
  lemma {:induction false} SlotTaken(b: seq<nat>, k: nat, q: nat) returns (i: nat)
    requires q < |SymsTo(b, k)|
    ensures i < |b| && 1 <= b[i] <= k && Slot(b, i) == q && SymsTo(b, k)[q] == i
    decreases k
  {
    SymsToSize(b, k - 1);
    if q < |SymsTo(b, k - 1)| {
      i := SlotTaken(b, k - 1, q);
    } else {
      i := AtRank(b, k, q - |SymsTo(b, k - 1)|);
      SymsToAt(b, i, k);
    }
  }

  lemma {:induction false} BaseUp(b: seq<nat>, j: nat, k: nat)
    requires 1 <= j < k
    ensures Base(b, j) + Count(b, j) <= Base(b, k)
  {
    if j < k - 1 { BaseUp(b, j, k - 1); }
  }

  lemma {:induction false} SlotBound(b: seq<nat>, k: nat)
    ensures Base(b, k) + Count(b, 0) <= |b|
    decreases |b|
  {
    BaseSnoc(b, k);
    if b == [] {
    } else {
      SlotBound(b[..|b| - 1], k);
    }
  }

  lemma {:induction false} BaseSnoc(b: seq<nat>, k: nat)
    ensures b == [] ==> Base(b, k) == 0
    ensures b != [] ==> Base(b, k) == Base(b[..|b| - 1], k) + (if 1 <= b[|b| - 1] < k then 1 else 0)
    decreases k
  {
    if k > 1 { BaseSnoc(b, k - 1); }
  }

  lemma {:induction false} SlotsApart(b: seq<nat>, i: nat, j: nat)
    requires i < j < |b| && b[i] > 0 && b[j] > 0
    ensures Slot(b, i) != Slot(b, j)
  {
    RankBound(b, i);
    RankBound(b, j);
    if b[i] < b[j] {
      BaseUp(b, b[i], b[j]);
    } else if b[j] < b[i] {
      BaseUp(b, b[j], b[i]);
    } else {
      CountPrefix(b, i, j, b[i]);
    }
  }

  // ----------------------------------------------------------- filling out codes

  /** The lengths, with as many more of the longest as complete the set. */
  function Filled(b: seq<nat>): seq<nat> {
    b + Dummies(Spare(b, MaxLen(b)), MaxLen(b))
  }

  function Dummies(n: int, g: nat): seq<nat> { if n <= 0 then [] else Dummies(n - 1, g) + [g] }

  lemma {:induction false} CountDummies(n: int, g: nat, k: nat)
    ensures Count(Dummies(n, g), k) == if k == g && n > 0 then n else 0
  {
    if n > 0 {
      CountDummies(n - 1, g, k);
      assert Dummies(n, g)[..|Dummies(n, g)| - 1] == Dummies(n - 1, g);
    }
  }

  lemma {:induction false} DummiesAbove(n: int, g: nat)
    ensures NoneAbove(Dummies(n, g), g)
  {
    if n > 0 { DummiesAbove(n - 1, g); }
  }

  lemma {:induction false} FilledCount(b: seq<nat>, k: nat)
    requires Spare(b, MaxLen(b)) >= 0
    ensures Count(Filled(b), k) == Count(b, k) + if k == MaxLen(b) then Spare(b, MaxLen(b)) else 0
  {
    hide Spare;
    CountSplit(b, Dummies(Spare(b, MaxLen(b)), MaxLen(b)), k);
    CountDummies(Spare(b, MaxLen(b)), MaxLen(b), k);
  }

  /** The codes of the set itself stay. */
  lemma {:induction false} FilledSame(b: seq<nat>, k: nat)
    requires Spare(b, MaxLen(b)) >= 0 && k <= MaxLen(b)
    ensures First(Filled(b), k) == First(b, k) && Base(Filled(b), k) == Base(b, k)
    ensures Spare(Filled(b), k) == if k == MaxLen(b) && k > 0 then 0 else Spare(b, k)
  {
    hide Filled, Count;
    if k > 0 {
      FilledSame(b, k - 1);
      FilledCount(b, k - 1);
      FilledCount(b, k);
    }
  }

  lemma {:induction false} FilledComplete(b: seq<nat>)
    requires Spare(b, MaxLen(b)) >= 0 && MaxLen(b) > 0
    ensures Complete(Filled(b), MaxLen(b)) && b <= Filled(b)
  {
    hide Spare;
    FilledSame(b, MaxLen(b));
    DummiesAbove(Spare(b, MaxLen(b)), MaxLen(b));
  }

  // ---------------------------------------------------------------- the tables

  function AllCodes(b: seq<nat>): seq<seq<bool>> {
    Codes(Filled(b), MaxLen(b), Count(Filled(b), MaxLen(b)))
  }

  /** Symbol i's code is where the symbol stands. */
  lemma {:induction false} CodeAtSlot(b: seq<nat>, i: nat)
    requires Spare(b, MaxLen(b)) >= 0 && i < |b| && b[i] > 0
    ensures Slot(b, i) < |Order(b)| <= |AllCodes(b)| && Order(b)[Slot(b, i)] == i
    ensures AllCodes(b)[Slot(b, i)] == Code(b, i)
  {
    hide Spare, First, Count, BitsOf, Codes, Base, Code, Filled;
    var g, ls := MaxLen(b), Filled(b);
    SymsToAt(b, i, g);
    SymsToSize(b, g);
    RankBound(b, i);
    FilledCount(b, b[i]);
    FilledSame(b, b[i]);
    FilledSame(b, g);
    FilledCount(b, g);
    CodesAt(ls, b[i], Count(b[..i], b[i]), g, Count(ls, g));
    CodesSize(ls, g, Count(ls, g));
    BaseNext(b, g);
    BaseNext(ls, g);
    CodeIsNumber(b, i);
  }

  lemma {:induction false} BaseNext(b: seq<nat>, k: nat)
    requires k >= 1
    ensures Base(b, k + 1) == Base(b, k) + Count(b, k)
  {
  }

  lemma {:induction false} CodeIsNumber(b: seq<nat>, i: nat)
    requires i < |b|
    ensures Code(b, i) == BitsOf(First(b, b[i]) + Count(b[..i], b[i]), b[i])
  {
  }

  /** Every symbol has an entry huft_build can make. */
  ghost predicate Entered(b: seq<nat>, s: nat, d: seq<nat>, e: seq<nat>) {
    forall i :: 0 <= i < |b| ==> Valued(i, s, d, e) && (i >= s ==> e[i - s] < 16 || e[i - s] == 99)
  }

  function EveryOp(b: seq<nat>, s: nat, d: seq<nat>, e: seq<nat>): seq<(nat, nat)>
    requires AllValued(Order(b), s, d, e)
  {
    AllOps(Order(b), s, d, e, |b|, |AllCodes(b)|)
  }

  lemma {:induction false} OrderValued(b: seq<nat>, s: nat, d: seq<nat>, e: seq<nat>)
    requires Entered(b, s, d, e)
    ensures AllValued(Order(b), s, d, e) && OpsOk(EveryOp(b, s, d, e))
  {
    hide MaxLen, SymsTo;
    forall q | 0 <= q < |Order(b)|
      ensures Valued(Order(b)[q], s, d, e) && (Order(b)[q] >= s ==> e[Order(b)[q] - s] < 16 || e[Order(b)[q] - s] == 99)
    {
      var i := SlotTaken(b, MaxLen(b), q);
    }
  }

  /** The tables that decode the lengths b, the first one looked at with l bits. */
  ghost predicate Tabled(b: seq<nat>, s: nat, d: seq<nat>, e: seq<nat>, l: nat, g: Made) {
    && Spare(b, MaxLen(b)) >= 0 && MaxLen(b) > 0 && Entered(b, s, d, e) && AllValued(Order(b), s, d, e)
    && Coded(Filled(b), MaxLen(b), AllCodes(b))
    && Finished(g, l, AllCodes(b), EveryOp(b, s, d, e), MaxLen(b))
  }

  /** In sound tables every code is found, with the bits it has, by whatever follows it. */
  lemma {:induction false} FindsEvery(b: seq<nat>, s: nat, d: seq<nat>, e: seq<nat>, l: nat, g: Made, i: nat,
                                      t: seq<bool>)
    requires Tabled(b, s, d, e, l, g) && Sound(b, l, MaxLen(b))
    requires i < |b| && b[i] > 0 && Code(b, i) <= t && |t| >= MaxLen(b) + 1
    ensures Valued(i, s, d, e) && Walk(g.tabs, 0, l, t) == Found(Op(i, s, d, e).0, Op(i, s, d, e).1, b[i])
  {
    hide Spare, Code, AllCodes, Finished, Walk, MaxLen, SymsTo, Filled, Entered;
    var cs, ops := AllCodes(b), EveryOp(b, s, d, e);
    CodeAtSlot(b, i);
    EnteredAt(b, s, d, e, i);
    SoundFilled(b, l);
    FinishedParts(g, l, cs, ops, MaxLen(b));
    forall u | 1 <= u < |g.pre| ensures Straight(g, l, cs, u) {
      StraightAll(Filled(b), MaxLen(b), cs, ops, g, l, u);
    }
    var q := Slot(b, i);
    assert cs[q][|g.pre[0]|..] == cs[q];
    WalkFinds(g, l, cs, ops, MaxLen(b), q, 0, t);
  }

  lemma {:induction false} StraightAll(ls: seq<nat>, max: nat, cs: seq<seq<bool>>, ops: seq<(nat, nat)>, g: Made,
                                       l: nat, u: nat)
    requires Coded(ls, max, cs) && Finished(g, l, cs, ops, max) && Sound(ls, l, max)
    requires 1 <= u < |g.tabs| == |g.pre| == |g.jb|
    ensures Straight(g, l, cs, u)
  {
    hide Coded, Finished, Sound;
    forall q: nat | q < |cs| && g.pre[u] <= cs[q] && |cs[q]| > |g.pre[u]| + l ensures g.jb[u] == l {
      StraightIf(ls, max, cs, ops, g, l, u, q);
    }
  }

  lemma {:induction false} EnteredAt(b: seq<nat>, s: nat, d: seq<nat>, e: seq<nat>, i: nat)
    requires Entered(b, s, d, e) && i < |b|
    ensures Valued(i, s, d, e)
  {
  }

  lemma {:induction false} FinishedParts(g: Made, l: nat, cs: seq<seq<bool>>, ops: seq<(nat, nat)>, max: nat)
    requires Finished(g, l, cs, ops, max)
    ensures |g.tabs| == |g.pre| == |g.jb| == |g.born| && g.tabs != [] && g.pre[0] == [] && l >= 1 && |ops| <= |cs|
    ensures IsLadder(cs)
  {
    ShapeSize(g, l, cs, |cs|);
    RootEmpty(g, l, cs, |cs|);
  }

  lemma {:induction false} SoundFilled(b: seq<nat>, l: nat)
    requires Spare(b, MaxLen(b)) >= 0
    ensures Sound(b, l, MaxLen(b)) <==> Sound(Filled(b), l, MaxLen(b))
  {
    hide Spare, Filled, MaxLen, Pow2;
    forall w: nat | LevelStarts(w, l, MaxLen(b)) ensures Spare(b, w + l - 1) == Spare(Filled(b), w + l - 1) {
      FilledSame(b, w + l - 1);
    }
  }

  /** Unsound tables of a complete set miss a code: the last one, whatever follows it. */
  lemma {:induction false} UnsoundMisses(b: seq<nat>, s: nat, d: seq<nat>, e: seq<nat>, l: nat, g: Made)
    returns (i: nat)
    requires Tabled(b, s, d, e, l, g) && Spare(b, MaxLen(b)) == 0 && !Sound(b, l, MaxLen(b))
    ensures i < |b| && b[i] > 0 && b[i] == MaxLen(b) && Count(b[..i], b[i]) + 1 == Count(b, b[i])
    ensures forall t :: Code(b, i) <= t ==> Walk(g.tabs, 0, l, t) == Miss
  {
    hide Spare, Code, Finished, Walk, MaxLen, SymsTo, Filled, Entered, Codes, Pow2;
    var cs, ops, max := AllCodes(b), EveryOp(b, s, d, e), MaxLen(b);
    SoundFilled(b, l);
    MaxLenUsed(b);
    FilledCount(b, max);
    var w: nat :| LevelStarts(w, l, max) && Spare(Filled(b), w + l - 1) >= Pow2(l - 1);
    var u := TooBig(Filled(b), max, cs, ops, g, l, w);
    LastCode(Filled(b), max, cs);
    FinishedParts(g, l, cs, ops, max);
    i := AtRank(b, max, Count(b, max) - 1);
    CodeAtSlot(b, i);
    LastSlot(b, i);
    var q := |cs| - 1;
    assert cs[q][|g.pre[0]|..] == cs[q];
    forall t | Code(b, i) <= t ensures Walk(g.tabs, 0, l, t) == Miss {
      MissBelow(g, l, cs, ops, max, q, 0, u, t);
    }
  }

  lemma {:induction false} LastSlot(b: seq<nat>, i: nat)
    requires Spare(b, MaxLen(b)) == 0 && MaxLen(b) > 0
    requires i < |b| && b[i] == MaxLen(b) && Count(b[..i], b[i]) + 1 == Count(b, b[i])
    ensures |AllCodes(b)| == Slot(b, i) + 1
  {
    hide Spare, Filled, MaxLen, Count, Codes, Base;
    var g := MaxLen(b);
    FilledCount(b, g);
    FilledSame(b, g);
    CodesSize(Filled(b), g, Count(Filled(b), g));
  }

  /** For a complete set: every code is found exactly when the condition on the lengths holds. */
  lemma {:induction false} FindsAllIffSound(b: seq<nat>, s: nat, d: seq<nat>, e: seq<nat>, l: nat, g: Made)
    requires Tabled(b, s, d, e, l, g) && Spare(b, MaxLen(b)) == 0
    ensures Sound(b, l, MaxLen(b)) <==> FindsAll(b, s, d, e, l, g)
  {
    hide Spare, Code, Walk, MaxLen, Tabled, Sound, Op;
    if Sound(b, l, MaxLen(b)) {
      forall i: nat, t | i < |b| && b[i] > 0 && Code(b, i) <= t && |t| >= MaxLen(b) + 1
        ensures Finds(b, s, d, e, l, g, i, t)
      {
        FindsEvery(b, s, d, e, l, g, i, t);
      }
    } else {
      var i := UnsoundMisses(b, s, d, e, l, g);
      var t := Code(b, i) + seq(MaxLen(b) + 1, _ => false);
      assert Code(b, i) <= t && |t| >= MaxLen(b) + 1;
      assert !Finds(b, s, d, e, l, g, i, t);
    }
  }

  ghost predicate Finds(b: seq<nat>, s: nat, d: seq<nat>, e: seq<nat>, l: nat, g: Made, i: nat, t: seq<bool>)
    requires i < |b|
  {
    Valued(i, s, d, e) && Walk(g.tabs, 0, l, t) == Found(Op(i, s, d, e).0, Op(i, s, d, e).1, b[i])
  }

  ghost predicate FindsAll(b: seq<nat>, s: nat, d: seq<nat>, e: seq<nat>, l: nat, g: Made) {
    forall i: nat, t :: i < |b| && b[i] > 0 && Code(b, i) <= t && |t| >= MaxLen(b) + 1 ==> Finds(b, s, d, e, l, g, i, t)
  }

  // -------------------------------------------------------------- huft_build

  lemma {:induction false} AllZero(b: seq<nat>)
    ensures Count(b, 0) == |b| <==> MaxLen(b) == 0
  {
    if b != [] { AllZero(b[..|b| - 1]); }
  }

  /** Generate counts for each bit length. */
  method CountLengths(b: seq<nat>) returns (c: array<nat>)
    requires NoneAbove(b, 15)
    ensures fresh(c) && c.Length == BMAX + 1 && forall k :: 0 <= k <= BMAX ==> c[k] == Count(b, k)
  {
    hide Count;
    c := new nat[BMAX + 1](_ => 0);
    var i := 0;
    NoneCounted(b);
    while i < |b|
      invariant i <= |b| && forall k :: 0 <= k <= BMAX ==> c[k] == Count(b[..i], k)
    {
      OneCounted(b, i);
      c[b[i]] := c[b[i]] + 1;
      i := i + 1;
    }
    assert b[..i] == b;
  }

  lemma {:induction false} NoneCounted(b: seq<nat>)
    ensures forall k :: Count(b[..0], k) == 0
  {
  }

  lemma {:induction false} OneCounted(b: seq<nat>, i: nat)
    requires i < |b|
    ensures forall k :: Count(b[..i + 1], k) == Count(b[..i], k) + if k == b[i] then 1 else 0
  {
    assert b[..i + 1][..i] == b[..i];
  }

  /** Make a table of values in order of bit lengths. */
  method SortValues(b: seq<nat>, c: array<nat>, g: nat) returns (v: seq<nat>)
    requires 1 <= |b| <= N_MAX && g == MaxLen(b) && 1 <= g <= 15
    requires c.Length == BMAX + 1 && forall k :: 0 <= k <= BMAX ==> c[k] == Count(b, k)
    ensures v == Order(b)
  {
    hide Count, Base, MaxLen, SymsTo;
    var x := Offsets(b, c, g);
    var vs := new nat[N_MAX];
    var i: nat := 0;
    NoneCounted(b);
    SlotBound(b, g + 1);
    SymsToSize(b, g);
    while i < |b|
      invariant i <= |b| && vs.Length == N_MAX
      invariant forall k :: 1 <= k <= g ==> x[k] == Base(b, k) + Count(b[..i], k)
      invariant forall h :: 0 <= h < i && b[h] > 0 ==> InPlace(b, g, vs[..], h)
    {
      var j := b[i];
      if j != 0 {
        SymsToAt(b, i, g);
        forall h | 0 <= h < i && b[h] > 0 ensures InPlace(b, g, vs[..][Slot(b, i) := i], h) {
          SlotsApart(b, h, i);
        }
        ghost var was: seq<nat> := vs[..];
        vs[x[j]] := i;
        assert vs[..] == was[Slot(b, i) := i];
        OneCounted(b, i);
        x[j] := x[j] + 1;
      } else {
        OneCounted(b, i);
      }
      i := i + 1;
    }
    v := vs[..|b| - c[0]];
    BaseTotal(b, g);
    forall q | 0 <= q < |v| ensures v[q] == Order(b)[q] {
      var h := SlotTaken(b, g, q);
      assert InPlace(b, g, vs[..], h);
    }
  }

  ghost predicate InPlace(b: seq<nat>, g: nat, vs: seq<nat>, h: nat)
    requires h < |b|
  {
    Slot(b, h) < |vs| && vs[Slot(b, h)] == h
  }

  /** All codes have one of the lengths. */
  lemma {:induction false} BaseTotal(b: seq<nat>, g: nat)
    requires NoneAbove(b, g)
    ensures Base(b, g + 1) + Count(b, 0) == |b|
  {
    BaseSnoc(b, g + 1);
    if b != [] { BaseTotal(b[..|b| - 1], g); }
  }

  /** Generate starting offsets into the value table for each length. */
  method Offsets(b: seq<nat>, c: array<nat>, g: nat) returns (x: array<nat>)
    requires 1 <= g <= 15 && c.Length == BMAX + 1 && forall k :: 0 <= k <= BMAX ==> c[k] == Count(b, k)
    ensures fresh(x) && x.Length == BMAX + 1 && forall k :: 1 <= k <= g ==> x[k] == Base(b, k)
  {
    hide Count;
    x := new nat[BMAX + 1];
    var j: nat := 0;
    x[1] := 0;
    var i := 1;
    while i < g
      invariant 1 <= i <= g && j == Base(b, i) && forall k :: 1 <= k <= i ==> x[k] == Base(b, k)
    {
      j := j + c[i];
      i := i + 1;
      x[i] := j;
    }
  }

  /** No code is shorter than k bits. */
  ghost predicate NoneShorter(b: seq<nat>, k: nat) { forall j: nat :: 1 <= j < k ==> Count(b, j) == 0 }

  lemma {:induction false} FreshSpare(b: seq<nat>, k: nat)
    requires k >= 1 && NoneShorter(b, k)
    ensures Spare(b, k - 1) == Pow2(k - 1) && Base(b, k) == 0
  {
    if k > 1 { FreshSpare(b, k - 1); }
  }

  /** The shortest and the longest code, and the bits of the first table between them. */
  method Bounds(b: seq<nat>, c: array<nat>, m: nat) returns (k: nat, g: nat, l: nat)
    requires NoneAbove(b, 15) && MaxLen(b) > 0
    requires c.Length == BMAX + 1 && forall j :: 0 <= j <= BMAX ==> c[j] == Count(b, j)
    ensures g == MaxLen(b) && 1 <= k <= g && NoneShorter(b, k) && Count(b, k) >= 1
    ensures l == if m < k then k else if m > g then g else m
  {
    hide Count, MaxLen;
    MaxLenUsed(b);
    MaxLenIs(b, MaxLen(b));
    MaxBound(b);
    l := m;
    var j := 1;
    while j <= BMAX && c[j] == 0
      invariant 1 <= j <= MaxLen(b) && NoneShorter(b, j)
    {
      j := j + 1;
    }
    k := j;
    if l < j { l := j; }
    var i := BMAX;
    while i != 0 && c[i] == 0
      invariant MaxLen(b) <= i <= BMAX
    {
      i := i - 1;
    }
    LongestIs(b, i);
    g := i;
    if l > i { l := i; }
  }

  lemma {:induction false} MaxBound(b: seq<nat>)
    requires NoneAbove(b, 15)
    ensures MaxLen(b) <= 15
  {
    if b != [] { MaxBound(b[..|b| - 1]); }
  }

  lemma {:induction false} LongestIs(b: seq<nat>, i: nat)
    requires MaxLen(b) <= i && Count(b, i) >= 1
    ensures i == MaxLen(b)
  {
    if i > MaxLen(b) { CountNone(b, MaxLen(b), i); }
  }

  /** Patterns of the longest codes left over; negative when there are too few. */
  method Leftover(b: seq<nat>, c: array<nat>, k: nat, g: nat) returns (y: int)
    requires c.Length == BMAX + 1 && forall j :: 0 <= j <= BMAX ==> c[j] == Count(b, j)
    requires 1 <= k <= g <= 15 && NoneShorter(b, k)
    ensures y < 0 <==> Spare(b, g) < 0
    ensures y >= 0 ==> y == Spare(b, g)
  {
    hide Count;
    var j := k;
    FreshSpare(b, k);
    y := Pow2(j);
    while j < g
      invariant k <= j <= g && y == 2 * Spare(b, j - 1)
    {
      y := y - c[j];
      if y < 0 {
        if Spare(b, g) >= 0 { SpareBelow(b, j, g); }
        return;
      }
      j := j + 1;
      y := 2 * y;
    }
    y := y - c[g];
  }

  /** The first table has at least the bits it is looked at with. */
  lemma {:induction false} RootLong(ls: seq<nat>, max: nat, cs: seq<seq<bool>>, ops: seq<(nat, nat)>, g: Made, l: nat)
    requires Coded(ls, max, cs) && Count(ls, max) >= 1 && l <= max
    requires Built(g, l, cs, ops, |cs|, |cs|) && AllSizes(g, l, cs, max)
    ensures g.tabs != [] && |g.jb| == |g.tabs| && l <= g.jb[0]
  {
    hide Entries, OnePrefix, Codes, Count;
    LastCode(ls, max, cs);
    var q := |cs| - 1;
    ShapeSize(g, l, cs, |cs|);
    ZeroMod(l);
    assert Rooted(g, l, cs, q) && HasTable(g, cs[q][..0]);
    RootEmpty(g, l, cs, |cs|);
    assert SizeOk(g, l, cs, max, 0);
    assert CodeFitsTable(g, l, cs, 0, q);
  }

  lemma {:induction false} ZeroMod(l: nat)
    requires l >= 1
    ensures 0 % l == 0
  {
  }

  /** huft_build: 2 exactly for oversubscribed lengths, 1 exactly for incomplete ones unless no
      code has more than one bit, else 0; and but for 2 the tables for the lengths. */
  method HuftBuild(b: seq<nat>, s: nat, d: seq<nat>, e: seq<nat>, m: nat)
    returns (r: nat, tabs: seq<seq<Huft>>, l: nat, ghost g: Made)
    requires 1 <= |b| <= N_MAX && NoneAbove(b, 15) && m >= 1 && Entered(b, s, d, e)
    ensures MaxLen(b) == 0 ==> r == 0 && tabs == [] && l == 0
    ensures MaxLen(b) > 0 ==> (r == 2 <==> Spare(b, MaxLen(b)) < 0)
    ensures MaxLen(b) > 0 ==> (r == 1 <==> Spare(b, MaxLen(b)) > 0 && MaxLen(b) != 1) && r <= 2
    ensures MaxLen(b) > 0 && r != 2 ==> Tabled(b, s, d, e, l, g) && tabs == g.tabs
    ensures MaxLen(b) > 0 ==> exists k :: FirstBits(b, m, k, l)
  {
    hide Count, MaxLen, Spare, Entered, Filled, SymsTo, Codes, Built, AllSizes;
    g := Made([], [], [], []);
    AllZero(b);
    var c := CountLengths(b);
    if c[0] == |b| {
      return 0, [], 0, g;
    }
    var k: nat, max: nat;
    k, max, l := Bounds(b, c, m);
    assert FirstBits(b, m, k, l);
    MaxBound(b);
    var y := Leftover(b, c, k, max);
    if y < 0 {
      return 2, [], l, g;
    }
    var v := SortValues(b, c, max);
    c[max] := c[max] + y;
    OrderValued(b, s, d, e);
    ReadyToMake(b, c[..], k, y);
    tabs, g := MakeTables(c[..], |b|, v, s, d, e, k, max, l, Filled(b), AllCodes(b));
    RootLong(Filled(b), max, AllCodes(b), EveryOp(b, s, d, e), g, l);
    r := if y != 0 && max != 1 then 1 else 0;
  }

  /** The first table is looked at with m bits, but no fewer than the shortest code k has, and
      no more than the longest. */
  ghost predicate FirstBits(b: seq<nat>, m: nat, k: nat, l: nat) {
    && 1 <= k <= MaxLen(b) && NoneShorter(b, k) && Count(b, k) >= 1
    && l == if m < k then k else if m > MaxLen(b) then MaxLen(b) else m
  }

  lemma {:induction false} ReadyToMake(b: seq<nat>, c: seq<nat>, k: nat, y: nat)
    requires 1 <= MaxLen(b) <= 15 && y == Spare(b, MaxLen(b)) && |c| == BMAX + 1
    requires forall j :: 0 <= j <= BMAX ==> c[j] == Count(b, j) + if j == MaxLen(b) then y else 0
    requires 1 <= k <= MaxLen(b) && NoneShorter(b, k) && Count(b, k) >= 1
    ensures Coding(Filled(b), MaxLen(b), c, AllCodes(b)) && Coded(Filled(b), MaxLen(b), AllCodes(b))
    ensures Base(Filled(b), k) == 0 && Count(Filled(b), MaxLen(b)) >= 1
    ensures |Order(b)| <= |AllCodes(b)| && |Order(b)| <= |b|
  {
    hide Count, MaxLen, Filled, SymsTo, Codes, Base;
    var g, ls := MaxLen(b), Filled(b);
    FilledComplete(b);
    forall j | 1 <= j <= g ensures c[j] == Count(ls, j) { FilledCount(b, j); }
    CodesLadder(ls, g, Count(ls, g));
    FilledSame(b, k);
    FreshSpare(b, k);
    MaxLenUsed(b);
    FilledCount(b, g);
    FilledSame(b, g);
    CodesSize(ls, g, Count(ls, g));
    SymsToSize(b, g);
    BaseNext(b, g);
    SlotBound(b, g + 1);
  }

  // ----------------------------------------------------- where the tables are right

  /** Two table levels are enough for codes of up to 2m bits: so in gzip for literals (m = 9),
      bit lengths (m = 7, codes of up to 7 bits) and the fixed trees (7 and 5, up to 9 and 5). */
  lemma {:induction false} TwoLevelsSound(b: seq<nat>, m: nat, k: nat, l: nat)
    requires FirstBits(b, m, k, l) && MaxLen(b) <= 2 * m
    ensures Sound(b, l, MaxLen(b))
  {
    hide Spare, Pow2, MaxLen, Count;
    forall w: nat ensures !LevelStarts(w, l, MaxLen(b)) {}
  }

  /** Each pattern left over at k bits is used by a longer code. */
  lemma {:induction false} SpareUsed(b: seq<nat>, k: nat, g: nat)
    requires k <= g && Spare(b, g) == 0
    ensures Spare(b, k) <= Base(b, g + 1) - Base(b, k + 1)
    decreases g - k
  {
    hide Count;
    if k < g {
      SpareUsed(b, k + 1, g);
      BaseNext(b, k + 1);
      if Spare(b, k + 1) < 0 { SpareBelow(b, k + 1, g); }
    }
  }

  /** Complete sets of up to 30 codes: gzip's distance codes (m = 6). */
  lemma {:induction false} FewCodesSound(b: seq<nat>, k: nat, l: nat)
    requires FirstBits(b, 6, k, l) && MaxLen(b) <= 15 && Spare(b, MaxLen(b)) == 0 && |b| <= 30
    ensures Sound(b, l, MaxLen(b))
  {
    hide Spare, MaxLen, Count;
    forall w: nat | LevelStarts(w, l, MaxLen(b)) ensures Spare(b, w + l - 1) < Pow2(l - 1) {
      SpareUsed(b, w + l - 1, MaxLen(b));
      SlotBound(b, MaxLen(b) + 1);
      Pow2Values();
      Pow2Monotone(5, l - 1);
    }
  }

  /** A set whose tables are wrong: four codes of 1, 2, 3 and 3 bits and a first table of one
      bit.  The second table has two bits where it should have one. */
  lemma {:induction false} UnsoundExample()
    ensures var b := [1, 2, 3, 3];
      MaxLen(b) == 3 && Spare(b, 3) == 0 && FirstBits(b, 1, 1, 1) && !Sound(b, 1, 3) && Code(b, 3) == [true, true, true]
  {
    var b: seq<nat> := [1, 2, 3, 3];
    assert b[..3] == [1, 2, 3] && b[..2] == [1, 2] && b[..1] == [1] && b[..0] == [];
    assert [1, 2, 3][..2] == [1, 2] && [1, 2][..1] == [1] && [1][..0] == [];
    ExampleCounts(b, 1);
    ExampleCounts(b, 2);
    ExampleCounts(b, 3);
    ExampleMax(b);
    assert Spare(b, 0) == 1 && Spare(b, 1) == 1 && Spare(b, 2) == 1 && Spare(b, 3) == 0;
    assert LevelStarts(1, 1, 3) && Spare(b, 1 + 1 - 1) >= Pow2(1 - 1);
    assert First(b, 2) == 2 && First(b, 3) == 6;
    assert Count(b[..3], 3) == 1;
    assert BitsOf(7, 3) == [true, true, true];
  }

  /** In the tables made for that set the code 111 of symbol 3 is never found. */
  lemma {:induction false} ExampleMisses(s: nat, d: seq<nat>, e: seq<nat>, g: Made, t: seq<bool>)
    requires Tabled([1, 2, 3, 3], s, d, e, 1, g) && [true, true, true] <= t
    ensures Walk(g.tabs, 0, 1, t) == Miss
  {
    hide Tabled, Walk, Spare, Sound, Code, MaxLen, Count;
    var b: seq<nat> := [1, 2, 3, 3];
    UnsoundExample();
    var i := UnsoundMisses(b, s, d, e, 1, g);
    LastOfExample(b, i);
  }

  lemma {:induction false} LastOfExample(b: seq<nat>, i: nat)
    requires b == [1, 2, 3, 3] && i < |b| && b[i] == 3 && Count(b[..i], 3) + 1 == Count(b, 3)
    ensures i == 3
  {
    ExampleCounts(b, 3);
    assert b[..2] == [1, 2] && [1, 2][..1] == [1] && [1][..0] == [];
    assert Count([], 3) == 0 && Count([1], 3) == 0 && Count([1, 2], 3) == 0;
  }

  lemma {:induction false} ExampleCounts(b: seq<nat>, k: nat)
    requires b == [1, 2, 3, 3] && 1 <= k <= 3
    ensures Count(b, k) == if k == 3 then 2 else 1
    ensures Count(b[..3], k) == 1
  {
    assert b[..3] == [1, 2, 3] && b[..2] == [1, 2] && b[..1] == [1] && b[..0] == [];
    assert b[..3][..2] == b[..2] && b[..2][..1] == b[..1] && b[..1][..0] == [];
    assert Count([], k) == 0;
    assert Count([1], k) == if k == 1 then 1 else 0;
    assert Count([1, 2], k) == if k <= 2 then 1 else 0;
    assert Count([1, 2, 3], k) == 1;
  }

  lemma {:induction false} ExampleMax(b: seq<nat>)
    requires b == [1, 2, 3, 3]
    ensures MaxLen(b) == 3
  {
    ExampleCounts(b, 3);
    MaxLenIs(b, 3);
  }
}
