/** gen_bitlen as a whole and gen_codes of archive/gzip/trees.c. */
module TreesCodes {
  import opened BitString
  import opened GzipBits
  import opened Canonical
  import opened Huffman
  import opened TreesBuild
  import opened TreesKraft
  import opened TreesLengths
  import opened TreesRepair

  // -------------------------------------------------------------------- sums

  lemma {:induction false} SumPlus(a: set<nat>, f: seq<nat>, g: seq<nat>, h: seq<nat>)
    requires |f| == |g| == |h| && forall i :: 0 <= i < |f| ==> h[i] == f[i] + g[i]
    ensures Sum(a, h) == Sum(a, f) + Sum(a, g)
  {
    if f != [] { SumPlus(a, f[..|f| - 1], g[..|f| - 1], h[..|f| - 1]); }
  }

  lemma {:induction false} SumZero(a: set<nat>, f: seq<nat>)
    requires forall x :: x in a && x < |f| ==> f[x] == 0
    ensures Sum(a, f) == 0
  {
    if f != [] { SumZero(a, f[..|f| - 1]); }
  }

  lemma {:induction false} SumCard(a: set<nat>, f: seq<nat>)
    requires forall x :: x in a ==> x < |f| && f[x] == 1
    ensures Sum(a, f) == |a|
    decreases |a|
  {
    if a == {} {
      SumNone(f);
    } else {
      var x :| x in a;
      SumRemove(a, f, x);
      SumCard(a - {x}, f);
    }
  }

  /** 1 for the nodes of 1 to b bits. */
  function Within(l: seq<nat>, b: nat): (s: seq<nat>)
    ensures |s| == |l| && forall x :: 0 <= x < |l| ==> s[x] == if 1 <= l[x] <= b then 1 else 0
  {
    seq(|l|, x requires 0 <= x < |l| => if 1 <= l[x] <= b then 1 else 0)
  }

  lemma {:induction false} TotalWithin(c: seq<nat>, a: set<nat>, l: seq<nat>, b: nat)
    requires b < |c| && forall i :: 1 <= i <= b ==> c[i] == Sum(a, Having(l, i))
    ensures Total(c, b) == Sum(a, Within(l, b))
  {
    hide Sum;
    if b == 0 {
      SumZero(a, Within(l, 0));
    } else {
      TotalWithin(c, a, l, b - 1);
      SumPlus(a, Within(l, b - 1), Having(l, b), Within(l, b));
    }
  }

  lemma {:induction false} SpareCounts(c: seq<nat>, ls: seq<nat>, b: nat)
    requires b < |c| && forall i :: 1 <= i <= b ==> c[i] == Count(ls, i)
    ensures SpareOf(c, b) == Spare(ls, b)
  {
    if b > 0 { SpareCounts(c, ls, b - 1); }
  }

  // -------------------------------------------------------------- after pass one

  /** The lengths of the symbols 0..maxCode. */
  ghost predicate Symbols(leaves: set<nat>, l: seq<nat>, maxCode: nat) {
    && maxCode < |l| && (forall x :: x in leaves ==> x <= maxCode && l[x] >= 1)
    && forall x :: 0 <= x <= maxCode && x !in leaves ==> l[x] == 0
  }

  lemma {:induction false} SymbolsLengths(leaves: set<nat>, l: seq<nat>, maxCode: nat)
    requires Symbols(leaves, l, maxCode)
    ensures LengthsOf(leaves, l, l[..maxCode + 1])
  {
  }

  /** The counts of the first lengths: what has to be repaired. */
  lemma {:induction false} FirstCounts(c: seq<nat>, leaves: set<nat>, elems: nat, mg: seq<nat>, l: seq<nat>, max: nat,
                                       maxCode: nat)
    requires Whole(leaves, elems, mg) && TopDown(l, elems, mg, max) && 1 <= max <= 15 && Symbols(leaves, l, maxCode)
    requires |c| == 16 && (forall b :: 0 <= b <= 15 ==> c[b] == Sum(leaves, Having(l, b)))
    requires (forall x :: x in leaves ==> l[x] <= max)
    ensures c[0] == 0 && (forall b :: max < b <= 15 ==> c[b] == 0) && Total(c, max) == |leaves|
    ensures forall b :: 1 <= b <= 15 ==> c[b] == Count(l[..maxCode + 1], b)
    ensures Spare(l[..maxCode + 1], max) == 0 - Fathers(l, elems, mg, max, 0)
    ensures Over(l, elems, mg, max, 0) == 2 * Fathers(l, elems, mg, max, 0)
    ensures Fathers(l, elems, mg, max, 0) > 0 ==> Repairing(c, max, |leaves|, Over(l, elems, mg, max, 0))
  {
    hide Sum, Count, Kraft, Fathers, Stage, Over, Pow2, Merged, SonLength;
    var ls := l[..maxCode + 1];
    SymbolsLengths(leaves, l, maxCode);
    SumZero(leaves, Having(l, 0));
    forall b | max < b <= 15 ensures c[b] == 0 { SumZero(leaves, Having(l, b)); }
    forall b | 1 <= b <= 15 ensures c[b] == Count(ls, b) { CountSum(leaves, l, ls, b); }
    TotalWithin(c, leaves, l, max);
    SumCard(leaves, Within(l, max));
    StageEnds(leaves, elems, mg);
    SharesOfStage(l, leaves, elems, mg, max, 0);
    KraftSum(leaves, l, ls, max);
    SpareKraft(ls, max);
    OverFathers(l, elems, mg, max, 0);
    if Fathers(l, elems, mg, max, 0) > 0 {
      ShortOfStage(l, leaves, elems, mg, max, 0);
      KraftSum(leaves, l, ls, max - 1);
      SpareKraft(ls, max - 1);
      var t := FathersFind(l, elems, mg, max, 0);
      OneShorterFather(l, leaves, elems, mg, max, t);
      SpareCounts(c, ls, max);
      SpareCounts(c, ls, max - 1);
    }
  }

  /** No lengths that satisfy Kraft's inequality cost less. */
  ghost predicate Cheapest(leaves: set<nat>, f: seq<nat>, l: seq<nat>) {
    |l| == |f| && forall k: seq<nat>, m: nat :: |k| == |f| && Fit(leaves, k, m) ==>
      Cost(leaves, f, l) <= Cost(leaves, f, k)
  }

  lemma {:induction false} FirstCheapest(leaves: set<nat>, elems: nat, mg: seq<nat>, l: seq<nat>, max: nat, f: seq<nat>,
                                         f0: seq<nat>)
    requires Whole(leaves, elems, mg) && TopDown(l, elems, mg, max) && Weighs(f, elems, mg) && |l| == |f| == |f0|
    requires Fathers(l, elems, mg, max, 0) == 0
    requires (forall x :: x in leaves ==> x < |f| && f[x] == f0[x])
    requires AtLeast(leaves, f0, {elems + |mg| / 2 - 1}, f, MergeSum(f, elems, |mg| / 2))
    ensures Cheapest(leaves, f0, l)
  {
    hide Whole, TopDown, Fit, Cost, Fathers, Stage, Weighs;
    CostOfStage(l, f, leaves, elems, mg, max, 0);
    StageEnds(leaves, elems, mg);
    SameCost(leaves, f, f0, l);
    forall k: seq<nat>, m: nat | |k| == |f0| && Fit(leaves, k, m) ensures Cost(leaves, f0, l) <= Cost(leaves, f0, k) {
      assert Remains(leaves, f0, {elems + |mg| / 2 - 1}, f, MergeSum(f, elems, |mg| / 2), k, m);
    }
  }

  /** Where nothing is cheaper, the rarer of two symbols has no shorter length: exchanging them would
      be. */
  lemma {:induction false} CheapestRarer(leaves: set<nat>, f: seq<nat>, l: seq<nat>, m: nat)
    requires Cheapest(leaves, f, l) && Fit(leaves, l, m)
    ensures RarerLonger(leaves, f, l)
  {
    hide Fit, Cost;
    forall x, y | x in leaves && y in leaves && x < |f| && y < |f| && x < |l| && y < |l| && f[x] < f[y]
      ensures l[x] >= l[y]
    {
      if l[x] < l[y] {
        var k := l[x := l[y]];
        Exchange(leaves, f, l, m, x, y);
        CostUpdate(leaves, f, l, x, l[y]);
        CostUpdate(leaves, f, k, y, l[x]);
        StrictProducts(f[x], f[y], l[x], l[y]);
      }
    }
  }

  lemma {:induction false} StrictProducts(a: nat, b: nat, c: nat, d: nat)
    requires a < b && c < d
    ensures a * d + b * c < a * c + b * d
  {
    assert (b - a) * (d - c) > 0;
  }

  lemma {:induction false} FirstRarer(leaves: set<nat>, elems: nat, mg: seq<nat>, l: seq<nat>, max: nat, f: seq<nat>)
    requires Cheapest(leaves, f, l) && Whole(leaves, elems, mg) && TopDown(l, elems, mg, max)
    requires Fathers(l, elems, mg, max, 0) == 0 && forall x :: x in leaves ==> x < |l| && l[x] <= max
    ensures RarerLonger(leaves, f, l)
  {
    hide Whole, TopDown, Cheapest, Sum, RarerLonger, Fathers, Stage;
    SharesOfStage(l, leaves, elems, mg, max, 0);
    StageEnds(leaves, elems, mg);
    CheapestRarer(leaves, f, l, max);
  }

  /** How many symbols have each length. */
  function CountsOf(ls: seq<nat>): (c: seq<nat>)
    ensures |c| == 16
  {
    seq(16, b requires 0 <= b < 16 => if b == 0 then 0 else Count(ls, b))
  }

  lemma {:induction false} RarerSame(leaves: set<nat>, f: seq<nat>, g: seq<nat>, l: seq<nat>, dl: seq<nat>)
    requires RarerLonger(leaves, f, l) && |g| == |f| && |dl| == |l|
    requires forall x :: x in leaves ==> x < |l| && x < |f| && dl[x] == l[x] && g[x] == f[x]
    ensures RarerLonger(leaves, g, dl)
  {
  }

  lemma {:induction false} SameCost(a: set<nat>, f: seq<nat>, g: seq<nat>, l: seq<nat>)
    requires |f| == |g| == |l| && forall x :: x in a && x < |f| ==> f[x] == g[x]
    ensures Cost(a, f, l) == Cost(a, g, l)
  {
    SumSame(a, a, Costs(f, l), Costs(g, l));
  }

  /** The tree of build_tree as gen_bitlen gets it. */
  lemma {:induction false} BuiltParts(h: seq<nat>, max: nat, f: seq<nat>, dl: seq<nat>, f0: seq<nat>, leaves: set<nat>,
                                      elems: nat, mg: seq<nat>)
    requires Built(h, max, f, dl, f0, leaves, elems, mg)
    ensures Whole(leaves, elems, mg) && Listed(h, max, elems, mg) && elems + |mg| / 2 <= |dl| == |f| == |f0|
    ensures forall i :: 0 <= i < |mg| ==> mg[i] < |dl| && dl[mg[i]] == elems + i / 2
    ensures Weighs(f, elems, mg) && AtLeast(leaves, f0, {elems + |mg| / 2 - 1}, f, MergeSum(f, elems, |mg| / 2))
    ensures forall x :: x in leaves ==> x < |f| && f[x] == f0[x]
    ensures InOrder(f, mg) && Greedy(f, leaves, elems, mg)
  {
    GreedyOrder(f, leaves, elems, mg, {elems + |mg| / 2 - 1});
  }

  lemma {:induction false} NotASon(leaves: set<nat>, elems: nat, mg: seq<nat>, x: nat)
    requires Whole(leaves, elems, mg) && x < elems && x !in leaves
    ensures x !in mg && x != elems + |mg| / 2 - 1
  {
    forall i | 0 <= i < |mg| ensures mg[i] != x { assert SonOk(leaves, elems, mg, i); }
  }

  /** What gen_bitlen leaves: lengths of a complete code within the limit, and their counts. */
  ghost predicate Lengthened(c: seq<nat>, leaves: set<nat>, dl: seq<nat>, max: nat, maxCode: nat) {
    && Symbols(leaves, dl, maxCode) && Complete(dl[..maxCode + 1], max) && |c| == 16 && c[0] == 0
    && forall b :: 1 <= b <= 15 ==> c[b] == Count(dl[..maxCode + 1], b)
  }

  lemma {:induction false} LengthenedAfter(c: seq<nat>, leaves: set<nat>, dl: seq<nat>, max: nat, maxCode: nat)
    requires Symbols(leaves, dl, maxCode) && (forall x :: x in leaves ==> dl[x] <= max) && |c| == 16 && c[0] == 0
    requires 1 <= max <= 15
    requires forall b :: 1 <= b <= max ==> c[b] == Sum(leaves, Having(dl, b))
    requires SpareOf(c, max) == 0 && forall b :: max < b <= 15 ==> c[b] == 0
    ensures Lengthened(c, leaves, dl, max, maxCode)
  {
    hide Sum, Count, Spare;
    var ls := dl[..maxCode + 1];
    SymbolsLengths(leaves, dl, maxCode);
    forall b | 1 <= b <= 15 ensures c[b] == Count(ls, b) {
      if b <= max { CountSum(leaves, dl, ls, b); } else { CountNone(ls, max, b); }
    }
    SpareCounts(c, ls, max);
  }

  /** After the first pass: the leaves have their first lengths l, and overflow of them were cut. */
  ghost predicate Passed(c: seq<nat>, leaves: set<nat>, elems: nat, mg: seq<nat>, l: seq<nat>, dl: seq<nat>, max: nat,
                         maxCode: nat, overflow: nat) {
    && max <= 15 && |dl| == |l| && elems + |mg| / 2 <= |l| && |mg| % 2 == 0 && |c| == 16 && Whole(leaves, elems, mg)
    && (forall x :: x in leaves ==> x < |l| && dl[x] == l[x] && l[x] <= max) && Symbols(leaves, l, maxCode)
    && c[0] == 0 && (forall b :: max < b <= 15 ==> c[b] == 0) && Total(c, max) == |leaves|
    && (forall b :: 1 <= b <= 15 ==> c[b] == Count(l[..maxCode + 1], b))
    && Spare(l[..maxCode + 1], max) == 0 - Fathers(l, elems, mg, max, 0)
    && overflow == 2 * Fathers(l, elems, mg, max, 0)
    && (overflow > 0 ==> Repairing(c, max, |leaves|, overflow))
    && (|leaves| == 2 ==> overflow == 0 && forall x :: x in leaves ==> l[x] == 1)
  }

  /** The first half of gen_bitlen: first lengths, and what the symbols take with them. */
  method FirstLengths(w: Work, fc: array<nat>, dl: array<nat>, maxCode: nat, max: nat, extra: seq<nat>, base: nat,
                      stat: seq<nat>,
                      ghost f0: seq<nat>, ghost leaves: set<nat>, ghost elems: nat, ghost mg: seq<nat>)
    returns (overflow: nat, ghost l: seq<nat>)
    requires w.Shaped() && fc.Length == dl.Length && {w.heap, w.depth, w.blCount} !! {fc, dl} && fc != dl
    requires Built(w.heap[..], w.heapMax, fc[..], dl[..], f0, leaves, elems, mg) && 1 <= max <= 15
    requires (forall x :: x in leaves ==> x <= maxCode) && maxCode < elems && (stat == [] || |stat| >= elems)
    requires forall x :: 0 <= x <= maxCode && x !in leaves ==> dl[x] == 0
    modifies w`optLen, w`staticLen, w.blCount, dl
    ensures forall x :: 0 <= x < elems && x !in leaves ==> dl[x] == old(dl[x])
    ensures w.optLen == old(w.optLen) + Sum(leaves, BitCosts(fc[..], dl[..], extra, base))
    ensures w.staticLen == old(w.staticLen) + if stat == [] then 0 else Sum(leaves, BitCosts(fc[..], stat, extra, base))
    ensures TopDown(l, elems, mg, max) && Passed(w.blCount[..], leaves, elems, mg, l, dl[..], max, maxCode, overflow)
  {
    hide Built, Whole, TopDown, Tallied, BitCosts, Over, Sum, Listed, Spare, Weighs, AtLeast, Fathers, FirstLens, Count,
         Repairing, Complete, InOrder, Greedy;
    BuiltParts(w.heap[..], w.heapMax, fc[..], dl[..], f0, leaves, elems, mg);
    l := FirstLens(elems, mg, max, dl.Length);
    FirstLensOk(leaves, elems, mg, max, dl.Length);
    LeavesSmall(leaves, elems, mg, f0, f0);
    forall x | 0 <= x < elems && x !in leaves ensures x !in mg && x != elems + |mg| / 2 - 1 {
      NotASon(leaves, elems, mg, x);
    }
    ghost var f, o0, s0 := fc[..], w.optLen, w.staticLen;
    overflow := PassOne(w, fc, dl, maxCode, max, extra, base, stat, leaves, elems, mg, l);
    SameLeaves(leaves, elems, mg, l, dl[..]);
    TalliedSame(w.blCount[..], w.optLen - o0, w.staticLen - s0, leaves, l, dl[..], f, extra, base, stat);
    FirstCounts(w.blCount[..], leaves, elems, mg, l, max, maxCode);
    TwoLeaves(leaves, elems, mg, l, max);
  }

  /** The second half, for lengths that were cut: the counts are mended and dealt out. */
  method Redo(w: Work, fc: array<nat>, dl: array<nat>, maxCode: nat, max: nat, ghost extra: seq<nat>, ghost base: nat,
              overflow: nat, ghost leaves: set<nat>, ghost elems: nat, ghost mg: seq<nat>, ghost l: seq<nat>)
    requires w.Shaped() && fc.Length == dl.Length && {w.heap, w.depth, w.blCount} !! {fc, dl} && fc != dl
    requires Passed(w.blCount[..], leaves, elems, mg, l, dl[..], max, maxCode, overflow) && overflow > 0
    requires Listed(w.heap[..], w.heapMax, elems, mg) && 1 <= max && |leaves| <= Pow2(max) && InOrder(fc[..], mg)
    requires (forall x :: x in leaves ==> x <= maxCode) && maxCode < elems <= dl.Length
    requires forall x :: 0 <= x <= maxCode && x !in leaves ==> dl[x] == 0
    modifies w`optLen, w.blCount, dl
    ensures Lengthened(w.blCount[..], leaves, dl[..], max, maxCode) && RarerLonger(leaves, fc[..], dl[..])
    ensures w.blCount[..] == Mended(old(w.blCount[..]), max, overflow / 2)
    ensures forall x :: 0 <= x < dl.Length && x !in leaves ==> dl[x] == old(dl[x])
    ensures w.optLen - Sum(leaves, BitCosts(fc[..], dl[..], extra, base))
      == old(w.optLen - Sum(leaves, BitCosts(fc[..], dl[..], extra, base)))
  {
    hide Whole, Sum, Listed, BitCosts, Spare, Fathers, Count, Repairing, Complete, RarerLonger, InOrder, Moved, Mended;
    Repair(w.blCount, max, overflow, |leaves|);
    Repaired(w.blCount[..], max, |leaves|);
    DealOut(w, fc, dl, maxCode, max, extra, base, leaves, elems, mg);
    LengthenedAfter(w.blCount[..], leaves, dl[..], max, maxCode);
  }

  /** gen_bitlen: no length exceeds the limit, the code is complete, opt_len and static_len grow
      by the bits the symbols take; and where no length had to be cut nothing costs less. */
  method GenBitlen(w: Work, fc: array<nat>, dl: array<nat>, maxCode: nat, max: nat, extra: seq<nat>, base: nat,
                   stat: seq<nat>,
                   ghost f0: seq<nat>, ghost leaves: set<nat>, ghost elems: nat, ghost mg: seq<nat>)
    returns (ghost l: seq<nat>)
    requires w.Shaped() && fc.Length == dl.Length && {w.heap, w.depth, w.blCount} !! {fc, dl} && fc != dl
    requires Built(w.heap[..], w.heapMax, fc[..], dl[..], f0, leaves, elems, mg) && 1 <= max <= 15
    requires |leaves| <= Pow2(max)
    requires (forall x :: x in leaves ==> x <= maxCode) && maxCode < elems && (stat == [] || |stat| >= elems)
    requires forall x :: 0 <= x <= maxCode && x !in leaves ==> dl[x] == 0
    modifies w`optLen, w`staticLen, w.blCount, dl
    ensures Lengthened(w.blCount[..], leaves, dl[..], max, maxCode)
    ensures forall x :: 0 <= x < elems && x !in leaves ==> dl[x] == old(dl[x])
    ensures w.optLen == old(w.optLen) + Sum(leaves, BitCosts(fc[..], dl[..], extra, base))
    ensures w.staticLen == old(w.staticLen) + if stat == [] then 0 else Sum(leaves, BitCosts(fc[..], stat, extra, base))
    ensures |l| == dl.Length && TopDown(l, elems, mg, max)
    ensures Fathers(l, elems, mg, max, 0) == 0 ==> Cheapest(leaves, f0, dl[..])
    ensures |leaves| == 2 ==> forall x :: x in leaves ==> x < dl.Length && dl[x] == 1
    ensures RarerLonger(leaves, f0, dl[..])
    ensures w.blCount[..] == Mended(CountsOf(l[..maxCode + 1]), max, Fathers(l, elems, mg, max, 0))
  {
    hide Built, Whole, TopDown, Tallied, BitCosts, Over, Sum, Listed, Spare, Weighs, AtLeast, Fathers, FirstLens, Count,
         Repairing, Complete, RarerLonger, InOrder, Greedy, Moved, Cheapest;
    BuiltParts(w.heap[..], w.heapMax, fc[..], dl[..], f0, leaves, elems, mg);
    LeavesSmall(leaves, elems, mg, f0, f0);
    ghost var f: seq<nat> := fc[..];
    var overflow;
    overflow, l := FirstLengths(w, fc, dl, maxCode, max, extra, base, stat, f0, leaves, elems, mg);
    assert w.blCount[..] == CountsOf(l[..maxCode + 1]);
    if overflow == 0 {
      FirstSpare(l, dl[..], maxCode, leaves, max, w.blCount[..]);
      FirstBest(leaves, elems, mg, l, max, f, f0, dl[..]);
      return;
    }
    Redo(w, fc, dl, maxCode, max, extra, base, overflow, leaves, elems, mg, l);
    RarerSame(leaves, f, f0, dl[..], dl[..]);
  }

  lemma {:induction false} Repaired(c: seq<nat>, max: nat, n: nat)
    requires Repairing(c, max, n, 0)
    ensures |c| == 16 && c[0] == 0 && Total(c, max) == n && SpareOf(c, max) == 0
    ensures forall b :: max < b <= 15 ==> c[b] == 0
  {
  }

  lemma {:induction false} SameLeaves(leaves: set<nat>, elems: nat, mg: seq<nat>, l: seq<nat>, dl: seq<nat>)
    requires Whole(leaves, elems, mg) && |dl| == |l|
    requires forall i :: 0 <= i < |mg| ==> mg[i] < |dl| && dl[mg[i]] == l[mg[i]]
    ensures forall x :: x in leaves ==> x < |dl| && dl[x] == l[x]
  {
    forall x | x in leaves ensures x < |dl| && dl[x] == l[x] { var i := LeafPlace(leaves, elems, mg, x); }
  }

  lemma {:induction false} TalliedSame(c: seq<nat>, opt: int, st: int, a: set<nat>, l: seq<nat>, k: seq<nat>,
                                       f: seq<nat>, extra: seq<nat>, base: nat, stat: seq<nat>)
    requires Tallied(c, opt, st, a, l, f, extra, base, stat) && |k| == |l|
    requires forall x :: x in a ==> x < |l| && k[x] == l[x]
    ensures Tallied(c, opt, st, a, k, f, extra, base, stat) && |c| == 16
    ensures opt == Sum(a, BitCosts(f, k, extra, base))
    ensures st == if stat == [] then 0 else Sum(a, BitCosts(f, stat, extra, base))
    ensures forall b :: 0 <= b <= 15 ==> c[b] == Sum(a, Having(l, b))
  {
    hide Sum;
    SumSame(a, a, BitCosts(f, l, extra, base), BitCosts(f, k, extra, base));
    forall b | 0 <= b <= 15 ensures c[b] == Sum(a, Having(k, b)) { SumSame(a, a, Having(l, b), Having(k, b)); }
  }

  lemma {:induction false} FirstSpare(l: seq<nat>, dl: seq<nat>, maxCode: nat, leaves: set<nat>, max: nat, c: seq<nat>)
    requires Symbols(leaves, l, maxCode) && Spare(l[..maxCode + 1], max) == 0
    requires (forall x :: x in leaves ==> l[x] <= max) && |c| == 16 && c[0] == 0
    requires |dl| == |l| && (forall x :: x in leaves ==> dl[x] == l[x])
    requires forall x :: 0 <= x <= maxCode && x !in leaves ==> dl[x] == 0
    requires forall b :: 1 <= b <= 15 ==> c[b] == Count(l[..maxCode + 1], b)
    ensures Lengthened(c, leaves, dl, max, maxCode)
  {
    hide Spare, Count;
    assert dl[..maxCode + 1] == l[..maxCode + 1];
  }

  lemma {:induction false} CheapestSame(leaves: set<nat>, f: seq<nat>, l: seq<nat>, dl: seq<nat>)
    requires Cheapest(leaves, f, l) && |dl| == |l| && forall x :: x in leaves ==> x < |l| && dl[x] == l[x]
    ensures Cheapest(leaves, f, dl)
  {
    hide Sum;
    SumSame(leaves, leaves, Costs(f, l), Costs(f, dl));
  }

  lemma {:induction false} FirstBest(leaves: set<nat>, elems: nat, mg: seq<nat>, l: seq<nat>, max: nat, f: seq<nat>,
                                     f0: seq<nat>, dl: seq<nat>)
    requires Whole(leaves, elems, mg) && TopDown(l, elems, mg, max) && Weighs(f, elems, mg) && |l| == |f| == |f0|
    requires Fathers(l, elems, mg, max, 0) == 0 && |dl| == |l|
    requires (forall x :: x in leaves ==> x < |f| && f[x] == f0[x] && dl[x] == l[x] && l[x] <= max)
    requires AtLeast(leaves, f0, {elems + |mg| / 2 - 1}, f, MergeSum(f, elems, |mg| / 2))
    ensures Cheapest(leaves, f0, dl) && RarerLonger(leaves, f0, dl)
  {
    hide Whole, TopDown, Weighs, Fathers, AtLeast, MergeSum, Cheapest, RarerLonger;
    FirstCheapest(leaves, elems, mg, l, max, f, f0);
    FirstRarer(leaves, elems, mg, l, max, f0);
    RarerSame(leaves, f0, f0, l, dl);
    CheapestSame(leaves, f0, l, dl);
  }

  /** Two symbols get one bit each. */
  lemma {:induction false} TwoLeaves(leaves: set<nat>, elems: nat, mg: seq<nat>, l: seq<nat>, max: nat)
    requires Whole(leaves, elems, mg) && TopDown(l, elems, mg, max)
    ensures |leaves| == 2 ==> (forall x :: x in leaves ==> x < |l| && l[x] == 1) && Over(l, elems, mg, max, 0) == 0
  {
    if |leaves| == 2 {
      assert |mg| == 2 && 0 / 2 == 0 && 1 / 2 == 0;
      assert SonLength(l, elems, mg, max, 0) && SonLength(l, elems, mg, max, 1);
      forall x | x in leaves ensures x < |l| && l[x] == 1 { var i := LeafPlace(leaves, elems, mg, x); }
      OverNone(l, elems, mg, max);
      OverStep(l, elems, mg, max, 1);
      OverStep(l, elems, mg, max, 0);
    }
  }

  // ------------------------------------------------------------------ gen_codes

  /** The codes of the first n symbols are set: canonical codes, their first bit lowest. */
  ghost predicate Coded(fc: seq<nat>, ls: seq<nat>, n: nat) {
    n <= |ls| <= |fc| && forall i :: 0 <= i < n && ls[i] > 0 ==> CodeSet(fc, ls, i)
  }

  ghost predicate CodeSet(fc: seq<nat>, ls: seq<nat>, i: nat)
    requires i < |ls| <= |fc|
  {
    fc[i] < Pow2(ls[i]) && Lsb(fc[i], ls[i]) == Code(ls, i)
  }

  /** First code values for each length. */
  method FirstCodes(c: seq<nat>, ghost ls: seq<nat>) returns (next: array<nat>)
    requires |c| == 16 && c[0] == 0 && (forall b :: 1 <= b <= 15 ==> c[b] == Count(ls, b)) && Spare(ls, 15) >= 0
    ensures fresh(next) && next.Length == 16 && forall b :: 1 <= b <= 15 ==> next[b] == First(ls, b)
  {
    hide Count, Spare, First, Pow2;
    next := new nat[16];
    var code := 0;
    var bits := 1;
    while bits <= 15
      invariant 1 <= bits <= 16 && forall b :: 1 <= b < bits ==> next[b] == First(ls, b)
      invariant code == if bits == 1 then 0 else First(ls, bits - 1)
    {
      FirstStep(ls, bits);
      code := (2 * (code + c[bits - 1])) % WORD;
      next[bits] := code;
      bits := bits + 1;
    }
  }

  lemma {:induction false} FirstStep(ls: seq<nat>, b: nat)
    requires 1 <= b <= 15 && Spare(ls, 15) >= 0
    ensures First(ls, b) == if b == 1 then 0 else 2 * (First(ls, b - 1) + Count(ls, b - 1))
    ensures First(ls, b) < WORD
  {
    hide Count, Spare;
    SpareBelow(ls, b - 1, 15);
    SpareIs(ls, b);
    Pow2Monotone(b, 15);
    Pow2Values();
  }

  lemma {:induction false} CountStep(ls: seq<nat>, n: nat, b: nat)
    requires n < |ls|
    ensures Count(ls[..n + 1], b) == Count(ls[..n], b) + if ls[n] == b then 1 else 0
  {
    assert ls[..n + 1][..n] == ls[..n];
  }

  lemma {:induction false} CodedMore(fc: seq<nat>, ls: seq<nat>, n: nat, v: nat)
    requires Coded(fc, ls, n) && n < |ls|
    ensures ls[n] == 0 ==> Coded(fc, ls, n + 1)
    ensures v < Pow2(ls[n]) && Lsb(v, ls[n]) == Code(ls, n) ==> Coded(fc[n := v], ls, n + 1)
  {
    hide Code, Lsb;
    forall i | 0 <= i < n && ls[i] > 0 ensures CodeSet(fc[n := v], ls, i) { assert CodeSet(fc, ls, i); }
  }

  /** gen_codes: the codes are the canonical ones, reversed. */
  method GenCodes(fc: array<nat>, dl: array<nat>, maxCode: nat, c: seq<nat>)
    requires fc != dl && maxCode < dl.Length && maxCode < fc.Length && |c| == 16 && c[0] == 0
    requires var ls := dl[..maxCode + 1];
             NoneAbove(ls, 15) && Spare(ls, 15) >= 0 && forall b :: 1 <= b <= 15 ==> c[b] == Count(ls, b)
    modifies fc
    ensures Coded(fc[..], dl[..maxCode + 1], maxCode + 1)
    ensures forall x :: maxCode < x < fc.Length ==> fc[x] == old(fc[x])
  {
    hide Count, Spare, Coded, Lsb, BitsOf, First;
    ghost var ls: seq<nat> := dl[..maxCode + 1];
    var next := FirstCodes(c, ls);
    CodedNone(fc[..], ls);
    var n := 0;
    while n <= maxCode
      invariant n <= maxCode + 1 && Coded(fc[..], ls, n) && |ls| == maxCode + 1
      invariant forall b :: 1 <= b <= 15 ==> next[b] == First(ls, b) + Count(ls[..n], b)
      invariant forall x :: maxCode < x < fc.Length ==> fc[x] == old(fc[x])
    {
      var len := dl[n];
      forall b ensures Count(ls[..n + 1], b) == Count(ls[..n], b) + if ls[n] == b then 1 else 0 { CountStep(ls, n, b); }
      CodedMore(fc[..], ls, n, 0);
      if len != 0 {
        CodeFits(ls, 15, n);
        var code := next[len];
        next[len] := next[len] + 1;
        var r := BiReverse(code, len);
        CodedMore(fc[..], ls, n, r);
        ghost var was: seq<nat> := fc[..];
        fc[n] := r;
        assert fc[..] == was[n := r];
      }
      n := n + 1;
    }
  }

  lemma {:induction false} CodedNone(fc: seq<nat>, ls: seq<nat>)
    requires |ls| <= |fc|
    ensures Coded(fc, ls, 0) && forall b :: Count(ls[..0], b) == 0
  {
  }
}
