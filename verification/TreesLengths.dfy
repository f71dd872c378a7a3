/** gen_bitlen of archive/gzip/trees.c: lengths top-down, and the repair when some exceed the
    limit. */
module TreesLengths {
  import opened Canonical
  import opened Huffman
  import opened TreesBuild
  import opened TreesKraft

  // ------------------------------------------------- the lengths a tree has at first

  /** The lengths of the nodes made by the merges from t on and of their sons. */
  ghost function LensFrom(elems: nat, mg: seq<nat>, max: nat, size: nat, t: nat): (l: seq<nat>)
    requires t <= |mg| / 2 && |mg| % 2 == 0 && elems + |mg| / 2 <= size && forall i :: 0 <= i < |mg| ==> mg[i] < size
    ensures |l| == size
    decreases |mg| / 2 - t
  {
    if t == |mg| / 2 then seq(size, _ => 0)
    else
      var l := LensFrom(elems, mg, max, size, t + 1);
      l[mg[2 * t + 1] := Below(l[elems + t], max)][mg[2 * t] := Below(l[elems + t], max)]
  }

  /** What LensFrom has right: the sons from merge t on, and zeros elsewhere. */
  ghost predicate LensOk(l: seq<nat>, elems: nat, mg: seq<nat>, max: nat, t: nat) {
    && 2 * t <= |mg| && elems + |mg| / 2 <= |l|
    && (forall i :: 2 * t <= i < |mg| ==> SonLength(l, elems, mg, max, i))
    && (forall x :: 0 <= x < |l| && x !in mg[2 * t..] ==> l[x] == 0)
  }

  lemma {:induction false} LensFromOk(leaves: set<nat>, elems: nat, mg: seq<nat>, max: nat, size: nat, t: nat)
    requires Whole(leaves, elems, mg) && t <= |mg| / 2 && elems + |mg| / 2 <= size && max >= 1
    requires forall i :: 0 <= i < |mg| ==> mg[i] < size
    ensures LensOk(LensFrom(elems, mg, max, size, t), elems, mg, max, t)
    decreases |mg| / 2 - t
  {
    if t < |mg| / 2 {
      LensFromOk(leaves, elems, mg, max, size, t + 1);
      LensStep(leaves, elems, mg, max, LensFrom(elems, mg, max, size, t + 1), t);
    }
  }

  lemma {:induction false} LensStep(leaves: set<nat>, elems: nat, mg: seq<nat>, max: nat, l: seq<nat>, t: nat)
    requires Whole(leaves, elems, mg) && t < |mg| / 2 && LensOk(l, elems, mg, max, t + 1) && max >= 1
    requires mg[2 * t] < |l| && mg[2 * t + 1] < |l|
    ensures LensOk(l[mg[2 * t + 1] := Below(l[elems + t], max)][mg[2 * t] := Below(l[elems + t], max)], elems, mg, max,
      t)
  {
    var v := Below(l[elems + t], max);
    var k := l[mg[2 * t + 1] := v][mg[2 * t] := v];
    assert SonOk(leaves, elems, mg, 2 * t) && SonOk(leaves, elems, mg, 2 * t + 1);
    forall i | 2 * t <= i < |mg| ensures SonLength(k, elems, mg, max, i) {
      if i >= 2 * (t + 1) { assert SonLength(l, elems, mg, max, i); }
    }
    var s, r := mg[2 * t..], mg[2 * (t + 1)..];
    assert s == [mg[2 * t], mg[2 * t + 1]] + r;
  }

  /** The lengths gen_bitlen finds first. */
  ghost function FirstLens(elems: nat, mg: seq<nat>, max: nat, size: nat): seq<nat>
    requires |mg| % 2 == 0 && elems + |mg| / 2 <= size && forall i :: 0 <= i < |mg| ==> mg[i] < size
  {
    LensFrom(elems, mg, max, size, 0)
  }

  lemma {:induction false} FirstLensOk(leaves: set<nat>, elems: nat, mg: seq<nat>, max: nat, size: nat)
    requires Whole(leaves, elems, mg) && elems + |mg| / 2 <= size && max >= 1
    requires forall i :: 0 <= i < |mg| ==> mg[i] < size
    ensures var l := FirstLens(elems, mg, max, size);
      TopDown(l, elems, mg, max) && |l| == size
      && (forall x :: x in leaves ==> x < size && 1 <= l[x] <= max)
      && forall x :: 0 <= x < elems && x !in leaves ==> l[x] == 0
  {
    LensFromOk(leaves, elems, mg, max, size, 0);
    var l := FirstLens(elems, mg, max, size);
    assert mg[2 * 0..] == mg;
    var root := elems + |mg| / 2 - 1;
    assert root !in mg by { assert root in {root}; }
    forall x | x in leaves ensures x < size && 1 <= l[x] <= max {
      var i := LeafPlace(leaves, elems, mg, x);
      assert SonLength(l, elems, mg, max, i);
    }
    forall x | 0 <= x < elems && x !in leaves ensures l[x] == 0 {
      forall i | 0 <= i < |mg| ensures mg[i] != x { assert SonOk(leaves, elems, mg, i); }
    }
  }

  lemma {:induction false} LeafPlace(leaves: set<nat>, elems: nat, mg: seq<nat>, x: nat) returns (i: nat)
    requires Whole(leaves, elems, mg) && x in leaves
    ensures i < |mg| && mg[i] == x
  {
    assert IsNode(leaves, elems, mg, x);
    assert x in mg;
    i :| 0 <= i < |mg| && mg[i] == x;
  }

  // --------------------------------------------------------- sums along the order

  /** The leaves at places i and after. */
  ghost function LeavesFrom(leaves: set<nat>, mg: seq<nat>, i: nat): set<nat>
    requires i <= |mg|
  {
    set x | x in leaves && x in mg[i..]
  }

  lemma {:induction false} LeavesStep(leaves: set<nat>, elems: nat, mg: seq<nat>, i: nat)
    requires Whole(leaves, elems, mg) && i < |mg|
    ensures mg[i] !in LeavesFrom(leaves, mg, i + 1)
    ensures LeavesFrom(leaves, mg, i) == LeavesFrom(leaves, mg, i + 1) + (if mg[i] in leaves then {mg[i]} else {})
  {
    assert mg[i..] == [mg[i]] + mg[i + 1..];
    assert mg[i] !in mg[i + 1..];
  }

  lemma {:induction false} LeavesAll(leaves: set<nat>, elems: nat, mg: seq<nat>)
    requires Whole(leaves, elems, mg)
    ensures LeavesFrom(leaves, mg, 0) == leaves && LeavesFrom(leaves, mg, |mg|) == {}
  {
    assert mg[0..] == mg;
    forall x | x in leaves ensures x in mg { var i := LeafPlace(leaves, elems, mg, x); }
  }

  /** 1 for the nodes of length b. */
  function Having(l: seq<nat>, b: nat): (s: seq<nat>)
    ensures |s| == |l| && forall x :: 0 <= x < |l| ==> s[x] == if l[x] == b then 1 else 0
  {
    seq(|l|, x requires 0 <= x < |l| => if l[x] == b then 1 else 0)
  }

  /** The extra bits that come with the code of symbol x. */
  function Xbits(extra: seq<nat>, base: nat, x: nat): nat {
    if base <= x < base + |extra| then extra[x - base] else 0
  }

  /** Frequency times bits, extra bits included. */
  function BitCosts(f: seq<nat>, l: seq<nat>, extra: seq<nat>, base: nat): (s: seq<nat>)
    ensures |s| == (if |f| < |l| then |f| else |l|)
    ensures forall x :: 0 <= x < |s| ==> s[x] == f[x] * (l[x] + Xbits(extra, base, x))
  {
    seq(if |f| < |l| then |f| else |l|,
        x requires 0 <= x < (if |f| < |l| then |f| else |l|) => f[x] * (l[x] + Xbits(extra, base, x)))
  }

  /** Sons of fathers that have the limit, from place i on. */
  ghost function Over(l: seq<nat>, elems: nat, mg: seq<nat>, max: nat, i: nat): nat
    requires elems + |mg| / 2 <= |l| && i <= |mg| && |mg| % 2 == 0
    decreases |mg| - i
  {
    if i == |mg| then 0 else (if l[elems + i / 2] == max then 1 else 0) + Over(l, elems, mg, max, i + 1)
  }

  lemma {:induction false} OverFathers(l: seq<nat>, elems: nat, mg: seq<nat>, max: nat, t: nat)
    requires elems + |mg| / 2 <= |l| && 2 * t <= |mg| && |mg| % 2 == 0
    ensures Over(l, elems, mg, max, 2 * t) == 2 * Fathers(l, elems, mg, max, t)
    decreases |mg| / 2 - t
  {
    if 2 * t < |mg| {
      OverFathers(l, elems, mg, max, t + 1);
      assert (2 * t + 1) / 2 == t;
      assert Over(l, elems, mg, max, 2 * t + 1)
        == (if l[elems + t] == max then 1 else 0) + Over(l, elems, mg, max, 2 * t + 2);
    }
  }

  lemma {:induction false} SumStepLeaf(leaves: set<nat>, elems: nat, mg: seq<nat>, i: nat, s: seq<nat>)
    requires Whole(leaves, elems, mg) && i < |mg| && mg[i] < |s|
    ensures Sum(LeavesFrom(leaves, mg, i), s) == Sum(LeavesFrom(leaves, mg, i + 1), s)
               + if mg[i] in leaves then s[mg[i]] else 0
  {
    LeavesStep(leaves, elems, mg, i);
    if mg[i] in leaves {
      SumAdd(LeavesFrom(leaves, mg, i + 1), s, mg[i]);
    } else {
      assert LeavesFrom(leaves, mg, i) == LeavesFrom(leaves, mg, i + 1);
    }
  }

  /** How many symbols have b bits. */
  lemma {:induction false} CountSum(a: set<nat>, l: seq<nat>, ls: seq<nat>, b: nat)
    requires LengthsOf(a, l, ls) && b >= 1
    ensures Count(ls, b) == Sum(a, Having(l, b))
    decreases |l|
  {
    if |l| > |ls| {
      var n := |l| - 1;
      CountSum(a, l[..n], ls, b);
      assert Having(l, b)[..n] == Having(l[..n], b);
    } else if ls != [] {
      var n := |l| - 1;
      assert Having(l, b)[..n] == Having(l[..n], b);
      var c := a - {n};
      CountSum(c, l[..n], ls[..n], b);
      SumSame(a, c, Having(l[..n], b), Having(l[..n], b));
    }
  }

  // -------------------------------------------------------------- the first pass

  /** The order heap[heapMax..] holds the root and the sons, the first merged last. */
  ghost predicate Listed(h: seq<nat>, max: nat, elems: nat, mg: seq<nat>) {
    && |h| == HEAP_SIZE && max == HEAP_SIZE - |mg| - 1 && |mg| >= 2 && h[max] == elems + |mg| / 2 - 1
    && forall i :: 0 <= i < |mg| ==> h[HEAP_SIZE - 1 - i] == mg[i]
  }

  /** The Len cells from place i on are set to l, the others still hold the fathers. */
  ghost predicate Halfway(dl: seq<nat>, l: seq<nat>, elems: nat, mg: seq<nat>, i: nat) {
    && |dl| == |l| && i <= |mg| && |mg| >= 2 && elems + |mg| / 2 <= |dl| && dl[elems + |mg| / 2 - 1] == 0
    && (forall j :: i <= j < |mg| ==> mg[j] < |l| && dl[mg[j]] == l[mg[j]])
    && (forall j :: 0 <= j < i ==> mg[j] < |dl| && dl[mg[j]] == elems + j / 2)
  }

  /** The father's length is there when the son's is set. */
  lemma {:induction false} FatherLength(dl: seq<nat>, l: seq<nat>, leaves: set<nat>, elems: nat, mg: seq<nat>, max: nat,
                                        i: nat)
    requires Whole(leaves, elems, mg) && TopDown(l, elems, mg, max) && 0 < i <= |mg| && Halfway(dl, l, elems, mg, i)
    ensures mg[i - 1] < |dl| && dl[mg[i - 1]] == elems + (i - 1) / 2 < |dl|
    ensures dl[elems + (i - 1) / 2] == l[elems + (i - 1) / 2] <= max
    ensures l[mg[i - 1]] == Below(l[elems + (i - 1) / 2], max)
    ensures l[elems + (i - 1) / 2] == max <==> l[elems + (i - 1) / 2] + 1 > max
    ensures Halfway(dl[mg[i - 1] := l[mg[i - 1]]], l, elems, mg, i - 1)
  {
    var n, t := i - 1, (i - 1) / 2;
    assert SonLength(l, elems, mg, max, n);
    FatherShort(l, leaves, elems, mg, max, t);
    if t < |mg| / 2 - 1 {
      var j := SonPlace(leaves, elems, mg, t);
      assert j >= i;
    }
    var root := elems + |mg| / 2 - 1;
    assert mg[n] != root by { assert SonOk(leaves, elems, mg, n); }
  }

  /** The counts of lengths and the bits they come to, for the leaves in a. */
  ghost predicate Tallied(c: seq<nat>, opt: int, st: int, a: set<nat>, l: seq<nat>, f: seq<nat>, extra: seq<nat>,
                          base: nat, stat: seq<nat>) {
    && |c| == 16 && (forall b :: 0 <= b <= 15 ==> c[b] == Sum(a, Having(l, b)))
    && opt == Sum(a, BitCosts(f, l, extra, base))
    && st == if stat == [] then 0 else Sum(a, BitCosts(f, stat, extra, base))
  }

  lemma {:induction false} TalliedNone(c: seq<nat>, l: seq<nat>, f: seq<nat>, extra: seq<nat>, base: nat,
                                       stat: seq<nat>)
    requires |c| == 16 && forall b :: 0 <= b <= 15 ==> c[b] == 0
    ensures Tallied(c, 0, 0, {}, l, f, extra, base, stat)
  {
    hide Sum, Having, BitCosts;
    forall b | 0 <= b <= 15 ensures c[b] == Sum({}, Having(l, b)) { SumNone(Having(l, b)); }
    SumNone(BitCosts(f, l, extra, base));
    SumNone(BitCosts(f, stat, extra, base));
  }

  method ClearCounts(w: Work)
    requires w.Shaped()
    modifies w.blCount
    ensures forall b :: 0 <= b <= 15 ==> w.blCount[b] == 0
  {
    var bits := 0;
    while bits <= 15
      invariant bits <= 16 && forall b :: 0 <= b < bits ==> w.blCount[b] == 0
    {
      w.blCount[bits] := 0;
      bits := bits + 1;
    }
  }

  /** Set the length of the next node in the order, and count it if it is a leaf. */
  method SetLength(w: Work, fc: array<nat>, dl: array<nat>, n: nat, maxCode: nat, max: nat, extra: seq<nat>, base: nat,
                   stat: seq<nat>,
                   ghost leaves: set<nat>, ghost elems: nat, ghost mg: seq<nat>, ghost l: seq<nat>, ghost i: nat,
                   ghost o0: int, ghost s0: int)
    returns (over: bool)
    requires w.Shaped() && fc.Length == dl.Length == |l| && {w.heap, w.depth, w.blCount} !! {fc, dl} && fc != dl
    requires Whole(leaves, elems, mg) && TopDown(l, elems, mg, max) && 1 <= max <= 15 && i < |mg| && n == mg[i]
    requires Halfway(dl[..], l, elems, mg, i + 1) && (forall x :: x in leaves ==> x <= maxCode)
    requires maxCode < elems && (stat == [] || |stat| >= elems)
    requires Tallied(w.blCount[..], w.optLen - o0, w.staticLen - s0, LeavesFrom(leaves, mg, i + 1), l, fc[..], extra,
      base, stat)
    modifies w`optLen, w`staticLen, w.blCount, dl
    ensures Halfway(dl[..], l, elems, mg, i) && elems + i / 2 < |l| && (over <==> l[elems + i / 2] == max)
    ensures forall x :: 0 <= x < dl.Length && x != n ==> dl[x] == old(dl[x])
    ensures Tallied(w.blCount[..], w.optLen - o0, w.staticLen - s0, LeavesFrom(leaves, mg, i), l, fc[..], extra, base,
      stat)
  {
    hide Whole, TopDown, LeavesFrom, BitCosts, Halfway, Sum;
    FatherLength(dl[..], l, leaves, elems, mg, max, i + 1);
    ghost var was: seq<nat>, c := dl[..], w.blCount[..];
    TalliedMore(leaves, elems, mg, i, l, fc[..], extra, base, stat, maxCode, c, w.optLen - o0, w.staticLen - s0);
    var bits: nat := dl[dl[n]] + 1;
    over := false;
    if bits > max {
      bits := max;
      over := true;
    }
    dl[n] := bits;
    assert dl[..] == was[n := bits];
    if n <= maxCode {
      w.blCount[bits] := w.blCount[bits] + 1;
      assert w.blCount[..] == c[bits := c[bits] + 1];
      var xbits := Xbits(extra, base, n);
      w.optLen := w.optLen + fc[n] * (bits + xbits);
      if stat != [] {
        w.staticLen := w.staticLen + fc[n] * (stat[n] + xbits);
      }
    }
  }

  /** First pass over the tree, from the root down. */
  method PassOne(w: Work, fc: array<nat>, dl: array<nat>, maxCode: nat, max: nat, extra: seq<nat>, base: nat,
                 stat: seq<nat>,
                 ghost leaves: set<nat>, ghost elems: nat, ghost mg: seq<nat>, ghost l: seq<nat>)
    returns (overflow: nat)
    requires w.Shaped() && fc.Length == dl.Length == |l| && {w.heap, w.depth, w.blCount} !! {fc, dl} && fc != dl
    requires Whole(leaves, elems, mg) && Listed(w.heap[..], w.heapMax, elems, mg) && 1 <= max <= 15
    requires TopDown(l, elems, mg, max)
    requires (forall i :: 0 <= i < |mg| ==> mg[i] < dl.Length && dl[mg[i]] == elems + i / 2)
    requires forall x :: x in leaves ==> x <= maxCode
    requires maxCode < elems && (stat == [] || |stat| >= elems)
    modifies w`optLen, w`staticLen, w.blCount, dl
    ensures forall i :: 0 <= i < |mg| ==> dl[mg[i]] == l[mg[i]]
    ensures forall x :: 0 <= x < dl.Length && x !in mg && x != elems + |mg| / 2 - 1 ==> dl[x] == old(dl[x])
    ensures elems + |mg| / 2 <= |l| && overflow == Over(l, elems, mg, max, 0)
    ensures Tallied(w.blCount[..], w.optLen - old(w.optLen), w.staticLen - old(w.staticLen), leaves, l, fc[..], extra,
      base, stat)
  {
    hide Whole, TopDown, LeavesFrom, Tallied, BitCosts, Over, Halfway, Sum;
    ghost var f, o0, s0 := fc[..], w.optLen, w.staticLen;
    LeavesAll(leaves, elems, mg);
    RootPlace(leaves, elems, mg, l, max, dl[..]);
    ClearCounts(w);
    TalliedNone(w.blCount[..], l, f, extra, base, stat);
    overflow := 0;
    ghost var was: seq<nat> := dl[..];
    dl[w.heap[w.heapMax]] := 0;
    assert dl[..] == was[elems + |mg| / 2 - 1 := 0];
    OverNone(l, elems, mg, max);
    ghost var i: nat := |mg|;
    var h := w.heapMax + 1;
    while h < HEAP_SIZE
      invariant i <= |mg| && h == HEAP_SIZE - i
      invariant Halfway(dl[..], l, elems, mg, i)
      invariant forall x :: 0 <= x < dl.Length && x !in mg && x != elems + |mg| / 2 - 1 ==> dl[x] == old(dl[x])
      invariant overflow == Over(l, elems, mg, max, i)
      invariant Tallied(w.blCount[..], w.optLen - o0, w.staticLen - s0, LeavesFrom(leaves, mg, i), l, f, extra, base,
        stat)
      decreases i
    {
      i := i - 1;
      OverStep(l, elems, mg, max, i);
      assert w.heap[h] == mg[i] && mg[i] in mg;
      var over := SetLength(w, fc, dl, w.heap[h], maxCode, max, extra, base, stat, leaves, elems, mg, l, i, o0, s0);
      if over { overflow := overflow + 1; }
      h := h + 1;
    }
    HalfwayEnd(dl[..], l, elems, mg);
  }

  lemma {:induction false} HalfwayEnd(dl: seq<nat>, l: seq<nat>, elems: nat, mg: seq<nat>)
    requires Halfway(dl, l, elems, mg, 0)
    ensures forall i :: 0 <= i < |mg| ==> mg[i] < |dl| && dl[mg[i]] == l[mg[i]]
  {
  }

  lemma {:induction false} RootPlace(leaves: set<nat>, elems: nat, mg: seq<nat>, l: seq<nat>, max: nat, dl: seq<nat>)
    requires Whole(leaves, elems, mg) && TopDown(l, elems, mg, max) && |dl| == |l|
    requires forall i :: 0 <= i < |mg| ==> mg[i] < |dl| && dl[mg[i]] == elems + i / 2
    ensures var root: nat := elems + |mg| / 2 - 1;
            root < |dl| && |mg| % 2 == 0 && Halfway(dl[root := 0], l, elems, mg, |mg|)
    ensures elems + |mg| / 2 <= |l|
  {
    forall i | 0 <= i < |mg| ensures mg[i] != elems + |mg| / 2 - 1 { assert SonOk(leaves, elems, mg, i); }
  }

  lemma {:induction false} OverNone(l: seq<nat>, elems: nat, mg: seq<nat>, max: nat)
    requires elems + |mg| / 2 <= |l| && |mg| % 2 == 0
    ensures Over(l, elems, mg, max, |mg|) == 0
  {
  }

  lemma {:induction false} OverStep(l: seq<nat>, elems: nat, mg: seq<nat>, max: nat, i: nat)
    requires elems + |mg| / 2 <= |l| && |mg| % 2 == 0 && i < |mg|
    ensures Over(l, elems, mg, max, i) == (if l[elems + i / 2] == max then 1 else 0) + Over(l, elems, mg, max, i + 1)
  {
  }

  /** What the son at place i adds to the sums. */
  lemma {:induction false} TalliedMore(leaves: set<nat>, elems: nat, mg: seq<nat>, i: nat, l: seq<nat>, f: seq<nat>,
                                       extra: seq<nat>, base: nat,
                                       stat: seq<nat>, maxCode: nat, c: seq<nat>, opt: int, st: int)
    requires Whole(leaves, elems, mg) && i < |mg| && mg[i] < |l| == |f| && (stat == [] || |stat| >= elems)
    requires (forall x :: x in leaves ==> x <= maxCode) && maxCode < elems
    requires Tallied(c, opt, st, LeavesFrom(leaves, mg, i + 1), l, f, extra, base, stat)
    ensures var n := mg[i]; var a := LeavesFrom(leaves, mg, i); var x := Xbits(extra, base, n);
      if n > maxCode then Tallied(c, opt, st, a, l, f, extra, base, stat)
      else l[n] <= 15 ==>
        (&& (stat != [] ==> n < |stat|) && |c| == 16
         && Tallied(c[l[n] := c[l[n]] + 1], opt + f[n] * (l[n] + x),
                    st + (if stat == [] then 0 else f[n] * (stat[n] + x)),
                    a, l, f, extra, base, stat))
  {
    hide LeavesFrom, Sum;
    var n := mg[i];
    assert SonOk(leaves, elems, mg, i);
    LeavesStep(leaves, elems, mg, i);
    if n <= maxCode {
      LeavesSmall(leaves, elems, mg, f, stat);
      forall b
        ensures Sum(LeavesFrom(leaves, mg, i), Having(l, b))
          == Sum(LeavesFrom(leaves, mg, i + 1), Having(l, b)) + if l[n] == b then 1 else 0
      {
        SumStepLeaf(leaves, elems, mg, i, Having(l, b));
      }
      SumStepLeaf(leaves, elems, mg, i, BitCosts(f, l, extra, base));
      if stat != [] { SumStepLeaf(leaves, elems, mg, i, BitCosts(f, stat, extra, base)); }
    } else {
      assert LeavesFrom(leaves, mg, i) == LeavesFrom(leaves, mg, i + 1);
    }
  }

  lemma {:induction false} LeavesSmall(leaves: set<nat>, elems: nat, mg: seq<nat>, f: seq<nat>, stat: seq<nat>)
    requires Whole(leaves, elems, mg)
    ensures forall x :: x in leaves ==> x < elems
  {
  }
}
