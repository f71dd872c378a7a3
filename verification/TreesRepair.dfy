/** The second half of gen_bitlen in archive/gzip/trees.c: when lengths had to be cut, leaves are
    moved down until the counts make a complete code again; then the lengths are dealt out anew,
    the longest to the rarest symbols. */
module TreesRepair {
  import opened BitString
  import opened Canonical
  import opened Huffman
  import opened TreesBuild
  import opened TreesKraft
  import opened TreesLengths

  lemma {:induction false} SpareSame(c: seq<nat>, d: seq<nat>, b: nat)
    requires b < |c| == |d| && forall i :: 1 <= i <= b ==> c[i] == d[i]
    ensures SpareOf(c, b) == SpareOf(d, b) && Total(c, b) == Total(d, b)
  {
    if b > 0 { SpareSame(c, d, b - 1); }
  }

  /** Equal counts from level b on, and a difference of v there. */
  lemma {:induction false} SpareShift(c: seq<nat>, d: seq<nat>, b: nat, m: nat, v: int)
    requires b <= m < |c| == |d| && SpareOf(d, b) == SpareOf(c, b) + v && (m > b ==> v == 0)
    requires forall i :: b < i <= m ==> c[i] == d[i]
    ensures SpareOf(d, m) == SpareOf(c, m) + v
  {
    if b < m { SpareShift(c, d, b, m - 1, v); }
  }

  lemma {:induction false} TotalShift(c: seq<nat>, d: seq<nat>, b: nat, m: nat)
    requires b <= m < |c| == |d| && forall i :: b < i <= m ==> c[i] == d[i]
    ensures Total(d, m) - Total(d, b) == Total(c, m) - Total(c, b)
  {
    if b < m { TotalShift(c, d, b, m - 1); }
  }

  /** The counts still to be repaired: overflow / 2 codes too many of max bits. */
  ghost predicate Repairing(c: seq<nat>, max: nat, n: nat, overflow: nat) {
    && |c| == 16 && 1 <= max <= 15 && c[0] == 0 && overflow % 2 == 0
    && Total(c, max) == n && SpareOf(c, max) == 0 - overflow / 2 && SpareOf(c, max - 1) >= 1
    && (forall b :: max < b <= 15 ==> c[b] == 0)
  }

  /** Move a leaf of the given length down one level, and one overflow item as its brother. */
  function Moved(c: seq<nat>, bits: nat, max: nat): (d: seq<nat>)
    requires 1 <= bits < max < |c| && c[bits] >= 1 && (bits + 1 < max ==> c[max] >= 1)
    ensures |d| == |c|
  {
    var e: seq<nat> := c[bits := c[bits] - 1];
    var f: seq<nat> := e[bits + 1 := e[bits + 1] + 2];
    f[max := f[max] - 1]
  }

  /** There is always a leaf above the lowest level, and one to take from that level. */
  lemma {:induction false} CanMove(c: seq<nat>, max: nat, n: nat, overflow: nat)
    requires Repairing(c, max, n, overflow) && overflow > 0 && n <= Pow2(max)
    ensures c[max] >= 1 && exists b :: 1 <= b < max && c[b] > 0
  {
    assert Pow2(max) == 2 * Pow2(max - 1);
    if forall b :: 1 <= b < max ==> c[b] == 0 {
      NoneAboveSpare(c, max - 1);
    }
  }

  lemma {:induction false} NoneAboveSpare(c: seq<nat>, b: nat)
    requires b < |c| && forall i :: 1 <= i <= b ==> c[i] == 0
    ensures SpareOf(c, b) == Pow2(b) && Total(c, b) == 0
  {
    if b > 0 { NoneAboveSpare(c, b - 1); }
  }

  /** Moving a leaf repairs one of the codes too many, and keeps how many there are. */
  lemma {:induction false} MoveRepairs(c: seq<nat>, max: nat, n: nat, overflow: nat, bits: nat)
    requires Repairing(c, max, n, overflow) && overflow >= 2 && n <= Pow2(max) && 1 <= bits < max && c[bits] >= 1
    requires c[max] >= 1
    ensures Repairing(Moved(c, bits, max), max, n, overflow - 2)
  {
    var d := Moved(c, bits, max);
    SpareSame(c, d, bits - 1);
    assert SpareOf(d, bits) == SpareOf(c, bits) + 1 && Total(d, bits) == Total(c, bits) - 1;
    if bits + 1 == max {
      assert d[max] == c[max] + 1;
    } else {
      assert d[bits + 1] == c[bits + 1] + 2;
      assert SpareOf(d, bits + 1) == SpareOf(c, bits + 1);
      SpareShift(c, d, bits + 1, max - 1, 0);
      TotalShift(c, d, bits + 1, max - 1);
      assert Total(d, bits + 1) == Total(c, bits + 1) + 1;
    }
  }

  /** The longest length up to b that a leaf has. */
  function Deepest(c: seq<nat>, b: nat): (r: nat)
    requires b < |c|
    ensures r <= b
  {
    if b == 0 || c[b] > 0 then b else Deepest(c, b - 1)
  }

  /** k times a leaf is moved, each time one of the longest length below the limit. */
  function Mended(c: seq<nat>, max: nat, k: nat): (d: seq<nat>)
    requires 1 <= max < |c|
    ensures |d| == |c|
    decreases k
  {
    var b := Deepest(c, max - 1);
    if k == 0 || b == 0 || c[b] == 0 || c[max] == 0 then c else Mended(Moved(c, b, max), max, k - 1)
  }

  lemma {:induction false} DeepestIs(c: seq<nat>, b: nat, r: nat)
    requires r <= b < |c| && (c[r] > 0 || r == 0) && forall i :: r < i <= b ==> c[i] == 0
    ensures Deepest(c, b) == r
  {
    if r < b { DeepestIs(c, b - 1, r); }
  }

  /** The repair loop. */
  method Repair(c: array<nat>, max: nat, overflow0: nat, ghost n: nat)
    requires Repairing(c[..], max, n, overflow0) && overflow0 > 0 && n <= Pow2(max)
    modifies c
    ensures Repairing(c[..], max, n, 0) && c[..] == Mended(old(c[..]), max, overflow0 / 2)
  {
    hide Repairing, Deepest;
    var overflow := overflow0;
    RepairingSize(c[..], max, n, overflow);
    while overflow > 0
      invariant Repairing(c[..], max, n, overflow) && c.Length == 16 && 1 <= max <= 15 && overflow % 2 == 0
      invariant Mended(c[..], max, overflow / 2) == Mended(old(c[..]), max, overflow0 / 2)
      decreases overflow
    {
      CanMove(c[..], max, n, overflow);
      RepairingSize(c[..], max, n, overflow);
      ghost var c0: seq<nat> := c[..];
      var bits := max - 1;
      while c[bits] == 0
        invariant 0 <= bits < max && c[..] == c0 && forall b :: bits < b < max ==> c[b] == 0
        decreases bits
      {
        ghost var b :| 1 <= b < max && c0[b] > 0;
        assert c[b] > 0;
        bits := bits - 1;
      }
      DeepestIs(c0, max - 1, bits);
      MoveRepairs(c0, max, n, overflow, bits);
      c[bits] := c[bits] - 1;
      c[bits + 1] := c[bits + 1] + 2;
      c[max] := c[max] - 1;
      assert c[..] == Moved(c0, bits, max);
      overflow := overflow - 2;
    }
  }

  lemma {:induction false} RepairingSize(c: seq<nat>, max: nat, n: nat, overflow: nat)
    requires Repairing(c, max, n, overflow)
    ensures |c| == 16 && 1 <= max <= 15 && c[0] == 0 && overflow % 2 == 0
  {
  }

  // ------------------------------------------------------- dealing out the lengths

  /** The leaves before place i. */
  ghost function LeavesTo(leaves: set<nat>, mg: seq<nat>, i: nat): set<nat>
    requires i <= |mg|
  {
    set x | x in leaves && x in mg[..i]
  }

  lemma {:induction false} LeavesToStep(leaves: set<nat>, elems: nat, mg: seq<nat>, i: nat)
    requires Whole(leaves, elems, mg) && i < |mg|
    ensures mg[i] !in LeavesTo(leaves, mg, i)
    ensures LeavesTo(leaves, mg, i + 1) == LeavesTo(leaves, mg, i) + (if mg[i] in leaves then {mg[i]} else {})
  {
    assert mg[..i + 1] == mg[..i] + [mg[i]];
    assert mg[i] !in mg[..i];
  }

  lemma {:induction false} LeavesToAll(leaves: set<nat>, elems: nat, mg: seq<nat>, i: nat)
    requires Whole(leaves, elems, mg) && i <= |mg|
    ensures LeavesTo(leaves, mg, i) <= leaves && LeavesTo(leaves, mg, 0) == {}
    ensures i == |mg| ==> LeavesTo(leaves, mg, i) == leaves
  {
    if i == |mg| {
      assert mg[..i] == mg;
      forall x | x in leaves ensures x in mg { var j := LeafPlace(leaves, elems, mg, x); }
    }
  }

  /** The leaves before place i have their final lengths, n codes of the given length and all
      shorter ones are still to be dealt out. */
  ghost predicate Dealing(dl: seq<nat>, l: seq<nat>, c: seq<nat>, leaves: set<nat>, mg: seq<nat>, i: nat, bits: nat,
                          n: nat, max: nat) {
    && i <= |mg| && |c| == 16 && bits <= max <= 15 && n <= c[bits] && |dl| == |l|
    && (bits == 0 ==> n == 0)
    && var d := LeavesTo(leaves, mg, i);
      && |d| + n + (if bits == 0 then 0 else Total(c, bits - 1)) == |leaves|
      && (forall x :: x in d ==> x < |dl| && 1 <= dl[x] <= max)
      && (forall x :: 0 <= x < |dl| && x !in d ==> dl[x] == l[x])
      && forall b :: 1 <= b <= max ==>
         Sum(d, Having(dl, b)) == if b > bits then c[b] else if b == bits then c[b] - n else 0
  }

  /** Of the leaves before place i none is shorter than a later one, nor than the given length. */
  ghost predicate Falling(dl: seq<nat>, leaves: set<nat>, mg: seq<nat>, i: nat, bits: nat) {
    && i <= |mg| && (forall p :: 0 <= p < i && mg[p] in leaves ==> mg[p] < |dl| && bits <= dl[mg[p]])
    && forall p, q :: 0 <= p < q < i && mg[p] in leaves && mg[q] in leaves && mg[p] < |dl| && mg[q] < |dl| ==>
         dl[mg[p]] >= dl[mg[q]]
  }

  lemma {:induction false} FallingNext(dl: seq<nat>, leaves: set<nat>, elems: nat, mg: seq<nat>, i: nat, bits: nat)
    requires Falling(dl, leaves, mg, i, bits) && i < |mg| && Whole(leaves, elems, mg)
    ensures mg[i] !in leaves ==> Falling(dl, leaves, mg, i + 1, bits)
    ensures mg[i] in leaves && mg[i] < |dl| ==> Falling(dl[mg[i] := bits], leaves, mg, i + 1, bits)
  {
    forall p | 0 <= p < i ensures mg[p] != mg[i] {}
  }

  /** So the rarer of two symbols has no shorter length. */
  ghost predicate RarerLonger(leaves: set<nat>, f: seq<nat>, dl: seq<nat>) {
    forall x, y :: x in leaves && y in leaves && x < |f| && y < |f| && x < |dl| && y < |dl| && f[x] < f[y] ==>
      dl[x] >= dl[y]
  }

  lemma {:induction false} RarerFirst(dl: seq<nat>, f: seq<nat>, leaves: set<nat>, elems: nat, mg: seq<nat>, bits: nat)
    requires Falling(dl, leaves, mg, |mg|, bits) && Whole(leaves, elems, mg) && InOrder(f, mg)
    ensures RarerLonger(leaves, f, dl)
  {
    forall x, y | x in leaves && y in leaves && x < |f| && y < |f| && x < |dl| && y < |dl| && f[x] < f[y]
      ensures dl[x] >= dl[y]
    {
      var p := LeafPlace(leaves, elems, mg, x);
      var q := LeafPlace(leaves, elems, mg, y);
      assert p < q || f[mg[q]] <= f[mg[p]];
    }
  }

  lemma {:induction false} DealNext(dl: seq<nat>, l: seq<nat>, c: seq<nat>, leaves: set<nat>, elems: nat, mg: seq<nat>,
                                    i: nat, bits: nat, n: nat, max: nat)
    requires Dealing(dl, l, c, leaves, mg, i, bits, n, max) && Whole(leaves, elems, mg) && n > 0
    requires forall x :: x in leaves ==> x < |dl|
    ensures i < |mg|
    ensures mg[i] !in leaves ==> Dealing(dl, l, c, leaves, mg, i + 1, bits, n, max)
    ensures mg[i] in leaves ==> mg[i] < |dl| && Dealing(dl[mg[i] := bits], l, c, leaves, mg, i + 1, bits, n - 1, max)
  {
    hide Whole, Sum, LeavesTo;
    LeavesToAll(leaves, elems, mg, i);
    LeavesToStep(leaves, elems, mg, i);
    var d, m := LeavesTo(leaves, mg, i), mg[i];
    if m in leaves {
      var k := dl[m := bits];
      forall b | 1 <= b <= max
        ensures Sum(d + {m}, Having(k, b)) == Sum(d, Having(dl, b)) + if b == bits then 1 else 0
      {
        SumSame(d, d, Having(dl, b), Having(k, b));
        SumAdd(d, Having(k, b), m);
      }
    } else {
      assert LeavesTo(leaves, mg, i + 1) == d;
    }
  }

  lemma {:induction false} DealShorter(dl: seq<nat>, l: seq<nat>, c: seq<nat>, leaves: set<nat>, mg: seq<nat>, i: nat,
                                       bits: nat, max: nat)
    requires Dealing(dl, l, c, leaves, mg, i, bits, 0, max) && bits > 0 && c[0] == 0
    ensures Dealing(dl, l, c, leaves, mg, i, bits - 1, c[bits - 1], max)
  {
    hide Sum;
  }

  lemma {:induction false} DealStart(l: seq<nat>, c: seq<nat>, leaves: set<nat>, elems: nat, mg: seq<nat>, max: nat)
    requires Whole(leaves, elems, mg) && |c| == 16 && 1 <= max <= 15 && Total(c, max) == |leaves|
    ensures Dealing(l, l, c, leaves, mg, 0, max, c[max], max)
  {
    LeavesToAll(leaves, elems, mg, 0);
    forall b | 1 <= b <= max ensures Sum({}, Having(l, b)) == 0 { SumNone(Having(l, b)); }
  }

  lemma {:induction false} DealEnd(dl: seq<nat>, l: seq<nat>, c: seq<nat>, leaves: set<nat>, elems: nat, mg: seq<nat>,
                                   i: nat, max: nat)
    requires Dealing(dl, l, c, leaves, mg, i, 0, 0, max) && Whole(leaves, elems, mg)
    ensures forall x :: x in leaves ==> x < |dl| && 1 <= dl[x] <= max
    ensures forall x :: 0 <= x < |dl| && x !in leaves ==> dl[x] == l[x]
    ensures forall b :: 1 <= b <= max ==> c[b] == Sum(leaves, Having(dl, b))
  {
    hide Sum;
    LeavesToAll(leaves, elems, mg, i);
    SameCard(LeavesTo(leaves, mg, i), leaves);
  }

  lemma {:induction false} SameCard(a: set<nat>, b: set<nat>)
    requires a <= b && |a| == |b|
    ensures a == b
  {
    assert |b - a| == |b| - |a|;
  }

  /** The cost when one leaf gets another length. */
  lemma {:induction false} CostChange(leaves: set<nat>, f: seq<nat>, dl: seq<nat>, extra: seq<nat>, base: nat, m: nat,
                                      bits: nat)
    requires m in leaves && m < |dl| == |f|
    ensures Sum(leaves, BitCosts(f, dl[m := bits], extra, base))
      == Sum(leaves, BitCosts(f, dl, extra, base)) + (bits - dl[m]) * f[m]
  {
    hide Sum;
    var s, x := BitCosts(f, dl, extra, base), Xbits(extra, base, m);
    assert BitCosts(f, dl[m := bits], extra, base) == s[m := f[m] * (bits + x)];
    SumUpdate(leaves, s, m, f[m] * (bits + x));
    assert f[m] * (bits + x) - f[m] * (dl[m] + x) == (bits - dl[m]) * f[m];
  }

  /** Recompute all lengths, scanning in increasing frequency. */
  method DealOut(w: Work, fc: array<nat>, dl: array<nat>, maxCode: nat, max: nat, ghost extra: seq<nat>,
                 ghost base: nat,
                 ghost leaves: set<nat>, ghost elems: nat, ghost mg: seq<nat>)
    requires w.Shaped() && fc.Length == dl.Length && {w.heap, w.depth, w.blCount} !! {fc, dl} && fc != dl
    requires Whole(leaves, elems, mg) && Listed(w.heap[..], w.heapMax, elems, mg) && 1 <= max <= 15
    requires w.blCount[0] == 0 && Total(w.blCount[..], max) == |leaves|
    requires forall x :: x in leaves ==> x <= maxCode
    requires maxCode < elems && elems <= dl.Length
    modifies w`optLen, dl
    ensures forall x :: x in leaves ==> x < dl.Length && 1 <= dl[x] <= max
    ensures forall x :: 0 <= x < dl.Length && x !in leaves ==> dl[x] == old(dl[x])
    ensures forall b :: 1 <= b <= max ==> w.blCount[b] == Sum(leaves, Having(dl[..], b))
    ensures InOrder(fc[..], mg) ==> RarerLonger(leaves, fc[..], dl[..])
    ensures w.optLen - Sum(leaves, BitCosts(fc[..], dl[..], extra, base))
      == old(w.optLen - Sum(leaves, BitCosts(fc[..], dl[..], extra, base)))
  {
    hide Whole, Sum, Dealing, BitCosts, Having, Falling, RarerLonger, InOrder;
    ghost var c, l, f := w.blCount[..], dl[..], fc[..];
    ghost var k := w.optLen - Sum(leaves, BitCosts(f, l, extra, base));
    DealStart(l, c, leaves, elems, mg, max);
    LeavesSmall(leaves, elems, mg, f, f);
    ghost var i: nat := 0;
    var h := HEAP_SIZE;
    var bits := max;
    FallingNone(l, leaves, mg, max);
    while bits != 0
      invariant bits <= max && i <= |mg| && h == HEAP_SIZE - i
      invariant (bits > 0 ==> Dealing(dl[..], l, c, leaves, mg, i, bits, c[bits], max))
      invariant bits == 0 ==> Dealing(dl[..], l, c, leaves, mg, i, 0, 0, max)
      invariant Falling(dl[..], leaves, mg, i, bits)
      invariant w.optLen - Sum(leaves, BitCosts(f, dl[..], extra, base)) == k
    {
      var n := w.blCount[bits];
      while n != 0
        invariant i <= |mg| && h == HEAP_SIZE - i && Dealing(dl[..], l, c, leaves, mg, i, bits, n, max)
        invariant Falling(dl[..], leaves, mg, i, bits)
        invariant w.optLen - Sum(leaves, BitCosts(f, dl[..], extra, base)) == k
        decreases |mg| - i
      {
        DealNext(dl[..], l, c, leaves, elems, mg, i, bits, n, max);
        FallingNext(dl[..], leaves, elems, mg, i, bits);
        h := h - 1;
        var m := w.heap[h];
        LeafOrNot(leaves, elems, mg, i, maxCode);
        i := i + 1;
        if m > maxCode { continue; }
        CostChange(leaves, f, dl[..], extra, base, m, bits);
        ghost var was: seq<nat> := dl[..];
        if dl[m] != bits {
          w.optLen := w.optLen + (bits - dl[m]) * fc[m];
          dl[m] := bits;
        }
        assert dl[..] == was[m := bits];
        n := n - 1;
      }
      DealShorter(dl[..], l, c, leaves, mg, i, bits, max);
      FallingShorter(dl[..], leaves, mg, i, bits);
      bits := bits - 1;
    }
    DealEnd(dl[..], l, c, leaves, elems, mg, i, max);
    if InOrder(f, mg) { RarerDealt(dl[..], l, c, f, leaves, elems, mg, i, max); }
  }

  lemma {:induction false} FallingNone(dl: seq<nat>, leaves: set<nat>, mg: seq<nat>, bits: nat)
    ensures Falling(dl, leaves, mg, 0, bits)
  {
  }

  lemma {:induction false} FallingShorter(dl: seq<nat>, leaves: set<nat>, mg: seq<nat>, i: nat, bits: nat)
    requires Falling(dl, leaves, mg, i, bits) && bits > 0
    ensures Falling(dl, leaves, mg, i, bits - 1)
  {
  }

  /** All leaves have been dealt with, those after place i being none. */
  lemma {:induction false} RarerDealt(dl: seq<nat>, l: seq<nat>, c: seq<nat>, f: seq<nat>, leaves: set<nat>, elems: nat,
                                      mg: seq<nat>, i: nat, max: nat)
    requires Dealing(dl, l, c, leaves, mg, i, 0, 0, max) && Whole(leaves, elems, mg) && InOrder(f, mg)
    requires Falling(dl, leaves, mg, i, 0)
    ensures RarerLonger(leaves, f, dl)
  {
    hide Sum, InOrder, RarerLonger;
    var d := LeavesTo(leaves, mg, i);
    LeavesToAll(leaves, elems, mg, i);
    SameCard(d, leaves);
    forall p | i <= p < |mg| ensures mg[p] !in leaves {
      if mg[p] in leaves {
        assert mg[p] in mg[..i];
        var q :| 0 <= q < i && mg[..i][q] == mg[p];
        assert mg[q] == mg[p];
      }
    }
    assert Falling(dl, leaves, mg, |mg|, 0);
    RarerFirst(dl, f, leaves, elems, mg, 0);
  }

  lemma {:induction false} LeafOrNot(leaves: set<nat>, elems: nat, mg: seq<nat>, i: nat, maxCode: nat)
    requires Whole(leaves, elems, mg) && i < |mg| && (forall x :: x in leaves ==> x <= maxCode) && maxCode < elems
    ensures mg[i] in leaves <==> mg[i] <= maxCode
  {
    assert SonOk(leaves, elems, mg, i);
  }
}
