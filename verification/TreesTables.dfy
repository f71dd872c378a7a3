/** ct_init of archive/gzip/trees.c: the tables from lengths and distances to their codes, and
    the static trees (RFC 1951, sections 3.2.5 and 3.2.6). */
module TreesTables {
  import opened BitString
  import opened GzipBits
  import opened Canonical
  import opened InflateFormat
  import opened TreesCodes
  import InflateBlocks

  const LITERALS: nat := 256
  const L_CODES: nat := 286
  const D_CODES: nat := 30
  const END_BLOCK: nat := 256

  /** The extra bits of the codes above the literals: extra_lbits. */
  function ExtraLBits(): (t: seq<nat>)
    ensures |t| == 29
  {
    CpLExt()[..29]
  }

  /** The last of the n + 1 first places of t whose value does not exceed x; 0 if none. */
  function Greatest(t: seq<nat>, x: nat, n: nat): (c: nat)
    requires n < |t|
    ensures c <= n
  {
    if n == 0 || t[n] <= x then n else Greatest(t, x, n - 1)
  }

  /** The codes of a match: those whose range starts last at or before it. */
  function LenCode(len: nat): (c: nat) ensures c <= 28 { Greatest(CpLens(), len, 28) }

  function DistCode(dist: nat): (c: nat) ensures c <= 29 { Greatest(CpDist(), dist, 29) }

  lemma {:induction false} GreatestIs(t: seq<nat>, x: nat, n: nat, c: nat)
    requires c <= n < |t| && t[c] <= x && forall j :: c < j <= n ==> t[j] > x
    ensures Greatest(t, x, n) == c
  {
    if c < n { GreatestIs(t, x, n - 1, c); }
  }

  /** The normalized length, or distance, after the range of code c. */
  function LenEnd(c: nat): nat
    requires c <= 28
  {
    if c < 28 then CpLens()[c] - 3 else 256
  }

  function DistEnd(c: nat): nat
    requires c <= 30
  {
    if c < 30 then CpDist()[c] - 1 else 0x8000
  }

  ghost predicate InLen(c: nat, x: nat) { c < 28 && LenEnd(c) <= x < LenEnd(c + 1) }

  ghost predicate InDist(c: nat, x: nat) { c < 30 && DistEnd(c) <= x < DistEnd(c + 1) }

  lemma {:induction false} LenSpan(c: nat)
    requires c < 28
    ensures LenEnd(c + 1) == LenEnd(c) + Pow2(CpLExt()[c]) && CpLens()[c] == LenEnd(c) + 3
  {
    hide Pow2;
    Pow2Values();
    Powers();
  }

  lemma {:induction false} DistSpan(c: nat)
    requires c < 30
    ensures DistEnd(c + 1) == DistEnd(c) + Pow2(CpDExt()[c]) && CpDist()[c] == DistEnd(c) + 1
  {
    hide Pow2;
    Pow2Values();
    Powers();
  }

  /** From code 16 on all ranges are made of whole groups of 128 distances. */
  lemma {:induction false} DistGroups(c: nat)
    requires 16 <= c < 30
    ensures CpDExt()[c] >= 7 && Pow2(CpDExt()[c]) == 128 * Pow2(CpDExt()[c] - 7)
  {
    hide Pow2;
    Pow2Values();
    Powers();
  }

  lemma {:induction false} LenEndsGrow(c: nat, d: nat)
    requires c <= d <= 28
    ensures LenEnd(c) <= LenEnd(d)
    decreases d - c
  {
    hide LenEnd, CpLens, CpLExt, Pow2;
    if c < d {
      LenSpan(c);
      LenEndsGrow(c + 1, d);
    }
  }

  lemma {:induction false} LenEndsFacts()
    ensures LenEnd(28) == 256 && LenEnd(0) == 0 && CpLens()[28] == 258
    ensures DistEnd(30) == 0x8000 && DistEnd(0) == 0 && DistEnd(16) == 256
  {
  }

  lemma {:induction false} DistEndsGrow(c: nat, d: nat)
    requires c <= d <= 30
    ensures DistEnd(c) <= DistEnd(d)
    decreases d - c
  {
    hide DistEnd, CpDist, CpDExt, Pow2;
    if c < d {
      DistSpan(c);
      DistEndsGrow(c + 1, d);
    }
  }

  /** A length in the range of a code has that code, but for the longest one. */
  lemma {:induction false} LenCodeIs(c: nat, x: nat)
    requires InLen(c, x)
    ensures x != 255 ==> LenCode(x + 3) == c
    ensures x < 256
  {
    hide CpLens, Greatest, LenEnd;
    LenEndsGrow(c + 1, 28);
    LenEndsFacts();
    if x != 255 {
      LenSpan(c);
      forall j | c < j <= 28 ensures CpLens()[j] > x + 3 {
        LenEndsGrow(c + 1, j);
        if j < 28 { LenSpan(j); }
      }
      GreatestIs(CpLens(), x + 3, 28, c);
    }
  }

  lemma {:induction false} LenCodeLongest()
    ensures LenCode(258) == 28
  {
  }

  lemma {:induction false} DistCodeIs(c: nat, x: nat)
    requires InDist(c, x)
    ensures DistCode(x + 1) == c && x < 0x8000
  {
    hide CpDist, Greatest, DistEnd;
    LenEndsFacts();
    DistEndsGrow(c + 1, 30);
    DistSpan(c);
    forall j | c < j <= 29 ensures CpDist()[j] > x + 1 {
      DistEndsGrow(c + 1, j);
      DistSpan(j);
    }
    GreatestIs(CpDist(), x + 1, 29, c);
  }

  // --------------------------------------------------------------------- lengths

  /** The base of each code's range, 0 for the last one, which has no extra bits. */
  ghost predicate LenBases(base: seq<nat>, n: nat) {
    |base| == 29 && n <= 28 && forall c :: 0 <= c < n ==> base[c] == LenEnd(c)
  }

  ghost predicate LensIn(t: seq<nat>, n: nat) { n <= |t| && forall x :: 0 <= x < n ==> InLen(t[x], x) }

  ghost predicate LenTable(t: seq<nat>, base: seq<nat>) {
    |t| == 256 && LenBases(base, 28) && forall x :: 0 <= x < 256 ==> t[x] == LenCode(x + 3)
  }

  /** length_code and base_length. */
  method InitLengths() returns (lengthCode: array<nat>, baseLength: array<nat>)
    ensures LenTable(lengthCode[..], baseLength[..])
  {
    hide LenEnd, CpLens, CpLExt, Pow2;
    lengthCode, baseLength := new nat[256], new nat[29];
    var length: nat, code: nat := 0, 0;
    LenEndsFacts();
    while code < 28
      invariant code <= 28 && length == LenEnd(code) && LenBases(baseLength[..], code) && LensIn(lengthCode[..], length)
    {
      baseLength[code] := length;
      LenSpan(code);
      LenEndsGrow(code + 1, 28);
      var n: nat := 0;
      while n < Pow2(CpLExt()[code])
        invariant n <= Pow2(CpLExt()[code]) && length == LenEnd(code) + n && LensIn(lengthCode[..], length)
        invariant LenBases(baseLength[..], code + 1)
      {
        lengthCode[length] := code;
        length := length + 1;
        n := n + 1;
      }
      code := code + 1;
    }
    ghost var t: seq<nat> := lengthCode[..];
    lengthCode[length - 1] := code;
    LenTableMade(t, lengthCode[..], baseLength[..]);
  }

  lemma {:induction false} LenTableMade(t0: seq<nat>, t: seq<nat>, base: seq<nat>)
    requires LensIn(t0, 256) && LenBases(base, 28) && |t0| == 256 && t == t0[255 := 28]
    ensures LenTable(t, base)
  {
    hide LenEnd, LenCode;
    LenCodeLongest();
    forall x | 0 <= x < 256 ensures t[x] == LenCode(x + 3) { LenCodeIs(t0[x], x); }
  }

  // ------------------------------------------------------------------- distances

  /** d_code. */
  function DCode(t: seq<nat>, dist: nat): nat
    requires |t| == 512 && dist < 0x8000
  {
    if dist < 256 then t[dist] else t[256 + dist / 128]
  }

  ghost predicate DistBases(base: seq<nat>, n: nat) {
    |base| == 30 && n <= 30 && forall c :: 0 <= c < n ==> base[c] == DistEnd(c)
  }

  ghost predicate DistsIn(t: seq<nat>, n: nat) { n <= 256 <= |t| && forall x :: 0 <= x < n ==> InDist(t[x], x) }

  ghost predicate GroupIn(c: nat, k: nat) { c < 30 && DistEnd(c) <= 128 * k && 128 * (k + 1) <= DistEnd(c + 1) }

  ghost predicate GroupsIn(t: seq<nat>, n: nat) { n <= 256 && |t| == 512 && forall k :: 2 <= k < n ==> GroupAt(t, k) }

  ghost predicate GroupAt(t: seq<nat>, k: nat)
    requires |t| == 512 && k < 256
  {
    GroupIn(t[256 + k], k)
  }

  ghost predicate DistTable(t: seq<nat>, base: seq<nat>) {
    |t| == 512 && DistBases(base, 30) && forall x :: 0 <= x < 0x8000 ==> DCode(t, x) == DistCode(x + 1)
  }

  /** dist_code and base_dist. */
  method InitDistances() returns (distCode: array<nat>, baseDist: array<nat>)
    ensures DistTable(distCode[..], baseDist[..])
  {
    hide DistEnd, CpDist, CpDExt, Pow2;
    distCode, baseDist := new nat[512], new nat[30];
    var dist: nat, code: nat := 0, 0;
    LenEndsFacts();
    while code < 16
      invariant code <= 16 && dist == DistEnd(code) <= 256 && DistBases(baseDist[..], code)
      invariant DistsIn(distCode[..], dist)
    {
      baseDist[code] := dist;
      DistSpan(code);
      DistEndsGrow(code + 1, 16);
      var n: nat := 0;
      while n < Pow2(CpDExt()[code])
        invariant n <= Pow2(CpDExt()[code]) && dist == DistEnd(code) + n <= 256 && DistsIn(distCode[..], dist)
        invariant DistBases(baseDist[..], code + 1)
      {
        distCode[dist] := code;
        dist := dist + 1;
        n := n + 1;
      }
      code := code + 1;
    }
    dist := dist / 128;
    while code < D_CODES
      invariant 16 <= code <= 30 && 128 * dist == DistEnd(code) <= 0x8000 && DistBases(baseDist[..], code)
      invariant DistsIn(distCode[..], 256) && GroupsIn(distCode[..], dist)
    {
      baseDist[code] := dist * 128;
      DistSpan(code);
      DistGroups(code);
      DistEndsGrow(code + 1, 30);
      var n: nat := 0;
      while n < Pow2(CpDExt()[code] - 7)
        invariant n <= Pow2(CpDExt()[code] - 7) && 128 * dist == DistEnd(code) + 128 * n <= 0x8000
        invariant DistBases(baseDist[..], code + 1)
        invariant DistsIn(distCode[..], 256) && GroupsIn(distCode[..], dist)
      {
        ghost var t: seq<nat> := distCode[..];
        distCode[256 + dist] := code;
        assert GroupIn(code, dist);
        assert distCode[..] == t[256 + dist := code];
        forall k | 2 <= k < dist ensures GroupAt(distCode[..], k) { assert GroupAt(t, k); }
        dist := dist + 1;
        n := n + 1;
      }
      code := code + 1;
    }
    DistTableMade(distCode[..], baseDist[..]);
  }

  lemma {:induction false} DistTableMade(t: seq<nat>, base: seq<nat>)
    requires DistsIn(t, 256) && GroupsIn(t, 256) && DistBases(base, 30)
    ensures DistTable(t, base)
  {
    hide DistEnd, DistCode;
    forall x | 0 <= x < 0x8000 ensures DCode(t, x) == DistCode(x + 1) {
      if x < 256 {
        DistCodeIs(t[x], x);
      } else {
        GroupHolds(t, x);
        DistCodeIs(t[256 + x / 128], x);
      }
    }
  }

  lemma {:induction false} GroupHolds(t: seq<nat>, x: nat)
    requires GroupsIn(t, 256) && 256 <= x < 0x8000
    ensures InDist(t[256 + x / 128], x)
  {
    hide DistEnd;
    var k := x / 128;
    assert 2 <= k < 256 && 128 * k <= x < 128 * (k + 1);
    assert GroupAt(t, k);
  }

  // ------------------------------------------------------- what the extra bits say

  ghost predicate LengthSplit(base: seq<nat>, len: nat, c: nat)
    requires c < 29 == |base|
  {
    && CpLExt()[c] <= 5
    && (CpLExt()[c] == 0 ==> CpLens()[c] == len)
    && (CpLExt()[c] > 0 ==>
          base[c] + 3 <= len && len - 3 - base[c] < Pow2(CpLExt()[c])
          && CpLens()[c] + (len - 3 - base[c]) == len)
  }

  ghost predicate DistanceSplit(base: seq<nat>, dist: nat, c: nat)
    requires c < 30 == |base|
  {
    && CpDExt()[c] <= 13
    && (CpDExt()[c] == 0 ==> CpDist()[c] == dist)
    && (CpDExt()[c] > 0 ==>
          base[c] < dist && dist - 1 - base[c] < Pow2(CpDExt()[c])
          && CpDist()[c] + (dist - 1 - base[c]) == dist)
  }

  /** A length is the start of its code's range and what the extra bits say. */
  lemma {:induction false} LengthParts(base: seq<nat>, len: nat)
    requires LenBases(base, 28) && 3 <= len <= 258
    ensures LenCode(len) < 29 && LengthSplit(base, len, LenCode(len))
  {
    hide LenEnd, CpLens, CpLExt, Pow2, LenCode;
    if len == 258 {
      LenCodeLongest();
      LenEndsFacts();
      assert CpLExt()[28] == 0 by { LastHasNone(); }
    } else {
      var c := LenRange(len - 3);
      LenCodeIs(c, len - 3);
      LenSpan(c);
      ExtraRange(c);
      OneValue();
    }
  }

  lemma {:induction false} OneValue()
    ensures Pow2(0) == 1
  {
  }

  lemma {:induction false} LastHasNone()
    ensures CpLExt()[28] == 0
  {
  }

  lemma {:induction false} LenRange(x: nat) returns (c: nat)
    requires x < 256
    ensures InLen(c, x)
  {
    hide LenEnd;
    LenEndsFacts();
    c := 0;
    while LenEnd(c + 1) <= x
      invariant c < 28 && LenEnd(c) <= x
      decreases 28 - c
    {
      c := c + 1;
    }
  }

  lemma {:induction false} DistRange(x: nat) returns (c: nat)
    requires x < 0x8000
    ensures InDist(c, x)
  {
    hide DistEnd;
    LenEndsFacts();
    c := 0;
    while DistEnd(c + 1) <= x
      invariant c < 30 && DistEnd(c) <= x
      decreases 30 - c
    {
      c := c + 1;
    }
  }

  lemma {:induction false} DistanceParts(base: seq<nat>, dist: nat)
    requires DistBases(base, 30) && 1 <= dist <= 0x8000
    ensures DistCode(dist) < 30 && DistanceSplit(base, dist, DistCode(dist))
  {
    hide DistEnd, CpDist, CpDExt, Pow2, DistCode;
    var c := DistRange(dist - 1);
    DistCodeIs(c, dist - 1);
    DistSpan(c);
    ExtraDistance(c);
    OneValue();
  }

  // ---------------------------------------------------------------- static trees

  /** Set the next lengths up to the end of a range, counting them. */
  method SetLengths(dl: array<nat>, count: array<nat>, n: nat, end: nat, len: nat)
    requires dl != count && n <= end <= dl.Length && count.Length == 16 && 1 <= len <= 15
    requires forall b :: 0 <= b <= 15 ==> count[b] == Count(dl[..n], b)
    modifies dl, count
    ensures forall b :: 0 <= b <= 15 ==> count[b] == Count(dl[..end], b)
    ensures dl[..end] == old(dl[..n]) + Repeat(end - n, len)
  {
    hide Count;
    ghost var was: seq<nat> := dl[..n];
    var i := n;
    assert dl[..n] == was + Repeat(0, len);
    while i < end
      invariant n <= i <= end && dl[..i] == was + Repeat(i - n, len)
      invariant forall b :: 0 <= b <= 15 ==> count[b] == Count(dl[..i], b)
    {
      ghost var before: seq<nat> := dl[..i];
      dl[i] := len;
      count[len] := count[len] + 1;
      assert dl[..i + 1] == before + [len];
      forall b ensures Count(dl[..i + 1], b) == Count(before, b) + if b == len then 1 else 0 {
        CountSnoc(before, len, b);
      }
      i := i + 1;
    }
  }

  lemma {:induction false} CountSnoc(ls: seq<nat>, len: nat, b: nat)
    ensures Count(ls + [len], b) == Count(ls, b) + if b == len then 1 else 0
  {
    assert (ls + [len])[..|ls + [len]| - 1] == ls;
  }

  /** The static tree for literals and lengths. */
  method InitStaticLit(blCount: array<nat>) returns (fc: array<nat>, dl: array<nat>)
    requires blCount.Length == 16
    modifies blCount
    ensures dl[..] == FixedLit() && TreesCodes.Coded(fc[..], FixedLit(), 288) && fc.Length == dl.Length == 288
  {
    hide Count, TreesCodes.Coded;
    fc, dl := new nat[288], new nat[288];
    var b := 0;
    while b <= 15
      invariant 0 <= b <= 16 && forall k :: 0 <= k < b ==> blCount[k] == 0
    {
      blCount[b] := 0;
      b := b + 1;
    }
    forall k ensures Count(dl[..0], k) == 0 { CountEmpty(k); }
    SetLengths(dl, blCount, 0, 144, 8);
    SetLengths(dl, blCount, 144, 256, 9);
    SetLengths(dl, blCount, 256, 280, 7);
    SetLengths(dl, blCount, 280, 288, 8);
    assert dl[..288] == FixedLit();
    FixedFits();
    forall k | 0 <= k <= 15 ensures blCount[k] == Count(FixedLit(), k) {}
    InflateBlocks.FixedCount(0);
    GenCodes(fc, dl, 287, blCount[..]);
    assert dl[..] == dl[..288];
  }

  lemma {:induction false} CountEmpty(k: nat)
    ensures Count([], k) == 0
  {
  }

  lemma {:induction false} FixedFits()
    ensures NoneAbove(FixedLit(), 15) && Spare(FixedLit(), 15) == 0
  {
    hide Count, Spare, FixedLit;
    InflateBlocks.FixedFacts();
    InflateBlocks.FixedRange();
    var b: nat := 9;
    while b < 15
      invariant 9 <= b <= 15 && Spare(FixedLit(), b) == 0
    {
      CountNone(FixedLit(), 9, b + 1);
      SpareNext(FixedLit(), b);
      b := b + 1;
    }
  }

  lemma {:induction false} SpareNext(ls: seq<nat>, b: nat)
    ensures Spare(ls, b + 1) == 2 * Spare(ls, b) - Count(ls, b + 1)
  {
  }

  /** The static tree for distances: all codes have 5 bits. */
  method InitStaticDist() returns (fc: array<nat>, dl: array<nat>)
    ensures dl[..] == FixedDist() && TreesCodes.Coded(fc[..], FixedDist(), 30) && fc.Length == dl.Length == 30
  {
    hide CodeSet;
    fc, dl := new nat[D_CODES], new nat[D_CODES];
    Pow2Values();
    var n: nat := 0;
    while n < D_CODES
      invariant n <= 30 && forall k :: 0 <= k < n ==> dl[k] == 5 && CodeSet(fc[..], FixedDist(), k)
    {
      ghost var was: seq<nat> := fc[..];
      dl[n] := 5;
      var r: nat := BiReverse(n, 5);
      fc[n] := r;
      StaticDistCode(was, fc[..], n, r);
      n := n + 1;
    }
    assert dl[..] == FixedDist();
  }

  lemma {:induction false} StaticDistCode(f: seq<nat>, g: seq<nat>, n: nat, r: nat)
    requires n < 30 && |f| == 30 && r < Pow2(5) && Lsb(r, 5) == BitsOf(n, 5) && g == f[n := r]
    ensures CodeSet(g, FixedDist(), n)
    ensures forall k :: 0 <= k < 30 && k != n && CodeSet(f, FixedDist(), k) ==> CodeSet(g, FixedDist(), k)
  {
    hide Count, Lsb, BitsOf, Code;
    var ls := FixedDist();
    assert ls[..n] == Repeat(n, 5);
    InflateBlocks.CountRepeat(n, 5, 5);
    FirstOfFive(5);
    assert CodeNum(ls, n) == n;
    CodeIs(ls, n);
  }

  lemma {:induction false} CodeIs(ls: seq<nat>, n: nat)
    requires n < |ls|
    ensures Code(ls, n) == BitsOf(CodeNum(ls, n), ls[n])
  {
  }

  lemma {:induction false} FirstOfFive(b: nat)
    requires b <= 5
    ensures First(FixedDist(), b) == 0
  {
    if b > 1 {
      FirstOfFive(b - 1);
      InflateBlocks.FixedCount(b - 1);
    }
  }
}
