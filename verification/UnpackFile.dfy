/** read_tree of archive/gzip/unpack.c, and a packed file as a whole. */
module UnpackFile {
  import opened BitString
  import opened Canonical
  import opened UnpackTree
  import opened UnpackTable
  import opened Unpack

  const LITERALS: nat := 256

  /** A packed file starts with the length of the text, the number of levels, and for each level
      the number of its leaves; that of the last one without two of them. */
  ghost predicate HasCounts(inp: seq<byte>) { |inp| >= 5 && 1 <= Levels(inp) <= MAX_BITLEN && |inp| >= 5 + Levels(inp) }

  function Num(inp: seq<byte>, i: nat): nat
    requires i < |inp|
  {
    inp[i]
  }

  function Levels(inp: seq<byte>): nat
    requires |inp| >= 5
  {
    Num(inp, 4)
  }

  function LeafCount(inp: seq<byte>, len: nat): nat
    requires |inp| >= 5 && |inp| >= 5 + Levels(inp)
  {
    if 1 <= len <= Levels(inp) then Num(inp, 4 + len) + (if len == Levels(inp) then 2 else 0) else 0
  }

  ghost function Counts(inp: seq<byte>): (c: seq<nat>)
    requires HasCounts(inp)
    ensures |c| == MAX_BITLEN + 1
  {
    seq(MAX_BITLEN + 1, len requires 0 <= len => LeafCount(inp, len))
  }

  /** In numbers: 1 to 25 levels. */
  lemma {:induction false} HeaderNumbers(inp: seq<byte>)
    ensures HasCounts(inp) <==> |inp| >= 5 && 1 <= Num(inp, 4) <= 25 && |inp| >= 5 + Num(inp, 4)
    ensures LITERALS == 256
  {
  }

  /** How many literals follow: all leaves but the end of the file. */
  ghost function LiteralCount(inp: seq<byte>): nat
    requires HasCounts(inp)
  {
    LastHasTwo(inp);
    Total(Counts(inp), Levels(inp)) - 1
  }

  lemma {:induction false} LastHasTwo(inp: seq<byte>)
    requires HasCounts(inp)
    ensures Total(Counts(inp), Levels(inp)) >= 2
  {
  }

  ghost function Literals(inp: seq<byte>): (s: seq<byte>)
    requires HasCounts(inp) && |inp| >= 5 + Levels(inp) + LiteralCount(inp)
  {
    inp[5 + Levels(inp)..5 + Levels(inp) + LiteralCount(inp)]
  }

  /** The number bytes stand for, the first counting most. */
  function Number(s: seq<byte>): nat { if s == [] then 0 else 256 * Number(s[..|s| - 1]) + s[|s| - 1] }

  function BigEndian(inp: seq<byte>): (n: nat)
    requires |inp| >= 4
  {
    Number(inp[..4])
  }

  lemma {:induction false} BigEndianBytes(inp: seq<byte>)
    requires |inp| >= 4
    ensures BigEndian(inp) == 0x100_0000 * Num(inp, 0) + 0x1_0000 * Num(inp, 1) + 0x100 * Num(inp, 2) + Num(inp, 3)
  {
    var s := inp[..4];
    assert s[..3][..2] == s[..2] && s[..2][..1] == s[..1] && s[..1][..0] == [];
    assert Number(s[..1]) == Num(inp, 0) && Number(s[..2]) == 256 * Num(inp, 0) + Num(inp, 1);
    assert Number(s[..3]) == 0x1_0000 * Num(inp, 0) + 0x100 * Num(inp, 1) + Num(inp, 2);
  }

  /** The length of the text, from the first four bytes. */
  method ReadLength(inp: seq<byte>) returns (len: nat)
    requires |inp| >= 4
    ensures len == BigEndian(inp)
  {
    len := 0;
    var n := 0;
    while n < 4
      invariant 0 <= n <= 4 && len == Number(inp[..n])
    {
      assert inp[..n + 1][..n] == inp[..n];
      len := 256 * len + Num(inp, n);
      n := n + 1;
    }
  }

  /** The header was read, up to byte at. */
  ghost predicate TreeRead(inp: seq<byte>, leaves: seq<nat>, base: seq<int>, literal: seq<byte>, at: nat) {
    && HasCounts(inp) && at <= |inp| && at == 5 + Levels(inp) + LiteralCount(inp)
    && LiteralCount(inp) <= LITERALS == |literal|
    && leaves == Counts(inp) && literal[..LiteralCount(inp)] == Literals(inp)
    && |base| == MAX_BITLEN + 1 && forall len :: 1 <= len <= Levels(inp) ==> base[len] == Total(leaves, len - 1)
  }

  /** The counts as read, before the end of the file is added. */
  ghost predicate CountsRead(inp: seq<byte>, leaves: seq<nat>, n: nat, len: nat, add: nat) {
    && HasCounts(inp) && |leaves| == MAX_BITLEN + 1 && len <= Levels(inp)
    && (forall k :: 0 <= k <= MAX_BITLEN ==>
       leaves[k] == if 1 <= k <= len then Num(inp, 4 + k) + (if k == Levels(inp) then add else 0) else 0)
    && n == Total(leaves, len)
  }

  lemma {:induction false} TotalSame(c: seq<nat>, d: seq<nat>, b: nat)
    requires b < |c| == |d| && forall i :: 1 <= i <= b ==> c[i] == d[i]
    ensures Total(c, b) == Total(d, b)
  {
    if b > 0 { TotalSame(c, d, b - 1); }
  }

  lemma {:induction false} CountsMore(inp: seq<byte>, leaves: seq<nat>, n: nat, len: nat)
    requires |inp| >= 5 && 1 <= len <= Levels(inp) && CountsRead(inp, leaves, n, len - 1, 0)
    ensures CountsRead(inp, leaves[len := Num(inp, 4 + len)], n + Num(inp, 4 + len), len, 0)
  {
    TotalSame(leaves, leaves[len := Num(inp, 4 + len)], len - 1);
  }

  /** One leaf more on the last level. */
  lemma {:induction false} CountsAdd(inp: seq<byte>, leaves: seq<nat>, n: nat, add: nat)
    requires HasCounts(inp) && CountsRead(inp, leaves, n, Levels(inp), add)
    ensures Levels(inp) < |leaves|
    ensures CountsRead(inp, leaves[Levels(inp) := leaves[Levels(inp)] + 1], n + 1, Levels(inp), add + 1)
  {
    TotalSame(leaves, leaves[Levels(inp) := leaves[Levels(inp)] + 1], Levels(inp) - 1);
  }

  lemma {:induction false} CountsDone(inp: seq<byte>, leaves: seq<nat>, n: nat)
    requires HasCounts(inp) && CountsRead(inp, leaves, n, Levels(inp), 2)
    ensures leaves == Counts(inp) && n == LiteralCount(inp) + 1
  {
  }

  /** The number of leaves at each level. */
  method ReadCounts(inp: seq<byte>, leaves: array<nat>) returns (ok: bool, n: nat)
    requires leaves.Length == MAX_BITLEN + 1 && |inp| >= 5 && 1 <= Levels(inp) <= MAX_BITLEN
    requires forall k :: 0 <= k <= MAX_BITLEN ==> leaves[k] == 0
    modifies leaves
    ensures ok <==> HasCounts(inp)
    ensures ok ==> CountsRead(inp, leaves[..], n, Levels(inp), 0)
  {
    hide Total;
    n := 0;
    if |inp| < 5 + Levels(inp) { return false, 0; }
    NoneCounted(inp, leaves[..]);
    var len: nat := 1;
    while len <= Levels(inp)
      invariant 1 <= len <= Levels(inp) + 1 && CountsRead(inp, leaves[..], n, len - 1, 0)
    {
      ghost var was: seq<nat> := leaves[..];
      CountsMore(inp, was, n, len);
      leaves[len] := Num(inp, 4 + len);
      assert leaves[..] == was[len := Num(inp, 4 + len)];
      n := n + leaves[len];
      len := len + 1;
    }
    ok := true;
  }

  lemma {:induction false} NoneCounted(inp: seq<byte>, leaves: seq<nat>)
    requires HasCounts(inp) && |leaves| == MAX_BITLEN + 1 && forall k :: 0 <= k <= MAX_BITLEN ==> leaves[k] == 0
    ensures CountsRead(inp, leaves, 0, 0, 0)
  {
  }

  /** The literals of one level.  There is room for LITERALS of them. */
  method ReadLevel(inp: seq<byte>, literal: array<byte>, start: nat, base: nat, count: nat)
    returns (end: End, base2: nat)
    requires literal.Length == LITERALS && base <= LITERALS && start + base <= |inp|
    requires literal[..base] == inp[start..start + base]
    modifies literal
    ensures end == Good ==>
              base2 == base + count <= LITERALS && start + base2 <= |inp|
                && literal[..base2] == inp[start..start + base2]
    ensures end == EndOfInput ==> start + base + count > |inp|
    ensures end == Undefined ==> base + count > LITERALS && |inp| > start + LITERALS
    ensures end != BadData
  {
    base2 := base;
    var n: nat := count;
    while n > 0
      invariant n <= count && base2 == base + count - n <= LITERALS && start + base2 <= |inp|
      invariant literal[..base2] == inp[start..start + base2]
    {
      if start + base2 == |inp| { return EndOfInput, base2; }
      if base2 == LITERALS { return Undefined, base2; }
      ghost var was: seq<byte> := literal[..base2];
      literal[base2] := inp[start + base2];
      assert literal[..base2 + 1] == was + [inp[start + base2]];
      base2 := base2 + 1;
      n := n - 1;
    }
    end := Good;
  }

  /** All literals, level by level, and where those of each level start. */
  method ReadLiterals(inp: seq<byte>, leaves: array<nat>, litBase: array<int>, literal: array<byte>, m: nat, start: nat)
    returns (end: End, base: nat)
    requires leaves.Length == litBase.Length == MAX_BITLEN + 1 && literal.Length == LITERALS && m <= MAX_BITLEN
    requires start <= |inp|
    modifies litBase, literal
    ensures end == Good ==>
              base == Total(leaves[..], m) <= LITERALS && start + base <= |inp|
                && literal[..base] == inp[start..start + base]
    ensures end == Good ==> forall len :: 1 <= len <= m ==> litBase[len] == Total(leaves[..], len - 1)
    ensures end == EndOfInput ==> start + Total(leaves[..], m) > |inp|
    ensures end == Undefined ==> Total(leaves[..], m) > LITERALS && |inp| > start + LITERALS
    ensures end != BadData
  {
    hide Total;
    ghost var c: seq<nat> := leaves[..];
    base, end := 0, Good;
    TotalNone(c);
    var len: nat := 1;
    while len <= m
      invariant 1 <= len <= m + 1 && base == Total(c, len - 1) <= LITERALS && start + base <= |inp| && end == Good
      invariant literal[..base] == inp[start..start + base]
      invariant forall k :: 1 <= k < len ==> litBase[k] == Total(c, k - 1)
    {
      litBase[len] := base;
      TotalNext(c, len, m);
      end, base := ReadLevel(inp, literal, start, base, leaves[len]);
      if end != Good { return; }
      len := len + 1;
    }
  }

  lemma {:induction false} TotalNone(c: seq<nat>)
    requires c != []
    ensures Total(c, 0) == 0
  {
  }

  lemma {:induction false} TotalNext(c: seq<nat>, len: nat, m: nat)
    requires 1 <= len <= m < |c|
    ensures Total(c, len) == Total(c, len - 1) + c[len] <= Total(c, m)
  {
    TotalGrows(c, len, m);
  }

  /** read_tree.  All is well if there are at most LITERALS - 1 leaves besides the last two: the
      test lets one more pass, and its literal has no room. */
  method ReadTree(inp: seq<byte>, leaves: array<nat>, litBase: array<int>, literal: array<byte>)
    returns (end: End, origLen: nat, maxLen: nat, at: nat)
    requires leaves.Length == litBase.Length == MAX_BITLEN + 1 && literal.Length == LITERALS
    requires forall k :: 0 <= k <= MAX_BITLEN ==> leaves[k] == 0
    modifies leaves, litBase, literal
    ensures end == Good ==>
              HasCounts(inp) && maxLen == Levels(inp) && origLen == BigEndian(inp)
                && TreeRead(inp, leaves[..], litBase[..], literal[..], at)
    ensures |inp| >= 5 && Levels(inp) > 25 ==> end == BadData
    ensures HasCounts(inp) ==>
              (end == Good <==> LiteralCount(inp) <= LITERALS && |inp| >= 5 + Levels(inp) + LiteralCount(inp))
              && (end == Undefined <==> LiteralCount(inp) == LITERALS + 1 && |inp| > 5 + Levels(inp) + LITERALS)
              && (end == BadData <==> LiteralCount(inp) > LITERALS + 1)
  {
    hide Total, CountsRead, Counts;
    origLen, maxLen, at := 0, 0, 0;
    if |inp| < 5 { return EndOfInput, 0, 0, 0; }
    origLen := ReadLength(inp);
    maxLen := Levels(inp);
    if maxLen > MAX_BITLEN { return BadData, origLen, maxLen, 0; }
    if maxLen == 0 { return Undefined, origLen, maxLen, 0; }
    var ok, n := ReadCounts(inp, leaves);
    if !ok { return EndOfInput, origLen, maxLen, 0; }
    ghost var c: seq<nat> := leaves[..];
    CountsAdd(inp, c, n, 0);
    ghost var c1: seq<nat> := c[maxLen := c[maxLen] + 1];
    CountsAdd(inp, c1, n + 1, 1);
    ghost var c2: seq<nat> := c1[maxLen := c1[maxLen] + 1];
    CountsDone(inp, c2, n + 2);
    CountsTotal(inp, c1, n + 1, 1);
    if n > LITERALS { return BadData, origLen, maxLen, 0; }
    leaves[maxLen] := leaves[maxLen] + 1;
    assert leaves[..] == c1;
    end, at := ReadLiterals(inp, leaves, litBase, literal, maxLen, 5 + maxLen);
    if end != Good { return; }
    leaves[maxLen] := leaves[maxLen] + 1;
    assert leaves[..] == c2;
    BasesKept(inp, c1, c2, litBase[..], maxLen);
    at := 5 + maxLen + at;
  }

  /** 255 leaves on the first level and the last three on the second: 256 are counted, and of the 257
      literals the last has no room. */
  lemma {:induction false} OneTooMany(inp: seq<byte>)
    requires |inp| == 264 && inp[4] == 2 && inp[5] == 255 && inp[6] == 1
    ensures HasCounts(inp) && LiteralCount(inp) == LITERALS + 1
  {
    var c := Counts(inp);
    assert c[1] == 255 && c[2] == 3;
    assert Total(c, 1) == 255 && Total(c, 2) == Total(c, 1) + c[2];
  }

  /** read_tree writes past its array for such a file. */
  method ReadTooMany(rest: seq<byte>) returns (end: End)
    requires |rest| == LITERALS + 1
    ensures end == Undefined
  {
    hide Total, Counts;
    var inp: seq<byte> := [0, 0, 0, 0, 2, 255, 1] + rest;
    OneTooMany(inp);
    var leaves, litBase := new nat[MAX_BITLEN + 1](_ => 0), new int[MAX_BITLEN + 1];
    var literal := new byte[LITERALS];
    var origLen, maxLen, at;
    end, origLen, maxLen, at := ReadTree(inp, leaves, litBase, literal);
  }

  lemma {:induction false} CountsTotal(inp: seq<byte>, leaves: seq<nat>, n: nat, add: nat)
    requires HasCounts(inp) && CountsRead(inp, leaves, n, Levels(inp), add)
    ensures |leaves| == MAX_BITLEN + 1 && Total(leaves, Levels(inp)) == n
  {
  }

  lemma {:induction false} BasesKept(inp: seq<byte>, c1: seq<nat>, c2: seq<nat>, base: seq<int>, m: nat)
    requires |c1| == |c2| == |base| == MAX_BITLEN + 1 && 1 <= m <= MAX_BITLEN
    requires (forall k :: 0 <= k <= MAX_BITLEN && k != m ==> c1[k] == c2[k])
    requires forall len :: 1 <= len <= m ==> base[len] == Total(c1, len - 1)
    ensures forall len :: 1 <= len <= m ==> base[len] == Total(c2, len - 1)
  {
    forall len | 1 <= len <= m ensures base[len] == Total(c2, len - 1) { TotalSame(c1, c2, len - 1); }
  }

  // ------------------------------------------------------------------------ whole

  /** A packed file of the text: the tree, which is complete, and the codes of the literals. */
  ghost predicate PackOf(inp: seq<byte>, xs: seq<Leaf>, tail: seq<bool>, text: seq<byte>) {
    && HasCounts(inp) && Full(Counts(inp), Levels(inp)) && LiteralCount(inp) <= LITERALS
    && |inp| >= 5 + Levels(inp) + LiteralCount(inp)
    && Packed(Counts(inp), Levels(inp), ByteBits(inp[5 + Levels(inp) + LiteralCount(inp)..]), xs, tail)
    && Literal(Counts(inp), Levels(inp), Literals(inp), xs, text) && BigEndian(inp) == |text| % 0x1_0000_0000
  }

  /** A packed file of the text ab: a is the code 1, b the code 00, and 01 the end. */
  function TwoLetters(): seq<byte> { [0, 0, 0, 2, 2, 1, 0, 0x61, 0x62, 0x88] }

  lemma {:induction false} TwoLettersPacked()
    ensures PackOf(TwoLetters(), [Leaf(1, 0), Leaf(2, 0)], [false, false, false], [0x61, 0x62])
  {
    hide Counts, Total, SpareOf, Packed, ByteBits, Literal, BigEndian;
    TwoCounts();
    var inp, c := TwoLetters(), Counts(TwoLetters());
    BigEndianBytes(inp);
    assert inp[9..] == [0x88] && Literals(inp) == [0x61, 0x62];
    TwoBits(c, ByteBits([0x88]));
    TwoText(c, [0x61, 0x62]);
  }

  lemma {:induction false} TwoCounts()
    ensures var inp := TwoLetters();
            && HasCounts(inp) && Levels(inp) == 2 && LiteralCount(inp) == 2
            && var c := Counts(inp);
               |c| == 26 && c[1] == 1 && c[2] == 2 && SpareOf(c, 1) == 1 && SpareOf(c, 2) == 0
               && Total(c, 0) == 0 && Total(c, 1) == 1
  {
    var c := Counts(TwoLetters());
    assert c[1] == 1 && c[2] == 2;
    assert SpareOf(c, 1) == 1 && SpareOf(c, 2) == 0;
    assert Total(c, 1) == 1 && Total(c, 2) == 3;
  }

  lemma {:induction false} TwoBits(c: seq<nat>, t: seq<bool>)
    requires |c| == 26 && c[1] == 1 && c[2] == 2 && SpareOf(c, 1) == 1 && SpareOf(c, 2) == 0 && t == ByteBits([0x88])
    ensures Packed(c, 2, t, [Leaf(1, 0), Leaf(2, 0)], [false, false, false])
  {
    hide SpareOf, BitsOf, LeafBits;
    var a, b := Leaf(1, 0), Leaf(2, 0);
    TwoCodes(c);
    assert [a, b][1..] == [b] && [b][1..] == [];
    assert LeavesBits(c, 2, [b]) == [false, false];
    assert LeavesBits(c, 2, [a, b]) == [true] + [false, false];
    assert t == BitsOf(0x88, 8);
  }

  lemma {:induction false} TwoCodes(c: seq<nat>)
    requires |c| == 26 && c[1] == 1 && c[2] == 2 && SpareOf(c, 1) == 1 && SpareOf(c, 2) == 0
    ensures LeafBits(c, 2, Leaf(1, 0)) == [true] && LeafBits(c, 2, Leaf(2, 0)) == [false, false]
    ensures LeafBits(c, 2, Leaf(2, 1)) == [false, true]
    ensures BitsOf(0x88, 8) == [true, false, false, false, true, false, false, false]
  {
    hide SpareOf;
    assert BitsOf(1, 1) == [true] && BitsOf(0, 2) == [false, false] && BitsOf(1, 2) == [false, true];
  }

  lemma {:induction false} TwoText(c: seq<nat>, lit: seq<byte>)
    requires |c| == 26 && c[1] == 1 && c[2] == 2 && Total(c, 0) == 0 && Total(c, 1) == 1 && lit == [0x61, 0x62]
    ensures Literal(c, 2, lit, [Leaf(1, 0), Leaf(2, 0)], [0x61, 0x62])
  {
    hide Total;
    assert LiteralAt(c, lit, [Leaf(1, 0), Leaf(2, 0)], [0x61, 0x62], 0);
    assert LiteralAt(c, lit, [Leaf(1, 0), Leaf(2, 0)], [0x61, 0x62], 1);
  }

  /** It is unpacked to ab. */
  method UnpackTwoLetters() returns (text: seq<byte>)
    ensures text == [0x61, 0x62]
  {
    hide PackOf;
    TwoLettersPacked();
    var end;
    ghost var xs, tail;
    end, text, xs, tail := UnpackAll(TwoLetters(), [Leaf(1, 0), Leaf(2, 0)], [false, false, false], [0x61, 0x62]);
  }

  lemma {:induction false} PackReads(inp: seq<byte>, xs: seq<Leaf>, tail: seq<bool>, text: seq<byte>, end: End)
    requires HasCounts(inp) ==>
              (end == Good <==> LiteralCount(inp) <= LITERALS && |inp| >= 5 + Levels(inp) + LiteralCount(inp))
    ensures PackOf(inp, xs, tail, text) ==> end == Good
  {
    hide Packed, Literal, Full;
  }

  /** The same leaves have the same literals. */
  lemma {:induction false} OneText(c: seq<nat>, m: nat, lit: seq<byte>, xs: seq<Leaf>, text: seq<byte>,
                                   text2: seq<byte>)
    requires Literal(c, m, lit, xs, text) && Literal(c, m, lit, xs, text2)
    ensures text == text2
  {
    hide Place;
    forall i | 0 <= i < |xs| ensures text[i] == text2[i] {
      assert LiteralAt(c, lit, xs, text, i) && LiteralAt(c, lit, xs, text2, i);
    }
  }

  /** build_tree. */
  method BuildTree(c: seq<nat>, m: nat, litBase: array<int>, parents: array<nat>, prefix: array<nat>) returns (pb: nat)
    requires Full(c, m) && litBase.Length == parents.Length == MAX_BITLEN + 1 && prefix.Length == TABLE
    requires parents != prefix
    requires forall len :: 1 <= len <= m ==> litBase[len] == Total(c, len - 1)
    modifies litBase, parents, prefix
    ensures Tables(c, m, pb, litBase[..], parents[..], prefix[..])
  {
    hide SpareOf, Total, TableSet, BasesSet;
    CountParents(c, m, litBase, parents);
    pb := if m < MAX_PEEK then m else MAX_PEEK;
    FillTable(prefix, c, m, pb);
  }

  /** unpack: a packed file becomes the text, and only such a file becomes one.  What the code
      does with a tree that is not complete, or with more literals than there is room for, is
      not defined. */
  method UnpackAll(inp: seq<byte>, ghost xs0: seq<Leaf>, ghost tail0: seq<bool>, ghost text0: seq<byte>)
    returns (end: End, text: seq<byte>, ghost xs: seq<Leaf>, ghost tail: seq<bool>)
    ensures end == Good ==> PackOf(inp, xs, tail, text)
    ensures PackOf(inp, xs0, tail0, text0) ==> end == Good && text == text0
  {
    hide Packed, Literal, Full, Counts, Tables, TreeRead, Literals, Total;
    text, xs, tail := [], [], [];
    var leaves := new nat[MAX_BITLEN + 1](_ => 0);
    var litBase, parents := new int[MAX_BITLEN + 1], new nat[MAX_BITLEN + 1];
    var literal, prefix := new byte[LITERALS], new nat[TABLE];
    var origLen, m, at;
    end, origLen, m, at := ReadTree(inp, leaves, litBase, literal);
    PackReads(inp, xs0, tail0, text0, end);
    if end != Good { return; }
    TreeParts(inp, leaves[..], litBase[..], literal[..], at);
    var c := leaves[..];
    if !Full(c, m) { return Undefined, text, xs, tail; }
    var pb := BuildTree(c, m, litBase, parents, prefix);
    var b := new PackIn(inp[at..]);
    ghost var t := b.rest;
    var lit := literal[..at - 5 - m];
    end, text, xs := DecodeLoop(b, c, m, pb, litBase[..], parents[..], prefix[..], lit, xs0, tail0);
    PackGiven(inp, xs0, tail0, text0, c, m, lit, at, xs, text, end);
    if end == Good {
      tail := b.rest[m..];
      if origLen != |text| % 0x1_0000_0000 { end := BadData; }
    }
  }

  lemma {:induction false} TreeParts(inp: seq<byte>, leaves: seq<nat>, base: seq<int>, literal: seq<byte>, at: nat)
    requires TreeRead(inp, leaves, base, literal, at)
    ensures HasCounts(inp) && leaves == Counts(inp) && at == 5 + Levels(inp) + LiteralCount(inp) <= |inp|
    ensures LiteralCount(inp) <= LITERALS == |literal|
    ensures literal[..LiteralCount(inp)] == Literals(inp) && LiteralCount(inp) == Total(leaves, Levels(inp)) - 1
    ensures |base| == MAX_BITLEN + 1 && forall len :: 1 <= len <= Levels(inp) ==> base[len] == Total(leaves, len - 1)
  {
    hide Counts, Total;
  }

  /** What a packed file gives for the decode loop, and what the loop gives for it. */
  lemma {:induction false} PackGiven(inp: seq<byte>, xs0: seq<Leaf>, tail0: seq<bool>, text0: seq<byte>, c: seq<nat>,
                                     m: nat, lit: seq<byte>, at: nat,
                                     xs: seq<Leaf>, text: seq<byte>, end: End)
    requires HasCounts(inp) && c == Counts(inp) && m == Levels(inp) && at == 5 + m + LiteralCount(inp) <= |inp|
    requires lit == Literals(inp)
    requires end == Good ==> Literal(c, m, lit, xs, text)
    requires Packed(c, m, ByteBits(inp[at..]), xs0, tail0) ==> end == Good && xs == xs0
    ensures PackOf(inp, xs0, tail0, text0) ==> end == Good && text == text0 && BigEndian(inp) == |text| % 0x1_0000_0000
  {
    hide Packed, Literal, Full, Counts, Literals;
    if PackOf(inp, xs0, tail0, text0) { OneText(c, m, lit, xs0, text, text0); }
  }
}
