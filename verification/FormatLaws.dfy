/** The format of archive/gzip/trees.c and archive/gzip/inflate.c in numbers (RFC 1951, section
    3.2): what the tables of the two programs, which have to agree, have to say. */
module FormatLaws {
  import opened BitString
  import opened GzipBits
  import opened Canonical
  import opened InflateLookup
  import opened InflateFormat
  import opened InflateBlocks
  import opened Hufts
  import TreesTokens
  import opened TreesHeader
  import opened TreesFlush

  // ------------------------------------------- the lengths of the bit length codes

  /** Which group of three bits has the length of a bit length code: first those of the repeat codes
      and of 0, then from 8 outwards up and down in turn. */
  function GroupOf(x: nat): nat
    requires x < 19
  {
    if x >= 16 then x - 16 else if x == 0 then 3 else if x >= 8 then 4 + 2 * (x - 8) else 3 + 2 * (8 - x)
  }

  /** The three bits of group i. */
  ghost function Group(t: seq<bool>, i: nat): nat
    requires 3 * i + 3 <= |t|
  {
    Number(t[3 * i..], 3)
  }

  lemma {:induction false} GroupNumber(x: nat)
    requires x < 19
    ensures GroupOf(x) < 19 && Border()[GroupOf(x)] == x
  {
  }

  lemma {:induction false} GroupOnce(j: nat)
    requires j < 19
    ensures Border()[j] < 19 && GroupOf(Border()[j]) == j
  {
  }

  /** Reading groups from j on changes the lengths of just their codes. */
  lemma {:induction false} GroupsFrom(b: seq<nat>, j: nat, n: nat, t: seq<bool>, x: nat)
    requires |b| == 19 && j <= n <= 19 && x < 19 && BitLengths(b, j, n, t).Done?
    ensures var v := BitLengths(b, j, n, t).v;
            |v| == 19 && 3 * (n - j) <= |t|
            && v[x] == if j <= GroupOf(x) < n then Group(t, GroupOf(x) - j) else b[x]
    ensures BitLengths(b, j, n, t).rest == t[3 * (n - j)..]
    decreases n - j
  {
    hide Number, Border, GroupOf;
    if j < n {
      BorderRange(j);
      GroupNumber(x);
      GroupOnce(j);
      var b2 := b[Border()[j] := Number(t, 3)];
      GroupsFrom(b2, j + 1, n, t[3..], x);
      if j < GroupOf(x) < n { assert t[3..][3 * (GroupOf(x) - j - 1)..] == t[3 * (GroupOf(x) - j)..]; }
      assert t[0..] == t;
    }
  }

  /** What inflate reads of n groups: code x has the length in its group, or none. */
  lemma {:induction false} BitLengthsRead(n: nat, t: seq<bool>, x: nat)
    requires n <= 19 && x < 19 && BitLengths(Repeat(19, 0), 0, n, t).Done?
    ensures |BitLengths(Repeat(19, 0), 0, n, t).v| == 19 && 3 * n <= |t|
    ensures BitLengths(Repeat(19, 0), 0, n, t).v[x] == if GroupOf(x) < n then Group(t, GroupOf(x)) else 0
  {
    GroupsFrom(Repeat(19, 0), 0, n, t, x);
  }

  /** What deflate sends: group i has the length of its code. */
  lemma {:induction false} BitLengthsSent(b: seq<nat>, j: nat, n: nat, x: nat)
    requires |b| == 19 && j <= n <= 19 && x < 19 && j <= GroupOf(x) < n && b[x] < 8
    ensures |BorderBits(b, j, n)| == 3 * (n - j) && Group(BorderBits(b, j, n), GroupOf(x) - j) == b[x]
    decreases n - j
  {
    hide Number, Border, BlOrder, GroupOf, Lsb;
    BorderSize(b, j, n);
    BorderSize(b, j + 1, n);
    OrderRange(j);
    SameOrder(j);
    GroupNumber(x);
    var t, rest := BorderBits(b, j, n), BorderBits(b, j + 1, n);
    assert t == Lsb(b[BlOrder()[j]], 3) + rest;
    if GroupOf(x) == j {
      Pow2Values();
      TreesTokens.NumberOf(b[x], 3, rest);
      assert t[0..] == t;
    } else {
      BitLengthsSent(b, j + 1, n, x);
      assert t[3 * (GroupOf(x) - j)..] == rest[3 * (GroupOf(x) - j - 1)..];
    }
  }

  // -------------------------------------------------------- lengths and distances

  /** Length code 257 + c: from 8 on four codes each have one extra bit more; 258 has its own. */
  lemma {:induction false} LengthBase(c: nat)
    requires c < 31
    ensures c < 8 ==> CpLens()[c] == c + 3 && CpLExt()[c] == 0
    ensures 8 <= c < 28 ==> CpLExt()[c] == c / 4 - 1 && CpLens()[c] == 3 + (4 + c % 4) * Pow2(c / 4 - 1)
    ensures c == 28 ==> CpLens()[c] == 258 && CpLExt()[c] == 0
    ensures c > 28 ==> CpLExt()[c] == 99
  {
    hide CpLens, CpLExt, Pow2;
    LengthExtra(c);
    LengthEnds(c);
    if 8 <= c < 28 {
      var h: nat := c / 4 - 1;
      LengthFour(h);
      assert c == 4 * h + 4 + c % 4;
    }
  }

  lemma {:induction false} LengthExtra(c: nat)
    requires c < 31
    ensures CpLExt()[c] == if c < 8 || c == 28 then 0 else if c < 28 then c / 4 - 1 else 99
  {
  }

  lemma {:induction false} LengthEnds(c: nat)
    requires c < 31
    ensures c < 8 ==> CpLens()[c] == c + 3
    ensures c == 28 ==> CpLens()[c] == 258
  {
  }

  lemma {:induction false} LengthFour(h: nat)
    requires 1 <= h < 6
    ensures var c := 4 * h + 4;
            CpLens()[c] == 3 + 4 * Pow2(h) && CpLens()[c + 1] == 3 + 5 * Pow2(h)
            && CpLens()[c + 2] == 3 + 6 * Pow2(h) && CpLens()[c + 3] == 3 + 7 * Pow2(h)
  {
    hide Pow2;
    Pow2Values();
  }

  /** Distance code c: from 4 on two codes each have one extra bit more. */
  lemma {:induction false} DistanceBase(c: nat)
    requires c < 30
    ensures c < 2 ==> CpDist()[c] == c + 1 && CpDExt()[c] == 0
    ensures c >= 2 ==> CpDExt()[c] == c / 2 - 1 && CpDist()[c] == 1 + (2 + c % 2) * Pow2(c / 2 - 1)
  {
    hide CpDist, CpDExt, Pow2;
    DistanceExtra(c);
    if c >= 2 {
      var h: nat := c / 2 - 1;
      DistancePair(h);
      if c % 2 == 0 { assert c == 2 * h + 2; } else { assert c == 2 * h + 3; }
    } else {
      FirstDistances();
    }
  }

  lemma {:induction false} DistanceExtra(c: nat)
    requires c < 30
    ensures CpDExt()[c] == if c < 2 then 0 else c / 2 - 1
  {
  }

  lemma {:induction false} FirstDistances()
    ensures CpDist()[0] == 1 && CpDist()[1] == 2
  {
  }

  lemma {:induction false} DistancePair(h: nat)
    requires h < 14
    ensures CpDist()[2 * h + 2] == 1 + 2 * Pow2(h) && CpDist()[2 * h + 3] == 1 + 3 * Pow2(h)
  {
    hide Pow2;
    Pow2Values();
    HighPowers();
    PowNone();
  }

  lemma {:induction false} PowNone()
    ensures Pow2(0) == 1
  {
  }

  lemma {:induction false} HighPowers()
    ensures Pow2(8) == 256 && Pow2(9) == 512 && Pow2(10) == 1024 && Pow2(11) == 2048 && Pow2(12) == 4096
    ensures Pow2(13) == 8192
  {
    Pow2Values();
  }

  // ------------------------------------------------------------------ fixed codes

  function FixedNumber(i: nat): nat
    requires i < 288
  {
    if i < 144 then 48 + i else if i < 256 then 400 + (i - 144) else if i < 280 then i - 256 else 192 + (i - 280)
  }

  /** The fixed codes: 00110000 to 10111111, 110010000 to 111111111, 0000000 to 0010111 and 11000000
      to 11000111. */
  lemma {:induction false} FixedCode(i: nat)
    requires i < 288
    ensures Code(FixedLit(), i) == BitsOf(FixedNumber(i), if i < 144 || i >= 280 then 8 else if i < 256 then 9 else 7)
  {
    hide Count, BitsOf;
    var ls := FixedLit();
    FixedCount(1);
    FixedCount(2);
    FixedCount(3);
    FixedCount(4);
    FixedCount(5);
    FixedCount(6);
    FixedCount(7);
    FixedCount(8);
    FirstLow(ls, 7);
    assert First(ls, 8) == 2 * (First(ls, 7) + Count(ls, 7)) == 48;
    assert First(ls, 9) == 2 * (First(ls, 8) + Count(ls, 8)) == 400;
    FixedBefore(i);
  }

  lemma {:induction false} FirstLow(ls: seq<nat>, n: nat)
    requires n >= 1 && forall b :: 1 <= b < n ==> Count(ls, b) == 0
    ensures First(ls, n) == 0
  {
    hide Count;
    if n > 1 { FirstLow(ls, n - 1); }
  }

  lemma {:induction false} FixedBefore(i: nat)
    requires i < 288
    ensures Count(FixedLit()[..i], FixedLit()[i])
            == if i < 144 then i else if i < 256 then i - 144 else if i < 280 then i - 256 else 144 + (i - 280)
  {
    hide Count;
    var ls, k := FixedLit(), FixedLit()[i];
    var a, b, c, d := if i < 144 then i else 144, if i < 144 then 0 else if i < 256 then i - 144 else 112,
        if i < 256 then 0 else if i < 280 then i - 256 else 24, if i < 280 then 0 else i - 280;
    assert ls[..i] == Repeat(a, 8) + Repeat(b, 9) + Repeat(c, 7) + Repeat(d, 8);
    CountSplit(Repeat(a, 8) + Repeat(b, 9) + Repeat(c, 7), Repeat(d, 8), k);
    CountSplit(Repeat(a, 8) + Repeat(b, 9), Repeat(c, 7), k);
    CountSplit(Repeat(a, 8), Repeat(b, 9), k);
    CountRepeat(a, 8, k);
    CountRepeat(b, 9, k);
    CountRepeat(c, 7, k);
    CountRepeat(d, 8, k);
  }

  /** The three bytes 4b 04 00 are the letter a in one static block, with six bits to spare. */
  lemma {:induction false} StaticLetter()
    ensures OneBlock(ByteLsb([0x4b, 0x04, 0x00])) == Done(Block(true, Coded([Lit(97)])), Lsb(0, 6))
  {
    hide OneBlock, Code, FixedLit, FixedDist, StaticBits, Lsb, Kind;
    var ks, bits := [Lit(97)], Lsb(Kind(1, true), 3) + StaticBits([Lit(97)]);
    LetterBits();
    StaticReads(ks, true, |bits|);
    LetterRead(bits, ks);
  }

  lemma {:induction false} LetterRead(bits: seq<bool>, ks: seq<Item>)
    requires ReadsAs(bits, true, Coded(ks), |bits|) && |bits| == 18
    ensures OneBlock(bits + Lsb(0, 6)) == Done(Block(true, Coded(ks)), Lsb(0, 6))
  {
    hide OneBlock, Lsb;
  }

  lemma {:induction false} LetterBits()
    ensures ItemsOk([Lit(97)])
    ensures ByteLsb([0x4b, 0x04, 0x00]) == (Lsb(Kind(1, true), 3) + StaticBits([Lit(97)])) + Lsb(0, 6)
    ensures |Lsb(Kind(1, true), 3) + StaticBits([Lit(97)])| == 18
  {
    hide Code, FixedLit, FixedDist;
    assert ItemsOk([Lit(97)]);
    FixedInTrees([Lit(97)]);
    FixedCode(97);
    FixedCode(256);
    LetterCode();
    assert [Lit(97)][1..] == [];
    assert StaticBits([Lit(97)]) == Code(FixedLit(), 97) + Code(FixedLit(), 256);
    ThreeBytes();
  }

  lemma {:induction false} LetterCode()
    ensures BitsOf(145, 8) == [true, false, false, true, false, false, false, true]
    ensures BitsOf(0, 7) == [false, false, false, false, false, false, false]
    ensures Lsb(3, 3) == [true, true, false]
  {
  }

  lemma {:induction false} LsbParts(v: nat, n: nat)
    requires n > 0
    ensures Lsb(v, n) == [v % 2 == 1] + Lsb(v / 2, n - 1)
  {
  }

  lemma {:induction false} EightBits(v: nat, s: seq<bool>)
    requires |s| == 8 && s[0] == (v % 2 == 1) && s[1] == (v / 2 % 2 == 1) && s[2] == (v / 4 % 2 == 1)
    requires s[3] == (v / 8 % 2 == 1) && s[4] == (v / 16 % 2 == 1) && s[5] == (v / 32 % 2 == 1)
    requires s[6] == (v / 64 % 2 == 1) && s[7] == (v / 128 % 2 == 1)
    ensures Lsb(v, 8) == s
  {
    hide Lsb;
    Halves(v);
    FourBits(v / 16, s[4..]);
    FourBits2(v, s[..4]);
    assert s == s[..4] + s[4..];
  }

  lemma {:induction false} Halves(v: nat)
    ensures v / 16 / 2 == v / 32 && v / 16 / 4 == v / 64 && v / 16 / 8 == v / 128
  {
  }

  lemma {:induction false} FourBits(v: nat, s: seq<bool>)
    requires |s| == 4 && s[0] == (v % 2 == 1) && s[1] == (v / 2 % 2 == 1) && s[2] == (v / 4 % 2 == 1)
    requires s[3] == (v / 8 % 2 == 1)
    ensures Lsb(v, 4) == s
  {
    hide Lsb;
    FourFirst(v, 4, s);
    assert Lsb(v / 16, 0) == [];
  }

  lemma {:induction false} FourBits2(v: nat, s: seq<bool>)
    requires |s| == 4 && s[0] == (v % 2 == 1) && s[1] == (v / 2 % 2 == 1) && s[2] == (v / 4 % 2 == 1)
    requires s[3] == (v / 8 % 2 == 1)
    ensures Lsb(v, 8) == s + Lsb(v / 16, 4)
  {
    FourFirst(v, 8, s);
  }

  lemma {:induction false} FourFirst(v: nat, n: nat, s: seq<bool>)
    requires |s| == 4 && s[0] == (v % 2 == 1) && s[1] == (v / 2 % 2 == 1) && s[2] == (v / 4 % 2 == 1)
    requires s[3] == (v / 8 % 2 == 1) && n >= 4
    ensures Lsb(v, n) == s + Lsb(v / 16, n - 4)
  {
    hide Lsb;
    LsbParts(v, n);
    LsbParts(v / 2, n - 1);
    LsbParts(v / 4, n - 2);
    LsbParts(v / 8, n - 3);
    assert v / 2 / 2 == v / 4 && v / 4 / 2 == v / 8 && v / 8 / 2 == v / 16;
    assert s == [s[0]] + ([s[1]] + ([s[2]] + [s[3]]));
  }

  lemma {:induction false} ThreeBytes()
    ensures ByteLsb([0x4b, 0x04, 0x00])
            == [true, true, false] + ([true, false, false, true, false, false, false, true]
               + [false, false, false, false, false, false, false]) + Lsb(0, 6)
  {
    hide Lsb;
    var x := [true, true, false, true, false, false, true, false];
    var y := [false, false, true, false, false, false, false, false];
    var z := [false, false, false, false, false, false, false, false];
    EightBits(0x4b, x);
    EightBits(0x04, y);
    EightBits(0x00, z);
    LsbParts(0, 8);
    LsbParts(0, 7);
    assert Lsb(0, 6) == z[2..];
    ByteByByte(0x4b, 0x04, 0x00);
    assert z[2..] == [false, false, false, false, false, false];
    assert x + (y + z) == [true, true, false] + ([true, false, false, true, false, false, false, true]
                          + [false, false, false, false, false, false, false]) + z[2..];
  }

  lemma {:induction false} ByteByByte(a: byte, b: byte, c: byte)
    ensures ByteLsb([a, b, c]) == Lsb(a, 8) + (Lsb(b, 8) + Lsb(c, 8))
  {
    hide Lsb;
    var t: seq<byte> := [a, b, c];
    assert t[1..] == [b, c] && t[1..][1..] == [c] && t[1..][1..][1..] == [];
    assert ByteLsb([]) == [];
    assert ByteLsb([c]) == Lsb(c, 8) + [];
    assert ByteLsb([b, c]) == Lsb(b, 8) + ByteLsb([c]);
  }

  // ------------------------------------------------------------------ one header

  /** The header of 257 and 1 codes, five groups: the repeat code 18 and the length 8 have one bit
      each.  138 and 118 times 0, then twice 8. */
  function TinyHeader(): seq<bool> { Lsb(0, 5) + (Lsb(0, 5) + (Lsb(1, 4) + (TinyGroups() + TinyRuns()))) }

  function TinyGroups(): seq<bool> { Lsb(0, 3) + (Lsb(0, 3) + (Lsb(1, 3) + (Lsb(0, 3) + Lsb(1, 3)))) }

  function TinyRuns(): seq<bool> { [true] + (Lsb(127, 7) + ([true] + (Lsb(107, 7) + ([false] + [false])))) }

  /** The lengths the groups give. */
  function TinyLengths(): (b: seq<nat>)
    ensures |b| == 19 && forall x :: 0 <= x < 19 ==> b[x] == if x == 8 || x == 18 then 1 else 0
  {
    Repeat(8, 0) + [1] + Repeat(9, 0) + [1]
  }

  lemma {:induction false} OneOf(v: nat, k: nat)
    ensures Count([v], k) == if v == k then 1 else 0
  {
    assert [v][..0] == [];
  }

  lemma {:induction false} TinyCodes()
    ensures Spare(TinyLengths(), 1) == 0 && MaxLen(TinyLengths()) == 1
    ensures Code(TinyLengths(), 8) == [false] && Code(TinyLengths(), 18) == [true]
  {
    hide Count, MaxLen;
    var b, x, y := TinyLengths(), Repeat(8, 0) + [1], Repeat(9, 0) + [1];
    assert b == x + y && b[..8] == Repeat(8, 0) && b[..18] == x + Repeat(9, 0);
    CountSplit(x, y, 1);
    CountSplit(Repeat(8, 0), [1], 1);
    CountSplit(Repeat(9, 0), [1], 1);
    CountSplit(x, Repeat(9, 0), 1);
    CountRepeat(8, 0, 1);
    CountRepeat(9, 0, 1);
    OneOf(1, 1);
    MaxLenIs(b, 1);
    assert Spare(b, 0) == 1;
    OneBit();
  }

  lemma {:induction false} OneBit()
    ensures BitsOf(0, 1) == [false] && BitsOf(1, 1) == [true]
  {
  }

  /** A number in front of a stream. */
  lemma {:induction false} InFront(x: nat, n: nat, rest: seq<bool>)
    requires x < Pow2(n)
    ensures Has(Lsb(x, n) + rest, n) && Number(Lsb(x, n) + rest, n) == x && (Lsb(x, n) + rest)[n..] == rest
  {
    TreesTokens.NumberOf(x, n, rest);
  }

  lemma {:induction false} TinyGroupsRead(rest: seq<bool>)
    ensures BitLengths(Repeat(19, 0), 0, 5, TinyGroups() + rest) == Done(TinyLengths(), rest)
  {
    hide Number, Border, Lsb, Has;
    Pow2Values();
    var r5 := rest;
    var r4 := Lsb(1, 3) + r5;
    var r3 := Lsb(0, 3) + r4;
    var r2 := Lsb(1, 3) + r3;
    var r1 := Lsb(0, 3) + r2;
    var r0 := Lsb(0, 3) + r1;
    assert TinyGroups() + rest == r0;
    InFront(0, 3, r1);
    InFront(0, 3, r2);
    InFront(1, 3, r3);
    InFront(0, 3, r4);
    InFront(1, 3, r5);
    FirstGroups();
    var b: seq<nat> := Repeat(19, 0);
    BitLengthsNext(b, 0, 5, r0);
    BitLengthsNext(b[16 := 0], 1, 5, r1);
    BitLengthsNext(b[16 := 0][17 := 0], 2, 5, r2);
    BitLengthsNext(b[16 := 0][17 := 0][18 := 1], 3, 5, r3);
    BitLengthsNext(b[16 := 0][17 := 0][18 := 1][0 := 0], 4, 5, r4);
    BitLengthsEnd(b[16 := 0][17 := 0][18 := 1][0 := 0][8 := 1], 5, r5);
    assert b[16 := 0][17 := 0][18 := 1][0 := 0][8 := 1] == TinyLengths();
  }

  lemma {:induction false} FirstGroups()
    ensures Border()[0] == 16 && Border()[1] == 17 && Border()[2] == 18 && Border()[3] == 0 && Border()[4] == 8
  {
  }

  /** One code of the lengths read. */
  lemma {:induction false} TinySymbol(i: nat, rest: seq<bool>)
    requires i == 8 || i == 18
    ensures Lookup(TinyLengths(), [i == 18] + rest) == Sym(i) && ([i == 18] + rest)[1..] == rest
  {
    hide Code, MaxLen;
    TinyCodes();
    LookupIs(TinyLengths(), i, [i == 18] + rest);
  }

  lemma {:induction false} TinyRunsRead()
    ensures Lengths(TinyLengths(), 258, [], 0, TinyRuns()) == Done(Repeat(256, 0) + [8, 8], [])
  {
    hide Number, Lsb, Has, Lookup, TinyLengths;
    var b := TinyLengths();
    Pow2Values();
    var r5: seq<bool> := [false] + [];
    var r4 := [false] + r5;
    var r3 := Lsb(107, 7) + r4;
    var r2 := [true] + r3;
    var r1 := Lsb(127, 7) + r2;
    var r0 := [true] + r1;
    assert TinyRuns() == r0;
    TinyFacts();
    TinySymbol(18, r1);
    InFront(127, 7, r2);
    var a1: seq<nat> := Repeat(138, 0);
    assert [] + Repeat(11 + 127, 0) == a1;
    assert Lengths(b, 258, [], 0, r0) == Repeated(b, 258, [], 0, 11, 7, r1);
    assert Repeated(b, 258, [], 0, 11, 7, r1) == Lengths(b, 258, a1, 0, r2);
    TinySymbol(18, r3);
    InFront(107, 7, r4);
    var a2: seq<nat> := Repeat(256, 0);
    assert a1 + Repeat(11 + 107, 0) == a2;
    assert Lengths(b, 258, a1, 0, r2) == Repeated(b, 258, a1, 0, 11, 7, r3);
    assert Repeated(b, 258, a1, 0, 11, 7, r3) == Lengths(b, 258, a2, 0, r4);
    TinySymbol(8, r5);
    TinySymbol(8, []);
    assert Lengths(b, 258, a2, 0, r4) == Lengths(b, 258, a2 + [8], 8, r5);
    assert Lengths(b, 258, a2 + [8], 8, r5) == Lengths(b, 258, a2 + [8] + [8], 8, []);
    assert a2 + [8] + [8] == a2 + [8, 8];
  }

  lemma {:induction false} TinyFacts()
    ensures |TinyLengths()| == 19 && TinyLengths()[8] == 1 && TinyLengths()[18] == 1
    ensures forall t: seq<bool>, n: nat :: Has(t, n) <==> n <= |t|
  {
  }

  /** It reads as 256 times 0 and 8, and one distance of 8. */
  lemma {:induction false} TinyHeaderRead()
    ensures DynamicHeader(TinyHeader()) == Done(Header(257, Repeat(256, 0) + [8, 8]), [])
  {
    hide Number, Lsb, Has, BitLengths, Lengths, TinyGroups, TinyRuns, MaxLen, Spare, TinyLengths;
    Pow2Values();
    TinyFacts();
    var t3 := TinyGroups() + TinyRuns();
    var t2 := Lsb(1, 4) + t3;
    var t1 := Lsb(0, 5) + t2;
    var t0 := Lsb(0, 5) + t1;
    InFront(0, 5, t1);
    InFront(0, 5, t2);
    InFront(1, 4, t3);
    assert t0[10..] == t0[5..][5..] && t0[14..] == t0[5..][5..][4..];
    TinyGroupsRead(TinyRuns());
    TinyCodes();
    TinyRunsRead();
  }
}
