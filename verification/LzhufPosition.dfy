/** Match positions in archive/lharc/lzhuf.c: the upper six bits go through a fixed prefix
    code held in tables, the lower six as they are. */
module LzhufPosition {
  import opened BitString
  import opened LzhufBits

  // The tables of the source, in its rows of eight.
  const P_LEN: seq<seq<nat>> := [
    [0x03, 0x04, 0x04, 0x04, 0x05, 0x05, 0x05, 0x05],
    [0x05, 0x05, 0x05, 0x05, 0x06, 0x06, 0x06, 0x06],
    [0x06, 0x06, 0x06, 0x06, 0x06, 0x06, 0x06, 0x06],
    [0x07, 0x07, 0x07, 0x07, 0x07, 0x07, 0x07, 0x07],
    [0x07, 0x07, 0x07, 0x07, 0x07, 0x07, 0x07, 0x07],
    [0x07, 0x07, 0x07, 0x07, 0x07, 0x07, 0x07, 0x07],
    [0x08, 0x08, 0x08, 0x08, 0x08, 0x08, 0x08, 0x08],
    [0x08, 0x08, 0x08, 0x08, 0x08, 0x08, 0x08, 0x08]]

  const P_CODE: seq<seq<nat>> := [
    [0x00, 0x20, 0x30, 0x40, 0x50, 0x58, 0x60, 0x68],
    [0x70, 0x78, 0x80, 0x88, 0x90, 0x94, 0x98, 0x9C],
    [0xA0, 0xA4, 0xA8, 0xAC, 0xB0, 0xB4, 0xB8, 0xBC],
    [0xC0, 0xC2, 0xC4, 0xC6, 0xC8, 0xCA, 0xCC, 0xCE],
    [0xD0, 0xD2, 0xD4, 0xD6, 0xD8, 0xDA, 0xDC, 0xDE],
    [0xE0, 0xE2, 0xE4, 0xE6, 0xE8, 0xEA, 0xEC, 0xEE],
    [0xF0, 0xF1, 0xF2, 0xF3, 0xF4, 0xF5, 0xF6, 0xF7],
    [0xF8, 0xF9, 0xFA, 0xFB, 0xFC, 0xFD, 0xFE, 0xFF]]

  const D_CODE: seq<seq<nat>> := [
    [0x00, 0x00, 0x00, 0x00, 0x00, 0x00, 0x00, 0x00],
    [0x00, 0x00, 0x00, 0x00, 0x00, 0x00, 0x00, 0x00],
    [0x00, 0x00, 0x00, 0x00, 0x00, 0x00, 0x00, 0x00],
    [0x00, 0x00, 0x00, 0x00, 0x00, 0x00, 0x00, 0x00],
    [0x01, 0x01, 0x01, 0x01, 0x01, 0x01, 0x01, 0x01],
    [0x01, 0x01, 0x01, 0x01, 0x01, 0x01, 0x01, 0x01],
    [0x02, 0x02, 0x02, 0x02, 0x02, 0x02, 0x02, 0x02],
    [0x02, 0x02, 0x02, 0x02, 0x02, 0x02, 0x02, 0x02],
    [0x03, 0x03, 0x03, 0x03, 0x03, 0x03, 0x03, 0x03],
    [0x03, 0x03, 0x03, 0x03, 0x03, 0x03, 0x03, 0x03],
    [0x04, 0x04, 0x04, 0x04, 0x04, 0x04, 0x04, 0x04],
    [0x05, 0x05, 0x05, 0x05, 0x05, 0x05, 0x05, 0x05],
    [0x06, 0x06, 0x06, 0x06, 0x06, 0x06, 0x06, 0x06],
    [0x07, 0x07, 0x07, 0x07, 0x07, 0x07, 0x07, 0x07],
    [0x08, 0x08, 0x08, 0x08, 0x08, 0x08, 0x08, 0x08],
    [0x09, 0x09, 0x09, 0x09, 0x09, 0x09, 0x09, 0x09],
    [0x0A, 0x0A, 0x0A, 0x0A, 0x0A, 0x0A, 0x0A, 0x0A],
    [0x0B, 0x0B, 0x0B, 0x0B, 0x0B, 0x0B, 0x0B, 0x0B],
    [0x0C, 0x0C, 0x0C, 0x0C, 0x0D, 0x0D, 0x0D, 0x0D],
    [0x0E, 0x0E, 0x0E, 0x0E, 0x0F, 0x0F, 0x0F, 0x0F],
    [0x10, 0x10, 0x10, 0x10, 0x11, 0x11, 0x11, 0x11],
    [0x12, 0x12, 0x12, 0x12, 0x13, 0x13, 0x13, 0x13],
    [0x14, 0x14, 0x14, 0x14, 0x15, 0x15, 0x15, 0x15],
    [0x16, 0x16, 0x16, 0x16, 0x17, 0x17, 0x17, 0x17],
    [0x18, 0x18, 0x19, 0x19, 0x1A, 0x1A, 0x1B, 0x1B],
    [0x1C, 0x1C, 0x1D, 0x1D, 0x1E, 0x1E, 0x1F, 0x1F],
    [0x20, 0x20, 0x21, 0x21, 0x22, 0x22, 0x23, 0x23],
    [0x24, 0x24, 0x25, 0x25, 0x26, 0x26, 0x27, 0x27],
    [0x28, 0x28, 0x29, 0x29, 0x2A, 0x2A, 0x2B, 0x2B],
    [0x2C, 0x2C, 0x2D, 0x2D, 0x2E, 0x2E, 0x2F, 0x2F],
    [0x30, 0x31, 0x32, 0x33, 0x34, 0x35, 0x36, 0x37],
    [0x38, 0x39, 0x3A, 0x3B, 0x3C, 0x3D, 0x3E, 0x3F]]

  const D_LEN: seq<seq<nat>> := [
    [0x03, 0x03, 0x03, 0x03, 0x03, 0x03, 0x03, 0x03],
    [0x03, 0x03, 0x03, 0x03, 0x03, 0x03, 0x03, 0x03],
    [0x03, 0x03, 0x03, 0x03, 0x03, 0x03, 0x03, 0x03],
    [0x03, 0x03, 0x03, 0x03, 0x03, 0x03, 0x03, 0x03],
    [0x04, 0x04, 0x04, 0x04, 0x04, 0x04, 0x04, 0x04],
    [0x04, 0x04, 0x04, 0x04, 0x04, 0x04, 0x04, 0x04],
    [0x04, 0x04, 0x04, 0x04, 0x04, 0x04, 0x04, 0x04],
    [0x04, 0x04, 0x04, 0x04, 0x04, 0x04, 0x04, 0x04],
    [0x04, 0x04, 0x04, 0x04, 0x04, 0x04, 0x04, 0x04],
    [0x04, 0x04, 0x04, 0x04, 0x04, 0x04, 0x04, 0x04],
    [0x05, 0x05, 0x05, 0x05, 0x05, 0x05, 0x05, 0x05],
    [0x05, 0x05, 0x05, 0x05, 0x05, 0x05, 0x05, 0x05],
    [0x05, 0x05, 0x05, 0x05, 0x05, 0x05, 0x05, 0x05],
    [0x05, 0x05, 0x05, 0x05, 0x05, 0x05, 0x05, 0x05],
    [0x05, 0x05, 0x05, 0x05, 0x05, 0x05, 0x05, 0x05],
    [0x05, 0x05, 0x05, 0x05, 0x05, 0x05, 0x05, 0x05],
    [0x05, 0x05, 0x05, 0x05, 0x05, 0x05, 0x05, 0x05],
    [0x05, 0x05, 0x05, 0x05, 0x05, 0x05, 0x05, 0x05],
    [0x06, 0x06, 0x06, 0x06, 0x06, 0x06, 0x06, 0x06],
    [0x06, 0x06, 0x06, 0x06, 0x06, 0x06, 0x06, 0x06],
    [0x06, 0x06, 0x06, 0x06, 0x06, 0x06, 0x06, 0x06],
    [0x06, 0x06, 0x06, 0x06, 0x06, 0x06, 0x06, 0x06],
    [0x06, 0x06, 0x06, 0x06, 0x06, 0x06, 0x06, 0x06],
    [0x06, 0x06, 0x06, 0x06, 0x06, 0x06, 0x06, 0x06],
    [0x07, 0x07, 0x07, 0x07, 0x07, 0x07, 0x07, 0x07],
    [0x07, 0x07, 0x07, 0x07, 0x07, 0x07, 0x07, 0x07],
    [0x07, 0x07, 0x07, 0x07, 0x07, 0x07, 0x07, 0x07],
    [0x07, 0x07, 0x07, 0x07, 0x07, 0x07, 0x07, 0x07],
    [0x07, 0x07, 0x07, 0x07, 0x07, 0x07, 0x07, 0x07],
    [0x07, 0x07, 0x07, 0x07, 0x07, 0x07, 0x07, 0x07],
    [0x08, 0x08, 0x08, 0x08, 0x08, 0x08, 0x08, 0x08],
    [0x08, 0x08, 0x08, 0x08, 0x08, 0x08, 0x08, 0x08]]

  function PLen(u: nat): nat requires u < 64 { P_LEN[u / 8][u % 8] }
  function PCode(u: nat): nat requires u < 64 { P_CODE[u / 8][u % 8] }
  function DCode(i: nat): nat requires i < 256 { D_CODE[i / 8][i % 8] }
  function DLen(i: nat): nat requires i < 256 { D_LEN[i / 8][i % 8] }

  // ------------------------------------------------- what the tables amount to

  /** Length of the code of u, first byte of its range, and the u a byte belongs to. */
  function LenOf(u: nat): nat {
    if u < 1 then 3 else if u < 4 then 4 else if u < 12 then 5 else if u < 24 then 6 else if u < 48 then 7 else 8
  }

  function FirstOf(u: nat): nat {
    if u < 1 then 0
    else if u < 4 then 32 + 16 * (u - 1)
    else if u < 12 then 80 + 8 * (u - 4)
    else if u < 24 then 144 + 4 * (u - 12)
    else if u < 48 then 192 + 2 * (u - 24)
    else 240 + (u - 48)
  }

  function UpperOf(i: nat): nat {
    if i < 32 then 0
    else if i < 80 then 1 + (i - 32) / 16
    else if i < 144 then 4 + (i - 80) / 8
    else if i < 192 then 12 + (i - 144) / 4
    else if i < 240 then 24 + (i - 192) / 2
    else 48 + (i - 240)
  }

  lemma {:induction false} EncodeTables(u: nat)
    requires u < 64
    ensures PLen(u) == LenOf(u) && PCode(u) == FirstOf(u)
  {
  }

  lemma {:induction false} CodeRows0(q: nat, k: nat)
    requires 0 <= q < 8 && k < 8
    ensures D_CODE[q][k] == UpperOf(8 * q + k)
  {
  }

  lemma {:induction false} LenRows0(q: nat, k: nat)
    requires 0 <= q < 8 && k < 8
    ensures D_LEN[q][k] == LenOf(UpperOf(8 * q + k))
  {
  }

  lemma {:induction false} CodeRows1(q: nat, k: nat)
    requires 8 <= q < 16 && k < 8
    ensures D_CODE[q][k] == UpperOf(8 * q + k)
  {
  }

  lemma {:induction false} LenRows1(q: nat, k: nat)
    requires 8 <= q < 16 && k < 8
    ensures D_LEN[q][k] == LenOf(UpperOf(8 * q + k))
  {
  }

  lemma {:induction false} CodeRows2(q: nat, k: nat)
    requires 16 <= q < 24 && k < 8
    ensures D_CODE[q][k] == UpperOf(8 * q + k)
  {
  }

  lemma {:induction false} LenRows2(q: nat, k: nat)
    requires 16 <= q < 24 && k < 8
    ensures D_LEN[q][k] == LenOf(UpperOf(8 * q + k))
  {
  }

  lemma {:induction false} CodeRows3(q: nat, k: nat)
    requires 24 <= q < 32 && k < 8
    ensures D_CODE[q][k] == UpperOf(8 * q + k)
  {
  }

  lemma {:induction false} LenRows3(q: nat, k: nat)
    requires 24 <= q < 32 && k < 8
    ensures D_LEN[q][k] == LenOf(UpperOf(8 * q + k))
  {
  }

  lemma {:induction false} DecodeTables(i: nat)
    requires i < 256
    ensures DCode(i) == UpperOf(i) < 64 && DLen(i) == LenOf(UpperOf(i))
  {
    var q, k := i / 8, i % 8;
    if q < 8 {
      CodeRows0(q, k);
      LenRows0(q, k);
    } else if q < 16 {
      CodeRows1(q, k);
      LenRows1(q, k);
    } else if q < 24 {
      CodeRows2(q, k);
      LenRows2(q, k);
    } else {
      CodeRows3(q, k);
      LenRows3(q, k);
    }
  }

  /** The code of u is the part its byte range has in common. */
  lemma {:induction false} CodeAligned(u: nat)
    requires u < 64
    ensures 3 <= PLen(u) <= 8 && PCode(u) < 256
    ensures PCode(u) == Shl(Shr(PCode(u), 8 - PLen(u)), 8 - PLen(u))
  {
    EncodeTables(u);
    var l := LenOf(u);
    if l == 3 {
      assert Shr(FirstOf(u), 5) == 0 && Shl(0, 5) == 0;
    } else if l == 4 {
      AlignedBy(FirstOf(u), 4, 2 + (u - 1));
    } else if l == 5 {
      AlignedBy(FirstOf(u), 3, 10 + (u - 4));
    } else if l == 6 {
      AlignedBy(FirstOf(u), 2, 36 + (u - 12));
    } else if l == 7 {
      AlignedBy(FirstOf(u), 1, 96 + (u - 24));
    }
  }

  lemma {:induction false} AlignedBy(x: nat, n: nat, q: nat)
    requires n <= 4
    requires x == q * (if n == 0 then 1 else if n == 1 then 2 else if n == 2 then 4 else if n == 3 then 8 else 16)
    ensures x == Shl(Shr(x, n), n)
  {
    assert Shl(q, 1) == 2 * q && Shl(q, 2) == 4 * q;
    assert Shl(q, 3) == 8 * q && Shl(q, 4) == 16 * q;
    ShrOfShl(q, n, n);
  }

  /** Every byte starts with the code of the upper bits it decodes to. */
  lemma {:induction false} ByteStartsCode(i: nat)
    requires i < 256
    ensures DCode(i) < 64 && 3 <= DLen(i) <= 8 && PLen(DCode(i)) == DLen(i)
    ensures Shr(i, 8 - DLen(i)) == Shr(PCode(DCode(i)), 8 - DLen(i))
  {
    DecodeTables(i);
    var u := UpperOf(i);
    EncodeTables(u);
    CodeAligned(u);
    var n := 8 - LenOf(u);
    var d := i - FirstOf(u);
    RangeOf(i);
    ShlSplit(Shr(FirstOf(u), n), d, n);
  }

  lemma {:induction false} RangeOf(i: nat)
    requires i < 256
    ensures FirstOf(UpperOf(i)) <= i && i - FirstOf(UpperOf(i)) < Pow2(8 - LenOf(UpperOf(i)))
  {
    Pow2Values();
    assert Pow2(0) == 1;
  }

  /** The bits of match position c. */
  function PosCode(c: nat): (r: seq<bool>)
    requires c < 4096
    ensures |r| >= 9
  {
    ShrBound64(c);
    var u := Shr(c, 6);
    CodeAligned(u);
    BitsOf(Shr(PCode(u), 8 - PLen(u)), PLen(u)) + BitsOf(Low(c, 6), 6)
  }

  lemma {:induction false} ShrBound64(c: nat)
    requires c < 4096
    ensures Shr(c, 6) < 64
  {
    Pow2Values();
    assert Pow2(6 + 6) == 4096;
    ShrBound(c, 6, 6);
  }

  method EncodePosition(c: nat, w: BitOut)
    requires c < 4096 && w.Valid()
    modifies w
    ensures w.Valid() && w.sent == old(w.sent) + PosCode(c)
  {
    hide BitsOf, Holds, Word, PLen, PCode, Shr, Low, Shl, Pow2;
    ShrBound64(c);
    var i := Shr(c, 6);
    CodeAligned(i);
    UpperWord(i);
    w.Putcode(PLen(i), Shl16(PCode(i), 8), Shr(PCode(i), 8 - PLen(i)));
    LowerWord(c);
    w.Putcode(6, Shl16(Low(c, 6), 10), Low(c, 6));
    assert w.sent == (old(w.sent) + BitsOf(Shr(PCode(i), 8 - PLen(i)), PLen(i))) + BitsOf(Low(c, 6), 6);
  }

  lemma {:induction false} UpperWord(u: nat)
    requires u < 64
    ensures 3 <= PLen(u) <= 8
    ensures var v := Shr(PCode(u), 8 - PLen(u)); v < Pow2(PLen(u)) && Shl16(PCode(u), 8) == Word(v, PLen(u))
  {
    CodeAligned(u);
    var v, n := Shr(PCode(u), 8 - PLen(u)), 8 - PLen(u);
    Pow2Values();
    ShrBound(PCode(u), n, PLen(u));
    ShlShl(v, n, 8);
    ShlBound(PCode(u), 8, 8);
    LowOfSmall(Shl(PCode(u), 8), 16);
  }

  lemma {:induction false} LowerWord(c: nat)
    ensures Shl16(Low(c, 6), 10) == Word(Low(c, 6), 6)
  {
    ShlBound(Low(c, 6), 10, 6);
    LowOfSmall(Shl(Low(c, 6), 10), 16);
  }

  /** The low j + m bits of (i << j) | r. */
  lemma {:induction false} LowOfJoin(i: nat, r: nat, j: nat, m: nat)
    requires r < Pow2(j)
    ensures Low(Shl(i, j) + r, j + m) == Shl(Low(i, m), j) + r
  {
    if j > 0 {
      LowOfJoin(i, r / 2, j - 1, m);
      assert (Shl(i, j) + r) / 2 == Shl(i, j - 1) + r / 2;
    }
  }

  /** What DecodePosition computes from its byte i and the following bits r. */
  function PosOf(i: nat, r: nat): nat
    requires i < 256
  {
    ByteStartsCode(i);
    Or(Shl16(DCode(i), 6), Low(Or(Shl16(i, DLen(i) - 2), r), 6))
  }

  lemma {:induction false} LowerPart(i: nat, r: nat, j: nat)
    requires i < 256 && 1 <= j <= 6 && r < Pow2(j)
    ensures Low(Or(Shl16(i, j), r), 6) == Shl(Low(i, 6 - j), j) + r
  {
    hide Or, Shr, Low, Shl;
    Pow2Values();
    ShlBound(i, j, 8);
    Pow2Monotone(j + 8, 16);
    LowOfSmall(Shl(i, j), 16);
    OrDisjoint(i, r, j);
    LowOfJoin(i, r, j, 6 - j);
  }

  lemma {:induction false} Times64(u: nat)
    ensures Shl(u, 6) == 64 * u
  {
    assert Shl(u, 1) == 2 * u;
    assert Shl(u, 2) == 4 * u;
    assert Shl(u, 3) == 8 * u;
    assert Shl(u, 4) == 16 * u;
    assert Shl(u, 5) == 32 * u;
    assert Shl(u, 6) == 64 * u;
  }

  lemma {:induction false} UpperPart(u: nat, low: nat)
    requires u < 64 && low < Pow2(6)
    ensures Or(Shl16(u, 6), low) == 64 * u + low && low < 64
    ensures Shr(64 * u + low, 6) == u && Low(64 * u + low, 6) == low
  {
    Pow2Values();
    Times64(u);
    hide Or, Shr, Low, Shl;
    ShlBound(u, 6, 6);
    Pow2Monotone(12, 16);
    LowOfSmall(Shl(u, 6), 16);
    OrDisjoint(u, low, 6);
    ShlSplit(u, low, 6);
  }

  lemma {:induction false} RegroupBits(i: nat, r: nat, l: nat)
    requires 3 <= l <= 8 && r < Pow2(l - 2)
    ensures BitsOf(i, 8) + BitsOf(r, l - 2)
         == BitsOf(Shr(i, 8 - l), l) + BitsOf(Shl(Low(i, 8 - l), l - 2) + r, 6)
  {
    hide BitsOf, Shr, Low, Shl;
    BitsSplit(i, l, 8 - l);
    BitsConcat(Low(i, 8 - l), 8 - l, r, l - 2);
    var a, b, d := BitsOf(Shr(i, 8 - l), l), BitsOf(Low(i, 8 - l), 8 - l), BitsOf(r, l - 2);
    assert (a + b) + d == a + (b + d);
  }

  /** The bits read are the code of the position computed from them. */
  lemma {:induction false} PosOfReads(i: nat, r: nat)
    requires i < 256 && 3 <= DLen(i) <= 8 && r < Pow2(DLen(i) - 2)
    ensures PosOf(i, r) < 4096 && PosCode(PosOf(i, r)) == BitsOf(i, 8) + BitsOf(r, DLen(i) - 2)
  {
    hide Shl, Shr, Low, Or, BitsOf, Pow2, DCode, DLen, PCode, PLen;
    ByteStartsCode(i);
    var l, u := DLen(i), DCode(i);
    JoinBound(Low(i, 8 - l), 8 - l, r, l - 2);
    LowerPart(i, r, l - 2);
    UpperPart(u, Shl(Low(i, 8 - l), l - 2) + r);
    RegroupBits(i, r, l);
  }

  method DecodePosition(r: BitIn) returns (c: nat)
    requires r.Valid()
    modifies r
    ensures r.Valid() && c < 4096 && Reads(old(r.rest), PosCode(c), r.rest)
  {
    hide BitsOf, Waits, Reads, At, PosCode, Pow2;
    ghost var r0 := r.rest;
    var i := r.GetByte();
    ghost var r1 := r.rest;
    ByteStartsCode(i);
    var j := DLen(i) - 2;
    var n := r.GetNBits(j);
    ReadsThen(r0, BitsOf(i, 8), r1, BitsOf(n, j), r.rest);
    PosOfReads(i, n);
    c := Or(Shl16(DCode(i), 6), Low(Or(Shl16(i, j), n), 6));
  }

  /** No code of a position is a prefix of another's: a stream holds at most one. */
  lemma {:induction false} PosCodeUnique(c: nat, d: nat, s: seq<bool>)
    requires c < 4096 && d < 4096
    requires forall k :: 0 <= k < |PosCode(c)| ==> PosCode(c)[k] == At(s, k)
    requires forall k :: 0 <= k < |PosCode(d)| ==> PosCode(d)[k] == At(s, k)
    ensures c == d
  {
    assert PosCode(c)[..8] == PosCode(d)[..8];
    FirstByteOf(c);
    FirstByteOf(d);
    var u, l := Shr(c, 6), PLen(Shr(c, 6));
    assert Shr(d, 6) == u;
    assert PosCode(c) == PosCode(d);
    CodeAligned(u);
    assert BitsOf(Low(c, 6), 6) == PosCode(c)[l..] == BitsOf(Low(d, 6), 6);
    ValueOfBits(Low(c, 6), 6);
    ValueOfBits(Low(d, 6), 6);
    LowOfSmall(Low(c, 6), 6);
    LowOfSmall(Low(d, 6), 6);
    HighLow(c, 6);
    HighLow(d, 6);
  }

  /** The first eight bits of a position's code decode to its upper part. */
  lemma {:induction false} FirstByteOf(c: nat)
    requires c < 4096
    ensures Value(PosCode(c)[..8]) < 256 && DCode(Value(PosCode(c)[..8])) == Shr(c, 6) < 64
  {
    ShrBound64(c);
    var u := Shr(c, 6);
    CodeAligned(u);
    var l := PLen(u);
    var v := Shr(PCode(u), 8 - l);
    var x := Shr(Low(c, 6), l - 2);
    Pow2Values();
    BitsSplit(Low(c, 6), 8 - l, l - 2);
    ShrBound(Low(c, 6), l - 2, 8 - l);
    BitsConcat(v, l, x, 8 - l);
    assert PosCode(c)[..8] == BitsOf(v, l) + BitsOf(x, 8 - l);
    var i := Shl(v, 8 - l) + x;
    ValueOfBits(i, 8);
    ShrBound(PCode(u), 8 - l, l);
    JoinBound(v, l, x, 8 - l);
    LowOfSmall(i, 8);
    EncodeTables(u);
    DecodeTables(i);
    InRange(u, i);
  }

  lemma {:induction false} InRange(u: nat, i: nat)
    requires u < 64 && i < 256 && FirstOf(u) <= i && i - FirstOf(u) < Pow2(8 - LenOf(u))
    ensures UpperOf(i) == u
  {
    Pow2Values();
    assert Pow2(0) == 1;
  }
}
