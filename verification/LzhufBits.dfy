/** The bit buffers of archive/lharc/lzhuf.c: 16-bit words filled from the high end. */
module LzhufBits {
  import opened BitString

  // -------------------------------------------------------------- bit streams

  /** Bit i of a stream that goes on with zeros: reading past the end of file gives 0. */
  ghost predicate At(s: seq<bool>, i: nat) { i < |s| && s[i] }

  /** Reading `code` takes the stream s to the stream r. */
  ghost predicate Reads(s: seq<bool>, code: seq<bool>, r: seq<bool>) {
    && (forall i :: 0 <= i < |code| ==> code[i] == At(s, i))
    && (forall i :: 0 <= i ==> At(r, i) == At(s, |code| + i))
  }

  lemma {:induction false} ReadsThen(s: seq<bool>, a: seq<bool>, m: seq<bool>, b: seq<bool>, r: seq<bool>)
    requires Reads(s, a, m) && Reads(m, b, r)
    ensures Reads(s, a + b, r)
  {
    forall i | 0 <= i ensures At(r, i) == At(s, |a + b| + i) {
      assert At(r, i) == At(m, |b| + i);
      assert At(m, |b| + i) == At(s, |a| + (|b| + i));
    }
    forall i | 0 <= i < |a + b| ensures (a + b)[i] == At(s, i) {
      if i >= |a| { assert At(m, i - |a|) == At(s, |a| + (i - |a|)); }
    }
  }

  lemma {:induction false} ReadsNothing(s: seq<bool>)
    ensures Reads(s, [], s)
  {
  }

  lemma {:induction false} ReadsPrefix(code: seq<bool>, rest: seq<bool>)
    ensures Reads(code + rest, code, rest)
  {
  }

  // ------------------------------------------------------------------ writing

  /** A 16-bit word holding `len` bits v at its high end. */
  function Word(v: nat, len: nat): nat
    requires len <= 16
  {
    Shl(v, 16 - len)
  }

  /** The union that Putcode forms is the high part of the joined code (v << l) + c. */
  lemma {:induction false} JoinFits(v: nat, len: nat, c: nat, l: nat)
    requires len + l <= 16 && c < Pow2(l)
    ensures Or(Word(v, len), Shr(Word(c, l), len)) == Word(Shl(v, l) + c, len + l)
  {
    var n := len + l;
    ShrOfShl(c, 16 - l, len);
    ShlBound(c, 16 - n, l);
    OrDisjoint(v, Shl(c, 16 - n), 16 - len);
    ShlShl(v, l, 16 - n);
    ShlAdd(Shl(v, l), c, 16 - n);
  }

  /** The parts above and below bit m of a joined code. */
  lemma {:induction false} JoinParts(v: nat, l: nat, c: nat, m: nat)
    requires m <= l
    ensures Shr(Shl(v, l) + c, m) == Shl(v, l - m) + Shr(c, m) && Low(Shl(v, l) + c, m) == Low(c, m)
  {
    HighLow(c, m);
    ShlShl(v, l - m, m);
    ShlAdd(Shl(v, l - m), Shr(c, m), m);
    ShlSplit(Shl(v, l - m) + Shr(c, m), Low(c, m), m);
  }

  lemma {:induction false} JoinSpills(v: nat, len: nat, c: nat, l: nat, m: nat)
    requires len <= 16 && l <= 16 && len + l == 16 + m && c < Pow2(l)
    ensures Or(Word(v, len), Shr(Word(c, l), len)) == Shl(v, l - m) + Shr(c, m)
  {
    ShrPastShl(c, 16 - l, len);
    ShrBound(c, m, l - m);
    OrDisjoint(v, Shr(c, m), 16 - len);
  }

  lemma {:induction false} JoinBound(v: nat, len: nat, c: nat, l: nat)
    requires v < Pow2(len) && c < Pow2(l)
    ensures Shl(v, l) + c < Pow2(len + l)
  {
    JoinBoundStep(v, len, l);
  }

  lemma {:induction false} JoinBoundStep(v: nat, len: nat, l: nat)
    requires v < Pow2(len)
    ensures Shl(v, l) + Pow2(l) <= Pow2(len + l)
  {
    if l > 0 { JoinBoundStep(v, len, l - 1); }
  }

  /** The bits `sent` are those of the bytes written and the len bits v waiting in buf. */
  ghost predicate Holds(out: seq<byte>, buf: nat, len: nat, v: nat, sent: seq<bool>) {
    && len < 8 && v < Pow2(len)
    && buf == Word(v, len)
    && sent == ByteBits(out) + BitsOf(v, len)
  }

  lemma {:induction false} JoinBits(out: seq<byte>, len: nat, p: nat, l: nat, v: nat)
    requires v < Pow2(l)
    ensures (ByteBits(out) + BitsOf(p, len)) + BitsOf(v, l) == ByteBits(out) + BitsOf(Shl(p, l) + v, len + l)
  {
    BitsConcat(p, len, v, l);
    ThreeParts(ByteBits(out), BitsOf(p, len), BitsOf(v, l), BitsOf(Shl(p, l) + v, len + l));
  }

  lemma {:induction false} LowIsByte(b: nat)
    ensures Low(b, 8) < 256
  {
    Pow2Values();
  }

  /** No byte is full yet. */
  lemma {:induction false} PutNone(out: seq<byte>, buf: nat, len: nat, p: nat, sent: seq<bool>, l: nat, v: nat)
    requires Holds(out, buf, len, p, sent) && len + l < 8 && v < Pow2(l)
    ensures Holds(out, Or(buf, Shr(Word(v, l), len)), len + l, Shl(p, l) + v, sent + BitsOf(v, l))
  {
    JoinBound(p, len, v, l);
    JoinFits(p, len, v, l);
    JoinBits(out, len, p, l, v);
  }

  /** One byte is written. */
  lemma {:induction false} PutOne(out: seq<byte>, w: nat, n: nat, b: nat)
    requires 8 <= n < 16 && w < Pow2(n) && b == Word(w, n)
    ensures Shr(b, 8) < 256
    ensures Holds(out + [Shr(b, 8)], Shl16(b, 8), n - 8, Low(w, n - 8), ByteBits(out) + BitsOf(w, n))
  {
    FirstByte(w, n);
    OneByte(w, n, out, Shr(b, 8));
  }

  /** Two bytes are written. */
  lemma {:induction false} PutTwo(out: seq<byte>, w: nat, n: nat, b: nat, buf: nat)
    requires 16 <= n < 24 && w < Pow2(n) && b == Shr(w, n - 16)
    requires buf == Word(Low(w, n - 16), n - 16)
    ensures Shr(b, 8) < 256 && Low(b, 8) < 256
    ensures Holds(out + [Shr(b, 8)] + [Low(b, 8)], buf, n - 16, Low(w, n - 16), ByteBits(out) + BitsOf(w, n))
  {
    FirstByte(w, n);
    LowIsByte(b);
    TwoBytes(w, n, out, b, Shr(b, 8), Low(b, 8));
  }

  lemma {:induction false} PutOneHolds(out: seq<byte>, buf: nat, len: nat, p: nat, sent: seq<bool>, l: nat, v: nat)
    requires Holds(out, buf, len, p, sent) && 8 <= len + l < 16 && v < Pow2(l)
    ensures var b := Or(buf, Shr(Word(v, l), len));
      && Shr(b, 8) < 256
      && Holds(out + [Shr(b, 8)], Shl16(b, 8), len + l - 8, Low(Shl(p, l) + v, len + l - 8), sent + BitsOf(v, l))
  {
    JoinBound(p, len, v, l);
    JoinBits(out, len, p, l, v);
    JoinFits(p, len, v, l);
    PutOne(out, Shl(p, l) + v, len + l, Or(buf, Shr(Word(v, l), len)));
  }

  lemma {:induction false} PutTwoHolds(out: seq<byte>, buf: nat, len: nat, p: nat, sent: seq<bool>, l: nat, v: nat)
    requires Holds(out, buf, len, p, sent) && 16 <= len + l && l <= 16 && v < Pow2(l)
    ensures var b := Or(buf, Shr(Word(v, l), len));
      && Shr(b, 8) < 256 && Low(b, 8) < 256
      && Holds(out + [Shr(b, 8)] + [Low(b, 8)], Shl16(Word(v, l), 16 - len), len + l - 16,
               Low(Shl(p, l) + v, len + l - 16), sent + BitsOf(v, l))
  {
    var m := len + l - 16;
    JoinBound(p, len, v, l);
    JoinBits(out, len, p, l, v);
    JoinSpills(p, len, v, l, m);
    JoinParts(p, l, v, m);
    LastBits(v, l, m);
    PutTwo(out, Shl(p, l) + v, len + l, Or(buf, Shr(Word(v, l), len)), Shl16(Word(v, l), 16 - len));
  }

  lemma {:induction false} NothingPut()
    ensures Holds([], 0, 0, 0, [])
  {
    ShlPow2(16);
  }

  class BitOut {
    var putbuf: nat
    var putlen: nat
    var out: seq<byte>
    ghost var pend: nat        // the putlen bits waiting in the word, as a number
    ghost var sent: seq<bool>  // every bit put so far

    ghost predicate Valid()
      reads this
    {
      Holds(out, putbuf, putlen, pend, sent)
    }

    constructor ()
      ensures Valid() && sent == [] && out == []
    {
      putbuf, putlen, out := 0, 0, [];
      pend, sent := 0, [];
      new;
      NothingPut();
    }

    /** Put the l high bits of the word c, whose other bits are zero; v is what they read. */
    method Putcode(l: nat, c: nat, ghost v: nat)
      requires Valid() && l <= 16 && v < Pow2(l) && c == Word(v, l)
      modifies this
      ensures Valid() && sent == old(sent) + BitsOf(v, l)
    {
      hide Or, Shr, Shl, Low, BitsOf, ByteBits;
      var len, b, o := putlen, putbuf, out;
      ghost var pd, sn := Shl(pend, l) + v, sent + BitsOf(v, l);
      b := Or(b, Shr(c, len));
      len := len + l;
      if len >= 8 {
        len := len - 8;
        if len >= 8 {
          PutTwoHolds(out, putbuf, putlen, pend, sent, l, v);
          o := o + [Shr(b, 8)] + [Low(b, 8)];
          len := len - 8;
          b := Shl16(c, l - len);
        } else {
          PutOneHolds(out, putbuf, putlen, pend, sent, l, v);
          o := o + [Shr(b, 8)];
          b := Shl16(b, 8);
        }
        pd := Low(pd, len);
      } else {
        PutNone(out, putbuf, putlen, pend, sent, l, v);
      }
      assert Holds(o, b, len, pd, sn);
      out, putbuf, putlen := o, b, len;
      pend, sent := pd, sn;
    }

    /** Write the last bits, filled up with zeros to a byte. */
    method EncodeEnd()
      requires Valid()
      modifies this
      ensures sent == old(sent) && sent <= ByteBits(out) && |out| == (|sent| + 7) / 8
      ensures forall i :: |sent| <= i < |ByteBits(out)| ==> !ByteBits(out)[i]
    {
      if putlen != 0 {
        LastByte(pend, putlen);
        ByteBitsSnoc(out, Shr(putbuf, 8));
        assert ByteBits(out) + BitsOf(Shr(putbuf, 8), 8) == sent + BitsOf(0, 8 - putlen);
        out := out + [Shr(putbuf, 8)];
      }
    }
  }

  ghost predicate AllFalse(s: seq<bool>) { forall i :: 0 <= i < |s| ==> !s[i] }

  lemma {:induction false} LastByte(v: nat, len: nat)
    requires len <= 8 && v < Pow2(len)
    ensures Shr(Word(v, len), 8) < 256
    ensures BitsOf(Shr(Word(v, len), 8), 8) == BitsOf(v, len) + BitsOf(0, 8 - len)
    ensures AllFalse(BitsOf(0, 8 - len))
  {
    ShrOfShl(v, 16 - len, 8);
    ShlBound(v, 8 - len, len);
    Pow2Values();
    BitsConcat(v, len, 0, 8 - len);
    ZeroBits(8 - len);
  }

  lemma {:induction false} ZeroBits(n: nat)
    ensures AllFalse(BitsOf(0, n))
  {
    if n > 0 { ZeroBits(n - 1); }
  }

  /** The word formed from a joined code of n bits holds a byte above bit 8. */
  lemma {:induction false} FirstByte(w: nat, n: nat)
    requires 8 <= n < 24 && w < Pow2(n)
    ensures n <= 16 ==> Shr(Shl(w, 16 - n), 8) < 256
    ensures n >= 16 ==> Shr(Shr(w, n - 16), 8) < 256
  {
    Pow2Values();
    if n <= 16 {
      ShlBound(w, 16 - n, n);
      ShrBound(Shl(w, 16 - n), 8, 8);
    }
    if n >= 16 {
      ShrBound(w, n - 16, 16);
      ShrBound(Shr(w, n - 16), 8, 8);
    }
  }

  lemma {:induction false} ThreeParts(a: seq<bool>, b: seq<bool>, c: seq<bool>, d: seq<bool>)
    requires d == b + c
    ensures (a + b) + c == a + d
  {
  }

  lemma {:induction false} OneByte(w: nat, n: nat, out: seq<byte>, b: byte)
    requires 8 <= n < 16 && b == Shr(Word(w, n), 8)
    ensures Shl16(Word(w, n), 8) == Word(Low(w, n - 8), n - 8)
    ensures ByteBits(out + [b]) + BitsOf(Low(w, n - 8), n - 8) == ByteBits(out) + BitsOf(w, n)
  {
    ShlShl(w, 16 - n, 8);
    ShrPastShl(w, 24 - n, 16);
    ShrPastShl(w, 16 - n, 8);
    BitsSplit(w, 8, n - 8);
    ByteBitsSnoc(out, b);
    ThreeParts(ByteBits(out), BitsOf(b, 8), BitsOf(Low(w, n - 8), n - 8), BitsOf(w, n));
  }

  lemma {:induction false} TwoBytes(w: nat, n: nat, out: seq<byte>, x: nat, b: byte, c: byte)
    requires 16 <= n < 24 && x == Shr(w, n - 16) && b == Shr(x, 8) && c == Low(x, 8)
    ensures ByteBits(out + [b] + [c]) + BitsOf(Low(w, n - 16), n - 16) == ByteBits(out) + BitsOf(w, n)
  {
    BitsSplit(w, 16, n - 16);
    BitsSplit(x, 8, 8);
    ByteBitsSnoc(out, b);
    ByteBitsSnoc(out + [b], c);
    ThreeParts(ByteBits(out), BitsOf(b, 8), BitsOf(c, 8), BitsOf(x, 16));
    ThreeParts(ByteBits(out), BitsOf(x, 16), BitsOf(Low(w, n - 16), n - 16), BitsOf(w, n));
  }

  /** The bits of the code that do not fit the two bytes: c << (l - m) in a 16-bit word. */
  lemma {:induction false} LastBits(v: nat, l: nat, m: nat)
    requires m <= l <= 16
    ensures Shl16(Word(v, l), l - m) == Word(Low(v, m), m)
  {
    ShlShl(v, 16 - l, l - m);
    ShrPastShl(v, 16 - m, 16);
  }

  // ------------------------------------------------------------------ reading

  /** The bits still to be read: the len bits v waiting in buf, then the bytes left. */
  ghost predicate Waits(buf: nat, len: nat, v: nat, inp: seq<byte>, rest: seq<bool>) {
    && len <= 16 && v < Pow2(len)
    && buf == Word(v, len)
    && rest == BitsOf(v, len) + ByteBits(inp)
  }

  /** Adding a byte c below the waiting bits; past the end of file c is 0. */
  lemma {:induction false} FillWord(buf: nat, len: nat, v: nat, inp: seq<byte>, rest: seq<bool>, c: byte)
    requires Waits(buf, len, v, inp, rest) && len <= 8
    requires c == if inp == [] then 0 else inp[0]
    ensures Or(buf, Shl(c, 8 - len)) == Word(Shl(v, 8) + c, len + 8) && Shl(v, 8) + c < Pow2(len + 8)
    ensures Reads(rest, [], BitsOf(Shl(v, 8) + c, len + 8) + ByteBits(if inp == [] then [] else inp[1..]))
  {
    hide Or, Shr, Shl, Low, BitsOf;
    Pow2Values();
    JoinBound(v, len, c, 8);
    ShlBound(c, 8 - len, 8);
    OrDisjoint(v, Shl(c, 8 - len), 16 - len);
    ShlShl(v, 8, 8 - len);
    ShlAdd(Shl(v, 8), c, 8 - len);
    BitsConcat(v, len, c, 8);
    if inp == [] {
      ZeroBits(8);
    } else {
      ThreeParts(BitsOf(v, len), BitsOf(c, 8), ByteBits(inp[1..]), ByteBits(inp));
    }
  }

  /** Taking the n high bits of the word leaves the others. */
  lemma {:induction false} TakeWord(buf: nat, len: nat, v: nat, inp: seq<byte>, rest: seq<bool>, n: nat)
    requires Waits(buf, len, v, inp, rest) && n <= len
    ensures Shr(buf, 16 - n) == Shr(v, len - n) < Pow2(n)
    ensures Shl16(buf, n) == Word(Low(v, len - n), len - n)
    ensures rest == BitsOf(Shr(buf, 16 - n), n) + (BitsOf(Low(v, len - n), len - n) + ByteBits(inp))
  {
    hide Or, Shr, Shl, Low, BitsOf, ByteBits;
    ShrPastShl(v, 16 - len, 16 - n);
    ShrBound(v, len - n, n);
    ShlShl(v, 16 - len, n);
    ShrPastShl(v, 16 - len + n, 16);
    BitsSplit(v, n, len - n);
    ThreeParts(BitsOf(Shr(v, len - n), n), BitsOf(Low(v, len - n), len - n), ByteBits(inp),
               BitsOf(Low(v, len - n), len - n) + ByteBits(inp));
  }

  lemma {:induction false} NothingTaken(file: seq<byte>)
    ensures Waits(0, 0, 0, file, ByteBits(file))
  {
    ShlPow2(16);
  }

  class BitIn {
    var getbuf: nat
    var getlen: nat
    var inp: seq<byte>         // the rest of the file
    ghost var pend: nat        // the getlen bits waiting in the word, as a number
    ghost var rest: seq<bool>  // the bits still to be read

    ghost predicate Valid()
      reads this
    {
      Waits(getbuf, getlen, pend, inp, rest)
    }

    constructor (file: seq<byte>)
      ensures Valid() && rest == ByteBits(file)
    {
      getbuf, getlen, inp := 0, 0, file;
      pend, rest := 0, ByteBits(file);
      new;
      NothingTaken(file);
    }

    /** The refill that opens GetBit, GetByte and GetNBits. */
    method Fill()
      requires Valid()
      modifies this
      ensures Valid() && getlen >= 8 && Reads(old(rest), [], rest)
    {
      hide Or, Shr, Shl, Low, BitsOf, ByteBits, Reads;
      ReadsNothing(rest);
      if getlen <= 8 {
        var c: byte := if inp == [] then 0 else inp[0];
        FillWord(getbuf, getlen, pend, inp, rest, c);
        pend := Shl(pend, 8) + c;
        inp := if inp == [] then [] else inp[1..];
        getbuf := Or(getbuf, Shl(c, 8 - getlen));
        getlen := getlen + 8;
        rest := BitsOf(pend, getlen) + ByteBits(inp);
      }
    }

    /** The part common to the three: n bits off the high end of the word. */
    method Take(n: nat) returns (r: nat)
      requires Valid() && n <= getlen
      modifies this
      ensures Valid() && r < Pow2(n) && old(rest) == BitsOf(r, n) + rest
    {
      TakeWord(getbuf, getlen, pend, inp, rest, n);
      r := Shr(getbuf, 16 - n);
      getbuf := Shl16(getbuf, n);
      getlen := getlen - n;
      pend := Low(pend, getlen);
      rest := BitsOf(pend, getlen) + ByteBits(inp);
    }

    method GetBit() returns (r: nat)
      requires Valid()
      modifies this
      ensures Valid() && r < 2 && Reads(old(rest), [r == 1], rest)
    {
      r := GetBits(1);
      Pow2Values();
      assert r % 2 == r && BitsOf(r, 1) == [r == 1];
    }

    method GetByte() returns (r: nat)
      requires Valid()
      modifies this
      ensures Valid() && r < 256 && Reads(old(rest), BitsOf(r, 8), rest)
    {
      r := GetBits(8);
      Pow2Values();
    }

    /** Called with d_len - 2, which is 1..6; the mask table is 2^n - 1 there. */
    method GetNBits(n: nat) returns (r: nat)
      requires Valid() && 1 <= n <= 6
      modifies this
      ensures Valid() && r < Pow2(n) && Reads(old(rest), BitsOf(r, n), rest)
    {
      r := GetBits(n);
    }

    method GetBits(n: nat) returns (r: nat)
      requires Valid() && n <= 8
      modifies this
      ensures Valid() && r < Pow2(n) && Reads(old(rest), BitsOf(r, n), rest)
    {
      ghost var r0 := rest;
      Fill();
      ghost var r1 := rest;
      r := Take(n);
      ReadsPrefix(BitsOf(r, n), rest);
      ReadsThen(r0, [], r1, BitsOf(r, n), rest);
      assert [] + BitsOf(r, n) == BitsOf(r, n);
    }
  }
}
