/** The bit strings of archive/gzip/bits.c and of the bit buffer of archive/gzip/inflate.c:
    the first bit of a byte is its lowest one. */
module GzipBits {
  import opened BitString

  /** The n low bits of v, lowest first. */
  function Lsb(v: nat, n: nat): (s: seq<bool>)
    ensures |s| == n
  {
    if n == 0 then [] else [v % 2 == 1] + Lsb(v / 2, n - 1)
  }

  function ByteLsb(bs: seq<byte>): (s: seq<bool>)
    ensures |s| == 8 * |bs|
  {
    if bs == [] then [] else Lsb(bs[0], 8) + ByteLsb(bs[1..])
  }

  lemma {:induction false} ByteLsbAppend(a: seq<byte>, b: seq<byte>)
    ensures ByteLsb(a + b) == ByteLsb(a) + ByteLsb(b)
  {
    hide Lsb;
    if a == [] {
      assert a + b == b;
    } else {
      ByteLsbAppend(a[1..], b);
      assert (a + b)[1..] == a[1..] + b;
      assert Lsb(a[0], 8) + (ByteLsb(a[1..]) + ByteLsb(b)) == (Lsb(a[0], 8) + ByteLsb(a[1..])) + ByteLsb(b);
    }
  }

  lemma {:induction false} ByteLsbOne(x: byte)
    ensures ByteLsb([x]) == Lsb(x, 8)
  {
    assert [x][1..] == [];
  }

  /** Joining two words end to end joins their bits. */
  lemma {:induction false} LsbJoin(a: nat, n: nat, b: nat, m: nat)
    requires a < Pow2(n)
    ensures Lsb(a + Shl(b, n), n + m) == Lsb(a, n) + Lsb(b, m)
  {
    if n > 0 {
      assert (a + Shl(b, n)) / 2 == a / 2 + Shl(b, n - 1);
      LsbJoin(a / 2, n - 1, b, m);
      assert [a % 2 == 1] + (Lsb(a / 2, n - 1) + Lsb(b, m)) == Lsb(a, n) + Lsb(b, m);
    }
  }

  lemma {:induction false} LsbSplit(v: nat, n: nat, m: nat)
    ensures Lsb(v, n + m) == Lsb(Low(v, n), n) + Lsb(Shr(v, n), m)
  {
    HighLow(v, n);
    LsbJoin(Low(v, n), n, Shr(v, n), m);
  }

  lemma {:induction false} LsbLow(v: nat, n: nat)
    ensures Lsb(Low(v, n), n) == Lsb(v, n)
  {
    if n > 0 { LsbLow(v / 2, n - 1); }
  }

  lemma {:induction false} LsbInjective(v: nat, w: nat, n: nat)
    requires v < Pow2(n) && w < Pow2(n) && Lsb(v, n) == Lsb(w, n)
    ensures v == w
  {
    if n > 0 {
      assert Lsb(v, n)[1..] == Lsb(v / 2, n - 1) && Lsb(w, n)[1..] == Lsb(w / 2, n - 1);
      assert (v % 2 == 1) == Lsb(v, n)[0] && (w % 2 == 1) == Lsb(w, n)[0];
      LsbInjective(v / 2, w / 2, n - 1);
    }
  }

  lemma {:induction false} SumBound(a: nat, n: nat, b: nat, m: nat)
    requires a < Pow2(n) && b < Pow2(m)
    ensures a + Shl(b, n) < Pow2(n + m)
  {
    if n > 0 { SumBound(a / 2, n - 1, b, m); }
  }

  lemma {:induction false} OrComm(x: nat, y: nat)
    ensures Or(x, y) == Or(y, x)
  {
    if x != 0 && y != 0 { OrComm(x / 2, y / 2); }
  }

  /** a | (b << n) for an n-bit a. */
  lemma {:induction false} OrHigh(a: nat, b: nat, n: nat)
    requires a < Pow2(n)
    ensures Or(a, Shl(b, n)) == a + Shl(b, n)
  {
    OrDisjoint(b, a, n);
    OrComm(a, Shl(b, n));
  }

  // ------------------------------------------------------------------ writing

  /** The bytes of a 16-bit word, low one first. */
  function ShortBytes(w: nat): (s: seq<byte>)
    requires w < WORD
    ensures |s| == 2
  {
    [w % 256, w / 256]
  }

  lemma {:induction false} ShortBits(w: nat)
    requires w < WORD
    ensures ByteLsb(ShortBytes(w)) == Lsb(w, 16)
  {
    var lo: byte, hi: byte := w % 256, w / 256;
    assert ShortBytes(w) == [lo] + [hi];
    ByteLsbAppend([lo], [hi]);
    ByteLsbOne(lo);
    ByteLsbOne(hi);
    Pow2Values();
    ShlEight(hi);
    LsbJoin(lo, 8, hi, 8);
  }

  lemma {:induction false} ShlEight(x: nat)
    ensures Shl(x, 8) == 256 * x
  {
    ShlIs(x, 8);
    Pow2Values();
  }

  lemma {:induction false} ShlIs(x: nat, n: nat)
    ensures Shl(x, n) == Pow2(n) * x
  {
    if n > 0 {
      ShlIs(x, n - 1);
      assert 2 * (Pow2(n - 1) * x) == (2 * Pow2(n - 1)) * x;
    }
  }

  lemma {:induction false} Joined(a: seq<bool>, b: seq<bool>, c: seq<bool>, d: seq<bool>)
    requires b + c == d
    ensures (a + b) + c == a + d
  {
  }

  lemma {:induction false} ShlZero(n: nat)
    ensures Shl(0, n) == 0
  {
    if n > 0 { ShlZero(n - 1); }
  }

  /** What send_bits does with a value that does not fit the word: the word takes its low
      part, what is left of it starts the next word. */
  lemma {:induction false} SendSpills(buf: nat, valid: nat, value: nat, length: nat)
    requires valid <= 16 && length <= 16 && valid + length > 16
    requires buf < Pow2(valid) && value < Pow2(length)
    ensures var w := Or(buf, Shl16(value, valid)); var left := Shr(value, 16 - valid);
      w < WORD && left < Pow2(valid + length - 16)
      && Lsb(w, 16) + Lsb(left, valid + length - 16) == Lsb(buf, valid) + Lsb(value, length)
  {
    hide Or, Shl, Shr, Low, Lsb, Pow2;
    var n := 16 - valid;
    var low, left := Low(value, n), Shr(value, n);
    ShrPastShl(value, valid, 16);
    OrHigh(buf, low, valid);
    SumBound(buf, valid, low, n);
    LsbJoin(buf, valid, low, n);
    ShrBound(value, n, length - n);
    LsbSplit(value, n, length - n);
    Pow2Values();
    Joined(Lsb(buf, valid), Lsb(low, n), Lsb(left, length - n), Lsb(value, length));
  }

  lemma {:induction false} SendFits(buf: nat, valid: nat, value: nat, length: nat)
    requires valid + length <= 16 && buf < Pow2(valid) && value < Pow2(length)
    ensures var w := Or(buf, Shl16(value, valid));
      w < Pow2(valid + length) && Lsb(w, valid + length) == Lsb(buf, valid) + Lsb(value, length)
  {
    hide Or, Shl, Low, Lsb, Pow2;
    ShlBound(value, valid, length);
    Pow2Monotone(valid + length, 16);
    LowOfSmall(Shl(value, valid), 16);
    OrHigh(buf, value, valid);
    SumBound(buf, valid, value, length);
    LsbJoin(buf, valid, value, length);
  }

  ghost predicate Holds(out: seq<byte>, buf: nat, valid: nat, sent: seq<bool>) {
    && valid <= 16 && buf < Pow2(valid)
    && sent == ByteLsb(out) + Lsb(buf, valid)
  }

  lemma {:induction false} PutWord(out: seq<byte>, buf: nat, valid: nat, sent: seq<bool>, value: nat, length: nat)
    requires Holds(out, buf, valid, sent) && length <= 16 && valid + length > 16 && value < Pow2(length)
    ensures var w := Or(buf, Shl16(value, valid));
      w < WORD
      && Holds(out + ShortBytes(w), Shr(value, 16 - valid), valid + length - 16, sent + Lsb(value, length))
  {
    hide Or, Shr, Shl16, Lsb, ByteLsb;
    SendSpills(buf, valid, value, length);
    var w, left := Or(buf, Shl16(value, valid)), Shr(value, 16 - valid);
    ByteLsbAppend(out, ShortBytes(w));
    ShortBits(w);
    var a, b, c, d, e := ByteLsb(out), Lsb(buf, valid), Lsb(value, length), Lsb(w, 16), Lsb(left, valid + length - 16);
    assert (a + d) + e == a + (d + e) && (a + b) + c == a + (b + c);
  }

  lemma {:induction false} PutNothing(out: seq<byte>, buf: nat, valid: nat, sent: seq<bool>, value: nat, length: nat)
    requires Holds(out, buf, valid, sent) && valid + length <= 16 && value < Pow2(length)
    ensures Holds(out, Or(buf, Shl16(value, valid)), valid + length, sent + Lsb(value, length))
  {
    hide Or, Shr, Shl16, Lsb, ByteLsb;
    SendFits(buf, valid, value, length);
    var a, b, c := ByteLsb(out), Lsb(buf, valid), Lsb(value, length);
    assert (a + b) + c == a + (b + c);
  }

  /** How many zeros fill up n bits to a byte. */
  function Fill(n: nat): nat { (8 - n % 8) % 8 }

  lemma {:induction false} Windup(out: seq<byte>, buf: nat, valid: nat, sent: seq<bool>)
    requires Holds(out, buf, valid, sent)
    ensures valid > 8 ==> buf < WORD && Holds(out + ShortBytes(buf), 0, 0, sent + Lsb(0, 16 - valid))
    ensures 0 < valid <= 8 ==> buf < 256 && Holds(out + [buf], 0, 0, sent + Lsb(0, 8 - valid))
    ensures Fill(|sent|) == if valid > 8 then 16 - valid else if valid > 0 then 8 - valid else 0
  {
    hide Lsb, ByteLsb, Shl, Pow2, ShortBytes;
    Pow2Values();
    assert Pow2(0) == 1 by { Pow2None(); }
    if valid > 8 {
      WindupTo(out, buf, valid, sent, 16);
      ByteLsbAppend(out, ShortBytes(buf));
      ShortBits(buf);
    } else if valid > 0 {
      WindupTo(out, buf, valid, sent, 8);
      ByteLsbAppend(out, [buf]);
      ByteLsbOne(buf);
    }
    NoBytes();
  }

  lemma {:induction false} Pow2None()
    ensures Pow2(0) == 1
  {
  }

  lemma {:induction false} WindupTo(out: seq<byte>, buf: nat, valid: nat, sent: seq<bool>, n: nat)
    requires Holds(out, buf, valid, sent) && valid <= n
    ensures buf < Pow2(n) && sent + Lsb(0, n - valid) == ByteLsb(out) + Lsb(buf, n)
  {
    hide Lsb, ByteLsb, Shl;
    Pow2Monotone(valid, n);
    ShlZero(valid);
    LsbJoin(buf, valid, 0, n - valid);
    Joined(ByteLsb(out), Lsb(buf, valid), Lsb(0, n - valid), Lsb(buf, n));
  }

  class BitSink {
    var bi_buf: nat
    var bi_valid: nat
    var out: seq<byte>
    ghost var sent: seq<bool>  // every bit sent so far

    ghost predicate Valid()
      reads this
    {
      Holds(out, bi_buf, bi_valid, sent)
    }

    constructor ()
      ensures Valid() && sent == [] && out == []
    {
      bi_buf, bi_valid, out, sent := 0, 0, [], [];
    }

    /** Send the length low bits of value, which has no others. */
    method SendBits(value: nat, length: nat)
      requires Valid() && length <= 16 && value < Pow2(length)
      modifies this
      ensures Valid() && sent == old(sent) + Lsb(value, length)
    {
      hide Or, Shl, Shr, Shl16, Lsb, ByteLsb;
      if bi_valid > 16 - length {
        PutWord(out, bi_buf, bi_valid, sent, value, length);
        bi_buf := Or(bi_buf, Shl16(value, bi_valid));
        out := out + ShortBytes(bi_buf);
        bi_buf := Shr(value, 16 - bi_valid);
        bi_valid := bi_valid + length - 16;
      } else {
        PutNothing(out, bi_buf, bi_valid, sent, value, length);
        bi_buf := Or(bi_buf, Shl16(value, bi_valid));
        bi_valid := bi_valid + length;
      }
      sent := sent + Lsb(value, length);
    }

    /** Fill up to a byte with zeros. */
    method BiWindup()
      requires Valid()
      modifies this
      ensures Valid() && bi_valid == 0 && sent == old(sent) + Lsb(0, Fill(|old(sent)|))
      ensures sent == ByteLsb(out)
    {
      Windup(out, bi_buf, bi_valid, sent);
      if bi_valid > 8 {
        out := out + ShortBytes(bi_buf);
      } else if bi_valid > 0 {
        out := out + [bi_buf];
      }
      sent := sent + Lsb(0, Fill(|sent|));
      bi_buf := 0;
      bi_valid := 0;
    }

    /** Copy a stored block, with its length and the complement of it before it or without. */
    method CopyBlock(buf: seq<byte>, header: bool)
      requires Valid() && |buf| < WORD
      modifies this
      ensures Valid()
      ensures sent == old(sent) + Lsb(0, Fill(|old(sent)|))
                      + (if header then Lsb(|buf|, 16) + Lsb(WORD - 1 - |buf|, 16) else []) + ByteLsb(buf)
    {
      hide Lsb, ByteLsb, Holds;
      BiWindup();
      ghost var s0 := sent;
      if header {
        PutShort(|buf|);
        PutShort(WORD - 1 - |buf|);
      }
      ghost var s1 := sent;
      var i := 0;
      NoBytes();
      while i < |buf|
        invariant i <= |buf| && sent == s1 + ByteLsb(buf[..i])
        invariant Valid() && bi_valid == 0
      {
        OneMoreByte(buf, i);
        Joined(s1, ByteLsb(buf[..i]), Lsb(buf[i], 8), ByteLsb(buf[..i + 1]));
        PutByte(buf[i]);
        i := i + 1;
      }
      assert buf[..i] == buf;
      assert header ==> s1 == s0 + (Lsb(|buf|, 16) + Lsb(WORD - 1 - |buf|, 16));
    }

    /** One byte on a byte boundary. */
    method PutByte(c: byte)
      requires Valid() && bi_valid == 0
      modifies this
      ensures Valid() && bi_valid == 0 && sent == old(sent) + Lsb(c, 8)
    {
      ByteLsbAppend(out, [c]);
      ByteLsbOne(c);
      out := out + [c];
      sent := sent + Lsb(c, 8);
    }

    method PutShort(w: nat)
      requires Valid() && bi_valid == 0 && w < WORD
      modifies this
      ensures Valid() && bi_valid == 0 && sent == old(sent) + Lsb(w, 16)
    {
      ByteLsbAppend(out, ShortBytes(w));
      ShortBits(w);
      out := out + ShortBytes(w);
      sent := sent + Lsb(w, 16);
    }
  }

  lemma {:induction false} NoBytes()
    ensures ByteLsb([]) == [] && Lsb(0, 0) == []
  {
  }

  lemma {:induction false} OneMoreByte(buf: seq<byte>, i: nat)
    requires i < |buf|
    ensures ByteLsb(buf[..i + 1]) == ByteLsb(buf[..i]) + Lsb(buf[i], 8) && buf[..0] == []
  {
    ByteLsbAppend(buf[..i], [buf[i]]);
    ByteLsbOne(buf[i]);
    assert buf[..i + 1] == buf[..i] + [buf[i]];
  }

  // ---------------------------------------------------------------- reversing

  /** The bits of v, lowest first, are those of the result, highest first. */
  method BiReverse(code: nat, len: nat) returns (res: nat)
    requires 1 <= len <= 15 && code < Pow2(len)
    ensures res < Pow2(len) && Lsb(res, len) == BitsOf(code, len)
  {
    hide Reversing;
    var c, n := code, len;
    var r: nat := 0;
    ReverseStart(code, len);
    while n > 0
      invariant n <= len && Reversing(code, len - n, c, r)
    {
      ReverseStep(code, len - n, c, r);
      r := r + c % 2;
      c := c / 2;
      r := 2 * r;
      n := n - 1;
    }
    ReverseEnd(code, len, c, r);
    res := r / 2;
  }

  /** The d low bits of code are taken into r, which has room for the next. */
  ghost predicate Reversing(code: nat, d: nat, c: nat, r: nat) {
    && c == Shr(code, d) && r % 2 == 0 && r / 2 < Pow2(d)
    && Lsb(r / 2, d) == BitsOf(Low(code, d), d)
  }

  lemma {:induction false} ReverseStart(code: nat, len: nat)
    ensures Reversing(code, 0, code, 0)
  {
  }

  lemma {:induction false} ReverseEnd(code: nat, len: nat, c: nat, r: nat)
    requires Reversing(code, len, c, r) && code < Pow2(len)
    ensures r / 2 < Pow2(len) && Lsb(r / 2, len) == BitsOf(code, len)
  {
    LowOfSmall(code, len);
  }

  lemma {:induction false} ReverseStep(code: nat, d: nat, c: nat, r: nat)
    requires Reversing(code, d, c, r)
    ensures Reversing(code, d + 1, c / 2, 2 * (r + c % 2))
  {
    hide Shr, Low, Lsb, BitsOf, Shl, Pow2;
    var b, q := c % 2, r / 2;
    ShrShr(code, d, 1);
    assert Shr(c, 1) == c / 2 by { HalfShr(c); }
    LowMore(code, d);
    BitsConcat(b, 1, Low(code, d), d);
    OneBit(b);
    LsbCons(2 * q + b, d);
    assert (2 * q + b) / 2 == q && (2 * q + b) % 2 == b && 2 * (r + b) / 2 == 2 * q + b && 1 + d == d + 1;
    Pow2Double(d);
  }

  lemma {:induction false} Pow2Double(d: nat)
    ensures Pow2(d + 1) == 2 * Pow2(d)
  {
  }

  lemma {:induction false} HalfShr(c: nat)
    ensures Shr(c, 1) == c / 2
  {
  }

  lemma {:induction false} OneBit(b: nat)
    requires b < 2
    ensures BitsOf(b, 1) == [b == 1]
  {
    assert BitsOf(b / 2, 0) == [];
  }

  lemma {:induction false} LsbCons(v: nat, d: nat)
    ensures Lsb(v, d + 1) == [v % 2 == 1] + Lsb(v / 2, d)
  {
  }

  lemma {:induction false} LowMore(x: nat, d: nat)
    ensures Low(x, d + 1) == Shl(Shr(x, d) % 2, d) + Low(x, d)
  {
    if d > 0 {
      LowMore(x / 2, d - 1);
    }
  }
}
