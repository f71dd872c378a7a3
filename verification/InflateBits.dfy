/** The bit buffer of archive/gzip/inflate.c: NEEDBITS, DUMPBITS and what follows the last
    block. */
module InflateBits {
  import opened BitString
  import opened GzipBits

  /** The bk bits in bb are those of the stream right before byte inptr. */
  ghost predicate Holding(inp: seq<byte>, inptr: nat, bb: nat, bk: nat) {
    && inptr <= |inp| && bk <= 8 * inptr && bb < Pow2(bk)
    && Lsb(bb, bk) == ByteLsb(inp)[8 * inptr - bk..8 * inptr]
  }

  lemma {:induction false} ByteAt(inp: seq<byte>, p: nat)
    requires p < |inp|
    ensures ByteLsb(inp)[8 * p..8 * p + 8] == Lsb(inp[p], 8)
  {
    hide Lsb;
    assert inp == inp[..p] + ([inp[p]] + inp[p + 1..]);
    ByteLsbAppend(inp[..p], [inp[p]] + inp[p + 1..]);
    ByteLsbAppend([inp[p]], inp[p + 1..]);
    ByteLsbOne(inp[p]);
  }

  /** b |= byte << k. */
  lemma {:induction false} HoldMore(inp: seq<byte>, inptr: nat, bb: nat, bk: nat)
    requires Holding(inp, inptr, bb, bk) && inptr < |inp|
    ensures Holding(inp, inptr + 1, Or(bb, Shl(inp[inptr], bk)), bk + 8)
  {
    hide Lsb, ByteLsb, Or, Shl;
    ByteAt(inp, inptr);
    Pow2Values();
    OrHigh(bb, inp[inptr], bk);
    SumBound(bb, bk, inp[inptr], 8);
    LsbJoin(bb, bk, inp[inptr], 8);
    var s, p := ByteLsb(inp), 8 * inptr;
    assert s[p - bk..p] + s[p..p + 8] == s[p - bk..p + 8];
  }

  /** b >>= n. */
  lemma {:induction false} HoldLess(inp: seq<byte>, inptr: nat, bb: nat, bk: nat, n: nat)
    requires Holding(inp, inptr, bb, bk) && n <= bk
    ensures Holding(inp, inptr, Shr(bb, n), bk - n)
    ensures Lsb(Low(bb, n), n) == ByteLsb(inp)[8 * inptr - bk..8 * inptr - bk + n]
  {
    hide Lsb, ByteLsb, Shr, Low;
    LsbSplit(bb, n, bk - n);
    ShrBound(bb, n, bk - n);
    var s, p := ByteLsb(inp), 8 * inptr;
    var whole := s[p - bk..p];
    assert whole == Lsb(Low(bb, n), n) + Lsb(Shr(bb, n), bk - n);
    assert whole[..n] == s[p - bk..p - bk + n] && whole[n..] == s[p - bk + n..p];
  }

  class BitSource {
    const inp: seq<byte>
    var inptr: nat
    var bb: nat
    var bk: nat

    /** At most 24 bits are held: they fit the 32-bit buffer. */
    ghost predicate Valid()
      reads this
    {
      Holding(inp, inptr, bb, bk) && bk <= 24
    }

    /** How many bits are used up. */
    ghost function Pos(): nat
      requires Valid()
      reads this
    {
      8 * inptr - bk
    }

    ghost function Rest(): seq<bool>
      requires Valid()
      reads this
    {
      ByteLsb(inp)[Pos()..]
    }

    constructor (inp: seq<byte>)
      ensures Valid() && this.inp == inp && Pos() == 0 && bk == 0
    {
      this.inp := inp;
      inptr, bb, bk := 0, 0, 0;
      new;
      assert Lsb(0, 0) == [];
    }

    /** NEEDBITS: fails at the end of the input. */
    method Need(n: nat) returns (ok: bool)
      requires Valid() && n <= 16
      modifies this
      ensures Valid() && Pos() == old(Pos())
      ensures ok ==> n <= bk <= (if old(bk) >= n then old(bk) else n + 7) && n <= |Rest()|
      ensures !ok ==> |Rest()| < n
    {
      hide Holding;
      HoldRoom(inp, inptr, bb, bk);
      while bk < n
        invariant Valid() && Pos() == old(Pos())
        invariant bk <= (if old(bk) >= n then old(bk) else n + 7)
      {
        HoldRoom(inp, inptr, bb, bk);
        if inptr == |inp| { return false; }
        HoldMore(inp, inptr, bb, bk);
        bb := Or(bb, Shl(inp[inptr], bk));
        inptr := inptr + 1;
        bk := bk + 8;
        HoldRoom(inp, inptr, bb, bk);
      }
      ok := true;
      HoldRoom(inp, inptr, bb, bk);
    }

    /** b & mask_bits[n]. */
    function Peek(n: nat): nat
      reads this
    {
      Low(bb, n)
    }

    lemma Peeked(n: nat)
      requires Valid() && n <= bk
      ensures Peek(n) < Pow2(n) && n <= |Rest()| && Lsb(Peek(n), n) == Rest()[..n]
    {
      HoldLess(inp, inptr, bb, bk, n);
      HoldRoom(inp, inptr, bb, bk);
      assert Rest()[..n] == ByteLsb(inp)[Pos()..Pos() + n];
    }

    /** DUMPBITS. */
    method Dump(n: nat)
      requires Valid() && n <= bk
      modifies this
      ensures Valid() && Pos() == old(Pos()) + n && bk == old(bk) - n
      ensures n <= |old(Rest())| && Rest() == old(Rest())[n..]
    {
      hide Shr, ByteLsb;
      HoldLess(inp, inptr, bb, bk, n);
      HoldRoom(inp, inptr, bb, bk);
      bb := Shr(bb, n);
      bk := bk - n;
    }

    /** NEEDBITS, the value, DUMPBITS. */
    method Take(n: nat) returns (ok: bool, x: nat)
      requires Valid() && n <= 16
      modifies this
      ensures Valid()
      ensures !ok ==> |Rest()| < n && Rest() == old(Rest())
      ensures ok ==> x < Pow2(n) && n <= |old(Rest())| && Lsb(x, n) == old(Rest())[..n] && Rest() == old(Rest())[n..]
      ensures ok ==> bk <= (if old(bk) >= n then old(bk) - n else 7)
    {
      ok := Need(n);
      if !ok { return false, 0; }
      Peeked(n);
      x := Peek(n);
      Dump(n);
    }

    /** Skip to a byte boundary. */
    method Align()
      requires Valid()
      modifies this
      ensures Valid() && Pos() == old(Pos()) + old(|Rest()|) % 8 && Pos() % 8 == 0
      ensures Rest() == old(Rest())[old(|Rest()|) % 8..] && bk <= old(bk)
    {
      hide Holding;
      HoldRoom(inp, inptr, bb, bk);
      Boundary(|inp|, inptr, bk);
      Dump(bk % 8);
    }

    /** Give back the whole bytes that are not used: inptr is left just past the byte that
        holds the last used bit. */
    method GiveBack()
      requires Valid()
      modifies this`bk, this`inptr
      ensures bk < 8 && inptr == (old(Pos()) + 7) / 8 && old(inptr) - inptr == old(bk) / 8
    {
      while bk >= 8
        invariant 8 * inptr - bk == old(Pos()) && old(inptr) - inptr == old(bk) / 8 - bk / 8
      {
        bk := bk - 8;
        inptr := inptr - 1;
      }
    }
  }

  /** What is left of the current byte. */
  lemma {:induction false} Boundary(size: nat, inptr: nat, bk: nat)
    requires inptr <= size && bk <= 8 * inptr
    ensures (8 * size - (8 * inptr - bk)) % 8 == bk % 8 && (8 * inptr - bk + bk % 8) % 8 == 0
  {
  }

  lemma {:induction false} HoldRoom(inp: seq<byte>, inptr: nat, bb: nat, bk: nat)
    requires Holding(inp, inptr, bb, bk)
    ensures inptr <= |inp| && bk <= 8 * inptr && |ByteLsb(inp)| == 8 * |inp|
  {
  }
}
