/** Machine words as numbers, and the bit strings they stand for.

    C's shifts and unions of unsigned words are written out on naturals, bit by bit.  A
    left shift of a 16-bit word drops what leaves the word, so a shift by 16 gives 0. */
module BitString {
  type byte = x: int | 0 <= x < 256

  const WORD: nat := 0x1_0000

  /** x << n, unbounded. */
  function Shl(x: nat, n: nat): nat {
    if n == 0 then x else 2 * Shl(x, n - 1)
  }

  /** x >> n. */
  function Shr(x: nat, n: nat): nat {
    if n == 0 then x else Shr(x / 2, n - 1)
  }

  function Pow2(n: nat): (p: nat)
    ensures p >= 1
  {
    if n == 0 then 1 else 2 * Pow2(n - 1)
  }

  /** The n low bits of x: x & ((1 << n) - 1). */
  function Low(x: nat, n: nat): (r: nat)
    ensures r < Pow2(n)
  {
    if n == 0 then 0 else 2 * Low(x / 2, n - 1) + x % 2
  }

  /** A left shift in a 16-bit word. */
  function Shl16(x: nat, n: nat): nat { Low(Shl(x, n), 16) }

  /** Bitwise inclusive or. */
  function Or(x: nat, y: nat): nat {
    if x == 0 then y
    else if y == 0 then x
    else 2 * Or(x / 2, y / 2) + (if x % 2 == 1 || y % 2 == 1 then 1 else 0)
  }

  /** Bitwise exclusive or. */
  function Xor(x: nat, y: nat): nat {
    if x == 0 then y
    else if y == 0 then x
    else 2 * Xor(x / 2, y / 2) + (if x % 2 != y % 2 then 1 else 0)
  }

  /** The n low bits of v, most significant first. */
  function BitsOf(v: nat, n: nat): (s: seq<bool>)
    ensures |s| == n
  {
    if n == 0 then [] else BitsOf(v / 2, n - 1) + [v % 2 == 1]
  }

  /** The number a bit string reads as, most significant bit first. */
  function Value(s: seq<bool>): (v: nat)
    ensures v < Pow2(|s|)
  {
    if s == [] then 0 else 2 * Value(s[..|s| - 1]) + (if s[|s| - 1] then 1 else 0)
  }

  function ByteBits(bs: seq<byte>): (s: seq<bool>)
    ensures |s| == 8 * |bs|
  {
    if bs == [] then [] else BitsOf(bs[0], 8) + ByteBits(bs[1..])
  }

  function Zeros(n: nat): (z: seq<bool>)
    ensures |z| == n
  {
    seq(n, _ => false)
  }

  // ---------------------------------------------------------------- arithmetic

  lemma {:induction false} Pow2Values()
    ensures Pow2(1) == 2 && Pow2(2) == 4 && Pow2(3) == 8 && Pow2(4) == 16 && Pow2(5) == 32
    ensures Pow2(6) == 64 && Pow2(7) == 128 && Pow2(8) == 256 && Pow2(16) == WORD
  {
    assert Pow2(8) == 256;
    assert Pow2(12) == 4096;
  }

  lemma {:induction false} Pow2Monotone(a: nat, b: nat)
    requires a <= b
    ensures Pow2(a) <= Pow2(b)
  {
    if a < b { Pow2Monotone(a, b - 1); }
  }

  lemma {:induction false} ShlPow2(n: nat)
    ensures Shl(1, n) == Pow2(n) && Shl(0, n) == 0
  {
    if n > 0 { ShlPow2(n - 1); }
  }

  lemma {:induction false} ShlAdd(a: nat, b: nat, n: nat)
    ensures Shl(a + b, n) == Shl(a, n) + Shl(b, n)
  {
    if n > 0 { ShlAdd(a, b, n - 1); }
  }

  lemma {:induction false} ShlShl(a: nat, i: nat, j: nat)
    ensures Shl(Shl(a, i), j) == Shl(a, i + j)
  {
    if j > 0 { ShlShl(a, i, j - 1); }
  }

  lemma {:induction false} ShrShr(a: nat, i: nat, j: nat)
    ensures Shr(Shr(a, i), j) == Shr(a, i + j)
  {
    if i > 0 { ShrShr(a / 2, i - 1, j); }
  }

  lemma {:induction false} ShlBound(a: nat, n: nat, m: nat)
    requires a < Pow2(m)
    ensures Shl(a, n) < Pow2(n + m)
  {
    if n > 0 { ShlBound(a, n - 1, m); }
  }

  /** A word is its high part and its low part. */
  lemma {:induction false} HighLow(x: nat, n: nat)
    ensures x == Shl(Shr(x, n), n) + Low(x, n)
  {
    if n > 0 {
      HighLow(x / 2, n - 1);
    }
  }

  lemma {:induction false} ShrBound(x: nat, n: nat, m: nat)
    requires x < Pow2(n + m)
    ensures Shr(x, n) < Pow2(m)
  {
    if n > 0 { ShrBound(x / 2, n - 1, m); }
  }

  lemma {:induction false} LowOfSmall(x: nat, n: nat)
    requires x < Pow2(n)
    ensures Low(x, n) == x && Shr(x, n) == 0
  {
    if n > 0 { LowOfSmall(x / 2, n - 1); }
  }

  /** ((a << n) | b) >> n and its low part, for b < 2^n. */
  lemma {:induction false} ShlSplit(a: nat, b: nat, n: nat)
    requires b < Pow2(n)
    ensures Shr(Shl(a, n) + b, n) == a && Low(Shl(a, n) + b, n) == b
  {
    if n > 0 {
      ShlSplit(a, b / 2, n - 1);
      assert (Shl(a, n) + b) / 2 == Shl(a, n - 1) + b / 2;
    }
  }

  /** (a << i) >> j for j <= i. */
  lemma {:induction false} ShrOfShl(a: nat, i: nat, j: nat)
    requires j <= i
    ensures Shr(Shl(a, i), j) == Shl(a, i - j) && Low(Shl(a, i), j) == 0
  {
    if j > 0 { ShrOfShl(a, i - 1, j - 1); }
  }

  /** (a << i) >> j for i <= j. */
  lemma {:induction false} ShrPastShl(a: nat, i: nat, j: nat)
    requires i <= j
    ensures Shr(Shl(a, i), j) == Shr(a, j - i)
    ensures Low(Shl(a, i), j) == Shl(Low(a, j - i), i)
  {
    if i > 0 { ShrPastShl(a, i - 1, j - 1); }
  }

  lemma {:induction false} LowLow(x: nat, n: nat, m: nat)
    requires n <= m
    ensures Low(Low(x, m), n) == Low(x, n)
  {
    hide Pow2;
    if n > 0 { LowLow(x / 2, n - 1, m - 1); }
  }

  /** Joining words with no bit in common adds them. */
  lemma {:induction false} OrDisjoint(a: nat, y: nat, k: nat)
    requires y < Pow2(k)
    ensures Or(Shl(a, k), y) == Shl(a, k) + y
  {
    if Shl(a, k) != 0 && y != 0 && k > 0 {
      OrDisjoint(a, y / 2, k - 1);
    }
  }

  // ---------------------------------------------------------------- bit strings

  lemma {:induction false} BitsSplit(v: nat, n: nat, m: nat)
    ensures BitsOf(v, n + m) == BitsOf(Shr(v, m), n) + BitsOf(Low(v, m), m)
  {
    if m > 0 {
      BitsSplit(v / 2, n, m - 1);
      assert BitsOf(v, n + m) == BitsOf(v / 2, n + (m - 1)) + [v % 2 == 1];
    }
  }

  lemma {:induction false} BitsConcat(a: nat, n: nat, b: nat, m: nat)
    requires b < Pow2(m)
    ensures BitsOf(Shl(a, m) + b, n + m) == BitsOf(a, n) + BitsOf(b, m)
  {
    ShlSplit(a, b, m);
    BitsSplit(Shl(a, m) + b, n, m);
  }

  lemma {:induction false} BitsOfLow(v: nat, n: nat)
    ensures BitsOf(Low(v, n), n) == BitsOf(v, n)
  {
    if n > 0 { BitsOfLow(v / 2, n - 1); }
  }

  lemma {:induction false} ValueOfBits(v: nat, n: nat)
    ensures Value(BitsOf(v, n)) == Low(v, n)
  {
    if n > 0 {
      ValueOfBits(v / 2, n - 1);
      assert BitsOf(v, n)[..n - 1] == BitsOf(v / 2, n - 1);
    }
  }

  lemma {:induction false} BitsOfValue(s: seq<bool>)
    ensures BitsOf(Value(s), |s|) == s
  {
    if s != [] {
      BitsOfValue(s[..|s| - 1]);
      assert Value(s) / 2 == Value(s[..|s| - 1]);
      assert s == s[..|s| - 1] + [s[|s| - 1]];
    }
  }

  lemma {:induction false} ByteBitsAppend(a: seq<byte>, b: seq<byte>)
    ensures ByteBits(a + b) == ByteBits(a) + ByteBits(b)
  {
    hide BitsOf;
    if a == [] {
      assert a + b == b;
    } else {
      assert (a + b)[0] == a[0] && (a + b)[1..] == a[1..] + b;
      ByteBitsAppend(a[1..], b);
      JoinAssoc(BitsOf(a[0], 8), ByteBits(a[1..]), ByteBits(b));
    }
  }

  lemma JoinAssoc(x: seq<bool>, y: seq<bool>, z: seq<bool>)
    ensures (x + y) + z == x + (y + z)
  {
  }

  lemma {:induction false} ByteBitsSnoc(a: seq<byte>, x: byte)
    ensures ByteBits(a + [x]) == ByteBits(a) + BitsOf(x, 8)
  {
    ByteBitsAppend(a, [x]);
    assert ByteBits([x]) == BitsOf(x, 8) + ByteBits([]);
  }
}
