/** The running hash of archive/gzip/deflate.c: after three bytes it depends on these alone, and
    two of them and the hash give the third. */
module DeflateHash {
  import opened BitString

  const HASH_BITS: nat := 14
  const H_SHIFT: nat := 5

  lemma {:induction false} XorStep(x: nat, y: nat)
    ensures Xor(x, y) == 2 * Xor(x / 2, y / 2) + (if x % 2 != y % 2 then 1 else 0)
  {
  }

  lemma {:induction false} LowXor(x: nat, y: nat, n: nat)
    ensures Low(Xor(x, y), n) == Xor(Low(x, n), Low(y, n))
  {
    hide Xor, Low;
    if n == 0 {
      XorZero(0);
      LowNone(x);
      LowNone(y);
      LowNone(Xor(x, y));
    } else {
      XorHalves(x, y);
      XorHalves(Low(x, n), Low(y, n));
      LowHalves(x, n);
      LowHalves(y, n);
      LowHalves(Xor(x, y), n);
      LowXor(x / 2, y / 2, n - 1);
    }
  }

  lemma {:induction false} XorHalves(x: nat, y: nat)
    ensures Xor(x, y) / 2 == Xor(x / 2, y / 2) && Xor(x, y) % 2 == if x % 2 != y % 2 then 1 else 0
  {
    hide Xor;
    XorStep(x, y);
  }

  lemma {:induction false} LowHalves(x: nat, n: nat)
    requires n > 0
    ensures Low(x, n) / 2 == Low(x / 2, n - 1) && Low(x, n) % 2 == x % 2
  {
  }

  lemma {:induction false} XorZero(y: nat)
    ensures Xor(0, y) == y
  {
  }

  lemma {:induction false} XorCancel(a: nat, b: nat, c: nat)
    requires Xor(a, b) == Xor(a, c)
    ensures b == c
    decreases a
  {
    if a > 0 {
      XorStep(a, b);
      XorStep(a, c);
      XorCancel(a / 2, b / 2, c / 2);
    }
  }

  /** UPDATE_HASH. */
  function UpdateHash(h: nat, c: byte): (r: nat)
    ensures r < Pow2(HASH_BITS)
  {
    Low(Xor(Shl(h, H_SHIFT), c), HASH_BITS)
  }

  /** Hashes that agree in their k low bits agree in H_SHIFT more after the same byte. */
  lemma {:induction false} UpdateAgrees(x: nat, y: nat, c: byte, k: nat, n: nat)
    requires Low(x, k) == Low(y, k) && n <= k + H_SHIFT && n <= HASH_BITS
    ensures Low(UpdateHash(x, c), n) == Low(UpdateHash(y, c), n)
  {
    hide Xor, Shl, Low;
    Masked(x, c, k, n);
    Masked(y, c, k, n);
  }

  lemma {:induction false} Masked(x: nat, c: byte, k: nat, n: nat)
    requires n <= k + H_SHIFT && n <= HASH_BITS
    ensures Low(UpdateHash(x, c), n) == Xor(Low(Shl(Low(x, k), H_SHIFT), n), Low(c, n))
  {
    hide Xor, Shl, Low;
    LowLow(Xor(Shl(x, H_SHIFT), c), n, HASH_BITS);
    LowXor(Shl(x, H_SHIFT), c, n);
    ShrPastShl(x, H_SHIFT, k + H_SHIFT);
    LowLow(Shl(x, H_SHIFT), n, k + H_SHIFT);
  }

  /** The hash key of three bytes. */
  function Key(a: byte, b: byte, c: byte): (k: nat)
    ensures k < Pow2(HASH_BITS)
  {
    UpdateHash(UpdateHash(UpdateHash(0, a), b), c)
  }

  /** h is a running hash after the bytes a and b, as far as it matters. */
  ghost predicate Running(h: nat, a: byte, b: byte) {
    Low(h, 10) == Low(UpdateHash(UpdateHash(0, a), b), 10)
  }

  lemma {:induction false} LowMask(h: nat, c: byte)
    ensures Low(UpdateHash(h, c), HASH_BITS) == UpdateHash(h, c)
  {
    hide Low, Xor;
    LowLow(Xor(Shl(h, H_SHIFT), c), HASH_BITS, HASH_BITS);
  }

  /** The third byte completes the key, and the running hash goes on. */
  lemma {:induction false} ThirdByte(h: nat, a: byte, b: byte, c: byte)
    requires Running(h, a, b)
    ensures UpdateHash(h, c) == Key(a, b, c) && Running(UpdateHash(h, c), b, c)
  {
    hide UpdateHash, Low;
    var r := UpdateHash(UpdateHash(0, a), b);
    UpdateAgrees(h, r, c, 10, HASH_BITS);
    LowMask(h, c);
    LowMask(r, c);
    assert Low(UpdateHash(0, a), 0) == Low(0, 0) by { LowNone(UpdateHash(0, a)); }
    UpdateAgrees(UpdateHash(0, a), 0, b, 0, 5);
    UpdateAgrees(UpdateHash(UpdateHash(0, a), b), UpdateHash(0, b), c, 5, 10);
  }

  lemma {:induction false} LowNone(x: nat)
    ensures Low(x, 0) == 0 && Low(0, 0) == 0
  {
  }

  /** Any two bytes start a running hash. */
  lemma {:induction false} FirstTwo(h: nat, a: byte, b: byte)
    ensures Running(UpdateHash(UpdateHash(h, a), b), a, b)
  {
    hide UpdateHash, Low;
    LowNone(h);
    LowNone(0);
    UpdateAgrees(h, 0, a, 0, 5);
    UpdateAgrees(UpdateHash(h, a), UpdateHash(0, a), b, 5, 10);
  }

  /** The unchecked third byte: equal keys and two equal bytes leave no choice. */
  lemma {:induction false} KeyTells(a: byte, b: byte, c: byte, d: byte)
    requires Key(a, b, c) == Key(a, b, d)
    ensures c == d
  {
    hide Xor, Shl, Low;
    var r := Shl(UpdateHash(UpdateHash(0, a), b), H_SHIFT);
    LowXor(r, c, HASH_BITS);
    LowXor(r, d, HASH_BITS);
    Pow2Monotone(8, HASH_BITS);
    Pow2Values();
    LowOfSmall(c, HASH_BITS);
    LowOfSmall(d, HASH_BITS);
    XorCancel(Low(r, HASH_BITS), c, d);
  }
}
