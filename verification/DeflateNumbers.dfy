/** The settings of archive/gzip/deflate.c in numbers. */
module DeflateNumbers {
  import opened BitString
  import opened InflateFormat
  import opened DeflateHash
  import opened DeflateText
  import opened DeflateWindow
  import opened DeflateLazy

  /** What the levels set, from 1 to 9. */
  lemma {:induction false} LevelNumbers(level: nat)
    requires 1 <= level <= 9
    ensures var c, i := ConfigurationTable()[level], level - 1;
            && c.goodMatch == [4, 6, 8, 8, 8, 8, 8, 32, 32][i]
            && c.maxLazy == [4, 8, 16, 16, 16, 32, 64, 128, 258][i]
            && c.niceMatch == [16, 16, 32, 64, 128, 128, 128, 258, 258][i]
            && c.maxChain == [16, 16, 32, 64, 128, 256, 512, 1024, 4096][i]
  {
  }

  /** Each byte is shifted by five bits against the next, and 14 bits are kept. */
  lemma {:induction false} KeyNumbers()
    ensures Key(1, 1, 1) == 0x421 && Key(16, 0, 1) == 1
  {
    hide Low, Shl;
    Pow2Values();
    ShlPow2(5);
    ShlByFive();
    LowOfSmall(1, 14);
    LowOfSmall(0x21, 14);
    LowOfSmall(0x421, 14);
    assert UpdateHash(0, 1) == 1 && UpdateHash(1, 1) == 0x21 && UpdateHash(0x21, 1) == 0x421;
    LowOfSmall(16, 14);
    LowOfSmall(0x200, 14);
    assert UpdateHash(0, 16) == 16 && UpdateHash(16, 0) == 0x200 && UpdateHash(0x200, 1) == 1;
  }

  lemma {:induction false} ShlByFive()
    ensures Shl(0, 5) == 0 && Shl(1, 5) == 0x20 && Shl(16, 5) == 0x200
    ensures Xor(0x20, 1) == 0x21 && Shl(0x21, 5) == 0x420 && Xor(0x420, 1) == 0x421
    ensures Shl(0x200, 5) == 0x4000 && Low(Xor(0x4000, 1), 14) == 1
  {
    hide Low;
    FiveTimes(0);
    FiveTimes(1);
    FiveTimes(16);
    FiveTimes(0x21);
    FiveTimes(0x200);
    XorOne(0x10);
    XorOne(0x210);
    XorOne(0x2000);
    Pow2Values();
    LowAbove(13);
  }

  lemma {:induction false} FiveTimes(x: nat)
    ensures Shl(x, 5) == 32 * x
  {
    assert Shl(x, 1) == 2 * x && Shl(x, 2) == 4 * x && Shl(x, 3) == 8 * x && Shl(x, 4) == 16 * x;
  }

  lemma {:induction false} XorOne(x: nat)
    ensures x > 0 ==> Xor(2 * x, 1) == 2 * x + 1
  {
    assert x > 0 ==> Xor(2 * x, 1) == 2 * Xor(x, 0) + 1;
  }

  lemma {:induction false} LowPow2(n: nat)
    ensures Low(Pow2(n), n) == 0
  {
    if n > 0 { LowPow2(n - 1); }
  }

  lemma {:induction false} LowAbove(n: nat)
    ensures Low(2 * Pow2(n) + 1, n + 1) == 1
  {
    LowPow2(n);
  }

  /** At level 6 the eight letters a become two literals and a match. */
  lemma {:induction false} EightAsAtSix(all: seq<Item>, steps: seq<View>)
    requires Parses(EightAs(), 0, all) && Reach(0, all) == 8
    requires Lazily(EightAs(), ConfigurationTable()[6], all, steps, 8)
    ensures all == [Lit(97), Lit(97), Back(6, 1)]
  {
    hide Lazily, Parses, Reach;
    LevelNumbers(6);
    EightAsPacked(all, steps);
  }
}
