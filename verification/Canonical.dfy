/** Canonical prefix codes from code lengths, section 3.2.2 of RFC 1951: the codes that
    gen_codes of archive/gzip/trees.c assigns and huft_build of archive/gzip/inflate.c reads. */
module Canonical {
  import opened BitString

  /** How many symbols have codes of b bits. */
  function Count(ls: seq<nat>, b: nat): (n: nat)
    ensures n <= |ls|
  {
    if ls == [] then 0
    else Count(ls[..|ls| - 1], b) + (if ls[|ls| - 1] == b then 1 else 0)
  }

  /** The code numbers of b bits start here: step 2 of the algorithm. */
  function First(ls: seq<nat>, b: nat): nat {
    if b <= 1 then 0 else 2 * (First(ls, b - 1) + Count(ls, b - 1))
  }

  /** Codes of one length go up with the symbols: step 3. */
  function CodeNum(ls: seq<nat>, i: nat): nat
    requires i < |ls|
  {
    First(ls, ls[i]) + Count(ls[..i], ls[i])
  }

  /** The code of symbol i, first bit first. */
  function Code(ls: seq<nat>, i: nat): (s: seq<bool>)
    requires i < |ls|
    ensures |s| == ls[i]
  {
    BitsOf(CodeNum(ls, i), ls[i])
  }

  /** How many patterns of b bits no code of up to b bits starts; negative when there are more
      codes than patterns. */
  function Spare(ls: seq<nat>, b: nat): int {
    if b == 0 then 1 else 2 * Spare(ls, b - 1) - Count(ls, b)
  }

  /** The lengths, none above m, leave no pattern unused and use none twice. */
  ghost predicate Complete(ls: seq<nat>, m: nat) {
    Spare(ls, m) == 0 && NoneAbove(ls, m)
  }

  ghost predicate NoneAbove(ls: seq<nat>, m: nat) { forall i :: 0 <= i < |ls| ==> ls[i] <= m }

  /** The same from the counts c of codes of each length. */
  function SpareOf(c: seq<nat>, b: nat): int
    requires b < |c|
  {
    if b == 0 then 1 else 2 * SpareOf(c, b - 1) - c[b]
  }

  /** How many codes have 1 to b bits. */
  function Total(c: seq<nat>, b: nat): nat
    requires b < |c|
  {
    if b == 0 then 0 else Total(c, b - 1) + c[b]
  }

  // ------------------------------------------------------------------ counting

  lemma {:induction false} CountSplit(a: seq<nat>, c: seq<nat>, b: nat)
    ensures Count(a + c, b) == Count(a, b) + Count(c, b)
    decreases |c|
  {
    if c == [] {
      assert a + c == a;
    } else {
      CountSplit(a, c[..|c| - 1], b);
      assert (a + c)[..|a + c| - 1] == a + c[..|c| - 1];
    }
  }

  lemma {:induction false} CountPrefix(ls: seq<nat>, i: nat, j: nat, b: nat)
    requires i <= j <= |ls|
    ensures Count(ls[..i], b) <= Count(ls[..j], b)
    ensures i < j && ls[i] == b ==> Count(ls[..i], b) < Count(ls[..j], b)
  {
    CountSplit(ls[..i], ls[i..j], b);
    assert ls[..i] + ls[i..j] == ls[..j];
    if i < j {
      CountSplit([ls[i]], ls[i + 1..j], b);
      assert [ls[i]] + ls[i + 1..j] == ls[i..j];
      assert Count([ls[i]], b) == (if ls[i] == b then 1 else 0) by { assert [ls[i]][..0] == []; }
    }
  }

  /** Each symbol's rank is below the count. */
  lemma {:induction false} RankBound(ls: seq<nat>, i: nat)
    requires i < |ls|
    ensures Count(ls[..i], ls[i]) < Count(ls, ls[i])
  {
    CountPrefix(ls, i, |ls|, ls[i]);
    assert ls[..|ls|] == ls;
  }

  /** The r-th symbol of b bits. */
  lemma {:induction false} AtRank(ls: seq<nat>, b: nat, r: nat) returns (i: nat)
    requires r < Count(ls, b)
    ensures i < |ls| && ls[i] == b && Count(ls[..i], b) == r
    decreases |ls|
  {
    var n := |ls| - 1;
    if ls[n] == b && Count(ls[..n], b) == r {
      i := n;
    } else {
      i := AtRank(ls[..n], b, r);
      assert ls[..n][..i] == ls[..i];
    }
  }

  // ---------------------------------------------------------------- code space

  /** The patterns of b bits: those below First start shorter codes, then come the codes, then
      the spare ones. */
  lemma {:induction false} SpareIs(ls: seq<nat>, b: nat)
    requires b >= 1
    ensures First(ls, b) + Count(ls, b) + Spare(ls, b) == Pow2(b)
    ensures First(ls, b) == Pow2(b) - 2 * Spare(ls, b - 1)
  {
    if b > 1 { SpareIs(ls, b - 1); }
  }

  /** A set that fits at m fits at every shorter length. */
  lemma {:induction false} SpareBelow(ls: seq<nat>, b: nat, m: nat)
    requires b <= m && Spare(ls, m) >= 0
    ensures Spare(ls, b) >= 0
    decreases m - b
  {
    if b < m {
      SpareBelow(ls, b, m - 1);
    }
  }

  lemma {:induction false} CountNone(ls: seq<nat>, m: nat, b: nat)
    requires NoneAbove(ls, m) && m < b
    ensures Count(ls, b) == 0
  {
    if ls != [] { CountNone(ls[..|ls| - 1], m, b); }
  }

  /** The code number of a symbol has as many bits as its length says. */
  lemma {:induction false} CodeFits(ls: seq<nat>, m: nat, i: nat)
    requires Spare(ls, m) >= 0 && i < |ls| && 1 <= ls[i] <= m
    ensures First(ls, ls[i]) <= CodeNum(ls, i) < First(ls, ls[i]) + Count(ls, ls[i]) <= Pow2(ls[i])
  {
    RankBound(ls, i);
    SpareBelow(ls, ls[i], m);
    SpareIs(ls, ls[i]);
  }

  /** Codes of d bits more start beyond all codes of b bits. */
  lemma {:induction false} FirstGrows(ls: seq<nat>, b: nat, d: nat)
    requires b >= 1 && d >= 1
    ensures First(ls, b + d) >= Shl(First(ls, b) + Count(ls, b), d)
  {
    if d > 1 { FirstGrows(ls, b, d - 1); }
  }

  lemma {:induction false} ShrMonotone(x: nat, y: nat, d: nat)
    requires x >= Shl(y, d)
    ensures Shr(x, d) >= y
  {
    if d > 0 { ShrMonotone(x / 2, y, d - 1); }
  }

  /** The first n of m bits. */
  lemma {:induction false} BitsPrefix(v: nat, n: nat, m: nat)
    requires n <= m
    ensures BitsOf(v, m)[..n] == BitsOf(Shr(v, m - n), n)
  {
    BitsSplit(v, n, m - n);
  }

  lemma {:induction false} BitsInjective(v: nat, w: nat, n: nat)
    requires v < Pow2(n) && w < Pow2(n) && BitsOf(v, n) == BitsOf(w, n)
    ensures v == w
  {
    ValueOfBits(v, n);
    ValueOfBits(w, n);
    LowOfSmall(v, n);
    LowOfSmall(w, n);
  }

  /** No code starts another: a stream starts with the code of at most one symbol. */
  lemma {:induction false} PrefixFree(ls: seq<nat>, m: nat, i: nat, j: nat)
    requires Spare(ls, m) >= 0 && i < |ls| && j < |ls| && 1 <= ls[i] <= m && 1 <= ls[j] <= m
    requires Code(ls, i) <= Code(ls, j)
    ensures i == j
  {
    var d := ls[j] - ls[i];
    CodeFits(ls, m, i);
    CodeFits(ls, m, j);
    assert Code(ls, i) == Code(ls, j)[..ls[i]];
    BitsPrefix(CodeNum(ls, j), ls[i], ls[j]);
    ShrBound(CodeNum(ls, j), d, ls[i]);
    BitsInjective(CodeNum(ls, i), Shr(CodeNum(ls, j), d), ls[i]);
    if d > 0 {
      FirstGrows(ls, ls[i], d);
      ShrMonotone(CodeNum(ls, j), First(ls, ls[i]) + Count(ls, ls[i]), d);
    } else if i < j {
      CountPrefix(ls, i, j, ls[i]);
    } else if j < i {
      CountPrefix(ls, j, i, ls[i]);
    }
  }

  /** A complete code reads every stream that is long enough. */
  lemma {:induction false} AlwaysCode(ls: seq<nat>, m: nat, s: seq<bool>) returns (i: nat)
    requires Complete(ls, m) && |s| == m
    ensures i < |ls| && 1 <= ls[i] <= m && Code(ls, i) <= s
  {
    i := CodeFrom(ls, m, s, 0);
  }

  /** If the first b bits are no shorter code nor start with one, some code comes after. */
  lemma {:induction false} CodeFrom(ls: seq<nat>, m: nat, s: seq<bool>, b: nat) returns (i: nat)
    requires Spare(ls, m) == 0 && |s| == m && b <= m
    requires b > 0 ==> Value(s[..b]) >= First(ls, b) + Count(ls, b)
    ensures i < |ls| && 1 <= ls[i] <= m && Code(ls, i) <= s
    decreases m - b
  {
    if b == m {
      if b > 0 { SpareIs(ls, m); }
      assert false;
    } else {
      var v, c := Value(s[..b + 1]), b + 1;
      assert s[..c][..b] == s[..b];
      assert v >= 2 * Value(s[..b]) >= First(ls, c);
      if v < First(ls, c) + Count(ls, c) {
        i := AtRank(ls, c, v - First(ls, c));
        BitsOfValue(s[..c]);
      } else {
        i := CodeFrom(ls, m, s, c);
      }
    }
  }
}
