/** How many bits huft_build of archive/gzip/inflate.c gives a new table: it looks ahead how
    far the codes reach that start like the code at hand. */
module HuftSize {
  import opened BitString
  import opened Canonical
  import opened Ladder

  /** The numbers of b bits that no code of up to b bits starts begin here. */
  function Used(ls: seq<nat>, b: nat): nat { First(ls, b) + Count(ls, b) }

  /** All numbers of w + j bits that start with the w bits of number u are used up. */
  ghost predicate FullAt(ls: seq<nat>, u: nat, w: nat, j: nat) { Used(ls, w + j) >= Shl(u + 1, j) }

  /** What the loop in huft_build stops at: the first code after the w bits u has k bits. */
  ghost predicate Chosen(ls: seq<nat>, u: nat, w: nat, k: nat, g: nat, l: nat, j: nat)
    requires w < k <= g
  {
    var z := if g - w > l then l else g - w;
    && k - w <= j && (j == k - w || j <= z || j == k - w + 1)
    && (j == k - w ==> FullAt(ls, u, w, j))
    && (j > k - w ==> !FullAt(ls, u, w, k - w) && (j < z ==> FullAt(ls, u, w, j)))
  }

  /** The c[k] codes of k bits left, from number n on, the first under the w bits u, are a + 1. */
  method TableBits(c: seq<nat>, k: nat, g: nat, w: nat, l: nat, a: nat, ghost ls: seq<nat>, ghost u: nat)
    returns (j: nat)
    requires w < k <= g < |c| && l >= 1
    requires forall b :: 1 <= b <= g ==> c[b] == Count(ls, b)
    requires Used(ls, k) == Shl(u, k - w) + a + 1
    ensures Chosen(ls, u, w, k, g, l, j)
  {
    hide First, Count;
    var z := if g - w > l then l else g - w;
    j := k - w;
    var f: nat := Pow2(j);
    ShlAdd(u, 1, j);
    ShlPow2(j);
    if f > a + 1 {
      f := f - (a + 1);
      var xp: nat := k;
      j := j + 1;
      while j < z
        invariant k - w < j <= (if z > k - w + 1 then z else k - w + 1) && xp == w + j - 1
        invariant f > 0 && Used(ls, xp) + f == Shl(u + 1, j - 1)
      {
        UsedNext(ls, xp);
        f := 2 * f;
        xp := xp + 1;
        if f <= c[xp] { break; }
        f := f - c[xp];
        j := j + 1;
      }
    }
  }

  lemma {:induction false} UsedNext(ls: seq<nat>, b: nat)
    requires b >= 1
    ensures Used(ls, b + 1) == 2 * Used(ls, b) + Count(ls, b + 1)
  {
  }

  /** Where the numbers are used up no longer code goes on. */
  lemma {:induction false} NoLonger(ls: seq<nat>, u: nat, w: nat, j: nat, b: nat, n: nat)
    requires FullAt(ls, u, w, j) && w + j < b && 1 <= w + j && n >= First(ls, b)
    ensures Shr(n, b - w) > u
  {
    var d := b - (w + j);
    FirstGrows(ls, w + j, d);
    ShlMonotone(Shl(u + 1, j), Used(ls, w + j), d);
    ShlShl(u + 1, j, d);
    ShrMonotone(n, u + 1, b - w);
  }

  lemma {:induction false} ShlMonotone(x: nat, y: nat, d: nat)
    requires x <= y
    ensures Shl(x, d) <= Shl(y, d)
  {
    if d > 0 { ShlMonotone(x, y, d - 1); }
  }

  /** The new table of code p, which goes on with zeros after w bits. */
  lemma {:induction false} ChosenFits(ls: seq<nat>, g: nat, k: nat, r: nat, w: nat, l: nat, j: nat, q: nat)
    requires Complete(ls, g) && 1 <= k <= g && r < Count(ls, k) && w < k && l >= 1
    requires Chosen(ls, Shr(First(ls, k) + r, k - w), w, k, g, l, j)
    requires q < |Codes(ls, g, Count(ls, g))|
    requires var c := Codes(ls, g, Count(ls, g))[q]; w < |c| && c[..w] == BitsOf(First(ls, k) + r, k)[..w]
    ensures var n := |Codes(ls, g, Count(ls, g))[q]|;
      if n <= w + l then n <= w + j else if k < w + l then j == l else j > l
    ensures w + j <= g + 1 && (k <= w + l ==> j <= l + 1)
  {
    hide First, Count, Codes, Base, BitsOf, Shr, Shl;
    var b, i := CodeAtPlace(ls, g, Count(ls, g), q);
    var u, n := Shr(First(ls, k) + r, k - w), First(ls, b) + i;
    UnderPrefix(ls, g, k, r, b, i, w);
    if j == k - w || j < (if g - w > l then l else g - w) {
      if w + j < b { NoLonger(ls, u, w, j, b, n); }
    }
    if k < b { NotFullBefore(ls, u, w, k - w, b, n); }
  }

  lemma {:induction false} NotFullBefore(ls: seq<nat>, u: nat, w: nat, j: nat, b: nat, n: nat)
    requires 1 <= w + j < b && Shr(n, b - w) == u && n >= First(ls, b)
    ensures !FullAt(ls, u, w, j)
  {
    if FullAt(ls, u, w, j) { NoLonger(ls, u, w, j, b, n); }
  }

  /** Codes that start with the same w bits have the same number there. */
  lemma {:induction false} UnderPrefix(ls: seq<nat>, g: nat, k: nat, r: nat, b: nat, i: nat, w: nat)
    requires Spare(ls, g) >= 0 && 1 <= k <= g && 1 <= b <= g && r < Count(ls, k) && i < Count(ls, b) && w <= k && w <= b
    requires BitsOf(First(ls, b) + i, b)[..w] == BitsOf(First(ls, k) + r, k)[..w]
    ensures Shr(First(ls, b) + i, b - w) == Shr(First(ls, k) + r, k - w)
  {
    hide First, Count, Shr, Shl;
    SpareBelow(ls, k, g);
    SpareBelow(ls, b, g);
    SpareIs(ls, k);
    SpareIs(ls, b);
    BitsPrefix(First(ls, b) + i, w, b);
    BitsPrefix(First(ls, k) + r, w, k);
    ShrBound(First(ls, b) + i, b - w, w);
    ShrBound(First(ls, k) + r, k - w, w);
    BitsInjective(Shr(First(ls, b) + i, b - w), Shr(First(ls, k) + r, k - w), w);
  }

  /** A number that goes on with zeros is its high part shifted. */
  lemma {:induction false} ZeroTail(n: nat, k: nat, w: nat)
    requires w <= k && ZeroFrom(BitsOf(n, k), w)
    ensures n == Shl(Shr(n, k - w), k - w)
  {
    hide Shr, Shl, Low, BitsOf, Value;
    BitsSplit(n, w, k - w);
    HighLow(n, k - w);
    var t := BitsOf(Low(n, k - w), k - w);
    forall y | 0 <= y < |t| ensures !t[y] { assert t[y] == BitsOf(n, k)[w + y]; }
    ValueZero(t);
    ValueOfBits(Low(n, k - w), k - w);
    LowLow(n, k - w, k - w);
  }

  lemma {:induction false} ValueZero(s: seq<bool>)
    requires forall y :: 0 <= y < |s| ==> !s[y]
    ensures Value(s) == 0
  {
    if s != [] { ValueZero(s[..|s| - 1]); }
  }
}
