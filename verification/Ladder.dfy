/** The codes of a complete canonical set in order: each is the binary successor of the one
    before, filled up with zeros.  huft_build of archive/gzip/inflate.c meets them so. */
module Ladder {
  import opened BitString
  import opened Canonical

  /** a and b part at bit x, where a goes to 0 and b to 1. */
  ghost predicate DiffAt(a: seq<bool>, b: seq<bool>, x: nat) {
    x < |a| && x < |b| && a[..x] == b[..x] && !a[x] && b[x]
  }

  ghost predicate Less(a: seq<bool>, b: seq<bool>) { exists x: nat :: DiffAt(a, b, x) }

  ghost predicate ZeroFrom(b: seq<bool>, x: nat) { forall y :: x <= y < |b| ==> !b[y] }

  ghost predicate OneFrom(a: seq<bool>, x: nat) { forall y :: x <= y < |a| ==> a[y] }

  /** After the bit where they part, a is one and b is zero. */
  ghost predicate NextAt(a: seq<bool>, b: seq<bool>, x: nat) {
    DiffAt(a, b, x) && OneFrom(a, x + 1) && ZeroFrom(b, x + 1)
  }

  /** b is the successor of a, filled up with zeros. */
  ghost predicate Next(a: seq<bool>, b: seq<bool>) {
    |a| <= |b| && exists x: nat :: NextAt(a, b, x)
  }

  ghost predicate IsLadder(cs: seq<seq<bool>>) {
    && (cs != [] ==> |cs[0]| >= 1 && ZeroFrom(cs[0], 0))
    && forall p :: 1 <= p < |cs| ==> Next(cs[p - 1], cs[p])
  }

  // ------------------------------------------------------------------- order

  lemma {:induction false} LessTrans(a: seq<bool>, b: seq<bool>, c: seq<bool>)
    requires Less(a, b) && Less(b, c)
    ensures Less(a, c)
  {
    var x: nat :| DiffAt(a, b, x);
    var y: nat :| DiffAt(b, c, y);
    if x < y {
      assert a[..x] == c[..x] by { assert b[..x] == b[..y][..x] && c[..x] == c[..y][..x]; }
      assert c[x] == c[..y][x] && b[x] == b[..y][x];
      assert DiffAt(a, c, x);
    } else {
      assert a[..y] == c[..y] by { assert a[..y] == a[..x][..y] && b[..y] == b[..x][..y]; }
      assert x > y ==> a[y] == a[..x][y] && b[y] == b[..x][y];
      assert DiffAt(a, c, y);
    }
  }

  lemma {:induction false} LessApart(a: seq<bool>, b: seq<bool>)
    requires Less(a, b)
    ensures !(a <= b) && !(b <= a)
  {
    var x: nat :| DiffAt(a, b, x);
  }

  lemma {:induction false} NextLess(cs: seq<seq<bool>>, p: nat)
    requires IsLadder(cs) && 1 <= p < |cs|
    ensures Less(cs[p - 1], cs[p]) && |cs[p - 1]| <= |cs[p]|
  {
    assert Next(cs[p - 1], cs[p]);
    var x: nat :| NextAt(cs[p - 1], cs[p], x);
    assert DiffAt(cs[p - 1], cs[p], x);
  }

  lemma {:induction false} LadderLess(cs: seq<seq<bool>>, q: nat, p: nat)
    requires IsLadder(cs) && q < p < |cs|
    ensures Less(cs[q], cs[p]) && |cs[q]| <= |cs[p]|
    decreases p
  {
    NextLess(cs, p);
    if q < p - 1 {
      LadderLess(cs, q, p - 1);
      LessTrans(cs[q], cs[p - 1], cs[p]);
    }
  }

  lemma {:induction false} LadderLong(cs: seq<seq<bool>>, q: nat)
    requires IsLadder(cs) && q < |cs|
    ensures |cs[q]| >= 1
  {
    if q > 0 { LadderLess(cs, 0, q); }
  }

  /** No code of a ladder starts another. */
  lemma {:induction false} LadderApart(cs: seq<seq<bool>>, q: nat, p: nat)
    requires IsLadder(cs) && q < |cs| && p < |cs| && q != p
    ensures !(cs[q] <= cs[p])
  {
    if q < p {
      LadderLess(cs, q, p);
      LessApart(cs[q], cs[p]);
    } else {
      LadderLess(cs, p, q);
      LessApart(cs[p], cs[q]);
    }
  }

  /** Two codes that start the same stream are one. */
  lemma {:induction false} OneCode(cs: seq<seq<bool>>, q: nat, p: nat, s: seq<bool>)
    requires IsLadder(cs) && q < |cs| && p < |cs| && cs[q] <= s && cs[p] <= s
    ensures q == p
  {
    Nest(cs[q], cs[p], s);
    if q != p {
      LadderApart(cs, q, p);
      LadderApart(cs, p, q);
    }
  }

  lemma {:induction false} Nest(a: seq<bool>, b: seq<bool>, s: seq<bool>)
    requires a <= s && b <= s
    ensures a <= b || b <= a
  {
    assert a == s[..|a|] && b == s[..|b|];
    if |a| <= |b| {
      assert s[..|a|] == s[..|b|][..|a|];
    } else {
      assert s[..|b|] == s[..|a|][..|b|];
    }
  }

  /** What is between two strings that start alike starts like them. */
  lemma {:induction false} Between(a: seq<bool>, b: seq<bool>, c: seq<bool>, w: nat)
    requires Less(a, b) && Less(b, c) && w <= |a| && w <= |b| && w <= |c| && a[..w] == c[..w]
    ensures b[..w] == c[..w]
  {
    var x: nat :| DiffAt(a, b, x);
    var y: nat :| DiffAt(b, c, y);
    StartAlike(a, c, w, x);
    StartAlike(a, c, w, y);
    StartAlike(b, c, y, x);
    StartAlike(a, b, x, y);
    assert y >= w;
    assert b[..w] == b[..y][..w] && c[..w] == c[..y][..w];
  }

  lemma {:induction false} StartAlike(a: seq<bool>, b: seq<bool>, w: nat, y: nat)
    requires w <= |a| && w <= |b| && a[..w] == b[..w]
    ensures y < w ==> a[y] == b[y]
  {
    if y < w { assert a[y] == a[..w][y]; }
  }

  /** If an earlier code starts like code p, so does the one right before p. */
  lemma {:induction false} Neighbour(cs: seq<seq<bool>>, q: nat, p: nat, w: nat)
    requires IsLadder(cs) && q < p < |cs| && w <= |cs[q]| && w <= |cs[p]| && cs[q][..w] == cs[p][..w]
    ensures w <= |cs[p - 1]| && cs[p - 1][..w] == cs[p][..w]
  {
    if q < p - 1 {
      LadderLess(cs, q, p - 1);
      LadderLess(cs, p - 1, p);
      Between(cs[q], cs[p - 1], cs[p], w);
    }
  }

  /** Where code p and the one before it part within w bits, the rest of code p is zero. */
  lemma {:induction false} ZeroAfter(cs: seq<seq<bool>>, p: nat, w: nat)
    requires IsLadder(cs) && p < |cs| && w <= |cs[p]|
    requires p > 0 ==> w > |cs[p - 1]| || cs[p - 1][..w] != cs[p][..w]
    ensures ZeroFrom(cs[p], w)
  {
    if p > 0 {
      assert Next(cs[p - 1], cs[p]);
      var x: nat :| NextAt(cs[p - 1], cs[p], x);
      assert x < w;
    }
  }

  // ------------------------------------------------- the canonical codes in order

  /** The codes of fewer than k bits, then r of k bits. */
  function Codes(ls: seq<nat>, k: nat, r: nat): (cs: seq<seq<bool>>)
    decreases k, r
  {
    if k == 0 then []
    else if r == 0 then Codes(ls, k - 1, Count(ls, k - 1))
    else Codes(ls, k, r - 1) + [BitsOf(First(ls, k) + r - 1, k)]
  }

  /** Where codes of k bits start in the order. */
  function Base(ls: seq<nat>, k: nat): nat {
    if k <= 1 then 0 else Base(ls, k - 1) + Count(ls, k - 1)
  }

  lemma {:induction false} CodesSize(ls: seq<nat>, k: nat, r: nat)
    requires k >= 1
    ensures |Codes(ls, k, r)| == Base(ls, k) + r
    decreases k, r
  {
    if r > 0 {
      CodesSize(ls, k, r - 1);
    } else if k > 1 {
      CodesSize(ls, k - 1, Count(ls, k - 1));
    } else {
      assert Codes(ls, 0, Count(ls, 0)) == [];
    }
  }

  /** Longer lists start with shorter ones. */
  lemma {:induction false} CodesGrow(ls: seq<nat>, k: nat, r: nat, m: nat, n: nat)
    requires 1 <= k && (k < m || (k == m && r <= n)) && (k < m ==> r <= Count(ls, k))
    ensures Codes(ls, k, r) <= Codes(ls, m, n)
    decreases m, n
  {
    if k == m && r == n {
    } else if n > 0 {
      CodesGrow(ls, k, r, m, n - 1);
    } else {
      CodesGrow(ls, k, r, m - 1, Count(ls, m - 1));
    }
  }

  /** Code r of k bits. */
  lemma {:induction false} CodesAt(ls: seq<nat>, k: nat, r: nat, m: nat, n: nat)
    requires 1 <= k && r < Count(ls, k) && (k < m || (k == m && r < n))
    ensures var p := Base(ls, k) + r; p < |Codes(ls, m, n)| && Codes(ls, m, n)[p] == BitsOf(First(ls, k) + r, k)
  {
    CodesGrow(ls, k, r + 1, m, n);
    CodesSize(ls, k, r + 1);
    CodesSize(ls, k, r);
    assert Codes(ls, k, r + 1) == Codes(ls, k, r) + [BitsOf(First(ls, k) + r, k)];
  }

  lemma {:induction false} NextSnoc(a: seq<bool>, b: seq<bool>, x: nat)
    requires NextAt(a, b, x)
    ensures NextAt(a, b + [false], x) && NextAt(a + [true], b + [false], x)
  {
    assert (b + [false])[..x] == b[..x] && (a + [true])[..x] == a[..x];
  }

  /** n and n + 1, written with k bits. */
  lemma {:induction false} NextNumber(n: nat, k: nat)
    requires n + 1 < Pow2(k)
    ensures Next(BitsOf(n, k), BitsOf(n + 1, k))
  {
    var a, b := BitsOf(n, k), BitsOf(n + 1, k);
    var h := BitsOf(n / 2, k - 1);
    if n % 2 == 0 {
      assert (n + 1) / 2 == n / 2;
      assert a == h + [false] && b == h + [true];
      assert a[..k - 1] == h && b[..k - 1] == h;
      assert NextAt(a, b, k - 1);
    } else {
      assert (n + 1) / 2 == n / 2 + 1;
      NextNumber(n / 2, k - 1);
      var h' := BitsOf(n / 2 + 1, k - 1);
      var x: nat :| NextAt(h, h', x);
      NextSnoc(h, h', x);
      assert a == h + [true] && b == h' + [false];
    }
  }

  lemma {:induction false} NextPadded(n: nat, k: nat, d: nat)
    requires n + 1 < Pow2(k)
    ensures Next(BitsOf(n, k), BitsOf(Shl(n + 1, d), k + d))
  {
    NextNumber(n, k);
    if d > 0 {
      NextPadded(n, k, d - 1);
      var a, b := BitsOf(n, k), BitsOf(Shl(n + 1, d - 1), k + (d - 1));
      var x: nat :| NextAt(a, b, x);
      NextSnoc(a, b, x);
      assert Shl(n + 1, d) / 2 == Shl(n + 1, d - 1) && Shl(n + 1, d) % 2 == 0;
      assert BitsOf(Shl(n + 1, d), k + d) == b + [false];
    }
  }

  /** n of k bits is the first number that no code listed starts. */
  ghost predicate EndsBy(cs: seq<seq<bool>>, n: nat, k: nat, m: nat, d: nat) {
    cs != [] && d <= k && cs[|cs| - 1] == BitsOf(m, k - d) && m < Pow2(k - d) && n == Shl(m + 1, d)
  }

  ghost predicate Ends(cs: seq<seq<bool>>, n: nat, k: nat) {
    if cs == [] then n == 0 else exists m: nat, d: nat :: EndsBy(cs, n, k, m, d)
  }

  lemma {:induction false} EndsAt(ls: seq<nat>, k: nat, r: nat)
    requires k >= 1 && First(ls, k) + r <= Pow2(k)
    ensures Ends(Codes(ls, k, r), First(ls, k) + r, k)
    decreases k, r
  {
    var cs := Codes(ls, k, r);
    if r > 0 {
      var m := First(ls, k) + r - 1;
      assert EndsBy(cs, m + 1, k, m, 0);
    } else if k > 1 {
      var c := Count(ls, k - 1);
      EndsAt(ls, k - 1, c);
      EndsShift(cs, First(ls, k - 1) + c, k - 1);
    } else {
      assert Codes(ls, 0, Count(ls, 0)) == [];
    }
  }

  lemma {:induction false} EndsShift(cs: seq<seq<bool>>, n: nat, k: nat)
    requires Ends(cs, n, k)
    ensures Ends(cs, 2 * n, k + 1)
  {
    if cs != [] {
      var m: nat, d: nat :| EndsBy(cs, n, k, m, d);
      assert EndsBy(cs, 2 * n, k + 1, m, d + 1);
    }
  }

  /** The next code goes on where the list ends. */
  lemma {:induction false} EndsNext(cs: seq<seq<bool>>, n: nat, k: nat)
    requires Ends(cs, n, k) && n < Pow2(k) && k >= 1 && IsLadder(cs)
    ensures IsLadder(cs + [BitsOf(n, k)])
  {
    if cs == [] {
      ZeroCode(k);
    } else {
      var m: nat, d: nat :| EndsBy(cs, n, k, m, d);
      ShlLess(m + 1, d, k - d);
      NextPadded(m, k - d, d);
    }
    LadderSnoc(cs, BitsOf(n, k));
  }

  lemma {:induction false} ZeroCode(k: nat)
    ensures ZeroFrom(BitsOf(0, k), 0)
  {
    if k > 0 { ZeroCode(k - 1); }
  }

  /** The codes of a set that is not oversubscribed climb a ladder. */
  lemma {:induction false} CodesLadder(ls: seq<nat>, k: nat, r: nat)
    requires k >= 1 && r <= Count(ls, k) && Spare(ls, k) >= 0
    ensures IsLadder(Codes(ls, k, r))
    decreases k, r
  {
    if r > 0 {
      SpareIs(ls, k);
      CodesLadder(ls, k, r - 1);
      EndsAt(ls, k, r - 1);
      EndsNext(Codes(ls, k, r - 1), First(ls, k) + r - 1, k);
    } else if k > 1 {
      SpareBelow(ls, k - 1, k);
      CodesLadder(ls, k - 1, Count(ls, k - 1));
    } else {
      assert Codes(ls, 0, Count(ls, 0)) == [];
    }
  }

  lemma {:induction false} LadderSnoc(cs: seq<seq<bool>>, c: seq<bool>)
    requires IsLadder(cs)
    requires if cs == [] then |c| >= 1 && ZeroFrom(c, 0) else Next(cs[|cs| - 1], c)
    ensures IsLadder(cs + [c])
  {
    var ds := cs + [c];
    forall p | 1 <= p < |ds| ensures Next(ds[p - 1], ds[p]) {
      if p < |cs| { assert Next(cs[p - 1], cs[p]); }
    }
  }

  lemma {:induction false} ShlLess(a: nat, d: nat, j: nat)
    requires Shl(a, d) < Pow2(d + j)
    ensures a < Pow2(j)
  {
    if d > 0 { ShlLess(a, d - 1, j); }
  }

  /** Which code stands at place q. */
  lemma {:induction false} CodeAtPlace(ls: seq<nat>, k: nat, r: nat, q: nat) returns (b: nat, i: nat)
    requires k >= 1 && q < |Codes(ls, k, r)| && r <= Count(ls, k)
    ensures 1 <= b <= k && i < Count(ls, b) && q == Base(ls, b) + i && Codes(ls, k, r)[q] == BitsOf(First(ls, b) + i, b)
    decreases k, r
  {
    hide First, BitsOf, Base, Count;
    CodesSize(ls, k, r);
    if r > 0 {
      if q == Base(ls, k) + r - 1 {
        b, i := k, r - 1;
        CodesSize(ls, k, r - 1);
      } else {
        CodesSize(ls, k, r - 1);
        b, i := CodeAtPlace(ls, k, r - 1, q);
      }
    } else {
      assert k > 1 by { assert Codes(ls, 0, Count(ls, 0)) == []; }
      b, i := CodeAtPlace(ls, k - 1, Count(ls, k - 1), q);
    }
  }
}
