/** When the tables of huft_build in archive/gzip/inflate.c are right.

    The loop that sizes a table starts with j = k - w and tests ++j < z.  A table after the
    first one whose shortest code has w + l bits or more comes out with more than l bits; if
    longer codes go on from it, they are linked at one entry where many lead to them.  The
    first table is looked at with l bits whatever its size.  So everything hangs on how many
    patterns of w + l - 1 bits are left over where a table level ends. */
module HuftSound {
  import opened BitString
  import opened GzipBits
  import opened Canonical
  import opened Ladder
  import opened HuftTables
  import opened HuftWalk
  import opened HuftSize

  /** No level of tables after the first, from w bits on, is left with 2^(l-1) patterns of
      w + l - 1 bits when codes longer than w + l bits are to come. */
  ghost predicate Sound(ls: seq<nat>, l: nat, g: nat) {
    forall w: nat :: LevelStarts(w, l, g) ==> Spare(ls, w + l - 1) < Pow2(l - 1)
  }

  predicate LevelStarts(w: nat, l: nat, g: nat) { l >= 1 && l <= w && w % l == 0 && w + l < g }

  ghost predicate Coded(ls: seq<nat>, max: nat, cs: seq<seq<bool>>) {
    1 <= max && Complete(ls, max) && cs == Codes(ls, max, Count(ls, max)) && IsLadder(cs)
  }

  // ---------------------------------------------------------------- sufficient

  /** A code that starts a subtree after w bits with zeros up to its end, and no shorter than
      b bits, leaves the numbers of b - 1 bits under it unused. */
  lemma {:induction false} LateStart(ls: seq<nat>, k: nat, n: nat, w: nat, b: nat)
    requires 1 <= w < b <= k && n >= First(ls, k) && n < Pow2(k) && n == Shl(Shr(n, k - w), k - w)
    ensures Used(ls, b - 1) + Pow2(b - 1 - w) <= Pow2(b - 1)
  {
    hide First, Count, Shl, Shr;
    var c, p := b - 1, Shr(n, k - w);
    var d := k - c;
    ShrBound(n, k - w, w);
    FirstGrows(ls, c, d);
    ShrMonotone(n, Used(ls, c), d);
    ShlShl(p, c - w, d);
    ShlSplit(Shl(p, c - w), 0, d);
    ShlMonotone(p + 1, Pow2(w), c - w);
    ShlAdd(p, 1, c - w);
    ShlPow2(c - w);
    PowJoin(w, c - w);
  }

  lemma {:induction false} PowJoin(a: nat, b: nat)
    ensures Shl(Pow2(a), b) == Pow2(a + b)
  {
    if b > 0 { PowJoin(a, b - 1); }
  }

  lemma {:induction false} StraightIf(ls: seq<nat>, max: nat, cs: seq<seq<bool>>, ops: seq<(nat, nat)>, g: Made, l: nat,
                                      t: nat, q: nat)
    requires Coded(ls, max, cs) && Finished(g, l, cs, ops, max) && Sound(ls, l, max)
    requires 1 <= t < |g.tabs| == |g.pre| == |g.jb| && q < |cs| && g.pre[t] <= cs[q] && |cs[q]| > |g.pre[t]| + l
    ensures g.jb[t] == l
  {
    hide First, Count, Codes, Base, BitsOf, Entries, AllRooted, Shl, Shr, Pow2;
    SizeAt(g, l, cs, ops, max, t, q);
    ShapeSize(g, l, cs, |cs|);
    ShapeAt(g, l, cs, |cs|, t);
    var w, p := |g.pre[t]|, g.born[t];
    var k, r := CodeAtPlace(ls, max, Count(ls, max), p);
    var b, i := CodeAtPlace(ls, max, Count(ls, max), q);
    LevelMultiple(w, l);
    assert LevelStarts(w, l, max);
    if k >= w + l {
      var n := First(ls, k) + r;
      SpareBelow(ls, k, max);
      SpareIs(ls, k);
      ZeroTail(n, k, w);
      LateStart(ls, k, n, w, w + l);
      SpareIs(ls, w + l - 1);
    }
  }

  lemma {:induction false} LevelMultiple(w: nat, l: nat)
    requires l >= 1 && w % l == 0 && w > 0
    ensures w >= l
  {
    NextMultiple(0, w, l);
  }

  // ----------------------------------------------------------------- necessary

  ghost predicate AllOnes(s: seq<bool>) { OneFrom(s, 0) }

  /** The last code of a complete set is all ones. */
  lemma {:induction false} LastCode(ls: seq<nat>, max: nat, cs: seq<seq<bool>>)
    requires Coded(ls, max, cs) && Count(ls, max) >= 1
    ensures cs != [] && |cs[|cs| - 1]| == max && AllOnes(cs[|cs| - 1])
  {
    hide First, Codes, Base, BitsOf;
    SpareIs(ls, max);
    CodesAt(ls, max, Count(ls, max) - 1, max, Count(ls, max));
    CodesSize(ls, max, Count(ls, max));
    OnesCode(max);
  }

  lemma {:induction false} OnesCode(k: nat)
    ensures AllOnes(BitsOf(Pow2(k) - 1, k))
  {
    if k > 0 {
      OnesCode(k - 1);
      assert (Pow2(k) - 1) / 2 == Pow2(k - 1) - 1;
    }
  }

  /** A code that starts with w ones and is shorter than b bits leaves fewer than 2^(b-1-w)
      patterns of b - 1 bits. */
  lemma {:induction false} EarlyStart(ls: seq<nat>, k: nat, r: nat, w: nat, b: nat)
    requires 1 <= w < k < b && r < Count(ls, k) && First(ls, k) + r < Pow2(k)
    requires Shr(First(ls, k) + r, k - w) + 1 == Pow2(w)
    ensures Used(ls, b - 1) + Pow2(b - 1 - w) > Pow2(b - 1)
  {
    hide First, Count, Shl, Shr;
    var n, c := First(ls, k) + r, b - 1;
    HighLow(n, k - w);
    var p := Shr(n, k - w);
    ShlAdd(p, 1, k - w);
    PowJoin(w, k - w);
    ShlPow2(k - w);
    assert n + 1 + Pow2(k - w) > Pow2(k);
    UsedGrows(ls, k, c);
    ShlMonotone(n + 1, Used(ls, k), c - k);
    ShlMonotone(Pow2(k) + 1, n + 1 + Pow2(k - w), c - k);
    ShlAdd(n + 1, Pow2(k - w), c - k);
    ShlAdd(Pow2(k), 1, c - k);
    PowJoin(k, c - k);
    PowJoin(k - w, c - k);
    ShlPow2(c - k);
  }

  lemma {:induction false} UsedGrows(ls: seq<nat>, k: nat, c: nat)
    requires 1 <= k <= c
    ensures Used(ls, c) >= Shl(Used(ls, k), c - k)
  {
    if k < c {
      UsedGrows(ls, k, c - 1);
      UsedNext(ls, c - 1);
    }
  }

  /** Where the condition fails there is a table that is too big for its links. */
  lemma {:induction false} TooBig(ls: seq<nat>, max: nat, cs: seq<seq<bool>>, ops: seq<(nat, nat)>, g: Made, l: nat,
                                  w: nat)
    returns (t: nat)
    requires Coded(ls, max, cs) && Finished(g, l, cs, ops, max) && Count(ls, max) >= 1
    requires LevelStarts(w, l, max) && Spare(ls, w + l - 1) >= Pow2(l - 1)
    ensures 1 <= t < |g.tabs| == |g.pre| == |g.jb| && g.jb[t] > l && |g.pre[t]| == w && g.pre[t] <= cs[|cs| - 1]
  {
    hide First, Count, Codes, Base, BitsOf, Entries, Shl, Shr, Pow2, Spare, Coded;
    LastCode(ls, max, cs);
    var q := |cs| - 1;
    ShapeSize(g, l, cs, |cs|);
    assert Rooted(g, l, cs, q) && HasTable(g, cs[q][..w]);
    t :| 0 <= t < |g.pre| && g.pre[t] == cs[q][..w];
    RootEmpty(g, l, cs, |cs|);
    SizeAt(g, l, cs, ops, max, t, q);
    ShapeAt(g, l, cs, |cs|, t);
    NoShortCode(ls, max, cs, g.born[t], l, w);
  }

  /** A code that starts as the last one does is long, where much is spare. */
  lemma {:induction false} NoShortCode(ls: seq<nat>, max: nat, cs: seq<seq<bool>>, p: nat, l: nat, w: nat)
    requires Coded(ls, max, cs) && Count(ls, max) >= 1 && p < |cs| && 1 <= w < max && w < |cs[p]|
    requires cs[p][..w] == cs[|cs| - 1][..w]
    requires l >= 1 && Spare(ls, w + l - 1) >= Pow2(l - 1)
    ensures |cs[p]| >= w + l
  {
    hide First, Count, Codes, Base, BitsOf, Entries, Shl, Shr, Pow2;
    var k, r := CodeAtPlace(ls, max, Count(ls, max), p);
    if k < w + l {
      OnesPrefix(ls, max, cs, k, r, p, w);
      SpareBelow(ls, k, max);
      SpareIs(ls, k);
      EarlyStart(ls, k, r, w, w + l);
      SpareIs(ls, w + l - 1);
    }
  }

  lemma {:induction false} OnesPrefix(ls: seq<nat>, max: nat, cs: seq<seq<bool>>, k: nat, r: nat, p: nat, w: nat)
    requires Coded(ls, max, cs) && Count(ls, max) >= 1 && p < |cs| && w < k <= max && r < Count(ls, k)
    requires cs[p] == BitsOf(First(ls, k) + r, k) && w < max && cs[p][..w] == cs[|cs| - 1][..w]
    ensures Shr(First(ls, k) + r, k - w) + 1 == Pow2(w)
  {
    hide First, Count, Codes, Base, BitsOf, Shr;
    LastCode(ls, max, cs);
    OnesCode(w);
    BitsPrefix(First(ls, k) + r, w, k);
    var a, b := BitsOf(Shr(First(ls, k) + r, k - w), w), BitsOf(Pow2(w) - 1, w);
    forall y | 0 <= y < w ensures a[y] == b[y] { assert a[y] == cs[|cs| - 1][..w][y]; }
    assert a == b;
    SpareBelow(ls, k, max);
    SpareIs(ls, k);
    ShrBound(First(ls, k) + r, k - w, w);
    BitsInjective(Shr(First(ls, k) + r, k - w), Pow2(w) - 1, w);
  }

  /** Looking up a code of ones misses at a table that is too big for it. */
  lemma {:induction false} MissHere(g: Made, l: nat, cs: seq<seq<bool>>, ops: seq<(nat, nat)>, max: nat, q: nat, t: nat,
                                    s: seq<bool>)
    requires Finished(g, l, cs, ops, max) && 1 <= t < |g.tabs| == |g.pre| == |g.jb| && q < |cs|
    requires g.pre[t] <= cs[q] && |cs[q]| > |g.pre[t]| + l && AllOnes(cs[q]) && g.jb[t] > l && cs[q][|g.pre[t]|..] <= s
    ensures Walk(g.tabs, t, g.jb[t], s) == Miss
  {
    hide Entries, AllRooted, AllSizes, Shape, Lsb, Rev, Pow2, OnePrefix, EntryOk, Path;
    var w, j := |g.pre[t]|, g.jb[t];
    if j <= |s| {
      EntryAt(g, t, j, s, l, cs, |cs|);
      var x := Rev(s[..j]);
      var path := Path(g, t, x);
      assert path[..w + l] == cs[q][..w + l] by {
        assert path == g.pre[t] + s[..j];
        assert path[..w + l] == g.pre[t] + s[..l] && s[..l] == cs[q][w..][..l];
        assert cs[q][..w + l] == cs[q][..w] + cs[q][w..][..l];
      }
      EntryFact(g, l, cs, ops, t, x);
      BigIndex(s[..j], l);
      assert s[..j][l] == cs[q][w + l];
      forall p: nat | p < |cs| ensures !EndsAtEntry(g, l, cs, p, t, x) {
        if EndsAtEntry(g, l, cs, p, t, x) {
          Shorter(path, path, |path|, w + l);
          assert cs[p] == path[..w + l][..|cs[p]|] == cs[q][..w + l][..|cs[p]|];
          LadderApart(cs, p, q);
        }
      }
    }
  }

  /** A one after the first l bits makes the index 2^l or more. */
  lemma {:induction false} BigIndex(s: seq<bool>, l: nat)
    requires l < |s| && s[l]
    ensures Rev(s) >= Pow2(l)
  {
    if l > 0 {
      BigIndex(s[1..], l - 1);
    }
  }

  lemma {:induction false} MissBelow(g: Made, l: nat, cs: seq<seq<bool>>, ops: seq<(nat, nat)>, max: nat, q: nat,
                                     t: nat, b: nat, s: seq<bool>)
    requires Finished(g, l, cs, ops, max) && t < |g.tabs| == |g.pre| == |g.jb| && 1 <= b < |g.tabs| && q < |cs|
    requires g.jb[b] > l && g.pre[b] <= cs[q] && |cs[q]| > |g.pre[b]| + l && AllOnes(cs[q])
    requires g.pre[t] <= g.pre[b] && cs[q][|g.pre[t]|..] <= s
    ensures Walk(g.tabs, t, Looked(g, l, t), s) == Miss
    decreases |g.pre[b]| - |g.pre[t]|
  {
    hide Entries, AllRooted, IsLadder, AllSizes, Shape, Lsb, Rev, Pow2, EntryOk, Path, HasTable, AllOnes;
    SizeAt(g, l, cs, ops, max, t, q);
    if t >= 1 && g.jb[t] != l {
      MissHere(g, l, cs, ops, max, q, t, s);
    } else {
      Above(g, l, cs, ops, max, q, t, b);
      var w := |g.pre[t]|;
      var u := GoesOn(g, l, cs, ops, max, q, t, s);
      assert cs[q][w + l..] == cs[q][w..][l..];
      assert cs[q][w + l..] <= s[l..];
      assert g.pre[u] == g.pre[b][..w + l];
      MissBelow(g, l, cs, ops, max, q, u, b, s[l..]);
    }
  }

  /** A straight table on the way to b lies a level above it. */
  lemma {:induction false} Above(g: Made, l: nat, cs: seq<seq<bool>>, ops: seq<(nat, nat)>, max: nat, q: nat, t: nat,
                                 b: nat)
    requires Finished(g, l, cs, ops, max) && t < |g.tabs| == |g.pre| == |g.jb| && 1 <= b < |g.tabs| && q < |cs|
    requires g.jb[b] > l && g.pre[b] <= cs[q] && g.pre[t] <= g.pre[b] && (t >= 1 ==> g.jb[t] == l)
    ensures l >= 1 && |g.pre[t]| + l <= |g.pre[b]| && l <= g.jb[t]
  {
    hide Entries, AllRooted, IsLadder, Lsb, Rev, Pow2, EntryOk, Path, HasTable;
    ShapeSize(g, l, cs, |cs|);
    ShapeAt(g, l, cs, |cs|, t);
    ShapeAt(g, l, cs, |cs|, b);
    RootEmpty(g, l, cs, |cs|);
    if |g.pre[t]| < |g.pre[b]| { NextMultiple(|g.pre[t]|, |g.pre[b]|, l); }
  }
}
