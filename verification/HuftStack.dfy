/** The table stack of huft_build in archive/gzip/inflate.c: the tables on the way of the code
    at hand, made as they are needed and left when the code moves on. */
module HuftStack {
  import opened BitString
  import opened GzipBits
  import opened Ladder
  import opened HuftTables
  import opened HuftWalk

  /** The levels: their tables u, the patterns x before them and the bits wd before them. */
  ghost predicate LevelOk(g: Made, l: nat, s: seq<bool>, u: seq<nat>, x: seq<nat>, wd: seq<nat>, h: nat)
    requires h < |u| == |x| == |wd| && l >= 1
  {
    && u[h] < |g.pre| && wd[h] < |s| && wd[h] % l == 0 && g.pre[u[h]] == s[..wd[h]] && x[h] == Rev(s[..wd[h]])
    && wd[h] == (if h == 0 then 0 else wd[h - 1] + l) && h <= wd[h]
  }

  ghost predicate Stack(g: Made, l: nat, s: seq<bool>, u: seq<nat>, x: seq<nat>, wd: seq<nat>) {
    l >= 1 && |u| == |x| == |wd| && forall h :: 0 <= h < |u| ==> LevelOk(g, l, s, u, x, wd, h)
  }

  function Depth(l: nat, wd: seq<nat>): int { if wd == [] then 0 - l else wd[|wd| - 1] }

  /** Before code p: its tables as far as they are made. */
  ghost predicate Standing(g: Made, l: nat, cs: seq<seq<bool>>, ops: seq<(nat, nat)>, max: nat, p: nat, top: nat,
                           u: seq<nat>, x: seq<nat>, wd: seq<nat>)
  {
    && p < |cs| && Built(g, l, cs, ops, p, top) && AllSizes(g, l, cs, max)
    && Stack(g, l, cs[p], u, x, wd)
    && (if u == [] then g.tabs == [] else Fresh(g, cs[p], wd[|wd| - 1]))
    && Depth(l, wd) + l >= 0 && ZeroFrom(cs[p], Depth(l, wd) + l)
  }

  lemma {:induction false} TopMore(g: Made, l: nat, cs: seq<seq<bool>>, ops: seq<(nat, nat)>, p: nat)
    requires Built(g, l, cs, ops, p, p) && p < |cs|
    ensures Built(g, l, cs, ops, p, p + 1)
  {
    hide IsLadder, AllRooted, Entries;
    var top := p + 1;
    forall t | 0 <= t < |g.tabs| ensures TableOk(g, l, cs, top, t) {
      assert TableOk(g, l, cs, p, t);
    }
  }

  lemma {:induction false} SizesGrown(g: Made, l: nat, cs: seq<seq<bool>>, max: nat, p: nat, s: seq<bool>, j: nat,
                                      t: nat, x: nat)
    requires AllSizes(g, l, cs, max) && p < |cs| && (s != [] ==> t < |g.tabs| && x < |g.tabs[t]|)
    requires |s| + j <= max + 1 && (|cs[p]| <= |s| + l ==> j <= l + 1)
    requires forall q: nat :: q < |cs| && s <= cs[q] ==> NewFits(l, cs, |s|, j, p, q)
    ensures AllSizes(Grown(g, l, p, s, j, t, x), l, cs, max)
  {
    hide Pow2;
    var h := Grown(g, l, p, s, j, t, x);
    forall u | 0 <= u < |h.tabs| ensures h.born[u] < |cs| && SizeOk(h, l, cs, max, u) {
      if u < |g.tabs| {
        assert SizeOk(g, l, cs, max, u);
        forall q: nat | q < |cs| && h.pre[u] <= cs[q] ensures CodeFitsTable(h, l, cs, u, q) {
          assert CodeFitsTable(g, l, cs, u, q);
        }
      } else {
        forall q: nat | q < |cs| && h.pre[u] <= cs[q] ensures CodeFitsTable(h, l, cs, u, q) {
          assert NewFits(l, cs, |s|, j, p, q);
        }
      }
    }
  }

  ghost predicate NewFits(l: nat, cs: seq<seq<bool>>, w: nat, j: nat, p: nat, q: nat)
    requires p < |cs| && q < |cs|
  {
    if |cs[q]| <= w + l then |cs[q]| <= w + j else if |cs[p]| < w + l then j == l else j > l
  }

  /** Where the next table of code p is linked: its number, or where there is none the first. */
  lemma {:induction false} LinkPlace(g: Made, l: nat, cs: seq<seq<bool>>, ops: seq<(nat, nat)>, max: nat, p: nat,
                                     u: seq<nat>, x: seq<nat>, wd: seq<nat>, j: nat)
    requires Standing(g, l, cs, ops, max, p, p + 1, u, x, wd) && Depth(l, wd) + l < |cs[p]|
    ensures var w := Depth(l, wd); var s := cs[p][..w + l];
      if u == [] then s == [] && CanGrow(g, l, cs, p, s, j, 0, 0)
      else w >= 0 && Shr(Rev(cs[p]), w) < Pow2(l) && CanGrow(g, l, cs, p, s, j, u[|u| - 1], Shr(Rev(cs[p]), w))
  {
    hide Rev, Lsb, Shr, Pow2, IsLadder, AllRooted, Entries, OnePrefix;
    var w := Depth(l, wd);
    var s := cs[p][..w + l];
    ShapeSize(g, l, cs, p + 1);
    if u == [] {
      assert w + l == 0 && 0 % l == 0;
    } else {
      var h := |u| - 1;
      assert LevelOk(g, l, cs[p], u, x, wd, h);
      var t := u[h];
      var tail := cs[p][w..];
      RevParts(cs[p], w);
      RevHead(tail, l);
      assert tail[..l] == s[w..];
      RevLsb(tail[..l]);
      MultipleMore(w, l);
      LongTable(g, l, cs, max, t, p);
      ShapeAt(g, l, cs, p + 1, t);
      Pow2Monotone(l, g.jb[t]);
      assert !HasTable(g, s);
    }
  }

  lemma {:induction false} LongTable(g: Made, l: nat, cs: seq<seq<bool>>, max: nat, t: nat, p: nat)
    requires AllSizes(g, l, cs, max) && t < |g.tabs| == |g.pre| == |g.jb| && p < |cs| && g.pre[t] <= cs[p]
    requires |cs[p]| > |g.pre[t]| + l
    ensures g.jb[t] >= l
  {
    assert SizeOk(g, l, cs, max, t);
    assert CodeFitsTable(g, l, cs, t, p);
  }

  lemma {:induction false} RevHead(s: seq<bool>, l: nat)
    requires l <= |s| && ZeroFrom(s, l)
    ensures Rev(s) == Rev(s[..l])
  {
    if l == 0 {
      RevZero(s);
    } else {
      RevHead(s[1..], l - 1);
      assert s[1..][..l - 1] == s[..l][1..];
    }
  }

  /** The table made, code p stands one level deeper. */
  lemma {:induction false} OneDeeper(g: Made, l: nat, cs: seq<seq<bool>>, ops: seq<(nat, nat)>, max: nat, p: nat,
                                     u: seq<nat>, x: seq<nat>, wd: seq<nat>, j: nat, t: nat, i: nat)
    requires Standing(g, l, cs, ops, max, p, p + 1, u, x, wd) && Depth(l, wd) + l < |cs[p]|
    requires CanGrow(g, l, cs, p, cs[p][..Depth(l, wd) + l], j, t, i)
    requires AllSizes(Grown(g, l, p, cs[p][..Depth(l, wd) + l], j, t, i), l, cs, max)
    ensures var w := Depth(l, wd) + l;
      Standing(Grown(g, l, p, cs[p][..w], j, t, i), l, cs, ops, max, p, p + 1,
               u + [|g.tabs|], x + [Rev(cs[p][..w])], wd + [w])
  {
    hide Rev, Lsb, Pow2, IsLadder, AllRooted, Entries, OnePrefix, Built, AllSizes, CanGrow;
    var w := Depth(l, wd) + l;
    var s := cs[p][..w];
    CanGrowMultiple(g, l, cs, p, s, j, t, i);
    var g' := Grown(g, l, p, s, j, t, i);
    BuiltSize(g, l, cs, ops, p, p + 1);
    GrownBuilt(g, l, cs, ops, p, s, j, t, i);
    var u', x', wd' := u + [|g.tabs|], x + [Rev(s)], wd + [w];
    forall h | 0 <= h < |u'| ensures LevelOk(g', l, cs[p], u', x', wd', h) {
      if h < |u| {
        assert LevelOk(g, l, cs[p], u, x, wd, h);
      } else {
        if h > 0 { assert LevelOk(g, l, cs[p], u, x, wd, h - 1); }
      }
    }
  }

  lemma {:induction false} CanGrowMultiple(g: Made, l: nat, cs: seq<seq<bool>>, p: nat, s: seq<bool>, j: nat, t: nat,
                                           i: nat)
    requires CanGrow(g, l, cs, p, s, j, t, i)
    ensures l >= 1 && |s| % l == 0 && (s != [] ==> t < |g.tabs| && i < |g.tabs[t]|)
  {
  }

  lemma {:induction false} BuiltSize(g: Made, l: nat, cs: seq<seq<bool>>, ops: seq<(nat, nat)>, p: nat, top: nat)
    requires Built(g, l, cs, ops, p, top)
    ensures |g.tabs| == |g.pre| == |g.jb| == |g.born| && l >= 1
  {
    ShapeSize(g, l, cs, top);
  }

  // --------------------------------------------------------------- moving on

  /** The tables left when the stack is cut to m levels are those on the way of the next code. */
  lemma {:induction false} Popped(g: Made, l: nat, cs: seq<seq<bool>>, ops: seq<(nat, nat)>, max: nat, p: nat,
                                  u: seq<nat>, x: seq<nat>, wd: seq<nat>, m: nat)
    requires Built(g, l, cs, ops, p + 1, p + 1) && AllSizes(g, l, cs, max) && p + 1 < |cs|
    requires Stack(g, l, cs[p], u, x, wd) && 1 <= m <= |u| && Depth(l, wd) + l >= |cs[p]|
    requires Low(Rev(cs[p + 1]), wd[m - 1]) == x[m - 1]
    requires m < |u| ==> Low(Rev(cs[p + 1]), wd[m]) != x[m]
    ensures Standing(g, l, cs, ops, max, p + 1, p + 1, u[..m], x[..m], wd[..m])
  {
    hide Rev, Low, Pow2, IsLadder, AllRooted, Entries, OnePrefix, AllSizes;
    var a, b, w := cs[p], cs[p + 1], wd[m - 1];
    NextLess(cs, p + 1);
    assert LevelOk(g, l, a, u, x, wd, m - 1);
    SamePattern(a, b, w);
    assert a[..w] == b[..w];
    if m < |u| {
      assert LevelOk(g, l, a, u, x, wd, m);
      SamePattern(a, b, w + l);
    } else if w + l == |a| <= |b| {
      LessApart(a, b);
    }
    forall h | 0 <= h < m ensures LevelOk(g, l, b, u[..m], x[..m], wd[..m], h) {
      assert LevelOk(g, l, a, u, x, wd, h);
      DepthsUp(g, l, a, u, x, wd, h, m - 1);
      Shorter(a, b, w, wd[h]);
    }
    FreshAt(g, l, cs, p + 1, w);
    if w + l <= |b| { ZeroAfter(cs, p + 1, w + l); }
  }

  /** Patterns of w bits agree exactly when the first w bits do. */
  lemma {:induction false} SamePattern(a: seq<bool>, b: seq<bool>, w: nat)
    requires w <= |b|
    ensures Low(Rev(b), w) == Rev(b[..w])
    ensures w <= |a| && Rev(a[..w]) == Rev(b[..w]) ==> a[..w] == b[..w]
  {
    hide Rev, Low;
    RevParts(b, w);
    RevLsb(b[..w]);
    if w <= |a| { RevLsb(a[..w]); }
  }

  lemma {:induction false} DepthsUp(g: Made, l: nat, s: seq<bool>, u: seq<nat>, x: seq<nat>, wd: seq<nat>, h: nat,
                                    k: nat)
    requires Stack(g, l, s, u, x, wd) && h <= k < |u|
    ensures wd[h] <= wd[k]
    decreases k - h
  {
    if h < k {
      DepthsUp(g, l, s, u, x, wd, h, k - 1);
      assert LevelOk(g, l, s, u, x, wd, k);
    }
  }
}
