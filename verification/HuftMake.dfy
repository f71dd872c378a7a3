/** The making of the tables in huft_build of archive/gzip/inflate.c, code by code. */
module HuftMake {
  import opened BitString
  import opened GzipBits
  import opened Canonical
  import opened Ladder
  import opened HuftTables
  import opened HuftWalk
  import opened HuftSize
  import opened HuftStack

  const BMAX: nat := 16
  const N_MAX: nat := 288

  // ------------------------------------------------------------- one code more

  /** A code string plus one; all ones turn to zeros. */
  function Inc(s: seq<bool>): (r: seq<bool>)
    ensures |r| == |s|
  {
    if s == [] then []
    else if s[|s| - 1] then Inc(s[..|s| - 1]) + [false]
    else s[..|s| - 1] + [true]
  }

  lemma {:induction false} RevSnoc(s: seq<bool>, b: bool)
    ensures Rev(s + [b]) == Rev(s) + if b then Pow2(|s|) else 0
  {
    if s == [] {
      assert ([b])[1..] == [];
      assert s + [b] == [b];
    } else {
      RevSnoc(s[1..], b);
      assert (s + [b])[1..] == s[1..] + [b];
    }
  }

  /** Backwards increment the code i of k bits. */
  method Increment(i: nat, k: nat, ghost s: seq<bool>) returns (r: nat)
    requires k >= 1 && |s| == k && i == Rev(s)
    ensures r == Rev(Inc(s))
  {
    hide Inc, Rev, Pow2;
    r := i;
    var j: nat := Pow2(k - 1);
    ghost var m: nat := k;  // the bits from m on were one and are zero now
    assert s[..k] == s;
    while j != 0 && (r / j) % 2 == 1
      invariant m <= k && r == Rev(s[..m]) && Rev(Inc(s)) == Rev(Inc(s[..m]))
      invariant j == if m == 0 then 0 else Pow2(m - 1)
      decreases m
    {
      TopBit(s[..m]);
      IncOne(s[..m]);
      assert s[..m][..m - 1] == s[..m - 1];
      r := r - j;
      j := HalfPow(j, m - 1);
      m := m - 1;
    }
    if m > 0 { TopBit(s[..m]); }
    IncEnd(s[..m]);
    r := r + j;
  }

  /** j >>= 1. */
  method HalfPow(j: nat, ghost n: nat) returns (h: nat)
    requires j == Pow2(n)
    ensures h == if n == 0 then 0 else Pow2(n - 1)
  {
    h := j / 2;
  }

  /** i & (1 << (m - 1)), for an i of m bits. */
  lemma {:induction false} TopBit(s: seq<bool>)
    requires s != []
    ensures var m := |s|; Rev(s) == Rev(s[..m - 1]) + (if s[m - 1] then Pow2(m - 1) else 0)
    ensures var m := |s|; (Rev(s) / Pow2(m - 1)) % 2 == if s[m - 1] then 1 else 0
  {
    hide Rev, Pow2;
    var m := |s|;
    var t := s[..m - 1];
    assert s == t + [s[m - 1]];
    RevSnoc(t, s[m - 1]);
    var x, p := Rev(t), Pow2(m - 1);
    assert x < p;
    DivTop(x, p);
  }

  lemma {:induction false} DivTop(x: nat, p: nat)
    requires x < p
    ensures (x + p) / p == 1 && x / p == 0
  {
    var a, b := (x + p) / p, x / p;
    assert x + p == p * a + (x + p) % p && x == p * b + x % p;
    MulUp(p, 2, a);
    MulUp(p, a, 0);
    MulUp(p, 1, b);
  }

  lemma {:induction false} IncOne(s: seq<bool>)
    requires s != [] && s[|s| - 1]
    ensures Rev(Inc(s)) == Rev(Inc(s[..|s| - 1]))
  {
    RevSnoc(Inc(s[..|s| - 1]), false);
  }

  lemma {:induction false} IncEnd(s: seq<bool>)
    requires s == [] || !s[|s| - 1]
    ensures s == [] ==> Rev(Inc(s)) == Rev(s) == 0
    ensures s != [] ==> Rev(Inc(s)) == Rev(s) + Pow2(|s| - 1)
  {
    if s != [] {
      var t := s[..|s| - 1];
      assert s == t + [false];
      RevSnoc(t, false);
      RevSnoc(t, true);
    }
  }

  /** The next code is the successor, whatever its length. */
  lemma {:induction false} NextIsInc(a: seq<bool>, b: seq<bool>)
    requires Next(a, b)
    ensures Rev(b) == Rev(Inc(a))
  {
    var x: nat :| NextAt(a, b, x);
    IncAt(a, x);
    RevHead(b, x + 1);
    RevHead(Inc(a), x + 1);
    assert b[..x + 1] == a[..x] + [true] == Inc(a)[..x + 1];
  }

  lemma {:induction false} IncAt(a: seq<bool>, x: nat)
    requires x < |a| && !a[x] && OneFrom(a, x + 1)
    ensures Inc(a)[..x + 1] == a[..x] + [true] && ZeroFrom(Inc(a), x + 1)
    decreases |a|
  {
    var n := |a| - 1;
    if x < n {
      IncAt(a[..n], x);
      assert a[..n][..x] == a[..x];
      assert Inc(a) == Inc(a[..n]) + [false];
      assert Inc(a)[..x + 1] == Inc(a[..n])[..x + 1];
    }
  }

  // ---------------------------------------------------------------- new tables

  /** The codes at hand: c counts those of each length; code p is number r of k bits. */
  ghost predicate Coding(ls: seq<nat>, g: nat, c: seq<nat>, cs: seq<seq<bool>>) {
    && 1 <= g <= 15 && g < |c| && Complete(ls, g) && cs == Codes(ls, g, Count(ls, g)) && IsLadder(cs)
    && forall b :: 1 <= b <= g ==> c[b] == Count(ls, b)
  }

  ghost predicate CodeIs(ls: seq<nat>, g: nat, cs: seq<seq<bool>>, k: nat, r: nat, p: nat) {
    && 1 <= k <= g && r < Count(ls, k) && p == Base(ls, k) + r
    && p < |cs| && cs[p] == BitsOf(First(ls, k) + r, k)
  }

  /** The table of j bits chosen for code p after w bits. */
  lemma {:induction false} ChosenSizes(ls: seq<nat>, max: nat, c: seq<nat>, cs: seq<seq<bool>>, ops: seq<(nat, nat)>,
                                       g: Made, l: nat,
                                       k: nat, r: nat, p: nat, w: nat, j: nat, t: nat, x: nat)
    requires Coding(ls, max, c, cs) && CodeIs(ls, max, cs, k, r, p) && w < k && l >= 1
    requires Chosen(ls, Shr(First(ls, k) + r, k - w), w, k, max, l, j)
    requires AllSizes(g, l, cs, max) && (w > 0 ==> t < |g.tabs| && x < |g.tabs[t]|)
    ensures AllSizes(Grown(g, l, p, cs[p][..w], j, t, x), l, cs, max)
  {
    hide First, Count, Codes, Base, BitsOf, Shr, Shl, AllSizes;
    var s := cs[p][..w];
    forall q: nat | q < |cs| && s <= cs[q] ensures NewFits(l, cs, |s|, j, p, q) {
      Beyond(cs, p, q, w);
      ChosenFits(ls, max, k, r, w, l, j, q);
    }
    ChosenFits(ls, max, k, r, w, l, j, p);
    SizesGrown(g, l, cs, max, p, s, j, t, x);
  }

  lemma {:induction false} Beyond(cs: seq<seq<bool>>, p: nat, q: nat, w: nat)
    requires IsLadder(cs) && p < |cs| && q < |cs| && w < |cs[p]| && cs[p][..w] <= cs[q]
    ensures w < |cs[q]|
  {
    if q != p { LadderApart(cs, q, p); }
  }

  /** Room for as many tables as there are levels. */
  lemma {:induction false} StackDepth(g: Made, l: nat, s: seq<bool>, u: seq<nat>, x: seq<nat>, wd: seq<nat>)
    requires Stack(g, l, s, u, x, wd)
    ensures |u| <= |s|
  {
    if u != [] { assert LevelOk(g, l, s, u, x, wd, |u| - 1); }
  }

  /** Make tables up to the level where the code ends. */
  method AddTables(tabs0: seq<seq<Huft>>, u0: seq<nat>, x0: seq<nat>, w0: int, q0: nat, z0: nat, c: seq<nat>, k: nat,
                   max: nat, l: nat, a: nat, i: nat, ghost g0: Made, ghost wd0: seq<nat>, ghost cs: seq<seq<bool>>,
                   ghost ops: seq<(nat, nat)>, ghost ls: seq<nat>, ghost p: nat, ghost r: nat)
    returns (tabs: seq<seq<Huft>>, u: seq<nat>, x: seq<nat>, w: int, q: nat, z: nat, ghost g: Made, ghost wd: seq<nat>)
    requires Coding(ls, max, c, cs) && CodeIs(ls, max, cs, k, r, p) && a + r + 1 == Count(ls, k)
    requires Standing(g0, l, cs, ops, max, p, p + 1, u0, x0, wd0) && w0 == Depth(l, wd0) && tabs0 == g0.tabs
    requires i == Rev(cs[p])
    ensures Standing(g, l, cs, ops, max, p, p + 1, u, x, wd) && w == Depth(l, wd) && tabs == g.tabs
    ensures 0 <= w < k <= w + l && |u| <= BMAX && u != []
    ensures if k <= w0 + l then u == u0 && g == g0 && q == q0 && z == z0
            else q == u[|u| - 1] && q < |g.jb| && z == Pow2(g.jb[q])
  {
    hide Coding, Standing, AllSizes, CanGrow, First, Count, Base, Shr, Rev, Pow2, Chosen;
    tabs, u, x, w, q, z, g, wd := tabs0, u0, x0, w0, q0, z0, g0, wd0;
    CodingBound(ls, max, c, cs);
    StandingParts(g, l, cs, ops, max, p, u, x, wd);
    while k > w + l
      invariant Standing(g, l, cs, ops, max, p, p + 1, u, x, wd) && w == Depth(l, wd) && tabs == g.tabs && w < k
      invariant w + l >= 0 && l >= 1
      invariant if w == w0 then u == u0 && g == g0 && q == q0 && z == z0
                else w0 < w && k > w0 + l && u != [] && q == u[|u| - 1] && q < |g.jb| && z == Pow2(g.jb[q])
      decreases k - w
    {
      w := w + l;
      NumberHere(ls, max, c, cs, ops, g, l, k, r, p, u, x, wd, a);
      var j := TableBits(c, k, max, w, l, a, ls, Shr(First(ls, k) + r, k - w));
      LinkPlace(g, l, cs, ops, max, p, u, x, wd, j);
      ghost var s, t, y := cs[p][..w], if u == [] then 0 else u[|u| - 1], if u == [] then 0 else Shr(i, w - l);
      CanGrowMultiple(g, l, cs, p, s, j, t, y);
      StandingParts(g, l, cs, ops, max, p, u, x, wd);
      ChosenSizes(ls, max, c, cs, ops, g, l, k, r, p, w, j, t, y);
      OneDeeper(g, l, cs, ops, max, p, u, x, wd, j, t, y);
      HeadOfCode(g, l, cs, ops, max, p, u, x, wd);
      q, z := |tabs|, Pow2(j);
      tabs := tabs + [seq(z, _ => Unset)];
      if |u| > 0 {
        var up := u[|u| - 1];
        tabs := tabs[up := tabs[up][Shr(i, w - l) := Huft(16 + j, l, q)]];
      }
      g := Grown(g, l, p, s, j, t, y);
      u, x, wd := u + [q], x + [i], wd + [w];
    }
    StandingParts(g, l, cs, ops, max, p, u, x, wd);
  }

  lemma {:induction false} CodingBound(ls: seq<nat>, max: nat, c: seq<nat>, cs: seq<seq<bool>>)
    requires Coding(ls, max, c, cs)
    ensures 1 <= max <= 15 && max < |c|
  {
  }

  lemma {:induction false} StandingParts(g: Made, l: nat, cs: seq<seq<bool>>, ops: seq<(nat, nat)>, max: nat, p: nat,
                                         u: seq<nat>, x: seq<nat>, wd: seq<nat>)
    requires Standing(g, l, cs, ops, max, p, p + 1, u, x, wd)
    ensures AllSizes(g, l, cs, max) && Stack(g, l, cs[p], u, x, wd) && |u| <= |cs[p]| && l >= 1 && IsLadder(cs)
    ensures Depth(l, wd) < |cs[p]| && Depth(l, wd) + l >= 0 && (Depth(l, wd) + l > 0 ==> u != [])
    ensures |g.tabs| == |g.pre| == |g.jb| == |g.born|
  {
    hide AllSizes, Entries, AllRooted, OnePrefix, Fresh;
    ShapeSize(g, l, cs, p + 1);
    StackDepth(g, l, cs[p], u, x, wd);
    if u != [] { assert LevelOk(g, l, cs[p], u, x, wd, |u| - 1); }
  }

  /** The code's number ends in zeros after the new level's bits, and a codes come after it. */
  lemma {:induction false} NumberHere(ls: seq<nat>, max: nat, c: seq<nat>, cs: seq<seq<bool>>, ops: seq<(nat, nat)>,
                                      g: Made, l: nat,
                                      k: nat, r: nat, p: nat, u: seq<nat>, x: seq<nat>, wd: seq<nat>, a: nat)
    requires Coding(ls, max, c, cs) && CodeIs(ls, max, cs, k, r, p) && a + r + 1 == Count(ls, k)
    requires Standing(g, l, cs, ops, max, p, p + 1, u, x, wd) && Depth(l, wd) + l < k
    ensures var w: nat := Depth(l, wd) + l;
      w < k <= max < |c| && Used(ls, k) == Shl(Shr(First(ls, k) + r, k - w), k - w) + a + 1
    ensures forall b :: 1 <= b <= max ==> c[b] == Count(ls, b)
  {
    hide First, Count, Shr, Shl, BitsOf;
    ZeroTail(First(ls, k) + r, k, Depth(l, wd) + l);
  }

  lemma {:induction false} HeadOfCode(g: Made, l: nat, cs: seq<seq<bool>>, ops: seq<(nat, nat)>, max: nat, p: nat,
                                      u: seq<nat>, x: seq<nat>, wd: seq<nat>)
    requires Standing(g, l, cs, ops, max, p, p + 1, u, x, wd) && Depth(l, wd) + l <= |cs[p]|
    ensures Rev(cs[p]) == Rev(cs[p][..Depth(l, wd) + l])
  {
    RevHead(cs[p], Depth(l, wd) + l);
  }

  // ------------------------------------------------------------------- filling

  /** Only every 2^n-th number has the same n low bits. */
  lemma {:induction false} NextHit(m: nat, n: nat, start: nat, x: nat)
    requires start < Pow2(n)
    ensures Low(Shl(m, n) + start, n) == start && Shl(m + 1, n) == Shl(m, n) + Pow2(n)
    ensures Shl(m, n) + start < x < Shl(m + 1, n) + start ==> Low(x, n) != start
  {
    hide Low, Shl, Shr, Pow2;
    ShlSplit(m, start, n);
    ShlAdd(m, 1, n);
    ShlPow2(n);
    HighLow(x, n);
    var q := Shr(x, n);
    if q <= m { ShlMonotone(q, m, n); } else { ShlMonotone(m + 1, q, n); }
  }

  /** Fill code-like entries with r: those whose n low bits are start. */
  method FillIn(tab: seq<Huft>, start: nat, n: nat, z: nat, r: Huft) returns (q: seq<Huft>)
    requires |tab| == z && start < Pow2(n)
    ensures |q| == z && forall x: nat :: x < z ==> q[x] == if Low(x, n) == start then r else tab[x]
  {
    hide Low, Shl, Pow2;
    q := tab;
    var f: nat := Pow2(n);
    var j: nat := start;
    ghost var m := 0;
    ShlPow2(n);
    forall x: nat | x < start ensures Low(x, n) != start { LowSmaller(x, start, n); }
    while j < z
      invariant j == Shl(m, n) + start && |q| == z
      invariant forall x: nat :: x < z ==> q[x] == if x < j && Low(x, n) == start then r else tab[x]
      decreases z - j
    {
      ghost var j0 := j;
      forall x: nat ensures j0 < x < j0 + f ==> Low(x, n) != start { NextHit(m, n, start, x); }
      NextHit(m, n, start, 0);
      q := q[j := r];
      j := j + f;
      m := m + 1;
    }
  }

  lemma {:induction false} LowSmaller(x: nat, start: nat, n: nat)
    requires x < start < Pow2(n)
    ensures Low(x, n) != start
  {
    LowOfSmall(x, n);
  }

  /** The entries whose low bits are the rest of the code are those the code leads to. */
  lemma {:induction false} Leads(g: Made, t: nat, s: seq<bool>, x: nat)
    requires t < |g.pre| == |g.jb| && g.pre[t] <= s && |s| - |g.pre[t]| <= g.jb[t] && x < Pow2(g.jb[t])
    ensures s <= Path(g, t, x) <==> Low(x, |s| - |g.pre[t]|) == Rev(s[|g.pre[t]|..])
  {
    hide Lsb, Rev, Low, Pow2;
    var w, n := |g.pre[t]|, |s| - |g.pre[t]|;
    var b := Lsb(x, g.jb[t]);
    LsbSplit(x, n, g.jb[t] - n);
    assert b[..n] == Lsb(Low(x, n), n);
    RevLsb(s[w..]);
    if Low(x, n) == Rev(s[w..]) {
      assert s == g.pre[t] + b[..n];
    }
    if s <= Path(g, t, x) {
      assert s[w..] == Path(g, t, x)[..w + n][w..] == b[..n];
      LsbRev(Low(x, n), n);
    }
  }

  /** Put the entry of code p into the table at hand. */
  method FillCode(tabs0: seq<seq<Huft>>, u: seq<nat>, w: nat, q: nat, z: nat, i: nat, k: nat, en: Huft, l: nat,
                  max: nat,
                  ghost g0: Made, ghost cs: seq<seq<bool>>, ghost ops: seq<(nat, nat)>, ghost p: nat, ghost x: seq<nat>,
                  ghost wd: seq<nat>)
    returns (tabs: seq<seq<Huft>>, ghost g: Made)
    requires Standing(g0, l, cs, ops, max, p, p + 1, u, x, wd) && w == Depth(l, wd) && tabs0 == g0.tabs && u != []
    requires |cs[p]| == k && w < k <= w + l && i == Rev(cs[p])
    requires q == u[|u| - 1] < |g0.jb| && z == Pow2(g0.jb[q])
    requires LeafIs(en, cs, ops, p, w)
    ensures Built(g, l, cs, ops, p + 1, p + 1) && AllSizes(g, l, cs, max) && Stack(g, l, cs[p], u, x, wd)
    ensures tabs == g.tabs
    ensures g == g0.(tabs := g.tabs) && |g.tabs| == |g0.tabs|
  {
    hide Standing, AllSizes, Rev, Low, Shr, Pow2, Built, LeafIs, Rooted, Entries, AllRooted, OnePrefix;
    StandingParts(g0, l, cs, ops, max, p, u, x, wd);
    StandingBuilt(g0, l, cs, ops, max, p, u, x, wd);
    TopLevel(g0, l, cs, ops, max, p, u, x, wd);
    TableSize(g0, l, cs, ops, max, p, u, x, wd, q);
    RevParts(cs[p], w);
    var row := FillIn(tabs0[q], Shr(i, w), k - w, z, en);
    tabs := tabs0[q := row];
    g := g0.(tabs := tabs);
    forall y: nat | y < z ensures g.tabs[q][y] == if cs[p] <= Path(g0, q, y) then en else g0.tabs[q][y] {
      Leads(g0, q, cs[p], y);
    }
    AllLevels(g0, l, cs, ops, max, p, u, x, wd);
    FilledBuilt(g0, g, l, cs, ops, p, q, en);
    SizesSame(g0, g, l, cs, max);
    StackSame(g0, g, l, cs[p], u, x, wd);
  }

  lemma {:induction false} StandingBuilt(g: Made, l: nat, cs: seq<seq<bool>>, ops: seq<(nat, nat)>, max: nat, p: nat,
                                         u: seq<nat>, x: seq<nat>, wd: seq<nat>)
    requires Standing(g, l, cs, ops, max, p, p + 1, u, x, wd)
    ensures Built(g, l, cs, ops, p, p + 1)
  {
  }

  lemma {:induction false} TopLevel(g: Made, l: nat, cs: seq<seq<bool>>, ops: seq<(nat, nat)>, max: nat, p: nat,
                                    u: seq<nat>, x: seq<nat>, wd: seq<nat>)
    requires Standing(g, l, cs, ops, max, p, p + 1, u, x, wd) && u != []
    ensures var t, w := u[|u| - 1], Depth(l, wd);
      t < |g.pre| && 0 <= w < |cs[p]| && g.pre[t] == cs[p][..w]
  {
    hide Built, AllSizes, Fresh, Rev;
    assert LevelOk(g, l, cs[p], u, x, wd, |u| - 1);
  }

  lemma {:induction false} TableSize(g: Made, l: nat, cs: seq<seq<bool>>, ops: seq<(nat, nat)>, max: nat, p: nat,
                                     u: seq<nat>, x: seq<nat>, wd: seq<nat>, t: nat)
    requires Standing(g, l, cs, ops, max, p, p + 1, u, x, wd) && t < |g.tabs| == |g.pre| == |g.jb|
    requires g.pre[t] <= cs[p] && |cs[p]| <= |g.pre[t]| + l
    ensures |g.tabs[t]| == Pow2(g.jb[t]) && |cs[p]| <= |g.pre[t]| + g.jb[t]
  {
    hide Rev, Pow2, Fresh, Entries, AllRooted, OnePrefix, Stack;
    ShapeAt(g, l, cs, p + 1, t);
    assert SizeOk(g, l, cs, max, t);
    assert CodeFitsTable(g, l, cs, t, p);
  }

  /** All tables on the way of code p are there. */
  lemma {:induction false} AllLevels(g: Made, l: nat, cs: seq<seq<bool>>, ops: seq<(nat, nat)>, max: nat, p: nat,
                                     u: seq<nat>, x: seq<nat>, wd: seq<nat>)
    requires Standing(g, l, cs, ops, max, p, p + 1, u, x, wd) && u != [] && |cs[p]| <= Depth(l, wd) + l
    ensures Rooted(g, l, cs, p)
  {
    hide Built, AllSizes, Fresh, Rev;
    forall w: nat | w < |cs[p]| && w % l == 0 ensures HasTable(g, cs[p][..w]) {
      var h := LevelFor(g, l, cs[p], u, x, wd, w, |u| - 1);
      assert LevelOk(g, l, cs[p], u, x, wd, h);
    }
  }

  lemma {:induction false} LevelFor(g: Made, l: nat, s: seq<bool>, u: seq<nat>, x: seq<nat>, wd: seq<nat>, w: nat,
                                    k: nat)
    returns (h: nat)
    requires Stack(g, l, s, u, x, wd) && k < |u| && w % l == 0 && w < wd[k] + l
    ensures h < |u| && wd[h] == w
    decreases k
  {
    assert LevelOk(g, l, s, u, x, wd, k);
    if w >= wd[k] {
      if w > wd[k] { NextMultiple(wd[k], w, l); }
      h := k;
    } else {
      h := LevelFor(g, l, s, u, x, wd, w, k - 1);
    }
  }

  lemma {:induction false} SizesSame(g: Made, h: Made, l: nat, cs: seq<seq<bool>>, max: nat)
    requires AllSizes(g, l, cs, max) && h == g.(tabs := h.tabs) && |h.tabs| == |g.tabs|
    ensures AllSizes(h, l, cs, max)
  {
    forall t | 0 <= t < |h.tabs| ensures h.born[t] < |cs| && SizeOk(h, l, cs, max, t) {
      assert SizeOk(g, l, cs, max, t);
      forall q: nat | q < |cs| && h.pre[t] <= cs[q] ensures CodeFitsTable(h, l, cs, t, q) {
        assert CodeFitsTable(g, l, cs, t, q);
      }
    }
  }

  lemma {:induction false} StackSame(g: Made, h: Made, l: nat, s: seq<bool>, u: seq<nat>, x: seq<nat>, wd: seq<nat>)
    requires Stack(g, l, s, u, x, wd) && h.pre == g.pre
    ensures Stack(h, l, s, u, x, wd)
  {
    hide Rev;
    forall i | 0 <= i < |u| ensures LevelOk(h, l, s, u, x, wd, i) {
      assert LevelOk(g, l, s, u, x, wd, i);
    }
  }

  // ---------------------------------------------------------------- the tables

  /** Backup over finished tables. */
  method BackUp(i: nat, u0: seq<nat>, x0: seq<nat>, w0: nat, l: nat, ghost max: nat, ghost g: Made,
                ghost cs: seq<seq<bool>>,
                ghost ops: seq<(nat, nat)>, ghost p: nat, ghost wd0: seq<nat>)
    returns (u: seq<nat>, x: seq<nat>, w: nat, ghost wd: seq<nat>)
    requires Built(g, l, cs, ops, p + 1, p + 1) && AllSizes(g, l, cs, max) && p < |cs|
    requires Stack(g, l, cs[p], u0, x0, wd0) && u0 != [] && w0 == Depth(l, wd0) && w0 + l >= |cs[p]|
    requires p + 1 < |cs| ==> i == Rev(cs[p + 1])
    ensures p + 1 < |cs| ==> Standing(g, l, cs, ops, max, p + 1, p + 1, u, x, wd)
    ensures u != [] && w == Depth(l, wd) && (u == u0 || w + l < |cs[p]|)
  {
    hide Built, AllSizes, Standing, Low, Rev;
    u, x, w, wd := u0, x0, w0, wd0;
    assert LevelOk(g, l, cs[p], u0, x0, wd0, 0);
    FirstLevel(g, l, cs[p], u0, x0, wd0, i);
    while Low(i, w) != x[|u| - 1]
      invariant 1 <= |u| <= |u0| && u == u0[..|u|] && x == x0[..|u|] && wd == wd0[..|u|] && w == wd0[|u| - 1]
      invariant |u| < |u0| ==> Low(i, wd0[|u|]) != x0[|u|]
      decreases |u|
    {
      var h := |u| - 1;
      assert LevelOk(g, l, cs[p], u0, x0, wd0, h);
      w := w - l;
      u, x, wd := u[..h], x[..h], wd[..h];
    }
    if |u| < |u0| { assert LevelOk(g, l, cs[p], u0, x0, wd0, |u|); }
    if p + 1 < |cs| {
      Popped(g, l, cs, ops, max, p, u0, x0, wd0, |u|);
    }
  }

  /** The first level is always right. */
  lemma {:induction false} FirstLevel(g: Made, l: nat, s: seq<bool>, u: seq<nat>, x: seq<nat>, wd: seq<nat>, i: nat)
    requires Stack(g, l, s, u, x, wd) && u != []
    ensures wd[0] == 0 && Low(i, wd[0]) == x[0]
  {
    assert LevelOk(g, l, s, u, x, wd, 0);
    assert Rev(s[..0]) == 0;
  }

  /** Before code p, or at the end. */
  ghost predicate Making(g: Made, l: nat, cs: seq<seq<bool>>, ops: seq<(nat, nat)>, max: nat, p: nat,
                         u: seq<nat>, x: seq<nat>, wd: seq<nat>, i: nat, q: nat, z: nat)
  {
    if p < |cs| then
      && Standing(g, l, cs, ops, max, p, p, u, x, wd) && i == Rev(cs[p])
      && (|cs[p]| <= Depth(l, wd) + l ==> u != [] && q == u[|u| - 1] && q < |g.jb| && z == Pow2(g.jb[q]))
    else p == |cs| && Built(g, l, cs, ops, p, p) && AllSizes(g, l, cs, max)
  }

  lemma {:induction false} StandingTop(g: Made, l: nat, cs: seq<seq<bool>>, ops: seq<(nat, nat)>, max: nat, p: nat,
                                       u: seq<nat>, x: seq<nat>, wd: seq<nat>, i: nat, q: nat, z: nat)
    requires Making(g, l, cs, ops, max, p, u, x, wd, i, q, z) && p < |cs|
    ensures Standing(g, l, cs, ops, max, p, p + 1, u, x, wd)
  {
    hide Built, AllSizes, Stack, Fresh, Rev, Pow2;
    TopMore(g, l, cs, ops, p);
  }

  /** The entry of a symbol: what to do, and its value or base. */
  predicate Valued(v: nat, s: nat, d: seq<nat>, es: seq<nat>) { v < s || (v - s < |d| && v - s < |es|) }

  function Op(v: nat, s: nat, d: seq<nat>, es: seq<nat>): (nat, nat)
    requires Valued(v, s, d, es)
  {
    if v < s then (if v < 256 then 16 else 15, v) else (es[v - s], d[v - s])
  }

  predicate AllValued(vs: seq<nat>, s: nat, d: seq<nat>, es: seq<nat>) {
    forall q :: 0 <= q < |vs| ==> Valued(vs[q], s, d, es)
  }

  function Ops(vs: seq<nat>, s: nat, d: seq<nat>, es: seq<nat>): (ops: seq<(nat, nat)>)
    requires AllValued(vs, s, d, es)
    ensures |ops| == |vs| && forall q :: 0 <= q < |vs| ==> ops[q] == Op(vs[q], s, d, es)
  {
    seq(|vs|, q requires 0 <= q < |vs| => Op(vs[q], s, d, es))
  }

  /** The operations of all codes.  Past the n-th code entries say that the code is invalid; if
      some of the n symbols have no code, values are taken before that which were never set. */
  function AllOps(vs: seq<nat>, s: nat, d: seq<nat>, es: seq<nat>, n: nat, all: nat): (ops: seq<(nat, nat)>)
    requires AllValued(vs, s, d, es)
    ensures |vs| <= |ops| && (|vs| <= all ==> |ops| <= all) && ops[..|vs|] == Ops(vs, s, d, es)
  {
    Ops(vs, s, d, es) + if |vs| == n && n <= all then seq(all - n, _ => (99, 0)) else []
  }

  /** Code p: its tables, its entry, and on to the next code. */
  method OneCodeMore(tabs0: seq<seq<Huft>>, u0: seq<nat>, x0: seq<nat>, w0: int, q0: nat, z0: nat, c: seq<nat>, k: nat,
                     max: nat,
                     l: nat, a: nat, i0: nat, n: nat, vs: seq<nat>, s: nat, d: seq<nat>, es: seq<nat>, p: nat,
                     ghost g0: Made, ghost wd0: seq<nat>, ghost cs: seq<seq<bool>>, ghost ls: seq<nat>, ghost r: nat)
    returns (tabs: seq<seq<Huft>>, u: seq<nat>, x: seq<nat>, w: int, q: nat, z: nat, i: nat, ghost g: Made,
             ghost wd: seq<nat>)
    requires Coding(ls, max, c, cs) && CodeIs(ls, max, cs, k, r, p) && a + r + 1 == Count(ls, k)
    requires AllValued(vs, s, d, es) && |vs| <= n && |vs| <= |cs|
    requires Making(g0, l, cs, AllOps(vs, s, d, es, n, |cs|), max, p, u0, x0, wd0, i0, q0, z0) && w0 == Depth(l, wd0)
    requires tabs0 == g0.tabs
    ensures Making(g, l, cs, AllOps(vs, s, d, es, n, |cs|), max, p + 1, u, x, wd, i, q, z) && w == Depth(l, wd)
    ensures tabs == g.tabs
  {
    ghost var vals := AllOps(vs, s, d, es, n, |cs|);
    hide Standing, Built, AllSizes, Rev, Low, Pow2, Coding, Stack, Inc, First, Count, BitsOf, Base;
    StandingTop(g0, l, cs, vals, max, p, u0, x0, wd0, i0, q0, z0);
    tabs, u, x, w, q, z, g, wd := AddTables(tabs0, u0, x0, w0, q0, z0, c, k, max, l, a, i0, g0, wd0, cs, vals, ls, p,
                                            r);
    var en := Unset;
    if p >= n {
      en := Huft(99, k - w, 0);
    } else if p < |vs| {
      if vs[p] < s {
        en := Huft(if vs[p] < 256 then 16 else 15, k - w, vs[p]);
      } else {
        en := Huft(es[vs[p] - s], k - w, d[vs[p] - s]);
      }
    }
    StandingParts(g, l, cs, vals, max, p, u, x, wd);
    tabs, g := FillCode(tabs, u, w, q, z, i0, k, en, l, max, g, cs, vals, p, x, wd);
    i := Increment(i0, k, cs[p]);
    if p + 1 < |cs| {
      NextCode(cs, p);
    }
    ghost var u1 := u;
    u, x, w, wd := BackUp(i, u, x, w, l, max, g, cs, vals, p, wd);
  }

  lemma {:induction false} NextCode(cs: seq<seq<bool>>, p: nat)
    requires IsLadder(cs) && p + 1 < |cs|
    ensures Rev(cs[p + 1]) == Rev(Inc(cs[p])) && |cs[p]| <= |cs[p + 1]|
  {
    assert Next(cs[p + 1 - 1], cs[p + 1]);
    NextIsInc(cs[p], cs[p + 1]);
  }

  lemma {:induction false} StartMaking(ls: seq<nat>, max: nat, c: seq<nat>, cs: seq<seq<bool>>, l: nat,
                                       vals: seq<(nat, nat)>)
    requires Coding(ls, max, c, cs) && l >= 1 && |vals| <= |cs|
    ensures cs != [] ==> Making(Made([], [], [], []), l, cs, vals, max, 0, [], [], [], 0, 0, 0)
  {
    hide Codes;
    if cs != [] { RevZero(cs[0]); }
  }

  /** Generate the Huffman codes and for each, make the table entries. */
  method MakeTables(c: seq<nat>, n: nat, vs: seq<nat>, s: nat, d: seq<nat>, es: seq<nat>, kmin: nat, max: nat, l: nat,
                    ghost ls: seq<nat>, ghost cs: seq<seq<bool>>)
    returns (tabs: seq<seq<Huft>>, ghost g: Made)
    requires Coding(ls, max, c, cs) && 1 <= kmin <= max && l >= 1 && |vs| <= n && |vs| <= |cs|
    requires AllValued(vs, s, d, es)
    requires Base(ls, kmin) == 0 && Count(ls, max) >= 1
    ensures Built(g, l, cs, AllOps(vs, s, d, es, n, |cs|), |cs|, |cs|) && AllSizes(g, l, cs, max) && tabs == g.tabs
  {
    ghost var vals := AllOps(vs, s, d, es, n, |cs|);
    hide Making, Coding, First, Count, Codes, Built, AllSizes;
    var u: seq<nat>, x: seq<nat>, w: int, q: nat, z: nat, i: nat, p: nat := [], [], 0 - l, 0, 0, 0, 0;
    ghost var wd: seq<nat> := [];
    tabs, g := [], Made([], [], [], []);
    CodingSize(ls, max, c, cs);
    StartMaking(ls, max, c, cs, l, vals);
    var k := kmin;
    while k <= max
      invariant kmin <= k <= max + 1 && p == Base(ls, k)
      invariant Making(g, l, cs, vals, max, p, u, x, wd, i, q, z) && w == Depth(l, wd) && tabs == g.tabs
    {
      CodingCount(ls, max, c, cs, k);
      var a: nat := c[k];
      while a != 0
        invariant a <= Count(ls, k) && p == Base(ls, k) + Count(ls, k) - a
        invariant Making(g, l, cs, vals, max, p, u, x, wd, i, q, z) && w == Depth(l, wd) && tabs == g.tabs
      {
        a := a - 1;
        ghost var r := Count(ls, k) - a - 1;
        CodeHere(ls, max, c, cs, k, r);
        tabs, u, x, w, q, z, i, g, wd := OneCodeMore(tabs, u, x, w, q, z, c, k, max, l, a, i, n, vs, s, d, es, p, g, wd,
                                                     cs, ls, r);
        p := p + 1;
      }
      k := k + 1;
    }
    MakingEnd(g, l, cs, vals, max, p, u, x, wd, i, q, z);
  }

  lemma {:induction false} CodingSize(ls: seq<nat>, max: nat, c: seq<nat>, cs: seq<seq<bool>>)
    requires Coding(ls, max, c, cs)
    ensures |cs| == Base(ls, max) + Count(ls, max) == Base(ls, max + 1)
  {
    hide First, Count, Codes;
    CodesSize(ls, max, Count(ls, max));
  }

  lemma {:induction false} CodingCount(ls: seq<nat>, max: nat, c: seq<nat>, cs: seq<seq<bool>>, k: nat)
    requires Coding(ls, max, c, cs) && 1 <= k <= max
    ensures k < |c| && c[k] == Count(ls, k)
  {
  }

  lemma {:induction false} CodeHere(ls: seq<nat>, max: nat, c: seq<nat>, cs: seq<seq<bool>>, k: nat, r: nat)
    requires Coding(ls, max, c, cs) && 1 <= k <= max && r < Count(ls, k)
    ensures CodeIs(ls, max, cs, k, r, Base(ls, k) + r)
  {
    hide First, Count, Codes, Base;
    CodesAt(ls, k, r, max, Count(ls, max));
  }

  lemma {:induction false} MakingEnd(g: Made, l: nat, cs: seq<seq<bool>>, ops: seq<(nat, nat)>, max: nat, p: nat,
                                     u: seq<nat>, x: seq<nat>, wd: seq<nat>, i: nat, q: nat, z: nat)
    requires Making(g, l, cs, ops, max, p, u, x, wd, i, q, z) && p == |cs|
    ensures Built(g, l, cs, ops, |cs|, |cs|) && AllSizes(g, l, cs, max)
  {
  }
}
