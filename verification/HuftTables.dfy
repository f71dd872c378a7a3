/** The lookup tables of archive/gzip/inflate.c: what huft_build keeps of them while it takes
    the codes in order. */
module HuftTables {
  import opened BitString
  import opened GzipBits
  import opened Ladder

  /** A table entry: the operation or number of extra bits e, the bits b of the code or
      subcode, and the value or the number of the next table; or one never written, or
      written from a value that was never set. */
  datatype Huft = Unset | Huft(e: nat, b: nat, v: nat)

  /** The number whose bits, lowest first, are s. */
  function Rev(s: seq<bool>): (r: nat)
    ensures r < Pow2(|s|)
  {
    if s == [] then 0 else (if s[0] then 1 else 0) + 2 * Rev(s[1..])
  }

  lemma {:induction false} RevLsb(s: seq<bool>)
    ensures Lsb(Rev(s), |s|) == s
  {
    if s != [] {
      RevLsb(s[1..]);
      assert Rev(s) / 2 == Rev(s[1..]) && (Rev(s) % 2 == 1) == s[0];
      assert s == [s[0]] + s[1..];
    }
  }

  lemma {:induction false} LsbRev(x: nat, n: nat)
    requires x < Pow2(n)
    ensures Rev(Lsb(x, n)) == x
  {
    RevLsb(Lsb(x, n));
    LsbInjective(Rev(Lsb(x, n)), x, n);
  }

  lemma {:induction false} RevParts(s: seq<bool>, w: nat)
    requires w <= |s|
    ensures Low(Rev(s), w) == Rev(s[..w]) && Shr(Rev(s), w) == Rev(s[w..])
  {
    if w > 0 {
      RevParts(s[1..], w - 1);
      assert Rev(s) / 2 == Rev(s[1..]);
      assert s[1..][..w - 1] == s[..w][1..] && s[1..][w - 1..] == s[w..];
    }
  }

  lemma {:induction false} RevZero(s: seq<bool>)
    requires ZeroFrom(s, 0)
    ensures Rev(s) == 0
  {
    if s != [] { RevZero(s[1..]); }
  }

  /** The bits of a small number after the first l are zero. */
  lemma {:induction false} LsbSmall(x: nat, l: nat, n: nat)
    requires l <= n && x < Pow2(l)
    ensures Lsb(x, n)[..l] == Lsb(x, l)
  {
    LsbSplit(x, l, n - l);
    LowOfSmall(x, l);
  }

  /** The tables, and for each the bits before it, its number of bits and the first code in it. */
  datatype Made = Made(tabs: seq<seq<Huft>>, pre: seq<seq<bool>>, jb: seq<nat>, born: seq<nat>)

  ghost predicate TableOk(g: Made, l: nat, cs: seq<seq<bool>>, top: nat, t: nat)
    requires t < |g.tabs| == |g.pre| == |g.jb| == |g.born| && l >= 1
  {
    && |g.tabs[t]| == Pow2(g.jb[t]) && |g.pre[t]| % l == 0
    && g.born[t] < top && top <= |cs| && |g.pre[t]| < |cs[g.born[t]]| && g.pre[t] <= cs[g.born[t]]
    && ZeroFrom(cs[g.born[t]], |g.pre[t]|)
  }

  ghost predicate Shape(g: Made, l: nat, cs: seq<seq<bool>>, top: nat) {
    && l >= 1 && |g.tabs| == |g.pre| == |g.jb| == |g.born|
    && (g.tabs != [] ==> g.pre[0] == [])
    && forall t :: 0 <= t < |g.tabs| ==> TableOk(g, l, cs, top, t)
  }

  ghost predicate OnePrefix(g: Made) {
    forall t, u :: 0 <= t < |g.pre| && 0 <= u < |g.pre| && g.pre[t] == g.pre[u] ==> t == u
  }

  ghost predicate HasTable(g: Made, s: seq<bool>) { exists t: nat :: t < |g.pre| && g.pre[t] == s }

  /** Every code taken has tables on its way. */
  ghost predicate Rooted(g: Made, l: nat, cs: seq<seq<bool>>, q: nat)
    requires q < |cs| && l >= 1
  {
    forall w: nat :: w < |cs[q]| && w % l == 0 ==> HasTable(g, cs[q][..w])
  }

  ghost predicate AllRooted(g: Made, l: nat, cs: seq<seq<bool>>, p: nat) {
    l >= 1 && p <= |cs| && forall q: nat :: q < p ==> Rooted(g, l, cs, q)
  }

  /** No table on the way of s is deeper than w bits. */
  ghost predicate Fresh(g: Made, s: seq<bool>, w: nat) {
    forall t :: 0 <= t < |g.pre| && g.pre[t] <= s ==> |g.pre[t]| <= w
  }

  // ------------------------------------------------------------------ entries

  /** The bits that lead to entry x of table t. */
  function Path(g: Made, t: nat, x: nat): seq<bool>
    requires t < |g.pre| == |g.jb|
  {
    g.pre[t] + Lsb(x, g.jb[t])
  }

  /** Code q ends at entry x of table t. */
  ghost predicate EndsAtEntry(g: Made, l: nat, cs: seq<seq<bool>>, q: nat, t: nat, x: nat)
    requires t < |g.pre| == |g.jb| && q < |cs|
  {
    |g.pre[t]| < |cs[q]| <= |g.pre[t]| + l && cs[q] <= Path(g, t, x)
  }

  /** Table u goes on after entry x of table t, reached by l bits. */
  ghost predicate Continues(g: Made, l: nat, t: nat, x: nat, u: nat)
    requires t < |g.pre| == |g.jb| && u < |g.pre|
  {
    |g.pre[u]| == |g.pre[t]| + l && g.pre[u] <= Path(g, t, x) && x < Pow2(l)
  }

  /** The entry of code q, from the operations of the codes in order as far as they are set. */
  ghost predicate LeafIs(en: Huft, cs: seq<seq<bool>>, ops: seq<(nat, nat)>, q: nat, w: nat)
    requires q < |cs|
  {
    if q < |ops| then |cs[q]| >= w && en == Huft(ops[q].0, |cs[q]| - w, ops[q].1)
    else en == Unset || en.e == 99
  }

  ghost predicate Indexed(g: Made, t: nat, x: nat) {
    t < |g.tabs| == |g.pre| == |g.jb| && x < |g.tabs[t]|
  }

  ghost predicate LeafOk(g: Made, l: nat, cs: seq<seq<bool>>, ops: seq<(nat, nat)>, q: nat, t: nat, x: nat)
    requires Indexed(g, t, x) && q < |cs|
  {
    EndsAtEntry(g, l, cs, q, t, x) ==> LeafIs(g.tabs[t][x], cs, ops, q, |g.pre[t]|)
  }

  ghost predicate LinkOk(g: Made, l: nat, t: nat, x: nat, u: nat)
    requires Indexed(g, t, x) && u < |g.pre|
  {
    Continues(g, l, t, x, u) ==> g.tabs[t][x] == Huft(16 + g.jb[u], l, u)
  }

  /** Where no code taken ends and no table goes on nothing was written. */
  ghost predicate BareOk(g: Made, l: nat, cs: seq<seq<bool>>, p: nat, t: nat, x: nat)
    requires Indexed(g, t, x) && p <= |cs|
  {
    g.tabs[t][x] != Unset ==>
      (exists q: nat :: q < p && EndsAtEntry(g, l, cs, q, t, x))
      || (exists u: nat :: u < |g.pre| && Continues(g, l, t, x, u))
  }

  ghost predicate EntryOk(g: Made, l: nat, cs: seq<seq<bool>>, ops: seq<(nat, nat)>, p: nat, t: nat, x: nat)
    requires Indexed(g, t, x) && p <= |cs|
  {
    && (forall q: nat :: q < p ==> LeafOk(g, l, cs, ops, q, t, x))
    && (forall u: nat :: u < |g.pre| ==> LinkOk(g, l, t, x, u))
    && BareOk(g, l, cs, p, t, x)
  }

  ghost predicate Entries(g: Made, l: nat, cs: seq<seq<bool>>, ops: seq<(nat, nat)>, p: nat) {
    && p <= |cs| && |g.tabs| == |g.pre| == |g.jb|
    && forall t: nat, x: nat :: Indexed(g, t, x) ==> EntryOk(g, l, cs, ops, p, t, x)
  }

  // --------------------------------------------------------------- no table yet

  /** Where code p parts from the one before it within the next l bits after w, there is no
      table on its way beyond w. */
  lemma {:induction false} FreshAt(g: Made, l: nat, cs: seq<seq<bool>>, p: nat, w: nat)
    requires IsLadder(cs) && p < |cs| && Shape(g, l, cs, p) && w % l == 0
    requires p > 0 && w + l < |cs[p - 1]| && w + l <= |cs[p]| ==> cs[p - 1][..w + l] != cs[p][..w + l]
    ensures Fresh(g, cs[p], w)
  {
    forall t | 0 <= t < |g.pre| && g.pre[t] <= cs[p] ensures |g.pre[t]| <= w {
      assert TableOk(g, l, cs, p, t);
      var q, n := g.born[t], |g.pre[t]|;
      if n > w {
        NextMultiple(w, n, l);
        Neighbour(cs, q, p, n);
        assert |cs[q]| <= |cs[p - 1]| by { if q < p - 1 { LadderLess(cs, q, p - 1); } }
        Shorter(cs[p - 1], cs[p], n, w + l);
      }
    }
  }

  lemma {:induction false} Shorter(a: seq<bool>, b: seq<bool>, n: nat, m: nat)
    requires n <= |a| && n <= |b| && a[..n] == b[..n] && m <= n
    ensures a[..m] == b[..m]
  {
    assert a[..m] == a[..n][..m] && b[..m] == b[..n][..m];
  }

  lemma {:induction false} NextMultiple(w: nat, n: nat, l: nat)
    requires l >= 1 && w % l == 0 && n % l == 0 && w < n
    ensures w + l <= n
  {
    var a, b := w / l, n / l;
    MulUp(l, b, a);
    MulUp(l, a + 1, b);
  }

  lemma {:induction false} MulUp(l: nat, x: nat, y: nat)
    ensures x <= y ==> l * x <= l * y
  {
  }

  /** Then no code taken goes on after those bits. */
  lemma {:induction false} NoneUnder(g: Made, l: nat, cs: seq<seq<bool>>, p: nat, w: nat, q: nat)
    requires AllRooted(g, l, cs, p) && p < |cs| && w < |cs[p]| && w % l == 0 && q < p
    requires !HasTable(g, cs[p][..w])
    ensures w < |cs[q]| ==> cs[q][..w] != cs[p][..w]
  {
    assert Rooted(g, l, cs, q);
  }

  // ------------------------------------------------------------------ growing

  /** Everything huft_build keeps when p codes are taken and the tables for codes before top
      are made. */
  ghost predicate Built(g: Made, l: nat, cs: seq<seq<bool>>, ops: seq<(nat, nat)>, p: nat, top: nat) {
    && IsLadder(cs) && p <= top <= |cs| && |ops| <= |cs|
    && Shape(g, l, cs, top) && OnePrefix(g) && AllRooted(g, l, cs, p) && Entries(g, l, cs, ops, p)
  }

  /** A new table of j bits for code p, after the bits s; entry x of table t leads to it. */
  function Grown(g: Made, l: nat, p: nat, s: seq<bool>, j: nat, t: nat, x: nat): Made
    requires s != [] ==> t < |g.tabs| && x < |g.tabs[t]|
  {
    var tabs := if s == [] then g.tabs else g.tabs[t := g.tabs[t][x := Huft(16 + j, l, |g.tabs|)]];
    Made(tabs + [seq(Pow2(j), _ => Unset)], g.pre + [s], g.jb + [j], g.born + [p])
  }

  /** The place is right: the table s belongs to the way of code p, and is not there yet. */
  ghost predicate CanGrow(g: Made, l: nat, cs: seq<seq<bool>>, p: nat, s: seq<bool>, j: nat, t: nat, x: nat) {
    && p < |cs| && |s| < |cs[p]| && s == cs[p][..|s|] && ZeroFrom(cs[p], |s|) && l >= 1 && |s| % l == 0
    && !HasTable(g, s) && Fresh(g, cs[p], |s|)
    && (s == [] ==> g.tabs == [])
    && (s != [] ==>
          && Indexed(g, t, x) && |s| == |g.pre[t]| + l && g.pre[t] <= s
          && l <= g.jb[t] && x < Pow2(l) && Lsb(x, l) == s[|g.pre[t]|..])
  }

  lemma {:induction false} GrownOther(g: Made, l: nat, cs: seq<seq<bool>>, ops: seq<(nat, nat)>, p: nat,
                                      s: seq<bool>, j: nat, t: nat, x: nat, t': nat, x': nat)
    requires Built(g, l, cs, ops, p, p + 1) && CanGrow(g, l, cs, p, s, j, t, x) && s != []
    requires Indexed(g, t', x') && (t', x') != (t, x)
    ensures Indexed(Grown(g, l, p, s, j, t, x), t', x') && EntryOk(Grown(g, l, p, s, j, t, x), l, cs, ops, p, t', x')
  {
    hide IsLadder, AllRooted, Rooted, Fresh, Shape, Lsb, Pow2;
    var h, n := Grown(g, l, p, s, j, t, x), |g.tabs|;
    ShapeAt(g, l, cs, p + 1, t');
    ShapeAt(g, l, cs, p + 1, t);
    assert EntryOk(g, l, cs, ops, p, t', x');
    assert h.tabs[t'][x'] == g.tabs[t'][x'] && Path(h, t', x') == Path(g, t', x');
    forall q: nat | q < p ensures LeafOk(h, l, cs, ops, q, t', x') {
      assert LeafOk(g, l, cs, ops, q, t', x');
    }
    forall u: nat | u < |h.pre| ensures LinkOk(h, l, t', x', u) {
      if u < n {
        assert LinkOk(g, l, t', x', u);
      } else if Continues(h, l, t', x', u) {
        SamePlace(g, l, cs, ops, p, s, j, t, x, t', x');
      }
    }
    BareGrown(g, h, l, cs, p, t', x');
  }

  /** Only entry x of table t leads to the bits s. */
  lemma {:induction false} SamePlace(g: Made, l: nat, cs: seq<seq<bool>>, ops: seq<(nat, nat)>, p: nat,
                                     s: seq<bool>, j: nat, t: nat, x: nat, t': nat, x': nat)
    requires Built(g, l, cs, ops, p, p + 1) && CanGrow(g, l, cs, p, s, j, t, x) && s != []
    requires Indexed(g, t', x') && |s| == |g.pre[t']| + l && s <= Path(g, t', x') && x' < Pow2(l)
    ensures t' == t && x' == x
  {
    hide IsLadder, AllRooted, Rooted, Fresh, Entries, Lsb;
    var w := |g.pre[t]|;
    assert g.pre[t'] == Path(g, t', x')[..w] == s[..w] == g.pre[t];
    assert OnePrefix(g) && t' == t;
    var b := Lsb(x', g.jb[t]);
    assert l <= |b| && b[..l] == Path(g, t', x')[w..w + l] == s[w..];
    LsbSmall(x', l, g.jb[t]);
    LsbInjective(x, x', l);
  }

  lemma {:induction false} ShapeAt(g: Made, l: nat, cs: seq<seq<bool>>, top: nat, t: nat)
    requires Shape(g, l, cs, top) && t < |g.tabs|
    ensures |g.tabs| == |g.pre| == |g.jb| == |g.born| && TableOk(g, l, cs, top, t)
  {
  }

  /** What was written stays explained when there are more tables. */
  lemma {:induction false} BareGrown(g: Made, h: Made, l: nat, cs: seq<seq<bool>>, p: nat, t: nat, x: nat)
    requires Indexed(g, t, x) && Indexed(h, t, x) && p <= |cs| && BareOk(g, l, cs, p, t, x)
    requires g.pre <= h.pre && g.jb <= h.jb && h.tabs[t][x] == g.tabs[t][x]
    ensures BareOk(h, l, cs, p, t, x)
  {
    assert Path(h, t, x) == Path(g, t, x);
    if h.tabs[t][x] != Unset {
      if q: nat :| q < p && EndsAtEntry(g, l, cs, q, t, x) {
        assert EndsAtEntry(h, l, cs, q, t, x);
      } else {
        var u: nat :| u < |g.pre| && Continues(g, l, t, x, u);
        assert Continues(h, l, t, x, u);
      }
    }
  }

  lemma {:induction false} GrownLink(g: Made, l: nat, cs: seq<seq<bool>>, ops: seq<(nat, nat)>, p: nat,
                                     s: seq<bool>, j: nat, t: nat, x: nat)
    requires Built(g, l, cs, ops, p, p + 1) && CanGrow(g, l, cs, p, s, j, t, x) && s != []
    ensures Indexed(Grown(g, l, p, s, j, t, x), t, x) && EntryOk(Grown(g, l, p, s, j, t, x), l, cs, ops, p, t, x)
  {
    hide IsLadder, AllRooted, Rooted, Fresh, Shape, Lsb, Pow2, Entries;
    var h, n := Grown(g, l, p, s, j, t, x), |g.tabs|;
    var w := |g.pre[t]|;
    ShapeAt(g, l, cs, p + 1, t);
    LsbSmall(x, l, g.jb[t]);
    assert Path(h, t, x)[..|s|] == s by {
      assert Path(h, t, x) == g.pre[t] + Lsb(x, g.jb[t]);
      assert s == s[..w] + s[w..];
    }
    forall q: nat | q < p ensures !EndsAtEntry(h, l, cs, q, t, x) {
      if EndsAtEntry(h, l, cs, q, t, x) {
        Nest(cs[q], s, Path(h, t, x));
        LadderApart(cs, q, p);
      }
    }
    forall u: nat | u < |h.pre| ensures LinkOk(h, l, t, x, u) {
      assert u < n ==> !Continues(h, l, t, x, u);
    }
    assert Continues(h, l, t, x, n);
  }

  lemma {:induction false} GrownNew(g: Made, l: nat, cs: seq<seq<bool>>, ops: seq<(nat, nat)>, p: nat,
                                    s: seq<bool>, j: nat, t: nat, x: nat, x': nat)
    requires Built(g, l, cs, ops, p, p + 1) && CanGrow(g, l, cs, p, s, j, t, x)
    requires Indexed(Grown(g, l, p, s, j, t, x), |g.tabs|, x')
    ensures EntryOk(Grown(g, l, p, s, j, t, x), l, cs, ops, p, |g.tabs|, x')
  {
    hide IsLadder, AllRooted, Rooted, Shape, Lsb, Pow2, Entries;
    var h, n, w := Grown(g, l, p, s, j, t, x), |g.tabs|, |s|;
    assert Path(h, n, x')[..w] == s;
    forall q: nat | q < p ensures !EndsAtEntry(h, l, cs, q, n, x') {
      if EndsAtEntry(h, l, cs, q, n, x') {
        assert cs[q][..w] == Path(h, n, x')[..w];
        NoneUnder(g, l, cs, p, w, q);
      }
    }
    forall u: nat | u < |h.pre| ensures !Continues(h, l, n, x', u) {
      ShapeSize(g, l, cs, p + 1);
      if u < n && Continues(h, l, n, x', u) {
        ShapeAt(g, l, cs, p + 1, u);
        var q := g.born[u];
        assert g.pre[u][..w] == Path(h, n, x')[..w];
        assert cs[q][..w] == g.pre[u][..w];
        if q < p { NoneUnder(g, l, cs, p, w, q); }
      }
    }
  }

  lemma {:induction false} ShapeSize(g: Made, l: nat, cs: seq<seq<bool>>, top: nat)
    requires Shape(g, l, cs, top)
    ensures |g.tabs| == |g.pre| == |g.jb| == |g.born| && l >= 1
  {
  }

  /** A new table keeps everything. */
  lemma {:induction false} GrownBuilt(g: Made, l: nat, cs: seq<seq<bool>>, ops: seq<(nat, nat)>, p: nat,
                                      s: seq<bool>, j: nat, t: nat, x: nat)
    requires Built(g, l, cs, ops, p, p + 1) && CanGrow(g, l, cs, p, s, j, t, x)
    ensures Built(Grown(g, l, p, s, j, t, x), l, cs, ops, p, p + 1)
    ensures HasTable(Grown(g, l, p, s, j, t, x), s) && Fresh(Grown(g, l, p, s, j, t, x), cs[p], |s|)
  {
    hide IsLadder, Rooted, Lsb, Pow2, EntryOk;
    var h, n := Grown(g, l, p, s, j, t, x), |g.tabs|;
    ShapeSize(g, l, cs, p + 1);
    GrownShape(g, l, cs, p, s, j, t, x);
    GrownRooted(g, l, cs, p, s, j, t, x);
    forall t': nat, x': nat | Indexed(h, t', x') ensures EntryOk(h, l, cs, ops, p, t', x') {
      GrownEntry(g, l, cs, ops, p, s, j, t, x, t', x');
    }
    assert h.pre[n] == s;
  }

  lemma {:induction false} GrownEntry(g: Made, l: nat, cs: seq<seq<bool>>, ops: seq<(nat, nat)>, p: nat,
                                      s: seq<bool>, j: nat, t: nat, x: nat, t': nat, x': nat)
    requires Built(g, l, cs, ops, p, p + 1) && CanGrow(g, l, cs, p, s, j, t, x)
    requires Indexed(Grown(g, l, p, s, j, t, x), t', x')
    ensures EntryOk(Grown(g, l, p, s, j, t, x), l, cs, ops, p, t', x')
  {
    hide IsLadder, Rooted, Lsb, Pow2, EntryOk, Shape, OnePrefix, AllRooted, Entries, Fresh;
    ShapeSize(g, l, cs, p + 1);
    if t' == |g.tabs| {
      GrownNew(g, l, cs, ops, p, s, j, t, x, x');
    } else if t' == t && x' == x {
      GrownLink(g, l, cs, ops, p, s, j, t, x);
    } else {
      GrownOther(g, l, cs, ops, p, s, j, t, x, t', x');
    }
  }

  lemma {:induction false} GrownShape(g: Made, l: nat, cs: seq<seq<bool>>, p: nat, s: seq<bool>, j: nat, t: nat, x: nat)
    requires Shape(g, l, cs, p + 1) && OnePrefix(g) && CanGrow(g, l, cs, p, s, j, t, x)
    ensures Shape(Grown(g, l, p, s, j, t, x), l, cs, p + 1) && OnePrefix(Grown(g, l, p, s, j, t, x))
    ensures Fresh(Grown(g, l, p, s, j, t, x), cs[p], |s|)
  {
    hide Lsb, Pow2;
    var h, n, top := Grown(g, l, p, s, j, t, x), |g.tabs|, p + 1;
    forall u | 0 <= u < |h.tabs| ensures TableOk(h, l, cs, top, u) {
      if u < n { assert TableOk(g, l, cs, top, u); }
    }
    forall u, v | 0 <= u < |h.pre| && 0 <= v < |h.pre| && h.pre[u] == h.pre[v] ensures u == v {
      assert u < n ==> h.pre[u] != s;
      assert v < n ==> h.pre[v] != s;
    }
  }

  lemma {:induction false} GrownRooted(g: Made, l: nat, cs: seq<seq<bool>>, p: nat, s: seq<bool>, j: nat, t: nat,
                                       x: nat)
    requires AllRooted(g, l, cs, p) && CanGrow(g, l, cs, p, s, j, t, x)
    ensures AllRooted(Grown(g, l, p, s, j, t, x), l, cs, p)
  {
    hide Lsb, Pow2, Fresh;
    var h := Grown(g, l, p, s, j, t, x);
    forall q: nat | q < p ensures Rooted(h, l, cs, q) {
      assert Rooted(g, l, cs, q);
      forall w: nat | w < |cs[q]| && w % l == 0 ensures HasTable(h, cs[q][..w]) {
        assert HasTable(g, cs[q][..w]);
        var u: nat :| u < |g.pre| && g.pre[u] == cs[q][..w];
        assert h.pre[u] == g.pre[u];
      }
    }
  }

  // ------------------------------------------------------------------ filling

  /** Table t with r at every entry that code p leads to. */
  ghost predicate IsFilled(g: Made, h: Made, cs: seq<seq<bool>>, p: nat, t: nat, r: Huft)
    requires t < |g.tabs| == |g.pre| == |g.jb| && p < |cs|
  {
    && h.pre == g.pre && h.jb == g.jb && h.born == g.born && |h.tabs| == |g.tabs| && |h.tabs[t]| == |g.tabs[t]|
    && (forall u :: 0 <= u < |g.tabs| && u != t ==> h.tabs[u] == g.tabs[u])
    && forall x: nat :: x < |g.tabs[t]| ==> h.tabs[t][x] == if cs[p] <= Path(g, t, x) then r else g.tabs[t][x]
  }

  ghost predicate CanFill(g: Made, l: nat, cs: seq<seq<bool>>, ops: seq<(nat, nat)>, p: nat, t: nat, r: Huft) {
    && p < |cs| && t < |g.tabs| == |g.pre| == |g.jb| && l >= 1
    && g.pre[t] <= cs[p] && |g.pre[t]| < |cs[p]| <= |g.pre[t]| + l
    && LeafIs(r, cs, ops, p, |g.pre[t]|)
    && Rooted(g, l, cs, p)
  }

  lemma {:induction false} FilledHere(g: Made, h: Made, l: nat, cs: seq<seq<bool>>, ops: seq<(nat, nat)>, p: nat,
                                      t: nat, r: Huft, x: nat)
    requires Built(g, l, cs, ops, p, p + 1) && CanFill(g, l, cs, ops, p, t, r) && IsFilled(g, h, cs, p, t, r)
    requires Indexed(h, t, x) && cs[p] <= Path(g, t, x)
    ensures EntryOk(h, l, cs, ops, p + 1, t, x)
  {
    hide IsLadder, AllRooted, Rooted, Shape, Lsb, Pow2, Entries;
    assert Path(h, t, x) == Path(g, t, x) && h.tabs[t][x] == r;
    forall q: nat | q < p + 1 ensures LeafOk(h, l, cs, ops, q, t, x) {
      if EndsAtEntry(h, l, cs, q, t, x) { OneCode(cs, q, p, Path(g, t, x)); }
    }
    forall u: nat | u < |h.pre| ensures !Continues(h, l, t, x, u) {
      if Continues(h, l, t, x, u) {
        ShapeSize(g, l, cs, p + 1);
        ShapeAt(g, l, cs, p + 1, u);
        Nest(cs[p], g.pre[u], Path(g, t, x));
        LadderApart(cs, p, g.born[u]);
      }
    }
    assert EndsAtEntry(h, l, cs, p, t, x);
  }

  lemma {:induction false} FilledOther(g: Made, h: Made, l: nat, cs: seq<seq<bool>>, ops: seq<(nat, nat)>, p: nat,
                                       t: nat, r: Huft, t': nat, x': nat)
    requires Built(g, l, cs, ops, p, p + 1) && CanFill(g, l, cs, ops, p, t, r) && IsFilled(g, h, cs, p, t, r)
    requires Indexed(h, t', x') && !(t' == t && cs[p] <= Path(g, t, x'))
    ensures EntryOk(h, l, cs, ops, p + 1, t', x')
  {
    hide IsLadder, AllRooted, Rooted, Shape, Lsb, Pow2;
    assert Path(h, t', x') == Path(g, t', x') && h.tabs[t'][x'] == g.tabs[t'][x'];
    assert EntryOk(g, l, cs, ops, p, t', x');
    forall q: nat | q < p + 1 ensures LeafOk(h, l, cs, ops, q, t', x') {
      if q < p {
        assert LeafOk(g, l, cs, ops, q, t', x');
      } else if EndsAtEntry(h, l, cs, p, t', x') {
        OneLevel(g, l, cs, p, t, t');

      }
    }
    forall u: nat | u < |h.pre| ensures LinkOk(h, l, t', x', u) {
      assert LinkOk(g, l, t', x', u);
    }
    if h.tabs[t'][x'] != Unset {
      if q: nat :| q < p && EndsAtEntry(g, l, cs, q, t', x') {
        assert EndsAtEntry(h, l, cs, q, t', x');
      } else {
        var u: nat :| u < |g.pre| && Continues(g, l, t', x', u);
        assert Continues(h, l, t', x', u);
      }
    }
  }

  /** A code ends at one level only. */
  lemma {:induction false} OneLevel(g: Made, l: nat, cs: seq<seq<bool>>, p: nat, t: nat, t': nat)
    requires Shape(g, l, cs, p + 1) && t < |g.tabs| && t' < |g.tabs| && p < |cs|
    requires |g.pre[t]| < |cs[p]| <= |g.pre[t]| + l && |g.pre[t']| < |cs[p]| <= |g.pre[t']| + l
    ensures |g.pre[t]| == |g.pre[t']|
  {
    ShapeAt(g, l, cs, p + 1, t);
    ShapeAt(g, l, cs, p + 1, t');
    if |g.pre[t]| < |g.pre[t']| { NextMultiple(|g.pre[t]|, |g.pre[t']|, l); }
    if |g.pre[t']| < |g.pre[t]| { NextMultiple(|g.pre[t']|, |g.pre[t]|, l); }
  }

  /** Filling in code p takes it. */
  lemma {:induction false} FilledBuilt(g: Made, h: Made, l: nat, cs: seq<seq<bool>>, ops: seq<(nat, nat)>, p: nat,
                                       t: nat, r: Huft)
    requires Built(g, l, cs, ops, p, p + 1) && CanFill(g, l, cs, ops, p, t, r) && IsFilled(g, h, cs, p, t, r)
    ensures Built(h, l, cs, ops, p + 1, p + 1)
  {
    hide IsLadder, Lsb, Pow2, EntryOk, Path;
    ShapeSize(g, l, cs, p + 1);
    var top := p + 1;
    forall u | 0 <= u < |h.tabs| ensures TableOk(h, l, cs, top, u) {
      assert TableOk(g, l, cs, top, u);
    }
    forall q: nat | q < p + 1 ensures Rooted(h, l, cs, q) {
      assert Rooted(g, l, cs, q);
      RootedSame(g, h, l, cs, q);
    }
    forall t': nat, x': nat | Indexed(h, t', x') ensures EntryOk(h, l, cs, ops, p + 1, t', x') {
      if t' == t && cs[p] <= Path(g, t, x') {
        FilledHere(g, h, l, cs, ops, p, t, r, x');
      } else {
        FilledOther(g, h, l, cs, ops, p, t, r, t', x');
      }
    }
  }

  lemma {:induction false} RootedSame(g: Made, h: Made, l: nat, cs: seq<seq<bool>>, q: nat)
    requires q < |cs| && l >= 1 && Rooted(g, l, cs, q) && g.pre == h.pre
    ensures Rooted(h, l, cs, q)
  {
    forall w: nat | w < |cs[q]| && w % l == 0 ensures HasTable(h, cs[q][..w]) {
      assert HasTable(g, cs[q][..w]);
    }
  }
}
