/** Looking codes up in the tables of huft_build, as inflate_codes of archive/gzip/inflate.c
    does: what it finds, and when it does not. */
module HuftWalk {
  import opened BitString
  import opened GzipBits
  import opened Ladder
  import opened HuftTables

  /** What a look-up finds: the entry's e and v, and how many bits it used. */
  datatype Found = Miss | Found(e: nat, v: nat, n: nat)

  /** From table t, with j bits looked at, go on as long as entries lead to other tables. */
  ghost function Walk(tabs: seq<seq<Huft>>, t: nat, j: nat, s: seq<bool>): Found
    decreases |s|
  {
    if t >= |tabs| || j > |s| || Rev(s[..j]) >= |tabs[t]| then Miss
    else
      var en := tabs[t][Rev(s[..j])];
      if en.Unset? || en.b > |s| then Miss
      else if en.e <= 16 || en.e == 99 then Found(en.e, en.v, en.b)
      else if en.b == 0 then Miss
      else More(Walk(tabs, en.v, en.e - 16, s[en.b..]), en.b)
  }

  function More(f: Found, n: nat): Found {
    match f
    case Miss => Miss
    case Found(e, v, k) => Found(e, v, k + n)
  }

  /** What the walk along code q, n bits of which are left, must find. */
  ghost predicate Lands(f: Found, ops: seq<(nat, nat)>, q: nat, n: nat) {
    if q < |ops| then f == Found(ops[q].0, ops[q].1, n) else f.Miss? || f.e == 99
  }

  ghost predicate OpsOk(ops: seq<(nat, nat)>) { forall q :: 0 <= q < |ops| ==> ops[q].0 <= 16 || ops[q].0 == 99 }

  /** The number of bits of table t: it covers every code that ends in it; if longer codes go
      on from it, it has l bits when its first code is shorter than that, and else too many. */
  ghost predicate SizeOk(g: Made, l: nat, cs: seq<seq<bool>>, max: nat, t: nat)
    requires t < |g.pre| == |g.jb| == |g.born| && g.born[t] < |cs|
  {
    && |g.pre[t]| + g.jb[t] <= max + 1
    && (|cs[g.born[t]]| <= |g.pre[t]| + l ==> g.jb[t] <= l + 1)
    && forall q: nat :: q < |cs| && g.pre[t] <= cs[q] ==> CodeFitsTable(g, l, cs, t, q)
  }

  ghost predicate CodeFitsTable(g: Made, l: nat, cs: seq<seq<bool>>, t: nat, q: nat)
    requires t < |g.pre| == |g.jb| == |g.born| && g.born[t] < |cs| && q < |cs|
  {
    var w := |g.pre[t]|;
    if |cs[q]| <= w + l then |cs[q]| <= w + g.jb[t]
    else if |cs[g.born[t]]| < w + l then g.jb[t] == l else g.jb[t] > l
  }

  ghost predicate AllSizes(g: Made, l: nat, cs: seq<seq<bool>>, max: nat) {
    && |g.tabs| == |g.pre| == |g.jb| == |g.born|
    && forall t :: 0 <= t < |g.tabs| ==> g.born[t] < |cs| && SizeOk(g, l, cs, max, t)
  }

  /** Table t is looked at with as many bits as its links need. */
  ghost predicate Straight(g: Made, l: nat, cs: seq<seq<bool>>, t: nat)
    requires t < |g.pre| == |g.jb|
  {
    forall q: nat :: q < |cs| && g.pre[t] <= cs[q] && |cs[q]| > |g.pre[t]| + l ==> g.jb[t] == l
  }

  ghost predicate AllStraight(g: Made, l: nat, cs: seq<seq<bool>>) {
    |g.pre| == |g.jb| && forall t :: 1 <= t < |g.pre| ==> Straight(g, l, cs, t)
  }

  /** The tables are finished. */
  ghost predicate Finished(g: Made, l: nat, cs: seq<seq<bool>>, ops: seq<(nat, nat)>, max: nat) {
    && Built(g, l, cs, ops, |cs|, |cs|) && AllSizes(g, l, cs, max) && OpsOk(ops) && g.tabs != [] && l <= g.jb[0]
    && l <= max <= 16
  }

  /** How many bits a table is looked at with: the first with the l bits returned. */
  function Looked(g: Made, l: nat, t: nat): nat
    requires t < |g.jb|
  {
    if t == 0 then l else g.jb[t]
  }

  /** The entry the first j bits of a stream lead to. */
  lemma {:induction false} EntryAt(g: Made, t: nat, j: nat, s: seq<bool>, l: nat, cs: seq<seq<bool>>, top: nat)
    requires Shape(g, l, cs, top) && t < |g.tabs| && j <= g.jb[t] && j <= |s|
    ensures Indexed(g, t, Rev(s[..j])) && Rev(s[..j]) < Pow2(j)
    ensures |Path(g, t, Rev(s[..j]))| == |g.pre[t]| + g.jb[t]
    ensures Path(g, t, Rev(s[..j]))[..|g.pre[t]| + j] == g.pre[t] + s[..j]
  {
    hide Lsb;
    ShapeAt(g, l, cs, top, t);
    var x := Rev(s[..j]);
    Pow2Monotone(j, g.jb[t]);
    RevLsb(s[..j]);
    LsbSmall(x, j, g.jb[t]);
  }

  lemma {:induction false} SizeAt(g: Made, l: nat, cs: seq<seq<bool>>, ops: seq<(nat, nat)>, max: nat, t: nat, q: nat)
    requires Finished(g, l, cs, ops, max) && t < |g.tabs| && q < |cs| && g.pre[t] <= cs[q]
    ensures |g.pre| == |g.jb| == |g.born| == |g.tabs| && g.born[t] < |cs|
    ensures |g.pre[t]| + g.jb[t] <= max + 1 && CodeFitsTable(g, l, cs, t, q)
    ensures t > 0 ==> g.pre[t] != []
  {
    hide Entries, AllRooted;
    assert SizeOk(g, l, cs, max, t);
    ShapeAt(g, l, cs, |cs|, t);
  }

  /** A code that ends in table t is found there. */
  lemma {:induction false} FindsHere(g: Made, l: nat, cs: seq<seq<bool>>, ops: seq<(nat, nat)>, max: nat, q: nat,
                                     t: nat, s: seq<bool>)
    requires Finished(g, l, cs, ops, max) && t < |g.tabs| == |g.pre| && q < |cs|
    requires g.pre[t] <= cs[q] && |g.pre[t]| < |cs[q]| <= |g.pre[t]| + l
    requires cs[q][|g.pre[t]|..] <= s && |g.pre[t]| + |s| >= max + 1
    ensures t < |g.jb| && |cs[q]| - |g.pre[t]| <= Looked(g, l, t) <= |s| && Rev(s[..Looked(g, l, t)]) < |g.tabs[t]|
    ensures LeafIs(g.tabs[t][Rev(s[..Looked(g, l, t)])], cs, ops, q, |g.pre[t]|)
    ensures Lands(Walk(g.tabs, t, Looked(g, l, t), s), ops, q, |cs[q]| - |g.pre[t]|)
  {
    hide Entries, AllRooted, IsLadder, AllSizes, Shape, Lsb, Rev, Pow2, OnePrefix, EntryOk, Path;
    SizeAt(g, l, cs, ops, max, t, q);
    var w, j := |g.pre[t]|, Looked(g, l, t);
    ShapeSize(g, l, cs, |cs|);
    ShapeAt(g, l, cs, |cs|, t);
    RootEmpty(g, l, cs, |cs|);
    var n := |cs[q]| - w;
    EntryAt(g, t, j, s, l, cs, |cs|);
    var x := Rev(s[..j]);
    assert n <= j;
    assert cs[q] <= Path(g, t, x) by {
      assert s[..j][..n] == cs[q][w..];
      assert cs[q] == g.pre[t] + cs[q][w..];
      assert Path(g, t, x)[..w + j][..w + n] == Path(g, t, x)[..w + n];
    }
    EntryFact(g, l, cs, ops, t, x);
    assert LeafOk(g, l, cs, ops, q, t, x);
  }

  lemma {:induction false} RootEmpty(g: Made, l: nat, cs: seq<seq<bool>>, top: nat)
    requires Shape(g, l, cs, top) && g.tabs != []
    ensures g.pre[0] == []
  {
  }

  lemma {:induction false} EntryFact(g: Made, l: nat, cs: seq<seq<bool>>, ops: seq<(nat, nat)>, t: nat, x: nat)
    requires Entries(g, l, cs, ops, |cs|) && Indexed(g, t, x)
    ensures forall q: nat :: q < |cs| ==> LeafOk(g, l, cs, ops, q, t, x)
    ensures forall u: nat :: u < |g.pre| ==> LinkOk(g, l, t, x, u)
    ensures BareOk(g, l, cs, |cs|, t, x)
  {
    hide LeafOk, LinkOk, BareOk;
    assert EntryOk(g, l, cs, ops, |cs|, t, x);
  }

  /** Every code is found, from any table on its way, when the tables are straight. */
  lemma {:induction false} WalkFinds(g: Made, l: nat, cs: seq<seq<bool>>, ops: seq<(nat, nat)>, max: nat, q: nat,
                                     t: nat, s: seq<bool>)
    requires Finished(g, l, cs, ops, max) && AllStraight(g, l, cs)
    requires t < |g.tabs| == |g.pre| && q < |cs| && g.pre[t] <= cs[q] && |g.pre[t]| < |cs[q]|
    requires cs[q][|g.pre[t]|..] <= s && |g.pre[t]| + |s| >= max + 1
    ensures t < |g.jb| && Lands(Walk(g.tabs, t, Looked(g, l, t), s), ops, q, |cs[q]| - |g.pre[t]|)
    decreases |cs[q]| - |g.pre[t]|
  {
    hide Entries, AllRooted, Rooted, IsLadder, AllSizes, Shape, Lsb, Rev, Pow2, OnePrefix, EntryOk, Path, HasTable;
    var w := |g.pre[t]|;
    if |cs[q]| <= w + l {
      FindsHere(g, l, cs, ops, max, q, t, s);
    } else {
      SizeAt(g, l, cs, ops, max, t, q);
      assert Looked(g, l, t) == l by { if t > 0 { assert Straight(g, l, cs, t); } }
      var u := GoesOn(g, l, cs, ops, max, q, t, s);
      assert cs[q][w + l..] == cs[q][w..][l..];
      assert cs[q][w + l..] <= s[l..];
      WalkFinds(g, l, cs, ops, max, q, u, s[l..]);
    }
  }

  /** The entry at the next l bits of a longer code leads to the next table on its way. */
  lemma {:induction false} GoesOn(g: Made, l: nat, cs: seq<seq<bool>>, ops: seq<(nat, nat)>, max: nat, q: nat, t: nat,
                                  s: seq<bool>)
    returns (u: nat)
    requires Finished(g, l, cs, ops, max) && t < |g.tabs| == |g.pre| == |g.jb| && q < |cs| && l <= g.jb[t]
    requires g.pre[t] <= cs[q] && |g.pre[t]| + l < |cs[q]|
    requires cs[q][|g.pre[t]|..] <= s
    ensures 0 < u < |g.tabs| && g.pre[u] == cs[q][..|g.pre[t]| + l] && l >= 1
    ensures l <= |s| && Rev(s[..l]) < |g.tabs[t]| && g.tabs[t][Rev(s[..l])] == Huft(16 + g.jb[u], l, u)
    ensures 1 <= g.jb[u] && 16 + g.jb[u] != 99
  {
    hide Entries, IsLadder, AllSizes, Lsb, Rev, Pow2, OnePrefix, EntryOk, Path;
    var w := |g.pre[t]|;
    ShapeAt(g, l, cs, |cs|, t);
    MultipleMore(w, l);
    assert Rooted(g, l, cs, q) && HasTable(g, cs[q][..w + l]);
    u :| 0 <= u < |g.pre| && g.pre[u] == cs[q][..w + l];
    EntryAt(g, t, l, s, l, cs, |cs|);
    var x := Rev(s[..l]);
    assert g.pre[u] == g.pre[t] + s[..l] by {
      assert cs[q][..w + l] == cs[q][..w] + cs[q][w..][..l];
      assert s[..l] == cs[q][w..][..l];
    }
    assert Path(g, t, x)[..w + l] == g.pre[u];
    assert Continues(g, l, t, x, u);
    EntryFact(g, l, cs, ops, t, x);
    assert LinkOk(g, l, t, x, u);
    SizeAt(g, l, cs, ops, max, u, q);
  }

  lemma {:induction false} MultipleMore(w: nat, l: nat)
    requires l >= 1 && w % l == 0
    ensures (w + l) % l == 0
  {
    assert w == l * (w / l);
    assert w + l == l * (w / l + 1);
    MulMod(w / l + 1, l);
  }

  lemma {:induction false} MulMod(a: nat, l: nat)
    requires l >= 1
    ensures (l * a) % l == 0
  {
    var x := l * a;
    var d, r := x / l, x % l;
    assert x == l * d + r;
    MulUp(l, d + 1, a);
    MulUp(l, a, d);
  }
}
