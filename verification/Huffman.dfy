/** Why combining the two nodes of least frequency is best, for build_tree of
    archive/gzip/trees.c: no lengths that satisfy Kraft's inequality cost less. */
module Huffman {
  import opened BitString

  /** The sum of f over the nodes in a. */
  function Sum(a: set<nat>, f: seq<nat>): nat {
    if f == [] then 0
    else Sum(a, f[..|f| - 1]) + (if |f| - 1 in a then f[|f| - 1] else 0)
  }

  lemma {:induction false} SumAdd(a: set<nat>, f: seq<nat>, x: nat)
    requires x < |f| && x !in a
    ensures Sum(a + {x}, f) == Sum(a, f) + f[x]
  {
    var n := |f| - 1;
    if x < n {
      SumAdd(a, f[..n], x);
    } else {
      SumSame(a, a + {x}, f[..n], f[..n]);
    }
  }

  lemma {:induction false} SumSame(a: set<nat>, b: set<nat>, f: seq<nat>, g: seq<nat>)
    requires |f| == |g|
    requires forall i :: 0 <= i < |f| ==> (i in a <==> i in b) && (i in a ==> f[i] == g[i])
    ensures Sum(a, f) == Sum(b, g)
  {
    if f != [] {
      var n := |f| - 1;
      SumSame(a, b, f[..n], g[..n]);
    }
  }

  lemma {:induction false} SumRemove(a: set<nat>, f: seq<nat>, x: nat)
    requires x < |f| && x in a
    ensures Sum(a, f) == Sum(a - {x}, f) + f[x]
  {
    SumAdd(a - {x}, f, x);
    assert a - {x} + {x} == a;
  }

  lemma {:induction false} SumUpdate(a: set<nat>, f: seq<nat>, x: nat, v: nat)
    requires x < |f| && x in a
    ensures Sum(a, f[x := v]) + f[x] == Sum(a, f) + v
  {
    SumRemove(a, f, x);
    SumRemove(a, f[x := v], x);
    SumSame(a - {x}, a - {x}, f, f[x := v]);
  }

  lemma {:induction false} SumUnion(a: set<nat>, b: set<nat>, s: seq<nat>)
    requires a !! b
    ensures Sum(a + b, s) == Sum(a, s) + Sum(b, s)
  {
    if s != [] { SumUnion(a, b, s[..|s| - 1]); }
  }

  // ------------------------------------------------------------------- lengths

  /** What lengths l take of the code space 2^m, node by node. */
  function Shares(l: seq<nat>, m: nat): (s: seq<nat>)
    ensures |s| == |l| && forall i :: 0 <= i < |l| ==> s[i] == Share(l[i], m)
  {
    seq(|l|, i requires 0 <= i < |l| => Share(l[i], m))
  }

  function Share(n: nat, m: nat): nat { if n <= m then Pow2(m - n) else 0 }

  function Costs(f: seq<nat>, l: seq<nat>): (s: seq<nat>)
    requires |f| == |l|
    ensures |s| == |f| && forall i :: 0 <= i < |f| ==> s[i] == f[i] * l[i]
  {
    seq(|f|, i requires 0 <= i < |f| => f[i] * l[i])
  }

  /** Lengths of up to m bits for the nodes of a that satisfy Kraft's inequality. */
  ghost predicate Fit(a: set<nat>, l: seq<nat>, m: nat) {
    && (forall x :: x in a ==> x < |l| && l[x] <= m)
    && Sum(a, Shares(l, m)) <= Pow2(m)
  }

  function Cost(a: set<nat>, f: seq<nat>, l: seq<nat>): nat
    requires |f| == |l|
  {
    Sum(a, Costs(f, l))
  }

  lemma {:induction false} SharesUpdate(l: seq<nat>, m: nat, x: nat, v: nat)
    requires x < |l|
    ensures Shares(l[x := v], m) == Shares(l, m)[x := Share(v, m)]
  {
  }

  lemma {:induction false} CostsUpdate(f: seq<nat>, l: seq<nat>, x: nat, v: nat)
    requires |f| == |l| && x < |l|
    ensures Costs(f, l[x := v]) == Costs(f, l)[x := f[x] * v]
  {
  }

  lemma {:induction false} FitUpdate(a: set<nat>, l: seq<nat>, m: nat, x: nat, v: nat)
    requires x in a && x < |l|
    ensures Sum(a, Shares(l[x := v], m)) + Share(l[x], m) == Sum(a, Shares(l, m)) + Share(v, m)
  {
    SharesUpdate(l, m, x, v);
    SumUpdate(a, Shares(l, m), x, Share(v, m));
  }

  lemma {:induction false} CostUpdate(a: set<nat>, f: seq<nat>, l: seq<nat>, x: nat, v: nat)
    requires |f| == |l| && x in a && x < |l|
    ensures Cost(a, f, l[x := v]) + f[x] * l[x] == Cost(a, f, l) + f[x] * v
  {
    CostsUpdate(f, l, x, v);
    SumUpdate(a, Costs(f, l), x, f[x] * v);
  }

  /** Giving the longer of two lengths to the rarer node. */
  lemma {:induction false} Exchange(a: set<nat>, f: seq<nat>, l: seq<nat>, m: nat, x: nat, p: nat)
    requires |f| == |l| && Fit(a, l, m) && x in a && p in a && f[x] <= f[p] && l[x] <= l[p]
    ensures Fit(a, l[x := l[p]][p := l[x]], m) && Cost(a, f, l[x := l[p]][p := l[x]]) <= Cost(a, f, l)
  {
    if x != p {
      var k := l[x := l[p]];
      FitUpdate(a, l, m, x, l[p]);
      FitUpdate(a, k, m, p, l[x]);
      CostUpdate(a, f, l, x, l[p]);
      CostUpdate(a, f, k, p, l[x]);
      Products(f[x], f[p], l[x], l[p]);
    } else {
      assert l[x := l[p]][p := l[x]] == l;
    }
  }

  lemma {:induction false} Products(a: nat, b: nat, c: nat, d: nat)
    requires a <= b && c <= d
    ensures a * d + b * c <= a * c + b * d
  {
    assert (b - a) * (d - c) >= 0;
  }

  /** A node whose length no other in a exceeds. */
  lemma {:induction false} Longest(a: set<nat>, l: seq<nat>) returns (p: nat)
    requires a != {} && forall x :: x in a ==> x < |l|
    ensures p in a && forall x :: x in a ==> l[x] <= l[p]
    decreases |a|
  {
    var q :| q in a;
    if a == {q} {
      p := q;
    } else {
      p := Longest(a - {q}, l);
      if l[p] < l[q] { p := q; }
    }
  }

  /** Lengths of up to k bits take a whole number of 2^(m-k) parts. */
  lemma {:induction false} WholeShares(a: set<nat>, l: seq<nat>, m: nat, k: nat) returns (c: nat)
    requires k <= m && forall x :: x in a && x < |l| ==> l[x] <= k
    ensures Sum(a, Shares(l, m)) == c * Pow2(m - k)
    decreases |l|
  {
    hide Pow2;
    if l == [] {
      c := 0;
    } else {
      var n := |l| - 1;
      c := WholeShares(a, l[..n], m, k);
      assert Shares(l, m)[..n] == Shares(l[..n], m);
      if n in a {
        PowParts(l[n], k, m);
        Distribute(c, Pow2(k - l[n]), Pow2(m - k));
        c := c + Pow2(k - l[n]);
      }
    }
  }

  lemma {:induction false} Distribute(a: nat, b: nat, q: nat)
    ensures (a + b) * q == a * q + b * q
  {
  }

  lemma {:induction false} TimesUp(a: nat, b: nat, q: nat)
    ensures a <= b ==> a * q <= b * q
  {
  }

  lemma {:induction false} PowParts(n: nat, k: nat, m: nat)
    requires n <= k <= m
    ensures Pow2(m - n) == Pow2(k - n) * Pow2(m - k)
    decreases k - n
  {
    if n < k { PowParts(n + 1, k, m); }
  }

  lemma {:induction false} OneLess(c: nat, q: nat, t: nat, s: nat)
    requires q >= 1 && c * q + s <= t * q && s >= 1
    ensures (c + 1) * q <= t * q
  {
    TimesUp(t, c, q);
    TimesUp(c + 1, t, q);
  }

  /** The longest node can be as short as the next longest. */
  lemma {:induction false} Shorten(a: set<nat>, f: seq<nat>, l: seq<nat>, m: nat, x: nat, y: nat)
    requires |f| == |l| && Fit(a, l, m) && x in a && y in a && x != y && l[y] <= l[x]
    requires forall z :: z in a && z != x ==> l[z] <= l[y]
    ensures Fit(a, l[x := l[y]], m) && Cost(a, f, l[x := l[y]]) <= Cost(a, f, l)
  {
    var k, b := l[y], a - {x};
    var c := WholeShares(b, l, m, k);
    SumRemove(a, Shares(l, m), x);
    PowParts(0, k, m);
    OneLess(c, Pow2(m - k), Pow2(k), Share(l[x], m));
    assert (c + 1) * Pow2(m - k) == c * Pow2(m - k) + Pow2(m - k);
    FitUpdate(a, l, m, x, k);
    CostUpdate(a, f, l, x, k);
    assert f[x] * k <= f[x] * l[x] by { Products(0, f[x], k, l[x]); }
  }

  /** x and y, of least frequency in a, can be the longest nodes, and equally long. */
  lemma {:induction false} Rearrange(a: set<nat>, f: seq<nat>, l: seq<nat>, m: nat, x: nat, y: nat)
    returns (k: seq<nat>)
    requires |f| == |l| && Fit(a, l, m) && x in a && y in a && x != y
    requires forall z :: z in a ==> f[x] <= f[z]
    requires forall z :: z in a && z != x ==> f[y] <= f[z]
    ensures |k| == |l| && Fit(a, k, m) && Cost(a, f, k) <= Cost(a, f, l) && k[x] == k[y]
  {
    var p := Longest(a, l);
    Exchange(a, f, l, m, x, p);
    var l1 := l[x := l[p]][p := l[x]];
    assert y in a - {x};
    var q := Longest(a - {x}, l1);
    Exchange(a, f, l1, m, y, q);
    var l2 := l1[y := l1[q]][q := l1[y]];
    Shorten(a, f, l2, m, x, y);
    k := l2[x := l2[y]];
  }

  /** Merging x and y into z: lengths for a give lengths for what a becomes, that cost less by
      the frequency of z. */
  lemma {:induction false} Merge(a: set<nat>, f: seq<nat>, l: seq<nat>, m: nat, x: nat, y: nat, z: nat)
    returns (k: seq<nat>)
    requires |f| == |l| && Fit(a, l, m) && x in a && y in a && x != y && z !in a && z < |f|
    requires forall w :: w in a ==> f[x] <= f[w]
    requires forall w :: w in a && w != x ==> f[y] <= f[w]
    ensures |k| == |l| && Fit(a - {x} - {y} + {z}, k, m)
    ensures Cost(a - {x} - {y} + {z}, f[z := f[x] + f[y]], k) + f[x] + f[y] <= Cost(a, f, l)
  {
    var l1 := Rearrange(a, f, l, m, x, y);
    NotZero(a, l1, m, x, y);
    k := l1[z := l1[x] - 1];
    MergeShares(a, l1, m, x, y, z);
    MergeCosts(a, f, l1, x, y, z);
  }

  lemma {:induction false} NotZero(a: set<nat>, l: seq<nat>, m: nat, x: nat, y: nat)
    requires Fit(a, l, m) && x in a && y in a && x != y && l[x] == l[y]
    ensures l[x] > 0
  {
    SumRemove(a, Shares(l, m), x);
    SumRemove(a - {x}, Shares(l, m), y);
  }

  lemma {:induction false} MergeShares(a: set<nat>, l: seq<nat>, m: nat, x: nat, y: nat, z: nat)
    requires Fit(a, l, m) && x in a && y in a && x != y && z !in a && z < |l| && l[x] == l[y] > 0
    ensures Fit(a - {x} - {y} + {z}, l[z := l[x] - 1], m)
  {
    var b, k := a - {x} - {y}, l[z := l[x] - 1];
    SumRemove(a, Shares(l, m), x);
    SumRemove(a - {x}, Shares(l, m), y);
    SumSame(b, b, Shares(l, m), Shares(k, m));
    SumAdd(b, Shares(k, m), z);
    assert Share(l[x] - 1, m) == 2 * Share(l[x], m);
  }

  lemma {:induction false} MergeCosts(a: set<nat>, f: seq<nat>, l: seq<nat>, x: nat, y: nat, z: nat)
    requires |f| == |l| && x in a && y in a && x < |f| && y < |f| && x != y && z !in a && z < |l| && l[x] == l[y] > 0
    ensures Cost(a - {x} - {y} + {z}, f[z := f[x] + f[y]], l[z := l[x] - 1]) + f[x] + f[y] == Cost(a, f, l)
  {
    hide Sum;
    var b, k, g, n := a - {x} - {y}, l[z := l[x] - 1], f[z := f[x] + f[y]], l[x];
    SumRemove(a, Costs(f, l), x);
    SumRemove(a - {x}, Costs(f, l), y);
    SumSame(b, b, Costs(f, l), Costs(g, k));
    SumAdd(b, Costs(g, k), z);
    OneShorter(f[x], f[y], n);
    assert Costs(f, l)[x] == f[x] * n && Costs(f, l)[y] == f[y] * n && Costs(g, k)[z] == (f[x] + f[y]) * (n - 1);
  }

  lemma {:induction false} OneShorter(a: nat, b: nat, n: nat)
    requires n > 0
    ensures (a + b) * (n - 1) + a + b == a * n + b * n
  {
    Distribute(a, b, n - 1);
    assert a * n == a * (n - 1) + a && b * n == b * (n - 1) + b;
  }

  // ------------------------------------------------------------- merging by steps

  /** Any lengths for the leaves a0 cost at least acc, and what some lengths for a cost. */
  ghost predicate AtLeast(a0: set<nat>, f0: seq<nat>, a: set<nat>, f: seq<nat>, acc: nat) {
    |f| == |f0| && forall l: seq<nat>, m: nat :: |l| == |f0| && Fit(a0, l, m) ==> Remains(a0, f0, a, f, acc, l, m)
  }

  ghost predicate Remains(a0: set<nat>, f0: seq<nat>, a: set<nat>, f: seq<nat>, acc: nat, l: seq<nat>, m: nat)
    requires |l| == |f0| == |f|
  {
    exists k: seq<nat> :: |k| == |f| && Fit(a, k, m) && Cost(a, f, k) + acc <= Cost(a0, f0, l)
  }

  lemma {:induction false} AtLeastStart(a: set<nat>, f: seq<nat>)
    ensures AtLeast(a, f, a, f, 0)
  {
    hide Fit, Cost;
    forall l: seq<nat>, m: nat | |l| == |f| && Fit(a, l, m) ensures Remains(a, f, a, f, 0, l, m) {}
  }

  lemma {:induction false} AtLeastMerge(a0: set<nat>, f0: seq<nat>, a: set<nat>, f: seq<nat>, acc: nat, x: nat, y: nat,
                                        z: nat)
    requires AtLeast(a0, f0, a, f, acc) && x in a && y in a && x != y && z !in a && z < |f|
    requires (forall w :: w in a ==> w < |f|)
    requires forall w :: w in a ==> f[x] <= f[w]
    requires forall w :: w in a && w != x ==> f[y] <= f[w]
    ensures AtLeast(a0, f0, a - {x} - {y} + {z}, f[z := f[x] + f[y]], acc + f[x] + f[y])
  {
    hide Fit, Cost;
    var b, g := a - {x} - {y} + {z}, f[z := f[x] + f[y]];
    forall l: seq<nat>, m: nat | |l| == |f0| && Fit(a0, l, m) ensures Remains(a0, f0, b, g, acc + f[x] + f[y], l, m) {
      assert Remains(a0, f0, a, f, acc, l, m);
      var k: seq<nat> :| |k| == |f| && Fit(a, k, m) && Cost(a, f, k) + acc <= Cost(a0, f0, l);
      var k' := Merge(a, f, k, m, x, y, z);
    }
  }
}
