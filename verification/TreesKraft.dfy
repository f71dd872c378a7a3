/** What the lengths found top-down in gen_bitlen of archive/gzip/trees.c add up to, whether or
    not some had to be cut to the limit. */
module TreesKraft {
  import opened BitString
  import opened Canonical
  import opened Huffman
  import opened TreesBuild

  /** The nodes without a father after t merges. */
  ghost function Stage(leaves: set<nat>, elems: nat, mg: seq<nat>, t: nat): set<nat>
    requires 2 * t <= |mg|
  {
    (set x | x in leaves && x !in mg[..2 * t]) + (set x: nat | elems <= x < elems + t && x !in mg[..2 * t])
  }

  /** The merges are those of a whole tree. */
  ghost predicate Whole(leaves: set<nat>, elems: nat, mg: seq<nat>) {
    && |mg| % 2 == 0 && |mg| >= 2 && |leaves| == |mg| / 2 + 1 && Merged(leaves, elems, mg, {elems + |mg| / 2 - 1})
  }

  /** Undoing merge t: the father is replaced by his sons. */
  lemma {:induction false} StageStep(leaves: set<nat>, elems: nat, mg: seq<nat>, t: nat)
    requires Whole(leaves, elems, mg) && 2 * t + 2 <= |mg|
    ensures var x, y, z, b := mg[2 * t], mg[2 * t + 1], elems + t, Stage(leaves, elems, mg, t + 1);
      x != y && x !in b && y !in b && z in b && x != z && y != z
      && Stage(leaves, elems, mg, t) == b - {z} + {x} + {y}
  {
    var x, y, z := mg[2 * t], mg[2 * t + 1], elems + t;
    var a, b := Stage(leaves, elems, mg, t), Stage(leaves, elems, mg, t + 1);
    assert mg[..2 * (t + 1)] == mg[..2 * t] + [x] + [y];
    assert SonOk(leaves, elems, mg, 2 * t) && SonOk(leaves, elems, mg, 2 * t + 1);
    assert x !in mg[..2 * t] && y !in mg[..2 * t];
    var done := mg[..2 * (t + 1)];
    forall v | v in done ensures v != z {
      var i :| 0 <= i < 2 * (t + 1) && mg[i] == v;
      assert SonOk(leaves, elems, mg, i);
    }
    assert x in a && y in a;
    forall v ensures v in a <==> v in b - {z} + {x} + {y} {}
  }

  lemma {:induction false} StageEnds(leaves: set<nat>, elems: nat, mg: seq<nat>)
    requires Whole(leaves, elems, mg)
    ensures Stage(leaves, elems, mg, 0) == leaves && Stage(leaves, elems, mg, |mg| / 2) == {elems + |mg| / 2 - 1}
  {
    assert mg[..0] == [] && mg[..2 * (|mg| / 2)] == mg;
    var s, r := Stage(leaves, elems, mg, |mg| / 2), {elems + |mg| / 2 - 1};
    forall v ensures v in s <==> v in r {
      assert v in r <==> IsNode(leaves, elems, mg, v) && v !in mg;
    }
  }

  // ------------------------------------------------------------------- lengths

  /** One more than the father's length, but no more than max. */
  function Below(n: nat, max: nat): nat { if n + 1 > max then max else n + 1 }

  /** The lengths found top-down. */
  ghost predicate TopDown(l: seq<nat>, elems: nat, mg: seq<nat>, max: nat) {
    && elems + |mg| / 2 <= |l| && |mg| >= 2 && l[elems + |mg| / 2 - 1] == 0 && max >= 1
    && forall i :: 0 <= i < |mg| ==> SonLength(l, elems, mg, max, i)
  }

  ghost predicate SonLength(l: seq<nat>, elems: nat, mg: seq<nat>, max: nat, i: nat)
    requires i < |mg|
  {
    mg[i] < |l| && elems + i / 2 < |l| && l[mg[i]] == Below(l[elems + i / 2], max) && l[mg[i]] <= max
  }

  /** How many fathers have length n, from merge t on. */
  ghost function Fathers(l: seq<nat>, elems: nat, mg: seq<nat>, n: nat, t: nat): nat
    requires elems + |mg| / 2 <= |l| && t <= |mg| / 2
    decreases |mg| / 2 - t
  {
    if t == |mg| / 2 then 0 else (if l[elems + t] == n then 1 else 0) + Fathers(l, elems, mg, n, t + 1)
  }

  lemma {:induction false} FatherShort(l: seq<nat>, leaves: set<nat>, elems: nat, mg: seq<nat>, max: nat, t: nat)
    requires Whole(leaves, elems, mg) && TopDown(l, elems, mg, max) && t < |mg| / 2
    ensures l[elems + t] <= max
  {
    if t < |mg| / 2 - 1 {
      var i := SonPlace(leaves, elems, mg, t);
      assert SonLength(l, elems, mg, max, i);
    }
  }

  /** Every node made but the last is somebody's son, later. */
  lemma {:induction false} SonPlace(leaves: set<nat>, elems: nat, mg: seq<nat>, t: nat) returns (i: nat)
    requires Whole(leaves, elems, mg) && t < |mg| / 2 - 1
    ensures i < |mg| && mg[i] == elems + t && i / 2 > t
  {
    assert IsNode(leaves, elems, mg, elems + t);
    assert elems + t in mg;
    i :| 0 <= i < |mg| && mg[i] == elems + t;
    assert SonOk(leaves, elems, mg, i);
  }

  /** The code space taken: one unit too much for each father that has the limit. */
  lemma {:induction false} SharesOfStage(l: seq<nat>, leaves: set<nat>, elems: nat, mg: seq<nat>, max: nat, t: nat)
    requires Whole(leaves, elems, mg) && TopDown(l, elems, mg, max) && t <= |mg| / 2
    ensures Sum(Stage(leaves, elems, mg, t), Shares(l, max)) == Pow2(max) + Fathers(l, elems, mg, max, t)
    decreases |mg| / 2 - t
  {
    hide Stage, Merged, Sum, Pow2, Share;
    var s := Shares(l, max);
    ShareAtRoot(max);
    if t == |mg| / 2 {
      StageEnds(leaves, elems, mg);
      SumOne(s, elems + t - 1);
    } else {
      ShareOfSons(l[elems + t], max);
      SharesOfStage(l, leaves, elems, mg, max, t + 1);
      assert SonLength(l, elems, mg, max, 2 * t) && SonLength(l, elems, mg, max, 2 * t + 1);
      SumStep(s, leaves, elems, mg, t);
      FatherShort(l, leaves, elems, mg, max, t);
    }
  }

  lemma {:induction false} ShareAtRoot(m: nat)
    ensures Share(0, m) == Pow2(m)
  {
  }

  /** Two sons take what their father has, or one pattern more where the length is cut. */
  lemma {:induction false} ShareOfSons(n: nat, max: nat)
    requires max >= 1
    ensures n <= max ==> 2 * Share(Below(n, max), max) == Share(n, max) + if n == max then 1 else 0
    ensures n <= max ==> 2 * Share(Below(n, max), max - 1) + (if n == max - 1 then 1 else 0) == Share(n, max - 1)
  {
  }

  lemma {:induction false} SumOne(s: seq<nat>, x: nat)
    requires x < |s|
    ensures Sum({x}, s) == s[x]
  {
    SumRemove({x}, s, x);
    SumNone(s);
    assert {x} - {x} == {};
  }

  lemma {:induction false} SumNone(s: seq<nat>)
    ensures Sum({}, s) == 0
  {
    if s != [] { SumNone(s[..|s| - 1]); }
  }

  lemma {:induction false} SumStep(s: seq<nat>, leaves: set<nat>, elems: nat, mg: seq<nat>, t: nat)
    requires Whole(leaves, elems, mg) && 2 * t + 2 <= |mg| && elems + t < |s| && mg[2 * t] < |s| && mg[2 * t + 1] < |s|
    ensures Sum(Stage(leaves, elems, mg, t), s) + s[elems + t]
         == Sum(Stage(leaves, elems, mg, t + 1), s) + s[mg[2 * t]] + s[mg[2 * t + 1]]
  {
    var x, y, z, b := mg[2 * t], mg[2 * t + 1], elems + t, Stage(leaves, elems, mg, t + 1);
    StageStep(leaves, elems, mg, t);
    SumRemove(b, s, z);
    SumAdd(b - {z}, s, x);
    SumAdd(b - {z} + {x}, s, y);
  }

  /** The code space of the codes shorter than the limit: a pattern is left for each father that
      is one shorter. */
  lemma {:induction false} ShortOfStage(l: seq<nat>, leaves: set<nat>, elems: nat, mg: seq<nat>, max: nat, t: nat)
    requires Whole(leaves, elems, mg) && TopDown(l, elems, mg, max) && t <= |mg| / 2
    ensures Sum(Stage(leaves, elems, mg, t), Shares(l, max - 1)) + Fathers(l, elems, mg, max - 1, t) == Pow2(max - 1)
    decreases |mg| / 2 - t
  {
    hide Stage, Merged, Sum, Pow2, Share;
    var s := Shares(l, max - 1);
    ShareAtRoot(max - 1);
    if t == |mg| / 2 {
      StageEnds(leaves, elems, mg);
      SumOne(s, elems + t - 1);
    } else {
      ShareOfSons(l[elems + t], max);
      ShortOfStage(l, leaves, elems, mg, max, t + 1);
      assert SonLength(l, elems, mg, max, 2 * t) && SonLength(l, elems, mg, max, 2 * t + 1);
      SumStep(s, leaves, elems, mg, t);
      FatherShort(l, leaves, elems, mg, max, t);
    }
  }

  /** If a father has the limit, some father is one shorter. */
  lemma {:induction false} OneShorterFather(l: seq<nat>, leaves: set<nat>, elems: nat, mg: seq<nat>, max: nat, t: nat)
    requires Whole(leaves, elems, mg) && TopDown(l, elems, mg, max) && t < |mg| / 2 && l[elems + t] == max
    ensures Fathers(l, elems, mg, max - 1, 0) >= 1
    decreases |mg| / 2 - t
  {
    assert t < |mg| / 2 - 1;
    var i := SonPlace(leaves, elems, mg, t);
    var u := i / 2;
    assert SonLength(l, elems, mg, max, i);
    FatherShort(l, leaves, elems, mg, max, u);
    if l[elems + u] == max {
      OneShorterFather(l, leaves, elems, mg, max, u);
    } else {
      FathersHave(l, elems, mg, max - 1, 0, u);
    }
  }

  lemma {:induction false} FathersHave(l: seq<nat>, elems: nat, mg: seq<nat>, n: nat, t: nat, u: nat)
    requires elems + |mg| / 2 <= |l| && t <= u < |mg| / 2 && l[elems + u] == n
    ensures Fathers(l, elems, mg, n, t) >= 1
    decreases u - t
  {
    if t < u { FathersHave(l, elems, mg, n, t + 1, u); }
  }

  lemma {:induction false} FathersFind(l: seq<nat>, elems: nat, mg: seq<nat>, n: nat, t: nat) returns (u: nat)
    requires elems + |mg| / 2 <= |l| && t <= |mg| / 2 && Fathers(l, elems, mg, n, t) >= 1
    ensures t <= u < |mg| / 2 && l[elems + u] == n
    decreases |mg| / 2 - t
  {
    if l[elems + t] == n { u := t; } else { u := FathersFind(l, elems, mg, n, t + 1); }
  }

  /** What the tree costs: the merged weights, where no length was cut. */
  lemma {:induction false} CostOfStage(l: seq<nat>, f: seq<nat>, leaves: set<nat>, elems: nat, mg: seq<nat>, max: nat,
                                       t: nat)
    requires Whole(leaves, elems, mg) && TopDown(l, elems, mg, max) && Weighs(f, elems, mg) && |f| == |l|
    requires t <= |mg| / 2
    requires Fathers(l, elems, mg, max, 0) == 0
    ensures Cost(Stage(leaves, elems, mg, t), f, l) + MergeSum(f, elems, t) == MergeSum(f, elems, |mg| / 2)
    decreases |mg| / 2 - t
  {
    hide Stage, Merged, Sum;
    var s := Costs(f, l);
    if t == |mg| / 2 {
      StageEnds(leaves, elems, mg);
      SumOne(s, elems + t - 1);
    } else {
      CostOfStage(l, f, leaves, elems, mg, max, t + 1);
      assert SonLength(l, elems, mg, max, 2 * t) && SonLength(l, elems, mg, max, 2 * t + 1);
      SumStep(s, leaves, elems, mg, t);
      FatherShort(l, leaves, elems, mg, max, t);
      if l[elems + t] == max { FathersHave(l, elems, mg, max, 0, t); }
      assert FatherWeighs(f, elems, mg, t);
      Distribute(f[mg[2 * t]], f[mg[2 * t + 1]], l[elems + t] + 1);
      assert f[elems + t] * (l[elems + t] + 1) == f[elems + t] * l[elems + t] + f[elems + t];
    }
  }

  // -------------------------------------------------- code space and code lengths

  /** What the lengths ls take of 2^m patterns, as far as they are no longer than m. */
  function Kraft(ls: seq<nat>, m: nat): nat {
    if ls == [] then 0
    else
      var n := ls[|ls| - 1];
      Kraft(ls[..|ls| - 1], m) + (if 0 < n <= m then Pow2(m - n) else 0)
  }

  lemma {:induction false} KraftNext(ls: seq<nat>, m: nat)
    requires m >= 1
    ensures Kraft(ls, m) == 2 * Kraft(ls, m - 1) + Count(ls, m)
  {
    if ls != [] { KraftNext(ls[..|ls| - 1], m); }
  }

  lemma {:induction false} SpareKraft(ls: seq<nat>, m: nat)
    ensures Spare(ls, m) + Kraft(ls, m) == Pow2(m)
  {
    hide Count;
    if m > 0 {
      SpareKraft(ls, m - 1);
      KraftNext(ls, m);
    } else {
      KraftZero(ls);
    }
  }

  lemma {:induction false} KraftZero(ls: seq<nat>)
    ensures Kraft(ls, 0) == 0
  {
    if ls != [] { KraftZero(ls[..|ls| - 1]); }
  }

  /** The nodes in a, and the lengths ls with 0 for symbols that are not. */
  ghost predicate LengthsOf(a: set<nat>, l: seq<nat>, ls: seq<nat>) {
    && |ls| <= |l| && (forall x :: x in a ==> x < |ls| && l[x] >= 1)
    && forall x :: 0 <= x < |ls| ==> ls[x] == if x in a then l[x] else 0
  }

  lemma {:induction false} KraftSum(a: set<nat>, l: seq<nat>, ls: seq<nat>, m: nat)
    requires LengthsOf(a, l, ls)
    ensures Kraft(ls, m) == Sum(a, Shares(l, m))
    decreases |l|
  {
    if |l| > |ls| {
      var n := |l| - 1;
      KraftSum(a, l[..n], ls, m);
      assert Shares(l, m)[..n] == Shares(l[..n], m);
    } else if ls != [] {
      var n := |l| - 1;
      assert Shares(l, m)[..n] == Shares(l[..n], m);
      var b := a - {n};
      KraftSum(b, l[..n], ls[..n], m);
      SumSame(a, b, Shares(l[..n], m), Shares(l[..n], m));
    }
  }
}
