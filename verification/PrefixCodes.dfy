/** Kraft's inequality: the lengths of every prefix code satisfy it, so that lengths no such
    lengths are cheaper than are best among all prefix codes. */
module PrefixCodes {
  import opened BitString
  import opened Huffman
  import opened TreesKraft
  import opened TreesCodes

  /** Codes for the symbols of a, none the start of another. */
  ghost predicate PrefixCode(a: set<nat>, cs: seq<seq<bool>>) {
    && (forall x :: x in a ==> x < |cs|)
    && forall x, y :: x in a && y in a && x != y ==> !(cs[x] <= cs[y])
  }

  function CodeLengths(cs: seq<seq<bool>>): (l: seq<nat>)
    ensures |l| == |cs| && forall x :: 0 <= x < |cs| ==> l[x] == |cs[x]|
  {
    seq(|cs|, x requires 0 <= x < |cs| => |cs[x]|)
  }

  /** The codes that go on after the first bit b, without it. */
  ghost function Starting(a: set<nat>, cs: seq<seq<bool>>, b: bool): set<nat> {
    set x | x in a && x < |cs| && cs[x] != [] && cs[x][0] == b
  }

  function Tails(cs: seq<seq<bool>>): (ts: seq<seq<bool>>)
    ensures |ts| == |cs| && forall x :: 0 <= x < |cs| ==> ts[x] == if cs[x] == [] then [] else cs[x][1..]
  {
    seq(|cs|, x requires 0 <= x < |cs| => if cs[x] == [] then [] else cs[x][1..])
  }

  lemma {:induction false} TailsCode(a: set<nat>, cs: seq<seq<bool>>, b: bool)
    requires PrefixCode(a, cs)
    ensures PrefixCode(Starting(a, cs, b), Tails(cs))
  {
    var s, ts := Starting(a, cs, b), Tails(cs);
    forall x, y | x in s && y in s && x != y ensures !(ts[x] <= ts[y]) {
      assert cs[x] == [b] + ts[x] && cs[y] == [b] + ts[y];
      ConsPrefix(b, ts[x], ts[y]);
    }
  }

  lemma {:induction false} ConsPrefix(b: bool, s: seq<bool>, t: seq<bool>)
    ensures s <= t ==> [b] + s <= [b] + t
  {
  }

  /** Kraft's inequality, for codes of up to m bits. */
  lemma {:induction false} KraftInequality(a: set<nat>, cs: seq<seq<bool>>, m: nat)
    requires PrefixCode(a, cs) && forall x :: x in a ==> |cs[x]| <= m
    ensures Sum(a, Shares(CodeLengths(cs), m)) <= Pow2(m)
    decreases m
  {
    hide Sum;
    var s := Shares(CodeLengths(cs), m);
    if x :| x in a && cs[x] == [] {
      assert a == {x} by {
        forall y | y in a ensures y == x { assert cs[x] <= cs[y]; }
      }
      SumOne(s, x);
    } else if m == 0 {
      if x :| x in a { assert false; }
      assert a == {};
      SumNone(s);
    } else {
      var a0, a1, ts := Starting(a, cs, false), Starting(a, cs, true), Tails(cs);
      assert a == a0 + a1 && a0 !! a1;
      SumUnion(a0, a1, s);
      HalfShares(a0, cs, m);
      HalfShares(a1, cs, m);
      TailsCode(a, cs, false);
      TailsCode(a, cs, true);
      KraftInequality(a0, ts, m - 1);
      KraftInequality(a1, ts, m - 1);
    }
  }

  /** Without its first bit a code takes the same share of half the space. */
  lemma {:induction false} HalfShares(a: set<nat>, cs: seq<seq<bool>>, m: nat)
    requires m > 0 && forall x :: x in a ==> x < |cs| && cs[x] != [] && |cs[x]| <= m
    ensures Sum(a, Shares(CodeLengths(cs), m)) == Sum(a, Shares(CodeLengths(Tails(cs)), m - 1))
  {
    hide Sum, Pow2;
    SumSame(a, a, Shares(CodeLengths(cs), m), Shares(CodeLengths(Tails(cs)), m - 1));
  }

  lemma {:induction false} LongestCode(a: set<nat>, cs: seq<seq<bool>>) returns (m: nat)
    requires forall x :: x in a ==> x < |cs|
    ensures forall x :: x in a ==> |cs[x]| <= m
    decreases |a|
  {
    if a == {} {
      m := 0;
    } else {
      var y :| y in a;
      m := LongestCode(a - {y}, cs);
      if |cs[y]| > m { m := |cs[y]|; }
    }
  }

  /** Lengths that cost no more than any that satisfy Kraft's inequality cost no more than those
      of any prefix code for the same symbols. */
  lemma {:induction false} BestPrefixCode(a: set<nat>, f: seq<nat>, l: seq<nat>, cs: seq<seq<bool>>)
    requires Cheapest(a, f, l) && PrefixCode(a, cs) && |cs| == |f|
    ensures Cost(a, f, l) <= Cost(a, f, CodeLengths(cs))
  {
    hide Cost, Sum;
    var m := LongestCode(a, cs);
    KraftInequality(a, cs, m);
    assert Fit(a, CodeLengths(cs), m);
  }

  /** No prefix code for the symbols of a, of frequencies f, costs less than the lengths l. */
  ghost predicate BestCode(a: set<nat>, f: seq<nat>, l: seq<nat>) {
    |l| == |f| && forall cs: seq<seq<bool>> :: PrefixCode(a, cs) && |cs| == |f| ==>
      Cost(a, f, l) <= Cost(a, f, CodeLengths(cs))
  }

  lemma {:induction false} CheapestIsBest(a: set<nat>, f: seq<nat>, l: seq<nat>)
    ensures Cheapest(a, f, l) ==> BestCode(a, f, l)
  {
    hide Cost, Sum;
    if Cheapest(a, f, l) {
      forall cs: seq<seq<bool>> | PrefixCode(a, cs) && |cs| == |f|
        ensures Cost(a, f, l) <= Cost(a, f, CodeLengths(cs))
      {
        BestPrefixCode(a, f, l, cs);
      }
    }
  }
}
