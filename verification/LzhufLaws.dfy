/** The adaptive code of archive/lharc/lzhuf.c in numbers: the tree at the start, and how long it
    counts before it is rebuilt. */
module LzhufLaws {
  import opened LzhufTree
  import opened LzhufHuffman
  import opened LzhufCounts

  // --------------------------------------------------------------------- the start

  /** What node a of the first tree has below it: the leaf of character a, or the next two nodes that
      have no parent. */
  function FirstSon(a: nat): nat
    requires a < 627
  {
    if a < 314 then 627 + a else 2 * (a - 314)
  }

  ghost predicate FirstSons(s: seq<nat>) { |s| <= 627 && forall a :: 0 <= a < |s| ==> s[a] == FirstSon(a) }

  lemma {:induction false} JoinFirst(f: seq<nat>, s: seq<nat>)
    requires Joining(f, s) && FirstSons(s) && (|f| == 314 ==> f == Ones())
    ensures FirstSons(Join(f, s).1)
    decreases 627 - |f|
  {
    hide Joining;
    assert 314 <= |f| == |s| <= 627 by { JoiningSize(f, s); }
    if |f| < 627 {
      var i := NextSon(|f|);
      StartStep(f, s);
      JoinFirst(f + [f[i] + f[i + 1]], s + [i]);
    }
  }

  lemma {:induction false} JoiningSize(f: seq<nat>, s: seq<nat>)
    requires Joining(f, s)
    ensures N_CHR <= |f| == |s| <= T
  {
  }

  /** The first tree, node by node. */
  lemma {:induction false} StartShape(a: nat)
    requires a < 627
    ensures Valid(Start()) && Start().son[a] == FirstSon(a)
    ensures a < 626 ==> Start().prnt[a] == 314 + a / 2
    ensures a < 314 ==> Start().prnt[627 + a] == a && Start().freq[a] == 1
  {
    hide Join, Sorted, Sums, LeafCount, LeafSum;
    StartValid();
    StartJoining();
    JoinFirst(Ones(), AllCodes());
    StartFrequency(a);
    var t := Start();
    assert PrntOfSon(t.prnt, t.son, a);
    if a < 626 {
      var p: nat := 314 + a / 2;
      assert PrntOfSon(t.prnt, t.son, p) && t.son[p] == FirstSon(p) == a - a % 2;
    }
  }

  lemma {:induction false} JoinKeepsFirst(f: seq<nat>, s: seq<nat>, a: nat)
    requires Joining(f, s) && FirstSons(s) && (|f| == 314 ==> f == Ones()) && a < |f|
    ensures Join(f, s).0[a] == f[a]
    decreases 627 - |f|
  {
    hide Joining;
    assert 314 <= |f| == |s| <= 627 by { JoiningSize(f, s); }
    if |f| < 627 {
      var i := NextSon(|f|);
      StartStep(f, s);
      JoinKeepsFirst(f + [f[i] + f[i + 1]], s + [i], a);
    }
  }

  lemma {:induction false} StartFrequency(a: nat)
    requires a < 627
    ensures a < 314 ==> Start().freq[a] == 1
  {
    hide Join;
    StartJoining();
    if a < 314 { JoinKeepsFirst(Ones(), AllCodes(), a); }
  }

  /** The code of the letter a in it. */
  lemma {:induction false} FirstLetter()
    ensures Valid(Start()) && CharCode(Start(), 97) == [true, true, true, true, false, true, true, false, true]
  {
    hide Valid, Linked, Start;
    StartValid();
    TreeParts(Start());
    StartShape(97);
    UpFrom(97, 362);
    UpFrom(362, 495);
    UpFrom(495, 561);
    UpFrom(561, 594);
    UpFrom(594, 611);
    UpFrom(611, 619);
    UpFrom(619, 623);
    UpFrom(623, 625);
    UpFrom(625, 626);
    assert Code(Start(), 626) == [];
  }

  lemma {:induction false} UpFrom(k: nat, p: nat)
    requires k < 626 && p == 314 + k / 2
    ensures Sized(Start()) && Linked(Start()) && Code(Start(), k) == Code(Start(), p) + [k % 2 == 1]
  {
    hide Valid, Start;
    StartShape(k);
    TreeParts(Start());
  }

  // ------------------------------------------------------------------------ counting

  ghost predicate AllCharacters(cs: seq<nat>) { forall i :: 0 <= i < |cs| ==> cs[i] < 314 }

  /** The tree after these characters. */
  ghost function After(cs: seq<nat>): (t: Tree)
    requires AllCharacters(cs)
    ensures Valid(t)
  {
    StartValid();
    if cs == [] then Start() else Update(After(cs[..|cs| - 1]), cs[|cs| - 1])
  }

  function Uses(cs: seq<nat>, x: nat): nat {
    if cs == [] then 0 else Uses(cs[..|cs| - 1], x) + if cs[|cs| - 1] == x then 1 else 0
  }

  lemma {:induction false} StartRoot()
    ensures Valid(Start()) && Start().freq[626] == 314
  {
    hide Join, Sorted, Sums, LeafCount;
    StartValid();
    LeavesOnly(Start(), 627);
  }

  lemma {:induction false} LeavesOnly(t: Tree, n: nat)
    requires t == Start() && Sized(t) && n <= 627
    ensures LeafSum(t.freq, t.son, n) == if n < 314 then n else 314
  {
    hide Join, Start, Valid, Linked;
    if n > 0 {
      LeavesOnly(t, n - 1);
      StartShape(n - 1);
    }
  }

  /** As long as no more than 32454 characters have been coded the tree counts them exactly: each
      character from 1 on, and the root from 314 on. */
  lemma {:induction false} CountsExact(cs: seq<nat>)
    requires AllCharacters(cs) && |cs| <= 32454
    ensures After(cs).freq[626] == 314 + |cs|
    ensures Sized(After(cs)) && Linked(After(cs))
    ensures forall x: nat :: x < 314 ==> Weight(After(cs), x) == 1 + Uses(cs, x)
  {
    hide Valid, Linked, Start, Update, Weight;
    TreeParts(After(cs));
    if cs == [] {
      StartRoot();
      forall x: nat | x < 314 ensures Weight(Start(), x) == 1 { FirstWeight(x); }
    } else {
      var a, c := cs[..|cs| - 1], cs[|cs| - 1];
      CountsExact(a);
      RootUpdate(After(a), c);
      forall x: nat | x < 314 ensures Weight(Update(After(a), c), x) == 1 + Uses(cs, x) {
        UpdateCounts(After(a), c, x);
      }
    }
  }

  lemma {:induction false} FirstWeight(x: nat)
    requires x < 314
    ensures Sized(Start()) && Linked(Start()) && Weight(Start(), x) == 1
  {
    hide Valid, Start, Linked;
    StartShape(x);
    TreeParts(Start());
  }

  lemma {:induction false} RootUpdate(t: Tree, c: nat)
    requires Valid(t) && c < 314
    ensures t.freq[626] < 0x8000 ==> Update(t, c).freq[626] == t.freq[626] + 1
    ensures t.freq[626] == 0x8000 ==> Update(t, c).freq[626] <= 16542
  {
    hide Linked, Reconst, Climb;
    ReconstValid(t);
  }

  /** The character after these is the first before which all counts are halved. */
  lemma {:induction false} FirstHalving(cs: seq<nat>, c: nat, x: nat)
    requires AllCharacters(cs) && |cs| == 32454 && c < 314 && x < 314
    ensures var t := Update(After(cs), c);
            Valid(t) && t.freq[626] <= 16542 && Weight(t, x) == (2 + Uses(cs, x)) / 2 + if x == c then 1 else 0
  {
    hide Valid, Linked, Start, Update, Weight;
    CountsExact(cs);
    RootUpdate(After(cs), c);
    UpdateCounts(After(cs), c, x);
    TreeParts(Update(After(cs), c));
  }
}
