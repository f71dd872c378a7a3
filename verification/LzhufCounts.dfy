/** What the adaptive tree of archive/lharc/lzhuf.c counts: update adds one to the character coded
    and to no other, after reconst has halved all counts if the tree was full. */
module LzhufCounts {
  import opened LzhufTree

  /** The frequency of a character: that of its leaf. */
  ghost function Weight(t: Tree, c: nat): nat
    requires Sized(t) && Linked(t) && c < N_CHR
  {
    LeafPlace(t, c);
    t.freq[t.prnt[T + c]]
  }

  lemma {:induction false} LeafPlace(t: Tree, c: nat)
    requires Sized(t) && Linked(t) && c < N_CHR
    ensures t.prnt[T + c] < T && t.son[t.prnt[T + c]] == T + c
  {
    assert SonOfPrnt(t.prnt, t.son, T + c);
  }

  /** A leaf stands in one place. */
  lemma {:induction false} OnePlace(t: Tree, c: nat, p: nat)
    requires Sized(t) && Linked(t) && c < N_CHR && p < T && t.son[p] == T + c
    ensures t.prnt[T + c] == p && Weight(t, c) == t.freq[p]
  {
    assert PrntOfSon(t.prnt, t.son, p);
  }

  // ----------------------------------------------------------------- one step up

  lemma {:induction false} StepWeight(t: Tree, c: nat, x: nat)
    requires Pending(t, c) && x < N_CHR
    ensures Sized(Step(t, c)) && Linked(Step(t, c))
    ensures Weight(Step(t, c), x) == Weight(t, x) + if t.prnt[T + x] == c then 1 else 0
  {
    hide Linked, Sorted, Sums;
    StepLinked(t, c);
    var l, r, p := StepTo(t, c), Step(t, c), t.prnt[T + x];
    LeafPlace(t, x);
    OnePlace(r, x, if p == c then l else if p == l then c else p);
  }

  /** Only a leaf the climb starts at is raised; the nodes after it are inner ones. */
  lemma {:induction false} ClimbWeight(t: Tree, c: nat, x: nat)
    requires Climbing(t, c) && x < N_CHR
    ensures Weight(Climb(t, c), x) == Weight(t, x) + if t.prnt[T + x] == c then 1 else 0
    decreases T - c
  {
    hide Sorted, Sums, LeafCount, LeafSum, Linked;
    StepKeeps(t, c);
    StepWeight(t, c, x);
    var s, l := Step(t, c), StepTo(t, c);
    ClimbUnfold(t, c);
    if s.prnt[l] != 0 {
      ClimbWeight(s, s.prnt[l], x);
      InnerNext(s, l);
      LeafPlace(s, x);
    }
  }

  lemma {:induction false} ClimbUnfold(t: Tree, c: nat)
    requires Climbing(t, c)
    ensures Climb(t, c)
            == if Step(t, c).prnt[StepTo(t, c)] == 0 then Step(t, c)
               else (StepKeeps(t, c); Climb(Step(t, c), Step(t, c).prnt[StepTo(t, c)]))
  {
    hide Sorted, Sums, LeafCount, LeafSum, Linked, Step;
    StepKeeps(t, c);
  }

  lemma {:induction false} InnerNext(s: Tree, l: nat)
    requires Sized(s) && Linked(s) && l < R
    ensures s.prnt[l] < T && s.son[s.prnt[l]] < T
  {
    assert SonOfPrnt(s.prnt, s.son, l);
  }

  // ------------------------------------------------------------------ the rebuild

  /** Code x stands in the lists with weight v. */
  ghost predicate Has(f: seq<nat>, s: seq<nat>, v: nat, x: nat) {
    |f| == |s| && exists a :: 0 <= a < |s| && s[a] == x && f[a] == v
  }

  lemma {:induction false} InsertHas(f: seq<nat>, s: seq<nat>, v: nat, x: nat, k: nat, w: nat, i: nat)
    requires Has(f, s, v, x) && k <= |s|
    ensures Has(Insert(f, k, w), Insert(s, k, i), v, x)
  {
    var a :| 0 <= a < |s| && s[a] == x && f[a] == v;
    var b := if a < k then a else a + 1;
    assert Insert(s, k, i)[b] == x && Insert(f, k, w)[b] == v;
  }

  lemma {:induction false} JoinHas(f: seq<nat>, s: seq<nat>, v: nat, x: nat)
    requires N_CHR <= |f| == |s| <= T && Has(f, s, v, x)
    ensures Has(Join(f, s).0, Join(f, s).1, v, x)
    decreases T - |f|
  {
    hide Has, Insert, InsertPos;
    if |f| < T {
      var i := NextSon(|f|);
      var w := f[i] + f[i + 1];
      var k := InsertPos(f, |f|, w);
      InsertHas(f, s, v, x, k, w, i);
      JoinHas(Insert(f, k, w), Insert(s, k, i), v, x);
    }
  }

  lemma {:induction false} LeavesHave(t: Tree, n: nat, p: nat)
    requires p < n <= |t.son| && n <= |t.freq| && t.son[p] >= T
    ensures Has(LeafFreqs(t.freq, t.son, n), LeafCodes(t.son, n), (t.freq[p] + 1) / 2, t.son[p])
  {
    LeavesPaired(t, n);
    var f, s := LeafFreqs(t.freq, t.son, n), LeafCodes(t.son, n);
    if p < n - 1 {
      LeavesHave(t, n - 1, p);
      LeavesPaired(t, n - 1);
      var f0, s0 := LeafFreqs(t.freq, t.son, n - 1), LeafCodes(t.son, n - 1);
      var a :| 0 <= a < |s0| && s0[a] == t.son[p] && f0[a] == (t.freq[p] + 1) / 2;
      assert s[a] == s0[a] && f[a] == f0[a];
    } else {
      assert s[|s| - 1] == t.son[p] && f[|f| - 1] == (t.freq[p] + 1) / 2;
    }
  }

  lemma {:induction false} LeavesPaired(t: Tree, n: nat)
    requires n <= |t.son| && n <= |t.freq|
    ensures |LeafFreqs(t.freq, t.son, n)| == |LeafCodes(t.son, n)|
  {
    if n > 0 { LeavesPaired(t, n - 1); }
  }

  /** reconst halves every count, rounding up. */
  lemma {:induction false} ReconstWeight(t: Tree, x: nat)
    requires Valid(t) && x < N_CHR
    ensures Valid(Reconst(t)) && Weight(Reconst(t), x) == (Weight(t, x) + 1) / 2
  {
    hide Sorted, Sums, LeafCount, LeafSum, LeafFreqs, LeafCodes, Join, Has, Linked;
    ReconstValid(t);
    LeafListFacts(t);
    LeafPlace(t, x);
    var f, s := LeafFreqs(t.freq, t.son, |t.son|), LeafCodes(t.son, |t.son|);
    LeavesHave(t, |t.son|, t.prnt[T + x]);
    JoinHas(f, s, (Weight(t, x) + 1) / 2, T + x);
    BuiltHas(f, s, (Weight(t, x) + 1) / 2, x);
  }

  lemma {:induction false} BuiltHas(f: seq<nat>, s: seq<nat>, v: nat, x: nat)
    requires N_CHR == |f| == |s| && x < N_CHR && Has(Join(f, s).0, Join(f, s).1, v, T + x)
    requires Sized(Built(f, s)) && Linked(Built(f, s))
    ensures Weight(Built(f, s), x) == v
  {
    hide Join, Linked;
    var t, freq, son := Built(f, s), Join(f, s).0, Join(f, s).1;
    var a :| 0 <= a < |son| && son[a] == T + x && freq[a] == v;
    OnePlace(t, x, a);
  }

  /** update counts the character c once more, and no other; if the tree was full, all counts are
      halved before. */
  lemma {:induction false} UpdateCounts(t: Tree, c: nat, x: nat)
    requires Valid(t) && c < N_CHR && x < N_CHR
    ensures Weight(Update(t, c), x)
            == (if t.freq[R] == MAX_FREQ then (Weight(t, x) + 1) / 2 else Weight(t, x)) + if x == c then 1 else 0
  {
    hide Sorted, Sums, LeafCount, LeafSum, Reconst, Linked;
    ReconstWeight(t, x);
    var u := if t.freq[R] == MAX_FREQ then Reconst(t) else t;
    ReconstValid(t);
    ClimbStarts(u, c);
    ClimbWeight(u, u.prnt[T + c], x);
    LeafPlace(u, x);
    LeafPlace(u, c);
  }
}
