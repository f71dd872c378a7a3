/** The adaptive Huffman tree of archive/lharc/lzhuf.c as a value.

    `freq`, `prnt` and `son` are the three tables of the source.  Positions 0..R are
    the nodes, in order of nondecreasing frequency; `son[i]` is either the even index
    of the pair of sons (son[i], son[i] + 1), or T + c when node i is the leaf of code c.
    `prnt[T + c]` is the position of the leaf of code c.

    The functions below are the specification of what the arrays hold after each
    operation; the class in LzhufHuffman refines them. */
module LzhufTree {
  const N_CHR: nat := 314 // 256 - THRESHOLD + F
  const T: nat := 627     // 2 * N_CHR - 1
  const R: nat := 626     // the root position
  const MAX_FREQ: nat := 0x8000
  const GUARD: nat := 0xffff

  datatype Tree = Tree(freq: seq<nat>, prnt: seq<nat>, son: seq<nat>)

  // ---------------------------------------------------------------- invariants

  /** The even member of the pair a node position belongs to. */
  function Pair(x: nat): nat { x - x % 2 }

  ghost predicate Sized(t: Tree) {
    && |t.freq| == T + 1 && |t.prnt| == T + N_CHR && |t.son| == T
    && t.freq[T] == GUARD
  }

  /** Sons come in even pairs strictly below their parent, or are a leaf's code. */
  ghost predicate SonOk(i: nat, s: nat) {
    T <= s < T + N_CHR || (s % 2 == 0 && s + 1 < i)
  }

  ghost predicate PrntOfSon(prnt: seq<nat>, son: seq<nat>, i: nat)
    requires |prnt| == T + N_CHR && |son| == T && i < T
  {
    SonOk(i, son[i]) && prnt[son[i]] == i && (son[i] < T ==> prnt[son[i] + 1] == i)
  }

  ghost predicate SonOfPrnt(prnt: seq<nat>, son: seq<nat>, x: nat)
    requires |prnt| == T + N_CHR && |son| == T && x < T + N_CHR && x != R
  {
    prnt[x] < T && (if x < T then x < prnt[x] && son[prnt[x]] == Pair(x) else son[prnt[x]] == x)
  }

  /** `prnt` and `son` are mutually inverse, and every parent lies above its sons. */
  ghost predicate Linked(t: Tree)
    requires Sized(t)
  {
    && t.prnt[R] == 0
    && (forall i :: 0 <= i < T ==> PrntOfSon(t.prnt, t.son, i))
    && (forall x :: 0 <= x < T + N_CHR && x != R ==> SonOfPrnt(t.prnt, t.son, x))
  }

  /** Frequencies are positive and nondecreasing over 0..R. */
  ghost predicate Sorted(t: Tree)
    requires Sized(t)
  {
    && (forall i, j :: 0 <= i <= j < T ==> t.freq[i] <= t.freq[j])
    && (forall i :: 0 <= i < T ==> 1 <= t.freq[i])
  }

  /** Every inner frequency is the sum of its two sons', except that the one at `c`
      still has to be raised by one (c == T: no exception). */
  ghost predicate Sums(t: Tree, c: nat)
    requires Sized(t) && Linked(t)
  {
    forall i :: 0 <= i < T && t.son[i] < T ==>
      PrntOfSon(t.prnt, t.son, i) && t.freq[i] + (if i == c then 1 else 0) == t.freq[t.son[i]] + t.freq[t.son[i] + 1]
  }

  /** Sum of the leaf frequencies, and number of leaves, among the first n positions. */
  ghost function LeafSum(freq: seq<nat>, son: seq<nat>, n: nat): nat
    requires n <= |son| && n <= |freq|
  {
    if n == 0 then 0
    else LeafSum(freq, son, n - 1) + (if son[n - 1] >= T then freq[n - 1] else 0)
  }

  ghost function LeafCount(son: seq<nat>, n: nat): nat
    requires n <= |son|
  {
    if n == 0 then 0 else LeafCount(son, n - 1) + (if son[n - 1] >= T then 1 else 0)
  }

  /** The sibling property and the bookkeeping every reachable tree has. */
  ghost predicate Valid(t: Tree) {
    && Sized(t) && Linked(t) && Sorted(t) && Sums(t, T)
    && LeafCount(t.son, |t.son|) == N_CHR
    && LeafSum(t.freq, t.son, |t.son|) == t.freq[R] <= MAX_FREQ
  }

  lemma {:induction false} TreeParts(t: Tree)
    requires Valid(t)
    ensures Sized(t) && Linked(t)
  {
  }

  // ------------------------------------------------------------- one climb step

  /** The source's scan for the last position holding a frequency below k. */
  function Leader(freq: seq<nat>, l: nat, k: nat): (r: nat)
    requires l < |freq|
    ensures l <= r < |freq|
    decreases |freq| - l
  {
    if l + 1 >= |freq| || k <= freq[l + 1] then l else Leader(freq, l + 1, k)
  }

  function SetPrnt(prnt: seq<nat>, s: nat, v: nat): (p: seq<nat>)
    requires |prnt| == T + N_CHR && s < T + N_CHR && (s < T ==> s + 1 < T)
    ensures |p| == |prnt|
  {
    if s < T then prnt[s := v][s + 1 := v] else prnt[s := v]
  }

  ghost predicate Pending(t: Tree, c: nat) {
    && c < T
    && Sized(t) && Linked(t) && Sorted(t) && Sums(t, c)
    && t.freq[R] < MAX_FREQ
  }

  /** Where node c stands after its frequency is raised. */
  function StepTo(t: Tree, c: nat): (l: nat)
    requires Pending(t, c)
    ensures c <= l < T
    ensures t.freq[l] == t.freq[c] && t.freq[c] < t.freq[l + 1]
    ensures c < R ==> l < t.prnt[c] < T
  {
    StepToFacts(t, c);
    if t.freq[c] + 1 > t.freq[c + 1] then Leader(t.freq, c + 1, t.freq[c] + 1) else c
  }

  lemma LeaderFacts(freq: seq<nat>, l: nat, k: nat)
    requires l < T && |freq| == T + 1 && freq[T] == GUARD && k < GUARD
    requires freq[l] < k
    ensures Leader(freq, l, k) < T
    ensures freq[Leader(freq, l, k)] < k <= freq[Leader(freq, l, k) + 1]
    decreases T - l
  {
    if k > freq[l + 1] {
      LeaderFacts(freq, l + 1, k);
    }
  }

  /** A parent weighs strictly more than either son. */
  lemma ParentHeavier(t: Tree, c: nat, x: nat)
    requires Pending(t, c) && x < R && t.prnt[x] != c
    ensures SonOfPrnt(t.prnt, t.son, x) && t.freq[x] < t.freq[t.prnt[x]]
  {
    assert SonOfPrnt(t.prnt, t.son, x);
    var p := t.prnt[x];
    assert PrntOfSon(t.prnt, t.son, p);
    assert x == t.son[p] || x == t.son[p] + 1;
    assert t.freq[p] == t.freq[t.son[p]] + t.freq[t.son[p] + 1];
  }

  lemma StepToFacts(t: Tree, c: nat)
    requires Pending(t, c)
    ensures t.freq[c] < MAX_FREQ
    ensures c < R ==> SonOfPrnt(t.prnt, t.son, c) && t.freq[c] < t.freq[t.prnt[c]]
    ensures t.freq[c] + 1 > t.freq[c + 1] ==>
      var l := Leader(t.freq, c + 1, t.freq[c] + 1);
      c < l < T && t.freq[l] == t.freq[c] && t.freq[c] < t.freq[l + 1]
      && l < t.prnt[c] && c < R
  {
    if c < R {
      assert SonOfPrnt(t.prnt, t.son, c);
      ParentHeavier(t, c, c);
    }
    var k := t.freq[c] + 1;
    assert t.freq[c] <= t.freq[R];
    if k > t.freq[c + 1] {
      assert c + 1 < T;
      LeaderFacts(t.freq, c + 1, k);
      var l := Leader(t.freq, c + 1, k);
      assert t.freq[c] <= t.freq[l];
    }
  }

  /** One turn of the loop in `update`: raise node c, exchanging it with the last node
      of its old frequency when it would otherwise break the order. */
  function Step(t: Tree, c: nat): (r: Tree)
    requires Pending(t, c)
    ensures |r.freq| == T + 1 && |r.prnt| == T + N_CHR && |r.son| == T
  {
    var k := t.freq[c] + 1;
    var l := StepTo(t, c);
    if l == c then
      t.(freq := t.freq[c := k])
    else
      var i, j := t.son[c], t.son[l];
      assert PrntOfSon(t.prnt, t.son, c) && PrntOfSon(t.prnt, t.son, l);
      Tree(t.freq[c := t.freq[l]][l := k],
           SetPrnt(SetPrnt(t.prnt, i, l), j, c),
           t.son[l := i][c := j])
  }

  lemma StepLinked(t: Tree, c: nat)
    requires Pending(t, c)
    ensures Sized(Step(t, c)) && Linked(Step(t, c))
    ensures StepTo(t, c) < R ==> Step(t, c).prnt[StepTo(t, c)] == t.prnt[StepTo(t, c)] > StepTo(t, c)
    ensures StepTo(t, c) == R ==> Step(t, c).prnt[StepTo(t, c)] == 0
  {
    var l := StepTo(t, c);
    if l != c {
      var r := Step(t, c);
      assert PrntOfSon(t.prnt, t.son, c) && PrntOfSon(t.prnt, t.son, l);
      SonsOfLeaderBelow(t, c);
      forall x | 0 <= x < T ensures PrntOfSon(r.prnt, r.son, x) {
        SwapPrntOfSon(t.prnt, t.son, r.prnt, r.son, c, l, x);
      }
      forall x | 0 <= x < T + N_CHR && x != R ensures SonOfPrnt(r.prnt, r.son, x) {
        SwapSonOfPrnt(t.prnt, t.son, r.prnt, r.son, c, l, x);
      }
      assert SonOfPrnt(t.prnt, t.son, l) && SonOfPrnt(r.prnt, r.son, l);
    }
  }

  lemma SwapPrntOfSon(prnt: seq<nat>, son: seq<nat>, p': seq<nat>, s': seq<nat>, c: nat, l: nat, x: nat)
    requires |prnt| == T + N_CHR && |son| == T && |p'| == T + N_CHR && |s'| == T
    requires c < l < R && x < T
    requires PrntOfSon(prnt, son, c) && PrntOfSon(prnt, son, l) && PrntOfSon(prnt, son, x)
    requires SonOk(c, son[l])
    requires s' == son[l := son[c]][c := son[l]]
    requires p' == SetPrnt(SetPrnt(prnt, son[c], l), son[l], c)
    ensures PrntOfSon(p', s', x)
  {
  }

  lemma SwapSonOfPrnt(prnt: seq<nat>, son: seq<nat>, p': seq<nat>, s': seq<nat>, c: nat, l: nat, x: nat)
    requires |prnt| == T + N_CHR && |son| == T && |p'| == T + N_CHR && |s'| == T
    requires c < l < R && x < T + N_CHR && x != R
    requires PrntOfSon(prnt, son, c) && PrntOfSon(prnt, son, l) && SonOfPrnt(prnt, son, x)
    requires SonOk(c, son[l])
    requires s' == son[l := son[c]][c := son[l]]
    requires p' == SetPrnt(SetPrnt(prnt, son[c], l), son[l], c)
    ensures SonOfPrnt(p', s', x)
  {
  }

  /** The leader's sons weigh less than node c, hence lie below it. */
  lemma SonsOfLeaderBelow(t: Tree, c: nat)
    requires Pending(t, c)
    ensures var j := t.son[StepTo(t, c)]; j < T ==> j + 1 < c || StepTo(t, c) == c
  {
    var l := StepTo(t, c);
    var j := t.son[l];
    if j < T && l != c {
      assert PrntOfSon(t.prnt, t.son, l);
      assert t.freq[l] == t.freq[j] + t.freq[j + 1];
      assert t.freq[j + 1] < t.freq[c];
    }
  }

  lemma StepSorted(t: Tree, c: nat)
    requires Pending(t, c)
    ensures Sized(Step(t, c)) && Sorted(Step(t, c))
    ensures Step(t, c).freq[R] == t.freq[R] + (if StepTo(t, c) == R then 1 else 0)
  {
    var l := StepTo(t, c);
    var r := Step(t, c);
    assert r.freq == t.freq[l := t.freq[l] + 1];
  }

  /** The sum rule at one position x after a step that moved the count at l. */
  lemma StepSumsAt(t: Tree, c: nat, x: nat)
    requires Pending(t, c) && x < T
    requires Sized(Step(t, c)) && Linked(Step(t, c)) && Step(t, c).son[x] < T
    ensures var r := Step(t, c); var l := StepTo(t, c);
      PrntOfSon(r.prnt, r.son, x) &&
      r.freq[x] + (if l < R && x == t.prnt[l] then 1 else 0) == r.freq[r.son[x]] + r.freq[r.son[x] + 1]
  {
    var l := StepTo(t, c);
    var r := Step(t, c);
    assert r.freq == t.freq[l := t.freq[l] + 1];
    assert PrntOfSon(t.prnt, t.son, x) && PrntOfSon(r.prnt, r.son, x);
    if l < R {
      assert SonOfPrnt(t.prnt, t.son, l);
    }
    if x != c && x != l {
      SumAfterRaise(t, l, x);
    } else if l != c {
      assert PrntOfSon(t.prnt, t.son, c) && PrntOfSon(t.prnt, t.son, l);
      SonsOfLeaderBelow(t, c);
    }
  }

  /** Raising l by one raises the sum of exactly one pair of sons, that of l's parent. */
  lemma SumAfterRaise(t: Tree, l: nat, x: nat)
    requires Sized(t) && Linked(t) && l < T && x < T && t.son[x] < T
    ensures var f := t.freq[l := t.freq[l] + 1];
      && PrntOfSon(t.prnt, t.son, x)
      && f[t.son[x]] + f[t.son[x] + 1]
        == t.freq[t.son[x]] + t.freq[t.son[x] + 1] + (if l < R && x == t.prnt[l] then 1 else 0)
  {
    assert PrntOfSon(t.prnt, t.son, x);
    if l < R {
      assert SonOfPrnt(t.prnt, t.son, l);
    }
  }

  lemma StepSums(t: Tree, c: nat)
    requires Pending(t, c)
    ensures Sized(Step(t, c)) && Linked(Step(t, c))
    ensures Sums(Step(t, c), if StepTo(t, c) == R then T else t.prnt[StepTo(t, c)])
  {
    StepLinked(t, c);
    var r := Step(t, c);
    forall x | 0 <= x < T && r.son[x] < T
      ensures PrntOfSon(r.prnt, r.son, x)
      ensures r.freq[x] + (if StepTo(t, c) < R && x == t.prnt[StepTo(t, c)] then 1 else 0)
        == r.freq[r.son[x]] + r.freq[r.son[x] + 1]
    {
      StepSumsAt(t, c, x);
    }
  }

  // ------------------------------------------------------------------ the climb

  lemma StepLeafCount(son: seq<nat>, c: nat, l: nat, n: nat)
    requires c < l < |son| && n <= |son|
    ensures var d := (if son[l] >= T then 1 else 0) - (if son[c] >= T then 1 else 0);
      LeafCount(son[l := son[c]][c := son[l]], n)
        == LeafCount(son, n) + (if c < n <= l then d else 0)
  {
    if n > 0 { StepLeafCount(son, c, l, n - 1); }
  }

  lemma {:induction false} RaiseLeafSum(freq: seq<nat>, son: seq<nat>, c: nat, n: nat)
    requires |freq| == |son| + 1 && c < |son| && n <= |son|
    ensures LeafSum(freq[c := freq[c] + 1], son, n)
         == LeafSum(freq, son, n) + (if c < n && son[c] >= T then 1 else 0)
  {
    if n > 0 { RaiseLeafSum(freq, son, c, n - 1); }
  }

  lemma {:induction false} SwapLeafSum(freq: seq<nat>, son: seq<nat>, c: nat, l: nat, n: nat)
    requires |freq| == |son| + 1 && c < l < |son| && n <= |son| && freq[c] == freq[l]
    ensures LeafSum(freq, son[l := son[c]][c := son[l]], n) + (if c < n <= l && son[c] >= T then freq[c] else 0)
         == LeafSum(freq, son, n) + (if c < n <= l && son[l] >= T then freq[l] else 0)
  {
    if n > 0 { SwapLeafSum(freq, son, c, l, n - 1); }
  }

  /** Mid-climb: node c is still to be raised; an inner c means its leaf already was. */
  ghost predicate Climbing(t: Tree, c: nat) {
    && Pending(t, c)
    && LeafCount(t.son, |t.son|) == N_CHR
    && LeafSum(t.freq, t.son, |t.son|) == t.freq[R] + (if t.son[c] < T then 1 else 0)
  }

  lemma StepLeaves(t: Tree, c: nat)
    requires Pending(t, c)
    ensures var r := Step(t, c);
      && LeafCount(r.son, |r.son|) == LeafCount(t.son, |t.son|)
      && LeafSum(r.freq, r.son, |r.son|) == LeafSum(t.freq, t.son, |t.son|) + (if t.son[c] >= T then 1 else 0)
  {
    var l := StepTo(t, c);
    var r := Step(t, c);
    assert r.freq == t.freq[l := t.freq[l] + 1];
    if l == c {
      RaiseLeafSum(t.freq, t.son, c, |t.son|);
    } else {
      SwapLeafSum(t.freq, t.son, c, l, |t.son|);
      RaiseLeafSum(t.freq, r.son, l, |t.son|);
      StepLeafCount(t.son, c, l, |t.son|);
    }
  }

  /** What one step of the climb keeps: either node R was raised and the tree is valid
      again, or the parent of the raised node is next. */
  lemma StepKeeps(t: Tree, c: nat)
    requires Climbing(t, c)
    ensures var r := Step(t, c); var l := StepTo(t, c);
      if l == R then
        r.prnt[l] == 0 && Valid(r) && r.freq[R] == t.freq[R] + 1
      else
        l < r.prnt[l] < T && Climbing(r, r.prnt[l]) && r.freq[R] == t.freq[R]
  {
    var l := StepTo(t, c);
    var r := Step(t, c);
    StepLinked(t, c);
    StepSorted(t, c);
    StepSums(t, c);
    StepLeaves(t, c);
    assert PrntOfSon(t.prnt, t.son, R) && PrntOfSon(t.prnt, t.son, c);
    if l == R {
      assert c == R;
      RootIsInner(t);
    } else {
      assert SonOfPrnt(r.prnt, r.son, l);
    }
  }

  lemma RootIsInner(t: Tree)
    requires Sized(t) && Linked(t)
    ensures t.son[R] == R - 2
  {
    assert SonOfPrnt(t.prnt, t.son, R - 1);
  }

  /** The loop of `update`: raise c and every ancestor of where it lands. */
  function Climb(t: Tree, c: nat): (r: Tree)
    requires Climbing(t, c)
    ensures Valid(r) && r.freq[R] == t.freq[R] + 1
    decreases T - c
  {
    StepKeeps(t, c);
    var s := Step(t, c);
    var next := s.prnt[StepTo(t, c)];
    if next == 0 then s else Climb(s, next)
  }

  // -------------------------------------------------------------- the rebuild

  /** Frequencies and codes of the leaves among the first n positions, halved. */
  function LeafFreqs(freq: seq<nat>, son: seq<nat>, n: nat): seq<nat>
    requires n <= |son| && n <= |freq|
  {
    if n == 0 then []
    else LeafFreqs(freq, son, n - 1) + (if son[n - 1] >= T then [(freq[n - 1] + 1) / 2] else [])
  }

  function LeafCodes(son: seq<nat>, n: nat): seq<nat>
    requires n <= |son|
  {
    if n == 0 then [] else LeafCodes(son, n - 1) + (if son[n - 1] >= T then [son[n - 1]] else [])
  }

  /** The source's scan down from k for the place of a node of frequency v. */
  function InsertPos(f: seq<nat>, k: nat, v: nat): (p: nat)
    requires k <= |f|
    ensures p <= k
  {
    if k == 0 || v >= f[k - 1] then k else InsertPos(f, k - 1, v)
  }

  function Insert(s: seq<nat>, k: nat, v: nat): (r: seq<nat>)
    requires k <= |s|
    ensures |r| == |s| + 1
  {
    s[..k] + [v] + s[k..]
  }

  /** The first of the two lowest nodes that have no parent yet, m nodes being placed. */
  function NextSon(m: nat): nat
    requires N_CHR <= m
  {
    2 * (m - N_CHR)
  }

  /** Join the two lowest parentless nodes under a new node, until R + 1 nodes stand. */
  function Join(f: seq<nat>, s: seq<nat>): (r: (seq<nat>, seq<nat>))
    requires N_CHR <= |f| == |s| <= T
    ensures |r.0| == |r.1| == T
    decreases T - |f|
  {
    if |f| == T then (f, s)
    else
      var i := NextSon(|f|);
      var v := f[i] + f[i + 1];
      var k := InsertPos(f, |f|, v);
      Join(Insert(f, k, v), Insert(s, k, i))
  }

  /** The position among the first n holding v. */
  function IndexOf(son: seq<nat>, v: nat, n: nat): (r: nat)
    requires n <= |son|
    ensures r < n || r == 0
  {
    if n == 0 then 0 else if son[n - 1] == v then n - 1 else IndexOf(son, v, n - 1)
  }

  /** The parent table a son table determines. */
  function ParentOf(son: seq<nat>, x: nat): nat
    requires |son| == T
  {
    if x == R then 0 else IndexOf(son, if x < T then Pair(x) else x, |son|)
  }

  function ParentsOf(son: seq<nat>): (p: seq<nat>)
    requires |son| == T
    ensures |p| == T + N_CHR
    ensures forall x :: 0 <= x < T + N_CHR ==> p[x] == ParentOf(son, x)
  {
    seq(T + N_CHR, (x: nat) => ParentOf(son, x))
  }

  function Built(f: seq<nat>, s: seq<nat>): Tree
    requires N_CHR == |f| == |s|
  {
    var (freq, son) := Join(f, s);
    Tree(freq + [GUARD], ParentsOf(son), son)
  }

  /** Invariant of the joining: nodes in order, each son used once and below its parent. */
  ghost predicate Joining(f: seq<nat>, s: seq<nat>) {
    && N_CHR <= |f| == |s| <= T
    && Rising(f)
    && AllJoined(f, s)
    && Distinct(s)
    && Covers(s)
  }

  ghost predicate Rising(f: seq<nat>) {
    && (forall a, b :: 0 <= a <= b < |f| ==> f[a] <= f[b])
    && (forall a :: 0 <= a < |f| ==> 1 <= f[a])
  }

  ghost predicate Distinct(s: seq<nat>) {
    forall a, b :: 0 <= a < b < |s| ==> s[a] != s[b]
  }

  ghost predicate Covers(s: seq<nat>)
    requires N_CHR <= |s|
  {
    && (forall c :: T <= c < T + N_CHR ==> c in s)
    && (forall m :: 0 <= m < |s| - N_CHR ==> 2 * m in s)
  }

  ghost predicate AllJoined(f: seq<nat>, s: seq<nat>)
    requires N_CHR <= |f| == |s|
  {
    forall a :: 0 <= a < |s| ==> JoinedAt(f, s, a)
  }

  ghost predicate JoinedAt(f: seq<nat>, s: seq<nat>, a: nat)
    requires N_CHR <= |f| == |s| && a < |s|
  {
    && SonOk(a, s[a])
    && (s[a] < T ==> s[a] < NextSon(|s|) && s[a] + 1 < |f| && f[a] == f[s[a]] + f[s[a] + 1])
  }

  /** What is still to be weighed: the sum of f from position i on. */
  ghost function SumFrom(f: seq<nat>, i: nat): nat
    requires i <= |f|
    decreases |f| - i
  {
    if i == |f| then 0 else f[i] + SumFrom(f, i + 1)
  }

  lemma InsertPosFacts(f: seq<nat>, k: nat, v: nat, i: nat)
    requires i <= k <= |f|
    requires forall a :: 0 <= a < i ==> f[a] <= v
    requires Rising(f)
    requires forall a :: k <= a < |f| ==> v < f[a]
    ensures var p := InsertPos(f, k, v);
      i <= p <= k
      && (forall a :: 0 <= a < p ==> f[a] <= v)
      && (forall a :: p <= a < |f| ==> v < f[a])
  {
    if k == 0 || v >= f[k - 1] {
    } else {
      InsertPosFacts(f, k - 1, v, i);
    }
  }

  lemma InsertSum(f: seq<nat>, k: nat, v: nat, i: nat)
    requires i <= k <= |f|
    ensures SumFrom(Insert(f, k, v), i) == SumFrom(f, i) + v
    decreases k - i
  {
    var g := Insert(f, k, v);
    if i < k {
      assert g[i] == f[i];
      InsertSum(f, k, v, i + 1);
    } else {
      assert g[i] == v;
      InsertSumTail(f, k, v, k);
    }
  }

  lemma InsertSumTail(f: seq<nat>, k: nat, v: nat, i: nat)
    requires k <= i <= |f|
    ensures SumFrom(Insert(f, k, v), i + 1) == SumFrom(f, i)
    decreases |f| - i
  {
    var g := Insert(f, k, v);
    if i < |f| {
      assert g[i + 1] == f[i];
      InsertSumTail(f, k, v, i + 1);
    }
  }

  lemma InsertLeafSum(f: seq<nat>, s: seq<nat>, k: nat, v: nat, i: nat, n: nat)
    requires k <= |f| == |s| && n <= |f| && i < T
    ensures k <= n ==> LeafSum(Insert(f, k, v), Insert(s, k, i), n + 1) == LeafSum(f, s, n)
    ensures k <= n ==> LeafCount(Insert(s, k, i), n + 1) == LeafCount(s, n)
    ensures n <= k ==> LeafSum(Insert(f, k, v), Insert(s, k, i), n) == LeafSum(f, s, n)
    ensures n <= k ==> LeafCount(Insert(s, k, i), n) == LeafCount(s, n)
  {
    if n > 0 {
      InsertLeafSum(f, s, k, v, i, n - 1);
    }
  }

  lemma InsertedAt(f: seq<nat>, s: seq<nat>, v: nat, k: nat, a: nat)
    requires Joining(f, s) && |f| < T && v == f[NextSon(|f|)] + f[NextSon(|f|) + 1]
    requires NextSon(|f|) + 2 <= k <= |f| && a <= |f|
    ensures JoinedAt(Insert(f, k, v), Insert(s, k, NextSon(|f|)), a)
  {
    if a != k {
      assert JoinedAt(f, s, if a < k then a else a - 1);
    }
  }

  lemma InsertedAllAt(f: seq<nat>, s: seq<nat>, v: nat, k: nat)
    requires Joining(f, s) && |f| < T && v == f[NextSon(|f|)] + f[NextSon(|f|) + 1]
    requires NextSon(|f|) + 2 <= k <= |f|
    ensures AllJoined(Insert(f, k, v), Insert(s, k, NextSon(|f|)))
  {
    forall a | 0 <= a <= |s| ensures JoinedAt(Insert(f, k, v), Insert(s, k, NextSon(|f|)), a) {
      InsertedAt(f, s, v, k, a);
    }
  }

  lemma InsertedDistinct(f: seq<nat>, s: seq<nat>, k: nat)
    requires Joining(f, s) && |f| < T && k <= |f|
    ensures Distinct(Insert(s, k, NextSon(|f|)))
  {
    var s' := Insert(s, k, NextSon(|f|));
    forall a, b | 0 <= a < b < |s'| ensures s'[a] != s'[b] {
      assert a < k ==> JoinedAt(f, s, a);
      assert b > k ==> JoinedAt(f, s, b - 1);
    }
  }

  lemma InsertedIn(s: seq<nat>, k: nat, v: nat, c: nat)
    requires k <= |s| && (c in s || c == v)
    ensures c in Insert(s, k, v)
  {
    var s' := Insert(s, k, v);
    if c in s {
      var p :| 0 <= p < |s| && s[p] == c;
      assert s'[if p < k then p else p + 1] == c;
    } else {
      assert s'[k] == c;
    }
  }

  lemma InsertedCovers(f: seq<nat>, s: seq<nat>, k: nat)
    requires Joining(f, s) && |f| < T && k <= |f|
    ensures Covers(Insert(s, k, NextSon(|f|)))
  {
    var i := NextSon(|f|);
    var s' := Insert(s, k, i);
    forall c | T <= c < T + N_CHR ensures c in s' { InsertedIn(s, k, i, c); }
    forall m | 0 <= m < |s'| - N_CHR ensures 2 * m in s' {
      assert m < |s| - N_CHR || 2 * m == i;
      InsertedIn(s, k, i, 2 * m);
    }
  }

  lemma InsertedSorted(f: seq<nat>, v: nat, k: nat)
    requires k <= |f| && 1 <= v && Rising(f)
    requires forall a :: 0 <= a < k ==> f[a] <= v
    requires forall a :: k <= a < |f| ==> v < f[a]
    ensures Rising(Insert(f, k, v))
  {
  }

  lemma JoinStep(f: seq<nat>, s: seq<nat>)
    requires Joining(f, s) && |f| < T
    ensures var i := NextSon(|f|); var v := f[i] + f[i + 1]; var k := InsertPos(f, |f|, v);
      i + 2 <= k && Joining(Insert(f, k, v), Insert(s, k, i))
  {
    var i := NextSon(|f|);
    var v := f[i] + f[i + 1];
    InsertPosFacts(f, |f|, v, i + 2);
    var k := InsertPos(f, |f|, v);
    InsertedSorted(f, v, k);
    InsertedDistinct(f, s, k);
    InsertedCovers(f, s, k);
    InsertedAllAt(f, s, v, k);
  }

  lemma {:induction false} JoinKeeps(f: seq<nat>, s: seq<nat>)
    requires Joining(f, s)
    ensures Joining(Join(f, s).0, Join(f, s).1)
    decreases T - |f|
  {
    if |f| < T {
      var i := NextSon(|f|);
      var k := InsertPos(f, |f|, f[i] + f[i + 1]);
      JoinStep(f, s);
      JoinKeeps(Insert(f, k, f[i] + f[i + 1]), Insert(s, k, i));
    }
  }

  ghost predicate Weighs(f: seq<nat>, s: seq<nat>, leaves: nat, count: nat)
    requires N_CHR <= |f| == |s| <= T
  {
    && LeafSum(f, s, |s|) == leaves
    && LeafCount(s, |s|) == count
    && SumFrom(f, NextSon(|f|)) == leaves
  }

  lemma {:induction false} JoinWeighs(f: seq<nat>, s: seq<nat>, leaves: nat, count: nat)
    requires Joining(f, s) && Weighs(f, s, leaves, count)
    ensures Weighs(Join(f, s).0, Join(f, s).1, leaves, count)
    decreases T - |f|
  {
    if |f| < T {
      var i := NextSon(|f|);
      var v := f[i] + f[i + 1];
      var k := InsertPos(f, |f|, v);
      JoinStep(f, s);
      JoinSums(f, s, v, k);
      JoinWeighs(Insert(f, k, v), Insert(s, k, i), leaves, count);
    }
  }

  lemma JoinSums(f: seq<nat>, s: seq<nat>, v: nat, k: nat)
    requires N_CHR <= |f| == |s| < T && v == f[NextSon(|f|)] + f[NextSon(|f|) + 1]
    requires NextSon(|f|) + 2 <= k <= |f|
    ensures var f', s' := Insert(f, k, v), Insert(s, k, NextSon(|f|));
      && LeafSum(f', s', |s'|) == LeafSum(f, s, |s|)
      && LeafCount(s', |s'|) == LeafCount(s, |s|)
      && SumFrom(f', NextSon(|f'|)) == SumFrom(f, NextSon(|f|))
  {
    var i := NextSon(|f|);
    InsertLeafSum(f, s, k, v, i, |f|);
    InsertSum(f, k, v, i + 2);
    assert SumFrom(f, i) == f[i] + (f[i + 1] + SumFrom(f, i + 2));
  }

  lemma {:induction false} IndexOfUnique(son: seq<nat>, p: nat, n: nat)
    requires p < n <= |son|
    requires Distinct(son)
    ensures IndexOf(son, son[p], n) == p
  {
    if son[n - 1] != son[p] { IndexOfUnique(son, p, n - 1); }
  }

  lemma ParentsLinkSon(f: seq<nat>, son: seq<nat>, p: nat)
    requires |f| == |son| == T && p < T && Distinct(son) && JoinedAt(f, son, p)
    ensures PrntOfSon(ParentsOf(son), son, p)
  {
    IndexOfUnique(son, p, |son|);
    var s := son[p];
    assert s != R;
    if s < T {
      assert Pair(s) == s && Pair(s + 1) == s;
    }
  }

  lemma ParentsLinkPrnt(f: seq<nat>, son: seq<nat>, x: nat)
    requires Joining(f, son) && |son| == T && x < T + N_CHR && x != R
    ensures SonOfPrnt(ParentsOf(son), son, x)
  {
    var v := if x < T then Pair(x) else x;
    if x < T { assert v == 2 * (x / 2) && 2 * (x / 2) in son; }
    assert v in son;
    var p :| 0 <= p < T && son[p] == v;
    IndexOfUnique(son, p, |son|);
    assert JoinedAt(f, son, p);
  }

  lemma ParentsLink(f: seq<nat>, son: seq<nat>)
    requires Joining(f, son) && |son| == T
    ensures Linked(Tree(f + [GUARD], ParentsOf(son), son))
  {
    forall p | 0 <= p < T ensures PrntOfSon(ParentsOf(son), son, p) {
      assert JoinedAt(f, son, p);
      ParentsLinkSon(f, son, p);
    }
    forall x | 0 <= x < T + N_CHR && x != R ensures SonOfPrnt(ParentsOf(son), son, x) {
      ParentsLinkPrnt(f, son, x);
    }
  }

  /** Joining any sorted list of N_CHR leaves, one for each code, gives a valid tree
      whose root weighs as much as all leaves together. */
  lemma BuiltValid(f: seq<nat>, s: seq<nat>)
    requires Joining(f, s) && |f| == N_CHR && (forall a :: 0 <= a < |s| ==> s[a] >= T)
    requires SumFrom(f, 0) < MAX_FREQ
    ensures Valid(Built(f, s)) && Built(f, s).freq[R] == SumFrom(f, 0)
  {
    AllLeaves(f, s, N_CHR);
    LeafSumIsSum(f, s, N_CHR);
    JoinKeeps(f, s);
    JoinWeighs(f, s, SumFrom(f, 0), N_CHR);
    var (freq, son) := Join(f, s);
    assert SumFrom(freq, R) == freq[R] + SumFrom(freq, T);
    ParentsLink(freq, son);
    var t := Built(f, s);
    assert freq == t.freq[..T];
    forall i | 0 <= i < T && son[i] < T
      ensures PrntOfSon(t.prnt, t.son, i) && t.freq[i] == t.freq[t.son[i]] + t.freq[t.son[i] + 1]
    {
      assert JoinedAt(freq, son, i);
    }
    LeafSumPrefix(freq, t.freq, son, |son|);
  }

  lemma AllLeaves(f: seq<nat>, s: seq<nat>, n: nat)
    requires n <= |s| && forall a :: 0 <= a < |s| ==> s[a] >= T
    ensures LeafCount(s, n) == n
  {
  }

  lemma {:induction false} LeafSumPrefix(f: seq<nat>, g: seq<nat>, s: seq<nat>, n: nat)
    requires n <= |s| && n <= |f| && n <= |g| && forall a :: 0 <= a < n ==> f[a] == g[a]
    ensures LeafSum(f, s, n) == LeafSum(g, s, n)
  {
    if n > 0 { LeafSumPrefix(f, g, s, n - 1); }
  }

  lemma {:induction false} LeafSumIsSum(f: seq<nat>, s: seq<nat>, n: nat)
    requires n <= |f| == |s| && forall a :: 0 <= a < |s| ==> s[a] >= T
    ensures LeafSum(f, s, n) + SumFrom(f, n) == SumFrom(f, 0)
  {
    if n > 0 { LeafSumIsSum(f, s, n - 1); }
  }

  // -------------------------------------------- rebuild, start and update

  function Reconst(t: Tree): (r: Tree)
    requires Valid(t)
  {
    LeafListFacts(t);
    Built(LeafFreqs(t.freq, t.son, |t.son|), LeafCodes(t.son, |t.son|))
  }

  /** The list of leaves has one entry a leaf, in order, each the halved frequency ... */
  lemma {:induction false} LeafFreqsFacts(t: Tree, n: nat)
    requires Sized(t) && Sorted(t) && n <= T
    ensures var f := LeafFreqs(t.freq, t.son, n);
      && |f| == LeafCount(t.son, n)
      && (forall a, b :: 0 <= a <= b < |f| ==> f[a] <= f[b])
      && (forall a :: 0 <= a < |f| ==> 1 <= f[a] && (n > 0 ==> f[a] <= (t.freq[n - 1] + 1) / 2))
  {
    if n > 0 {
      LeafFreqsFacts(t, n - 1);
      assert n > 1 ==> t.freq[n - 2] <= t.freq[n - 1];
    }
  }

  /** ... and names every code once. */
  lemma {:induction false} LeafCodesFacts(t: Tree, n: nat)
    requires Sized(t) && Linked(t) && n <= T
    ensures var s := LeafCodes(t.son, n);
      && |s| == LeafCount(t.son, n)
      && (forall a :: 0 <= a < |s| ==> T <= s[a] < T + N_CHR && t.prnt[s[a]] < n)
      && (forall a, b :: 0 <= a < b < |s| ==> s[a] != s[b])
      && (forall c :: T <= c < T + N_CHR && t.prnt[c] < n ==> c in s)
  {
    if n > 0 {
      LeafCodesFacts(t, n - 1);
      var s0, s := LeafCodes(t.son, n - 1), LeafCodes(t.son, n);
      assert PrntOfSon(t.prnt, t.son, n - 1);
      forall c | T <= c < T + N_CHR && t.prnt[c] < n ensures c in s {
        assert SonOfPrnt(t.prnt, t.son, c);
        assert t.prnt[c] < n - 1 ==> c in s0;
        if t.prnt[c] == n - 1 { assert s == s0 + [c]; }
      }
    }
  }

  lemma LeafListFacts(t: Tree)
    requires Valid(t)
    ensures |LeafFreqs(t.freq, t.son, |t.son|)| == |LeafCodes(t.son, |t.son|)| == N_CHR
    ensures Joining(LeafFreqs(t.freq, t.son, |t.son|), LeafCodes(t.son, |t.son|))
    ensures forall a :: 0 <= a < N_CHR ==> LeafCodes(t.son, |t.son|)[a] >= T
  {
    LeafFreqsFacts(t, |t.son|);
    LeafCodesFacts(t, |t.son|);
    var f, s := LeafFreqs(t.freq, t.son, |t.son|), LeafCodes(t.son, |t.son|);
    forall c | T <= c < T + N_CHR ensures c in s {
      assert SonOfPrnt(t.prnt, t.son, c);
    }
    forall a | 0 <= a < |s| ensures JoinedAt(f, s, a) {}
  }

  lemma HalvedSum(freq: seq<nat>, son: seq<nat>, n: nat)
    requires n <= |son| && n <= |freq|
    ensures 2 * SumFrom(LeafFreqs(freq, son, n), 0) <= LeafSum(freq, son, n) + LeafCount(son, n)
  {
    if n > 0 {
      HalvedSum(freq, son, n - 1);
      var f0 := LeafFreqs(freq, son, n - 1);
      if son[n - 1] >= T {
        SumFromSnoc(f0, (freq[n - 1] + 1) / 2, 0);
      } else {
        assert LeafFreqs(freq, son, n) == f0;
      }
    }
  }

  lemma SumFromSnoc(f: seq<nat>, v: nat, i: nat)
    requires i <= |f|
    ensures SumFrom(f + [v], i) == SumFrom(f, i) + v
    decreases |f| - i
  {
    if i < |f| {
      SumFromSnoc(f, v, i + 1);
    } else {
      assert SumFrom(f + [v], i + 1) == 0;
    }
  }

  /** Rebuilding a full tree keeps it valid and at least nearly halves its weight. */
  lemma ReconstValid(t: Tree)
    requires Valid(t)
    ensures Valid(Reconst(t))
    ensures 2 * Reconst(t).freq[R] <= t.freq[R] + N_CHR
  {
    LeafListFacts(t);
    HalvedSum(t.freq, t.son, |t.son|);
    BuiltValid(LeafFreqs(t.freq, t.son, |t.son|), LeafCodes(t.son, |t.son|));
  }

  function Ones(): (f: seq<nat>)
    ensures |f| == N_CHR && forall a :: 0 <= a < N_CHR ==> f[a] == 1
  {
    seq(N_CHR, a => 1)
  }

  function AllCodes(): (s: seq<nat>)
    ensures |s| == N_CHR && forall a :: 0 <= a < N_CHR ==> s[a] == T + a
  {
    seq(N_CHR, a => T + a)
  }

  function Start(): Tree { Built(Ones(), AllCodes()) }

  lemma OnesSum(f: seq<nat>, i: nat)
    requires i <= |f| && forall a :: 0 <= a < |f| ==> f[a] == 1
    ensures SumFrom(f, i) == |f| - i
    decreases |f| - i
  {
  }

  lemma StartJoining()
    ensures Joining(Ones(), AllCodes())
  {
    var f, s := Ones(), AllCodes();
    forall a | 0 <= a < |s| ensures JoinedAt(f, s, a) {}
    forall c | T <= c < T + N_CHR ensures c in s { assert s[c - T] == c; }
  }

  lemma StartValid()
    ensures Valid(Start())
  {
    StartJoining();
    OnesSum(Ones(), 0);
    BuiltValid(Ones(), AllCodes());
  }

  /** `update`: rebuild when the root is full, then count one more use of code c. */
  function Update(t: Tree, c: nat): (r: Tree)
    requires Valid(t) && c < N_CHR
    ensures Valid(r)
    ensures r.freq[R] == 1 + (if t.freq[R] == MAX_FREQ then Reconst(t) else t).freq[R]
  {
    ReconstValid(t);
    var u := if t.freq[R] == MAX_FREQ then Reconst(t) else t;
    ClimbStarts(u, c);
    Climb(u, u.prnt[T + c])
  }

  lemma ClimbStarts(t: Tree, c: nat)
    requires Valid(t) && c < N_CHR && t.freq[R] < MAX_FREQ
    ensures Climbing(t, t.prnt[T + c])
  {
    assert SonOfPrnt(t.prnt, t.son, T + c);
  }

  /** In every reachable tree the root weighs at most MAX_FREQ: it is part of Valid.
      A symbol sequence drives the tree through Updates. */
  function Evolve(t: Tree, cs: seq<nat>): (r: Tree)
    requires Valid(t) && forall i :: 0 <= i < |cs| ==> cs[i] < N_CHR
    ensures Valid(r)
    decreases |cs|
  {
    if cs == [] then t else Evolve(Update(t, cs[0]), cs[1..])
  }

  // -------------------------------------------------------------------- codes

  /** The code of node k: the parities met from the root down to k. */
  function Code(t: Tree, k: nat): (r: seq<bool>)
    requires Sized(t) && Linked(t) && k < T
    ensures k == R <==> r == []
    decreases T - k
  {
    if k == R then [] else
      assert SonOfPrnt(t.prnt, t.son, k);
      Code(t, t.prnt[k]) + [k % 2 == 1]
  }

  function CharCode(t: Tree, c: nat): (r: seq<bool>)
    requires Sized(t) && Linked(t) && c < N_CHR
    ensures r != []
  {
    assert SonOfPrnt(t.prnt, t.son, T + c);
    RootIsInner(t);
    Code(t, t.prnt[T + c])
  }

  /** The node every proper prefix of a code leads to is an inner node above. */
  lemma {:induction false} NodeOnPath(t: Tree, k: nat, n: nat) returns (a: nat)
    requires Sized(t) && Linked(t) && k < T && n <= |Code(t, k)|
    ensures k <= a < T && Code(t, a) == Code(t, k)[..n]
    ensures n < |Code(t, k)| ==> t.son[a] < T
    decreases T - k
  {
    if n == |Code(t, k)| {
      a := k;
    } else {
      assert SonOfPrnt(t.prnt, t.son, k);
      var p := t.prnt[k];
      assert Code(t, k)[..n] == Code(t, p)[..n];
      a := NodeOnPath(t, p, n);
      if n == |Code(t, p)| { CodeInjective(t, a, p); }
    }
  }

  lemma {:induction false} CodeInjective(t: Tree, a: nat, b: nat)
    requires Sized(t) && Linked(t) && a < T && b < T && Code(t, a) == Code(t, b)
    ensures a == b
    decreases T - a
  {
    if a != R {
      assert SonOfPrnt(t.prnt, t.son, a) && SonOfPrnt(t.prnt, t.son, b);
      var ca, cb := Code(t, a), Code(t, b);
      assert ca[..|ca| - 1] == Code(t, t.prnt[a]) && cb[..|cb| - 1] == Code(t, t.prnt[b]);
      assert ca[|ca| - 1] == (a % 2 == 1) && cb[|cb| - 1] == (b % 2 == 1);
      CodeInjective(t, t.prnt[a], t.prnt[b]);
    }
  }

  /** No character's code is a prefix of another's. */
  lemma PrefixFree(t: Tree, c: nat, d: nat)
    requires Sized(t) && Linked(t) && c < N_CHR && d < N_CHR
    requires CharCode(t, c) <= CharCode(t, d)
    ensures c == d
  {
    assert SonOfPrnt(t.prnt, t.son, T + c) && SonOfPrnt(t.prnt, t.son, T + d);
    var n := |CharCode(t, c)|;
    var a := NodeOnPath(t, t.prnt[T + d], n);
    CodeInjective(t, a, t.prnt[T + c]);
    if n == |CharCode(t, d)| {
      assert CharCode(t, d)[..n] == CharCode(t, d);
      CodeInjective(t, t.prnt[T + d], t.prnt[T + c]);
    }
  }

  // -------------------------------------------------------------- code length

  function Fib(n: nat): nat { if n < 2 then n else Fib(n - 1) + Fib(n - 2) }

  /** A grandparent weighs at least its son plus its grandson. */
  lemma Grandparent(t: Tree, k: nat)
    requires Valid(t) && k < R
    ensures SonOfPrnt(t.prnt, t.son, k)
    ensures t.prnt[k] < R ==> SonOfPrnt(t.prnt, t.son, t.prnt[k])
    ensures t.prnt[k] < R ==>
      t.freq[t.prnt[t.prnt[k]]] >= t.freq[t.prnt[k]] + t.freq[k]
  {
    assert SonOfPrnt(t.prnt, t.son, k);
    var p := t.prnt[k];
    if p < R {
      assert SonOfPrnt(t.prnt, t.son, p);
      var g := t.prnt[p];
      assert PrntOfSon(t.prnt, t.son, p) && PrntOfSon(t.prnt, t.son, g);
      var s := t.son[g];
      assert t.freq[g] == t.freq[s] + t.freq[s + 1];
      assert p == s || p == s + 1;
      assert k <= s;
    }
  }

  lemma {:induction false} FibonacciWeight(t: Tree, k: nat)
    requires Valid(t) && k < R
    ensures SonOfPrnt(t.prnt, t.son, k)
    ensures var d := |Code(t, k)|;
      d >= 1 && t.freq[R] >= Fib(d) * t.freq[t.prnt[k]] + Fib(d - 1) * t.freq[k]
    decreases T - k
  {
    Grandparent(t, k);
    var p, d := t.prnt[k], |Code(t, k)|;
    if p < R {
      FibonacciWeight(t, p);
      Regroup(Fib(d - 1), Fib(d - 2), t.freq[t.prnt[p]], t.freq[p], t.freq[k]);
    } else {
      assert Code(t, p) == [];
    }
  }

  lemma Regroup(m: nat, n: nat, g: nat, p: nat, k: nat)
    requires g >= p + k
    ensures m * g + n * p >= (m + n) * p + m * k
  {
    assert m * g >= m * (p + k);
    assert m * (p + k) == m * p + m * k;
    assert (m + n) * p == m * p + n * p;
  }

  lemma {:induction false} FibGrows(m: nat, n: nat)
    requires m <= n
    ensures Fib(m) <= Fib(n)
  {
    if m < n {
      FibGrows(m, n - 1);
    }
  }

  /** The parent of a leaf weighs at least two. */
  lemma LeafParent(t: Tree, k: nat)
    requires Valid(t) && k < R
    ensures SonOfPrnt(t.prnt, t.son, k) && t.freq[t.prnt[k]] >= 2 && t.freq[k] >= 1
  {
    assert SonOfPrnt(t.prnt, t.son, k);
    var p := t.prnt[k];
    assert PrntOfSon(t.prnt, t.son, p);
    assert t.freq[p] == t.freq[t.son[p]] + t.freq[t.son[p] + 1];
  }

  lemma NodeDepth(t: Tree, k: nat)
    requires Valid(t) && k < R
    ensures 1 <= |Code(t, k)| <= 21
  {
    FibonacciWeight(t, k);
    LeafParent(t, k);
    var d := |Code(t, k)|;
    if d >= 22 {
      FibLarge(d);
      Bound(Fib(d), t.freq[t.prnt[k]], Fib(d - 1), t.freq[k]);
    }
  }

  /** Every code is at most 21 bits long, so the 32-bit accumulator of EncodeChar and two
      calls of Putcode always hold it. */
  lemma CodeLength(t: Tree, c: nat)
    requires Valid(t) && c < N_CHR
    ensures 1 <= |CharCode(t, c)| <= 21
  {
    assert SonOfPrnt(t.prnt, t.son, T + c);
    RootIsInner(t);
    NodeDepth(t, t.prnt[T + c]);
  }

  lemma Bound(x: nat, p: nat, y: nat, k: nat)
    requires x >= 17711 && p >= 2 && y >= 10946 && k >= 1
    ensures x * p + y * k > MAX_FREQ
  {
    assert x * p >= 17711 * 2;
    assert y * k >= 10946;
  }

  lemma FibLarge(d: nat)
    requires d >= 22
    ensures Fib(d) >= 17711 && Fib(d - 1) >= 10946
  {
    FibValues();
    FibGrows(22, d);
    FibGrows(21, d - 1);
  }

  lemma FibValues()
    ensures Fib(21) == 10946 && Fib(22) == 17711
  {
    assert Fib(10) == 55 && Fib(11) == 89;
    assert Fib(15) == 610 && Fib(16) == 987;
    assert Fib(19) == 4181 && Fib(20) == 6765;
  }
}
