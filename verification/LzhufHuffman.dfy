/** The arrays and loops of the adaptive Huffman coder of archive/lharc/lzhuf.c.

    Every method is proved to turn the tree its arrays hold into the one the functions of
    LzhufTree name, and to put or take exactly the code of its character. */
module LzhufHuffman {
  import opened BitString
  import opened LzhufBits
  import LT = LzhufTree
  import opened LzhufTree

  /** A parent table that agrees with every son entry is the one the son table determines. */
  lemma {:induction false} PrntUnique(f: seq<nat>, son: seq<nat>, prnt: seq<nat>)
    requires Joining(f, son) && |son| == T && |prnt| == T + N_CHR
    requires forall a :: 0 <= a < T ==> PrntOfSon(prnt, son, a)
    requires prnt[R] == 0
    ensures prnt == ParentsOf(son)
  {
    forall x | 0 <= x < T + N_CHR ensures prnt[x] == ParentOf(son, x) {
      if x != R { PrntUniqueAt(f, son, prnt, x); }
    }
  }

  lemma {:induction false} PrntUniqueAt(f: seq<nat>, son: seq<nat>, prnt: seq<nat>, x: nat)
    requires Joining(f, son) && |son| == T && |prnt| == T + N_CHR
    requires forall a :: 0 <= a < T ==> PrntOfSon(prnt, son, a)
    requires x < T + N_CHR && x != R
    ensures prnt[x] == ParentOf(son, x)
  {
    var v := if x < T then Pair(x) else x;
    if x < T { assert v == 2 * (x / 2) && 2 * (x / 2) in son; }
    assert v in son;
    var p :| 0 <= p < T && son[p] == v;
    IndexOfUnique(son, p, |son|);
    assert PrntOfSon(prnt, son, p);
  }

  /** While the frequencies are equal a joined node always goes last. */
  lemma {:induction false} StartStep(f: seq<nat>, s: seq<nat>)
    requires Joining(f, s) && |f| < T
    requires |f| > N_CHR ==> s[|s| - 1] == NextSon(|f|) - 2
    requires |f| == N_CHR ==> f == Ones()
    ensures var i := NextSon(|f|); var v := f[i] + f[i + 1];
      Joining(f + [v], s + [i]) && Join(f + [v], s + [i]) == Join(f, s)
  {
    var i := NextSon(|f|);
    var v := f[i] + f[i + 1];
    hide Join, Distinct, Covers;
    JoinStep(f, s);
    LastLowest(f, s);
    assert InsertPos(f, |f|, v) == |f|;
    assert Insert(f, |f|, v) == f + [v];
    assert Insert(s, |f|, i) == s + [i];
    JoinOnce(f, s);
  }

  /** While the tree is built the new node is the heaviest so far. */
  lemma {:induction false} LastLowest(f: seq<nat>, s: seq<nat>)
    requires Joining(f, s) && |f| < T
    requires |f| > N_CHR ==> s[|s| - 1] == NextSon(|f|) - 2
    requires |f| == N_CHR ==> f == Ones()
    ensures f[|f| - 1] <= f[NextSon(|f|)] + f[NextSon(|f|) + 1]
  {
    hide Distinct, Covers;
    if |f| > N_CHR { assert JoinedAt(f, s, |f| - 1); }
  }

  lemma {:induction false} JoinOnce(f: seq<nat>, s: seq<nat>)
    requires Joining(f, s) && |f| < T
    ensures var i := NextSon(|f|); var v := f[i] + f[i + 1]; var k := InsertPos(f, |f|, v);
      Joining(Insert(f, k, v), Insert(s, k, i)) && Join(f, s) == Join(Insert(f, k, v), Insert(s, k, i))
  {
    hide Joining, Insert, InsertPos;
    JoinStep(f, s);
  }

  /** Node a is linked to its son s, which lies below both a and i. */
  ghost predicate LinkedBelow(prnt: seq<nat>, s: nat, a: nat, i: nat)
    requires |prnt| == T + N_CHR && a < T
  {
    SonOk(a, s) && prnt[s] == a && (s < T ==> s + 1 < i && prnt[s + 1] == a)
  }

  ghost predicate AllLinked(prnt: seq<nat>, son: seq<nat>, i: nat) {
    |prnt| == T + N_CHR && |son| <= T && forall a :: 0 <= a < |son| ==> LinkedBelow(prnt, son[a], a, i)
  }

  lemma {:induction false} LeavesLinked(prnt: seq<nat>, son: seq<nat>)
    requires |prnt| == T + N_CHR && son == AllCodes()
    requires forall a :: 0 <= a < N_CHR ==> prnt[son[a]] == a
    ensures AllLinked(prnt, son, 0)
  {
  }

  lemma {:induction false} LinkedOn(prnt: seq<nat>, son: seq<nat>, i: nat, j: nat)
    requires AllLinked(prnt, son, i) && j == |son| < T && i + 1 < T && SonOk(j, i)
    ensures AllLinked(prnt[i + 1 := j][i := j], son + [i], i + 2)
  {
    forall a | 0 <= a < j ensures LinkedBelow(prnt[i + 1 := j][i := j], son[a], a, i + 2) {
      assert LinkedBelow(prnt, son[a], a, i);
    }
  }

  lemma {:induction false} LinkedAll(prnt: seq<nat>, son: seq<nat>, all: seq<nat>, i: nat)
    requires AllLinked(prnt, son, i) && |son| == T && all == son
    ensures forall a :: 0 <= a < T ==> PrntOfSon(prnt, all, a)
  {
    forall a | 0 <= a < T ensures PrntOfSon(prnt, all, a) {
      assert LinkedBelow(prnt, son[a], a, i);
    }
  }

  lemma {:induction false} NotRoot(f: seq<nat>, son: seq<nat>, a: nat)
    requires Joining(f, son) && |son| == T && a < T
    ensures son[a] != R && son[a] + 1 != R
  {
    assert JoinedAt(f, son, a);
  }

  class Huff {
    const freq: array<nat>
    const prnt: array<nat>
    const son: array<nat>

    ghost predicate Shaped()
      reads this
    {
      && freq.Length == T + 1 && prnt.Length == T + N_CHR && son.Length == T
      && freq != prnt && freq != son && prnt != son
    }

    /** The tree the arrays hold. */
    ghost function Now(): Tree
      reads this, freq, prnt, son
    {
      Tree(freq[..], prnt[..], son[..])
    }

    ghost predicate Valid()
      reads this, freq, prnt, son
    {
      Shaped() && LT.Valid(Now())
    }

    constructor ()
      ensures Shaped() && fresh(freq) && fresh(prnt) && fresh(son)
    {
      freq := new nat[T + 1];
      prnt := new nat[T + N_CHR];
      son := new nat[T];
    }

    method StartHuff()
      requires Shaped()
      modifies freq, prnt, son
      ensures Valid() && Now() == Start()
    {
      hide Join, Joining;
      var i := 0;
      while i < N_CHR
        invariant i <= N_CHR
        invariant forall a :: 0 <= a < i ==> freq[a] == 1 && son[a] == a + T && prnt[a + T] == a
      {
        freq[i] := 1;
        son[i] := i + T;
        prnt[i + T] := i;
        i := i + 1;
      }
      assert freq[..N_CHR] == Ones();
      assert son[..N_CHR] == AllCodes();
      StartJoining();
      StartInner();
      freq[T] := 0xffff;
      ghost var p := prnt[..];
      prnt[R] := 0;
      forall a | 0 <= a < T ensures PrntOfSon(prnt[..], son[..], a) {
        assert PrntOfSon(p, son[..], a);
        NotRoot(freq[..T], son[..T], a);
      }
      assert son[..T] == son[..] && freq[..] == freq[..T] + [GUARD];
      JoinDone(freq[..T], son[..]);
      PrntUnique(freq[..T], son[..], prnt[..]);
      StartValid();
    }

    /** The second loop of StartHuff: join the leaves pair by pair. */
    method StartInner()
      requires Shaped() && Joining(freq[..N_CHR], son[..N_CHR])
      requires freq[..N_CHR] == Ones() && son[..N_CHR] == AllCodes()
      requires forall a :: 0 <= a < N_CHR ==> prnt[son[a]] == a
      modifies freq, prnt, son
      ensures Joining(freq[..T], son[..T])
      ensures Join(freq[..T], son[..T]) == Join(Ones(), AllCodes())
      ensures forall a :: 0 <= a < T ==> PrntOfSon(prnt[..], son[..], a)
    {
      hide Join, Joining, Ones, AllCodes, LinkedBelow;
      var i: nat, j: nat := 0, N_CHR;
      LeavesLinked(prnt[..], son[..N_CHR]);
      assert forall a :: 0 <= a < N_CHR ==> son[..N_CHR][a] == T + a;
      while j <= R
        invariant N_CHR <= j <= T && i == NextSon(j)
        invariant j == N_CHR ==> freq[..j] == Ones()
        invariant Joining(freq[..j], son[..j])
        invariant Join(freq[..j], son[..j]) == Join(Ones(), AllCodes())
        invariant j > N_CHR ==> son[j - 1] == i - 2
        invariant AllLinked(prnt[..], son[..j], i)
      {
        ghost var f: seq<nat>, s: seq<nat>, p: seq<nat> := freq[..j], son[..j], prnt[..];
        var v := freq[i] + freq[i + 1];
        StartStep(f, s);
        freq[j] := v;
        son[j] := i;
        prnt[i + 1] := j;
        prnt[i] := j;
        assert freq[..j + 1] == f + [v];
        assert son[..j + 1] == s + [i];
        assert prnt[..] == p[i + 1 := j][i := j];
        LinkedOn(p, s, i, j);
        i := i + 2;
        j := j + 1;
      }
      LinkedAll(prnt[..], son[..T], son[..], i);
    }

    /** Keep the leaves, in order, at the front, with halved frequencies. */
    method KeepLeaves(ghost f0: seq<nat>, ghost s0: seq<nat>)
      requires Valid() && f0 == freq[..] && s0 == son[..]
      modifies freq, son
      ensures freq[..N_CHR] == LeafFreqs(f0, s0, |s0|) && son[..N_CHR] == LeafCodes(s0, |s0|)
      ensures freq[T] == old(freq[T])
    {
      LeafListFacts(Now());
      var j := 0;
      var i := 0;
      while i < T
        invariant j <= i <= T
        invariant j == |LeafFreqs(f0, s0, i)| == |LeafCodes(s0, i)|
        invariant freq[..j] == LeafFreqs(f0, s0, i) && son[..j] == LeafCodes(s0, i)
        invariant forall a :: i <= a < T ==> freq[a] == f0[a] && son[a] == s0[a]
        invariant freq[T] == f0[T]
      {
        if son[i] >= T {
          freq[j] := (freq[i] + 1) / 2;
          son[j] := son[i];
          j := j + 1;
        }
        i := i + 1;
      }
    }

    /** Move a[k..j) up by one place and put v at k. */
    static method OpenGap(a: array<nat>, k: nat, j: nat, v: nat)
      requires k <= j < a.Length
      modifies a
      ensures a[..j + 1] == Insert(old(a[..j]), k, v)
      ensures forall x :: j < x < a.Length ==> a[x] == old(a[x])
    {
      var p := j;
      while p > k
        invariant k <= p <= j
        invariant forall x :: 0 <= x < a.Length && !(p < x <= j) ==> a[x] == old(a[x])
        invariant forall x :: p < x <= j ==> a[x] == old(a[x - 1])
      {
        a[p] := a[p - 1];
        p := p - 1;
      }
      a[k] := v;
    }

    method Rebuild(ghost lf: seq<nat>, ghost lc: seq<nat>)
      requires Shaped() && Joining(lf, lc) && |lf| == N_CHR
      requires freq[..N_CHR] == lf && son[..N_CHR] == lc
      modifies freq, son
      ensures Joining(freq[..T], son[..T]) && (freq[..T], son[..T]) == Join(lf, lc)
      ensures freq[T] == old(freq[T])
    {
      hide Join, Joining, Insert, InsertPos;
      var i, j := 0, N_CHR;
      while j < T
        invariant N_CHR <= j <= T && i == NextSon(j)
        invariant Joining(freq[..j], son[..j])
        invariant Join(freq[..j], son[..j]) == Join(lf, lc)
        invariant freq[T] == old(freq[T])
      {
        ghost var f, s := freq[..j], son[..j];
        JoinUnfold(f, s);
        var k := i + 1;
        var v := freq[i] + freq[k];
        freq[j] := v;
        k := FindPlace(j, v, i);
        OpenGap(freq, k, j, v);
        OpenGap(son, k, j, i);
        i := i + 2;
        j := j + 1;
      }
      JoinDone(freq[..j], son[..j]);
    }

    /** Link the parents of every son. */
    method LinkParents(ghost f: seq<nat>)
      requires Shaped() && Joining(f, son[..]) && prnt[R] == 0
      modifies prnt
      ensures prnt[..] == ParentsOf(son[..])
    {
      hide Joining;
      var i := 0;
      while i < T
        invariant i <= T
        invariant forall a :: 0 <= a < i ==> PrntOfSon(prnt[..], son[..], a)
        invariant prnt[R] == 0
      {
        ghost var p := prnt[..];
        LinkStep(f, son[..], p, i);
        var k := son[i];
        if k >= T {
          prnt[k] := i;
        } else {
          prnt[k + 1] := i;
          prnt[k] := i;
        }
        assert prnt[..] == SetPrnt(p, k, i);
        i := i + 1;
      }
      PrntUnique(f, son[..], prnt[..]);
    }

    method Reconst()
      requires Valid()
      modifies freq, prnt, son
      ensures Valid() && Now() == LT.Reconst(old(Now()))
    {
      hide Joining, Join;
      ghost var t := Now();
      ghost var lf, lc := LeafFreqs(t.freq, t.son, |t.son|), LeafCodes(t.son, |t.son|);
      LeafListFacts(t);
      ReconstValid(t);
      KeepLeaves(freq[..], son[..]);
      Rebuild(lf, lc);
      assert son[..T] == son[..] && freq[..] == freq[..T] + [GUARD];
      LinkParents(freq[..T]);
    }

    /** The scan up for the last node of a lower frequency than k. */
    method FindLeader(c: nat, k: nat) returns (l: nat)
      requires Shaped() && freq[T] == GUARD && k < GUARD && c + 1 < T && k > freq[c + 1]
      ensures c < l < T && l == Leader(freq[..], c + 1, k)
    {
      l := c + 1;
      while k > freq[l + 1]
        invariant c < l < T && freq[l] < k
        invariant Leader(freq[..], l, k) == Leader(freq[..], c + 1, k)
        decreases T - l
      {
        l := l + 1;
      }
    }

    /** Point the son or pair of sons s at parent v. */
    method SetParent(s: nat, v: nat)
      requires Shaped() && s < T + N_CHR && (s < T ==> s + 1 < T)
      modifies prnt
      ensures prnt[..] == SetPrnt(old(prnt[..]), s, v)
    {
      prnt[s] := v;
      if s < T { prnt[s + 1] := v; }
    }

    /** One turn of the loop in `update`. */
    method Raise(c: nat) returns (l: nat)
      requires Shaped() && Climbing(Now(), c)
      modifies freq, prnt, son
      ensures l == StepTo(old(Now()), c) && Now() == Step(old(Now()), c)
    {
      hide Linked, Sorted, Sums, LeafSum, LeafCount, Leader;
      ghost var t := Now();
      StepToFacts(t, c);
      var k := freq[c] + 1;
      l := c;
      if k > freq[c + 1] {
        l := FindLeader(c, k);
        StepSons(t, c);
        freq[c] := freq[l];
        freq[l] := k;
        var i := son[c];
        SetParent(i, l);
        var j := son[l];
        son[l] := i;
        SetParent(j, c);
        son[c] := j;
      } else {
        freq[c] := k;
      }
    }

    method Update(c0: nat)
      requires Valid() && c0 < N_CHR
      modifies freq, prnt, son
      ensures Valid() && Now() == LT.Update(old(Now()), c0)
    {
      hide Linked, Sorted, Sums, LeafSum, LeafCount, Leader, Step, StepTo, LT.Reconst;
      ReconstValid(Now());
      if freq[R] == MAX_FREQ {
        Reconst();
      }
      ghost var u := Now();
      ClimbStarts(u, c0);
      var c := prnt[c0 + T];
      var more := true;
      while more
        invariant Shaped()
        invariant if more then Climbing(Now(), c) && Climb(Now(), c) == Climb(u, u.prnt[T + c0])
                  else Now() == Climb(u, u.prnt[T + c0])
        decreases more, T - c
      {
        StepKeeps(Now(), c);
        var l := Raise(c);
        c := prnt[l];
        more := c != 0;
      }
    }

    /** Put the code of c and count one use of it. */
    method EncodeChar(c: nat, w: BitOut)
      requires Valid() && c < N_CHR && w.Valid()
      modifies freq, prnt, son, w
      ensures Valid() && w.Valid()
      ensures w.sent == old(w.sent) + CharCode(old(Now()), c)
      ensures Now() == LT.Update(old(Now()), c)
    {
      hide Shl, Shr, Low, Value, CharCode, BitsOf, Linked, Sorted, Sums, LeafSum, LeafCount, Word, Holds, Pow2;
      var i, j := CodeBits(c);
      ghost var code := CharCode(Now(), c);
      CodeLength(Now(), c);
      CodeWord(code, i, j);
      if j > 16 {
        w.Putcode(16, Shr(i, 16), Shr(Value(code), j - 16));
        w.Putcode(j - 16, Low(i, 16), Low(Value(code), j - 16));
      } else {
        w.Putcode(j, Shr(i, 16), Value(code));
      }
      Update(c);
    }

    /** Trace the links from the leaf of c to the root: j bits, at the high end of i. */
    method CodeBits(c: nat) returns (i: nat, j: nat)
      requires Valid() && c < N_CHR
      ensures var code := CharCode(Now(), c);
        j == |code| && j <= 32 && i == Shl(Value(code), 32 - j)
    {
      hide HighBits, Code, CharCode, LT.Valid, Linked;
      ghost var t := Now();
      TreeParts(t);
      CodeLength(t, c);
      ghost var code := CharCode(t, c);
      ghost var s: seq<bool> := [];
      var k := prnt[c + T];
      LeafPosition(t, c);
      NoHighBits();
      i, j := 0, 0;
      var more := true;
      while more
        invariant k < T && j == |s| <= 21 && (more <==> k != R)
        invariant code == Code(t, k) + s
        invariant i == HighBits(s)
        decreases T - k
      {
        CodeUnfold(t, k);
        AddHigh(s, k % 2 == 1, i, j);
        i := i / 2;
        if k % 2 == 1 { i := i + 0x8000_0000; }
        j := j + 1;
        s := [k % 2 == 1] + s;
        k := prnt[k];
        more := k != R;
      }
      CodeRoot(t, s);
      HighBitsAre(s);
    }

    /** Take the code of a character, whatever the bits, and count one use of it. */
    method DecodeChar(r: BitIn) returns (c: nat)
      requires Valid() && r.Valid()
      modifies freq, prnt, son, r
      ensures Valid() && r.Valid() && c < N_CHR
      ensures Reads(old(r.rest), CharCode(old(Now()), c), r.rest)
      ensures Now() == LT.Update(old(Now()), c)
    {
      c := Descend(r);
      Update(c);
    }

    /** Trace from the root to a leaf: 0 to the smaller son, 1 to the larger. */
    method Descend(r: BitIn) returns (c: nat)
      requires Valid() && r.Valid()
      modifies r
      ensures r.Valid() && c < N_CHR
      ensures Reads(old(r.rest), CharCode(Now(), c), r.rest)
    {
      hide Code, CharCode, Reads, At, LT.Valid, Linked, Waits, BitsOf;
      ghost var t := Now();
      TreeParts(t);
      ghost var k: nat, code: seq<bool>, r0 := R, [], r.rest;
      c := son[R];
      RootIsInner(t);
      CodeRoot(t, []);
      ReadsNothing(r0);
      while c < T
        invariant r.Valid() && k < T && c == son[k] && code == Code(t, k)
        invariant Reads(r0, code, r.rest)
        decreases k
      {
        ghost var r1 := r.rest;
        DownLink(t, k, c);
        var bit := r.GetBit();
        CodeUnfold(t, c + bit);
        assert (bit == 1) == ((c + bit) % 2 == 1);
        ReadsThen(r0, code, r1, [bit == 1], r.rest);
        k, code := c + bit, code + [bit == 1];
        c := c + bit;
        c := son[c];
      }
      LeafOf(t, k);
      c := c - T;
    }

    /** The scan down for the place of a node of frequency v. */
    method FindPlace(j: nat, v: nat, ghost i: nat) returns (k: nat)
      requires Shaped() && j < T && i + 1 < j && freq[i + 1] <= v
      ensures k <= j && k == InsertPos(freq[..j], j, v)
    {
      var q := j - 1;
      while v < freq[q]
        invariant i < q < j
        invariant InsertPos(freq[..j], q + 1, v) == InsertPos(freq[..j], j, v)
        decreases q
      {
        assert freq[..j][q] == freq[q];
        q := q - 1;
      }
      k := q + 1;
    }
  }

  lemma {:induction false} LinkStep(f: seq<nat>, son: seq<nat>, prnt: seq<nat>, i: nat)
    requires Joining(f, son) && |son| == T && |prnt| == T + N_CHR && i < T && prnt[R] == 0
    requires forall a :: 0 <= a < i ==> PrntOfSon(prnt, son, a)
    ensures SonOk(i, son[i])
    ensures var p := SetPrnt(prnt, son[i], i);
      p[R] == 0 && forall a :: 0 <= a <= i ==> PrntOfSon(p, son, a)
  {
    assert JoinedAt(f, son, i);
    var p := SetPrnt(prnt, son[i], i);
    forall a | 0 <= a <= i ensures PrntOfSon(p, son, a) {
      if a < i {
        assert PrntOfSon(prnt, son, a);
        assert son[a] != son[i];
      }
    }
  }

  lemma {:induction false} StepSons(t: Tree, c: nat)
    requires Pending(t, c) && StepTo(t, c) != c
    ensures var i, j := t.son[c], t.son[StepTo(t, c)];
      && i < T + N_CHR && (i < T ==> i + 1 < T) && j < T + N_CHR && (j < T ==> j + 1 < T)
  {
    assert PrntOfSon(t.prnt, t.son, c) && PrntOfSon(t.prnt, t.son, StepTo(t, c));
  }

  lemma {:induction false} CodeRoot(t: Tree, s: seq<bool>)
    requires LT.Valid(t)
    ensures Code(t, R) == [] && [] + s == s
  {
  }

  lemma {:induction false} LeafPosition(t: Tree, c: nat)
    requires LT.Valid(t) && c < N_CHR
    ensures t.prnt[T + c] < R && CharCode(t, c) == Code(t, t.prnt[T + c])
  {
    assert SonOfPrnt(t.prnt, t.son, T + c);
    RootIsInner(t);
  }

  lemma {:induction false} LeafOf(t: Tree, k: nat)
    requires LT.Valid(t) && k < T && t.son[k] >= T
    ensures t.son[k] - T < N_CHR && CharCode(t, t.son[k] - T) == Code(t, k)
  {
    assert PrntOfSon(t.prnt, t.son, k);
  }

  lemma {:induction false} DownLink(t: Tree, k: nat, c: nat)
    requires LT.Valid(t) && k < T && t.son[k] == c < T
    ensures c % 2 == 0 && c + 1 < k && t.prnt[c] == k && t.prnt[c + 1] == k
  {
    assert PrntOfSon(t.prnt, t.son, k);
  }

  lemma {:induction false} CodeUnfold(t: Tree, k: nat)
    requires LT.Valid(t) && k < R
    ensures k < t.prnt[k] < T && Code(t, k) == Code(t, t.prnt[k]) + [k % 2 == 1]
  {
    assert SonOfPrnt(t.prnt, t.son, k);
  }

  /** The bits s at the high end of a 32-bit word. */
  function HighBits(s: seq<bool>): nat
    requires |s| <= 32
  {
    Shl(Value(s), 32 - |s|)
  }

  lemma {:induction false} NoHighBits()
    ensures HighBits([]) == 0
  {
    hide Shl, Value;
    ShlPow2(32);
    ValueEmpty();
  }

  lemma {:induction false} HighBitsAre(s: seq<bool>)
    requires |s| <= 32
    ensures HighBits(s) == Shl(Value(s), 32 - |s|)
  {
  }

  /** Shifting the accumulator down and setting its top bit puts a bit before the others. */
  lemma {:induction false} AddHigh(s: seq<bool>, b: bool, i: nat, j: nat)
    requires j == |s| < 32 && i == HighBits(s)
    ensures i / 2 + (if b then 0x8000_0000 else 0) == HighBits([b] + s)
  {
    ValueCons(b, s);
    var v := Value(s);
    assert i / 2 == Shl(v, 31 - j);
    if b {
      ShlAdd(Shl(1, j), v, 31 - j);
      ShlShl(1, j, 31 - j);
      Bit31();
    }
  }

  lemma {:induction false} Bit31()
    ensures Shl(1, 31) == 0x8000_0000
  {
    assert Shl(1, 8) == 256;
    ShlShl(1, 8, 8);
    assert Shl(256, 8) == 0x1_0000;
    ShlShl(1, 16, 8);
    assert Shl(0x1_0000, 8) == 0x100_0000;
    ShlShl(1, 24, 7);
    assert Shl(0x100_0000, 7) == 0x8000_0000;
  }

  lemma {:induction false} ValueEmpty()
    ensures Value([]) == 0
  {
  }

  lemma {:induction false} ValueCons(b: bool, s: seq<bool>)
    ensures Value([b] + s) == Value(s) + (if b then Shl(1, |s|) else 0)
  {
    if s != [] {
      ValueCons(b, s[..|s| - 1]);
      assert ([b] + s)[..|s|] == [b] + s[..|s| - 1];
    } else {
      assert ([b] + s)[..0] == [];
    }
  }

  /** The words EncodeChar hands to Putcode hold the code. */
  lemma {:induction false} CodeWord(code: seq<bool>, i: nat, j: nat)
    requires j == |code| <= 32 && i == Shl(Value(code), 32 - j)
    ensures var v := Value(code);
      if j > 16 then
        && Shr(i, 16) == Word(Shr(v, j - 16), 16) && Shr(v, j - 16) < Pow2(16)
        && Low(i, 16) == Word(Low(v, j - 16), j - 16)
        && code == BitsOf(Shr(v, j - 16), 16) + BitsOf(Low(v, j - 16), j - 16)
      else
        Shr(i, 16) == Word(v, j) && code == BitsOf(v, j)
  {
    var v := Value(code);
    BitsOfValue(code);
    if j > 16 {
      ShrPastShl(v, 32 - j, 16);
      ShrBound(v, j - 16, 16);
      BitsSplit(v, 16, j - 16);
    } else {
      ShrOfShl(v, 32 - j, 16);
    }
  }

  lemma {:induction false} JoinUnfold(f: seq<nat>, s: seq<nat>)
    requires Joining(f, s) && |f| < T
    ensures var i := NextSon(|f|); var v := f[i] + f[i + 1]; var k := InsertPos(f, |f|, v);
      Joining(Insert(f, k, v), Insert(s, k, i)) && Join(Insert(f, k, v), Insert(s, k, i)) == Join(f, s)
  {
    JoinStep(f, s);
  }

  lemma {:induction false} JoinDone(f: seq<nat>, s: seq<nat>)
    requires |f| == |s| == T
    ensures Join(f, s) == (f, s)
  {
  }
}
