/** The header of a dynamic block: build_bl_tree and send_all_trees of archive/gzip/trees.c, and
    that it reads back (RFC 1951, section 3.2.7). */
module TreesHeader {
  import opened BitString
  import opened GzipBits
  import opened Canonical
  import opened Hufts
  import opened InflateLookup
  import opened InflateFormat
  import opened Huffman
  import opened TreesBuild
  import opened TreesKraft
  import opened TreesLengths
  import opened TreesTree
  import opened TreesRuns
  import opened TreesTokens
  import opened TreesSend
  import TreesCodes
  import InflateBlocks

  const BL_CODES: nat := 19

  // ------------------------------------------------------------- reading lengths

  lemma {:induction false} OpRead(b: seq<nat>, n: nat, acc: seq<nat>, last: nat, o: Op, rest: seq<bool>)
    requires Spare(b, MaxLen(b)) >= 0 && OpOk(o) && o.code < |b| <= 19 && b[o.code] > 0
    requires |acc| + |Means(o, last)| <= n && |acc| < n
    ensures Lengths(b, n, acc, last, OpBits(b, o) + rest) == Lengths(b, n, acc + Means(o, last), After(o, last), rest)
  {
    hide Spare, MaxLen, Code, Lookup, Number, Lsb;
    var extra := Lsb(o.extra, OpExtra(o.code)) + rest;
    assert OpBits(b, o) + rest == Code(b, o.code) + extra;
    CodeRead(b, o.code, extra);
    NumberOf(o.extra, OpExtra(o.code), rest);
    LengthsIs(b, n, acc, last, Code(b, o.code) + extra, o.code);
    if o.code < 16 { LsbNone(); }
  }

  lemma {:induction false} LengthsIs(b: seq<nat>, n: nat, acc: seq<nat>, last: nat, t: seq<bool>, j: nat)
    requires |acc| < n && Lookup(b, t) == Sym(j) && j < |b| <= 19 && b[j] <= |t|
    ensures var r := t[b[j]..];
            Lengths(b, n, acc, last, t) ==
            if j < 16 then Lengths(b, n, acc + [j], j, r)
            else if j == 16 then Repeated(b, n, acc, last, 3, 2, r)
            else if j == 17 then Repeated(b, n, acc, 0, 3, 3, r)
            else Repeated(b, n, acc, 0, 11, 7, r)
  {
    hide Lookup, Number;
  }

  /** The codes that were sent read back as the lengths they stand for. */
  lemma {:induction false} OpsRead(b: seq<nat>, n: nat, acc: seq<nat>, last: nat, os: seq<Op>, rest: seq<bool>)
    requires Spare(b, MaxLen(b)) >= 0 && |b| <= 19 && InTree(b, os) && OpsOk(os)
    requires (forall i :: 0 <= i < |os| ==> b[os[i].code] > 0)
    requires |acc| + |Expand(os, last)| == n
    ensures Lengths(b, n, acc, last, OpsBits(b, os) + rest) == Done(acc + Expand(os, last), rest)
    decreases |os|
  {
    hide Spare, MaxLen, OpBits, OpsBits, Means, After, OpOk, Expand, Lengths;
    if os == [] {
      ExpandNone(last);
      NoOps(b);
      assert [] + rest == rest && acc + [] == acc;
      InflateBlocks.LengthsEnd(b, n, acc, last, rest);
    } else {
      var o, tail := os[0], os[1..];
      MeansSome(o, last);
      ExpandFirst(os, last);
      FirstOpBits(b, os, rest);
      OpRead(b, n, acc, last, o, OpsBits(b, tail) + rest);
      OpsRead(b, n, acc + Means(o, last), After(o, last), tail, rest);
      assert (acc + Means(o, last)) + Expand(tail, After(o, last)) == acc + Expand(os, last);
    }
  }

  lemma {:induction false} ExpandFirst(os: seq<Op>, last: nat)
    requires os != []
    ensures Expand(os, last) == Means(os[0], last) + Expand(os[1..], After(os[0], last))
  {
  }

  lemma {:induction false} FirstOpBits(b: seq<nat>, os: seq<Op>, rest: seq<bool>)
    requires InTree(b, os) && os != []
    ensures os[0].code < |b| && InTree(b, os[1..])
    ensures OpsBits(b, os) + rest == OpBits(b, os[0]) + (OpsBits(b, os[1..]) + rest)
  {
    hide OpBits, OpsBits;
    var o, tail := os[0], os[1..];
    assert os == [o] + tail;
    OpsBitsSplit(b, [o], tail);
    OneOpBits(b, [], o);
    NoOps(b);
    assert [] + [o] == [o] && [] + OpBits(b, o) == OpBits(b, o);
    assert (OpBits(b, o) + OpsBits(b, tail)) + rest == OpBits(b, o) + (OpsBits(b, tail) + rest);
  }

  lemma {:induction false} MeansSome(o: Op, last: nat)
    ensures |Means(o, last)| >= 1
  {
  }

  // ------------------------------------------------ the lengths of the length codes

  /** bl_order: the order in which the lengths of the bit length codes are sent. */
  function BlOrder(): (t: seq<nat>)
    ensures |t| == 19
  {
    [16, 17, 18, 0, 8, 7, 9, 6, 10, 5, 11, 4, 12, 3, 13, 2, 14, 1, 15]
  }

  lemma {:induction false} OrderRange(j: nat)
    requires j < 19
    ensures BlOrder()[j] < 19
  {
  }

  /** It is the one in which inflate reads them. */
  lemma {:induction false} SameOrder(j: nat)
    requires j < 19
    ensures BlOrder()[j] == Border()[j] < 19
  {
  }

  /** The lengths of the bit length codes from the j-th in order on. */
  function BorderBits(b: seq<nat>, j: nat, n: nat): seq<bool>
    requires |b| == 19 && j <= n <= 19
    decreases n - j
  {
    if j == n then []
    else
      OrderRange(j);
      Lsb(b[BlOrder()[j]], 3) + BorderBits(b, j + 1, n)
  }

  /** Where each bit length code stands in the order. */
  function BorderPlace(): (t: seq<nat>)
    ensures |t| == 19
  {
    [3, 17, 15, 13, 11, 9, 7, 5, 4, 6, 8, 10, 12, 14, 16, 18, 0, 1, 2]
  }

  lemma {:induction false} BorderOnce(i: nat)
    requires i < 19
    ensures BlOrder()[i] < 19 && BorderPlace()[BlOrder()[i]] == i
    ensures BorderPlace()[i] < 19 && BlOrder()[BorderPlace()[i]] == i
  {
  }

  /** The first j lengths in order are those of b, the others 0. */
  ghost predicate Placed(acc: seq<nat>, b: seq<nat>, j: nat) {
    |acc| == |b| == 19 && forall i :: 0 <= i < 19 ==> PlacedAt(acc, b, j, i)
  }

  ghost predicate PlacedAt(acc: seq<nat>, b: seq<nat>, j: nat, i: nat)
    requires |acc| == |b| == 19 && i < 19
  {
    BorderOnce(i);
    acc[BlOrder()[i]] == if i < j then b[BlOrder()[i]] else 0
  }

  /** Beyond the n-th in order no code is used. */
  ghost predicate NoneFrom(b: seq<nat>, n: nat) {
    |b| == 19 && forall i :: n <= i < 19 ==> b[BlOrder()[i]] == 0
  }

  lemma {:induction false} PlaceNext(acc: seq<nat>, b: seq<nat>, j: nat)
    requires Placed(acc, b, j) && j < 19
    ensures BlOrder()[j] < 19 && Placed(acc[BlOrder()[j] := b[BlOrder()[j]]], b, j + 1)
  {
    hide BlOrder, BorderPlace;
    BorderOnce(j);
    var acc2 := acc[BlOrder()[j] := b[BlOrder()[j]]];
    var j1 := j + 1;
    forall i | 0 <= i < 19 ensures PlacedAt(acc2, b, j1, i) {
      assert PlacedAt(acc, b, j, i);
      BorderOnce(i);
    }
  }

  lemma {:induction false} PlacedAll(acc: seq<nat>, b: seq<nat>, n: nat)
    requires Placed(acc, b, n) && NoneFrom(b, n)
    ensures acc == b
  {
    hide BlOrder, BorderPlace;
    forall x | 0 <= x < 19 ensures acc[x] == b[x] {
      BorderOnce(x);
      assert PlacedAt(acc, b, n, BorderPlace()[x]);
    }
  }

  lemma {:induction false} PlacedNone(b: seq<nat>)
    requires |b| == 19
    ensures Placed(Repeat(19, 0), b, 0)
  {
  }

  lemma {:induction false} BorderRead(acc: seq<nat>, b: seq<nat>, j: nat, n: nat, rest: seq<bool>)
    requires |acc| == |b| == 19 && Placed(acc, b, j) && j <= n <= 19 && NoneFrom(b, n) && NoneAbove(b, 7)
    ensures BitLengths(acc, j, n, BorderBits(b, j, n) + rest) == Done(b, rest)
    decreases n - j
  {
    hide BlOrder, BorderPlace, Lsb, Number, NoneFrom, Placed, Pow2, Border;
    Pow2Values();
    if j == n {
      PlacedAll(acc, b, n);
      assert [] + rest == rest;
    } else {
      OrderRange(j);
      SameOrder(j);
      var more := BorderBits(b, j + 1, n) + rest;
      assert BorderBits(b, j, n) + rest == Lsb(b[BlOrder()[j]], 3) + more;
      NumberOf(b[BlOrder()[j]], 3, more);
      PlaceNext(acc, b, j);
      BorderRead(acc[BlOrder()[j] := b[BlOrder()[j]]], b, j + 1, n, rest);
    }
  }

  // ----------------------------------------------------------------- the header

  /** What has to hold of the lengths of the bit length codes to send os with nb of them. */
  ghost predicate Sendable(b: seq<nat>, os: seq<Op>, nb: nat) {
    && |b| == 19 && Complete(b, 7) && 4 <= nb <= 19 && NoneFrom(b, nb)
    && InTree(b, os) && OpsOk(os) && forall i :: 0 <= i < |os| ==> b[os[i].code] > 0
  }

  ghost function HeaderBits(nl: nat, nd: nat, nb: nat, b: seq<nat>, os: seq<Op>): seq<bool>
    requires 257 <= nl <= 286 && 1 <= nd <= 30 && Sendable(b, os, nb)
  {
    Lsb(nl - 257, 5) + (Lsb(nd - 1, 5) + (Lsb(nb - 4, 4) + (BorderBits(b, 0, nb) + OpsBits(b, os))))
  }

  /** Nothing is left over after the longest code. */
  lemma {:induction false} CompleteLongest(b: seq<nat>, m: nat)
    requires Complete(b, m)
    ensures Spare(b, MaxLen(b)) == 0
  {
    InflateBlocks.LongestWithin(b, m);
    CompleteDown(b, m);
  }

  lemma {:induction false} CompleteDown(b: seq<nat>, m: nat)
    requires Spare(b, m) == 0 && MaxLen(b) <= m
    ensures Spare(b, MaxLen(b)) == 0
  {
    hide MaxLen, Count;
    if m > MaxLen(b) {
      CountNone(b, MaxLen(b), m);
      CompleteDown(b, m - 1);
    }
  }

  /** The header reads back as the two lists of lengths. */
  lemma {:induction false} HeaderRead(la: seq<nat>, lb: seq<nat>, nb: nat, b: seq<nat>, rest: seq<bool>)
    requires 257 <= |la| <= 286 && 1 <= |lb| <= 30 && NoneAbove(la, 15) && NoneAbove(lb, 15)
    requires Sendable(b, AllRuns(la) + AllRuns(lb), nb)
    ensures DynamicHeader(HeaderBits(|la|, |lb|, nb, b, AllRuns(la) + AllRuns(lb)) + rest)
      == Done(Header(|la|, la + lb), rest)
  {
    hide Spare, MaxLen, Lsb, Number, BorderBits, OpsBits, AllRuns, Expand, Lengths, BitLengths, DynamicHeader, NoneFrom,
         Pow2, OpOk;
    var os := AllRuns(la) + AllRuns(lb);
    var t4 := OpsBits(b, os) + rest;
    var t3 := BorderBits(b, 0, nb) + t4;
    var t2 := Lsb(nb - 4, 4) + t3;
    var t1 := Lsb(|lb| - 1, 5) + t2;
    var t := Lsb(|la| - 257, 5) + t1;
    assert HeaderBits(|la|, |lb|, nb, b, os) + rest == t;
    Pow2Values();
    NumberOf(|la| - 257, 5, t1);
    NumberOf(|lb| - 1, 5, t2);
    NumberOf(nb - 4, 4, t3);
    assert t[5..] == t1 && t[10..] == t1[5..] == t2 && t[14..] == t2[4..] == t3;
    InflateBlocks.HeaderIs(t, |la|, |lb|, nb);
    PlacedNone(b);
    BorderRead(Repeat(19, 0), b, 0, nb, t4);
    CompleteLongest(b, 7);
    RunsInverse(la, lb);
    OpsRead(b, |la| + |lb|, [], 0, os, rest);
    assert [] + Expand(os, 0) == la + lb;
  }

  // -------------------------------------------------------------- building bl_tree

  /** Lengths with zeros after them give the same codes. */
  lemma {:induction false} CountPad(ls: seq<nat>, z: seq<nat>, b: nat)
    requires b >= 1 && forall i :: 0 <= i < |z| ==> z[i] == 0
    ensures Count(ls + z, b) == Count(ls, b)
    decreases |z|
  {
    if z == [] {
      assert ls + z == ls;
    } else {
      CountPad(ls, z[..|z| - 1], b);
      assert (ls + z)[..|ls + z| - 1] == ls + z[..|z| - 1];
    }
  }

  lemma {:induction false} FirstPad(ls: seq<nat>, z: seq<nat>, b: nat)
    requires forall i :: 0 <= i < |z| ==> z[i] == 0
    ensures First(ls + z, b) == First(ls, b)
  {
    if b > 1 {
      FirstPad(ls, z, b - 1);
      CountPad(ls, z, b - 1);
    }
  }

  lemma {:induction false} CodePad(ls: seq<nat>, z: seq<nat>, i: nat)
    requires i < |ls| && ls[i] > 0 && forall j :: 0 <= j < |z| ==> z[j] == 0
    ensures Code(ls + z, i) == Code(ls, i)
  {
    hide Count, First, BitsOf;
    FirstPad(ls, z, ls[i]);
    assert (ls + z)[..i] == ls[..i];
  }

  lemma {:induction false} SparePad(ls: seq<nat>, z: seq<nat>, b: nat)
    requires forall j :: 0 <= j < |z| ==> z[j] == 0
    ensures Spare(ls + z, b) == Spare(ls, b)
  {
    if b > 0 {
      SparePad(ls, z, b - 1);
      CountPad(ls, z, b);
    }
  }

  /** A finished tree, seen with the lengths of all its elements. */
  lemma {:induction false} WholeTree(f: seq<nat>, fc: seq<nat>, dl: seq<nat>, elems: nat, max: nat, maxCode: nat)
    requires TreeDone(f, fc, dl, elems, max, maxCode)
    ensures elems <= |dl| && elems <= |fc| && Complete(dl[..elems], max) && TreesCodes.Coded(fc, dl[..elems], elems)
    ensures elems <= |f| && forall x :: 0 <= x < elems && f[x] != 0 ==> dl[x] >= 1
  {
    hide Spare, Code, Count, Lsb;
    var ls, z := dl[..maxCode + 1], dl[maxCode + 1..elems];
    assert ls + z == dl[..elems];
    SparePad(ls, z, max);
    forall i | 0 <= i < elems && dl[i] > 0 ensures TreesCodes.CodeSet(fc, dl[..elems], i) {
      assert TreesCodes.CodeSet(fc, ls, i);
      CodePad(ls, z, i);
    }
  }

  function BlExtra(): (t: seq<nat>)
    ensures |t| == 19 && forall i :: 0 <= i < 19 ==> t[i] == OpExtra(i)
  {
    [0, 0, 0, 0, 0, 0, 0, 0, 0, 0, 0, 0, 0, 0, 0, 0, 2, 3, 7]
  }

  function OpFreqs(os: seq<Op>): (f: seq<nat>)
    ensures |f| == 19
  {
    seq(19, c requires 0 <= c => Uses(os, c))
  }

  lemma {:induction false} UsesSnoc(os: seq<Op>, o: Op, c: nat)
    ensures Uses(os + [o], c) == Uses(os, c) + if o.code == c then 1 else 0
  {
    assert (os + [o])[..|os + [o]| - 1] == os;
  }

  lemma {:induction false} FreqsMore(os: seq<Op>, o: Op)
    requires o.code < 19
    ensures OpFreqs(os + [o]) == OpFreqs(os)[o.code := OpFreqs(os)[o.code] + 1]
  {
    hide Uses;
    forall c ensures Uses(os + [o], c) == Uses(os, c) + if o.code == c then 1 else 0 { UsesSnoc(os, o, c); }
  }

  lemma {:induction false} FreqsNone()
    ensures OpFreqs([]) == seq(19, _ => 0)
  {
  }

  /** The sum over the codes is what the codes sent take. */
  lemma {:induction false} OpsSize(b: seq<nat>, os: seq<Op>)
    requires |b| == 19 && InTree(b, os)
    ensures Sum(AllBelow(19), BitCosts(OpFreqs(os), b, BlExtra(), 0)) == |OpsBits(b, os)|
    decreases |os|
  {
    hide AllBelow, Sum, OpFreqs, Code, Lsb, OpsBits;
    NoOps(b);
    if os == [] {
      FreqsNone();
      TreesCodes.SumZero(AllBelow(19), BitCosts(OpFreqs([]), b, BlExtra(), 0));
    } else {
      var a, o := os[..|os| - 1], os[|os| - 1];
      assert os == a + [o];
      OpsSize(b, a);
      FreqsMore(a, o);
      OneOpBits(b, a, o);
      OneMoreUse(OpFreqs(a), OpFreqs(os), o.code, b, BlExtra(), 0);
    }
  }

  /** Their number is what the frequencies add up to. */
  lemma {:induction false} OpsTotal(os: seq<Op>)
    requires OpsOk(os)
    ensures Sum(AllBelow(19), OpFreqs(os)) == |os|
    decreases |os|
  {
    hide AllBelow, Sum, OpFreqs;
    if os == [] {
      FreqsNone();
      TreesCodes.SumZero(AllBelow(19), OpFreqs([]));
    } else {
      var a, o := os[..|os| - 1], os[|os| - 1];
      assert os == a + [o];
      assert OpOk(o);
      OpsTotal(a);
      FreqsMore(a, o);
      SumUpdate(AllBelow(19), OpFreqs(a), o.code, OpFreqs(a)[o.code] + 1);
    }
  }

  lemma {:induction false} RunsShort(ls: seq<nat>, n: nat, prev: int, count: nat)
    requires n < |ls| ==> count < MaxCount(ls[n], prev)
    ensures n < |ls| ==> |Runs(ls, n, prev, count)| <= count + |ls| - n
    ensures n >= |ls| ==> Runs(ls, n, prev, count) == []
    decreases |ls| - n
  {
    hide MaxCount;
    if n < |ls| {
      if count + 1 < MaxCount(ls[n], prev) && ls[n] == NextLen(ls, n) {
        RunsShort(ls, n + 1, prev, count + 1);
      } else {
        MaxSome(ls, n, prev);
        RunsShort(ls, n + 1, ls[n], 0);
      }
    }
  }

  /** What is known of the lengths' coding. */
  lemma {:induction false} AllRunsFacts(ls: seq<nat>)
    requires NoneAbove(ls, 15)
    ensures OpsOk(AllRuns(ls)) && |AllRuns(ls)| <= |ls|
  {
    hide MaxCount, Runs, OpOk;
    if ls != [] { MaxSome(ls, 0, -1); }
    RunsOk(ls, 0, -1, 0);
    RunsShort(ls, 0, -1, 0);
  }

  /** The frequencies scan_tree made are those of the codes. */
  lemma {:induction false} FreqsAre(f: seq<nat>, os: seq<Op>)
    requires |f| >= 19 && (forall x :: 0 <= x < 19 ==> f[x] == Uses(os, x)) && OpsOk(os) && |os| <= 316
    ensures Sum(Used(f, 19), f) + 2 < WORD
    ensures forall b: seq<nat> :: |b| == |f| && InTree(b[..19], os) ==>
              Sum(Used(f, 19), BitCosts(f, b, BlExtra(), 0)) == |OpsBits(b[..19], os)|
    ensures forall i :: 0 <= i < |os| ==> os[i].code < 19 && f[os[i].code] != 0
  {
    hide AllBelow, Sum, OpFreqs, OpsBits, Uses, BlExtra, Used, BitCosts;
    var g := OpFreqs(os);
    assert forall c :: 0 <= c < 19 ==> g[c] == f[c] by { FreqsIs(os); }
    OpsTotal(os);
    UsedTotal(f, g, 19);
    forall b: seq<nat> | |b| == |f| && InTree(b[..19], os)
      ensures Sum(Used(f, 19), BitCosts(f, b, BlExtra(), 0)) == |OpsBits(b[..19], os)|
    {
      UsedSum(f, g, 19, b, BlExtra(), 0);
      OpsSize(b[..19], os);
      CostsPrefix(g, b);
    }
    forall i | 0 <= i < |os| ensures os[i].code < 19 && f[os[i].code] != 0 {
      assert OpOk(os[i]);
      UsesPlace(os, i);
    }
  }

  lemma {:induction false} CostsPrefix(g: seq<nat>, b: seq<nat>)
    requires |g| == 19 <= |b|
    ensures BitCosts(g, b, BlExtra(), 0) == BitCosts(g, b[..19], BlExtra(), 0)
  {
    hide BlExtra, Xbits;
  }

  lemma {:induction false} FreqsIs(os: seq<Op>)
    ensures forall c :: 0 <= c < 19 ==> OpFreqs(os)[c] == Uses(os, c)
  {
    hide Uses;
  }

  lemma {:induction false} UsesPlace(os: seq<Op>, i: nat)
    requires i < |os|
    ensures Uses(os, os[i].code) >= 1
  {
    if i < |os| - 1 { UsesPlace(os[..|os| - 1], i); }
  }

  lemma {:induction false} UsedTotal(f: seq<nat>, g: seq<nat>, n: nat)
    requires |g| == n <= |f| && forall c :: 0 <= c < n ==> g[c] == f[c]
    ensures Sum(Used(f, n), f) == Sum(AllBelow(n), g)
  {
    hide Sum, AllBelow;
    var u := Used(f, n);
    SumPrefix(u, f, g, n);
    var rest := AllBelow(n) - u;
    assert u + rest == AllBelow(n);
    SumUnion(u, rest, g);
    forall x | x in rest && x < |g| ensures g[x] == 0 { assert f[x] == 0; }
    TreesCodes.SumZero(rest, g);
  }

  /** A length other than 0 is sent by a code of its own. */
  lemma {:induction false} SomeLength(os: seq<Op>, x: nat) returns (i: nat)
    requires x < |Expand(os, 0)| && Expand(os, 0)[x] != 0
    ensures i < |os| && 1 <= os[i].code <= 15
    decreases |os|
  {
    if 1 <= os[0].code <= 15 {
      i := 0;
    } else {
      i := SomeLength(os[1..], x - |Means(os[0], 0)|);
      i := i + 1;
    }
  }

  lemma {:induction false} SomeCodeSent(ls: seq<nat>, x: nat) returns (i: nat)
    requires NoneAbove(ls, 15) && x < |ls| && ls[x] != 0
    ensures i < |AllRuns(ls)| && 1 <= AllRuns(ls)[i].code <= 15
  {
    hide Expand, AllRuns, Runs;
    RunsInverse(ls, []);
    assert AllRuns([]) == [] by { RunsDone([], 0, -1, 0); RunsAll([]); }
    assert AllRuns(ls) + [] == AllRuns(ls) && ls + [] == ls;
    i := SomeLength(AllRuns(ls), x);
  }

  lemma {:induction false} RunsAll(ls: seq<nat>)
    ensures AllRuns(ls) == Runs(ls, 0, -1, 0)
  {
    hide Runs;
  }

  lemma {:induction false} LengthsPlaced(x: nat)
    requires 1 <= x <= 15
    ensures 4 <= BorderPlace()[x] <= 18 && BlOrder()[BorderPlace()[x]] == x
  {
  }

  lemma {:induction false} NoneDown(b: seq<nat>, n: nat)
    requires NoneFrom(b, n + 1) && n < 19 && b[BlOrder()[n]] == 0
    ensures NoneFrom(b, n)
  {
    hide BlOrder;
  }

  /** Index of the last bit length code to send.  A length is always sent, so that it is not
      below 3. */
  method LastIndex(bDl: array<nat>, ghost x: nat) returns (n: nat)
    requires bDl.Length >= 19 && 1 <= x <= 15 && bDl[x] != 0
    ensures 3 <= n <= 18 && NoneFrom(bDl[..19], n + 1)
    ensures BlOrder()[n] < 19 && bDl[BlOrder()[n]] != 0
  {
    hide BlOrder, BorderPlace;
    LengthsPlaced(x);
    n := BL_CODES - 1;
    while n >= 3
      invariant BorderPlace()[x] <= n <= 18 && NoneFrom(bDl[..19], n + 1)
    {
      OrderRange(n);
      if bDl[BlOrder()[n]] != 0 { return; }
      NoneDown(bDl[..19], n);
      n := n - 1;
    }
  }

  lemma {:induction false} ScannedBoth(f00: seq<nat>, f01: seq<nat>, f0: seq<nat>, la: seq<nat>, lb: seq<nat>)
    requires Grew(f01, f00, AllRuns(la)) && Grew(f0, f01, AllRuns(lb)) && forall x :: 0 <= x < 19 ==> f00[x] == 0
    requires NoneAbove(la, 15) && NoneAbove(lb, 15) && |la| <= 286 && |lb| <= 30
    ensures var os := AllRuns(la) + AllRuns(lb); Scanned(f0, os) && Sum(Used(f0, 19), f0) + 2 < WORD
    ensures forall x :: 0 <= x < 3 ==> Xbits(BlExtra(), 0, x) == 0
  {
    hide AllRuns, Sum, Used, Uses, OpOk, OpsBits, BlExtra;
    GrewMore(f01, f00, AllRuns(la), f0, AllRuns(lb));
    AllRunsFacts(la);
    AllRunsFacts(lb);
    FreqsAre(f0, AllRuns(la) + AllRuns(lb));
  }

  /** The frequencies f are those of the codes os. */
  ghost predicate Scanned(f: seq<nat>, os: seq<Op>) {
    |f| >= 19 && (forall x :: 0 <= x < 19 ==> f[x] == Uses(os, x)) && OpsOk(os) && |os| <= 316
  }

  /** The bit length tree has codes for all that is sent. */
  lemma {:induction false} CodesReady(f0: seq<nat>, fc: seq<nat>, dl: seq<nat>, bMax: nat, la: seq<nat>, lb: seq<nat>,
                                      os: seq<Op>)
    returns (x: nat)
    requires TreeDone(f0, fc, dl, 19, 7, bMax) && Scanned(f0, os) && os == AllRuns(la) + AllRuns(lb) && |dl| == |f0|
    requires NoneAbove(la, 15) && la != [] && la[|la| - 1] != 0
    ensures 1 <= x <= 15 && 19 <= |dl| && dl[x] != 0
    ensures Complete(dl[..19], 7) && Ready(fc, dl[..19]) && InTree(dl[..19], os) && OpsOk(os)
    ensures forall i :: 0 <= i < |os| ==> dl[os[i].code] > 0
    ensures Sum(Used(f0, 19), BitCosts(f0, dl, BlExtra(), 0)) == |OpsBits(dl[..19], os)|
  {
    hide AllRuns, Sum, Used, Uses, OpOk, OpsBits, BlExtra, TreeDone, TreesCodes.Coded, Spare, BitCosts;
    WholeTree(f0, fc, dl, 19, 7, bMax);
    FreqsAre(f0, os);
    var i := SomeCodeSent(la, |la| - 1);
    assert os[i] == AllRuns(la)[i];
    x := os[i].code;
  }

  lemma {:induction false} BorderSize(b: seq<nat>, j: nat, n: nat)
    requires |b| == 19 && j <= n <= 19
    ensures |BorderBits(b, j, n)| == 3 * (n - j)
    decreases n - j
  {
    hide BlOrder, Lsb;
    if j < n {
      OrderRange(j);
      BorderSize(b, j + 1, n);
    }
  }

  lemma {:induction false} HeaderSize(nl: nat, nd: nat, nb: nat, b: seq<nat>, os: seq<Op>)
    requires 257 <= nl <= 286 && 1 <= nd <= 30 && Sendable(b, os, nb)
    ensures |HeaderBits(nl, nd, nb, b, os)| == 14 + 3 * nb + |OpsBits(b, os)|
  {
    hide BorderBits, Lsb, OpsBits, Complete, NoneFrom, OpOk;
    BorderSize(b, 0, nb);
  }

  /** build_bl_tree: the bit length tree for the lengths la of literals and lb of distances,
      with opt_len grown by the whole header. */
  method BuildBlTree(w: Work, lDl: array<nat>, lMax: nat, dDl: array<nat>, dMax: nat, bFc: array<nat>, bDl: array<nat>,
                     ghost la: seq<nat>, ghost lb: seq<nat>)
    returns (maxBlindex: nat, ghost os: seq<Op>)
    requires w.Shaped() && bFc.Length == bDl.Length == 39 && {w.heap, w.depth, w.blCount} !! {lDl, dDl, bFc, bDl}
    requires bFc != bDl && {bFc, bDl} !! {lDl, dDl} && lDl != dDl && forall x :: 0 <= x < 19 ==> bFc[x] == 0
    requires lMax + 1 < lDl.Length && dMax + 1 < dDl.Length && la == lDl[..lMax + 1] && lb == dDl[..dMax + 1]
    requires NoneAbove(la, 15) && NoneAbove(lb, 15) && 257 <= |la| <= 286 && 1 <= |lb| <= 30 && la[lMax] != 0
    modifies w, w.heap, w.depth, w.blCount, bFc, bDl, lDl, dDl
    ensures os == AllRuns(la) + AllRuns(lb) && maxBlindex < 19
    ensures BlOrder()[maxBlindex] < 19 && bDl[BlOrder()[maxBlindex]] != 0
    ensures Sendable(bDl[..19], os, maxBlindex + 1) && Ready(bFc[..], bDl[..19])
    ensures lDl[..] == old(lDl[..])[lMax + 1 := 0xffff] && dDl[..] == old(dDl[..])[dMax + 1 := 0xffff]
    ensures w.optLen == old(w.optLen) + |HeaderBits(|la|, |lb|, maxBlindex + 1, bDl[..19], os)|
    ensures w.staticLen == old(w.staticLen)
  {
    hide Runs, AllRuns, Uses, OpsBits, BorderBits, BlExtra, Sum, HeaderBits, Ready, Scanned, BitCosts, Used, TreeDone,
         Complete, OpOk, NoneFrom, Grew, TreesCodes.Coded,
         Whole, TopDown, Fathers, TreesCodes.Cheapest, Xbits;
    ghost var f00: seq<nat> := bFc[..];
    ScanTree(lDl, lMax, bFc);
    ghost var f01: seq<nat> := bFc[..];
    ScanTree(dDl, dMax, bFc);
    os := AllRuns(la) + AllRuns(lb);
    ghost var f0: seq<nat> := bFc[..];
    ScannedBoth(f00, f01, f0, la, lb);
    Pow2Values();
    var bMax: nat;
    ghost var f, l, mg;
    bMax, f, l, mg := BuildTree(w, bFc, bDl, BL_CODES, 7, BlExtra(), 0, []);
    ghost var x := CodesReady(f0, bFc[..], bDl[..], bMax, la, lb, os);
    maxBlindex := LastIndex(bDl, x);
    w.optLen := w.optLen + 3 * (maxBlindex + 1) + 5 + 5 + 4;
    HeaderSize(|la|, |lb|, maxBlindex + 1, bDl[..19], os);
  }

  // ------------------------------------------------------------------- sending it

  lemma {:induction false} BorderNext(b: seq<nat>, j: nat, n: nat, s: seq<bool>)
    requires |b| == 19 && j < n <= 19
    ensures BlOrder()[j] < 19 && s + BorderBits(b, j, n) == (s + Lsb(b[BlOrder()[j]], 3)) + BorderBits(b, j + 1, n)
  {
    hide BlOrder, Lsb;
    OrderRange(j);
  }

  /** The counts, and the lengths of the bit length codes in their order. */
  method SendCounts(w: BitSink, lcodes: nat, dcodes: nat, blcodes: nat, bDl: array<nat>, ghost b: seq<nat>)
    requires w.Valid() && 257 <= lcodes <= 286 && 1 <= dcodes <= 30 && 4 <= blcodes <= 19
    requires bDl.Length >= 19 && b == bDl[..19] && NoneAbove(b, 7)
    modifies w
    ensures w.Valid()
    ensures w.sent
      == old(w.sent) + Lsb(lcodes - 257, 5) + Lsb(dcodes - 1, 5) + Lsb(blcodes - 4, 4) + BorderBits(b, 0, blcodes)
  {
    hide Holds, Lsb, BlOrder, BorderBits, Pow2;
    Pow2Values();
    w.SendBits(lcodes - 257, 5);
    w.SendBits(dcodes - 1, 5);
    w.SendBits(blcodes - 4, 4);
    ghost var s0 := w.sent;
    var rank: nat := 0;
    while rank < blcodes
      invariant rank <= blcodes && w.Valid() && w.sent + BorderBits(b, rank, blcodes) == s0 + BorderBits(b, 0, blcodes)
    {
      BorderNext(b, rank, blcodes, w.sent);
      assert b[BlOrder()[rank]] == bDl[BlOrder()[rank]];
      w.SendBits(bDl[BlOrder()[rank]], 3);
      rank := rank + 1;
    }
    BorderEnd(b, blcodes);
    assert w.sent + [] == w.sent;
  }

  lemma {:induction false} BorderEnd(b: seq<nat>, n: nat)
    requires |b| == 19 && n <= 19
    ensures BorderBits(b, n, n) == []
  {
  }

  lemma {:induction false} CanSendBoth(fc: seq<nat>, b: seq<nat>, x: seq<Op>, y: seq<Op>, nb: nat)
    requires Sendable(b, x + y, nb) && Ready(fc, b) && |fc| >= 19
    ensures CanSend(fc, b, x) && CanSend(fc, b, y) && InTree(b, x) && InTree(b, y)
    ensures OpsBits(b, x + y) == OpsBits(b, x) + OpsBits(b, y)
  {
    hide OpBits, OpsBits, OpOk, TreesCodes.Coded, Complete, NoneFrom;
    assert (forall i :: 0 <= i < |x| ==> x[i] == (x + y)[i]) && forall i :: 0 <= i < |y| ==> y[i] == (x + y)[|x| + i];
    OpsBitsSplit(b, x, y);
  }

  /** send_all_trees: the header of a dynamic block. */
  method SendAllTrees(w: BitSink, lcodes: nat, dcodes: nat, blcodes: nat, lDl: array<nat>, dDl: array<nat>,
                      bFc: array<nat>, bDl: array<nat>,
                      ghost la: seq<nat>, ghost lb: seq<nat>)
    requires w.Valid() && 257 <= lcodes <= 286 && 1 <= dcodes <= 30 && 4 <= blcodes <= 19
    requires lcodes < lDl.Length && dcodes < dDl.Length && la == lDl[..lcodes] && lb == dDl[..dcodes]
    requires Guarded(lDl[..], la) && Guarded(dDl[..], lb) && bFc.Length == bDl.Length >= 19
    requires Sendable(bDl[..19], AllRuns(la) + AllRuns(lb), blcodes) && Ready(bFc[..], bDl[..19])
    modifies w
    ensures w.Valid()
    ensures w.sent == old(w.sent) + HeaderBits(lcodes, dcodes, blcodes, bDl[..19], AllRuns(la) + AllRuns(lb))
  {
    hide Holds, Lsb, BlOrder, BorderBits, OpsBits, AllRuns, CanSend, OpOk, Ready, NoneFrom, Guarded;
    ghost var b: seq<nat>, s0 := bDl[..19], w.sent;
    CanSendBoth(bFc[..], b, AllRuns(la), AllRuns(lb), blcodes);
    SendCounts(w, lcodes, dcodes, blcodes, bDl, b);
    ghost var s1 := w.sent;
    SendTree(w, lDl, lcodes - 1, bFc, bDl, b);
    SendTree(w, dDl, dcodes - 1, bFc, bDl, b);
    HeaderJoined(s0, Lsb(lcodes - 257, 5), Lsb(dcodes - 1, 5), Lsb(blcodes - 4, 4), BorderBits(b, 0, blcodes),
                 OpsBits(b, AllRuns(la)), OpsBits(b, AllRuns(lb)));
  }

  lemma {:induction false} HeaderJoined(s: seq<bool>, a: seq<bool>, b: seq<bool>, c: seq<bool>, d: seq<bool>,
                                        e: seq<bool>, f: seq<bool>)
    ensures s + a + b + c + d + e + f == s + (a + (b + (c + (d + (e + f)))))
  {
  }
}
