/** The run-length coding of code lengths: scan_tree and send_tree of archive/gzip/trees.c
    (RFC 1951, section 3.2.7). */
module TreesRuns {
  import opened BitString
  import opened GzipBits
  import opened Canonical
  import opened TreesCodes
  import opened InflateFormat

  const REP_3_6: nat := 16
  const REPZ_3_10: nat := 17
  const REPZ_11_138: nat := 18

  /** A code of the bit length tree, and the value of its extra bits. */
  datatype Op = Op(code: nat, extra: nat)

  /** Extra bits of each bit length code. */
  function OpExtra(code: nat): nat {
    if code == REP_3_6 then 2 else if code == REPZ_3_10 then 3 else if code == REPZ_11_138 then 7 else 0
  }

  predicate OpOk(o: Op) { o.code < 19 && o.extra < Pow2(OpExtra(o.code)) }

  predicate OpsOk(os: seq<Op>) { forall i :: 0 <= i < |os| ==> OpOk(os[i]) }

  /** How many equal lengths cur are taken together at most, the length sent before being prev. */
  function MaxCount(cur: nat, prev: int): nat { if cur == 0 then 138 else if cur == prev then 6 else 7 }

  function MinCount(cur: nat, prev: int): nat { if cur == 0 || cur == prev then 3 else 4 }

  function Plain(n: nat, cur: nat): (s: seq<Op>)
    ensures |s| == n && forall i :: 0 <= i < n ==> s[i] == Op(cur, 0)
  {
    seq(n, _ => Op(cur, 0))
  }

  /** What is sent for a run of count lengths cur. */
  function Run(cur: nat, prev: int, count: nat): seq<Op> {
    if count < MinCount(cur, prev) then Plain(count, cur)
    else if cur != 0 then
      if cur != prev then [Op(cur, 0), Op(REP_3_6, count - 4)] else [Op(REP_3_6, count - 3)]
    else if count <= 10 then [Op(REPZ_3_10, count - 3)]
    else [Op(REPZ_11_138, count - 11)]
  }

  /** The length after the n-th; a guard that equals none after the last. */
  function NextLen(ls: seq<nat>, n: nat): int { if n + 1 < |ls| then ls[n + 1] else -1 }

  /** What is sent from length n on, when count lengths before it wait to be sent with it. */
  function Runs(ls: seq<nat>, n: nat, prev: int, count: nat): seq<Op>
    decreases |ls| - n
  {
    if n >= |ls| then []
    else if count + 1 < MaxCount(ls[n], prev) && ls[n] == NextLen(ls, n) then Runs(ls, n + 1, prev, count + 1)
    else Run(ls[n], prev, count + 1) + Runs(ls, n + 1, ls[n], 0)
  }

  function AllRuns(ls: seq<nat>): seq<Op> { Runs(ls, 0, -1, 0) }

  lemma {:induction false} RunOk(cur: nat, prev: int, count: nat)
    requires cur <= 15 && 1 <= count <= MaxCount(cur, prev)
    ensures OpsOk(Run(cur, prev, count))
  {
    Pow2Values();
    assert Pow2(0) == 1;
  }

  lemma {:induction false} RunsOk(ls: seq<nat>, n: nat, prev: int, count: nat)
    requires NoneAbove(ls, 15) && (n < |ls| ==> count < MaxCount(ls[n], prev))
    ensures OpsOk(Runs(ls, n, prev, count))
    decreases |ls| - n
  {
    hide OpOk, Run;
    if n < |ls| {
      if count + 1 < MaxCount(ls[n], prev) && ls[n] == NextLen(ls, n) {
        RunsOk(ls, n + 1, prev, count + 1);
      } else {
        RunOk(ls[n], prev, count + 1);
        RunsOk(ls, n + 1, ls[n], 0);
      }
    }
  }

  // --------------------------------------------------------- what the codes mean

  /** The length in force after a code, and the lengths it stands for. */
  function After(o: Op, last: nat): nat {
    if o.code < 16 then o.code else if o.code == REP_3_6 then last else 0
  }

  function Means(o: Op, last: nat): seq<nat> {
    if o.code < 16 then [o.code]
    else Repeat((if o.code == REPZ_11_138 then 11 else 3) + o.extra, After(o, last))
  }

  function Expand(os: seq<Op>, last: nat): seq<nat> {
    if os == [] then [] else Means(os[0], last) + Expand(os[1..], After(os[0], last))
  }

  function LastOf(os: seq<Op>, last: nat): nat {
    if os == [] then last else LastOf(os[1..], After(os[0], last))
  }

  lemma {:induction false} ExpandSplit(a: seq<Op>, b: seq<Op>, last: nat)
    ensures Expand(a + b, last) == Expand(a, last) + Expand(b, LastOf(a, last))
    ensures LastOf(a + b, last) == LastOf(b, LastOf(a, last))
  {
    hide Means, After;
    if a == [] {
      assert a + b == b;
    } else {
      ExpandSplit(a[1..], b, After(a[0], last));
      assert (a + b)[1..] == a[1..] + b;
      assert Means(a[0], last) + (Expand(a[1..], After(a[0], last)) + Expand(b, LastOf(a, last)))
          == Expand(a, last) + Expand(b, LastOf(a, last));
    }
  }

  lemma {:induction false} ExpandPlain(n: nat, cur: nat, last: nat)
    requires cur <= 15
    ensures Expand(Plain(n, cur), last) == Repeat(n, cur) && (n > 0 ==> LastOf(Plain(n, cur), last) == cur)
  {
    if n > 0 {
      ExpandPlain(n - 1, cur, cur);
      assert Plain(n, cur)[1..] == Plain(n - 1, cur);
      assert n == 1 ==> Plain(0, cur) == [];
    }
  }

  /** A run stands for its lengths, if what it repeats is in force. */
  lemma {:induction false} ExpandRun(cur: nat, prev: int, count: nat, last: nat)
    requires cur <= 15 && 1 <= count <= MaxCount(cur, prev) && (cur == prev ==> last == cur)
    ensures Expand(Run(cur, prev, count), last) == Repeat(count, cur) && LastOf(Run(cur, prev, count), last) == cur
  {
    if count < MinCount(cur, prev) {
      ExpandPlain(count, cur, last);
    } else if cur != 0 && cur != prev {
      var a, b := Op(cur, 0), Op(REP_3_6, count - 4);
      assert [a, b][1..] == [b] && [b][1..] == [];
      assert Expand([b], cur) == Repeat(count - 1, cur) + [];
      assert Expand([a, b], last) == [cur] + Expand([b], cur);
      assert LastOf([b], cur) == LastOf([], cur) == cur;
    } else {
      var o := Run(cur, prev, count)[0];
      assert [o][1..] == [];
      assert Expand([o], last) == Means(o, last) + [];
    }
  }

  /** The whole coding stands for the lengths. */
  lemma {:induction false} ExpandRuns(ls: seq<nat>, n: nat, prev: int, count: nat, last: nat)
    requires NoneAbove(ls, 15) && count <= n <= |ls| && (n < |ls| ==> count < MaxCount(ls[n], prev))
    requires n < |ls| ==> forall i :: n - count <= i < n ==> ls[i] == ls[n]
    requires n == |ls| ==> count == 0
    requires n < |ls| && ls[n] == prev ==> last == prev
    ensures Expand(Runs(ls, n, prev, count), last) == ls[n - count..]
    decreases |ls| - n
  {
    hide Run, Expand, MaxCount, Repeat;
    if n < |ls| {
      if count + 1 < MaxCount(ls[n], prev) && ls[n] == NextLen(ls, n) {
        ExpandRuns(ls, n + 1, prev, count + 1, last);
      } else {
        MaxSome(ls, n, prev);
        ExpandRun(ls[n], prev, count + 1, last);
        ExpandRuns(ls, n + 1, ls[n], 0, ls[n]);
        ExpandSplit(Run(ls[n], prev, count + 1), Runs(ls, n + 1, ls[n], 0), last);
        SplitRun(ls, n, count);
      }
    } else {
      assert Expand([], last) == [] by { ExpandNone(last); }
    }
  }

  lemma {:induction false} SplitRun(ls: seq<nat>, n: nat, count: nat)
    requires count <= n < |ls| && forall i :: n - count <= i < n ==> ls[i] == ls[n]
    ensures ls[n - count..] == Repeat(count + 1, ls[n]) + ls[n + 1..]
  {
    assert Repeat(count + 1, ls[n]) == ls[n - count..n + 1];
    assert ls[n - count..] == ls[n - count..n + 1] + ls[n + 1..];
  }

  lemma {:induction false} ExpandNone(last: nat)
    ensures Expand([], last) == []
  {
  }

  lemma {:induction false} MaxSome(ls: seq<nat>, n: nat, prev: int)
    requires n < |ls|
    ensures MaxCount(ls[n], prev) >= 1 && (n + 1 < |ls| ==> MaxCount(ls[n + 1], ls[n]) >= 1)
  {
  }

  /** Coding two trees one after the other: each starts afresh, so that decoding them as one
      list gives both back. */
  lemma {:induction false} RunsInverse(a: seq<nat>, b: seq<nat>)
    requires NoneAbove(a, 15) && NoneAbove(b, 15)
    ensures Expand(AllRuns(a) + AllRuns(b), 0) == a + b
  {
    hide Expand, Runs, MaxCount;
    if a != [] { MaxSome(a, 0, -1); }
    if b != [] { MaxSome(b, 0, -1); }
    var last := LastOf(AllRuns(a), 0);
    ExpandSplit(AllRuns(a), AllRuns(b), 0);
    ExpandRuns(a, 0, -1, 0, 0);
    ExpandRuns(b, 0, -1, 0, last);
    assert a[0..] == a && b[0..] == b;
  }

  // --------------------------------------------------------- scanning and sending

  /** How often a code is sent. */
  function Uses(os: seq<Op>, code: nat): nat {
    if os == [] then 0 else Uses(os[..|os| - 1], code) + if os[|os| - 1].code == code then 1 else 0
  }

  lemma {:induction false} UsesSplit(a: seq<Op>, b: seq<Op>, code: nat)
    ensures Uses(a + b, code) == Uses(a, code) + Uses(b, code)
    decreases |b|
  {
    if b == [] {
      assert a + b == a;
    } else {
      UsesSplit(a, b[..|b| - 1], code);
      assert (a + b)[..|a + b| - 1] == a + b[..|b| - 1];
    }
  }

  lemma {:induction false} UsesPlain(n: nat, cur: nat, code: nat)
    ensures Uses(Plain(n, cur), code) == if code == cur then n else 0
  {
    if n > 0 {
      UsesPlain(n - 1, cur, code);
      assert Plain(n, cur)[..n - 1] == Plain(n - 1, cur);
    }
  }

  lemma {:induction false} UsesOne(o: Op, code: nat)
    ensures Uses([o], code) == if o.code == code then 1 else 0
  {
    assert [o][..0] == [];
  }

  lemma {:induction false} UsesTwo(o: Op, p: Op, code: nat)
    ensures Uses([o, p], code) == (if o.code == code then 1 else 0) + if p.code == code then 1 else 0
  {
    assert [o, p] == [o] + [p];
    UsesSplit([o], [p], code);
    UsesOne(o, code);
    UsesOne(p, code);
  }

  /** The frequencies grew by the uses of the codes. */
  ghost predicate Grew(f: seq<nat>, f0: seq<nat>, os: seq<Op>) {
    |f| == |f0| && 19 <= |f| && (forall x :: 0 <= x < 19 ==> f[x] == f0[x] + Uses(os, x))
      && forall x :: 19 <= x < |f| ==> f[x] == f0[x]
  }

  lemma {:induction false} GrewMore(f: seq<nat>, f0: seq<nat>, os: seq<Op>, g: seq<nat>, r: seq<Op>)
    requires Grew(f, f0, os) && Grew(g, f, r)
    ensures Grew(g, f0, os + r)
  {
    hide Uses;
    forall x | 0 <= x < 19 ensures g[x] == f0[x] + Uses(os + r, x) { UsesSplit(os, r, x); }
  }

  /** Count the codes of one run. */
  method ScanRun(fc: array<nat>, cur: nat, prev: int, count: nat)
    requires fc.Length >= 19 && cur <= 15 && 1 <= count <= MaxCount(cur, prev)
    modifies fc
    ensures Grew(fc[..], old(fc[..]), Run(cur, prev, count))
  {
    hide Uses;
    ghost var r := Run(cur, prev, count);
    if count < MinCount(cur, prev) {
      forall x ensures Uses(r, x) == if x == cur then count else 0 { UsesPlain(count, cur, x); }
      fc[cur] := fc[cur] + count;
    } else if cur != 0 {
      if cur != prev {
        forall x ensures Uses(r, x) == (if cur == x then 1 else 0) + if REP_3_6 == x then 1 else 0 {
          UsesTwo(r[0], r[1], x);
        }
        fc[cur] := fc[cur] + 1;
      } else {
        forall x ensures Uses(r, x) == if REP_3_6 == x then 1 else 0 { UsesOne(r[0], x); }
      }
      fc[REP_3_6] := fc[REP_3_6] + 1;
    } else if count <= 10 {
      forall x ensures Uses(r, x) == if REPZ_3_10 == x then 1 else 0 { UsesOne(r[0], x); }
      fc[REPZ_3_10] := fc[REPZ_3_10] + 1;
    } else {
      forall x ensures Uses(r, x) == if REPZ_11_138 == x then 1 else 0 { UsesOne(r[0], x); }
      fc[REPZ_11_138] := fc[REPZ_11_138] + 1;
    }
  }

  /** The lengths in the tree, with the guard after them. */
  ghost predicate Guarded(dl: seq<nat>, ls: seq<nat>) {
    |ls| < |dl| && ls == dl[..|ls|] && dl[|ls|] == 0xffff && NoneAbove(ls, 15) && ls != []
  }

  lemma {:induction false} NextIs(dl: seq<nat>, ls: seq<nat>, n: nat)
    requires Guarded(dl, ls) && n < |ls|
    ensures n + 1 < |dl| && ls[n] == dl[n] <= 15 && (ls[n] == NextLen(ls, n) <==> dl[n] == dl[n + 1])
    ensures n + 1 < |ls| ==> dl[n + 1] == ls[n + 1]
  {
  }

  /** scan_tree: count the codes that send_tree will send. */
  method ScanTree(dl: array<nat>, maxCode: nat, fc: array<nat>)
    requires dl != fc && maxCode + 1 < dl.Length && fc.Length >= 19 && NoneAbove(dl[..maxCode + 1], 15)
    modifies dl, fc
    ensures dl[..] == old(dl[..])[maxCode + 1 := 0xffff]
    ensures Grew(fc[..], old(fc[..]), AllRuns(old(dl[..maxCode + 1])))
  {
    hide Uses, Runs, Run, Grew;
    ghost var ls: seq<nat> := dl[..maxCode + 1];
    ghost var f0 := fc[..];
    var prevlen: int, nextlen: nat := -1, dl[0];
    var count: nat, maxCount: nat, minCount: nat := 0, 7, 4;
    if nextlen == 0 { maxCount, minCount := 138, 3; }
    dl[maxCode + 1] := 0xffff;
    assert Guarded(dl[..], ls);
    ghost var os: seq<Op> := [];
    GrewStart(f0);
    assert [] + Runs(ls, 0, -1, 0) == Runs(ls, 0, -1, 0);
    var n := 0;
    while n <= maxCode
      invariant n <= maxCode + 1 && Guarded(dl[..], ls) && |ls| == maxCode + 1
      invariant dl[..] == old(dl[..])[maxCode + 1 := 0xffff]
      invariant nextlen == dl[n] && count <= n
      invariant n <= maxCode ==>
                maxCount == MaxCount(ls[n], prevlen) && minCount == MinCount(ls[n], prevlen) && count < maxCount
      invariant AllRuns(ls) == os + Runs(ls, n, prevlen, count)
      invariant Grew(fc[..], f0, os)
    {
      var curlen := nextlen;
      nextlen := dl[n + 1];
      NextIs(dl[..], ls, n);
      RunsStep(ls, n, prevlen, count);
      count := count + 1;
      if count < maxCount && curlen == nextlen {
        n := n + 1;
        continue;
      }
      ghost var f1 := fc[..];
      ScanRun(fc, curlen, prevlen, count);
      GrewMore(f1, f0, os, fc[..], Run(curlen, prevlen, count));
      Assoc(os, Run(curlen, prevlen, count), Runs(ls, n + 1, curlen, 0));
      os := os + Run(curlen, prevlen, count);
      count, prevlen := 0, curlen;
      if nextlen == 0 {
        maxCount, minCount := 138, 3;
      } else if curlen == nextlen {
        maxCount, minCount := 6, 3;
      } else {
        maxCount, minCount := 7, 4;
      }
      n := n + 1;
    }
    RunsDone(ls, n, prevlen, count);
    assert os + [] == os;
  }

  lemma {:induction false} Assoc(a: seq<Op>, b: seq<Op>, c: seq<Op>)
    ensures a + (b + c) == (a + b) + c
  {
  }

  lemma {:induction false} GrewStart(f: seq<nat>)
    requires |f| >= 19
    ensures Grew(f, f, [])
  {
  }

  lemma {:induction false} RunsStep(ls: seq<nat>, n: nat, prev: int, count: nat)
    requires n < |ls|
    ensures Runs(ls, n, prev, count) ==
            if count + 1 < MaxCount(ls[n], prev) && ls[n] == NextLen(ls, n) then Runs(ls, n + 1, prev, count + 1)
            else Run(ls[n], prev, count + 1) + Runs(ls, n + 1, ls[n], 0)
  {
    hide Run;
  }

  lemma {:induction false} RunsDone(ls: seq<nat>, n: nat, prev: int, count: nat)
    requires n >= |ls|
    ensures Runs(ls, n, prev, count) == []
  {
  }

  // ----------------------------------------------------------------------- bits

  /** The bits of codes sent with the bit length codes b. */
  function OpBits(b: seq<nat>, o: Op): seq<bool>
    requires o.code < |b|
  {
    Code(b, o.code) + Lsb(o.extra, OpExtra(o.code))
  }

  predicate InTree(b: seq<nat>, os: seq<Op>) { forall i :: 0 <= i < |os| ==> os[i].code < |b| }

  function OpsBits(b: seq<nat>, os: seq<Op>): seq<bool>
    requires InTree(b, os)
  {
    if os == [] then [] else OpsBits(b, os[..|os| - 1]) + OpBits(b, os[|os| - 1])
  }

  lemma {:induction false} OpsBitsSplit(b: seq<nat>, x: seq<Op>, y: seq<Op>)
    requires InTree(b, x) && InTree(b, y)
    ensures OpsBits(b, x + y) == OpsBits(b, x) + OpsBits(b, y)
    decreases |y|
  {
    hide OpBits;
    if y == [] {
      assert x + y == x;
    } else {
      OpsBitsSplit(b, x, y[..|y| - 1]);
      assert (x + y)[..|x + y| - 1] == x + y[..|y| - 1];
      assert (OpsBits(b, x) + OpsBits(b, y[..|y| - 1])) + OpBits(b, y[|y| - 1]) == OpsBits(b, x) + OpsBits(b, y);
    }
  }

  /** The codes of the bit length tree for all that may be sent. */
  ghost predicate CanSend(fc: seq<nat>, b: seq<nat>, os: seq<Op>) {
    && TreesCodes.Coded(fc, b, |b|) && NoneAbove(b, 15) && |b| <= 19 && |fc| >= 19
    && forall i :: 0 <= i < |os| ==> OpOk(os[i]) && os[i].code < |b| && b[os[i].code] > 0
  }

  /** send_code and the extra bits. */
  method SendOp(w: BitSink, fc: array<nat>, dl: array<nat>, o: Op, ghost b: seq<nat>)
    requires w.Valid() && fc.Length == dl.Length && |b| <= dl.Length && dl[..|b|] == b && o.code < |b|
    requires CanSend(fc[..], b, [o])
    modifies w
    ensures w.Valid() && w.sent == old(w.sent) + OpBits(b, o)
  {
    hide Holds, Lsb, Code, TreesCodes.Coded;
    OpFacts(fc[..], b, o);
    assert b[o.code] == dl[o.code];
    w.SendBits(fc[o.code], dl[o.code]);
    if OpExtra(o.code) > 0 {
      w.SendBits(o.extra, OpExtra(o.code));
    } else {
      assert Lsb(o.extra, 0) == [] by { NoLsb(o.extra); }
    }
  }

  lemma {:induction false} NoLsb(x: nat)
    ensures Lsb(x, 0) == []
  {
  }

  lemma {:induction false} OpFacts(fc: seq<nat>, b: seq<nat>, o: Op)
    requires CanSend(fc, b, [o])
    ensures o.code < |b| && o.code < |fc| && fc[o.code] < Pow2(b[o.code])
    ensures Lsb(fc[o.code], b[o.code]) == Code(b, o.code) && b[o.code] <= 15
    ensures o.extra < Pow2(OpExtra(o.code)) && OpExtra(o.code) <= 7
  {
    assert [o][0] == o;
    assert CodeSet(fc, b, o.code);
  }

  lemma {:induction false} OneOpBits(b: seq<nat>, x: seq<Op>, o: Op)
    requires InTree(b, x) && o.code < |b|
    ensures OpsBits(b, x + [o]) == OpsBits(b, x) + OpBits(b, o)
  {
    hide OpBits;
    assert (x + [o])[..|x + [o]| - 1] == x;
  }

  lemma {:induction false} CanSendSome(fc: seq<nat>, b: seq<nat>, os: seq<Op>, i: nat, j: nat)
    requires CanSend(fc, b, os) && i <= j <= |os|
    ensures CanSend(fc, b, os[i..j]) && (i < j ==> os[i].code < |b| && CanSend(fc, b, [os[i]]))
  {
    hide TreesCodes.Coded;
  }

  lemma {:induction false} NoOps(b: seq<nat>)
    ensures OpsBits(b, []) == []
  {
  }

  /** Send one length count times. */
  method SendPlain(w: BitSink, fc: array<nat>, dl: array<nat>, cur: nat, count: nat, ghost b: seq<nat>)
    requires w.Valid() && fc.Length == dl.Length && |b| <= dl.Length && dl[..|b|] == b
    requires CanSend(fc[..], b, Plain(count, cur)) && InTree(b, Plain(count, cur))
    modifies w
    ensures w.Valid() && w.sent == old(w.sent) + OpsBits(b, Plain(count, cur))
  {
    hide CanSend, OpBits, OpsBits, Holds;
    ghost var r, s0 := Plain(count, cur), w.sent;
    NoOps(b);
    var c: nat := count;
    while c != 0
      invariant c <= count && w.Valid() && InTree(b, r[..count - c]) && w.sent == s0 + OpsBits(b, r[..count - c])
    {
      ghost var k: nat := count - c;
      CanSendSome(fc[..], b, r, k, count);
      OneOpBits(b, r[..k], r[k]);
      assert r[..k + 1] == r[..k] + [r[k]];
      SendOp(w, fc, dl, Op(cur, 0), b);
      assert (s0 + OpsBits(b, r[..k])) + OpBits(b, r[k]) == s0 + (OpsBits(b, r[..k]) + OpBits(b, r[k]));
      c := c - 1;
    }
    assert r[..count] == r;
  }

  /** Send the codes of one run. */
  method SendRun(w: BitSink, fc: array<nat>, dl: array<nat>, cur: nat, prev: int, count: nat, ghost b: seq<nat>)
    requires w.Valid() && fc.Length == dl.Length && |b| <= dl.Length && dl[..|b|] == b
    requires 1 <= count <= MaxCount(cur, prev)
    requires CanSend(fc[..], b, Run(cur, prev, count)) && InTree(b, Run(cur, prev, count))
    modifies w
    ensures w.Valid() && w.sent == old(w.sent) + OpsBits(b, Run(cur, prev, count))
  {
    hide CanSend, OpBits, OpsBits, Holds;
    ghost var r, s0 := Run(cur, prev, count), w.sent;
    NoOps(b);
    if count < MinCount(cur, prev) {
      SendPlain(w, fc, dl, cur, count, b);
    } else if cur != 0 {
      var c := count;
      CanSendSome(fc[..], b, r, 0, |r|);
      OneOpBits(b, [], r[0]);
      assert [] + [r[0]] == [r[0]];
      if cur != prev {
        SendOp(w, fc, dl, Op(cur, 0), b);
        c := c - 1;
        CanSendSome(fc[..], b, r, 1, |r|);
        OneOpBits(b, [r[0]], r[1]);
        assert r == [r[0]] + [r[1]];
        SendOp(w, fc, dl, Op(REP_3_6, c - 3), b);
        assert (s0 + OpBits(b, r[0])) + OpBits(b, r[1]) == s0 + (OpBits(b, r[0]) + OpBits(b, r[1]));
      } else {
        SendOp(w, fc, dl, Op(REP_3_6, c - 3), b);
        assert r == [r[0]];
      }
    } else {
      CanSendSome(fc[..], b, r, 0, |r|);
      OneOpBits(b, [], r[0]);
      assert [] + [r[0]] == [r[0]] == r;
      if count <= 10 {
        SendOp(w, fc, dl, Op(REPZ_3_10, count - 3), b);
      } else {
        SendOp(w, fc, dl, Op(REPZ_11_138, count - 11), b);
      }
    }
  }

  lemma {:induction false} CanSendParts(fc: seq<nat>, b: seq<nat>, os: seq<Op>, x: seq<Op>, y: seq<Op>, z: seq<Op>)
    requires CanSend(fc, b, os) && os == x + (y + z)
    ensures CanSend(fc, b, y) && InTree(b, x) && InTree(b, y)
    ensures OpsBits(b, x + y) == OpsBits(b, x) + OpsBits(b, y)
  {
    hide TreesCodes.Coded, OpBits, OpsBits;
    assert y == os[|x|..|x| + |y|] && x == os[..|x|];
    OpsBitsSplit(b, x, y);
  }

  /** send_tree: send the lengths, whose guard is already set, in compressed form. */
  method SendTree(w: BitSink, dl: array<nat>, maxCode: nat, blFc: array<nat>, blDl: array<nat>, ghost b: seq<nat>)
    requires w.Valid() && maxCode + 1 < dl.Length && Guarded(dl[..], dl[..maxCode + 1])
    requires blFc.Length == blDl.Length && |b| <= blDl.Length && blDl[..|b|] == b
    requires CanSend(blFc[..], b, AllRuns(dl[..maxCode + 1])) && InTree(b, AllRuns(dl[..maxCode + 1]))
    modifies w
    ensures w.Valid() && w.sent == old(w.sent) + OpsBits(b, AllRuns(dl[..maxCode + 1]))
  {
    hide Runs, Run, CanSend, OpBits, OpsBits, Holds;
    ghost var ls: seq<nat>, s0 := dl[..maxCode + 1], w.sent;
    var prevlen: int, nextlen: nat := -1, dl[0];
    var count: nat, maxCount: nat, minCount: nat := 0, 7, 4;
    if nextlen == 0 { maxCount, minCount := 138, 3; }
    ghost var os: seq<Op> := [];
    NoOps(b);
    assert [] + Runs(ls, 0, -1, 0) == Runs(ls, 0, -1, 0);
    var n := 0;
    while n <= maxCode
      invariant n <= maxCode + 1 && w.Valid() && nextlen == dl[n] && count <= n
      invariant n <= maxCode ==>
                maxCount == MaxCount(ls[n], prevlen) && minCount == MinCount(ls[n], prevlen) && count < maxCount
      invariant AllRuns(ls) == os + Runs(ls, n, prevlen, count) && InTree(b, os)
      invariant w.sent == s0 + OpsBits(b, os)
    {
      var curlen := nextlen;
      nextlen := dl[n + 1];
      NextIs(dl[..], ls, n);
      RunsStep(ls, n, prevlen, count);
      count := count + 1;
      if count < maxCount && curlen == nextlen {
        n := n + 1;
        continue;
      }
      ghost var r, rest := Run(curlen, prevlen, count), Runs(ls, n + 1, curlen, 0);
      CanSendParts(blFc[..], b, AllRuns(ls), os, r, rest);
      SendRun(w, blFc, blDl, curlen, prevlen, count, b);
      assert (s0 + OpsBits(b, os)) + OpsBits(b, r) == s0 + (OpsBits(b, os) + OpsBits(b, r));
      Assoc(os, r, rest);
      os := os + r;
      count, prevlen := 0, curlen;
      if nextlen == 0 {
        maxCount, minCount := 138, 3;
      } else if curlen == nextlen {
        maxCount, minCount := 6, 3;
      } else {
        maxCount, minCount := 7, 4;
      }
      n := n + 1;
    }
    RunsDone(ls, n, prevlen, count);
    assert os + [] == os;
  }
}
