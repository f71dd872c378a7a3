/** How deflate of archive/gzip/deflate.c cuts its items into blocks. */
module DeflateBlocks {
  import opened BitString
  import opened InflateFormat
  import opened DeflateText
  import opened TreesTally
  import opened TreesFlush

  /** The block must end after ks: the buffers are full but for one place, or there are no more
      matches than literals and the bits foreseen are few. */
  ghost predicate Due(ks: seq<Item>, level: nat) {
    ks != [] && (|ks| == 8191 || Profitable(ks, level, Reach(0, ks[..|ks| - 1]) + 1))
  }

  /** It must not have ended earlier. */
  ghost predicate NoneDue(ks: seq<Item>, level: nat) { forall n :: 0 < n < |ks| ==> !Due(ks[..n], level) }

  /** It is of the kind chosen.  Up to 16122 bytes are always in the window, and never more than
      0x8000. */
  ghost predicate CutOk(input: seq<byte>, c: Cut, n: nat, eof: bool) {
    && c.from <= c.to <= |input| && (c.to - c.from <= 16122 ==> c.here) && (c.here ==> c.to - c.from <= 0x8000)
    && BlockOf(c.bits, eof, c.body, n, c.here, if c.here then input[c.from..c.to] else [], c.dyn, c.ks)
  }

  /** The blocks cs are the bits sent, hold the items all, and spell the input up to a. */
  ghost predicate Cuts(input: seq<byte>, level: nat, cs: seq<Cut>, sent: seq<bool>, a: int, all: seq<Item>)
    decreases |cs|
  {
    if cs == [] then sent == [] && a == 0 && all == []
    else
      var c := cs[|cs| - 1];
      && |c.bits| <= |sent| && |c.ks| <= |all|
      && var m, i := |sent| - |c.bits|, |all| - |c.ks|;
         && sent[m..] == c.bits && all[i..] == c.ks && c.to == a && Due(c.ks, level) && NoneDue(c.ks, level)
         && CutOk(input, c, m, false) && Cuts(input, level, cs[..|cs| - 1], sent[..m], c.from, all[..i])
  }

  /** The items ks came after these blocks. */
  ghost predicate Split(input: seq<byte>, level: nat, cs: seq<Cut>, sent: seq<bool>, a: int, all: seq<Item>,
                        ks: seq<Item>) {
    && |ks| <= |all| && all[|all| - |ks|..] == ks && NoneDue(ks, level)
    && Cuts(input, level, cs, sent, a, all[..|all| - |ks|])
  }

  lemma {:induction false} SplitNone(input: seq<byte>, level: nat)
    ensures Split(input, level, [], [], 0, [], []) && !Due([], level)
  {
  }

  lemma {:induction false} SplitMore(input: seq<byte>, level: nat, cs: seq<Cut>, sent: seq<bool>, a: int,
                                     all: seq<Item>, ks: seq<Item>, k: Item)
    requires Split(input, level, cs, sent, a, all, ks) && !Due(ks, level)
    ensures Split(input, level, cs, sent, a, all + [k], ks + [k])
  {
    hide Due, Cuts;
    forall n | 0 < n < |ks| + 1 ensures !Due((ks + [k])[..n], level) {
      assert (ks + [k])[..n] == ks[..n];
      if n == |ks| { assert ks[..n] == ks; }
    }
    assert (all + [k])[..|all| - |ks|] == all[..|all| - |ks|];
  }

  lemma {:induction false} SplitCut(input: seq<byte>, level: nat, cs: seq<Cut>, sent: seq<bool>, all: seq<Item>, c: Cut)
    requires Split(input, level, cs, sent, c.from, all, c.ks) && Due(c.ks, level) && CutOk(input, c, |sent|, false)
    ensures Split(input, level, cs + [c], sent + c.bits, c.to, all, []) && !Due([], level)
  {
    hide NoneDue, CutOk;
    NoneShort(level);
    assert (cs + [c])[..|cs|] == cs && (sent + c.bits)[..|sent|] == sent;
    assert all[..|all|] == all && all[|all|..] == [];
  }

  lemma {:induction false} NoneShort(level: nat)
    ensures NoneDue([], level)
  {
  }

  /** The last of the blocks ends with the input. */
  ghost predicate AllCut(input: seq<byte>, level: nat, cs: seq<Cut>, sent: seq<bool>, all: seq<Item>) {
    && cs != []
    && var c := cs[|cs| - 1];
       && |c.bits| <= |sent| && sent[|sent| - |c.bits|..] == c.bits && c.to == |input|
       && CutOk(input, c, |sent| - |c.bits|, true)
       && Split(input, level, cs[..|cs| - 1], sent[..|sent| - |c.bits|], c.from, all, c.ks)
  }

  lemma {:induction false} SplitLast(input: seq<byte>, level: nat, cs: seq<Cut>, sent: seq<bool>, all: seq<Item>,
                                     c: Cut)
    requires Split(input, level, cs, sent, c.from, all, c.ks) && CutOk(input, c, |sent|, true) && c.to == |input|
    ensures AllCut(input, level, cs + [c], sent + c.bits, all)
  {
    hide Split, CutOk;
    assert (cs + [c])[..|cs|] == cs && (sent + c.bits)[..|sent|] == sent;
  }

  lemma {:induction false} ReachFrom(a: nat, b: nat, ks: seq<Item>)
    ensures Reach(a + b, ks) == a + Reach(b, ks)
    decreases |ks|
  {
    if ks != [] { ReachFrom(a, b + ItemLen(ks[0]), ks[1..]); }
  }

  /** ct_tally's answer, given the length it was told. */
  lemma {:induction false} DueNow(ks: seq<Item>, k: Item, level: nat, a: nat, b: int, inLength: int)
    requires Reach(a, ks) == b && inLength == b - a + 1
    ensures Due(ks + [k], level)
            <==> |ks + [k]| == LIT_BUFSIZE - 1 || (inLength >= 0 && Profitable(ks + [k], level, inLength))
    ensures inLength >= 0
  {
    hide Profitable;
    ReachFrom(a, 0, ks);
    assert (ks + [k])[..|ks|] == ks;
  }
}
