/** The buffers of archive/gzip/trees.c between ct_tally, which fills them, and compress_block,
    which sends them. */
module TreesTally {
  import opened BitString
  import opened GzipBits
  import opened InflateFormat
  import opened TreesTables
  import opened TreesTokens

  const LIT_BUFSIZE: nat := 0x2000

  /** How many items are matches. */
  function Matches(ks: seq<Item>): (n: nat)
    ensures n <= |ks|
  {
    if ks == [] then 0 else Matches(ks[..|ks| - 1]) + if ks[|ks| - 1].Back? then 1 else 0
  }

  lemma {:induction false} MatchesMore(ks: seq<Item>, k: Item)
    ensures Matches(ks + [k]) == Matches(ks) + if k.Back? then 1 else 0
  {
    assert (ks + [k])[..|ks + [k]| - 1] == ks;
  }

  lemma {:induction false} MatchesPrefix(ks: seq<Item>, i: nat)
    requires i <= |ks|
    ensures Matches(ks[..i]) <= Matches(ks) && (i < |ks| && ks[i].Back? ==> Matches(ks[..i]) < Matches(ks))
    decreases |ks|
  {
    if i < |ks| {
      MatchesPrefix(ks[..|ks| - 1], i);
      assert ks[..|ks| - 1][..i] == ks[..i];
    } else {
      assert ks[..i] == ks;
    }
  }

  // ---------------------------------------------------------------------- flags

  /** One bit for each item, the first lowest: whether it is a match. */
  function FlagBits(ks: seq<Item>): (v: nat)
    ensures v < Pow2(|ks|)
  {
    if ks == [] then 0 else (if ks[0].Back? then 1 else 0) + 2 * FlagBits(ks[1..])
  }

  lemma {:induction false} FlagBitsMore(ks: seq<Item>, k: Item)
    ensures FlagBits(ks + [k]) == FlagBits(ks) + if k.Back? then Pow2(|ks|) else 0
  {
    if ks == [] {
      assert [] + [k] == [k];
      assert [k][1..] == [];
    } else {
      FlagBitsMore(ks[1..], k);
      assert (ks + [k])[1..] == ks[1..] + [k];
    }
  }

  /** flags |= flag_bit for the next item. */
  lemma {:induction false} SetFlag(ks: seq<Item>, k: Item)
    requires k.Back?
    ensures Or(FlagBits(ks), Pow2(|ks|)) == FlagBits(ks + [k])
  {
    hide Or, Shl;
    FlagBitsMore(ks, k);
    OrHigh(FlagBits(ks), 1, |ks|);
    ShlPow2(|ks|);
  }

  /** The items that share a flag byte. */
  function Group(ks: seq<Item>, j: nat): (g: seq<Item>)
    requires 8 * j <= |ks|
    ensures |g| <= 8
  {
    if 8 * j + 8 <= |ks| then ks[8 * j..8 * j + 8] else ks[8 * j..]
  }

  ghost predicate Flagged(fb: seq<nat>, ks: seq<Item>, n: nat) {
    n <= |fb| && 8 * n <= |ks| + 7 && forall j :: 0 <= j < n ==> FlagByte(fb, ks, j)
  }

  ghost predicate FlagByte(fb: seq<nat>, ks: seq<Item>, j: nat) {
    j < |fb| && 8 * j <= |ks| && fb[j] == FlagBits(Group(ks, j))
  }

  // -------------------------------------------------------------------- buffers

  ghost predicate ItemStored(lb: seq<nat>, db: seq<nat>, ks: seq<Item>, i: nat)
    requires i < |ks|
  {
    && i < |lb| && ItemOk(ks[i])
    && match ks[i] {
      case Lit(b) => lb[i] == b
      case Back(len, dist) => lb[i] == len - 3 && Matches(ks[..i]) < |db| && db[Matches(ks[..i])] == dist - 1
    }
  }

  ghost predicate AllStored(lb: seq<nat>, db: seq<nat>, ks: seq<Item>) {
    forall i :: 0 <= i < |ks| ==> ItemStored(lb, db, ks, i)
  }

  lemma {:induction false} StoredMore(lb: seq<nat>, db: seq<nat>, ks: seq<Item>, k: Item, v: nat, d: nat)
    requires AllStored(lb, db, ks) && ItemOk(k) && |ks| < |lb| && Matches(ks) < |db|
    requires match k { case Lit(b) => v == b case Back(len, dist) => v == len - 3 && d == dist - 1 }
    ensures AllStored(lb[|ks| := v], if k.Back? then db[Matches(ks) := d] else db, ks + [k])
  {
    hide Matches;
    var l2, d2, k2 := lb[|ks| := v], if k.Back? then db[Matches(ks) := d] else db, ks + [k];
    forall i | 0 <= i < |k2| ensures ItemStored(l2, d2, k2, i) {
      assert k2[..i] == ks[..i];
      if i < |ks| {
        assert ItemStored(lb, db, ks, i);
        MatchesPrefix(ks, i);
      } else {
        assert ks[..i] == ks;
      }
    }
  }

  /** What the buffers hold while they are filled. */
  ghost predicate Filling(lb: seq<nat>, db: seq<nat>, fb: seq<nat>, lastLit: nat, lastDist: nat, lastFlags: nat,
                          flags: nat, flagBit: nat, ks: seq<Item>) {
    && |lb| == |db| == LIT_BUFSIZE && |fb| == LIT_BUFSIZE / 8
    && lastLit == |ks| < LIT_BUFSIZE && lastDist == Matches(ks) && AllStored(lb, db, ks)
    && lastFlags == |ks| / 8 && Flagged(fb, ks, lastFlags)
    && flags == FlagBits(ks[8 * lastFlags..]) && flagBit == Pow2(|ks| % 8)
  }

  lemma {:induction false} FlaggedMore(fb: seq<nat>, ks: seq<Item>, k: Item)
    requires Flagged(fb, ks, |ks| / 8)
    ensures Flagged(fb, ks + [k], |ks| / 8)
  {
    hide FlagBits;
    var n := |ks| / 8;
    forall j | 0 <= j < n ensures FlagByte(fb, ks + [k], j) {
      assert FlagByte(fb, ks, j);
      assert (ks + [k])[8 * j..8 * j + 8] == ks[8 * j..8 * j + 8];
    }
  }

  /** One item more, after its flag byte is saved if that is full. */
  lemma {:induction false} FillingMore(lb: seq<nat>, db: seq<nat>, fb: seq<nat>, lastFlags: nat, flags: nat,
                                       flagBit: nat, ks: seq<Item>, k: Item,
                                       lb2: seq<nat>, db2: seq<nat>, flags2: nat)
    requires Filling(lb, db, fb, |ks|, Matches(ks), lastFlags, flags, flagBit, ks) && |ks| + 1 < LIT_BUFSIZE
    requires |lb2| == |db2| == LIT_BUFSIZE && AllStored(lb2, db2, ks + [k])
    requires flags2 == if k.Back? then Or(flags, flagBit) else flags
    ensures (|ks| + 1) % 8 != 0 ==>
              Filling(lb2, db2, fb, |ks| + 1, Matches(ks + [k]), lastFlags, flags2, 2 * flagBit % 256, ks + [k])
    ensures (|ks| + 1) % 8 == 0 && lastFlags < |fb| ==>
              Filling(lb2, db2, fb[lastFlags := flags2], |ks| + 1, Matches(ks + [k]), lastFlags + 1, 0, 1, ks + [k])
    ensures lastFlags < |fb|
  {
    hide FlagBits, Matches, Or, AllStored, Pow2;
    var n, r, k2 := |ks| / 8, |ks| % 8, ks + [k];
    var g := ks[8 * n..];
    if k.Back? { SetFlag(g, k); }
    FlagBitsMore(g, k);
    assert k2[8 * n..] == g + [k];
    FlaggedMore(fb, ks, k);
    Pow2Up(r);
    if (|ks| + 1) % 8 == 0 {
      var f2 := fb[lastFlags := flags2];
      assert Group(k2, n) == g + [k];
      forall j | 0 <= j < n + 1 ensures FlagByte(f2, k2, j) {
        if j < n { assert FlagByte(fb, k2, j); }
      }
      assert k2[8 * (n + 1)..] == [];
      NoFlags();
    }
  }

  lemma {:induction false} NoFlags()
    ensures FlagBits([]) == 0 && Pow2(0) == 1 && Matches([]) == 0
  {
  }

  lemma {:induction false} Pow2Up(r: nat)
    requires r < 8
    ensures r < 7 ==> 2 * Pow2(r) % 256 == Pow2(r + 1)
  {
    if r < 7 {
      Pow2Monotone(r + 1, 7);
      Pow2Values();
    }
  }

  /** All flag bytes are in place once the last one is saved. */
  lemma {:induction false} FlagsSaved(lb: seq<nat>, db: seq<nat>, fb: seq<nat>, lastLit: nat, lastDist: nat,
                                      lastFlags: nat, flags: nat, flagBit: nat, ks: seq<Item>)
    requires Filling(lb, db, fb, lastLit, lastDist, lastFlags, flags, flagBit, ks)
    ensures lastFlags < |fb| && Saved(lb, db, fb[lastFlags := flags], ks)
    ensures Filling(lb, db, fb[lastFlags := flags], lastLit, lastDist, lastFlags, flags, flagBit, ks)
  {
    hide FlagBits, Matches, AllStored, Pow2;
    var n := |ks| / 8;
    var f2 := fb[n := flags];
    assert Group(ks, n) == ks[8 * n..];
    forall j | 0 <= j < (|ks| + 7) / 8 ensures FlagByte(f2, ks, j) {
      if j < n { assert FlagByte(fb, ks, j); }
    }
    assert Flagged(f2, ks, n);
  }

  ghost predicate Saved(lb: seq<nat>, db: seq<nat>, fb: seq<nat>, ks: seq<Item>) {
    && |lb| == |db| == LIT_BUFSIZE && |fb| == LIT_BUFSIZE / 8
    && |ks| < LIT_BUFSIZE && AllStored(lb, db, ks) && Flagged(fb, ks, (|ks| + 7) / 8)
  }

  /** The frequencies of the codes, with one end of the block. */
  ghost predicate Counted(lf: seq<nat>, df: seq<nat>, ks: seq<Item>) {
    && L_CODES <= |lf| && D_CODES <= |df|
    && (forall c :: 0 <= c < L_CODES ==> lf[c] == LitUses(ks, c) + if c == END_BLOCK then 1 else 0)
    && forall c :: 0 <= c < D_CODES ==> df[c] == DistUses(ks, c)
  }

  lemma {:induction false} CountedMore(lf: seq<nat>, df: seq<nat>, ks: seq<Item>, k: Item)
    requires Counted(lf, df, ks) && ItemOk(k)
    ensures LitSym(k) < L_CODES && DistSym(k) < D_CODES
    ensures Counted(lf[LitSym(k) := lf[LitSym(k)] + 1],
                    if k.Back? then df[DistSym(k) := df[DistSym(k)] + 1] else df, ks + [k])
  {
    hide LitUses, DistUses;
    forall c ensures LitUses(ks + [k], c) == LitUses(ks, c) + (if LitSym(k) == c then 1 else 0)
                     && DistUses(ks + [k], c) == DistUses(ks, c) + if k.Back? && DistSym(k) == c then 1 else 0
    {
      UsesMore(ks, k, c);
    }
  }

  /** Upper bound of the bits that the distances take. */
  function DistanceCost(ks: seq<Item>, n: nat): nat
    requires n <= 30
  {
    if n == 0 then 0 else DistanceCost(ks, n - 1) + DistUses(ks, n - 1) * (5 + CpDExt()[n - 1])
  }

  /** Whether it may be profitable to stop the block after ks. */
  ghost predicate Profitable(ks: seq<Item>, level: nat, inLength: nat) {
    level > 2 && |ks| % 0x1000 == 0 && Matches(ks) < |ks| / 2 && (8 * |ks| + DistanceCost(ks, 30)) / 8 < inLength / 2
  }

  class Tally {
    const lBuf: array<nat>
    const dBuf: array<nat>
    const flagBuf: array<nat>
    const lengthCode: seq<nat>
    const baseLength: seq<nat>
    const distCode: seq<nat>
    const baseDist: seq<nat>
    var lastLit: nat
    var lastDist: nat
    var lastFlags: nat
    var flags: nat
    var flagBit: nat
    ghost var toks: seq<Item>  // since the last block
    ghost var all: seq<Item>   // since the start

    ghost predicate Tables() { LenTable(lengthCode, baseLength) && DistTable(distCode, baseDist) }

    ghost predicate Shaped() {
      lBuf.Length == dBuf.Length == LIT_BUFSIZE && flagBuf.Length == LIT_BUFSIZE / 8 && lBuf != dBuf && lBuf != flagBuf
        && dBuf != flagBuf
    }

    ghost predicate Valid()
      reads this, lBuf, dBuf, flagBuf
    {
      && Shaped() && Tables()
      && Filling(lBuf[..], dBuf[..], flagBuf[..], lastLit, lastDist, lastFlags, flags, flagBit, toks)
    }

    /** The part of ct_init and init_block that concerns the buffers. */
    constructor ()
      ensures Valid() && Shaped() && Tables() && fresh(lBuf) && fresh(dBuf) && fresh(flagBuf)
      ensures toks == [] && all == []
    {
      hide LenTable, DistTable;
      lBuf, dBuf, flagBuf := new nat[LIT_BUFSIZE], new nat[LIT_BUFSIZE], new nat[LIT_BUFSIZE / 8];
      var lc, bl := InitLengths();
      var dc, bd := InitDistances();
      lengthCode, baseLength, distCode, baseDist := lc[..], bl[..], dc[..], bd[..];
      lastLit, lastDist, lastFlags, flags, flagBit, toks, all := 0, 0, 0, 0, 1, [], [];
      new;
      NoFlags();
    }

    /** Empty the buffers for a new block. */
    method Restart()
      requires Shaped() && Tables()
      modifies this
      ensures Valid() && toks == [] && all == old(all)
    {
      hide LenTable, DistTable;
      lastLit, lastDist, lastFlags, flags, flagBit, toks := 0, 0, 0, 0, 1, [];
      NoFlags();
    }

    /** Save a literal or a match in the buffers. */
    method Save(dist: nat, lc: nat, ghost k: Item)
      requires Valid() && |toks| + 1 < LIT_BUFSIZE && ItemOk(k)
      requires match k { case Lit(b) => dist == 0 && lc == b case Back(len, d) => lc == len - 3 && dist == d }
      modifies this, lBuf, dBuf, flagBuf
      ensures Valid() && toks == old(toks) + [k] && all == old(all) + [k]
    {
      hide FlagBits, Matches, Or, AllStored, Pow2, LenTable, DistTable, Flagged;
      ghost var lb: seq<nat>, db: seq<nat>, fb: seq<nat>, lf, fl, bit :=
        lBuf[..], dBuf[..], flagBuf[..], lastFlags, flags, flagBit;
      MatchesPrefix(toks, |toks|);
      StoredMore(lb, db, toks, k, lc, if dist > 0 then dist - 1 else 0);
      MatchesMore(toks, k);
      lBuf[lastLit] := lc;
      lastLit := lastLit + 1;
      if dist != 0 {
        dBuf[lastDist] := dist - 1;
        lastDist := lastDist + 1;
        flags := Or(flags, flagBit);
      }
      assert lBuf[..] == lb[|toks| := lc];
      assert dBuf[..] == if k.Back? then db[Matches(toks) := dist - 1] else db;
      FillingMore(lb, db, fb, lf, fl, bit, toks, k, lBuf[..], dBuf[..], flags);
      flagBit := 2 * flagBit % 256;
      toks, all := toks + [k], all + [k];
      if lastLit % 8 == 0 {
        flagBuf[lastFlags] := flags;
        assert flagBuf[..] == fb[lf := flags];
        lastFlags := lastFlags + 1;
        flags, flagBit := 0, 1;
      }
    }

    /** ct_tally: save a literal (dist == 0) or a match, count its codes, and say whether the
        block must be flushed. */
    method CtTally(lFc: array<nat>, dFc: array<nat>, dist: nat, lc: nat, level: nat, inLength: nat, ghost k: Item)
      returns (flush: bool)
      requires Valid() && |toks| + 1 < LIT_BUFSIZE && ItemOk(k)
      requires match k { case Lit(b) => dist == 0 && lc == b case Back(len, d) => lc == len - 3 && dist == d }
      requires Counted(lFc[..], dFc[..], toks) && lFc != dFc && {lFc, dFc} !! {lBuf, dBuf, flagBuf}
      modifies this, lBuf, dBuf, flagBuf, lFc, dFc
      ensures Valid() && toks == old(toks) + [k] && all == old(all) + [k] && Counted(lFc[..], dFc[..], toks)
      ensures forall c :: L_CODES <= c < lFc.Length ==> lFc[c] == old(lFc[c])
      ensures forall c :: D_CODES <= c < dFc.Length ==> dFc[c] == old(dFc[c])
      ensures flush <==> |toks| == LIT_BUFSIZE - 1 || Profitable(toks, level, inLength)
    {
      hide Filling, LenTable, DistTable, Counted, Matches, DistUses, DistanceCost, LenCode, DistCode;
      ghost var lf: seq<nat>, df: seq<nat> := lFc[..], dFc[..];
      CountedMore(lf, df, toks, k);
      SymsFromTables(k);
      CountedSize(lf, df, toks);
      Save(dist, lc, k);
      if dist == 0 {
        lFc[lc] := lFc[lc] + 1;
        assert lFc[..] == lf[LitSym(k) := lf[LitSym(k)] + 1];
      } else {
        var c := lengthCode[lc] + LITERALS + 1;
        lFc[c] := lFc[c] + 1;
        var d := DCode(distCode, dist - 1);
        dFc[d] := dFc[d] + 1;
        assert lFc[..] == lf[LitSym(k) := lf[LitSym(k)] + 1];
        assert dFc[..] == df[DistSym(k) := df[DistSym(k)] + 1];
      }
      FillingParts(lBuf[..], dBuf[..], flagBuf[..], lastLit, lastDist, lastFlags, flags, flagBit, toks);
      if level > 2 && lastLit % 0x1000 == 0 {
        flush := StopHere(lFc, dFc, lastLit, lastDist, inLength, toks);
        if flush { return; }
      }
      flush := lastLit == LIT_BUFSIZE - 1 || lastDist == LIT_BUFSIZE;
    }

    /** The tables give the codes of an item. */
    lemma {:induction false} SymsFromTables(k: Item)
      requires Tables() && ItemOk(k)
      ensures |lengthCode| == 256 && |distCode| == 512
      ensures k.Back? ==> LitSym(k) == lengthCode[k.len - 3] + LITERALS + 1 && DistSym(k) == DCode(distCode, k.dist - 1)
    {
      hide LenCode, DistCode, DCode;
      if k.Back? {
        assert lengthCode[k.len - 3] == LenCode(k.len - 3 + 3);
        assert DCode(distCode, k.dist - 1) == DistCode(k.dist - 1 + 1);
      }
    }
  }

  /** Guess whether it is profitable to stop the block here. */
  method StopHere(ghost lFc: array<nat>, dFc: array<nat>, lastLit: nat, lastDist: nat, inLength: nat,
                  ghost ks: seq<Item>)
    returns (stop: bool)
    requires Counted(lFc[..], dFc[..], ks) && lastLit == |ks| && lastDist == Matches(ks)
    ensures stop <==> Matches(ks) < |ks| / 2 && (8 * |ks| + DistanceCost(ks, 30)) / 8 < inLength / 2
  {
    hide Counted, Matches, DistanceCost, CpDExt;
    var outLength: nat := lastLit * 8;
    var dcode := 0;
    CountedSize(lFc[..], dFc[..], ks);
    NoCost(ks);
    while dcode < D_CODES
      invariant dcode <= 30 && outLength == lastLit * 8 + DistanceCost(ks, dcode)
    {
      CostStep(ks, dcode, dFc[..], lFc[..]);
      outLength := outLength + dFc[dcode] * (5 + CpDExt()[dcode]);
      dcode := dcode + 1;
    }
    outLength := outLength / 8;
    stop := lastDist < lastLit / 2 && outLength < inLength / 2;
  }

  lemma {:induction false} FillingParts(lb: seq<nat>, db: seq<nat>, fb: seq<nat>, lastLit: nat, lastDist: nat,
                                        lastFlags: nat, flags: nat, flagBit: nat, ks: seq<Item>)
    requires Filling(lb, db, fb, lastLit, lastDist, lastFlags, flags, flagBit, ks)
    ensures lastLit == |ks| < LIT_BUFSIZE && lastDist == Matches(ks)
  {
  }

  lemma {:induction false} CountedSize(lf: seq<nat>, df: seq<nat>, ks: seq<Item>)
    requires Counted(lf, df, ks)
    ensures L_CODES <= |lf| && D_CODES <= |df|
  {
  }

  lemma {:induction false} NoCost(ks: seq<Item>)
    ensures DistanceCost(ks, 0) == 0
  {
  }

  lemma {:induction false} CostStep(ks: seq<Item>, n: nat, df: seq<nat>, lf: seq<nat>)
    requires n < 30 && Counted(lf, df, ks)
    ensures n < |df| && DistanceCost(ks, n + 1) == DistanceCost(ks, n) + df[n] * (5 + CpDExt()[n])
  {
    hide CpDExt;
  }
}
