/** flush_block of archive/gzip/trees.c: the choice between the three kinds of blocks, and that
    every block reads back as what was put in. */
module TreesFlush {
  import opened BitString
  import opened GzipBits
  import opened Canonical
  import opened Hufts
  import opened InflateFormat
  import opened Huffman
  import opened TreesBuild
  import opened TreesKraft
  import opened TreesLengths
  import opened TreesTree
  import opened TreesRuns
  import opened TreesTables
  import opened TreesTokens
  import opened TreesTally
  import opened TreesSend
  import opened TreesHeader
  import TreesCodes
  import InflateBlocks

  // ------------------------------------------------------------------ frequencies

  lemma {:induction false} LitTotal(ks: seq<Item>)
    requires ItemsOk(ks)
    ensures Sum(AllBelow(L_CODES), LitFreqs(ks)) == |ks| + 1
    decreases |ks|
  {
    hide AllBelow, Sum, LitUses, LenCode;
    if ks == [] {
      assert forall c :: LitUses([], c) == 0 by { NoUses(); }
      var z: seq<nat> := seq(L_CODES, _ => 0);
      TreesCodes.SumZero(AllBelow(L_CODES), z);
      SumUpdate(AllBelow(L_CODES), z, END_BLOCK, 1);
      assert LitFreqs([]) == z[END_BLOCK := 1];
    } else {
      var a, k := ks[..|ks| - 1], ks[|ks| - 1];
      assert ks == a + [k];
      LitTotal(a);
      forall c ensures LitUses(ks, c) == LitUses(a, c) + if LitSym(k) == c then 1 else 0 { UsesMore(a, k, c); }
      var f := LitFreqs(a);
      assert LitFreqs(ks) == f[LitSym(k) := f[LitSym(k)] + 1];
      SumUpdate(AllBelow(L_CODES), f, LitSym(k), f[LitSym(k)] + 1);
    }
  }

  lemma {:induction false} DistTotal(ks: seq<Item>)
    requires ItemsOk(ks)
    ensures Sum(AllBelow(D_CODES), DistFreqs(ks)) <= |ks|
    decreases |ks|
  {
    hide AllBelow, Sum, DistUses, DistCode;
    if ks == [] {
      assert forall c :: DistUses([], c) == 0 by { NoUses(); }
      TreesCodes.SumZero(AllBelow(D_CODES), DistFreqs([]));
    } else {
      var a, k := ks[..|ks| - 1], ks[|ks| - 1];
      assert ks == a + [k];
      DistTotal(a);
      forall c ensures DistUses(ks, c) == DistUses(a, c) + if k.Back? && DistSym(k) == c then 1 else 0 {
        UsesMore(a, k, c);
      }
      var f := DistFreqs(a);
      if k.Back? {
        assert DistFreqs(ks) == f[DistSym(k) := f[DistSym(k)] + 1];
        SumUpdate(AllBelow(D_CODES), f, DistSym(k), f[DistSym(k)] + 1);
      } else {
        assert DistFreqs(ks) == f;
      }
    }
  }

  /** The frequencies fit their words. */
  lemma {:induction false} TotalsFit(lf: seq<nat>, df: seq<nat>, ks: seq<Item>)
    requires Counted(lf, df, ks) && |ks| < LIT_BUFSIZE && ItemsOk(ks)
    ensures Sum(Used(lf, L_CODES), lf) + 2 < WORD && Sum(Used(df, D_CODES), df) + 2 < WORD
    ensures forall x :: 0 <= x < 3 ==> Xbits(ExtraLBits(), 257, x) == 0 && Xbits(CpDExt(), 0, x) == 0
  {
    hide AllBelow, Sum, LitUses, DistUses, Used;
    UsedTotal(lf, LitFreqs(ks), L_CODES);
    UsedTotal(df, DistFreqs(ks), D_CODES);
    LitTotal(ks);
    DistTotal(ks);
  }

  lemma {:induction false} StoredOk(lb: seq<nat>, db: seq<nat>, ks: seq<Item>)
    requires AllStored(lb, db, ks)
    ensures ItemsOk(ks)
  {
    forall i | 0 <= i < |ks| ensures ItemOk(ks[i]) { assert ItemStored(lb, db, ks, i); }
  }

  /** Every code of the items has a length. */
  lemma {:induction false} AllCoded(lf: seq<nat>, lfc: seq<nat>, ldl: seq<nat>, lMax: nat, df: seq<nat>, dfc: seq<nat>,
                                    ddl: seq<nat>, dMax: nat, ks: seq<Item>)
    requires Counted(lf, df, ks) && ItemsOk(ks) && TreeDone(lf, lfc, ldl, L_CODES, 15, lMax)
    requires TreeDone(df, dfc, ddl, D_CODES, 15, dMax)
    ensures lMax < L_CODES <= |ldl| && dMax < D_CODES <= |ddl| && AllInTrees(ldl[..lMax + 1], ddl[..dMax + 1], ks)
    ensures END_BLOCK <= lMax && ldl[END_BLOCK] > 0 && ldl[lMax] > 0
    ensures Complete(ldl[..lMax + 1], 15) && Complete(ddl[..dMax + 1], 15) && 2 <= dMax + 1
    ensures Ready(lfc, ldl[..lMax + 1]) && Ready(dfc, ddl[..dMax + 1])
  {
    hide LitUses, DistUses, Spare, TreesCodes.Coded, LenCode, DistCode;
    assert lf[END_BLOCK] >= 1;
    forall i | 0 <= i < |ks| ensures InTrees(ldl[..lMax + 1], ddl[..dMax + 1], ks[i]) {
      var k := ks[i];
      assert ItemOk(k);
      UsesSome(ks, i);
      assert lf[LitSym(k)] >= 1;
      if k.Back? { assert df[DistSym(k)] >= 1; }
    }
  }

  lemma {:induction false} FixedInTrees(ks: seq<Item>)
    requires ItemsOk(ks)
    ensures AllInTrees(FixedLit(), FixedDist(), ks) && FixedLit()[END_BLOCK] > 0
  {
    hide LenCode, DistCode;
    forall i | 0 <= i < |ks| ensures InTrees(FixedLit(), FixedDist(), ks[i]) { assert ItemOk(ks[i]); }
  }

  // ---------------------------------------------------------------- reading blocks

  /** The static block of items, without its first three bits. */
  ghost function StaticBits(ks: seq<Item>): seq<bool>
    requires ItemsOk(ks)
  {
    FixedInTrees(ks);
    BlockBits(FixedLit(), FixedDist(), ks)
  }

  /** Bits that read as a block with the given body, whatever follows. */
  ghost predicate ReadsAs(bits: seq<bool>, last: bool, body: Body, total: nat) {
    forall rest: seq<bool> :: (total + |rest|) % 8 == 0 ==> OneBlock(bits + rest) == Done(Block(last, body), rest)
  }

  ghost predicate DynamicOf(bits: seq<bool>, ks: seq<Item>) {
    forall rest: seq<bool> :: DynamicBlock(bits + rest) == Done(ks, rest)
  }

  function Kind(kind: nat, eof: bool): nat { 2 * kind + if eof then 1 else 0 }

  lemma {:induction false} KindRead(kind: nat, eof: bool, t: seq<bool>)
    requires kind < 3
    ensures Kind(kind, eof) < Pow2(3)
    ensures var u := Lsb(Kind(kind, eof), 3) + t;
            Has(u, 3) && (Number(u, 1) == 1 <==> eof) && Number(u[1..], 2) == kind && u[3..] == t
  {
    hide Number, Lsb, Pow2;
    Pow2Values();
    var last: nat := if eof then 1 else 0;
    assert Shl(kind, 1) == 2 * kind by { ShlOne(kind); }
    LsbJoin(last, 1, kind, 2);
    var u := Lsb(Kind(kind, eof), 3) + t;
    assert u == Lsb(last, 1) + (Lsb(kind, 2) + t);
    NumberOf(last, 1, Lsb(kind, 2) + t);
    NumberOf(kind, 2, t);
  }

  lemma {:induction false} ShlOne(x: nat)
    ensures Shl(x, 1) == 2 * x
  {
  }

  lemma {:induction false} StaticReads(ks: seq<Item>, eof: bool, total: nat)
    requires ItemsOk(ks)
    ensures ReadsAs(Lsb(Kind(1, eof), 3) + StaticBits(ks), eof, Coded(ks), total)
  {
    hide Number, Lsb, FixedLit, FixedDist, Items, OneBlock, StoredBlock, DynamicBlock, Spare, MaxLen, BlockBits,
         AllInTrees;
    var bits := Lsb(Kind(1, eof), 3) + StaticBits(ks);
    forall rest: seq<bool> ensures OneBlock(bits + rest) == Done(Block(eof, Coded(ks)), rest) {
      var t := StaticBits(ks) + rest;
      assert bits + rest == Lsb(Kind(1, eof), 3) + t;
      KindRead(1, eof, t);
      InflateBlocks.OneBlockIs(bits + rest, eof, 1);
      FixedInTrees(ks);
      InflateBlocks.FixedFacts();
      BlockRead(FixedLit(), FixedDist(), ks, rest);
    }
  }

  lemma {:induction false} DynamicReads(bits: seq<bool>, ks: seq<Item>, eof: bool, total: nat)
    requires DynamicOf(bits, ks)
    ensures ReadsAs(Lsb(Kind(2, eof), 3) + bits, eof, Coded(ks), total)
  {
    hide Number, Lsb, FixedLit, FixedDist, Items, OneBlock, StoredBlock, DynamicBlock;
    var all := Lsb(Kind(2, eof), 3) + bits;
    forall rest: seq<bool> ensures OneBlock(all + rest) == Done(Block(eof, Coded(ks)), rest) {
      var t := bits + rest;
      assert all + rest == Lsb(Kind(2, eof), 3) + t;
      KindRead(2, eof, t);
      InflateBlocks.OneBlockIs(all + rest, eof, 2);
    }
  }

  /** A header and the items coded with the lengths in it. */
  lemma {:induction false} DynamicIsOf(la: seq<nat>, lb: seq<nat>, nb: nat, b: seq<nat>, ks: seq<Item>)
    requires 257 <= |la| <= 286 && 1 <= |lb| <= 30 && Complete(la, 15) && Complete(lb, 15)
    requires Sendable(b, AllRuns(la) + AllRuns(lb), nb) && AllInTrees(la, lb, ks) && la[END_BLOCK] > 0
    ensures DynamicOf(HeaderBits(|la|, |lb|, nb, b, AllRuns(la) + AllRuns(lb)) + BlockBits(la, lb, ks), ks)
  {
    hide Spare, MaxLen, HeaderBits, BlockBits, DynamicHeader, DynamicBlock, Items, Sendable, AllRuns, InTrees;
    var head, body := HeaderBits(|la|, |lb|, nb, b, AllRuns(la) + AllRuns(lb)), BlockBits(la, lb, ks);
    CompleteLongest(la, 15);
    CompleteLongest(lb, 15);
    assert (la + lb)[..|la|] == la && (la + lb)[|la|..] == lb;
    forall rest: seq<bool> ensures DynamicBlock((head + body) + rest) == Done(ks, rest) {
      assert (head + body) + rest == head + (body + rest);
      HeaderRead(la, lb, nb, b, body + rest);
      InflateBlocks.DynamicIs(head + (body + rest));
      BlockRead(la, lb, ks, rest);
    }
  }

  lemma {:induction false} BytesRead(buf: seq<byte>, rest: seq<bool>)
    ensures Bytes(ByteLsb(buf) + rest, |buf|) == Done(buf, rest)
  {
    hide Number, Lsb, Pow2;
    if buf == [] {
      assert ByteLsb(buf) + rest == rest;
    } else {
      Pow2Values();
      var t := ByteLsb(buf[1..]) + rest;
      assert ByteLsb(buf) + rest == Lsb(buf[0], 8) + t;
      NumberOf(buf[0], 8, t);
      BytesRead(buf[1..], rest);
      assert [buf[0]] + buf[1..] == buf;
    }
  }

  /** What copy_block sends after n bits. */
  function StoredBits(n: nat, buf: seq<byte>): seq<bool>
    requires |buf| < WORD
  {
    Lsb(0, Fill(n)) + (Lsb(|buf|, 16) + (Lsb(WORD - 1 - |buf|, 16) + ByteLsb(buf)))
  }

  lemma {:induction false} StoredReads(buf: seq<byte>, eof: bool, n: nat)
    requires |buf| < WORD
    ensures ReadsAs(Lsb(Kind(0, eof), 3) + StoredBits(n + 3, buf), eof, Stored(buf), n + 3 + |StoredBits(n + 3, buf)|)
  {
    hide Number, Lsb, FixedLit, FixedDist, Items, OneBlock, StoredBlock, DynamicBlock, Bytes, ByteLsb;
    var bits := Lsb(Kind(0, eof), 3) + StoredBits(n + 3, buf);
    forall rest: seq<bool> | (n + 3 + |StoredBits(n + 3, buf)| + |rest|) % 8 == 0
      ensures OneBlock(bits + rest) == Done(Block(eof, Stored(buf)), rest)
    {
      var t := StoredBits(n + 3, buf) + rest;
      assert bits + rest == Lsb(Kind(0, eof), 3) + t;
      KindRead(0, eof, t);
      InflateBlocks.OneBlockIs(bits + rest, eof, 0);
      StoredRead(n + 3, buf, rest);
    }
  }

  lemma {:induction false} StoredRead(n: nat, buf: seq<byte>, rest: seq<bool>)
    requires |buf| < WORD && (n + |StoredBits(n, buf)| + |rest|) % 8 == 0
    ensures StoredBlock(StoredBits(n, buf) + rest) == Done(buf, rest)
  {
    hide Number, Lsb, Bytes, ByteLsb, Pow2;
    var t := StoredBits(n, buf) + rest;
    var t2 := ByteLsb(buf) + rest;
    var t1 := Lsb(WORD - 1 - |buf|, 16) + t2;
    var t0 := Lsb(|buf|, 16) + t1;
    assert t == Lsb(0, Fill(n)) + t0;
    FillRest(n, |t|, |t0|);
    assert t[|t| % 8..] == t0;
    Pow2Values();
    NumberOf(|buf|, 16, t1);
    NumberOf(WORD - 1 - |buf|, 16, t2);
    assert t0[32..] == t1[16..] == t2 && t0[16..] == t1;
    BytesRead(buf, rest);
  }

  lemma {:induction false} FillRest(n: nat, t: nat, u: nat)
    requires t == Fill(n) + u && (n + t) % 8 == 0
    ensures t % 8 == Fill(n)
  {
  }

  // ------------------------------------------------------------------ flush_block

  /** The dynamic trees: frequencies or codes, and fathers or lengths. */
  class Dynamic {
    const lFc: array<nat>
    const lDl: array<nat>
    const dFc: array<nat>
    const dDl: array<nat>
    const bFc: array<nat>
    const bDl: array<nat>

    ghost function Arrays(): set<array<nat>> { {lFc, lDl, dFc, dDl, bFc, bDl} }

    ghost predicate Shaped() {
      && lFc.Length == lDl.Length == 573 && dFc.Length == dDl.Length == 61 && bFc.Length == bDl.Length == 39
      && lFc !in {lDl, dFc, dDl, bFc, bDl} && lDl !in {dFc, dDl, bFc, bDl} && dFc !in {dDl, bFc, bDl}
      && dDl !in {bFc, bDl} && bFc != bDl
    }

    /** The frequencies before the first item: one end of block. */
    constructor ()
      ensures Shaped() && (forall a :: a in Arrays() ==> fresh(a)) && Counted(lFc[..], dFc[..], []) && Cleared(bFc[..])
    {
      hide Counted;
      var lz := NewFreqs(573);
      var dz := NewFreqs(61);
      var bz := NewFreqs(39);
      lz[END_BLOCK] := 1;
      CountedStart(lz[..], dz[..]);
      lFc, lDl, dFc, dDl, bFc, bDl := lz, new nat[573], dz, new nat[61], bz, new nat[39];
    }
  }

  /** Everything of trees.c that lives from block to block. */
  class Trees {
    const tally: Tally
    const work: Work
    const dyn: Dynamic
    const staticLFc: seq<nat>
    const staticLDl: seq<nat>
    const staticDFc: seq<nat>
    const staticDDl: seq<nat>
    var compressedLen: nat

    ghost function Scratch(): set<array<nat>> { {work.heap, work.depth, work.blCount} }

    ghost function Buffers(): set<array<nat>> { {tally.lBuf, tally.dBuf, tally.flagBuf} }

    /** Sizes, and that no two arrays are the same. */
    ghost predicate Shaped()
      reads work
    {
      && dyn.Shaped() && work.Shaped() && tally.Shaped() && tally.Tables()
      && Scratch() !! dyn.Arrays() && Buffers() !! dyn.Arrays() && Buffers() !! Scratch()
    }

    ghost predicate Static() {
      && staticLDl == FixedLit() && TreesCodes.Coded(staticLFc, FixedLit(), 288)
      && staticDDl == FixedDist() && TreesCodes.Coded(staticDFc, FixedDist(), 30)
    }

    /** Between two calls: the items tallied since the last block are counted. */
    ghost predicate Valid()
      reads this, work, tally, Scratch(), Buffers(), dyn.Arrays()
    {
      && Shaped() && Static() && tally.Valid() && Counted(dyn.lFc[..], dyn.dFc[..], tally.toks)
      && Cleared(dyn.bFc[..]) && work.optLen == 0 && work.staticLen == 0
    }

    /** ct_init and init_block. */
    constructor ()
      ensures Valid() && tally.toks == tally.all == [] && compressedLen == 0 && fresh(work) && fresh(tally)
      ensures forall a :: a in dyn.Arrays() || a in Buffers() || a in Scratch() ==> fresh(a)
    {
      hide LenTable, DistTable, TreesCodes.Coded, FixedLit, FixedDist, Tally.Valid, Tally.Tables, Counted,
           Dynamic.Shaped, Dynamic.Arrays;
      tally := new Tally();
      var wk := new Work();
      work := wk;
      var f, l := InitStaticLit(wk.blCount);
      staticLFc, staticLDl := f[..], l[..];
      f, l := InitStaticDist();
      staticDFc, staticDDl := f[..], l[..];
      dyn := new Dynamic();
      compressedLen := 0;
    }
  }

  /** What the trees for literals and distances, lf and df having been the frequencies, are
      good for. */
  ghost predicate TwoTrees(lfc: seq<nat>, ldl: seq<nat>, lMax: nat, dfc: seq<nat>, ddl: seq<nat>, dMax: nat,
                           ks: seq<Item>) {
    && END_BLOCK <= lMax < L_CODES <= |ldl| && 1 <= dMax < D_CODES <= |ddl|
    && AllInTrees(ldl[..lMax + 1], ddl[..dMax + 1], ks) && ldl[END_BLOCK] > 0 && ldl[lMax] > 0
    && Complete(ldl[..lMax + 1], 15) && Complete(ddl[..dMax + 1], 15)
    && Ready(lfc, ldl[..lMax + 1]) && Ready(dfc, ddl[..dMax + 1])
  }

  /** opt and st are the bits of the items with these trees and with the static ones. */
  ghost predicate SizedItems(opt: int, st: int, ldl: seq<nat>, lMax: nat, ddl: seq<nat>, dMax: nat, ks: seq<Item>) {
    && lMax < |ldl| && dMax < |ddl| && AllInTrees(ldl[..lMax + 1], ddl[..dMax + 1], ks) && END_BLOCK <= lMax
    && ItemsOk(ks)
    && opt == |BlockBits(ldl[..lMax + 1], ddl[..dMax + 1], ks)| && st == |StaticBits(ks)|
  }

  lemma {:induction false} TwoTreesDone(lf: seq<nat>, lfc: seq<nat>, ldl: seq<nat>, lMax: nat, df: seq<nat>,
                                        dfc: seq<nat>, ddl: seq<nat>, dMax: nat,
                                        ks: seq<Item>, opt: int, st: int)
    requires Counted(lf, df, ks) && ItemsOk(ks) && TreeDone(lf, lfc, ldl, L_CODES, 15, lMax)
    requires TreeDone(df, dfc, ddl, D_CODES, 15, dMax)
    requires opt == Sum(Used(lf, L_CODES), BitCosts(lf, ldl, ExtraLBits(), 257))
      + Sum(Used(df, D_CODES), BitCosts(df, ddl, CpDExt(), 0))
    requires st == Sum(Used(lf, L_CODES), BitCosts(lf, FixedLit(), ExtraLBits(), 257))
      + Sum(Used(df, D_CODES), BitCosts(df, FixedDist(), CpDExt(), 0))
    ensures TwoTrees(lfc, ldl, lMax, dfc, ddl, dMax, ks) && SizedItems(opt, st, ldl, lMax, ddl, dMax, ks)
  {
    hide Counted, TreeDone, Complete, Ready, Sum, BitCosts, Used, FixedLit, FixedDist, BlockBits, CodedSize, InTrees;
    AllCoded(lf, lfc, ldl, lMax, df, dfc, ddl, dMax, ks);
    CountedSum(lf, df, ks, ldl, ddl);
    SizeExact(ks, ldl, ddl, lMax + 1, dMax + 1);
    FixedInTrees(ks);
    var l, d := FixedLit(), FixedDist();
    assert |d| == 30 by { FixedSize(); }
    assert l[..288] == l && d[..30] == d;
    CountedSum(lf, df, ks, l, d);
    SizeExact(ks, l, d, 288, 30);
  }

  lemma {:induction false} FixedSize()
    ensures |FixedDist()| == 30
  {
  }

  /** The two trees of a block; opt_len and static_len without the header. */
  method BuildTwo(t: Trees) returns (lMax: nat, dMax: nat)
    requires t.Valid()
    modifies t.work, t.Scratch(), t.dyn.lFc, t.dyn.lDl, t.dyn.dFc, t.dyn.dDl
    ensures t.Shaped() && t.Static() && Cleared(t.dyn.bFc[..])
    ensures TwoTrees(t.dyn.lFc[..], t.dyn.lDl[..], lMax, t.dyn.dFc[..], t.dyn.dDl[..], dMax, t.tally.toks)
    ensures SizedItems(t.work.optLen, t.work.staticLen, t.dyn.lDl[..], lMax, t.dyn.dDl[..], dMax, t.tally.toks)
  {
    hide Counted, TreeDone, Complete, Ready, Sum, BitCosts, Used, FixedLit, FixedDist, BlockBits, TwoTrees, SizedItems,
         Cleared, Tally.Tables, Tally.Valid, Tally.Shaped,
         Whole, TopDown, Fathers, TreesCodes.Cheapest, TreesCodes.Coded, Xbits, CpDExt, CpLExt, LenTable, DistTable;
    var y := t.dyn;
    ghost var lf: seq<nat>, df: seq<nat>, ks := y.lFc[..], y.dFc[..], t.tally.toks;
    TallyOk(t.tally);
    TotalsFit(lf, df, ks);
    FixedSize();
    TwoPow();
    ghost var f, l, mg;
    lMax, f, l, mg := BuildTree(t.work, y.lFc, y.lDl, L_CODES, 15, ExtraLBits(), LITERALS + 1, t.staticLDl);
    ghost var o1, s1, lfc: seq<nat>, ldl: seq<nat> := t.work.optLen, t.work.staticLen, y.lFc[..], y.lDl[..];
    dMax, f, l, mg := BuildTree(t.work, y.dFc, y.dDl, D_CODES, 15, CpDExt(), 0, t.staticDDl);
    TwoTreesDone(lf, y.lFc[..], y.lDl[..], lMax, df, y.dFc[..], y.dDl[..], dMax, ks, t.work.optLen, t.work.staticLen);
  }

  lemma {:induction false} TwoPow()
    ensures Pow2(15) == 0x8000
  {
    Pow2Values();
    assert Pow2(16) == 2 * Pow2(15);
  }

  lemma {:induction false} TallyOk(y: Tally)
    requires y.Valid()
    ensures ItemsOk(y.toks) && |y.toks| < LIT_BUFSIZE && y.lastLit == |y.toks|
  {
    hide FlagBits, Matches, Flagged, LenTable, DistTable;
    StoredOk(y.lBuf[..], y.dBuf[..], y.toks);
  }

  /** Lengths la and lb for the codes of the items, and b for those of the lengths. */
  ghost predicate DynOk(la: seq<nat>, lb: seq<nat>, nb: nat, b: seq<nat>, ks: seq<Item>) {
    && 257 <= |la| <= 286 && 1 <= |lb| <= 30 && Complete(la, 15) && Complete(lb, 15)
    && Sendable(b, AllRuns(la) + AllRuns(lb), nb) && AllInTrees(la, lb, ks) && la[END_BLOCK] > 0
  }

  /** A dynamic block, without its first three bits. */
  ghost function DynBits(la: seq<nat>, lb: seq<nat>, nb: nat, b: seq<nat>, ks: seq<Item>): seq<bool>
    requires DynOk(la, lb, nb, b, ks)
  {
    HeaderBits(|la|, |lb|, nb, b, AllRuns(la) + AllRuns(lb)) + BlockBits(la, lb, ks)
  }

  lemma {:induction false} GuardSet(lfc: seq<nat>, ldl: seq<nat>, lMax: nat, dfc: seq<nat>, ddl: seq<nat>, dMax: nat,
                                    ks: seq<Item>)
    requires TwoTrees(lfc, ldl, lMax, dfc, ddl, dMax, ks) && lMax + 1 < |ldl| && dMax + 1 < |ddl|
    ensures var l2, d2 := ldl[lMax + 1 := 0xffff], ddl[dMax + 1 := 0xffff];
            l2[..lMax + 1] == ldl[..lMax + 1] && d2[..dMax + 1] == ddl[..dMax + 1]
            && TwoTrees(lfc, l2, lMax, dfc, d2, dMax, ks) && Guarded(l2, ldl[..lMax + 1])
            && Guarded(d2, ddl[..dMax + 1])
  {
    hide Spare, InTrees, TreesCodes.Coded;
    assert ldl[lMax + 1 := 0xffff][..lMax + 1] == ldl[..lMax + 1];
    assert ddl[dMax + 1 := 0xffff][..dMax + 1] == ddl[..dMax + 1];
  }

  lemma {:induction false} TwoTreesParts(lfc: seq<nat>, ldl: seq<nat>, lMax: nat, dfc: seq<nat>, ddl: seq<nat>,
                                         dMax: nat, ks: seq<Item>, opt: int, st: int)
    requires TwoTrees(lfc, ldl, lMax, dfc, ddl, dMax, ks) && SizedItems(opt, st, ldl, lMax, ddl, dMax, ks)
    ensures 256 <= lMax < 286 <= |ldl| && 1 <= dMax < 30 <= |ddl| && ItemsOk(ks)
    ensures var la, lb := ldl[..lMax + 1], ddl[..dMax + 1];
            NoneAbove(la, 15) && NoneAbove(lb, 15) && la[lMax] != 0 && AllInTrees(la, lb, ks) && la[END_BLOCK] > 0
            && opt == |BlockBits(la, lb, ks)| && st == |StaticBits(ks)|
            && Complete(la, 15) && Complete(lb, 15) && Ready(lfc, la) && Ready(dfc, lb)
  {
    hide Spare, InTrees, TreesCodes.Coded, BlockBits, StaticBits;
  }

  /** The trees of a dynamic block are in place, and both sizes are known. */
  ghost predicate AllBuilt(t: Trees, lMax: nat, dMax: nat, maxBl: nat, la: seq<nat>, lb: seq<nat>, b: seq<nat>,
                           dyn: seq<bool>, ks: seq<Item>)
    reads t, t.work, t.dyn.Arrays()
  {
    && t.dyn.Shaped() && lMax < 572 && dMax < 60 && |la| == lMax + 1 && |lb| == dMax + 1
    && la == t.dyn.lDl[..lMax + 1] && lb == t.dyn.dDl[..dMax + 1] && b == t.dyn.bDl[..19]
    && Guarded(t.dyn.lDl[..], la) && Guarded(t.dyn.dDl[..], lb)
    && DynOk(la, lb, maxBl + 1, b, ks) && ItemsOk(ks)
    && Ready(t.dyn.lFc[..], la) && Ready(t.dyn.dFc[..], lb) && Ready(t.dyn.bFc[..], b)
    && dyn == DynBits(la, lb, maxBl + 1, b, ks) && t.work.optLen == |dyn| && t.work.staticLen == |StaticBits(ks)|
  }

  /** All trees of a block, and the sizes it would have as a dynamic and as a static one. */
  method BuildThree(t: Trees)
    returns (lMax: nat, dMax: nat, maxBl: nat, ghost la: seq<nat>, ghost lb: seq<nat>, ghost b: seq<nat>,
             ghost dyn: seq<bool>)
    requires t.Valid()
    modifies t.work, t.Scratch(), t.dyn.Arrays()
    ensures t.Shaped() && t.Static() && AllBuilt(t, lMax, dMax, maxBl, la, lb, b, dyn, t.tally.toks)
  {
    hide Complete, Ready, FixedLit, FixedDist, BlockBits, TwoTrees, SizedItems, Tally.Tables, TreesCodes.Coded, Guarded,
         StaticBits, InTrees, HeaderBits,
         Sendable, AllRuns, ItemsOk, AllBuilt, Tally.Shaped, Trees.Valid, Trees.Static;
    lMax, dMax := BuildTwo(t);
    maxBl, la, lb, b, dyn := BuildThird(t, lMax, dMax);
  }

  /** The bit length tree, and the sizes with the header. */
  method BuildThird(t: Trees, lMax: nat, dMax: nat)
    returns (maxBl: nat, ghost la: seq<nat>, ghost lb: seq<nat>, ghost b: seq<nat>, ghost dyn: seq<bool>)
    requires t.Shaped() && Cleared(t.dyn.bFc[..])
    requires TwoTrees(t.dyn.lFc[..], t.dyn.lDl[..], lMax, t.dyn.dFc[..], t.dyn.dDl[..], dMax, t.tally.toks)
    requires SizedItems(t.work.optLen, t.work.staticLen, t.dyn.lDl[..], lMax, t.dyn.dDl[..], dMax, t.tally.toks)
    modifies t.work, t.Scratch(), t.dyn.lDl, t.dyn.dDl, t.dyn.bFc, t.dyn.bDl
    ensures t.Shaped() && AllBuilt(t, lMax, dMax, maxBl, la, lb, b, dyn, t.tally.toks)
  {
    hide Complete, Ready, FixedLit, FixedDist, BlockBits, TwoTrees, SizedItems, Tally.Tables, TreesCodes.Coded, Guarded,
         StaticBits, InTrees, HeaderBits,
         Sendable, AllRuns, ItemsOk, AllBuilt, DynBits, DynOk, Tally.Shaped;
    var y := t.dyn;
    ghost var ks, lfc: seq<nat>, dfc: seq<nat>, ldl: seq<nat>, ddl: seq<nat> :=
      t.tally.toks, y.lFc[..], y.dFc[..], y.lDl[..], y.dDl[..];
    TwoTreesParts(lfc, ldl, lMax, dfc, ddl, dMax, ks, t.work.optLen, t.work.staticLen);
    GuardSet(lfc, ldl, lMax, dfc, ddl, dMax, ks);
    la, lb := ldl[..lMax + 1], ddl[..dMax + 1];
    ghost var os;
    maxBl, os := BuildBlTree(t.work, y.lDl, lMax, y.dDl, dMax, y.bFc, y.bDl, la, lb);
    b := y.bDl[..19];
    dyn := Assemble(la, lb, maxBl + 1, b, ks);
    assert la == y.lDl[..lMax + 1] && lb == y.dDl[..dMax + 1];
    AllBuiltNow(t, lMax, dMax, maxBl, la, lb, b, dyn, ks);
  }

  lemma {:induction false} Assemble(la: seq<nat>, lb: seq<nat>, nb: nat, b: seq<nat>, ks: seq<Item>)
    returns (dyn: seq<bool>)
    requires 257 <= |la| <= 286 && 1 <= |lb| <= 30 && Complete(la, 15) && Complete(lb, 15)
    requires Sendable(b, AllRuns(la) + AllRuns(lb), nb) && AllInTrees(la, lb, ks) && la[END_BLOCK] > 0
    ensures DynOk(la, lb, nb, b, ks) && dyn == DynBits(la, lb, nb, b, ks)
    ensures |dyn| == |HeaderBits(|la|, |lb|, nb, b, AllRuns(la) + AllRuns(lb))| + |BlockBits(la, lb, ks)|
  {
    hide Complete, Sendable, AllRuns, InTrees, HeaderBits, BlockBits;
    dyn := DynBits(la, lb, nb, b, ks);
  }

  lemma {:induction false} AllBuiltNow(t: Trees, lMax: nat, dMax: nat, maxBl: nat, la: seq<nat>, lb: seq<nat>,
                                       b: seq<nat>, dyn: seq<bool>, ks: seq<Item>)
    requires t.dyn.Shaped() && lMax < 572 && dMax < 60 && |la| == lMax + 1 && |lb| == dMax + 1
    requires la == t.dyn.lDl[..lMax + 1] && lb == t.dyn.dDl[..dMax + 1] && b == t.dyn.bDl[..19]
    requires Guarded(t.dyn.lDl[..], la) && Guarded(t.dyn.dDl[..], lb)
    requires DynOk(la, lb, maxBl + 1, b, ks) && ItemsOk(ks)
    requires Ready(t.dyn.lFc[..], la) && Ready(t.dyn.dFc[..], lb) && Ready(t.dyn.bFc[..], b)
    requires dyn == DynBits(la, lb, maxBl + 1, b, ks) && t.work.optLen == |dyn| && t.work.staticLen == |StaticBits(ks)|
    ensures AllBuilt(t, lMax, dMax, maxBl, la, lb, b, dyn, ks)
  {
    hide DynOk, DynBits, Ready, StaticBits, ItemsOk, Guarded;
  }

  lemma {:induction false} SendableRange(b: seq<nat>, os: seq<Op>, nb: nat)
    requires Sendable(b, os, nb)
    ensures 4 <= nb <= 19
  {
  }

  // --------------------------------------------------------------------- sending

  /** The buffers are complete. */
  ghost predicate Buffered(t: Trees, ks: seq<Item>)
    reads t.tally, t.Buffers()
  {
    t.tally.Tables() && t.tally.Shaped() && Saved(t.tally.lBuf[..], t.tally.dBuf[..], t.tally.flagBuf[..], ks)
      && t.tally.lastLit == |ks|
  }

  method SendDynamic(t: Trees, w: BitSink, eof: bool, lMax: nat, dMax: nat, maxBl: nat, ghost la: seq<nat>,
                     ghost lb: seq<nat>, ghost b: seq<nat>, ghost dyn: seq<bool>, ghost ks: seq<Item>)
    requires w.Valid() && Buffered(t, ks) && AllBuilt(t, lMax, dMax, maxBl, la, lb, b, dyn, ks)
    modifies w
    ensures w.Valid() && w.sent == old(w.sent) + (Lsb(Kind(2, eof), 3) + dyn)
  {
    hide Holds, Lsb, Pow2, Complete, Ready, BlockBits, HeaderBits, Saved, Tally.Tables, Guarded, InTrees, AllRuns,
         Sendable, StaticBits;
    ghost var s0 := w.sent;
    Pow2Values();
    SendableRange(b, AllRuns(la) + AllRuns(lb), maxBl + 1);
    w.SendBits(Kind(2, eof), 3);
    SendAllTrees(w, lMax + 1, dMax + 1, maxBl + 1, t.dyn.lDl, t.dyn.dDl, t.dyn.bFc, t.dyn.bDl, la, lb);
    CompressBlock(t.tally, w, t.dyn.lFc[..], t.dyn.lDl[..lMax + 1], t.dyn.dFc[..], t.dyn.dDl[..dMax + 1], ks);
    FourParts(s0, Lsb(Kind(2, eof), 3), HeaderBits(lMax + 1, dMax + 1, maxBl + 1, b, AllRuns(la) + AllRuns(lb)),
              BlockBits(la, lb, ks));
  }

  lemma {:induction false} FourParts(s: seq<bool>, a: seq<bool>, b: seq<bool>, c: seq<bool>)
    ensures s + a + b + c == s + (a + (b + c))
  {
  }

  method SendStatic(t: Trees, w: BitSink, eof: bool, ghost ks: seq<Item>)
    requires w.Valid() && Buffered(t, ks) && t.Static() && ItemsOk(ks)
    modifies w
    ensures w.Valid() && w.sent == old(w.sent) + (Lsb(Kind(1, eof), 3) + StaticBits(ks))
  {
    hide Holds, Lsb, Pow2, Spare, MaxLen, BlockBits, Saved, Tally.Tables, InTrees, TreesCodes.Coded, FixedLit,
         FixedDist, ItemOk;
    Pow2Values();
    FixedInTrees(ks);
    FixedSize();
    InflateBlocks.FixedFacts();
    w.SendBits(Kind(1, eof), 3);
    CompressBlock(t.tally, w, t.staticLFc, t.staticLDl, t.staticDFc, t.staticDDl, ks);
  }

  method SendStored(w: BitSink, eof: bool, buf: seq<byte>)
    requires w.Valid() && |buf| < WORD
    modifies w
    ensures w.Valid() && w.sent == old(w.sent) + (Lsb(Kind(0, eof), 3) + StoredBits(|old(w.sent)| + 3, buf))
  {
    hide Holds, Lsb, Pow2, ByteLsb, Fill;
    ghost var s0 := w.sent;
    Pow2Values();
    w.SendBits(Kind(0, eof), 3);
    ghost var s1 := w.sent;
    w.CopyBlock(buf, true);
    StoredParts(s0, Lsb(Kind(0, eof), 3), Lsb(0, Fill(|s1|)), Lsb(|buf|, 16), Lsb(WORD - 1 - |buf|, 16), ByteLsb(buf));
  }

  lemma {:induction false} StoredParts(s: seq<bool>, a: seq<bool>, b: seq<bool>, c: seq<bool>, d: seq<bool>,
                                       e: seq<bool>)
    ensures ((s + a) + b) + (c + d) + e == s + (a + (b + (c + (d + e))))
  {
  }

  /** init_block. */
  method InitBlock(t: Trees)
    requires t.Shaped() && t.Static()
    modifies t.work, t.tally, t.dyn.lFc, t.dyn.dFc, t.dyn.bFc
    ensures t.Valid() && t.tally.toks == [] && t.tally.all == old(t.tally.all)
  {
    hide Tally.Valid, Tally.Tables, Counted, Tally.Shaped, Trees.Static;
    t.tally.Restart();
    ClearFreqs(t.dyn.lFc, L_CODES);
    ClearFreqs(t.dyn.dFc, D_CODES);
    ClearFreqs(t.dyn.bFc, BL_CODES);
    t.dyn.lFc[END_BLOCK] := 1;
    t.work.optLen, t.work.staticLen := 0, 0;
    CountedStart(t.dyn.lFc[..], t.dyn.dFc[..]);
  }

  method ClearFreqs(f: array<nat>, n: nat)
    requires n <= f.Length
    modifies f
    ensures forall x :: 0 <= x < n ==> f[x] == 0
  {
    var i := 0;
    while i < n
      invariant i <= n && forall x :: 0 <= x < i ==> f[x] == 0
    {
      f[i] := 0;
      i := i + 1;
    }
  }

  function InBytes(bits: int): int { (bits + 7) / 8 }

  const LONG: nat := 0x1_0000_0000

  /** body is what was put in: as it is, or coded. */
  ghost predicate BodyOf(body: Body, here: bool, buf: seq<byte>, ks: seq<Item>) {
    body == Coded(ks) || (here && body == Stored(buf))
  }

  /** The bits of a stored block of len bytes that starts at bit n: its kind, the filling to a
      byte, two words and the bytes. */
  function StoredTotal(n: nat, len: nat): nat { (n + 3 + 7) / 8 * 8 - n + 8 * (len + 4) }

  /** The smaller one of two coded blocks, in bytes and without regard to where they start; st of
      them if they are equal. */
  function Smaller(st: nat, dy: nat): nat { if InBytes(3 + st) <= InBytes(3 + dy) then st else dy }

  /** What is compared with it: the bytes as they are, and two words. */
  predicate StoresIt(here: bool, len: nat, st: nat, dy: nat) { here && len + 4 <= InBytes(3 + Smaller(st, dy)) }

  /** The kind chosen and the bits it takes, for a text of len bytes and coded blocks of st and dy
      bits. */
  function Chosen(n: nat, here: bool, len: nat, st: nat, dy: nat): nat {
    if StoresIt(here, len, st, dy) then StoredTotal(n, len) else 3 + Smaller(st, dy)
  }

  /** A dynamic block of these items with some complete codes. */
  ghost predicate FromTrees(dyn: seq<bool>, ks: seq<Item>) {
    exists la, lb, nb, b :: DynOk(la, lb, nb, b, ks) && dyn == DynBits(la, lb, nb, b, ks)
  }

  /** A block from bit n on of the items ks, or of the bytes buf, that reads back and is of the
      kind chosen; dyn is what the dynamic one would be. */
  ghost predicate BlockOf(bits: seq<bool>, eof: bool, body: Body, n: nat, here: bool, buf: seq<byte>,
                          dyn: seq<bool>, ks: seq<Item>) {
    && ItemsOk(ks) && ReadsAs(bits, eof, body, n + |bits|) && DynamicOf(dyn, ks) && FromTrees(dyn, ks)
    && body == (if StoresIt(here, |buf|, |StaticBits(ks)|, |dyn|) then Stored(buf) else Coded(ks))
    && |bits| == Chosen(n, here, |buf|, |StaticBits(ks)|, |dyn|)
  }

  lemma {:induction false} BlockReads(bits: seq<bool>, eof: bool, body: Body, n: nat, here: bool, buf: seq<byte>,
                                      dyn: seq<bool>, ks: seq<Item>)
    requires BlockOf(bits, eof, body, n, here, buf, dyn, ks)
    ensures ItemsOk(ks) && ReadsAs(bits, eof, body, n + |bits|) && BodyOf(body, here, buf, ks)
  {
    hide ItemsOk, ReadsAs, DynamicOf, FromTrees, StaticBits, Chosen;
  }

  /** A count of bits, in 32 bits. */
  function Long(n: nat): nat { n % LONG }

  /** Save the flags for the last items. */
  method SaveFlags(t: Trees)
    requires t.tally.Valid()
    modifies t.tally.flagBuf
    ensures t.tally.Valid() && Buffered(t, t.tally.toks) && ItemsOk(t.tally.toks)
  {
    hide FlagBits, Matches, Flagged, LenTable, DistTable, AllStored;
    var y := t.tally;
    FlagsSaved(y.lBuf[..], y.dBuf[..], y.flagBuf[..], y.lastLit, y.lastDist, y.lastFlags, y.flags, y.flagBit, y.toks);
    TallyOk(y);
    ghost var was: seq<nat> := y.flagBuf[..];
    y.flagBuf[y.lastFlags] := y.flags;
    assert y.flagBuf[..] == was[y.lastFlags := y.flags];
  }

  /** Choose the kind of block by its bytes, and send it; the total of bits sent is kept in
      compressedLen, which has 32 bits. */
  method ChooseAndSend(t: Trees, w: BitSink, buf: seq<byte>, here: bool, storedLen: nat, eof: bool, lMax: nat,
                       dMax: nat, maxBl: nat,
                       ghost la: seq<nat>, ghost lb: seq<nat>, ghost b: seq<nat>, ghost dyn: seq<bool>,
                       ghost ks: seq<Item>)
    returns (ghost bits: seq<bool>, ghost body: Body)
    requires w.Valid() && Buffered(t, ks) && t.Static() && AllBuilt(t, lMax, dMax, maxBl, la, lb, b, dyn, ks)
    requires ItemsOk(ks) && (here ==> storedLen == |buf| < WORD) && t.compressedLen == Long(|w.sent|)
    modifies w, t`compressedLen
    ensures w.Valid() && w.sent == old(w.sent) + bits && t.compressedLen == Long(|w.sent|)
    ensures BlockOf(bits, eof, body, |old(w.sent)|, here, buf, dyn, ks)
  {
    hide Holds, Lsb, DynBits, StaticBits, DynOk, Buffered, AllBuilt, BlockOf, Trees.Static, ItemsOk, StoredBits,
         DynamicOf, FromTrees, Long;
    BuiltParts(t, lMax, dMax, maxBl, la, lb, b, dyn, ks);
    var optLenb := InBytes(t.work.optLen + 3);
    var staticLenb := InBytes(t.work.staticLen + 3);
    ghost var n := |w.sent|;
    if staticLenb <= optLenb { optLenb := staticLenb; }
    if storedLen + 4 <= optLenb && here {
      body, bits := StoredChosen(n, buf, eof, dyn, ks);
      SendStored(w, eof, buf);
      t.compressedLen := AddStored(t.compressedLen, storedLen, n, buf);
    } else if staticLenb == optLenb {
      body, bits := StaticChosen(n, here, buf, eof, dyn, ks);
      SendStatic(t, w, eof, ks);
      t.compressedLen := AddBits(t.compressedLen, t.work.staticLen, n);
    } else {
      body, bits := DynamicChosen(n, here, buf, eof, dyn, ks);
      SendDynamic(t, w, eof, lMax, dMax, maxBl, la, lb, b, dyn, ks);
      t.compressedLen := AddBits(t.compressedLen, t.work.optLen, n);
    }
  }

  method AddBits(len: nat, size: nat, ghost n: nat) returns (r: nat)
    requires len == Long(n)
    ensures r == Long(n + 3 + size)
  {
    ModAdd(n, 3 + size);
    r := (len + 3 + size) % LONG;
  }

  method AddStored(len: nat, storedLen: nat, ghost n: nat, ghost buf: seq<byte>) returns (r: nat)
    requires len == Long(n) && storedLen == |buf| < WORD
    ensures r == Long(n + 3 + |StoredBits(n + 3, buf)|)
  {
    hide StoredBits;
    StoredSize(n, buf);
    r := (len + 3 + 7) / 8 * 8 % LONG;
    r := (r + (storedLen + 4) * 8) % LONG;
  }

  lemma {:induction false} StoredChosen(n: nat, buf: seq<byte>, eof: bool, dyn: seq<bool>, ks: seq<Item>)
    returns (body: Body, bits: seq<bool>)
    requires ItemsOk(ks) && |buf| < WORD && DynamicOf(dyn, ks) && FromTrees(dyn, ks)
    requires |buf| + 4 <= InBytes(3 + |dyn|) && |buf| + 4 <= InBytes(3 + |StaticBits(ks)|)
    ensures bits == Lsb(Kind(0, eof), 3) + StoredBits(n + 3, buf) && |bits| == 3 + |StoredBits(n + 3, buf)|
    ensures BlockOf(bits, eof, body, n, true, buf, dyn, ks)
  {
    hide ItemsOk, ReadsAs, DynamicOf, FromTrees, StaticBits, StoredBits, Lsb, Kind;
    body, bits := Stored(buf), Lsb(Kind(0, eof), 3) + StoredBits(n + 3, buf);
    StoredReads(buf, eof, n);
    StoredSize(n, buf);
  }

  lemma {:induction false} StaticChosen(n: nat, here: bool, buf: seq<byte>, eof: bool, dyn: seq<bool>, ks: seq<Item>)
    returns (body: Body, bits: seq<bool>)
    requires ItemsOk(ks) && DynamicOf(dyn, ks) && FromTrees(dyn, ks)
    requires InBytes(3 + |StaticBits(ks)|) <= InBytes(3 + |dyn|)
    requires here ==> InBytes(3 + |StaticBits(ks)|) < |buf| + 4
    ensures bits == Lsb(Kind(1, eof), 3) + StaticBits(ks) && |bits| == 3 + |StaticBits(ks)|
    ensures BlockOf(bits, eof, body, n, here, buf, dyn, ks)
  {
    hide ItemsOk, ReadsAs, DynamicOf, FromTrees, StaticBits, Lsb, Kind;
    body, bits := Coded(ks), Lsb(Kind(1, eof), 3) + StaticBits(ks);
    StaticReads(ks, eof, n + |bits|);
  }

  lemma {:induction false} DynamicChosen(n: nat, here: bool, buf: seq<byte>, eof: bool, dyn: seq<bool>, ks: seq<Item>)
    returns (body: Body, bits: seq<bool>)
    requires ItemsOk(ks) && DynamicOf(dyn, ks) && FromTrees(dyn, ks)
    requires InBytes(3 + |dyn|) < InBytes(3 + |StaticBits(ks)|)
    requires here ==> InBytes(3 + |dyn|) < |buf| + 4
    ensures bits == Lsb(Kind(2, eof), 3) + dyn && |bits| == 3 + |dyn|
    ensures BlockOf(bits, eof, body, n, here, buf, dyn, ks)
  {
    hide ItemsOk, ReadsAs, DynamicOf, FromTrees, StaticBits, Lsb, Kind;
    body, bits := Coded(ks), Lsb(Kind(2, eof), 3) + dyn;
    DynamicReads(dyn, ks, eof, n + |bits|);
  }

  lemma {:induction false} BuiltParts(t: Trees, lMax: nat, dMax: nat, maxBl: nat, la: seq<nat>, lb: seq<nat>,
                                      b: seq<nat>, dyn: seq<bool>, ks: seq<Item>)
    requires AllBuilt(t, lMax, dMax, maxBl, la, lb, b, dyn, ks)
    ensures ItemsOk(ks) && DynamicOf(dyn, ks) && FromTrees(dyn, ks)
    ensures t.work.optLen == |dyn| && t.work.staticLen == |StaticBits(ks)|
  {
    hide Complete, Sendable, AllRuns, InTrees, HeaderBits, BlockBits, Guarded, Ready, DynamicOf, StaticBits;
    DynamicIsOf(la, lb, maxBl + 1, b, ks);
  }

  /** A stored block ends on a byte boundary. */
  lemma {:induction false} StoredSize(n: nat, buf: seq<byte>)
    requires |buf| < WORD
    ensures n + 3 + |StoredBits(n + 3, buf)| == (n + 3 + 7) / 8 * 8 + (|buf| + 4) * 8
    ensures ((n % LONG + 3 + 7) / 8 * 8 % LONG + (|buf| + 4) * 8) % LONG == (n + 3 + |StoredBits(n + 3, buf)|) % LONG
  {
    hide Lsb, ByteLsb, Fill;
    FillUp(n + 3);
    RoundUp(n);
    ModAdd((n + 10) / 8 * 8, (|buf| + 4) * 8);
  }

  lemma {:induction false} FillUp(n: nat)
    ensures n + Fill(n) == (n + 7) / 8 * 8
  {
  }

  lemma {:induction false} ModAdd(a: nat, b: nat)
    ensures (a % LONG + b) % LONG == (a + b) % LONG
  {
    var q, r := a / LONG, a % LONG;
    assert a + b == LONG * q + (r + b);
  }

  lemma {:induction false} RoundUp(n: nat)
    ensures (n % LONG + 10) / 8 * 8 % LONG == (n + 10) / 8 * 8 % LONG
  {
    var q, r := n / LONG, n % LONG;
    assert n + 10 == 8 * (0x2000_0000 * q) + (r + 10);
    assert (n + 10) / 8 == 0x2000_0000 * q + (r + 10) / 8;
    ModAdd((r + 10) / 8 * 8, LONG * q);
  }

  /** The flags saved and all trees built. */
  method Prepare(t: Trees)
    returns (lMax: nat, dMax: nat, maxBl: nat, ghost la: seq<nat>, ghost lb: seq<nat>, ghost b: seq<nat>,
             ghost dyn: seq<bool>)
    requires t.Valid()
    modifies t.work, t.Scratch(), t.tally.flagBuf, t.dyn.Arrays()
    ensures t.Shaped() && t.Static() && Buffered(t, t.tally.toks) && ItemsOk(t.tally.toks)
    ensures AllBuilt(t, lMax, dMax, maxBl, la, lb, b, dyn, t.tally.toks)
  {
    hide Filling, Counted, Saved, AllBuilt, ItemsOk, LenTable, DistTable, Dynamic.Shaped, Work.Shaped, TreesCodes.Coded,
         FixedLit, FixedDist, Cleared;
    SaveFlags(t);
    lMax, dMax, maxBl, la, lb, b, dyn := BuildThree(t);
  }

  /** Send the items since the last block as a block of the kind chosen, and start anew. */
  method SendBlock(t: Trees, w: BitSink, buf: seq<byte>, here: bool, storedLen: nat, eof: bool)
    returns (ghost bits: seq<bool>, ghost body: Body, ghost dyn: seq<bool>)
    requires t.Valid() && w.Valid() && (here ==> storedLen == |buf| < WORD) && t.compressedLen == Long(|w.sent|)
    modifies w, t, t.work, t.tally, t.Scratch(), t.Buffers(), t.dyn.Arrays()
    ensures t.Valid() && t.tally.toks == [] && t.tally.all == old(t.tally.all) && w.Valid()
    ensures w.sent == old(w.sent) + bits && t.compressedLen == Long(|w.sent|)
    ensures BlockOf(bits, eof, body, |old(w.sent)|, here, buf, dyn, old(t.tally.toks))
  {
    hide Holds, Buffered, AllBuilt, BlockOf, ItemsOk, DynamicOf, Long, Trees.Valid, Trees.Shaped, Trees.Static;
    ghost var ks := t.tally.toks;
    var lMax, dMax, maxBl;
    ghost var la, lb, b;
    lMax, dMax, maxBl, la, lb, b, dyn := Prepare(t);
    bits, body := ChooseAndSend(t, w, buf, here, storedLen, eof, lMax, dMax, maxBl, la, lb, b, dyn, ks);
    InitBlock(t);
  }

  /** The end of the file: fill up the last byte. */
  method WindUp(t: Trees, w: BitSink)
    requires w.Valid() && t.compressedLen == Long(|w.sent|)
    modifies w, t`compressedLen
    ensures w.Valid() && w.sent == old(w.sent) + Lsb(0, Fill(|old(w.sent)|)) && w.sent == ByteLsb(w.out)
    ensures |w.sent| + 8 < LONG ==> 8 * (t.compressedLen / 8) == |w.sent|
  {
    hide Holds, Lsb, ByteLsb, Fill;
    SmallMod(|w.sent|);
    w.BiWindup();
    t.compressedLen := (t.compressedLen + 7) % LONG;
  }

  /** flush_block: the items since the last block become a block of the kind that the sizes
      compared choose, which reads back as what was put in and takes the bits foreseen for it, and
      the next block starts empty.  Returned is the number of bytes written so far, as far as a
      32-bit count of bits goes. */
  method FlushBlock(t: Trees, w: BitSink, buf: seq<byte>, here: bool, storedLen: nat, eof: bool)
    returns (bytes: nat, ghost bits: seq<bool>, ghost body: Body, ghost dyn: seq<bool>)
    requires t.Valid() && w.Valid() && (here ==> storedLen == |buf| < WORD) && t.compressedLen == Long(|w.sent|)
    modifies w, t, t.work, t.tally, t.Scratch(), t.Buffers(), t.dyn.Arrays()
    ensures t.Valid() && t.tally.toks == [] && t.tally.all == old(t.tally.all) && w.Valid()
    ensures w.sent == old(w.sent) + bits + if eof then Lsb(0, Fill(|old(w.sent)| + |bits|)) else []
    ensures BlockOf(bits, eof, body, |old(w.sent)|, here, buf, dyn, old(t.tally.toks))
    ensures !eof ==> t.compressedLen == Long(|w.sent|)
    ensures eof && |w.sent| + 8 < LONG ==> 8 * bytes == |w.sent|
    ensures eof ==> w.sent == ByteLsb(w.out)
  {
    hide Holds, Lsb, ByteLsb, Fill, BlockOf, Long, Tally.Valid, Tally.Tables, Tally.Shaped, Counted, Cleared,
         Dynamic.Shaped, Work.Shaped, Trees.Static;
    bits, body, dyn := SendBlock(t, w, buf, here, storedLen, eof);
    if eof { WindUp(t, w); }
    bytes := t.compressedLen / 8;
  }

  lemma {:induction false} SmallMod(n: nat)
    ensures n + Fill(n) + 8 < LONG ==> (n % LONG + 7) % LONG == n + 7
    ensures 8 * ((n + 7) / 8) == n + Fill(n)
  {
    FillUp(n);
  }

  lemma {:induction false} CountedStart(lf: seq<nat>, df: seq<nat>)
    requires |lf| == 573 && |df| == 61 && (forall x :: 0 <= x < 286 ==> lf[x] == if x == END_BLOCK then 1 else 0)
    requires forall x :: 0 <= x < 30 ==> df[x] == 0
    ensures Counted(lf, df, [])
  {
    NoUses();
  }

  method NewFreqs(n: nat) returns (a: array<nat>)
    ensures fresh(a) && a.Length == n && forall x :: 0 <= x < n ==> a[x] == 0
  {
    a := new nat[n](_ => 0);
  }

  ghost predicate Cleared(f: seq<nat>) { |f| == 39 && forall x :: 0 <= x < 19 ==> f[x] == 0 }
}
