/** Decoding one symbol in archive/gzip/inflate.c: the walk through the tables against the bit
    buffer is canonical decoding. */
module InflateLookup {
  import opened BitString
  import opened GzipBits
  import opened InflateBits
  import opened Canonical
  import opened Ladder
  import opened HuftTables
  import opened HuftWalk
  import opened HuftMake
  import opened HuftSound
  import opened Hufts

  /** How a part of inflate ends: well, with an error code, at the end of the input, or with a
      table entry that was never set. */
  datatype Outcome = Fine | Failed(code: nat) | EndOfFile | Undefined

  datatype Symbol = NoSym | Sym(i: nat)

  /** The stream starts with the code of symbol i. */
  ghost predicate LeadsWith(b: seq<nat>, i: nat, t: seq<bool>) { i < |b| && b[i] > 0 && Code(b, i) <= t }

  /** Canonical decoding: the symbol whose code the stream starts with. */
  ghost function Lookup(b: seq<nat>, t: seq<bool>): Symbol {
    if exists i: nat :: LeadsWith(b, i, t) then
      var i: nat :| LeadsWith(b, i, t);
      Sym(i)
    else NoSym
  }

  lemma {:induction false} LookupIs(b: seq<nat>, i: nat, t: seq<bool>)
    requires Spare(b, MaxLen(b)) >= 0 && LeadsWith(b, i, t)
    ensures Lookup(b, t) == Sym(i)
  {
    hide Spare, MaxLen, Code;
    forall j: nat | LeadsWith(b, j, t) ensures j == i {
      Nest(Code(b, i), Code(b, j), t);
      if Code(b, i) <= Code(b, j) { PrefixFree(b, MaxLen(b), i, j); } else { PrefixFree(b, MaxLen(b), j, i); }
    }
  }

  lemma {:induction false} LookupSome(b: seq<nat>, t: seq<bool>)
    requires Lookup(b, t).Sym?
    ensures LeadsWith(b, Lookup(b, t).i, t)
  {
    hide Code;
  }

  /** Tables huft_build made for the lengths b, safe to use. */
  ghost predicate TablesFor(b: seq<nat>, s: nat, d: seq<nat>, e: seq<nat>, tabs: seq<seq<Huft>>, l: nat, g: Made) {
    if MaxLen(b) == 0 then tabs == [] && l == 0
    else Tabled(b, s, d, e, l, g) && tabs == g.tabs && Sound(b, l, MaxLen(b)) && MaxLen(b) <= 15
  }

  /** The stream, with zeros after its end, starts with some code of the completed set. */
  lemma {:induction false} SomeCode(b: seq<nat>, s: nat, d: seq<nat>, e: seq<nat>, l: nat, g: Made, t: seq<bool>)
    returns (q: nat)
    requires Tabled(b, s, d, e, l, g) && |t| >= MaxLen(b)
    ensures q < |AllCodes(b)| && AllCodes(b)[q] <= t
  {
    hide Spare, Code, Finished, MaxLen, SymsTo, Filled, Entered, Codes, Base, Count, First;
    var ls, m := Filled(b), MaxLen(b);
    var i := AlwaysCode(ls, m, t[..m]);
    var r := Count(ls[..i], ls[i]);
    RankBound(ls, i);
    CodesAt(ls, ls[i], r, m, Count(ls, m));
    q := Base(ls, ls[i]) + r;
    CodeIsNumber(ls, i);
  }

  /** Code q is that of symbol i, which the stream starts with. */
  ghost predicate SymbolIs(b: seq<nat>, s: nat, d: seq<nat>, e: seq<nat>, q: nat, t: seq<bool>, i: nat)
    requires AllValued(Order(b), s, d, e)
  {
    && Lookup(b, t) == Sym(i) && i < |b| && q < |AllCodes(b)| && b[i] == |AllCodes(b)[q]| && Valued(i, s, d, e)
    && q < |EveryOp(b, s, d, e)| && EveryOp(b, s, d, e)[q] == Op(i, s, d, e)
  }

  /** The code that leads the stream is that of the symbol, if there is one. */
  lemma {:induction false} CodeOfSymbol(b: seq<nat>, s: nat, d: seq<nat>, e: seq<nat>, l: nat, g: Made, q: nat,
                                        t: seq<bool>, z: seq<bool>)
    requires Tabled(b, s, d, e, l, g) && q < |AllCodes(b)| && AllCodes(b)[q] <= t + z
    ensures |Order(b)| <= |EveryOp(b, s, d, e)|
    ensures q < |Order(b)| && |AllCodes(b)[q]| <= |t| ==> SymbolIs(b, s, d, e, q, t, Order(b)[q])
    ensures Lookup(b, t).Sym? ==>
              var i := Lookup(b, t).i; q < |Order(b)| && Order(b)[q] == i && i < |b| && b[i] == |AllCodes(b)[q]| <= |t|
  {
    hide Spare, Code, Finished, MaxLen, SymsTo, Filled, Entered, Codes, Base, Count, First;
    if q < |Order(b)| && |AllCodes(b)[q]| <= |t| {
      var i := SlotTaken(b, MaxLen(b), q);
      CodeAtSlot(b, i);
      assert AllCodes(b)[q] == (t + z)[..|AllCodes(b)[q]|] == t[..|AllCodes(b)[q]|];
      LookupIs(b, i, t);
      EnteredAt(b, s, d, e, i);
      assert EveryOp(b, s, d, e)[..|Order(b)|] == Ops(Order(b), s, d, e);
    }
    if Lookup(b, t).Sym? {
      LookupSome(b, t);
      var i := Lookup(b, t).i;
      CodeAtSlot(b, i);
      OneCode(AllCodes(b), Slot(b, i), q, t + z);
    }
  }

  /** What was decoded is the symbol the stream starts with. */
  ghost predicate Decoded(b: seq<nat>, s: nat, d: seq<nat>, e: seq<nat>, t: seq<bool>, op: nat, v: nat,
                          rest: seq<bool>) {
    var y := Lookup(b, t);
    y.Sym? && y.i < |b| && Valued(y.i, s, d, e) && (op, v) == Op(y.i, s, d, e) && op <= 16
    && b[y.i] <= |t| && rest == t[b[y.i]..]
  }

  /** There is no symbol that may come here. */
  ghost predicate NoSymbol(b: seq<nat>, s: nat, d: seq<nat>, e: seq<nat>, t: seq<bool>) {
    var y := Lookup(b, t);
    y.Sym? ==> Valued(y.i, s, d, e) && Op(y.i, s, d, e).0 == 99
  }

  /** The walk stands before table t, w bits into code q. */
  ghost predicate OnTheWay(b: seq<nat>, g: Made, l: nat, q: nat, t: nat, s0: seq<bool>) {
    && |g.tabs| == |g.pre| == |g.jb| && t < |g.tabs| && q < |AllCodes(b)|
    && g.pre[t] <= AllCodes(b)[q] && |g.pre[t]| < |AllCodes(b)[q]| <= MaxLen(b)
    && AllCodes(b)[q] <= s0 && |s0| >= MaxLen(b) + 1
  }

  /** Where a code ends or goes on from a table on its way. */
  lemma {:induction false} NextEntry(b: seq<nat>, s: nat, d: seq<nat>, e: seq<nat>, l: nat, g: Made, q: nat, t: nat,
                                     s0: seq<bool>)
    requires Tabled(b, s, d, e, l, g) && Sound(b, l, MaxLen(b)) && OnTheWay(b, g, l, q, t, s0)
    ensures var n, j, r := |AllCodes(b)[q]| - |g.pre[t]|, Looked(g, l, t), s0[|g.pre[t]|..];
      && j <= |r| && Rev(r[..j]) < |g.tabs[t]| && l >= 1
      && (if n <= l then n <= j && LeafIs(g.tabs[t][Rev(r[..j])], AllCodes(b), EveryOp(b, s, d, e), q, |g.pre[t]|)
          else j == l && exists u: nat :: u < |g.tabs| && NextTable(b, g, l, q, t, u, g.tabs[t][Rev(r[..j])]))
  {
    hide Spare, Code, AllCodes, Walk, MaxLen, SymsTo, Filled, Entered, Coded, Entries, AllRooted, AllSizes, Rev, Built;
    var cs, ops, max := AllCodes(b), EveryOp(b, s, d, e), MaxLen(b);
    var w, r := |g.pre[t]|, s0[|g.pre[t]|..];
    FinishedParts(g, l, cs, ops, max);
    assert cs[q][w..] <= r by { assert cs[q] == s0[..|cs[q]|]; }
    if |cs[q]| <= w + l {
      FindsHere(g, l, cs, ops, max, q, t, r);
    } else {
      SoundFilled(b, l);
      if t > 0 { StraightAll(Filled(b), max, cs, ops, g, l, t); assert Straight(g, l, cs, t); }
      var u := GoesOn(g, l, cs, ops, max, q, t, r);
      assert NextTable(b, g, l, q, t, u, g.tabs[t][Rev(r[..l])]);
    }
  }

  ghost predicate NextTable(b: seq<nat>, g: Made, l: nat, q: nat, t: nat, u: nat, en: Huft)
    requires |g.pre| == |g.jb| && t < |g.pre| && u < |g.pre| && q < |AllCodes(b)|
  {
    && |g.pre[t]| + l < |AllCodes(b)[q]| && g.pre[u] == AllCodes(b)[q][..|g.pre[t]| + l]
    && en == Huft(16 + g.jb[u], l, u) && 1 <= g.jb[u] && 16 + g.jb[u] != 99 && u > 0
  }

  /** Tables that are looked at with no more than 9 bits at a time. */
  ghost predicate Narrow(l: nat) { l <= 9 }

  lemma {:induction false} NarrowAt(b: seq<nat>, s: nat, d: seq<nat>, e: seq<nat>, l: nat, g: Made, q: nat, t: nat,
                                    s0: seq<bool>)
    requires Tabled(b, s, d, e, l, g) && OnTheWay(b, g, l, q, t, s0) && MaxLen(b) <= 15 && Sound(b, l, MaxLen(b))
    ensures |g.pre[t]| + Looked(g, l, t) <= 16 && l <= 16 && (Narrow(l) ==> Looked(g, l, t) <= 9)
  {
    hide Spare, Code, AllCodes, MaxLen, SymsTo, Filled, Entered, Coded, EveryOp, Sound;
    var cs, ops, max := AllCodes(b), EveryOp(b, s, d, e), MaxLen(b);
    SizeAt(g, l, cs, ops, max, t, q);
    FinishedParts(g, l, cs, ops, max);
    ShapeAt(g, l, cs, |cs|, t);
    if t > 0 {
      LevelMultiple(|g.pre[t]|, l);
      SoundFilled(b, l);
      StraightAll(Filled(b), max, cs, ops, g, l, t);
      assert SizeOk(g, l, cs, max, t);
    }
  }

  lemma {:induction false} NoTables(b: seq<nat>, s: nat, d: seq<nat>, e: seq<nat>, tabs: seq<seq<Huft>>, l: nat,
                                    g: Made, t: seq<bool>)
    requires TablesFor(b, s, d, e, tabs, l, g) && tabs == []
    ensures NoSymbol(b, s, d, e, t)
  {
    hide Code, Spare;
    if MaxLen(b) > 0 { FinishedParts(g, l, AllCodes(b), EveryOp(b, s, d, e), MaxLen(b)); }
    if Lookup(b, t).Sym? { LookupSome(b, t); }
  }

  /** The walk starts at the first table. */
  lemma {:induction false} WayStarts(b: seq<nat>, s: nat, d: seq<nat>, e: seq<nat>, tabs: seq<seq<Huft>>, l: nat,
                                     g: Made, q: nat, s0: seq<bool>)
    requires TablesFor(b, s, d, e, tabs, l, g) && tabs != [] && |s0| >= 17
    requires q < |AllCodes(b)| && AllCodes(b)[q] <= s0
    ensures |g.tabs| == |g.pre| == |g.jb| && OnTheWay(b, g, l, q, 0, s0) && g.pre[0] == []
    ensures Tabled(b, s, d, e, l, g) && tabs == g.tabs && Sound(b, l, MaxLen(b)) && MaxLen(b) <= 15
  {
    hide Code, Spare, MaxLen, AllCodes;
    FinishedParts(g, l, AllCodes(b), EveryOp(b, s, d, e), MaxLen(b));
    LadderLong(AllCodes(b), q);
    CodeShort(b, q);
  }

  lemma {:induction false} CodeShort(b: seq<nat>, q: nat)
    requires q < |AllCodes(b)| && MaxLen(b) >= 1
    ensures |AllCodes(b)[q]| <= MaxLen(b)
  {
    hide MaxLen, Filled, Codes, Count;
    var k, i := CodeAtPlace(Filled(b), MaxLen(b), Count(Filled(b), MaxLen(b)), q);
  }

  lemma {:induction false} HasSome(b: seq<nat>, s: nat, d: seq<nat>, e: seq<nat>, tabs: seq<seq<Huft>>, l: nat, g: Made,
                                   t: seq<bool>)
    returns (q: nat)
    requires TablesFor(b, s, d, e, tabs, l, g) && tabs != [] && |t| >= 17
    ensures q < |AllCodes(b)| && AllCodes(b)[q] <= t
  {
    hide Code, Spare, MaxLen, AllCodes, Tabled, Sound;
    q := SomeCode(b, s, d, e, l, g, t);
  }

  /** A step to the next table on the way. */
  lemma {:induction false} WayGoes(b: seq<nat>, g: Made, l: nat, q: nat, t: nat, u: nat, en: Huft, s0: seq<bool>)
    requires OnTheWay(b, g, l, q, t, s0) && u < |g.tabs| && NextTable(b, g, l, q, t, u, en)
    ensures OnTheWay(b, g, l, q, u, s0) && |g.pre[u]| == |g.pre[t]| + l && en.b == l && en.v == u
    ensures en.e == 16 + Looked(g, l, u) && en.e > 16
  {
    hide AllCodes, MaxLen;
  }

  /** An entry that says 99 or was never set: no symbol may come. */
  lemma {:induction false} EndsBad(b: seq<nat>, s: nat, d: seq<nat>, e: seq<nat>, l: nat, g: Made, q: nat, w: nat,
                                   en: Huft, t: seq<bool>, z: seq<bool>)
    requires Tabled(b, s, d, e, l, g) && q < |AllCodes(b)| && AllCodes(b)[q] <= t + z
    requires LeafIs(en, AllCodes(b), EveryOp(b, s, d, e), q, w) && (en == Unset || en.e == 99)
    ensures NoSymbol(b, s, d, e, t)
  {
    hide Code, Spare, MaxLen, AllCodes, Finished, Coded, Entered, Lookup, SymsTo, Order;
    CodeOfSymbol(b, s, d, e, l, g, q, t, z);
  }

  /** Any other entry is the symbol's. */
  lemma {:induction false} EndsWell(b: seq<nat>, s: nat, d: seq<nat>, e: seq<nat>, l: nat, g: Made, q: nat, w: nat,
                                    en: Huft, t: seq<bool>, z: seq<bool>)
    requires Tabled(b, s, d, e, l, g) && q < |AllCodes(b)| && AllCodes(b)[q] <= t + z
    requires LeafIs(en, AllCodes(b), EveryOp(b, s, d, e), q, w) && en.Huft? && en.e <= 16 && w + en.b <= |t|
    ensures w < |AllCodes(b)[q]| ==> en.b >= 1
    ensures Decoded(b, s, d, e, t, en.e, en.v, t[w + en.b..])
  {
    hide Code, Spare, MaxLen, AllCodes, Finished, Coded, Entered, Lookup, SymsTo, Order;
    CodeOfSymbol(b, s, d, e, l, g, q, t, z);
    OpsTail(b, s, d, e, q);
  }

  lemma {:induction false} OpsTail(b: seq<nat>, s: nat, d: seq<nat>, e: seq<nat>, q: nat)
    requires AllValued(Order(b), s, d, e) && q < |EveryOp(b, s, d, e)|
    ensures q >= |Order(b)| ==> EveryOp(b, s, d, e)[q].0 == 99
  {
    hide AllCodes, Order;
  }

  /** The entry the walk has come to. */
  ghost predicate EntryHere(b: seq<nat>, g: Made, l: nat, q: nat, t: nat, s0: seq<bool>, en: Huft) {
    && OnTheWay(b, g, l, q, t, s0) && t < |g.jb|
    && var j, r := Looked(g, l, t), s0[|g.pre[t]|..];
       j <= |r| && Rev(r[..j]) < |g.tabs[t]| && en == g.tabs[t][Rev(r[..j])]
  }

  /** The walk ends here. */
  lemma {:induction false} AtEnd(b: seq<nat>, s: nat, d: seq<nat>, e: seq<nat>, l: nat, g: Made, q: nat, t: nat,
                                 en: Huft, t0: seq<bool>, z: seq<bool>)
    requires Tabled(b, s, d, e, l, g) && Sound(b, l, MaxLen(b)) && EntryHere(b, g, l, q, t, t0 + z, en)
    requires en == Unset || en.e <= 16
    ensures en == Unset ==> NoSymbol(b, s, d, e, t0)
    ensures en.Huft? ==> 1 <= en.b <= Looked(g, l, t)
    ensures en.Huft? && |g.pre[t]| + en.b <= |t0| ==> Decoded(b, s, d, e, t0, en.e, en.v, t0[|g.pre[t]| + en.b..])
  {
    hide Spare, Code, AllCodes, MaxLen, Lookup, Order, Finished, Coded, Entered, Sound, Decoded, NoSymbol;
    NextEntry(b, s, d, e, l, g, q, t, t0 + z);
    if en == Unset {
      EndsBad(b, s, d, e, l, g, q, |g.pre[t]|, en, t0, z);
    } else {
      LeafBits(en, AllCodes(b), EveryOp(b, s, d, e), q, |g.pre[t]|);
      if |g.pre[t]| + en.b <= |t0| { EndsWell(b, s, d, e, l, g, q, |g.pre[t]|, en, t0, z); }
    }
  }

  lemma {:induction false} LeafBits(en: Huft, cs: seq<seq<bool>>, ops: seq<(nat, nat)>, q: nat, w: nat)
    requires q < |cs| && LeafIs(en, cs, ops, q, w) && en.Huft? && en.e <= 16
    ensures en.b == |cs[q]| - w
  {
  }

  /** The walk does not end here, unless the code is invalid. */
  lemma {:induction false} InMiddle(b: seq<nat>, s: nat, d: seq<nat>, e: seq<nat>, l: nat, g: Made, q: nat, t: nat,
                                    en: Huft, t0: seq<bool>, z: seq<bool>)
    requires Tabled(b, s, d, e, l, g) && Sound(b, l, MaxLen(b)) && EntryHere(b, g, l, q, t, t0 + z, en)
    requires en != Unset && en.e > 16 && MaxLen(b) <= 15
    ensures en.e == 99 ==> NoSymbol(b, s, d, e, t0)
    ensures en.e != 99 ==> en.b == l == Looked(g, l, t) >= 1 && |g.pre[t]| + l < 16
    ensures en.e != 99 ==> en.v < |g.tabs| && OnTheWay(b, g, l, q, en.v, t0 + z) && |g.pre[en.v]| == |g.pre[t]| + l
    ensures en.e != 99 ==> en.e == 16 + Looked(g, l, en.v) && |g.pre[en.v]| + Looked(g, l, en.v) <= 16
    ensures en.e != 99 ==> Narrow(l) ==> Looked(g, l, en.v) <= 9
  {
    hide Spare, Code, AllCodes, MaxLen, Lookup, Order, Finished, Coded, Entered, Sound, NoSymbol, Narrow;
    NextEntry(b, s, d, e, l, g, q, t, t0 + z);
    if en.e == 99 {
      if |AllCodes(b)[q]| - |g.pre[t]| <= l { EndsBad(b, s, d, e, l, g, q, |g.pre[t]|, en, t0, z); }
    } else {
      OpsAt(b, s, d, e, l, g, q);
      var u: nat :| u < |g.tabs| && NextTable(b, g, l, q, t, u, en);
      WayGoes(b, g, l, q, t, u, en, t0 + z);
      NarrowAt(b, s, d, e, l, g, q, u, t0 + z);
    }
  }

  lemma {:induction false} OpsAt(b: seq<nat>, s: nat, d: seq<nat>, e: seq<nat>, l: nat, g: Made, q: nat)
    requires Tabled(b, s, d, e, l, g)
    ensures q < |EveryOp(b, s, d, e)| ==> EveryOp(b, s, d, e)[q].0 <= 16 || EveryOp(b, s, d, e)[q].0 == 99
  {
    hide Spare, Code, AllCodes, MaxLen, Order, Coded, Entered, EveryOp, Built, AllSizes;
  }

  /** The entry at the bits in the buffer is the one the walk comes to. */
  lemma {:induction false} Arrive(b: seq<nat>, s: nat, d: seq<nat>, e: seq<nat>, l: nat, g: Made, q: nat, t: nat,
                                  t0: seq<bool>, z: seq<bool>, x: nat)
    requires Tabled(b, s, d, e, l, g) && Sound(b, l, MaxLen(b)) && OnTheWay(b, g, l, q, t, t0 + z) && t < |g.jb|
    requires var w, j := |g.pre[t]|, Looked(g, l, t); w + j <= |t0| && x < Pow2(j) && Lsb(x, j) == t0[w..][..j]
    ensures x < |g.tabs[t]| && EntryHere(b, g, l, q, t, t0 + z, g.tabs[t][x])
  {
    hide Spare, Code, AllCodes, MaxLen, Lookup, Order, Finished, Coded, Entered, Sound, Tabled, LeafIs;
    NextEntry(b, s, d, e, l, g, q, t, t0 + z);
    SeenBits(t0, z, |g.pre[t]|, Looked(g, l, t), x);
  }

  /** The bits seen are those of the stream the walk follows. */
  lemma {:induction false} SeenBits(t0: seq<bool>, z: seq<bool>, w: nat, j: nat, x: nat)
    requires w + j <= |t0| && x < Pow2(j) && Lsb(x, j) == t0[w..][..j]
    ensures j <= |(t0 + z)[w..]| && Rev((t0 + z)[w..][..j]) == x
  {
    assert (t0 + z)[w..][..j] == t0[w..][..j];
    LsbRev(x, j);
  }

  /** Use up the bits of an entry that leads to another table, and look there. */
  method StepDown(src: BitSource, ghost b: seq<nat>, ghost s: nat, ghost d: seq<nat>, ghost e: seq<nat>,
                  tabs: seq<seq<Huft>>,
                  ghost l: nat, ghost g: Made, ghost q: nat, en: Huft, ghost t0: seq<bool>, ghost z: seq<bool>,
                  ghost w: nat)
    returns (ok: bool, en2: Huft)
    requires src.Valid() && Tabled(b, s, d, e, l, g) && Sound(b, l, MaxLen(b)) && tabs == g.tabs && |z| == 17
    requires en != Unset && en.e > 16 && en.b == l && en.v < |g.tabs| == |g.pre| == |g.jb|
    requires OnTheWay(b, g, l, q, en.v, t0 + z)
    requires en.e == 16 + Looked(g, l, en.v) && |g.pre[en.v]| == w + l && w + l + Looked(g, l, en.v) <= 16
    requires w <= |t0| && src.Rest() == t0[w..] && l <= src.bk
    modifies src
    ensures src.Valid() && (!ok ==> |t0| < 17)
    ensures ok ==> w + l <= |t0| && src.Rest() == t0[w + l..] && EntryHere(b, g, l, q, en.v, t0 + z, en2)
    ensures ok ==> Looked(g, l, en.v) <= src.bk && (Looked(g, l, en.v) <= 9 && old(src.bk) <= 16 ==> src.bk <= 16)
  {
    hide Spare, MaxLen, Tabled, Sound, AllCodes, Code, Low, Pow2, OnTheWay, EntryHere, BitSource.Valid;
    en2 := Unset;
    src.Dump(en.b);
    assert src.Rest() == t0[w + l..];
    var j := en.e - 16;
    ok := src.Need(j);
    if !ok { return; }
    src.Peeked(j);
    Arrive(b, s, d, e, l, g, q, en.v, t0, z, src.Peek(j));
    en2 := tabs[en.v][src.Peek(j)];
  }

  /** Look up a symbol and use up its code. */
  method LookUp(src: BitSource, ghost b: seq<nat>, ghost s: nat, ghost d: seq<nat>, ghost e: seq<nat>,
                tabs: seq<seq<Huft>>,
                l: nat, ghost g: Made)
    returns (out: Outcome, op: nat, v: nat)
    requires src.Valid() && TablesFor(b, s, d, e, tabs, l, g)
    modifies src
    ensures src.Valid()
    ensures out.Fine? ==> Decoded(b, s, d, e, old(src.Rest()), op, v, src.Rest())
    ensures out.Fine? && Narrow(l) && old(src.bk) <= 15 ==> src.bk <= 15
    ensures out.Failed? || out.Undefined? ==> NoSymbol(b, s, d, e, old(src.Rest()))
    ensures out.Failed? ==> out.code == 1
    ensures out.EndOfFile? ==> |old(src.Rest())| < 17
  {
    hide Spare, MaxLen, Tabled, Sound, AllCodes, Code, Low, Pow2, Lookup, Order, TablesFor, OnTheWay, EntryHere,
         NoSymbol, Decoded, Narrow, BitSource.Valid;
    op, v := 0, 0;
    if |tabs| == 0 {
      NoTables(b, s, d, e, tabs, l, g, src.Rest());
      return Undefined, op, v;
    }
    ghost var t0, z := src.Rest(), Zeros(17);
    ghost var s0 := t0 + z;
    ghost var q := HasSome(b, s, d, e, tabs, l, g, s0);
    WayStarts(b, s, d, e, tabs, l, g, q, s0);
    NarrowAt(b, s, d, e, l, g, q, 0, s0);
    var ok := src.Need(l);
    if !ok { return EndOfFile, op, v; }
    src.Peeked(l);
    Arrive(b, s, d, e, l, g, q, 0, t0, z, src.Peek(l));
    var en := tabs[0][src.Peek(l)];
    ghost var t: nat, w: nat := 0, 0;
    while en != Unset && en.e > 16
      invariant src.Valid() && t < |g.tabs| == |g.pre| == |g.jb| && EntryHere(b, g, l, q, t, s0, en)
      invariant |g.pre[t]| == w <= |t0| && src.Rest() == t0[w..]
      invariant Looked(g, l, t) <= src.bk && (Narrow(l) && old(src.bk) <= 15 ==> src.bk <= 16)
      decreases 16 - w
    {
      InMiddle(b, s, d, e, l, g, q, t, en, t0, z);
      if en.e == 99 {
        return Failed(1), op, v;
      }
      ghost var u := en.v;
      ok, en := StepDown(src, b, s, d, e, tabs, l, g, q, en, t0, z, w);
      if !ok { return EndOfFile, op, v; }
      t, w := u, w + l;
    }
    AtEnd(b, s, d, e, l, g, q, t, en, t0, z);
    if en == Unset {
      return Undefined, op, v;
    }
    src.Dump(en.b);
    assert src.Rest() == t0[w + en.b..];
    op, v := en.e, en.v;
    out := Fine;
  }
}
