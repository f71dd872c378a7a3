/** The blocks of archive/gzip/inflate.c: stored, fixed and dynamic, and all of them. */
module InflateBlocks {
  import opened BitString
  import opened GzipBits
  import opened InflateBits
  import opened Canonical
  import opened HuftTables
  import opened HuftSound
  import opened Hufts
  import opened InflateLookup
  import opened InflateWindow
  import opened InflateFormat
  import opened InflateCoded

  // ------------------------------------------------------------------- stored

  lemma {:induction false} BytesNext(t: seq<bool>, n: nat, s: seq<byte>)
    requires n > 0
    ensures !Has(t, 8) ==> Bytes(t, n) == Wrong
    ensures Has(t, 8) ==>
              Number(t, 8) < 256 && ByteResume(s, Bytes(t, n)) == ByteResume(s + [Number(t, 8)], Bytes(t[8..], n - 1))
  {
    hide Number;
    Pow2Values();
    if Has(t, 8) && Bytes(t[8..], n - 1).Done? {
      assert s + ([Number(t, 8)] + Bytes(t[8..], n - 1).v) == (s + [Number(t, 8)]) + Bytes(t[8..], n - 1).v;
    }
  }

  function ByteResume(s: seq<byte>, p: Parsed<seq<byte>>): Parsed<seq<byte>> {
    match p
    case Done(r, rest) => Done(s + r, rest)
    case Wrong => Wrong
  }

  /** Read and output n bytes. */
  method CopyStored(src: BitSource, win: Window, n0: nat) returns (out: Outcome)
    requires src.Valid() && win.Valid()
    modifies src, win, win.slide
    ensures src.Valid() && win.Valid() && (old(src.bk) <= 15 && out.Fine? ==> src.bk <= 15)
    ensures out == Fine || out == EndOfFile
    ensures out.Fine? ==> Bytes(old(src.Rest()), n0).Done? && Bytes(old(src.Rest()), n0).rest == src.Rest()
                          && win.text == old(win.text) + Bytes(old(src.Rest()), n0).v
    ensures out.EndOfFile? ==> Bytes(old(src.Rest()), n0) == Wrong
  {
    hide Ring, Holding, BitSource.Valid, Bytes, Number;
    ghost var t0, h := src.Rest(), win.text;
    ghost var s: seq<byte> := [];
    var n: nat := n0;
    NoBytesYet(t0, n0);
    while n > 0
      invariant src.Valid() && win.Valid() && win.text == h + s && n <= n0
      invariant old(src.bk) <= 15 ==> src.bk <= 15
      invariant Bytes(t0, n0) == ByteResume(s, Bytes(src.Rest(), n))
    {
      ghost var t := src.Rest();
      BytesNext(t, n, s);
      n := n - 1;
      var ok: bool, x: nat;
      ok, x := src.Take(8);
      if !ok { return EndOfFile; }
      BitsValue(t, 8, x);
      win.Put(x);
      s := s + [x];
    }
    NoBytesYet(src.Rest(), 0);
    assert s + [] == s;
    out := Fine;
  }

  lemma {:induction false} NoBytesYet(t: seq<bool>, n: nat)
    ensures Bytes(t, n) == ByteResume([], Bytes(t, n)) && Bytes(t, 0) == Done([], t)
  {
    if Bytes(t, n).Done? { assert [] + Bytes(t, n).v == Bytes(t, n).v; }
  }

  /** inflate_stored. */
  method InflateStored(src: BitSource, win: Window) returns (out: Outcome)
    requires src.Valid() && win.Valid()
    modifies src, win, win.slide
    ensures src.Valid() && win.Valid() && (old(src.bk) <= 15 && out.Fine? ==> src.bk <= 15) && !out.Undefined?
    ensures out.Fine? ==> StoredBlock(old(src.Rest())).Done? && StoredBlock(old(src.Rest())).rest == src.Rest()
                          && win.text == old(win.text) + StoredBlock(old(src.Rest())).v
    ensures out != Fine ==> StoredBlock(old(src.Rest())) == Wrong
    ensures out.Failed? ==> out.code == 1
  {
    hide Ring, Holding, BitSource.Valid, Bytes, Number;
    src.Align();
    ghost var t := src.Rest();
    var ok: bool, n: nat, c: nat;
    ok, n := src.Take(16);
    if !ok { return EndOfFile; }
    BitsValue(t, 16, n);
    Pow2Values();
    ghost var r := src.Rest();
    ok, c := src.Take(16);
    if !ok { return EndOfFile; }
    BitsValue(r, 16, c);
    if n != 0xffff - c {
      return Failed(1);
    }
    assert src.Rest() == t[32..];
    out := CopyStored(src, win, n);
  }

  // ------------------------------------------------------------------- tables

  /** huft_build's result, and that its tables are right for gzip's sizes. */
  lemma {:induction false} TablesReady(b: seq<nat>, s: nat, d: seq<nat>, e: seq<nat>, m: nat, r: nat,
                                       tabs: seq<seq<Huft>>, l: nat, g: Made)
    requires 1 <= |b| <= 288 && NoneAbove(b, 15) && 1 <= m <= 9
    requires MaxLen(b) == 0 ==> r == 0 && tabs == [] && l == 0
    requires MaxLen(b) > 0 ==> (r == 2 <==> Spare(b, MaxLen(b)) < 0)
    requires MaxLen(b) > 0 ==> (r == 1 <==> Spare(b, MaxLen(b)) > 0 && MaxLen(b) != 1) && r <= 2
    requires MaxLen(b) > 0 && r != 2 ==> Tabled(b, s, d, e, l, g) && tabs == g.tabs
    requires MaxLen(b) > 0 ==> exists k :: FirstBits(b, m, k, l)
    requires MaxLen(b) <= 2 * m || (m == 6 && |b| <= 30)
    ensures r == 0 <==> Accepted(b)
    ensures r == 0 || (r == 1 && MaxLen(b) <= 2 * m) ==> TablesFor(b, s, d, e, tabs, l, g)
    ensures Accepted(b) || MaxLen(b) <= 9 ==> Narrow(l)
  {
    hide MaxLen, Spare, Tabled, Sound, Count;
    MaxBound(b);
    if MaxLen(b) > 0 {
      var k :| FirstBits(b, m, k, l);
      if MaxLen(b) <= 2 * m {
        TwoLevelsSound(b, m, k, l);
      } else if r == 0 {
        FewCodesSound(b, k, l);
      }
      if Accepted(b) { ShortestSmall(b, k); }
    }
  }

  /** Some code of an accepted set has at most 9 bits. */
  lemma {:induction false} ShortestSmall(b: seq<nat>, k: nat)
    requires Accepted(b) && MaxLen(b) > 0 && |b| <= 288 && 1 <= k <= MaxLen(b) && NoneShorter(b, k)
    ensures k <= 9
  {
    hide MaxLen, Spare, Count;
    if MaxLen(b) > 1 {
      FreshSpare(b, k);
      SpareUsed(b, k - 1, MaxLen(b));
      SlotBound(b, MaxLen(b) + 1);
      Powers();
      if k > 9 { Pow2Monotone(9, k - 1); }
    }
  }

  // -------------------------------------------------------------------- fixed

  lemma {:induction false} CountRepeat(n: nat, v: nat, k: nat)
    ensures Count(Repeat(n, v), k) == if k == v then n else 0
  {
    if n > 0 {
      CountRepeat(n - 1, v, k);
      assert Repeat(n, v)[..n - 1] == Repeat(n - 1, v);
    }
  }

  lemma {:induction false} FixedCount(k: nat)
    ensures Count(FixedLit(), k) == if k == 7 then 24 else if k == 8 then 152 else if k == 9 then 112 else 0
    ensures Count(FixedDist(), k) == if k == 5 then 30 else 0
  {
    hide Count;
    var a, b, c, d := Repeat(144, 8), Repeat(112, 9), Repeat(24, 7), Repeat(8, 8);
    CountSplit(a + b + c, d, k);
    CountSplit(a + b, c, k);
    CountSplit(a, b, k);
    CountRepeat(144, 8, k);
    CountRepeat(112, 9, k);
    CountRepeat(24, 7, k);
    CountRepeat(8, 8, k);
    CountRepeat(30, 5, k);
  }

  lemma {:induction false} FixedFacts()
    ensures MaxLen(FixedLit()) == 9 && Spare(FixedLit(), 9) == 0 && NoneAbove(FixedLit(), 15)
    ensures MaxLen(FixedDist()) == 5 && Spare(FixedDist(), 5) == 2 && NoneAbove(FixedDist(), 15)
  {
    hide MaxLen, Count;
    FixedRange();
    FixedCount(9);
    FixedCount(8);
    FixedCount(7);
    FixedCount(5);
    MaxLenIs(FixedLit(), 9);
    MaxLenIs(FixedDist(), 5);
    FreshFixed();
    FreshSpare(FixedLit(), 7);
    FreshSpare(FixedDist(), 5);
    Pow2Values();
  }

  lemma {:induction false} FixedRange()
    ensures NoneAbove(FixedLit(), 9) && NoneAbove(FixedDist(), 5)
  {
  }

  lemma {:induction false} FreshFixed()
    ensures NoneShorter(FixedLit(), 7) && NoneShorter(FixedDist(), 5)
  {
    hide Count;
    forall j: nat ensures Count(FixedLit(), j)
           == (if j == 7 then 24 else if j == 8 then 152 else if j == 9 then 112 else 0)
                      && Count(FixedDist(), j) == (if j == 5 then 30 else 0)
    {
      FixedCount(j);
    }
  }

  /** inflate_fixed. */
  method InflateFixed(src: BitSource, win: Window) returns (out: Outcome)
    requires src.Valid() && win.Valid()
    modifies src, win, win.slide
    ensures src.Valid() && win.Valid() && (old(src.bk) <= 15 && out.Fine? ==> src.bk <= 15)
    ensures out.Fine? ==> ItemsDone(FixedLit(), FixedDist(), old(src.Rest()), old(win.text), src.Rest(), win.text)
    ensures out.EndOfFile? ==> AlmostUsed(Items(FixedLit(), FixedDist(), old(src.Rest())))
    ensures out.Failed? || out.Undefined? ==> Items(FixedLit(), FixedDist(), old(src.Rest())) == Wrong
    ensures out.Failed? ==> out.code == 1
  {
    hide Ring, Holding, BitSource.Valid, MaxLen, Spare, Tabled, Items, FixedLit, FixedDist, CpLens, CpLExt, CpDist,
         CpDExt, Sound;
    var l := FixedLengths();
    FixedFacts();
    LiteralsEntered(l);
    var i: nat, tl: seq<seq<Huft>>, bl: nat;
    ghost var gl: Made;
    i, tl, bl, gl := HuftBuild(l, 257, CpLens(), CpLExt(), 7);
    TablesReady(l, 257, CpLens(), CpLExt(), 7, i, tl, bl, gl);
    assert i == 0;
    var d := Repeat(30, 5);
    assert d == FixedDist() by { FixedDistIs(); }
    DistancesEntered(d);
    var td: seq<seq<Huft>>, bd: nat;
    ghost var gd: Made;
    i, td, bd, gd := HuftBuild(d, 0, CpDist(), CpDExt(), 5);
    TablesReady(d, 0, CpDist(), CpDExt(), 5, i, td, bd, gd);
    out := InflateCodes(src, win, l, d, tl, bl, gl, td, bd, gd);
  }

  lemma {:induction false} FixedDistIs()
    ensures FixedDist() == Repeat(30, 5)
  {
  }

  /** Set up the literal lengths. */
  method FixedLengths() returns (b: seq<nat>)
    ensures b == FixedLit()
  {
    var l := new nat[288];
    var i := 0;
    while i < 144
      invariant i <= 144 && forall k :: 0 <= k < i ==> l[k] == 8
    {
      l[i] := 8;
      i := i + 1;
    }
    while i < 256
      invariant 144 <= i <= 256 && (forall k :: 0 <= k < 144 ==> l[k] == 8) && forall k :: 144 <= k < i ==> l[k] == 9
    {
      l[i] := 9;
      i := i + 1;
    }
    while i < 280
      invariant 256 <= i <= 280 && (forall k :: 0 <= k < 144 ==> l[k] == 8)
      invariant (forall k :: 144 <= k < 256 ==> l[k] == 9)
      invariant forall k :: 256 <= k < i ==> l[k] == 7
    {
      l[i] := 7;
      i := i + 1;
    }
    while i < 288
      invariant 280 <= i <= 288 && (forall k :: 0 <= k < 144 ==> l[k] == 8)
      invariant (forall k :: 144 <= k < 256 ==> l[k] == 9)
      invariant (forall k :: 256 <= k < 280 ==> l[k] == 7) && (forall k :: 280 <= k < i ==> l[k] == 8)
    {
      l[i] := 8;
      i := i + 1;
    }
    b := l[..];
  }

  // ------------------------------------------------------------------ dynamic

  /** Read in the lengths of the code for code lengths. */
  method ReadBitLengths(src: BitSource, nb: nat) returns (out: Outcome, b: seq<nat>)
    requires src.Valid() && 4 <= nb <= 19
    modifies src
    ensures src.Valid() && (old(src.bk) <= 15 && out.Fine? ==> src.bk <= 15) && (out == Fine || out == EndOfFile)
    ensures out.Fine? ==>
              BitLengths(Repeat(19, 0), 0, nb, old(src.Rest())) == Done(b, src.Rest()) && |b| == 19 && NoneAbove(b, 7)
    ensures out.EndOfFile? ==> BitLengths(Repeat(19, 0), 0, nb, old(src.Rest())) == Wrong
  {
    hide Holding, BitSource.Valid, BitLengths, Number, Border;
    ghost var t0 := src.Rest();
    b := Repeat(19, 0);
    var j := 0;
    while j < nb
      invariant src.Valid() && j <= nb && |b| == 19 && NoneAbove(b, 7)
      invariant old(src.bk) <= 15 ==> src.bk <= 15
      invariant BitLengths(Repeat(19, 0), 0, nb, t0) == BitLengths(b, j, nb, src.Rest())
    {
      ghost var t := src.Rest();
      BitLengthsNext(b, j, nb, t);
      var ok: bool, x: nat;
      ok, x := src.Take(3);
      if !ok { return EndOfFile, b; }
      BitsValue(t, 3, x);
      Pow2Values();
      BorderRange(j);
      b := b[Border()[j] := x];
      j := j + 1;
    }
    BitLengthsEnd(b, nb, src.Rest());
    out := Fine;
  }

  lemma {:induction false} BitLengthsNext(b: seq<nat>, j: nat, n: nat, t: seq<bool>)
    requires |b| == 19 && j < n <= 19
    ensures !Has(t, 3) ==> BitLengths(b, j, n, t) == Wrong
    ensures Has(t, 3) ==>
              Border()[j] < 19 && BitLengths(b, j, n, t) == BitLengths(b[Border()[j] := Number(t, 3)], j + 1, n, t[3..])
  {
    hide Number, Border;
    BorderRange(j);
  }

  lemma {:induction false} BitLengthsEnd(b: seq<nat>, n: nat, t: seq<bool>)
    requires |b| == 19 && n <= 19
    ensures BitLengths(b, n, n, t) == Done(b, t)
  {
  }

  /** The run of a repeat code: base and the number of bits that count on from it. */
  function RunBase(j: nat): nat { if j == 18 then 11 else 3 }

  function RunBits(j: nat): nat { if j == 16 then 2 else if j == 17 then 3 else 7 }

  lemma {:induction false} LengthsCase(b: seq<nat>, n: nat, acc: seq<nat>, last: nat, t: seq<bool>, out: Outcome,
                                       op: nat, j: nat, r: seq<bool>)
    requires |acc| < n && |b| == 19
    requires out.Fine? ==> Decoded(b, 19, [], [], t, op, j, r)
    requires out.Failed? || out.Undefined? ==> NoSymbol(b, 19, [], [], t)
    ensures out.Fine? ==> j < 19
    ensures out.Fine? && j < 16 ==> Lengths(b, n, acc, last, t) == Lengths(b, n, acc + [j], j, r)
    ensures out.Fine? && j >= 16 ==>
              Lengths(b, n, acc, last, t) == Repeated(b, n, acc, if j == 16 then last else 0, RunBase(j), RunBits(j), r)
    ensures out.Failed? || out.Undefined? ==> Lengths(b, n, acc, last, t) == Wrong
  {
    hide Lookup, Code, Repeated;
    if Lookup(b, t).Sym? { LookupSome(b, t); }
  }

  lemma {:induction false} RepeatedCase(b: seq<nat>, n: nat, acc: seq<nat>, v: nat, base: nat, bits: nat, t: seq<bool>)
    requires |acc| <= n && base >= 1
    ensures !Has(t, bits) || |acc| + base + Number(t, bits) > n ==> Repeated(b, n, acc, v, base, bits, t) == Wrong
    ensures Has(t, bits) && |acc| + base + Number(t, bits) <= n ==>
              Repeated(b, n, acc, v, base, bits, t)
                == Lengths(b, n, acc + Repeat(base + Number(t, bits), v), v, t[bits..])
  {
    hide Number, Lengths;
  }

  ghost predicate AlmostRead(p: Parsed<seq<nat>>) { p.Done? ==> |p.rest| < 17 }

  /** Read in the literal and distance code lengths. */
  method ReadLengths(src: BitSource, ghost b: seq<nat>, tl: seq<seq<Huft>>, bl: nat, ghost gl: Made, n: nat)
    returns (out: Outcome, ls: seq<nat>)
    requires src.Valid() && |b| == 19 && TablesFor(b, 19, [], [], tl, bl, gl) && Narrow(bl)
    modifies src
    ensures src.Valid() && (old(src.bk) <= 15 && out.Fine? ==> src.bk <= 15)
    ensures out.Fine? ==>
              Lengths(b, n, [], 0, old(src.Rest())) == Done(ls, src.Rest()) && |ls| == n && NoneAbove(ls, 15)
    ensures out.EndOfFile? ==> AlmostRead(Lengths(b, n, [], 0, old(src.Rest())))
    ensures out.Failed? || out.Undefined? ==> Lengths(b, n, [], 0, old(src.Rest())) == Wrong
    ensures out.Failed? ==> out.code == 1
  {
    hide Holding, BitSource.Valid, Lengths, Repeated, Number, TablesFor, Decoded, NoSymbol, Repeat;
    ghost var t0 := src.Rest();
    ls := [];
    var l: nat := 0;
    while |ls| < n
      invariant src.Valid() && |ls| <= n && NoneAbove(ls, 15) && l <= 15
      invariant old(src.bk) <= 15 ==> src.bk <= 15
      invariant Lengths(b, n, [], 0, t0) == Lengths(b, n, ls, l, src.Rest())
      decreases n - |ls|
    {
      ghost var t := src.Rest();
      var op: nat, j: nat;
      out, op, j := LookUp(src, b, 19, [], [], tl, bl, gl);
      LengthsCase(b, n, ls, l, t, out, op, j, src.Rest());
      LengthsRest(b, n, ls, l, t);
      if out != Fine { return; }
      if j < 16 {
        l := j;
        ls := ls + [j];
      } else {
        ghost var r := src.Rest();
        var v := if j == 16 then l else 0;
        RepeatedCase(b, n, ls, v, RunBase(j), RunBits(j), r);
        var ok: bool, x: nat;
        ok, x := src.Take(RunBits(j));
        if !ok { return EndOfFile, ls; }
        BitsValue(r, RunBits(j), x);
        if |ls| + RunBase(j) + x > n { return Failed(1), ls; }
        ls := ls + Repeat(RunBase(j) + x, v);
        l := v;
        RepeatValues(RunBase(j) + x, v);
      }
    }
    LengthsEnd(b, n, ls, l, src.Rest());
    out := Fine;
  }

  lemma {:induction false} RepeatValues(n: nat, v: nat)
    ensures forall i :: 0 <= i < n ==> Repeat(n, v)[i] == v
  {
  }

  lemma {:induction false} LengthsEnd(b: seq<nat>, n: nat, acc: seq<nat>, last: nat, t: seq<bool>)
    requires |acc| == n
    ensures Lengths(b, n, acc, last, t) == Done(acc, t)
  {
  }

  /** The three counts at the head of a dynamic block. */
  method ReadCounts(src: BitSource) returns (out: Outcome, nl: nat, nd: nat, nb: nat)
    requires src.Valid()
    modifies src
    ensures src.Valid() && (old(src.bk) <= 15 && out.Fine? ==> src.bk <= 15) && (out == Fine || out == EndOfFile)
    ensures out.Fine? ==> Has(old(src.Rest()), 14) && src.Rest() == old(src.Rest())[14..]
    ensures out.Fine? ==> nl == 257 + Number(old(src.Rest()), 5) && nd == 1 + Number(old(src.Rest())[5..], 5)
                          && nb == 4 + Number(old(src.Rest())[10..], 4) && 4 <= nb <= 19
    ensures out.EndOfFile? ==> !Has(old(src.Rest()), 14)
  {
    hide Holding, BitSource.Valid, Number;
    nl, nd, nb := 0, 0, 0;
    ghost var t := src.Rest();
    Pow2Values();
    var ok: bool, x: nat;
    ok, x := src.Take(5);
    if !ok { return EndOfFile, nl, nd, nb; }
    BitsValue(t, 5, x);
    nl := 257 + x;
    ok, x := src.Take(5);
    if !ok { return EndOfFile, nl, nd, nb; }
    BitsValue(t[5..], 5, x);
    nd := 1 + x;
    assert src.Rest() == t[10..];
    ok, x := src.Take(4);
    if !ok { return EndOfFile, nl, nd, nb; }
    BitsValue(t[10..], 4, x);
    nb := 4 + x;
    assert src.Rest() == t[14..];
    out := Fine;
  }

  /** The header, given its parts. */
  lemma {:induction false} HeaderIs(t: seq<bool>, nl: nat, nd: nat, nb: nat)
    requires Has(t, 14) && nl == 257 + Number(t, 5) && nd == 1 + Number(t[5..], 5) && nb == 4 + Number(t[10..], 4)
    requires nb <= 19
    ensures nl > 286 || nd > 30 ==> DynamicHeader(t) == Wrong
    ensures nl <= 286 && nd <= 30 ==>
              DynamicHeader(t) == match BitLengths(Repeat(19, 0), 0, nb, t[14..]) {
                case Wrong => Wrong
                case Done(b, r) => if !Accepted(b) then Wrong else AsHeader(nl, Lengths(b, nl + nd, [], 0, r))
              }
  {
    hide Number, BitLengths, Lengths, Accepted;
  }

  function AsHeader(nl: nat, p: Parsed<seq<nat>>): Parsed<Header> {
    match p
    case Wrong => Wrong
    case Done(ls, r) => Done(Header(nl, ls), r)
  }

  ghost predicate HeaderShort(p: Parsed<Header>) { p.Done? ==> |p.rest| < 17 }

  /** More than 286 literal and length codes, or than 30 distance codes. */
  ghost predicate TooManyCodes(t: seq<bool>)
    requires Has(t, 14)
  {
    Number(t, 5) > 29 || Number(t[5..], 5) > 29
  }

  /** Read the header of a dynamic block. */
  method ReadHeader(src: BitSource) returns (out: Outcome, nl: nat, ls: seq<nat>)
    requires src.Valid()
    modifies src
    ensures src.Valid() && (old(src.bk) <= 15 && out.Fine? ==> src.bk <= 15)
    ensures out.Fine? ==> DynamicHeader(old(src.Rest())) == Done(Header(nl, ls), src.Rest())
    ensures out.Fine? ==> 257 <= nl <= 286 && nl < |ls| <= nl + 30 && NoneAbove(ls, 15)
    ensures out.EndOfFile? ==> HeaderShort(DynamicHeader(old(src.Rest())))
    ensures out.Failed? || out.Undefined? ==> DynamicHeader(old(src.Rest())) == Wrong
    ensures var t := old(src.Rest()); Has(t, 14) && TooManyCodes(t) ==> out == Failed(1)
    ensures out.Failed? ==> 1 <= out.code <= 2
  {
    hide Holding, BitSource.Valid, Number, BitLengths, Lengths, Accepted, MaxLen, Spare, Tabled, Sound, TablesFor,
         DynamicHeader;
    ls := [];
    ghost var t := src.Rest();
    var nd: nat, nb: nat;
    out, nl, nd, nb := ReadCounts(src);
    if out != Fine { NoHeader(t); return; }
    HeaderIs(t, nl, nd, nb);
    if nl > 286 || nd > 30 {
      return Failed(1), nl, ls;
    }
    var b: seq<nat>;
    out, b := ReadBitLengths(src, nb);
    if out != Fine { return; }
    var r: nat, tl: seq<seq<Huft>>, bl: nat;
    ghost var gl: Made;
    NoneAboveMore(b, 7, 15);
    BitLengthsEntered(b);
    r, tl, bl, gl := HuftBuild(b, 19, [], [], 7);
    LongestWithin(b, 7);
    TablesReady(b, 19, [], [], 7, r, tl, bl, gl);
    if r != 0 {
      return Failed(r), nl, ls;
    }
    out, ls := ReadLengths(src, b, tl, bl, gl, nl + nd);
  }

  lemma {:induction false} NoHeader(t: seq<bool>)
    requires !Has(t, 14)
    ensures DynamicHeader(t) == Wrong
  {
  }

  lemma {:induction false} BitLengthsEntered(b: seq<nat>)
    requires |b| == 19
    ensures Entered(b, 19, [], [])
  {
  }

  lemma {:induction false} NoneAboveMore(b: seq<nat>, m: nat, n: nat)
    requires NoneAbove(b, m) && m <= n
    ensures NoneAbove(b, n)
  {
  }

  lemma {:induction false} LongestWithin(b: seq<nat>, m: nat)
    requires NoneAbove(b, m)
    ensures MaxLen(b) <= m
  {
    if b != [] { LongestWithin(b[..|b| - 1], m); }
  }

  ghost predicate BlockShort(p: Parsed<seq<Item>>) { p.Done? ==> |p.rest| < 17 }

  lemma {:induction false} DynamicIs(t: seq<bool>)
    ensures DynamicHeader(t).Wrong? ==> DynamicBlock(t) == Wrong
    ensures DynamicHeader(t).Done? && DynamicHeader(t).v.nl <= |DynamicHeader(t).v.lengths| ==>
              var h := DynamicHeader(t).v; var ll, dl := h.lengths[..h.nl], h.lengths[h.nl..];
              DynamicBlock(t) == if !Accepted(ll) || !Accepted(dl) then Wrong else Items(ll, dl, DynamicHeader(t).rest)
    ensures HeaderShort(DynamicHeader(t)) ==> BlockShort(DynamicBlock(t))
  {
    hide DynamicHeader, Items, Accepted;
    if DynamicHeader(t).Done? && DynamicHeader(t).v.nl <= |DynamicHeader(t).v.lengths| {
      var h := DynamicHeader(t).v;
      ItemsAreOk(h.lengths[..h.nl], h.lengths[h.nl..], DynamicHeader(t).rest);
    }
  }

  /** inflate_dynamic. */
  method InflateDynamic(src: BitSource, win: Window) returns (out: Outcome)
    requires src.Valid() && win.Valid()
    modifies src, win, win.slide
    ensures src.Valid() && win.Valid() && (old(src.bk) <= 15 && out.Fine? ==> src.bk <= 15)
    ensures out.Fine? ==> CodedDone(DynamicBlock(old(src.Rest())), old(win.text), src.Rest(), win.text)
    ensures out.EndOfFile? ==> BlockShort(DynamicBlock(old(src.Rest())))
    ensures out.Failed? || out.Undefined? ==> DynamicBlock(old(src.Rest())) == Wrong
    ensures out.Failed? ==> 1 <= out.code <= 2
  {
    hide Ring, Holding, BitSource.Valid, MaxLen, Spare, Tabled, Items, CpLens, CpLExt, CpDist, CpDExt, Sound, Accepted,
         DynamicHeader, DynamicBlock, PutAll;
    ghost var t := src.Rest();
    DynamicIs(t);
    var nl: nat, ls: seq<nat>;
    out, nl, ls := ReadHeader(src);
    if out != Fine { return; }
    var ll, dl := ls[..nl], ls[nl..];
    LiteralsEntered(ll);
    DistancesEntered(dl);
    var r: nat, tl: seq<seq<Huft>>, bl: nat;
    ghost var gl: Made;
    r, tl, bl, gl := HuftBuild(ll, 257, CpLens(), CpLExt(), 9);
    LongestWithin(ll, 15);
    TablesReady(ll, 257, CpLens(), CpLExt(), 9, r, tl, bl, gl);
    if r != 0 {
      return Failed(r);
    }
    var td: seq<seq<Huft>>, bd: nat;
    ghost var gd: Made;
    r, td, bd, gd := HuftBuild(dl, 0, CpDist(), CpDExt(), 6);
    LongestWithin(dl, 15);
    TablesReady(dl, 0, CpDist(), CpDExt(), 6, r, td, bd, gd);
    if r != 0 {
      return Failed(r);
    }
    out := InflateCodes(src, win, ll, dl, tl, bl, gl, td, bd, gd);
  }

  ghost predicate CodedDone(p: Parsed<seq<Item>>, h: seq<byte>, rest: seq<bool>, text: seq<byte>) {
    p.Done? && p.rest == rest && |h| >= 0x8000 && ItemsOk(p.v) && text == PutAll(h, p.v)
  }

  // -------------------------------------------------------------------- blocks

  /** The block was read and its text written. */
  ghost predicate BlockDone(p: Parsed<Block>, h: seq<byte>, last: bool, rest: seq<bool>, text: seq<byte>) {
    p.Done? && p.v.last == last && p.rest == rest && |h| >= 0x8000 && BodyOk(p.v.body) && text == Append(h, p.v.body)
  }

  ghost predicate NearEnd(p: Parsed<Block>) { p.Done? ==> |p.rest| < 17 }

  lemma {:induction false} OneBlockIs(t: seq<bool>, last: bool, kind: nat)
    requires Has(t, 3) && last == (Number(t, 1) == 1) && kind == Number(t[1..], 2)
    ensures OneBlock(t) == if kind == 0 then AsStored(last, StoredBlock(t[3..]))
                           else if kind == 1 then AsCoded(last, Items(FixedLit(), FixedDist(), t[3..]))
                           else if kind == 2 then AsCoded(last, DynamicBlock(t[3..]))
                           else Wrong
  {
    hide Number, StoredBlock, Items, FixedLit, FixedDist, DynamicBlock;
  }

  /** The last-block flag and the type of a block. */
  method ReadKind(src: BitSource) returns (ok: bool, last: bool, kind: nat)
    requires src.Valid()
    modifies src
    ensures src.Valid() && (old(src.bk) <= 15 && ok ==> src.bk <= 15)
    ensures ok ==>
              Has(old(src.Rest()), 3) && last == (Number(old(src.Rest()), 1) == 1)
                && kind == Number(old(src.Rest())[1..], 2)
    ensures ok ==> src.Rest() == old(src.Rest())[3..] && kind < 4
    ensures !ok ==> !Has(old(src.Rest()), 3)
  {
    hide Holding, BitSource.Valid, Number;
    last, kind := false, 0;
    ghost var t := src.Rest();
    Pow2Values();
    var x: nat;
    ok, x := src.Take(1);
    if !ok { return; }
    BitsValue(t, 1, x);
    last := x == 1;
    ok, kind := src.Take(2);
    if !ok { return; }
    BitsValue(t[1..], 2, kind);
    assert src.Rest() == t[3..];
  }

  /** inflate_block. */
  method InflateBlock(src: BitSource, win: Window) returns (out: Outcome, last: bool)
    requires src.Valid() && win.Valid()
    modifies src, win, win.slide
    ensures src.Valid() && win.Valid() && (old(src.bk) <= 15 && out.Fine? ==> src.bk <= 15)
    ensures out.Fine? ==> BlockDone(OneBlock(old(src.Rest())), old(win.text), last, src.Rest(), win.text)
    ensures out.EndOfFile? ==> NearEnd(OneBlock(old(src.Rest())))
    ensures out.Failed? || out.Undefined? ==> OneBlock(old(src.Rest())) == Wrong
    ensures var t := old(src.Rest()); Has(t, 3) && Number(t[1..], 2) == 3 ==> out == Failed(2)
    ensures out.Failed? ==> 1 <= out.code <= 2
  {
    hide Ring, Holding, BitSource.Valid, Items, Number, StoredBlock, DynamicBlock, FixedLit, FixedDist, PutAll;
    LongText(win.slide[..], win.text);
    var ok: bool, kind: nat;
    ghost var t := src.Rest();
    ok, last, kind := ReadKind(src);
    if !ok { return EndOfFile, last; }
    OneBlockIs(t, last, kind);
    if kind == 2 {
      out := InflateDynamic(src, win);
    } else if kind == 0 {
      out := InflateStored(src, win);
    } else if kind == 1 {
      out := InflateFixed(src, win);
    } else {
      out := Failed(2);
    }
  }

  // ------------------------------------------------------------------- inflate

  ghost predicate AllShort(p: Parsed<seq<Body>>) { p.Done? ==> |p.rest| < 17 }

  function BodyResume(bs: seq<Body>, p: Parsed<seq<Body>>): Parsed<seq<Body>> {
    match p
    case Wrong => Wrong
    case Done(cs, rest) => Done(bs + cs, rest)
  }

  lemma {:induction false} AppendSnoc(h: seq<byte>, bs: seq<Body>, b: Body)
    requires |h| >= 0x8000 && BodiesOk(bs) && BodyOk(b)
    ensures BodiesOk(bs + [b]) && AppendAll(h, bs + [b]) == Append(AppendAll(h, bs), b)
    decreases |bs|
  {
    hide Append;
    if bs == [] {
      assert bs + [b] == [b];
      assert [b][1..] == [];
    } else {
      AppendSnoc(Append(h, bs[0]), bs[1..], b);
      assert (bs + [b])[1..] == bs[1..] + [b];
    }
  }

  /** One block more. */
  lemma {:induction false} BlocksNext(t: seq<bool>, bs: seq<Body>, h: seq<byte>)
    requires |h| >= 0x8000 && BodiesOk(bs)
    ensures OneBlock(t).Wrong? ==> Blocks(t) == Wrong
    ensures NearEnd(OneBlock(t)) ==> AllShort(Blocks(t))
    ensures OneBlock(t).Done? ==>
              var b := OneBlock(t).v; var r := OneBlock(t).rest;
              && BodyOk(b.body) && |r| < |t| && BodiesOk(bs + [b.body])
              && AppendAll(h, bs + [b.body]) == Append(AppendAll(h, bs), b.body)
              && BodyResume(bs, Blocks(t))
                 == if b.last then Done(bs + [b.body], r) else BodyResume(bs + [b.body], Blocks(r))
  {
    hide OneBlock, Append;
    OneBlockOk(t);
    if OneBlock(t).Done? {
      var b, r := OneBlock(t).v, OneBlock(t).rest;
      AppendSnoc(h, bs, b.body);
      BlocksOk(r);
      if Blocks(r).Done? { assert bs + ([b.body] + Blocks(r).v) == (bs + [b.body]) + Blocks(r).v; }
    }
  }

  lemma {:induction false} NoBlocksYet(t: seq<bool>, h: seq<byte>)
    requires |h| >= 0x8000
    ensures Blocks(t) == BodyResume([], Blocks(t)) && AppendAll(h, []) == h
  {
    hide Blocks;
    if Blocks(t).Done? { assert [] + Blocks(t).v == Blocks(t).v; }
  }

  /** inflate: what is written is what the blocks say, appended to what was in the window, and
      of the bytes read ahead at most one is given back, so that the next byte read is the first
      one no block has a bit in. */
  method Inflate(slide: array<byte>, file: seq<byte>)
    returns (out: Outcome, text: seq<byte>, inptr: nat, ghost back: int)
    requires slide.Length == 0x8000
    modifies slide
    ensures out.Fine? ==> Inflated(ByteLsb(file), old(slide[..]), text)
    ensures out.Fine? ==>
              inptr <= |file| && 8 * (|file| - inptr) <= |Blocks(ByteLsb(file)).rest| < 8 * (|file| - inptr) + 8
                && 0 <= back <= 1
    ensures out.EndOfFile? ==> AllShort(Blocks(ByteLsb(file)))
    ensures out.Failed? || out.Undefined? ==> Blocks(ByteLsb(file)) == Wrong
    ensures out.Failed? ==> 1 <= out.code <= 2
  {
    hide Ring, Holding, BitSource.Valid, Blocks, OneBlock, Append, AppendAll, ByteLsb;
    text, inptr, back := [], 0, 0;
    var src := new BitSource(file);
    var win := new Window(slide);
    ghost var t0, h := src.Rest(), win.text;
    assert t0 == ByteLsb(file);
    LongText(slide[..], h);
    NoBlocksYet(t0, h);
    ghost var bs: seq<Body> := [];
    var e := false;
    while !e
      invariant src.Valid() && win.Valid() && win.slide == slide && src.bk <= 15 && src.inp == file && fresh(src)
      invariant fresh(win)
      invariant BodiesOk(bs) && win.text == AppendAll(h, bs)
      invariant if e then Blocks(t0) == Done(bs, src.Rest()) else Blocks(t0) == BodyResume(bs, Blocks(src.Rest()))
      decreases !e, |src.Rest()|
    {
      ghost var t := src.Rest();
      BlocksNext(t, bs, h);
      out, e := InflateBlock(src, win);
      if out != Fine { return; }
      bs := bs + [OneBlock(t).v.body];
    }
    ghost var at, pos := src.inptr, src.Pos();
    RestSize(src);
    src.GiveBack();
    back := at - src.inptr;
    inptr := src.inptr;
    win.FlushRest();
    text := win.out;
    out := Fine;
  }

  /** The text is what the blocks append to h. */
  ghost predicate Inflated(t: seq<bool>, h: seq<byte>, text: seq<byte>) {
    && Blocks(t).Done? && |h| >= 0x8000 && BodiesOk(Blocks(t).v) && |h| == 0x8000
    && h + text == AppendAll(h, Blocks(t).v)
  }

  lemma {:induction false} RestSize(src: BitSource)
    requires src.Valid()
    ensures |src.Rest()| == 8 * |src.inp| - src.Pos() && src.Pos() <= 8 * |src.inp|
  {
  }
}
