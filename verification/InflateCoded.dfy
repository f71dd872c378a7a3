/** inflate_codes of archive/gzip/inflate.c: what it writes for a block of codes, and where it
    stops, is what the format says. */
module InflateCoded {
  import opened BitString
  import opened GzipBits
  import opened InflateBits
  import opened Lz
  import opened Canonical
  import opened HuftTables
  import opened Hufts
  import opened InflateLookup
  import opened InflateWindow
  import opened InflateFormat

  /** The tables of one block: literals with up to 9 bits in the first one, and distances. */
  ghost predicate LitTables(ll: seq<nat>, tl: seq<seq<Huft>>, bl: nat, gl: Made) {
    TablesFor(ll, 257, CpLens(), CpLExt(), tl, bl, gl) && Narrow(bl) && |ll| <= 288
  }

  ghost predicate DistTables(dl: seq<nat>, td: seq<seq<Huft>>, bd: nat, gd: Made) {
    TablesFor(dl, 0, CpDist(), CpDExt(), td, bd, gd) && Narrow(bd) && |dl| <= 30
  }

  /** At the end of the input hardly any bits are left for what the format asks for. */
  ghost predicate Short(p: Step) { p.Next? || p.End? ==> |p.rest| < 17 }

  /** An error, an entry never set, or the end of the input: the stream does not go on well, or
      is almost used up. */
  ghost predicate Stopped(out: Outcome, p: Step) {
    (out.Failed? || out.Undefined? ==> p == NoStep) && (out.EndOfFile? ==> Short(p))
  }

  lemma {:induction false} BitsValue(t: seq<bool>, n: nat, x: nat)
    requires n <= |t| && x < Pow2(n) && Lsb(x, n) == t[..n]
    ensures Has(t, n) && Number(t, n) == x
  {
    LsbRev(x, n);
  }

  lemma {:induction false} DistanceCase(dl: seq<nat>, n: nat, t: seq<bool>, out: Outcome, e: nat, v: nat, r: seq<bool>)
    requires |dl| <= 30 && 3 <= n <= 258
    requires out.Fine? ==> Decoded(dl, 0, CpDist(), CpDExt(), t, e, v, r)
    requires out.Failed? || out.Undefined? ==> NoSymbol(dl, 0, CpDist(), CpDExt(), t)
    requires out.EndOfFile? ==> |t| < 17
    ensures out.Fine? ==>
              e <= 13 && Distance(dl, n, t) == if Has(r, e) then Next(Back(n, v + Number(r, e)), r[e..]) else NoStep
    ensures out.Failed? || out.Undefined? ==> Distance(dl, n, t) == NoStep
    ensures out.EndOfFile? ==> Short(Distance(dl, n, t))
  {
    hide Code, Lookup, Number, CpDist, CpDExt;
    DistanceOk(dl, n, t);
    if Lookup(dl, t).Sym? {
      LookupSome(dl, t);
      ExtraDistance(Lookup(dl, t).i);
    }
  }

  lemma {:induction false} OneItemCase(ll: seq<nat>, dl: seq<nat>, t: seq<bool>, out: Outcome, e: nat, v: nat,
                                       r: seq<bool>)
    requires |ll| <= 288
    requires out.Fine? ==> Decoded(ll, 257, CpLens(), CpLExt(), t, e, v, r)
    requires out.Failed? || out.Undefined? ==> NoSymbol(ll, 257, CpLens(), CpLExt(), t)
    requires out.EndOfFile? ==> |t| < 17
    ensures out.Fine? && e == 16 ==> v < 256 && OneItem(ll, dl, t) == Next(Lit(v), r)
    ensures out.Fine? && e == 15 ==> OneItem(ll, dl, t) == End(r)
    ensures out.Fine? && e < 15 ==> e <= 5 && (!Has(r, e) ==> OneItem(ll, dl, t) == NoStep)
    ensures out.Fine? && e < 15 && Has(r, e) ==>
              3 <= v + Number(r, e) <= 258 && OneItem(ll, dl, t) == Distance(dl, v + Number(r, e), r[e..])
    ensures out.Failed? || out.Undefined? ==> OneItem(ll, dl, t) == NoStep
    ensures out.EndOfFile? ==> Short(OneItem(ll, dl, t))
  {
    hide Code, Lookup, Number, Distance, CpLens, CpLExt, OneItem;
    OneItemOk(ll, dl, t);
    if Lookup(ll, t).NoSym? {
      NoItem(ll, dl, t);
    } else {
      LookupSome(ll, t);
      var i := Lookup(ll, t).i;
      if i < 257 {
        PlainItem(ll, dl, t, i);
      } else {
        ExtraRange(i - 257);
        MatchItem(ll, dl, t, i);
        if i < 286 && out.Fine? && Has(r, e) { LengthRange(i - 257, Number(r, e)); }
      }
    }
  }

  lemma {:induction false} NoItem(ll: seq<nat>, dl: seq<nat>, t: seq<bool>)
    requires Lookup(ll, t) == NoSym
    ensures OneItem(ll, dl, t) == NoStep
  {
  }

  lemma {:induction false} PlainItem(ll: seq<nat>, dl: seq<nat>, t: seq<bool>, i: nat)
    requires Lookup(ll, t) == Sym(i) && i < 257 && i < |ll| && ll[i] <= |t|
    ensures OneItem(ll, dl, t) == if i < 256 then Next(Lit(i), t[ll[i]..]) else End(t[ll[i]..])
  {
  }

  lemma {:induction false} MatchItem(ll: seq<nat>, dl: seq<nat>, t: seq<bool>, i: nat)
    requires Lookup(ll, t) == Sym(i) && 257 <= i < 288 && i < |ll| && ll[i] <= |t|
    ensures var r, x := t[ll[i]..], CpLExt()[i - 257];
      OneItem(ll, dl, t)
        == if i >= 286 || !Has(r, x) then NoStep else Distance(dl, CpLens()[i - 257] + Number(r, x), r[x..])
  {
    hide Distance, Number, CpLens, CpLExt;
  }

  lemma {:induction false} LongText(slide: seq<byte>, text: seq<byte>)
    requires Ring(slide, text)
    ensures |text| >= 0x8000
  {
  }

  /** Read the distance of a match and copy it. */
  method DecodeDistance(src: BitSource, win: Window, ghost dl: seq<nat>, td: seq<seq<Huft>>, bd: nat, ghost gd: Made,
                        n: nat)
    returns (out: Outcome, ghost k: Item)
    requires src.Valid() && win.Valid() && DistTables(dl, td, bd, gd) && 3 <= n <= 258
    modifies src, win, win.slide
    ensures src.Valid() && win.Valid() && (old(src.bk) <= 15 ==> out.Fine? ==> src.bk <= 15)
    ensures out.Fine? ==> Distance(dl, n, old(src.Rest())) == Next(k, src.Rest()) && ItemOk(k)
    ensures out.Fine? ==> |old(win.text)| >= 0x8000 && win.text == Put(old(win.text), k)
    ensures Stopped(out, Distance(dl, n, old(src.Rest()))) && (out.Failed? ==> out.code == 1)
  {
    hide Code, MaxLen, Tabled, Spare, Ring, Holding, Lookup, TablesFor, BitSource.Valid, CpDist, CpDExt, Distance,
         Decoded, NoSymbol, Number, Narrow;
    k := Lit(0);
    ghost var t := src.Rest();
    var e: nat, v: nat;
    out, e, v := LookUp(src, dl, 0, CpDist(), CpDExt(), td, bd, gd);
    DistanceCase(dl, n, t, out, e, v, src.Rest());
    if out != Fine { return; }
    ghost var r := src.Rest();
    var ok: bool, x: nat;
    ok, x := src.Take(e);
    if !ok { return EndOfFile, k; }
    BitsValue(r, e, x);
    DistanceOk(dl, n, t);
    k := Back(n, v + x);
    LongText(win.slide[..], win.text);
    win.CopyMatch(n, v + x);
  }

  /** Decode and write the next literal or match, or see the end of the block. */
  method DecodeItem(src: BitSource, win: Window, ghost ll: seq<nat>, ghost dl: seq<nat>, tl: seq<seq<Huft>>, bl: nat,
                    ghost gl: Made,
                    td: seq<seq<Huft>>, bd: nat, ghost gd: Made)
    returns (out: Outcome, end: bool, ghost k: Item)
    requires src.Valid() && win.Valid() && LitTables(ll, tl, bl, gl) && DistTables(dl, td, bd, gd)
    modifies src, win, win.slide
    ensures src.Valid() && win.Valid() && (old(src.bk) <= 15 ==> out.Fine? ==> src.bk <= 15)
    ensures out.Fine? && end ==>
              OneItem(ll, dl, old(src.Rest())) == End(src.Rest()) && win.text == old(win.text)
                && win.out == old(win.out)
    ensures out.Fine? && !end ==> OneItem(ll, dl, old(src.Rest())) == Next(k, src.Rest()) && ItemOk(k)
    ensures out.Fine? && !end ==> |old(win.text)| >= 0x8000 && win.text == Put(old(win.text), k)
    ensures Stopped(out, OneItem(ll, dl, old(src.Rest()))) && (out.Failed? ==> out.code == 1)
  {
    hide Code, MaxLen, Tabled, Spare, Ring, Holding, Lookup, TablesFor, BitSource.Valid, OneItem, Distance, DistTables,
         CpLens, CpLExt,
         NoSymbol, Number, Narrow, Copy;
    k, end := Lit(0), false;
    ghost var t := src.Rest();
    var e: nat, v: nat;
    out, e, v := LookUp(src, ll, 257, CpLens(), CpLExt(), tl, bl, gl);
    OneItemCase(ll, dl, t, out, e, v, src.Rest());
    if out != Fine { return; }
    if e == 16 {
      LongText(win.slide[..], win.text);
      k := Lit(v);
      win.Put(v);
    } else if e == 15 {
      end := true;
    } else {
      ghost var r := src.Rest();
      var ok: bool, x: nat;
      ok, x := src.Take(e);
      if !ok { return EndOfFile, end, k; }
      BitsValue(r, e, x);
      out, k := DecodeDistance(src, win, dl, td, bd, gd, v + x);
    }
  }

  ghost predicate AlmostUsed(p: Parsed<seq<Item>>) { p.Done? ==> |p.rest| < 17 }

  lemma {:induction false} ItemsStop(ll: seq<nat>, dl: seq<nat>, t: seq<bool>, out: Outcome)
    requires Stopped(out, OneItem(ll, dl, t)) && out != Fine
    ensures out.EndOfFile? ==> AlmostUsed(Items(ll, dl, t))
    ensures !out.EndOfFile? ==> Items(ll, dl, t) == Wrong
  {
    hide OneItem;
    OneItemOk(ll, dl, t);
    if OneItem(ll, dl, t).Next? { ItemsAreOk(ll, dl, OneItem(ll, dl, t).rest); }
  }

  /** What is left of the items when some are done. */
  function Resume(ks: seq<Item>, p: Parsed<seq<Item>>): Parsed<seq<Item>> {
    match p
    case Done(js, rest) => Done(ks + js, rest)
    case Wrong => Wrong
  }

  lemma {:induction false} ItemsNext(ll: seq<nat>, dl: seq<nat>, t: seq<bool>, ks: seq<Item>, h: seq<byte>)
    requires |h| >= 0x8000 && ItemsOk(ks)
    ensures OneItem(ll, dl, t).End? ==> Resume(ks, Items(ll, dl, t)) == Done(ks, OneItem(ll, dl, t).rest)
    ensures OneItem(ll, dl, t).Next? ==>
              var k := OneItem(ll, dl, t).k;
              ItemOk(k) && ItemsOk(ks + [k]) && |OneItem(ll, dl, t).rest| < |t|
              && Resume(ks, Items(ll, dl, t)) == Resume(ks + [k], Items(ll, dl, OneItem(ll, dl, t).rest))
              && PutAll(h, ks + [k]) == Put(PutAll(h, ks), k)
  {
    hide OneItem;
    OneItemOk(ll, dl, t);
    match OneItem(ll, dl, t)
    case NoStep =>
    case End(r) => assert ks + [] == ks;
    case Next(k, r) =>
      PutAllSnoc(h, ks, k);
      if Items(ll, dl, r).Done? {
        assert ks + ([k] + Items(ll, dl, r).v) == (ks + [k]) + Items(ll, dl, r).v;
      }
  }

  lemma {:induction false} PutAllSnoc(h: seq<byte>, ks: seq<Item>, k: Item)
    requires |h| >= 0x8000 && ItemsOk(ks) && ItemOk(k)
    ensures ItemsOk(ks + [k]) && PutAll(h, ks + [k]) == Put(PutAll(h, ks), k)
    decreases |ks|
  {
    hide Put;
    if ks == [] {
      assert ks + [k] == [k];
      assert [k][1..] == [];
    } else {
      PutAllSnoc(Put(h, ks[0]), ks[1..], k);
      assert (ks + [k])[1..] == ks[1..] + [k];
    }
  }

  /** inflate_codes: decode until the end of the block. */
  method InflateCodes(src: BitSource, win: Window, ghost ll: seq<nat>, ghost dl: seq<nat>, tl: seq<seq<Huft>>, bl: nat,
                      ghost gl: Made,
                      td: seq<seq<Huft>>, bd: nat, ghost gd: Made)
    returns (out: Outcome)
    requires src.Valid() && win.Valid() && LitTables(ll, tl, bl, gl) && DistTables(dl, td, bd, gd)
    modifies src, win, win.slide
    ensures src.Valid() && win.Valid() && (old(src.bk) <= 15 && out.Fine? ==> src.bk <= 15)
    ensures out.Fine? ==> ItemsDone(ll, dl, old(src.Rest()), old(win.text), src.Rest(), win.text)
    ensures out.EndOfFile? ==> AlmostUsed(Items(ll, dl, old(src.Rest())))
    ensures out.Failed? || out.Undefined? ==> Items(ll, dl, old(src.Rest())) == Wrong
    ensures out.Failed? ==> out.code == 1
  {
    hide Ring, Holding, BitSource.Valid, OneItem, DistTables, LitTables, Items, Put, PutAll;
    ghost var t0, h := src.Rest(), win.text;
    ghost var ks: seq<Item> := [];
    LongText(win.slide[..], win.text);
    NothingYet(ll, dl, t0, h);
    var end := false;
    while !end
      invariant src.Valid() && win.Valid() && ItemsOk(ks) && win.text == PutAll(h, ks)
      invariant old(src.bk) <= 15 ==> src.bk <= 15
      invariant !end ==> Items(ll, dl, t0) == Resume(ks, Items(ll, dl, src.Rest()))
      invariant end ==> Items(ll, dl, t0) == Done(ks, src.Rest())
      decreases !end, |src.Rest()|
    {
      ghost var k;
      ghost var t := src.Rest();
      ItemsNext(ll, dl, t, ks, h);
      out, end, k := DecodeItem(src, win, ll, dl, tl, bl, gl, td, bd, gd);
      if out != Fine {
        ItemsStop(ll, dl, t, out);
        return;
      }
      if !end { ks := ks + [k]; }
    }
    out := Fine;
  }

  ghost predicate ItemsDone(ll: seq<nat>, dl: seq<nat>, t: seq<bool>, h: seq<byte>, rest: seq<bool>, text: seq<byte>) {
    && Items(ll, dl, t).Done? && Items(ll, dl, t).rest == rest && |h| >= 0x8000
    && ItemsOk(Items(ll, dl, t).v) && text == PutAll(h, Items(ll, dl, t).v)
  }

  lemma {:induction false} NothingYet(ll: seq<nat>, dl: seq<nat>, t: seq<bool>, h: seq<byte>)
    requires |h| >= 0x8000
    ensures Items(ll, dl, t) == Resume([], Items(ll, dl, t)) && PutAll(h, []) == h
  {
    hide Items;
    if Items(ll, dl, t).Done? { assert [] + Items(ll, dl, t).v == Items(ll, dl, t).v; }
  }
}
