/** The format archive/gzip/inflate.c reads, RFC 1951 sections 3.2.3 to 3.2.7: what a stream of
    bits means, bit by bit. */
module InflateFormat {
  import opened BitString
  import opened Lz
  import opened Canonical
  import opened HuftTables
  import opened Hufts
  import opened InflateLookup

  /** Copy lengths for literal codes 257..285, and their extra bits; 99 is invalid. */
  function CpLens(): (t: seq<nat>)
    ensures |t| == 31
  {
    [3, 4, 5, 6, 7, 8, 9, 10, 11, 13, 15, 17, 19, 23, 27, 31,
     35, 43, 51, 59, 67, 83, 99, 115, 131, 163, 195, 227, 258, 0, 0]
  }

  function CpLExt(): (t: seq<nat>)
    ensures |t| == 31
  {
    [0, 0, 0, 0, 0, 0, 0, 0, 1, 1, 1, 1, 2, 2, 2, 2,
     3, 3, 3, 3, 4, 4, 4, 4, 5, 5, 5, 5, 0, 99, 99]
  }

  /** Copy offsets for distance codes 0..29, and their extra bits. */
  function CpDist(): (t: seq<nat>)
    ensures |t| == 30
  {
    [1, 2, 3, 4, 5, 7, 9, 13, 17, 25, 33, 49, 65, 97, 129, 193,
     257, 385, 513, 769, 1025, 1537, 2049, 3073, 4097, 6145, 8193, 12289, 16385, 24577]
  }

  function CpDExt(): (t: seq<nat>)
    ensures |t| == 30
  {
    [0, 0, 0, 0, 1, 1, 2, 2, 3, 3, 4, 4, 5, 5, 6, 6,
     7, 7, 8, 8, 9, 9, 10, 10, 11, 11, 12, 12, 13, 13]
  }

  lemma {:induction false} LiteralsEntered(b: seq<nat>)
    requires |b| <= 288
    ensures Entered(b, 257, CpLens(), CpLExt())
  {
  }

  lemma {:induction false} DistancesEntered(b: seq<nat>)
    requires |b| <= 30
    ensures Entered(b, 0, CpDist(), CpDExt())
  {
  }

  /** A literal byte, or len bytes from dist back. */
  datatype Item = Lit(b: byte) | Back(len: nat, dist: nat)

  datatype Step = Next(k: Item, rest: seq<bool>) | End(rest: seq<bool>) | NoStep

  /** n bits as a number, the lowest first. */
  ghost predicate Has(t: seq<bool>, n: nat) { n <= |t| }

  ghost function Number(t: seq<bool>, n: nat): (x: nat)
    requires Has(t, n)
    ensures x < Pow2(n)
  {
    Rev(t[..n])
  }

  /** The second half of a match: its distance. */
  ghost function Distance(dl: seq<nat>, len: nat, t: seq<bool>): Step {
    match Lookup(dl, t)
    case NoSym => NoStep
    case Sym(j) =>
      if j >= |dl| || j >= 30 || dl[j] > |t| then NoStep
      else
        var r := t[dl[j]..];
        if !Has(r, CpDExt()[j]) then NoStep
        else Next(Back(len, CpDist()[j] + Number(r, CpDExt()[j])), r[CpDExt()[j]..])
  }

  /** The next literal, match or end of block in the stream t, for code lengths ll and dl. */
  ghost function OneItem(ll: seq<nat>, dl: seq<nat>, t: seq<bool>): Step {
    match Lookup(ll, t)
    case NoSym => NoStep
    case Sym(i) =>
      if i >= |ll| || ll[i] > |t| then NoStep
      else
        var r := t[ll[i]..];
        if i < 256 then Next(Lit(i), r)
        else if i == 256 then End(r)
        else if i >= 286 || !Has(r, CpLExt()[i - 257]) then NoStep
        else Distance(dl, CpLens()[i - 257] + Number(r, CpLExt()[i - 257]), r[CpLExt()[i - 257]..])
  }

  datatype Parsed<T> = Done(v: T, rest: seq<bool>) | Wrong

  function Cons(k: Item, p: Parsed<seq<Item>>): Parsed<seq<Item>> {
    match p
    case Done(ks, rest) => Done([k] + ks, rest)
    case Wrong => Wrong
  }

  /** The literals and matches up to the end of the block. */
  ghost function Items(ll: seq<nat>, dl: seq<nat>, t: seq<bool>): Parsed<seq<Item>>
    decreases |t|
  {
    match OneItem(ll, dl, t)
    case NoStep => Wrong
    case End(r) => Done([], r)
    case Next(k, r) => if |r| >= |t| then Wrong else Cons(k, Items(ll, dl, r))
  }

  predicate ItemOk(k: Item) { k.Back? ==> 3 <= k.len <= 258 && 1 <= k.dist <= 0x8000 }

  /** The text after an item, and after a list of them; no item reaches back further than
      the text does. */
  function Put(h: seq<byte>, k: Item): (r: seq<byte>)
    requires |h| >= 0x8000 && ItemOk(k)
    ensures h <= r
  {
    match k
    case Lit(b) => h + [b]
    case Back(len, dist) => Copy(h, len, dist)
  }

  predicate ItemsOk(ks: seq<Item>) { forall i :: 0 <= i < |ks| ==> ItemOk(ks[i]) }

  function PutAll(h: seq<byte>, ks: seq<Item>): (r: seq<byte>)
    requires |h| >= 0x8000 && ItemsOk(ks)
    ensures h <= r
    decreases |ks|
  {
    if ks == [] then h else PutAll(Put(h, ks[0]), ks[1..])
  }

  lemma {:induction false} Powers()
    ensures Pow2(0) == 1 && Pow2(9) == 512 && Pow2(10) == 1024 && Pow2(11) == 2048 && Pow2(12) == 4096
    ensures Pow2(13) == 8192
  {
    Pow2Values();
    assert Pow2(9) == 2 * Pow2(8);
    assert Pow2(10) == 2 * Pow2(9);
    assert Pow2(11) == 2 * Pow2(10);
  }

  lemma {:induction false} LengthRange(c: nat, x: nat)
    requires c < 29 && x < Pow2(CpLExt()[c])
    ensures 3 <= CpLens()[c] + x <= 258
  {
    hide Pow2;
    Pow2Values();
    Powers();
  }

  lemma {:induction false} ExtraRange(c: nat)
    requires c < 31
    ensures if c < 29 then CpLExt()[c] <= 5 else CpLExt()[c] == 99
  {
  }

  lemma {:induction false} ExtraDistance(j: nat)
    requires j < 30
    ensures CpDExt()[j] <= 13
  {
  }

  lemma {:induction false} DistanceRange(j: nat, x: nat)
    requires j < 30 && x < Pow2(CpDExt()[j])
    ensures 1 <= CpDist()[j] + x <= 0x8000
  {
    hide Pow2;
    Pow2Values();
    Powers();
  }

  lemma {:induction false} DistanceOk(dl: seq<nat>, len: nat, t: seq<bool>)
    requires 3 <= len <= 258
    ensures Distance(dl, len, t).Next? ==> ItemOk(Distance(dl, len, t).k) && |Distance(dl, len, t).rest| <= |t|
    ensures !Distance(dl, len, t).End?
  {
    hide Lookup, Number;
    match Lookup(dl, t)
    case NoSym =>
    case Sym(j) =>
      if j < |dl| && j < 30 && dl[j] <= |t| && Has(t[dl[j]..], CpDExt()[j]) {
        DistanceRange(j, Number(t[dl[j]..], CpDExt()[j]));
      }
  }

  lemma {:induction false} OneItemOk(ll: seq<nat>, dl: seq<nat>, t: seq<bool>)
    ensures OneItem(ll, dl, t).Next? ==> ItemOk(OneItem(ll, dl, t).k) && |OneItem(ll, dl, t).rest| < |t|
    ensures OneItem(ll, dl, t).End? ==> |OneItem(ll, dl, t).rest| < |t|
  {
    hide Lookup, Number, Distance, CpLens, CpLExt, Code;
    match Lookup(ll, t)
    case NoSym =>
    case Sym(i) =>
      LookupSome(ll, t);
      if 256 < i < 286 && i < |ll| && ll[i] <= |t| && Has(t[ll[i]..], CpLExt()[i - 257]) {
        var r, x := t[ll[i]..], CpLExt()[i - 257];
        LengthRange(i - 257, Number(r, x));
        DistanceOk(dl, CpLens()[i - 257] + Number(r, x), r[x..]);
      }
  }

  lemma {:induction false} ItemsAreOk(ll: seq<nat>, dl: seq<nat>, t: seq<bool>)
    ensures Items(ll, dl, t).Done? ==> ItemsOk(Items(ll, dl, t).v) && |Items(ll, dl, t).rest| < |t|
    decreases |t|
  {
    hide OneItem;
    OneItemOk(ll, dl, t);
    if OneItem(ll, dl, t).Next? {
      ItemsAreOk(ll, dl, OneItem(ll, dl, t).rest);
    }
  }

  // -------------------------------------------------------------- stored blocks

  function ConsByte(c: byte, p: Parsed<seq<byte>>): Parsed<seq<byte>> {
    match p
    case Done(s, rest) => Done([c] + s, rest)
    case Wrong => Wrong
  }

  ghost function Bytes(t: seq<bool>, n: nat): Parsed<seq<byte>> {
    if n == 0 then Done([], t)
    else if !Has(t, 8) then Wrong
    else
      Pow2Values();
      ConsByte(Number(t, 8), Bytes(t[8..], n - 1))
  }

  /** What follows the byte boundary: the length, its complement, and the bytes. */
  ghost function StoredBytes(t: seq<bool>): Parsed<seq<byte>> {
    if !Has(t, 32) || Number(t, 16) + Number(t[16..], 16) != 0xffff then Wrong
    else Bytes(t[32..], Number(t, 16))
  }

  /** The stream ends on a byte boundary. */
  ghost function StoredBlock(t: seq<bool>): Parsed<seq<byte>> { StoredBytes(t[|t| % 8..]) }

  // --------------------------------------------------------------- fixed codes

  function Repeat(n: nat, v: nat): (s: seq<nat>)
    ensures |s| == n && forall i :: 0 <= i < n ==> s[i] == v
  {
    seq(n, _ => v)
  }

  function FixedLit(): (b: seq<nat>)
    ensures |b| == 288
  {
    Repeat(144, 8) + Repeat(112, 9) + Repeat(24, 7) + Repeat(8, 8)
  }

  function FixedDist(): seq<nat> { Repeat(30, 5) }

  // -------------------------------------------------------------- dynamic codes

  /** The lengths of the code for code lengths come in this order. */
  function Border(): (t: seq<nat>)
    ensures |t| == 19
  {
    [16, 17, 18, 0, 8, 7, 9, 6, 10, 5, 11, 4, 12, 3, 13, 2, 14, 1, 15]
  }

  lemma {:induction false} BorderRange(j: nat)
    requires j < 19
    ensures Border()[j] < 19
  {
  }

  /** The lengths from the j-th in order on, n of them sent. */
  ghost function BitLengths(b: seq<nat>, j: nat, n: nat, t: seq<bool>): Parsed<seq<nat>>
    requires |b| == 19 && j <= n <= 19
    decreases n - j
  {
    if j == n then Done(b, t)
    else if !Has(t, 3) then Wrong
    else
      BorderRange(j);
      BitLengths(b[Border()[j] := Number(t, 3)], j + 1, n, t[3..])
  }

  /** huft_build returns 0. */
  ghost predicate Accepted(b: seq<nat>) {
    MaxLen(b) == 0 || Spare(b, MaxLen(b)) == 0 || (Spare(b, MaxLen(b)) > 0 && MaxLen(b) == 1)
  }

  /** Code lengths up to n, those before being acc and the last one last. */
  ghost function Lengths(b: seq<nat>, n: nat, acc: seq<nat>, last: nat, t: seq<bool>): Parsed<seq<nat>>
    requires |acc| <= n
    decreases n - |acc|
  {
    if |acc| == n then Done(acc, t)
    else
      match Lookup(b, t)
      case NoSym => Wrong
      case Sym(j) =>
        if j >= |b| || j >= 19 || b[j] > |t| then Wrong
        else
          var r := t[b[j]..];
          if j < 16 then Lengths(b, n, acc + [j], j, r)
          else if j == 16 then Repeated(b, n, acc, last, 3, 2, r)
          else if j == 17 then Repeated(b, n, acc, 0, 3, 3, r)
          else Repeated(b, n, acc, 0, 11, 7, r)
  }

  /** As many times v as the next bits say. */
  ghost function Repeated(b: seq<nat>, n: nat, acc: seq<nat>, v: nat, base: nat, bits: nat,
                          t: seq<bool>): Parsed<seq<nat>>
    requires |acc| <= n && base >= 1
    decreases n - |acc|, 0
  {
    if !Has(t, bits) || |acc| + base + Number(t, bits) > n then Wrong
    else Lengths(b, n, acc + Repeat(base + Number(t, bits), v), v, t[bits..])
  }

  datatype Header = Header(nl: nat, lengths: seq<nat>)

  ghost function DynamicHeader(t: seq<bool>): Parsed<Header> {
    if !Has(t, 14) then Wrong
    else
      var nl, nd, nb := 257 + Number(t, 5), 1 + Number(t[5..], 5), 4 + Number(t[10..], 4);
      Pow2Values();
      if nl > 286 || nd > 30 then Wrong
      else
        match BitLengths(Repeat(19, 0), 0, nb, t[14..])
        case Wrong => Wrong
        case Done(b, r) =>
          if !Accepted(b) then Wrong
          else
            match Lengths(b, nl + nd, [], 0, r)
            case Wrong => Wrong
            case Done(ls, r2) => Done(Header(nl, ls), r2)
  }

  ghost function DynamicBlock(t: seq<bool>): Parsed<seq<Item>> {
    match DynamicHeader(t)
    case Wrong => Wrong
    case Done(h, r) =>
      if h.nl > |h.lengths| || !Accepted(h.lengths[..h.nl]) || !Accepted(h.lengths[h.nl..]) then Wrong
      else Items(h.lengths[..h.nl], h.lengths[h.nl..], r)
  }

  // -------------------------------------------------------------------- blocks

  datatype Body = Stored(bytes: seq<byte>) | Coded(items: seq<Item>)
  datatype Block = Block(last: bool, body: Body)

  function AsStored(last: bool, p: Parsed<seq<byte>>): Parsed<Block> {
    match p
    case Wrong => Wrong
    case Done(s, rest) => Done(Block(last, Stored(s)), rest)
  }

  function AsCoded(last: bool, p: Parsed<seq<Item>>): Parsed<Block> {
    match p
    case Wrong => Wrong
    case Done(ks, rest) => Done(Block(last, Coded(ks)), rest)
  }

  ghost function OneBlock(t: seq<bool>): Parsed<Block> {
    if !Has(t, 3) then Wrong
    else
      var last, kind, r := Number(t, 1) == 1, Number(t[1..], 2), t[3..];
      if kind == 0 then AsStored(last, StoredBlock(r))
      else if kind == 1 then AsCoded(last, Items(FixedLit(), FixedDist(), r))
      else if kind == 2 then AsCoded(last, DynamicBlock(r))
      else Wrong
  }

  predicate BodyOk(b: Body) { b.Coded? ==> ItemsOk(b.items) }

  function Append(h: seq<byte>, b: Body): (r: seq<byte>)
    requires |h| >= 0x8000 && BodyOk(b)
    ensures h <= r
  {
    match b
    case Stored(s) => h + s
    case Coded(ks) => PutAll(h, ks)
  }

  function ConsBody(b: Body, p: Parsed<seq<Body>>): Parsed<seq<Body>> {
    match p
    case Wrong => Wrong
    case Done(bs, rest) => Done([b] + bs, rest)
  }

  /** Blocks up to the last one. */
  ghost function Blocks(t: seq<bool>): Parsed<seq<Body>>
    decreases |t|
  {
    match OneBlock(t)
    case Wrong => Wrong
    case Done(b, r) =>
      if |r| >= |t| then Wrong
      else if b.last then Done([b.body], r)
      else ConsBody(b.body, Blocks(r))
  }

  predicate BodiesOk(bs: seq<Body>) { forall i :: 0 <= i < |bs| ==> BodyOk(bs[i]) }

  function AppendAll(h: seq<byte>, bs: seq<Body>): (r: seq<byte>)
    requires |h| >= 0x8000 && BodiesOk(bs)
    ensures h <= r
    decreases |bs|
  {
    if bs == [] then h else AppendAll(Append(h, bs[0]), bs[1..])
  }

  lemma {:induction false} BytesRest(t: seq<bool>, n: nat)
    ensures Bytes(t, n).Done? ==> |Bytes(t, n).rest| <= |t|
  {
    hide Number;
    if n > 0 && Has(t, 8) { BytesRest(t[8..], n - 1); }
  }

  lemma {:induction false} DynamicOk(t: seq<bool>)
    ensures DynamicHeader(t).Done? && DynamicBlock(t).Done? ==>
              ItemsOk(DynamicBlock(t).v) && |DynamicBlock(t).rest| <= |DynamicHeader(t).rest|
    ensures DynamicBlock(t).Done? ==> DynamicHeader(t).Done?
  {
    hide DynamicHeader, Items, Accepted;
    match DynamicHeader(t)
    case Wrong =>
    case Done(h, r) =>
      if h.nl <= |h.lengths| { ItemsAreOk(h.lengths[..h.nl], h.lengths[h.nl..], r); }
  }

  lemma {:induction false} LengthsRest(b: seq<nat>, n: nat, acc: seq<nat>, last: nat, t: seq<bool>)
    requires |acc| <= n
    ensures Lengths(b, n, acc, last, t).Done? ==> |Lengths(b, n, acc, last, t).rest| <= |t|
    decreases n - |acc|, 1
  {
    hide Number, Code;
    if |acc| < n && Lookup(b, t).Sym? {
      var j := Lookup(b, t).i;
      if j < |b| && j < 19 && b[j] <= |t| {
        var r := t[b[j]..];
        if j < 16 { LengthsRest(b, n, acc + [j], j, r); }
        else if j == 16 { RepeatedRest(b, n, acc, last, 3, 2, r); }
        else if j == 17 { RepeatedRest(b, n, acc, 0, 3, 3, r); }
        else { RepeatedRest(b, n, acc, 0, 11, 7, r); }
      }
    }
  }

  lemma {:induction false} RepeatedRest(b: seq<nat>, n: nat, acc: seq<nat>, v: nat, base: nat, bits: nat, t: seq<bool>)
    requires |acc| <= n && base >= 1
    ensures Repeated(b, n, acc, v, base, bits, t).Done? ==> |Repeated(b, n, acc, v, base, bits, t).rest| <= |t|
    decreases n - |acc|, 0
  {
    hide Number, Lengths;
    if Has(t, bits) && |acc| + base + Number(t, bits) <= n {
      LengthsRest(b, n, acc + Repeat(base + Number(t, bits), v), v, t[bits..]);
    }
  }

  lemma {:induction false} BitLengthsRest(b: seq<nat>, j: nat, n: nat, t: seq<bool>)
    requires |b| == 19 && j <= n <= 19
    ensures BitLengths(b, j, n, t).Done? ==> |BitLengths(b, j, n, t).rest| <= |t|
    decreases n - j
  {
    hide Number, Border;
    if j < n && Has(t, 3) {
      BorderRange(j);
      BitLengthsRest(b[Border()[j] := Number(t, 3)], j + 1, n, t[3..]);
    }
  }

  lemma {:induction false} HeaderRest(t: seq<bool>)
    ensures DynamicHeader(t).Done? ==> |DynamicHeader(t).rest| <= |t|
  {
    hide Number, BitLengths, Lengths, Accepted;
    if Has(t, 14) {
      var nl, nd, nb := 257 + Number(t, 5), 1 + Number(t[5..], 5), 4 + Number(t[10..], 4);
      Pow2Values();
      BitLengthsRest(Repeat(19, 0), 0, nb, t[14..]);
      match BitLengths(Repeat(19, 0), 0, nb, t[14..])
      case Wrong =>
      case Done(b, r) => LengthsRest(b, nl + nd, [], 0, r);
    }
  }

  /** A block uses up bits, and what it holds is in order. */
  lemma {:induction false} OneBlockOk(t: seq<bool>)
    ensures OneBlock(t).Done? ==> BodyOk(OneBlock(t).v.body) && |OneBlock(t).rest| < |t|
  {
    hide Number, Bytes, Items, DynamicHeader, DynamicBlock, FixedLit, FixedDist;
    if Has(t, 3) {
      var r := t[3..];
      ItemsAreOk(FixedLit(), FixedDist(), r);
      DynamicOk(r);
      HeaderRest(r);
      var u := r[|r| % 8..];
      if Has(u, 32) { BytesRest(u[32..], Number(u, 16)); }
    }
  }

  lemma {:induction false} BlocksOk(t: seq<bool>)
    ensures Blocks(t).Done? ==> BodiesOk(Blocks(t).v) && |Blocks(t).rest| < |t|
    decreases |t|
  {
    hide OneBlock;
    OneBlockOk(t);
    if OneBlock(t).Done? && !OneBlock(t).v.last { BlocksOk(OneBlock(t).rest); }
  }
}
