/** The literals and matches of a block: the bits compress_block of archive/gzip/trees.c sends
    for them, and that they read back. */
module TreesTokens {
  import opened BitString
  import opened GzipBits
  import opened Canonical
  import opened Hufts
  import opened InflateLookup
  import opened InflateCoded
  import opened InflateFormat
  import opened TreesTables

  /** The codes of an item; a literal has no distance code. */
  function LitSym(k: Item): nat {
    match k
    case Lit(b) => b
    case Back(len, _) => LITERALS + 1 + LenCode(len)
  }

  function DistSym(k: Item): nat {
    match k
    case Lit(_) => 0
    case Back(_, dist) => DistCode(dist)
  }

  /** What x exceeds the start of a range by. */
  function Beyond(x: nat, start: nat): nat { if start <= x then x - start else 0 }

  function LenBits(len: nat): seq<bool> { Lsb(Beyond(len, CpLens()[LenCode(len)]), CpLExt()[LenCode(len)]) }

  function DistBits(dist: nat): seq<bool> { Lsb(Beyond(dist, CpDist()[DistCode(dist)]), CpDExt()[DistCode(dist)]) }

  /** All codes of the item are in the trees. */
  ghost predicate InTrees(ll: seq<nat>, dl: seq<nat>, k: Item) {
    && ItemOk(k) && LitSym(k) < |ll| && ll[LitSym(k)] > 0
    && (k.Back? ==> DistSym(k) < |dl| && dl[DistSym(k)] > 0)
  }

  /** The bits of a match after its length code, and of an item. */
  function AfterLength(dl: seq<nat>, k: Item): seq<bool>
    requires k.Back? && DistSym(k) < |dl|
  {
    LenBits(k.len) + (Code(dl, DistSym(k)) + DistBits(k.dist))
  }

  function ItemBits(ll: seq<nat>, dl: seq<nat>, k: Item): seq<bool>
    requires LitSym(k) < |ll| && (k.Back? ==> DistSym(k) < |dl|)
  {
    Code(ll, LitSym(k)) + if k.Back? then AfterLength(dl, k) else []
  }

  ghost predicate AllInTrees(ll: seq<nat>, dl: seq<nat>, ks: seq<Item>) {
    forall i :: 0 <= i < |ks| ==> InTrees(ll, dl, ks[i])
  }

  ghost function ItemsBits(ll: seq<nat>, dl: seq<nat>, ks: seq<Item>): seq<bool>
    requires AllInTrees(ll, dl, ks)
  {
    if ks == [] then [] else ItemBits(ll, dl, ks[0]) + ItemsBits(ll, dl, ks[1..])
  }

  /** The codes can be told apart, and the end of the block has one. */
  ghost predicate Readable(ll: seq<nat>, dl: seq<nat>) {
    && Spare(ll, MaxLen(ll)) >= 0 && Spare(dl, MaxLen(dl)) >= 0
    && END_BLOCK < |ll| && ll[END_BLOCK] > 0
  }

  ghost function BlockBits(ll: seq<nat>, dl: seq<nat>, ks: seq<Item>): seq<bool>
    requires AllInTrees(ll, dl, ks) && END_BLOCK < |ll|
  {
    ItemsBits(ll, dl, ks) + Code(ll, END_BLOCK)
  }

  lemma {:induction false} NumberOf(x: nat, n: nat, rest: seq<bool>)
    requires x < Pow2(n)
    ensures Has(Lsb(x, n) + rest, n) && Number(Lsb(x, n) + rest, n) == x && (Lsb(x, n) + rest)[n..] == rest
  {
    hide Lsb, Number;
    BitsValue(Lsb(x, n) + rest, n, x);
  }

  lemma {:induction false} LenBitsRead(len: nat, rest: seq<bool>)
    requires 3 <= len <= 258
    ensures var c := LenCode(len); var t := LenBits(len) + rest;
            c < 29 && Has(t, CpLExt()[c]) && t[CpLExt()[c]..] == rest && CpLens()[c] + Number(t, CpLExt()[c]) == len
  {
    hide Lsb, Number, CpLens, CpLExt, LenCode, LenEnd;
    var base := seq(29, c requires 0 <= c < 29 => LenEnd(c));
    LengthParts(base, len);
    OneValue();
    NumberOf(Beyond(len, CpLens()[LenCode(len)]), CpLExt()[LenCode(len)], rest);
    if CpLExt()[LenCode(len)] != 0 { BaseIs(base, LenCode(len)); }
  }

  lemma {:induction false} BaseIs(base: seq<nat>, c: nat)
    requires LenBases(base, 28) && c < 29 && CpLExt()[c] != 0
    ensures base[c] + 3 == CpLens()[c]
  {
    hide CpLens, CpLExt, LenEnd;
    if c == 28 { LastHasNone(); } else { LenSpan(c); }
  }

  lemma {:induction false} DistBitsRead(dist: nat, rest: seq<bool>)
    requires 1 <= dist <= 0x8000
    ensures var c := DistCode(dist); var t := DistBits(dist) + rest;
            c < 30 && Has(t, CpDExt()[c]) && t[CpDExt()[c]..] == rest && CpDist()[c] + Number(t, CpDExt()[c]) == dist
  {
    hide Lsb, Number, CpDist, CpDExt, DistCode, DistEnd;
    var base := seq(30, c requires 0 <= c < 30 => DistEnd(c));
    DistanceParts(base, dist);
    OneValue();
    NumberOf(Beyond(dist, CpDist()[DistCode(dist)]), CpDExt()[DistCode(dist)], rest);
    if CpDExt()[DistCode(dist)] != 0 { DistSpan(DistCode(dist)); }
  }

  lemma {:induction false} CodeRead(b: seq<nat>, i: nat, rest: seq<bool>)
    requires Spare(b, MaxLen(b)) >= 0 && i < |b| && b[i] > 0
    ensures Lookup(b, Code(b, i) + rest) == Sym(i) && (Code(b, i) + rest)[b[i]..] == rest
  {
    hide Spare, MaxLen, Code, Lookup;
    LookupIs(b, i, Code(b, i) + rest);
  }

  /** What ItemBits sends is what OneItem reads. */
  lemma {:induction false} ItemRead(ll: seq<nat>, dl: seq<nat>, k: Item, rest: seq<bool>)
    requires Readable(ll, dl) && InTrees(ll, dl, k)
    ensures OneItem(ll, dl, ItemBits(ll, dl, k) + rest) == Next(k, rest)
  {
    hide Spare, MaxLen, Code, Lookup, Number, CpLens, CpLExt, CpDist, CpDExt, LenCode, DistCode, LenBits, DistBits,
         Distance;
    match k
    case Lit(b) =>
      assert ItemBits(ll, dl, k) + rest == Code(ll, b) + rest;
      CodeRead(ll, b, rest);
    case Back(len, dist) =>
      var c := LenCode(len);
      var tail := AfterLength(dl, k) + rest;
      var far := (Code(dl, DistSym(k)) + DistBits(dist)) + rest;
      assert ItemBits(ll, dl, k) + rest == Code(ll, 257 + c) + tail;
      CodeRead(ll, 257 + c, tail);
      assert tail == LenBits(len) + far;
      LenBitsRead(len, far);
      LengthRead(ll, dl, Code(ll, 257 + c) + tail, c, tail, far);
      DistanceRead(dl, len, dist, rest);
  }

  lemma {:induction false} LengthRead(ll: seq<nat>, dl: seq<nat>, t: seq<bool>, c: nat, tail: seq<bool>, far: seq<bool>)
    requires c < 29 && 257 + c < |ll| && Lookup(ll, t) == Sym(257 + c) && ll[257 + c] <= |t| && t[ll[257 + c]..] == tail
    requires Has(tail, CpLExt()[c]) && tail[CpLExt()[c]..] == far
    ensures OneItem(ll, dl, t) == Distance(dl, CpLens()[c] + Number(tail, CpLExt()[c]), far)
  {
    hide Number, Distance, CpLens, CpLExt, Lookup;
  }

  lemma {:induction false} DistanceRead(dl: seq<nat>, len: nat, dist: nat, rest: seq<bool>)
    requires Spare(dl, MaxLen(dl)) >= 0 && 1 <= dist <= 0x8000 && DistCode(dist) < |dl| && dl[DistCode(dist)] > 0
    ensures Distance(dl, len, (Code(dl, DistCode(dist)) + DistBits(dist)) + rest) == Next(Back(len, dist), rest)
  {
    hide Spare, MaxLen, Code, Lookup, Number, CpDist, CpDExt, DistCode, DistBits;
    var c := DistCode(dist);
    var r := DistBits(dist) + rest;
    assert (Code(dl, c) + DistBits(dist)) + rest == Code(dl, c) + r;
    CodeRead(dl, c, r);
    DistBitsRead(dist, rest);
  }

  /** The bits of a block read back as its items. */
  lemma {:induction false} BlockRead(ll: seq<nat>, dl: seq<nat>, ks: seq<Item>, rest: seq<bool>)
    requires Readable(ll, dl) && AllInTrees(ll, dl, ks)
    ensures Items(ll, dl, BlockBits(ll, dl, ks) + rest) == Done(ks, rest)
    decreases |ks|
  {
    hide Spare, MaxLen, Code, OneItem, ItemBits, ItemOk, LitSym, DistSym;
    var t := BlockBits(ll, dl, ks) + rest;
    if ks == [] {
      assert t == Code(ll, END_BLOCK) + rest;
      EndRead(ll, dl, rest);
    } else {
      var t1 := BlockBits(ll, dl, ks[1..]) + rest;
      assert t == ItemBits(ll, dl, ks[0]) + t1;
      ItemRead(ll, dl, ks[0], t1);
      BlockRead(ll, dl, ks[1..], rest);
      OneItemOk(ll, dl, t);
      assert [ks[0]] + ks[1..] == ks;
    }
  }

  lemma {:induction false} EndRead(ll: seq<nat>, dl: seq<nat>, rest: seq<bool>)
    requires Readable(ll, dl)
    ensures OneItem(ll, dl, Code(ll, END_BLOCK) + rest) == End(rest)
  {
    hide Spare, MaxLen, Code, Lookup;
    CodeRead(ll, END_BLOCK, rest);
  }

  // ---------------------------------------------------------------- frequencies

  /** How many items have the code c, for literals and lengths and for distances. */
  function LitUses(ks: seq<Item>, c: nat): (n: nat)
    ensures n <= |ks|
  {
    if ks == [] then 0 else LitUses(ks[..|ks| - 1], c) + if LitSym(ks[|ks| - 1]) == c then 1 else 0
  }

  function DistUses(ks: seq<Item>, c: nat): (n: nat)
    ensures n <= |ks|
  {
    if ks == [] then 0
    else DistUses(ks[..|ks| - 1], c) + if ks[|ks| - 1].Back? && DistSym(ks[|ks| - 1]) == c then 1 else 0
  }

  lemma {:induction false} UsesMore(ks: seq<Item>, k: Item, c: nat)
    ensures LitUses(ks + [k], c) == LitUses(ks, c) + if LitSym(k) == c then 1 else 0
    ensures DistUses(ks + [k], c) == DistUses(ks, c) + if k.Back? && DistSym(k) == c then 1 else 0
  {
    hide LitSym, DistSym;
    assert (ks + [k])[..|ks + [k]| - 1] == ks;
  }

  lemma {:induction false} UsesSome(ks: seq<Item>, i: nat)
    requires i < |ks|
    ensures LitUses(ks, LitSym(ks[i])) >= 1 && (ks[i].Back? ==> DistUses(ks, DistSym(ks[i])) >= 1)
  {
    hide LitSym, DistSym;
    if i < |ks| - 1 { UsesSome(ks[..|ks| - 1], i); }
  }
}
