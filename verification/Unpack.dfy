/** unpack of archive/gzip/unpack.c: what it makes of a packed file. */
module Unpack {
  import opened BitString
  import opened Canonical
  import opened UnpackTree
  import opened UnpackTable

  // ------------------------------------------------------------------------ bits

  /** The valid low bits of the buffer, and the bytes not read, are the stream. */
  ghost predicate Pends(bitbuf: nat, valid: nat, inp: seq<byte>, rest: seq<bool>) {
    valid <= 32 && rest == BitsOf(bitbuf, valid) + ByteBits(inp)
  }

  lemma {:induction false} LowShl(a: nat, b: nat, n: nat, v: nat)
    requires b < Pow2(n)
    ensures Low(Shl(a, n) + b, v + n) == Shl(Low(a, v), n) + b
  {
    if n > 0 {
      assert (Shl(a, n) + b) / 2 == Shl(a, n - 1) + b / 2;
      LowShl(a, b / 2, n - 1, v);
    }
  }

  /** bitbuf = (bitbuf << 8) | byte, in 32 bits. */
  lemma {:induction false} NextByte(bitbuf: nat, valid: nat, inp: seq<byte>, rest: seq<bool>)
    requires Pends(bitbuf, valid, inp, rest) && inp != [] && valid <= 24
    ensures Pends(Low(Or(Shl(bitbuf, 8), inp[0]), 32), valid + 8, inp[1..], rest)
  {
    hide Or, Shl, Low, BitsOf, ByteBits;
    var b, c := bitbuf, inp[0];
    Pow2Values();
    OrDisjoint(b, c, 8);
    var x := Shl(b, 8) + c;
    BitsOfLow(Low(x, 32), valid + 8);
    LowLow(x, valid + 8, 32);
    BitsOfLow(x, valid + 8);
    BitsConcat(b, valid, c, 8);
    BytesFirst(inp);
    assert (BitsOf(b, valid) + BitsOf(c, 8)) + ByteBits(inp[1..])
      == BitsOf(b, valid) + (BitsOf(c, 8) + ByteBits(inp[1..]));
  }

  lemma {:induction false} BytesFirst(inp: seq<byte>)
    requires inp != []
    ensures ByteBits(inp) == BitsOf(inp[0], 8) + ByteBits(inp[1..])
  {
  }

  /** (bitbuf >> (valid - bits)) & mask. */
  lemma {:induction false} Looked(bitbuf: nat, valid: nat, inp: seq<byte>, rest: seq<bool>, bits: nat)
    requires Pends(bitbuf, valid, inp, rest) && bits <= valid
    ensures bits <= |rest| && Low(Shr(bitbuf, valid - bits), bits) == Value(rest[..bits])
  {
    hide Shr, Low, BitsOf, ByteBits, Value;
    BitsSplit(bitbuf, bits, valid - bits);
    assert rest[..bits] == BitsOf(Shr(bitbuf, valid - bits), bits);
    ValueOfBits(Shr(bitbuf, valid - bits), bits);
  }

  lemma {:induction false} Skipped(bitbuf: nat, valid: nat, inp: seq<byte>, rest: seq<bool>, bits: nat)
    requires Pends(bitbuf, valid, inp, rest) && bits <= valid
    ensures bits <= |rest| && Pends(bitbuf, valid - bits, inp, rest[bits..])
  {
    hide Shr, Low, BitsOf, ByteBits;
    BitsSplit(bitbuf, bits, valid - bits);
    BitsOfLow(bitbuf, valid - bits);
  }

  class PackIn {
    var bitbuf: nat
    var valid: nat
    var inp: seq<byte>         // the bytes not read yet
    ghost var rest: seq<bool>  // the bits not skipped yet

    ghost predicate Valid()
      reads this
    {
      Pends(bitbuf, valid, inp, rest)
    }

    constructor (inp: seq<byte>)
      ensures Valid() && rest == ByteBits(inp)
    {
      bitbuf, valid, this.inp, rest := 0, 0, inp, ByteBits(inp);
      new;
      assert BitsOf(0, 0) == [];
    }

    /** look_bits: the next bits as a number, without skipping them; not ok at the end of the
        file. */
    method LookBits(bits: nat) returns (ok: bool, code: nat)
      requires Valid() && bits <= MAX_BITLEN
      modifies this`bitbuf, this`valid, this`inp
      ensures Valid() && rest == old(rest)
      ensures ok ==> bits <= |rest| && code == Value(rest[..bits]) && valid >= bits
      ensures !ok ==> |rest| < bits
      ensures valid >= old(valid)
    {
      hide Pends, Or, Shl, Shr, Low;
      while valid < bits
        invariant Valid() && rest == old(rest) && valid >= old(valid)
        decreases |inp|
      {
        if inp == [] {
          Short(bitbuf, valid, inp, rest);
          return false, 0;
        }
        NextByte(bitbuf, valid, inp, rest);
        bitbuf := Low(Or(Shl(bitbuf, 8), inp[0]), 32);
        inp := inp[1..];
        valid := valid + 8;
      }
      Looked(bitbuf, valid, inp, rest, bits);
      ok, code := true, Low(Shr(bitbuf, valid - bits), bits);
    }

    method SkipBits(bits: nat)
      requires Valid() && bits <= valid
      modifies this`valid, this`rest
      ensures Valid() && bits <= |old(rest)| && rest == old(rest)[bits..]
    {
      Skipped(bitbuf, valid, inp, rest, bits);
      valid := valid - bits;
      rest := rest[bits..];
    }
  }

  lemma {:induction false} Short(bitbuf: nat, valid: nat, inp: seq<byte>, rest: seq<bool>)
    requires Pends(bitbuf, valid, inp, rest) && inp == []
    ensures |rest| == valid
  {
  }

  // -------------------------------------------------------------------- decoding

  /** How unpack ends. */
  datatype End = Good | EndOfInput | BadData | Undefined

  /** The bits of a sequence of leaves. */
  ghost function LeavesBits(c: seq<nat>, m: nat, xs: seq<Leaf>): seq<bool>
    requires Full(c, m) && forall i :: 0 <= i < |xs| ==> LeafOk(c, m, xs[i])
  {
    if xs == [] then [] else LeafBits(c, m, xs[0]) + LeavesBits(c, m, xs[1..])
  }

  ghost predicate LeavesOk(c: seq<nat>, m: nat, xs: seq<Leaf>) { forall i :: 0 <= i < |xs| ==> LeafOk(c, m, xs[i]) }

  /** The end of the file has the last code of the last level. */
  function Eob(c: seq<nat>, m: nat): Leaf
    requires m < |c| && c[m] >= 1
  {
    Leaf(m, c[m] - 1)
  }

  /** Place of a leaf's literal. */
  function Place(c: seq<nat>, x: Leaf): nat
    requires 1 <= x.len <= |c|
  {
    Total(c, x.len - 1) + x.j
  }

  /** Literals are as many as leaves but for the end of the file. */
  lemma {:induction false} PlaceInRange(c: seq<nat>, m: nat, x: Leaf)
    requires m < |c| && c[m] >= 1 && LeafOk(c, m, x) && x != Eob(c, m)
    ensures Place(c, x) < Total(c, m) - 1
  {
    if x.len < m { TotalGrows(c, x.len, m - 1); }
  }

  lemma {:induction false} TotalGrows(c: seq<nat>, a: nat, b: nat)
    requires a <= b < |c|
    ensures Total(c, a) <= Total(c, b)
  {
    if a < b { TotalGrows(c, a, b - 1); }
  }

  /** The text of leaves, none of them the end of the file. */
  ghost predicate Literal(c: seq<nat>, m: nat, lit: seq<byte>, xs: seq<Leaf>, text: seq<byte>) {
    && |text| == |xs| && LeavesOk(c, m, xs)
    && forall i :: 0 <= i < |xs| ==> LiteralAt(c, lit, xs, text, i)
  }

  ghost predicate LiteralAt(c: seq<nat>, lit: seq<byte>, xs: seq<Leaf>, text: seq<byte>, i: nat)
    requires i < |xs| == |text|
  {
    1 <= xs[i].len <= |c| && Place(c, xs[i]) < |lit| && text[i] == lit[Place(c, xs[i])]
  }

  lemma {:induction false} LiteralMore(c: seq<nat>, m: nat, lit: seq<byte>, xs: seq<Leaf>, text: seq<byte>, x: Leaf)
    requires Literal(c, m, lit, xs, text) && LeafOk(c, m, x) && Place(c, x) < |lit|
    ensures Literal(c, m, lit, xs + [x], text + [lit[Place(c, x)]])
  {
    hide Place;
    forall i | 0 <= i < |xs| + 1 ensures LiteralAt(c, lit, xs + [x], text + [lit[Place(c, x)]], i) {
      if i < |xs| { assert LiteralAt(c, lit, xs, text, i); }
    }
  }

  lemma {:induction false} LeavesMore(c: seq<nat>, m: nat, xs: seq<Leaf>, x: Leaf)
    requires Full(c, m) && LeavesOk(c, m, xs) && LeafOk(c, m, x)
    ensures LeavesBits(c, m, xs + [x]) == LeavesBits(c, m, xs) + LeafBits(c, m, x)
  {
    hide LeafBits, Full;
    if xs == [] {
      assert [] + [x] == [x];
      assert [x][1..] == [];
    } else {
      LeavesMore(c, m, xs[1..], x);
      assert (xs + [x])[1..] == xs[1..] + [x];
      var a, b, d := LeafBits(c, m, xs[0]), LeavesBits(c, m, xs[1..]), LeafBits(c, m, x);
      assert a + (b + d) == (a + b) + d;
    }
  }

  /** The leaf the stream leads to, with zeros after its end. */
  ghost predicate LeadsTo(c: seq<nat>, m: nat, t: seq<bool>, x: Leaf)
    requires Full(c, m)
  {
    && LeafOk(c, m, x) && LeafBits(c, m, x) <= t
  }

  /** The tables of build_tree. */
  ghost predicate Tables(c: seq<nat>, m: nat, pb: nat, base: seq<int>, parents: seq<nat>, prefix: seq<nat>) {
    && Full(c, m) && pb == (if m < MAX_PEEK then m else MAX_PEEK) && BasesSet(base, parents, c, m, 1)
    && TableSet(prefix, c, pb, 0)
  }

  /** What is found in the stream is the leaf it starts with. */
  lemma {:induction false} FoundLeaf(c: seq<nat>, m: nat, t: seq<bool>, len: nat)
    requires Full(c, m) && 1 <= len <= |t| && WalkLen(c, m, t + Zeros(m), 1) == len
    ensures len <= m && SpareOf(c, len) <= Value(t[..len]) < SpareOf(c, len) + c[len]
    ensures LeadsTo(c, m, t, Leaf(len, Value(t[..len]) - SpareOf(c, len)))
  {
    hide SpareOf, Value, BitsOf;
    var z := t + Zeros(m);
    WalkFinds(c, m, z);
    assert z[..len] == t[..len];
    NodeFits(c, m, len);
    BitsOfValue(t[..len]);
    assert len == m ==> SpareOf(c, m) == 0;
  }

  /** No stream starts with two leaves. */
  lemma {:induction false} OneLeaf(c: seq<nat>, m: nat, t: seq<bool>, x: Leaf, y: Leaf)
    requires Full(c, m) && LeadsTo(c, m, t, x) && LeadsTo(c, m, t, y)
    ensures x == y
  {
    hide SpareOf, LeafBits, WalkLen;
    var z := t + Zeros(m);
    LeafWalk(c, m, x, z);
    LeafWalk(c, m, y, z);
  }

  /** The table gives the length the walk would, for any bits that follow. */
  lemma {:induction false} TableGives(c: seq<nat>, m: nat, pb: nat, prefix: seq<nat>, t: seq<bool>)
    requires Full(c, m) && pb <= m && pb >= 1 && TableSet(prefix, c, pb, 0) && pb <= |t|
    ensures Value(t[..pb]) < |prefix|
    ensures var w := WalkLen(c, m, t + Zeros(m), 1); prefix[Value(t[..pb])] == if w <= pb then w else 0
    ensures var w := WalkLen(c, m, t + Zeros(m), 1); w <= pb ==> Shr(Value(t[..pb]), pb - w) == Value(t[..w])
  {
    hide SpareOf, Value, TableLen, WalkLen, Shr;
    var z := t + Zeros(m);
    assert z[..pb] == t[..pb];
    TableWalk(c, m, z, pb, 1);
    var w := WalkLen(c, m, z, 1);
    if w <= pb { ValueShr(t, pb, w); }
  }

  lemma {:induction false} WalkRest(c: seq<nat>, m: nat, t: seq<bool>, j: nat, k: nat)
    requires 1 <= j <= k <= m < |c| && m <= |t| && k <= WalkLen(c, m, t, j)
    ensures WalkLen(c, m, t, k) == WalkLen(c, m, t, j)
    decreases k - j
  {
    hide SpareOf, Value;
    if j < k { WalkRest(c, m, t, j + 1, k); }
  }

  /** Whether a walk that has come so far stops. */
  lemma {:induction false} WalkTest(c: seq<nat>, m: nat, t: seq<bool>, len: nat)
    requires Full(c, m) && 1 <= len && m <= |t| && len <= WalkLen(c, m, t, 1)
    ensures len <= m
    ensures WalkLen(c, m, t, 1) == len <==> Value(t[..len]) >= SpareOf(c, len)
  {
    hide Value;
    WalkRest(c, m, t, 1, len);
  }

  ghost predicate CodeAt(c: seq<nat>, m: nat, t: seq<bool>, len: nat, peek: nat)
    requires Full(c, m)
  {
    1 <= len <= m && len <= |t| && WalkLen(c, m, t + Zeros(m), 1) == len && peek == Value(t[..len])
  }

  /** An inner node has two leaves below it. */
  lemma {:induction false} InnerBelow(c: seq<nat>, m: nat, k: nat)
    requires Full(c, m) && k <= m
    ensures 0 <= 2 * SpareOf(c, k) <= Total(c, m) - Total(c, k)
    decreases m - k
  {
    if k < m { InnerBelow(c, m, k + 1); }
  }

  /** Though codes may have more bits than the word peek, what is looked at fits in it: a walk that
      goes on has come to an inner node, and there are few of them. */
  lemma {:induction false} PeekFits(c: seq<nat>, m: nat, t: seq<bool>, len: nat)
    requires Full(c, m) && m <= |t| && 1 <= len <= m && len <= WalkLen(c, m, t, 1) && Total(c, m) < WORD
    ensures Value(t[..len]) < Total(c, m) && Low(Value(t[..len]), 16) == Value(t[..len])
  {
    hide Value, Total, SpareOf;
    ValueHalf(t, len);
    InnerBelow(c, m, len - 1);
    if len == 1 {
      TopTwo(c, m, t);
    } else {
      WalkTest(c, m, t, len - 1);
      assert Value(t[..len - 1]) < SpareOf(c, len - 1);
    }
    Pow2Values();
    LowOfSmall(Value(t[..len]), 16);
  }

  lemma {:induction false} TopTwo(c: seq<nat>, m: nat, t: seq<bool>)
    requires Full(c, m) && |t| >= 1
    ensures Value(t[..1]) < 2 * SpareOf(c, 0)
  {
    assert t[..1][..0] == [];
  }

  /** The next code: its length from the table, or by walking on where the table ends; peek has 16
      bits. */
  method NextCode(b: PackIn, ghost c: seq<nat>, m: nat, pb: nat, ghost base: seq<int>, parents: seq<nat>,
                  prefix: seq<nat>)
    returns (ok: bool, len: nat, peek: nat)
    requires b.Valid() && Tables(c, m, pb, base, parents, prefix) && Total(c, m) < WORD
    modifies b`bitbuf, b`valid, b`inp
    ensures b.Valid() && b.rest == old(b.rest)
    ensures ok ==> CodeAt(c, m, b.rest, len, peek) && len <= b.valid
    ensures !ok ==> |b.rest| < m
  {
    hide Pends, WalkLen, TableSet, Value, SpareOf, Shr, Low, Total;
    len := 0;
    ghost var t := b.rest;
    ok, peek := b.LookBits(pb);
    if !ok { return; }
    FirstFits(t, pb);
    peek := Low(peek, 16);
    TableGives(c, m, pb, prefix, t);
    len := prefix[peek];
    if len > 0 {
      peek := Shr(peek, pb - len);
    } else {
      len := pb;
      var parent := true;
      while parent
        invariant pb <= len <= m && b.Valid() && b.rest == t && (parent ==> len < WalkLen(c, m, t + Zeros(m), 1))
        invariant !parent ==> CodeAt(c, m, t, len, peek) && len <= b.valid
        decreases parent, m - len
      {
        len := len + 1;
        ok, peek := b.LookBits(len);
        if !ok { return; }
        WalkTest(c, m, t + Zeros(m), len);
        assert (t + Zeros(m))[..len] == t[..len];
        PeekFits(c, m, t + Zeros(m), len);
        peek := Low(peek, 16);
        ParentsAt(base, parents, c, m, len);
        parent := peek < parents[len];
      }
    }
  }

  lemma {:induction false} FirstFits(t: seq<bool>, pb: nat)
    requires pb <= MAX_PEEK && pb <= |t|
    ensures Low(Value(t[..pb]), 16) == Value(t[..pb])
  {
    BitsOfValue(t[..pb]);
    Pow2Monotone(pb, 16);
    LowOfSmall(Value(t[..pb]), 16);
  }

  lemma {:induction false} ParentsAt(base: seq<int>, parents: seq<nat>, c: seq<nat>, m: nat, len: nat)
    requires BasesSet(base, parents, c, m, 1) && 1 <= len <= m
    ensures len < |parents| && parents[len] == SpareOf(c, len) && base[len] == Total(c, len - 1) - SpareOf(c, len)
  {
    hide SpareOf, Total;
  }

  // ---------------------------------------------------------------- the decode loop

  /** The stream is the leaves and the end of the file, and whatever follows. */
  ghost predicate Packed(c: seq<nat>, m: nat, t: seq<bool>, xs: seq<Leaf>, tail: seq<bool>) {
    Full(c, m) && LeavesOk(c, m, xs) && (forall i :: 0 <= i < |xs| ==> xs[i] != Eob(c, m))
      && t == LeavesBits(c, m, xs) + (LeafBits(c, m, Eob(c, m)) + tail)
  }

  /** The next leaf of a packed stream. */
  lemma {:induction false} PackedNext(c: seq<nat>, m: nat, t: seq<bool>, xs: seq<Leaf>, tail: seq<bool>, x: Leaf)
    requires Packed(c, m, t, xs, tail) && LeadsTo(c, m, t, x)
    ensures x == if xs == [] then Eob(c, m) else xs[0]
    ensures xs != [] ==> Packed(c, m, t[x.len..], xs[1..], tail)
  {
    hide LeafBits;
    var e := LeafBits(c, m, Eob(c, m)) + tail;
    if xs == [] {
      assert t == e;
      OneLeaf(c, m, t, x, Eob(c, m));
    } else {
      assert t == LeafBits(c, m, xs[0]) + (LeavesBits(c, m, xs[1..]) + e);
      OneLeaf(c, m, t, x, xs[0]);
    }
  }

  lemma {:induction false} PackedLong(c: seq<nat>, m: nat, t: seq<bool>, xs: seq<Leaf>, tail: seq<bool>)
    ensures Packed(c, m, t, xs, tail) ==> |t| >= m
  {
    hide LeavesBits, LeafBits;
  }

  /** The leaf that a code is, and where its literal stands. */
  lemma {:induction false} CodeLeaf(c: seq<nat>, m: nat, pb: nat, base: seq<int>, parents: seq<nat>, prefix: seq<nat>,
                                    t: seq<bool>, len: nat, peek: nat)
    returns (x: Leaf)
    requires Tables(c, m, pb, base, parents, prefix) && CodeAt(c, m, t, len, peek)
    ensures LeadsTo(c, m, t, x) && x.len == len && LeafBits(c, m, x) == t[..len] && len < |base|
    ensures peek + base[len] == Place(c, x)
    ensures x == Eob(c, m) <==> len == m && peek == c[m] - 1
  {
    hide SpareOf, WalkLen, Value, TableSet;
    FoundLeaf(c, m, t, len);
    x := Leaf(len, Value(t[..len]) - SpareOf(c, len));
    ParentsAt(base, parents, c, m, len);
    assert LeafBits(c, m, x) == t[..len];
  }

  /** The decode loop of unpack.  What it writes are the literals of the leaves the stream starts
      with, up to the end of the file; and if the stream is leaves and an end, these leaves, for
      then enough bits to look at are never missing. */
  method DecodeLoop(b: PackIn, c: seq<nat>, m: nat, pb: nat, base: seq<int>, parents: seq<nat>, prefix: seq<nat>,
                    lit: seq<byte>, ghost xs0: seq<Leaf>, ghost tail: seq<bool>)
    returns (end: End, out: seq<byte>, ghost xs: seq<Leaf>)
    requires b.Valid() && Tables(c, m, pb, base, parents, prefix) && |lit| == Total(c, m) - 1
    requires |lit| + 1 < WORD
    modifies b
    ensures b.Valid() && (end == Good || end == EndOfInput)
    ensures end == Good ==> Literal(c, m, lit, xs, out) && m <= |b.rest| && Packed(c, m, old(b.rest), xs, b.rest[m..])
    ensures Packed(c, m, old(b.rest), xs0, tail) ==> end == Good && xs == xs0
  {
    hide Pends, TableSet, BasesSet, CodeAt, LeafBits, LeavesBits, Place, SpareOf, Total, Literal, LeavesOk;
    ghost var t0 := b.rest;
    out, xs := [], [];
    LoopStart(c, m, lit, t0, xs0, tail);
    while true
      invariant b.Valid() && Literal(c, m, lit, xs, out) && Decoded(c, m, t0, xs, b.rest) && |xs| == |out|
      invariant Packed(c, m, t0, xs0, tail) ==>
                |xs| <= |xs0| && xs == xs0[..|xs|] && Packed(c, m, b.rest, xs0[|xs|..], tail)
      decreases |b.rest|
    {
      ghost var t := b.rest;
      ghost var left := if |xs| <= |xs0| then xs0[|xs|..] else [];
      var ok, len, peek := NextCode(b, c, m, pb, base, parents, prefix);
      if !ok {
        PackedLong(c, m, t, left, tail);
        end := EndOfInput;
        return;
      }
      ghost var x := CodeLeaf(c, m, pb, base, parents, prefix, t, len, peek);
      if Packed(c, m, t0, xs0, tail) { PackedNext(c, m, t, xs0[|xs|..], tail, x); }
      if peek == c[m] - 1 && len == m {
        LoopEnd(c, m, t0, xs, t);
        end := Good;
        return;
      }
      LeafRange(c, m, lit, t, x);
      LoopStep(c, m, lit, t0, xs, t, x, out);
      out := out + [lit[peek + base[len]]];
      xs := xs + [x];
      b.SkipBits(len);
    }
  }

  /** xs, none of them the end, have been decoded, and t is left. */
  ghost predicate Decoded(c: seq<nat>, m: nat, t0: seq<bool>, xs: seq<Leaf>, t: seq<bool>)
  {
    Full(c, m) && LeavesOk(c, m, xs) && (forall i :: 0 <= i < |xs| ==> xs[i] != Eob(c, m))
      && t0 == LeavesBits(c, m, xs) + t
  }

  lemma {:induction false} LoopStart(c: seq<nat>, m: nat, lit: seq<byte>, t0: seq<bool>, xs0: seq<Leaf>,
                                     tail: seq<bool>)
    requires Full(c, m)
    ensures Literal(c, m, lit, [], []) && Decoded(c, m, t0, [], t0) && xs0[..0] == [] && xs0[0..] == xs0
  {
    assert [] + t0 == t0;
  }

  lemma {:induction false} LeafRange(c: seq<nat>, m: nat, lit: seq<byte>, t: seq<bool>, x: Leaf)
    requires Full(c, m) && LeadsTo(c, m, t, x) && x != Eob(c, m) && |lit| == Total(c, m) - 1
    ensures Place(c, x) < |lit| && LeafOk(c, m, x)
  {
    hide Place, Total;
    PlaceInRange(c, m, x);
  }

  lemma {:induction false} LoopStep(c: seq<nat>, m: nat, lit: seq<byte>, t0: seq<bool>, xs: seq<Leaf>, t: seq<bool>,
                                    x: Leaf, out: seq<byte>)
    requires Literal(c, m, lit, xs, out) && Decoded(c, m, t0, xs, t) && LeadsTo(c, m, t, x) && x != Eob(c, m)
    requires Place(c, x) < |lit|
    ensures x.len <= |t| && Literal(c, m, lit, xs + [x], out + [lit[Place(c, x)]])
    ensures Decoded(c, m, t0, xs + [x], t[x.len..])
  {
    hide Place, LeafBits, LeavesBits;
    LiteralMore(c, m, lit, xs, out, x);
    LeavesMore(c, m, xs, x);
    assert t == LeafBits(c, m, x) + t[x.len..];
    assert (LeavesBits(c, m, xs) + LeafBits(c, m, x)) + t[x.len..] == LeavesBits(c, m, xs) + t;
  }

  lemma {:induction false} LoopEnd(c: seq<nat>, m: nat, t0: seq<bool>, xs: seq<Leaf>, t: seq<bool>)
    requires Decoded(c, m, t0, xs, t) && LeadsTo(c, m, t, Eob(c, m))
    ensures m <= |t| && Packed(c, m, t0, xs, t[m..])
  {
    hide LeafBits, LeavesBits;
    assert t == LeafBits(c, m, Eob(c, m)) + t[m..];
  }
}
