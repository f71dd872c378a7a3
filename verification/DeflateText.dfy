/** What deflate of archive/gzip/deflate.c hands on: literals and true earlier copies that spell
    the text, and blocks that spell it once more. */
module DeflateText {
  import opened BitString
  import opened Lz
  import opened InflateFormat
  import opened TreesFlush
  import InflateBlocks

  const WSIZE: nat := 0x4000
  const MIN_MATCH: nat := 3
  const MAX_MATCH: nat := 258
  const MIN_LOOKAHEAD: nat := 262
  const MAX_DIST: nat := WSIZE - MIN_LOOKAHEAD

  function ItemLen(k: Item): nat {
    match k
    case Lit(_) => 1
    case Back(len, _) => len
  }

  /** The len bytes of the text from at on repeat those dist back. */
  ghost predicate TrueCopy(text: seq<byte>, at: nat, len: nat, dist: nat) {
    MIN_MATCH <= len <= MAX_MATCH && 1 <= dist <= MAX_DIST && Repeats(text, at, at + len, dist)
  }

  /** The item is what the text says at that place. */
  ghost predicate Tells(text: seq<byte>, at: nat, k: Item) {
    match k
    case Lit(b) => at < |text| && text[at] == b
    case Back(len, dist) => TrueCopy(text, at, len, dist)
  }

  /** The look at an item's place found this much, with so much at hand from the place before; and
      the look at the next place. */
  datatype View = View(prior: nat, found: nat, next: nat)

  /** A block: its items, the part of the input they spell, and whether that is still in the window;
      the bits sent, those of a dynamic block, and what the bits read as. */
  datatype Cut = Cut(ks: seq<Item>, from: nat, to: nat, here: bool, bits: seq<bool>, dyn: seq<bool>, body: Body)

  /** Where the items end that start at a. */
  function Reach(a: nat, ks: seq<Item>): nat
    decreases |ks|
  {
    if ks == [] then a else Reach(a + ItemLen(ks[0]), ks[1..])
  }

  ghost predicate Parses(text: seq<byte>, a: nat, ks: seq<Item>)
    decreases |ks|
  {
    ks == [] || (Tells(text, a, ks[0]) && Parses(text, a + ItemLen(ks[0]), ks[1..]))
  }

  lemma {:induction false} ParsesMore(text: seq<byte>, a: nat, ks: seq<Item>, k: Item)
    requires Parses(text, a, ks) && Tells(text, Reach(a, ks), k)
    ensures Parses(text, a, ks + [k]) && Reach(a, ks + [k]) == Reach(a, ks) + ItemLen(k)
    decreases |ks|
  {
    hide Tells;
    if ks == [] {
      assert [] + [k] == [k];
      assert [k][1..] == [];
    } else {
      assert (ks + [k])[1..] == ks[1..] + [k];
      ParsesMore(text, a + ItemLen(ks[0]), ks[1..], k);
    }
  }

  /** An item put after the text before it makes the text after it. */
  lemma {:induction false} PutTells(h: seq<byte>, text: seq<byte>, a: nat, k: Item)
    requires |h| >= 0x8000 && a <= |text| && Tells(text, a, k)
    ensures ItemOk(k) && a + ItemLen(k) <= |text| && Put(h + text[..a], k) == h + text[..a + ItemLen(k)]
  {
    match k
    case Lit(b) =>
      assert text[..a + 1] == text[..a] + [b];
      assert (h + text[..a]) + [b] == h + text[..a + 1];
    case Back(len, dist) =>
      CopyAfter(h, text[..a], len, dist);
      CopyRepeats(text, a, len, dist);
  }

  /** What the items spell is the text. */
  lemma {:induction false} PutParses(h: seq<byte>, text: seq<byte>, a: nat, ks: seq<Item>)
    requires |h| >= 0x8000 && a <= |text| && Parses(text, a, ks)
    ensures ItemsOk(ks) && a <= Reach(a, ks) <= |text| && PutAll(h + text[..a], ks) == h + text[..Reach(a, ks)]
    decreases |ks|
  {
    hide Put, Tells, ItemOk;
    if ks != [] {
      PutTells(h, text, a, ks[0]);
      PutParses(h, text, a + ItemLen(ks[0]), ks[1..]);
    }
  }

  /** A block of these items, or of these bytes, appends the text. */
  lemma {:induction false} BodyText(h: seq<byte>, text: seq<byte>, a: nat, b: nat, ks: seq<Item>, body: Body,
                                    here: bool, buf: seq<byte>)
    requires |h| >= 0x8000 && a <= b <= |text| && Parses(text, a, ks) && Reach(a, ks) == b
    requires BodyOf(body, here, buf, ks) && (here ==> buf == text[a..b])
    ensures BodyOk(body) && Append(h + text[..a], body) == h + text[..b]
  {
    hide Parses, Reach, PutAll;
    PutParses(h, text, a, ks);
    if body.Stored? {
      assert text[..b] == text[..a] + text[a..b];
      assert (h + text[..a]) + text[a..b] == h + text[..b];
    }
  }

  // -------------------------------------------------------------------- streams

  /** A stream that begins with sent begins with the blocks bs, none of them the last, if it
      ends on a byte boundary. */
  ghost predicate Leads(sent: seq<bool>, bs: seq<Body>) {
    forall t: seq<bool> :: (|sent| + |t|) % 8 == 0 ==> Blocks(sent + t) == InflateBlocks.BodyResume(bs, Blocks(t))
  }

  lemma {:induction false} LeadsNone()
    ensures Leads([], [])
  {
    hide Blocks;
    forall t: seq<bool> ensures Blocks([] + t) == InflateBlocks.BodyResume([], Blocks(t)) {
      assert [] + t == t;
      if Blocks(t).Done? { assert [] + Blocks(t).v == Blocks(t).v; }
    }
  }

  /** The first block of a stream. */
  lemma {:induction false} FirstBlock(bits: seq<bool>, last: bool, body: Body, total: nat, t: seq<bool>)
    requires ReadsAs(bits, last, body, total) && (total + |t|) % 8 == 0
    ensures Blocks(bits + t) == if last then Done([body], t) else ConsBody(body, Blocks(t))
    ensures BodyOk(body)
  {
    hide OneBlock;
    OneBlockOk(bits + t);
  }

  lemma {:induction false} LeadsMore(sent: seq<bool>, bs: seq<Body>, bits: seq<bool>, body: Body)
    requires Leads(sent, bs) && ReadsAs(bits, false, body, |sent| + |bits|)
    ensures Leads(sent + bits, bs + [body])
  {
    hide Blocks, ReadsAs;
    forall t: seq<bool> | (|sent + bits| + |t|) % 8 == 0
      ensures Blocks((sent + bits) + t) == InflateBlocks.BodyResume(bs + [body], Blocks(t))
    {
      assert (sent + bits) + t == sent + (bits + t);
      FirstBlock(bits, false, body, |sent| + |bits|, t);
      if Blocks(t).Done? { assert bs + ([body] + Blocks(t).v) == (bs + [body]) + Blocks(t).v; }
    }
  }

  lemma {:induction false} LeadsLast(sent: seq<bool>, bs: seq<Body>, bits: seq<bool>, body: Body, t: seq<bool>)
    requires Leads(sent, bs) && ReadsAs(bits, true, body, |sent| + |bits|) && (|sent| + |bits| + |t|) % 8 == 0
    ensures Blocks((sent + bits) + t) == Done(bs + [body], t)
  {
    hide Blocks, ReadsAs;
    assert (sent + bits) + t == sent + (bits + t);
    FirstBlock(bits, true, body, |sent| + |bits|, t);
  }
}
