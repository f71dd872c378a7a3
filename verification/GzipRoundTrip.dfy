/** What inflate of archive/gzip/inflate.c makes of what deflate of archive/gzip/deflate.c wrote. */
module GzipRoundTrip {
  import opened BitString
  import opened GzipBits
  import opened InflateFormat
  import opened InflateLookup
  import opened InflateBlocks
  import opened DeflateText
  import opened DeflateWindow
  import opened TreesFlush
  import opened Deflate
  import opened DeflateLazy

  /** Whatever blocks inflate reads there, they spell the input. */
  lemma {:induction false} SpelledOnce(sent: seq<bool>, h: seq<byte>, input: seq<byte>, pad: seq<bool>, t: seq<bool>,
                                       text: seq<byte>)
    requires Deflated(sent, h, input, pad) && |t| % 8 == 0
    ensures Blocks(sent + t).Done? && Blocks(sent + t).rest == pad + t
    ensures Inflated(sent + t, h, text) ==> text == input
  {
    hide Blocks, AppendAll;
    assert Spells(sent + t, h, input, pad + t);
    var bs: seq<Body> :| Blocks(sent + t) == Done(bs, pad + t) && |h| >= 0x8000 && BodiesOk(bs)
        && AppendAll(h, bs) == h + input;
    if Inflated(sent + t, h, text) {
      assert (h + text)[|h|..] == text && (h + input)[|h|..] == input;
    }
  }

  /** No input is lost: with bytes after it, as the check sum and the length are in a gzip file,
      whatever deflate wrote inflates to the input, and inflate stops right before those bytes. */
  lemma {:induction false} InflatesTo(out: Outcome, file: seq<byte>, packed: seq<byte>, trailer: seq<byte>,
                                      h: seq<byte>, text: seq<byte>, inptr: nat,
                                      input: seq<byte>, pad: seq<bool>)
    requires Deflated(ByteLsb(packed), h, input, pad) && file == packed + trailer && |trailer| >= 3
    requires out.Fine? ==> Inflated(ByteLsb(file), h, text)
    requires out.Fine? ==>
              inptr <= |file| && 8 * (|file| - inptr) <= |Blocks(ByteLsb(file)).rest| < 8 * (|file| - inptr) + 8
    requires out.EndOfFile? ==> AllShort(Blocks(ByteLsb(file)))
    requires out.Failed? || out.Undefined? ==> Blocks(ByteLsb(file)) == Wrong
    ensures out.Fine? && text == input && inptr == |packed|
  {
    hide Blocks, AppendAll, ByteLsb, Inflated, Deflated;
    ByteLsbAppend(packed, trailer);
    SpelledOnce(ByteLsb(packed), h, input, pad, ByteLsb(trailer), text);
    assert |pad| < 8 by { PadShort(ByteLsb(packed), h, input, pad); }
  }

  lemma {:induction false} PadShort(sent: seq<bool>, h: seq<byte>, input: seq<byte>, pad: seq<bool>)
    requires Deflated(sent, h, input, pad)
    ensures |pad| < 8
  {
  }

  /** Pack the input, at any level and however it is read, and unpack it again with trailing
      bytes after it and any window to start with. */
  method RoundTrip(input: seq<byte>, step: nat -> nat, level: nat, trailer: seq<byte>, slide: array<byte>)
    returns (text: seq<byte>, inptr: nat, packed: seq<byte>)
    requires 1 <= level <= 9 && |trailer| >= 3 && slide.Length == 0x8000
    modifies slide
    ensures text == input && inptr == |packed| && Packs(input, level, old(slide[..]), packed)
  {
    hide Deflated, Told, Lazily, Ended, ConfigurationTable, Inflated, AllShort, Blocks, ByteLsb, GzipBits.Holds,
         Trees.Valid, Deflater.Valid;
    ghost var h: seq<byte> := slide[..];
    packed := Pack(input, step, level, h);
    ghost var all: seq<Item>, steps: seq<View>, cuts: seq<Cut>, pad: seq<bool> :|
      PacksBy(input, level, h, packed, all, steps, cuts, pad);
    var out;
    ghost var back;
    out, text, inptr, back := Inflate(slide, packed + trailer);
    InflatesTo(out, packed + trailer, packed, trailer, h, text, inptr, input, pad);
  }

  /** The bytes are what the level makes of the input: its items, the looks that led to them, and the
      blocks they went to. */
  ghost predicate PacksBy(input: seq<byte>, level: nat, h: seq<byte>, packed: seq<byte>, all: seq<Item>,
                          steps: seq<View>, cuts: seq<Cut>, pad: seq<bool>)
    requires 1 <= level <= 9
  {
    && Deflated(ByteLsb(packed), h, input, pad) && Told(input, all, |input|)
    && Lazily(input, ConfigurationTable()[level], all, steps, |input|)
    && Ended(input, level, cuts, ByteLsb(packed), all, pad)
  }

  ghost predicate Packs(input: seq<byte>, level: nat, h: seq<byte>, packed: seq<byte>)
    requires 1 <= level <= 9
  {
    exists all: seq<Item>, steps: seq<View>, cuts: seq<Cut>, pad: seq<bool> ::
      PacksBy(input, level, h, packed, all, steps, cuts, pad)
  }

  /** deflate and what has to be set up for it. */
  method Pack(input: seq<byte>, step: nat -> nat, level: nat, ghost h: seq<byte>) returns (packed: seq<byte>)
    requires 1 <= level <= 9 && |h| >= 0x8000
    ensures Packs(input, level, h, packed)
  {
    hide Deflated, ByteLsb, GzipBits.Holds, Trees.Valid, Deflater.Valid, Told, Lazily, Ended, ConfigurationTable;
    var src := new Source(input, step);
    var d := new Deflater(src, level);
    var t := new Trees();
    var w := new BitSink();
    d.matchStart := 0;
    d.LmInit();
    var bytes;
    ghost var pad;
    bytes, pad := DeflateAll(d, t, w, level, h);
    packed := w.out;
    assert PacksBy(input, level, h, packed, t.tally.all, d.looks.steps, d.looks.cuts, pad);
  }
}
