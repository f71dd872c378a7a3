/** Decode of archive/lharc/lzhuf.c, on any file: it reads exactly the bits of some token
    sequence and writes that sequence's text. */
module LzhufDecode {
  import opened BitString
  import opened Lz
  import opened LzhufBits
  import opened LzhufKeys
  import opened LzhufPosition
  import opened LzhufFormat
  import opened LzhufHuffman
  import LT = LzhufTree

  const BLANKS: nat := N - F // the window starts with this many spaces

  function Blank(): (s: seq<byte>)
    ensures |s| == BLANKS && forall i :: 0 <= i < BLANKS ==> s[i] == 32
  {
    seq(BLANKS, i => 32)
  }

  /** The ring holds the last N bytes of the history h, the byte at q in slot q % N. */
  ghost predicate Ring(text: seq<byte>, h: seq<byte>) {
    N <= |text| && N <= |h| && forall q :: |h| - N <= q < |h| ==> text[q % N] == h[q]
  }

  lemma {:induction false} RingPut(text: seq<byte>, h: seq<byte>, c: byte)
    requires Ring(text, h)
    ensures Ring(text[|h| % N := c], h + [c])
  {
  }

  /** (r - d) & (N - 1) is the slot of the byte d back. */
  lemma {:induction false} RingAt(text: seq<byte>, h: seq<byte>, d: nat)
    requires Ring(text, h) && 1 <= d <= N
    ensures text[(|h| % N + N - d) % N] == h[|h| - d]
  {
    assert (|h| % N + N - d) % N == (|h| - d) % N;
  }

  /** Write one byte to the window. */
  method PutByte(text_buf: array<byte>, r: nat, c: byte, ghost h: seq<byte>) returns (r': nat)
    requires text_buf.Length >= N && Ring(text_buf[..], h) && r == |h| % N
    modifies text_buf
    ensures Ring(text_buf[..], h + [c]) && r' == |h + [c]| % N
  {
    RingPut(text_buf[..], h, c);
    ghost var t := text_buf[..];
    text_buf[r] := c;
    assert text_buf[..] == t[r := c];
    r' := (r + 1) % N;
  }

  /** Copy len bytes from pos + 1 back, byte by byte around the ring. */
  method CopyMatch(text_buf: array<byte>, r: nat, pos: nat, len: nat, ghost h: seq<byte>)
    returns (r': nat, out: seq<byte>)
    requires text_buf.Length >= N && Ring(text_buf[..], h) && r == |h| % N && pos < N
    modifies text_buf
    ensures |h| >= N && h + out == Copy(h, len, pos + 1)
    ensures Ring(text_buf[..], h + out) && r' == |h + out| % N
  {
    hide Ring, Copy;
    RingLong(text_buf[..], h);
    var i := (r + N - pos - 1) % N;
    r', out := r, [];
    ghost var g := h;
    var k := 0;
    while k < len
      invariant k <= len && Ring(text_buf[..], g) && r' == |g| % N
      invariant g == h + out && |out| == k
      invariant Copy(g, len - k, pos + 1) == Copy(h, len, pos + 1)
    {
      RingAt(text_buf[..], g, pos + 1);
      SlotOfCopy(|h|, k, pos);
      var c := text_buf[(i + k) % N];
      CopyUnfold(g, len - k, pos + 1);
      r' := PutByte(text_buf, r', c, g);
      g, out := g + [c], out + [c];
      k := k + 1;
    }
    CopyDone(g, pos + 1);
  }

  lemma {:induction false} RingLong(text: seq<byte>, h: seq<byte>)
    requires Ring(text, h)
    ensures |h| >= N
  {
  }

  lemma {:induction false} SlotOfCopy(n: nat, k: nat, pos: nat)
    requires pos < N <= n
    ensures ((n % N + N - pos - 1) % N + k) % N == ((n + k) % N + N - (pos + 1)) % N
  {
    var m := n + k - pos - 1;
    assert (n % N + N - pos - 1) % N == (n - pos - 1) % N;
    assert ((n - pos - 1) % N + k) % N == m % N;
    assert ((n + k) % N + N - (pos + 1)) % N == m % N;
  }

  /** The history Decode starts from: spaces, after whatever the buffer held. */
  ghost function History(garbage: seq<byte>): (h: seq<byte>)
    requires |garbage| == F
    ensures |h| == N + BLANKS
  {
    seq(N - F, i => 0) + garbage + Blank()
  }

  /** Fill the window with spaces up to N - F. */
  method Blanken(text_buf: array<byte>)
    requires text_buf.Length >= N
    modifies text_buf
    ensures Ring(text_buf[..], History(old(text_buf[BLANKS..N])))
  {
    var i := 0;
    while i < BLANKS
      invariant i <= BLANKS
      invariant forall q :: 0 <= q < i ==> text_buf[q] == 32
      invariant forall q :: BLANKS <= q < text_buf.Length ==> text_buf[q] == old(text_buf[q])
    {
      text_buf[i] := 32;
      i := i + 1;
    }
    ghost var h := History(old(text_buf[BLANKS..N]));
    forall q | |h| - N <= q < |h| ensures text_buf[..][q % N] == h[q] {
      if q < N { assert q % N == q; } else { assert q % N == q - N; }
    }
  }

  /** The tokens toks were read from the file and make the output. */
  ghost predicate Decoded(bits: seq<bool>, h0: seq<byte>, toks: seq<Token>, out: seq<byte>, rest: seq<bool>) {
    && LT.Valid(LT.Start()) && TokensOk(toks) && AllReach(|h0|, toks)
    && Reads(bits, StreamBits(LT.Start(), toks), rest)
    && Text(h0, toks) == h0 + out
  }

  /** Reading one more token. */
  lemma {:induction false} DecodedSnoc(bits: seq<bool>, h0: seq<byte>, toks: seq<Token>, out: seq<byte>,
                                       rest: seq<bool>,
                                       k: Token, out': seq<byte>, rest': seq<bool>)
    requires Decoded(bits, h0, toks, out, rest) && Reaches(|h0 + out|, k)
    requires Reads(rest, TokenBits(TreeAfter(LT.Start(), toks), k), rest')
    requires h0 + out' == Apply(h0 + out, k)
    ensures Decoded(bits, h0, toks + [k], out', rest')
    ensures TreeAfter(LT.Start(), toks + [k]) == LT.Update(TreeAfter(LT.Start(), toks), Sym(k))
  {
    hide LT.Valid, LT.Start, TokenBits, Apply, StreamBits, Text, Reads;
    StreamSnoc(LT.Start(), toks, k);
    TextSnoc(h0, toks, k);
    ReadsThen(bits, StreamBits(LT.Start(), toks), rest, TokenBits(TreeAfter(LT.Start(), toks), k), rest');
  }

  /** Decode and write one token. */
  method DecodeToken(text_buf: array<byte>, h: Huff, inp: BitIn, r: nat, ghost hist: seq<byte>)
    returns (r': nat, out: seq<byte>, ghost k: Token)
    requires text_buf.Length >= N && h.Valid() && inp.Valid()
    requires Ring(text_buf[..], hist) && r == |hist| % N
    modifies text_buf, h.freq, h.prnt, h.son, inp
    ensures h.Valid() && inp.Valid() && Reaches(|hist|, k)
    ensures Reads(old(inp.rest), TokenBits(old(h.Now()), k), inp.rest)
    ensures h.Now() == LT.Update(old(h.Now()), Sym(k))
    ensures hist + out == Apply(hist, k)
    ensures Ring(text_buf[..], hist + out) && r' == |hist + out| % N
  {
    hide LT.Valid, LT.CharCode, LT.Update, Reads, At, Ring, PosCode, Waits, Copy;
    RingLong(text_buf[..], hist);
    ghost var t, b0 := h.Now(), inp.rest;
    LT.TreeParts(t);
    var c := h.DecodeChar(inp);
    if c < 256 {
      k := Lit(c);
      assert LT.CharCode(t, c) + [] == LT.CharCode(t, c);
      r' := PutByte(text_buf, r, c, hist);
      out := [c];
    } else {
      ghost var b1 := inp.rest;
      var pos := DecodePosition(inp);
      ReadsThen(b0, LT.CharCode(t, c), b1, PosCode(pos), inp.rest);
      var j := c - 255 + THRESHOLD;
      k := Match(j, pos);
      r', out := CopyMatch(text_buf, r, pos, j, hist);
    }
  }

  /** Decode. */
  method Decode(text_buf: array<byte>, h: Huff, file: seq<byte>, textsize: nat)
    returns (out: seq<byte>, ghost toks: seq<Token>, ghost rest: seq<bool>)
    requires text_buf.Length >= N && h.Shaped()
    modifies text_buf, h.freq, h.prnt, h.son
    ensures Decoded(ByteBits(file), History(old(text_buf[BLANKS..N])), toks, out, rest)
    ensures |out| >= textsize
    ensures toks == [] || |out| < textsize + Size(toks[|toks| - 1])
  {
    hide LT.Valid, LT.Update, Ring, Waits, Apply, TokenBits, Reads, ByteBits, Decoded, TreeAfter;
    h.StartHuff();
    var inp := new BitIn(file);
    ghost var h0 := History(text_buf[BLANKS..N]);
    Blanken(text_buf);
    var r := BLANKS;
    var count := 0;
    out, toks := [], [];
    NothingDecoded(inp.rest, h0);
    while count < textsize
      invariant h.Valid() && inp.Valid() && count == |out|
      invariant Decoded(ByteBits(file), h0, toks, out, inp.rest)
      invariant LT.Valid(LT.Start()) && TokensOk(toks) && h.Now() == TreeAfter(LT.Start(), toks)
      invariant Ring(text_buf[..], h0 + out) && r == |h0 + out| % N
      invariant toks == [] || |out| < textsize + Size(toks[|toks| - 1])
      decreases textsize - count
    {
      ghost var rest0, out0 := inp.rest, out;
      var o: seq<byte>;
      ghost var k: Token;
      r, o, k := DecodeToken(text_buf, h, inp, r, h0 + out);
      assert h0 + (out0 + o) == (h0 + out0) + o;
      TokenSize(h0 + out0, o, k);
      DecodedParts(ByteBits(file), h0, toks, out0, rest0);
      DecodedSnoc(ByteBits(file), h0, toks, out0, rest0, k, out0 + o, inp.rest);
      out := out + o;
      toks := toks + [k];
      count := count + |o|;
    }
    rest := inp.rest;
  }

  lemma {:induction false} NothingDecoded(bits: seq<bool>, h0: seq<byte>)
    ensures Decoded(bits, h0, [], [], bits)
    ensures LT.Valid(LT.Start()) && TreeAfter(LT.Start(), []) == LT.Start() && h0 + [] == h0
  {
    LT.StartValid();
    ReadsNothing(bits);
  }

  lemma {:induction false} DecodedParts(bits: seq<bool>, h0: seq<byte>, toks: seq<Token>, out: seq<byte>,
                                        rest: seq<bool>)
    requires Decoded(bits, h0, toks, out, rest)
    ensures LT.Valid(LT.Start()) && TokensOk(toks)
  {
  }

  lemma {:induction false} TokenSize(h: seq<byte>, o: seq<byte>, k: Token)
    requires Reaches(|h|, k) && h + o == Apply(h, k)
    ensures |o| == Size(k) && |o| >= 1
  {
  }
}
