/** Encode of archive/lharc/lzhuf.c, and the round trip with Decode. */
module LzhufEncode {
  import opened BitString
  import opened Lz
  import opened LzhufBits
  import opened LzhufKeys
  import opened LzhufPosition
  import opened LzhufFormat
  import opened LzhufHuffman
  import opened LzhufMatch
  import opened LzhufDecode
  import opened LzhufWindow
  import LT = LzhufTree

  /** The encoder stands at byte a, having read e bytes; match_length and match_position tell
      what to send. */
  ghost predicate Standing(m: Matcher, full: seq<byte>, a: nat, e: nat)
    reads m, m.text_buf, m.lson, m.rson, m.dad, m.same
  {
    && m.Shaped() && m.Valid() && Window(m.text_buf[..], full, e) && Near(m.live, a)
    && BLANKS <= a <= e <= a + F
    && (a < e ==>
          Offer(full, a, e, m.match_length, m.match_position) && NoneBefore(full, a, e, m.match_length)
          && Covered(m.live, m.Strings(), a, a + 1))
  }

  /** InsertNode(r), at the new place a. */
  method Enter(m: Matcher, ghost full: seq<byte>, ghost a: nat, ghost e: nat, r: nat)
    requires m.Shaped() && m.Valid() && Window(m.text_buf[..], full, e) && Near(m.live, a) && BLANKS <= a <= e <= a + F
    requires r == a % N && r !in m.live && Covered(m.live, m.Strings(), a, a)
    modifies m, m.lson, m.rson, m.dad, m.same
    ensures Standing(m, full, a, e) && m.text_buf[..] == old(m.text_buf[..])
  {
    hide Matcher.Valid, Window, Keys, Reported, Lcp, Offer, Near, Covered, NoneBefore;
    ghost var live0, ks := m.live, m.Strings();
    var _ := m.InsertNode(r);
    NearAlso(live0, m.live, ks, a, r);
    ReportedOffers(m.text_buf[..], full, a, e, live0, m.match_length, m.match_position);
    NearSlots(live0, a);
    CoverEnter(live0, m.live, ks, a);
    TopOffer(m.text_buf[..], full, a, e, live0, m.match_length);
  }

  lemma {:induction false} NearAlso(live: set<nat>, live': set<nat>, ks: seq<Key>, a: nat, r: nat)
    requires Near(live, a) && r == a % N && |ks| == N
    requires forall y :: y in live' <==> y == r || (y in live && ks[y] != ks[r])
    ensures Near(live', a)
  {
  }

  /** Read one more byte and move on. */
  method Advance(m: Matcher, ghost full: seq<byte>, ghost a: nat, c: byte, s: nat, r: nat) returns (s': nat, r': nat)
    requires Standing(m, full, a, a + F) && a + F < |full| && c == full[a + F]
    requires s == (a + F) % N && r == a % N
    modifies m, m.text_buf, m.lson, m.rson, m.dad, m.same
    ensures Standing(m, full, a + 1, a + 1 + F) && s' == (a + 1 + F) % N && r' == (a + 1) % N
  {
    hide Matcher.Valid, Window, Near, Offer, Clear, Written, Covered, NoneBefore, Keys;
    NearMoves(m.live, a);
    WindowWrite(m.text_buf[..], full, a + F);
    WrittenKeys(m.text_buf[..], s, c);
    CoverMoves(m.live, m.Strings(), Keys(Written(m.text_buf[..], s, c)), a);
    m.DeleteNode(s);
    ClearAt(m.live, s);
    m.PutText(s, c);
    s' := (s + 1) % N;
    r' := (r + 1) % N;
    Enter(m, full, a + 1, a + 1 + F, r');
  }

  lemma {:induction false} ClearAt(live: set<nat>, s: nat)
    requires s < N && Clear(live, s)
    ensures forall p :: p in live ==> p < N && Dist(s, p) >= F
  {
  }

  /** Move on when the input is used up, with len bytes left. */
  method Flush(m: Matcher, ghost full: seq<byte>, ghost a: nat, s: nat, r: nat, len: nat)
    returns (s': nat, r': nat, len': nat)
    requires Standing(m, full, a, |full|) && a + len == |full| && 0 < len <= F
    requires s == (a + F) % N && r == a % N
    modifies m, m.lson, m.rson, m.dad, m.same
    ensures Standing(m, full, a + 1, |full|) && s' == (a + 1 + F) % N && r' == (a + 1) % N
    ensures len' == len - 1
  {
    hide Matcher.Valid, Window, Near, Offer, Clear, Written, Covered, NoneBefore, Keys;
    NearMoves(m.live, a);
    CoverMoves(m.live, m.Strings(), m.Strings(), a);
    m.DeleteNode(s);
    s' := (s + 1) % N;
    r' := (r + 1) % N;
    len' := len - 1;
    if len' != 0 {
      Enter(m, full, a + 1, |full|, r');
    }
  }

  // ---------------------------------------------------------------- sending

  /** The tokens sent so far make up the first a bytes. */
  ghost predicate Encoded(full: seq<byte>, a: nat, toks: seq<Token>, sent: seq<bool>) {
    && LT.Valid(LT.Start()) && TokensOk(toks) && AllReach(BLANKS, toks)
    && BLANKS <= a <= |full| && Text(Blank(), toks) == full[..a]
    && sent == StreamBits(LT.Start(), toks)
  }

  lemma {:induction false} EncodedSnoc(full: seq<byte>, a: nat, toks: seq<Token>, sent: seq<bool>, k: Token,
                                       sent': seq<bool>)
    requires Encoded(full, a, toks, sent) && Reaches(a, k) && a + Size(k) <= |full|
    requires Apply(full[..a], k) == full[..a + Size(k)]
    requires sent' == sent + TokenBits(TreeAfter(LT.Start(), toks), k)
    ensures Encoded(full, a + Size(k), toks + [k], sent')
    ensures TreeAfter(LT.Start(), toks + [k]) == LT.Update(TreeAfter(LT.Start(), toks), Sym(k))
  {
    hide LT.Valid, LT.Start, TokenBits, Apply, StreamBits, Text;
    StreamSnoc(LT.Start(), toks, k);
    TextSnoc(Blank(), toks, k);
  }

  /** Send one token: the reported match as far as there is input, or one byte. */
  method EncodeToken(m: Matcher, h: Huff, w: BitOut, ghost full: seq<byte>, ghost a: nat, r: nat, len: nat)
    returns (ml: nat, ghost k: Token)
    requires Standing(m, full, a, a + len) && 0 < len <= F && r == a % N && (len == F || a + len == |full|)
    requires h.Valid() && w.Valid()
    modifies h.freq, h.prnt, h.son, w
    ensures h.Valid() && w.Valid()
    ensures Reaches(a, k) && ml == Size(k) <= len && a + ml <= |full|
    ensures Apply(full[..a], k) == full[..a + ml]
    ensures NoneBefore(full, a, |full|, ml)
    ensures w.sent == old(w.sent) + TokenBits(old(h.Now()), k)
    ensures h.Now() == LT.Update(old(h.Now()), Sym(k))
  {
    hide LT.Valid, LT.Update, TokenBits, Copy, Holds, Window, Matcher.Valid, Near, Covered, NoneBefore;
    NoneCut(full, a, len, m.match_length);
    WindowSize(m.text_buf[..], full, a + len);
    ghost var t := h.Now();
    LT.TreeParts(t);
    ml := m.match_length;
    if ml > len {
      ml := len;
    }
    if ml <= THRESHOLD {
      ml := 1;
      WindowRead(m.text_buf[..], full, a + len, a, 0);
      k := Lit(full[a]);
      assert full[..a] + [full[a]] == full[..a + 1];
      SendByte(h, w, m.text_buf[r]);
    } else {
      k := Match(ml, m.match_position);
      CopyRepeats(full, a, ml, m.match_position + 1);
      SendMatch(h, w, ml, m.match_position);
    }
  }

  method SendByte(h: Huff, w: BitOut, c: byte)
    requires h.Valid() && w.Valid()
    modifies h.freq, h.prnt, h.son, w
    ensures h.Valid() && w.Valid() && w.sent == old(w.sent) + TokenBits(old(h.Now()), Lit(c))
    ensures h.Now() == LT.Update(old(h.Now()), Sym(Lit(c)))
  {
    hide LT.Valid, LT.CharCode, LT.Update, Holds;
    LT.TreeParts(h.Now());
    ghost var code := LT.CharCode(h.Now(), Sym(Lit(c)));
    h.EncodeChar(c, w);
    assert code + [] == code;
  }

  method SendMatch(h: Huff, w: BitOut, len: nat, pos: nat)
    requires h.Valid() && w.Valid() && TokenOk(Match(len, pos))
    modifies h.freq, h.prnt, h.son, w
    ensures h.Valid() && w.Valid() && w.sent == old(w.sent) + TokenBits(old(h.Now()), Match(len, pos))
    ensures h.Now() == LT.Update(old(h.Now()), Sym(Match(len, pos)))
  {
    hide LT.Valid, LT.CharCode, LT.Update, PosCode, Holds;
    LT.TreeParts(h.Now());
    ghost var s0, code := w.sent, LT.CharCode(h.Now(), Sym(Match(len, pos)));
    h.EncodeChar(255 - THRESHOLD + len, w);
    EncodePosition(pos, w);
    assert (s0 + code) + PosCode(pos) == s0 + (code + PosCode(pos));
  }

  // ---------------------------------------------------------------- Encode

  /** Fill the window with spaces up to N - F and the first bytes of the input after them. */
  method FillWindow(m: Matcher, input: seq<byte>) returns (len: nat)
    requires m.Shaped() && m.Valid() && m.live == {}
    modifies m.text_buf
    ensures m.Valid() && len == Min(F, |input|) && Window(m.text_buf[..], Blank() + input, BLANKS + len)
  {
    hide Matcher.Valid;
    ghost var full := Blank() + input;
    var i := 0;
    while i < BLANKS
      invariant i <= BLANKS && m.Valid()
      invariant forall q :: 0 <= q < i ==> m.text_buf[..][q] == 32
    {
      m.Poke(i, 32);
      i := i + 1;
    }
    len := 0;
    while len < F && len < |input|
      invariant len <= F && len <= |input| && m.Valid()
      invariant forall q :: 0 <= q < BLANKS + len ==> m.text_buf[..][q] == full[q]
    {
      m.Poke(BLANKS + len, input[len]);
      len := len + 1;
    }
    forall q | 0 <= q < BLANKS + len ensures Shown(m.text_buf[..], full, q) {
      assert q % N == q;
    }
  }

  ghost predicate Between(live: set<nat>, lo: int, hi: int) { forall p :: p in live ==> lo <= p < hi }

  ghost predicate Blanks(text: seq<byte>) { |text| == TEXT && forall i :: 0 <= i < BLANKS ==> text[i] == 32 }

  lemma {:induction false} WindowBlanks(text: seq<byte>, input: seq<byte>, e: nat)
    requires Window(text, Blank() + input, e) && BLANKS <= e <= N
    ensures Blanks(text)
  {
    forall i | 0 <= i < BLANKS ensures text[i] == 32 {
      assert Shown(text, Blank() + input, i);
      assert i % N == i;
    }
  }

  /** The strings from lo on before r are in the trees, or equal ones are. */
  ghost predicate Entered(live: set<nat>, ks: seq<Key>, lo: nat, r: nat) {
    |ks| == N && r <= N && (forall p :: p in live ==> p < N)
    && forall q: nat :: lo <= q < r ==> SameIn(live, ks, lo, r, q)
  }

  ghost predicate SameIn(live: set<nat>, ks: seq<Key>, lo: nat, r: nat, q: nat)
    requires |ks| == N && q < r <= N
  {
    exists p: nat :: p in live && lo <= p < r && ks[p] == ks[q]
  }

  lemma {:induction false} EnteredMore(live: set<nat>, live': set<nat>, ks: seq<Key>, lo: nat, r: nat)
    requires Entered(live, ks, lo, r) && 0 < lo <= r <= N
    requires forall y: nat :: y in live' <==> y == lo - 1 || (y in live && ks[y] != ks[lo - 1])
    ensures Entered(live', ks, lo - 1, r)
  {
    var first: nat := lo - 1;
    forall q: nat | first <= q < r ensures SameIn(live', ks, first, r, q) {
      if q == lo - 1 {
        assert lo - 1 in live';
      } else {
        assert SameIn(live, ks, lo, r, q);
        var p: nat :| p in live && lo <= p < r && ks[p] == ks[q];
        if ks[p] == ks[lo - 1] { assert lo - 1 in live'; } else { assert p in live'; }
      }
    }
  }

  /** All strings of blanks are equal, so that those entered stand for all. */
  lemma {:induction false} BlanksCovered(live: set<nat>, text: seq<byte>)
    requires |text| == TEXT && Blanks(text) && Entered(live, Keys(text), BLANKS - F, BLANKS)
    ensures Covered(live, Keys(text), BLANKS, BLANKS)
  {
    hide Keys, Blanks, Dist;
    var ks := Keys(text);
    forall q: nat | q < BLANKS && InReach(BLANKS, q) ensures StoodFor(live, ks, BLANKS, q) {
      var q0: nat := if q < BLANKS - F then BLANKS - F else q;
      if q < BLANKS - F { BlanksSame(text, q); }
      assert SameIn(live, ks, BLANKS - F, BLANKS, q0);
      var p: nat :| p in live && BLANKS - F <= p < BLANKS && ks[p] == ks[q0];
      assert q % N == q && BLANKS % N == BLANKS;
      Back(BLANKS, p);
      assert Standin(live, ks, BLANKS, q, p);
    }
  }

  lemma {:induction false} BlanksSame(text: seq<byte>, q: nat)
    requires Blanks(text) && q < BLANKS - F
    ensures Keys(text)[q] == Keys(text)[BLANKS - F]
  {
    hide Keys;
    KeysAt(text, q);
    KeysAt(text, BLANKS - F);
    var x, y := Keys(text)[q], Keys(text)[BLANKS - F];
    forall i | 0 <= i < F ensures x[i] == y[i] {
      assert x[i] == text[q + i] && y[i] == text[BLANKS - F + i];
    }
  }

  /** Enter the F strings before r, nearest first. */
  method EnterBlanks(m: Matcher, r: nat)
    requires m.Shaped() && m.Valid() && m.live == {} && r == BLANKS && Blanks(m.text_buf[..])
    modifies m, m.lson, m.rson, m.dad, m.same
    ensures m.Valid() && Near(m.live, BLANKS) && r !in m.live && Covered(m.live, m.Strings(), BLANKS, BLANKS)
  {
    hide Matcher.Valid, Keys, Reported, Lcp, Entered, Blanks, Covered;
    NoneEntered(m.Strings(), r);
    var i := 1;
    while i <= F
      invariant 1 <= i <= F + 1 && m.Valid() && Between(m.live, r - i + 1, r)
      invariant Entered(m.live, m.Strings(), r - i + 1, r)
    {
      ghost var live0 := m.live;
      var _ := m.InsertNode(r - i);
      EnteredMore(live0, m.live, m.Strings(), r - i + 1, r);
      i := i + 1;
    }
    BlanksCovered(m.live, m.text_buf[..]);
    forall p | p in m.live ensures p < N && Dist(BLANKS % N, p) <= BLANKS {
      assert BLANKS % N == BLANKS;
      assert (BLANKS + N - p) % N == BLANKS - p;
    }
  }

  lemma {:induction false} NoneEntered(ks: seq<Key>, r: nat)
    requires |ks| == N && r <= N
    ensures Entered({}, ks, r, r)
  {
  }

  /** Wherever a token stands that ends before place a, no string of its reach repeats more. */
  ghost predicate AllLongest(full: seq<byte>, a: nat, toks: seq<Token>) {
    toks == []
    || (var k := toks[|toks| - 1];
        Size(k) <= a && NoneBefore(full, a - Size(k), |full|, Size(k))
        && AllLongest(full, a - Size(k), toks[..|toks| - 1]))
  }

  lemma {:induction false} NoneLongest(full: seq<byte>, a: nat)
    ensures AllLongest(full, a, [])
  {
  }

  lemma {:induction false} AllLongestSnoc(full: seq<byte>, a: nat, toks: seq<Token>, k: Token)
    requires AllLongest(full, a, toks) && NoneBefore(full, a, |full|, Size(k))
    ensures AllLongest(full, a + Size(k), toks + [k])
  {
    hide NoneBefore;
    assert (toks + [k])[..|toks + [k]| - 1] == toks;
  }

  lemma {:induction false} NothingSent(input: seq<byte>)
    ensures Encoded(Blank() + input, BLANKS, [], []) && TreeAfter(LT.Start(), []) == LT.Start()
  {
    LT.StartValid();
    assert (Blank() + input)[..BLANKS] == Blank();
  }

  lemma {:induction false} EncodedParts(full: seq<byte>, a: nat, toks: seq<Token>, sent: seq<bool>)
    requires Encoded(full, a, toks, sent)
    ensures LT.Valid(LT.Start()) && TokensOk(toks) && BLANKS <= a <= |full|
    ensures sent == StreamBits(LT.Start(), toks)
  {
  }

  ghost predicate Distinct(m: Matcher, h: Huff) {
    {m.lson, m.rson, m.dad, m.same} !! {h.freq, h.prnt, h.son}
  }

  /** next bytes are read, the len last of them from a on are not sent; r and s are the slots of
      a and of the byte read next. */
  ghost predicate Placed(input: seq<byte>, a: nat, s: nat, r: nat, next: nat, len: nat) {
    && next <= |input| && a + len == BLANKS + next && len <= F && (next < |input| ==> len == F)
    && s == (a + F) % N && r == a % N
  }

  /** What Encode promises of the file it writes. */
  ghost predicate Encodes(input: seq<byte>, file: seq<byte>, toks: seq<Token>) {
    && LT.Valid(LT.Start()) && TokensOk(toks)
    && Encoded(Blank() + input, BLANKS + |input|, toks, StreamBits(LT.Start(), toks))
    && StreamBits(LT.Start(), toks) <= ByteBits(file)
    && |file| == (|StreamBits(LT.Start(), toks)| + 7) / 8
  }

  /** Send one token and move on over the bytes it stands for. */
  method SendNext(m: Matcher, h: Huff, w: BitOut, input: seq<byte>, ghost a: nat, ghost toks: seq<Token>,
                  s: nat, r: nat, next: nat, len: nat)
    returns (s': nat, r': nat, next': nat, len': nat, ghost k: Token)
    requires h.Valid() && w.Valid() && Distinct(m, h) && Encoded(Blank() + input, a, toks, w.sent)
    requires LT.Valid(LT.Start()) && TokensOk(toks) && h.Now() == TreeAfter(LT.Start(), toks)
    requires 0 < len && Placed(input, a, s, r, next, len) && Standing(m, Blank() + input, a, a + len)
    requires AllLongest(Blank() + input, a, toks)
    modifies m, m.text_buf, m.lson, m.rson, m.dad, m.same, h.freq, h.prnt, h.son, w
    ensures h.Valid() && w.Valid() && TokensOk(toks + [k]) && h.Now() == TreeAfter(LT.Start(), toks + [k])
    ensures Encoded(Blank() + input, a + Size(k), toks + [k], w.sent) && Size(k) >= 1
    ensures Placed(input, a + Size(k), s', r', next', len')
    ensures Standing(m, Blank() + input, a + Size(k), a + Size(k) + len')
    ensures AllLongest(Blank() + input, a + Size(k), toks + [k])
  {
    hide Huff.Valid, BitOut.Valid, Standing, LT.Valid, Encoded, StreamBits, TokenBits, LT.Update, Apply, TreeAfter,
         TokensOk, LT.Start, NoneBefore, AllLongest;
    ghost var full, sent := Blank() + input, w.sent;
    EncodedParts(full, a, toks, sent);
    var ml;
    ml, k := EncodeToken(m, h, w, full, a, r, len);
    EncodedSnoc(full, a, toks, sent, k, w.sent);
    AllLongestSnoc(full, a, toks, k);
    EncodedParts(full, a + Size(k), toks + [k], w.sent);
    s', r', next', len' := MoveOn(m, input, a, s, r, next, len, ml);
  }

  /** Set up the window and the trees. */
  method Begin(m: Matcher, input: seq<byte>, r: nat) returns (len: nat)
    requires m.Shaped() && r == BLANKS
    modifies m, m.text_buf, m.lson, m.rson, m.dad, m.same
    ensures len == Min(F, |input|) && Standing(m, Blank() + input, BLANKS, BLANKS + len)
  {
    hide Matcher.Valid, Window, Near, Covered, NoneBefore, Blanks, Keys;
    m.InitTree();
    len := FillWindow(m, input);
    WindowBlanks(m.text_buf[..], input, BLANKS + len);
    EnterBlanks(m, r);
    Enter(m, Blank() + input, BLANKS, BLANKS + len, r);
  }

  /** Encode: the file holds the bits of tokens that spell the input, and no token is shorter than
      it could be by repeating a string in the window. */
  method Encode(m: Matcher, h: Huff, input: seq<byte>) returns (file: seq<byte>, ghost toks: seq<Token>)
    requires m.Shaped() && h.Shaped() && Distinct(m, h)
    modifies m, m.text_buf, m.lson, m.rson, m.dad, m.same, h.freq, h.prnt, h.son
    ensures Encodes(input, file, toks)
    ensures AllLongest(Blank() + input, BLANKS + |input|, toks)
  {
    hide Huff.Valid, BitOut.Valid, Standing, LT.Valid, Encoded, StreamBits, TreeAfter, TokensOk, ByteBits, LT.Start,
         NoneBefore, AllLongest;
    ghost var full := Blank() + input;
    toks := [];
    NothingSent(input);
    assert AllLongest(full, BLANKS, []) by { NoneLongest(full, BLANKS); }
    EncodedParts(full, BLANKS, [], []);
    if |input| == 0 {
      return [], [];
    }
    h.StartHuff();
    var s, r := 0, BLANKS;
    var len: nat := Begin(m, input, r);
    var next: nat := len;
    var w := new BitOut();
    ghost var a := BLANKS;
    while len > 0
      invariant LT.Valid(LT.Start()) && TokensOk(toks)
      invariant h.Valid() && w.Valid() && h.Now() == TreeAfter(LT.Start(), toks)
      invariant Encoded(full, a, toks, w.sent) && AllLongest(full, a, toks)
      invariant Placed(input, a, s, r, next, len) && Standing(m, full, a, a + len)
      decreases |full| - a
    {
      ghost var k;
      s, r, next, len, k := SendNext(m, h, w, input, a, toks, s, r, next, len);
      toks := toks + [k];
      a := a + Size(k);
    }
    EncodedParts(full, a, toks, w.sent);
    w.EncodeEnd();
    file := w.out;
  }

  /** Move on over the bytes a token stands for, reading as many as there are. */
  method MoveOn(m: Matcher, input: seq<byte>, ghost a: nat, s: nat, r: nat, next: nat, len: nat, ml: nat)
    returns (s': nat, r': nat, next': nat, len': nat)
    requires Placed(input, a, s, r, next, len) && Standing(m, Blank() + input, a, a + len) && ml <= len
    modifies m, m.text_buf, m.lson, m.rson, m.dad, m.same
    ensures Placed(input, a + ml, s', r', next', len') && Standing(m, Blank() + input, a + ml, a + ml + len')
  {
    hide Standing;
    ghost var full := Blank() + input;
    s', r', next', len' := s, r, next, len;
    var i := 0;
    while i < ml && next' < |input|
      invariant i <= ml && next' <= |input| && len' == len && a + i + len == BLANKS + next'
      invariant next' < |input| ==> len == F
      invariant i > 0 ==> len == F
      invariant Standing(m, full, a + i, a + i + len) && s' == (a + i + F) % N && r' == (a + i) % N
    {
      s', r' := Advance(m, full, a + i, input[next'], s', r');
      next' := next' + 1;
      i := i + 1;
    }
    while i < ml
      invariant i <= ml && next' <= |input| && ml - i <= len' <= F
      invariant next' < |input| ==> i == ml && len' == F
      invariant a + i + len' == BLANKS + next'
      invariant Standing(m, full, a + i, a + i + len') && s' == (a + i + F) % N && r' == (a + i) % N
    {
      s', r', len' := Flush(m, full, a + i, s', r', len');
      i := i + 1;
    }
  }

  // ------------------------------------------------------------- round trip

  /** Tokens after others continue their text. */
  lemma {:induction false} TextSplit(h: seq<byte>, js: seq<Token>, ks: seq<Token>)
    requires AllReach(|h|, js + ks)
    ensures AllReach(|h|, js) && AllReach(|Text(h, js)|, ks)
    ensures Text(h, js + ks) == Text(Text(h, js), ks)
    decreases |js|
  {
    if js == [] {
      assert js + ks == ks;
    } else {
      hide Apply;
      assert (js + ks)[1..] == js[1..] + ks;
      TextSplit(Apply(h, js[0]), js[1..], ks);
    }
  }

  /** Decode, run on a file Encode wrote for the input and asked for as many bytes, gives the
      input, whatever was in the window before. */
  lemma {:induction false} DecodedIsInput(input: seq<byte>, file: seq<byte>, sent: seq<Token>,
                                          garbage: seq<byte>, out: seq<byte>, read: seq<Token>, rest: seq<bool>)
    requires Encodes(input, file, sent) && |garbage| == F
    requires Decoded(ByteBits(file), History(garbage), read, out, rest)
    requires |out| >= |input| && (read == [] || |out| < |input| + Size(read[|read| - 1]))
    ensures out == input && read == sent
  {
    hide StreamBits, Text, AllReach, ByteBits, LT.Valid, LT.Start, TokensOk;
    var g := seq(N - F, i => 0) + garbage;
    var h := History(garbage);
    EncodedStarts(input, file, sent);
    DecodedStarts(ByteBits(file), h, read, out, rest);
    OneReading(LT.Start(), sent, read, ByteBits(file));
    TextAfter(g, Blank(), sent);
    assert Text(h, sent) == h + input;
    if sent == read {
      assert out == (h + out)[|h|..] && input == (h + input)[|h|..];
    } else if sent <= read {
      Longer(h, sent, read);
    } else {
      Longer(h, read, sent);
    }
  }

  /** A longer token sequence makes a longer text, also without its last token. */
  lemma {:induction false} Longer(h: seq<byte>, js: seq<Token>, ks: seq<Token>)
    requires js < ks && AllReach(|h|, ks)
    ensures AllReach(|h|, js) && |Text(h, js)| < |Text(h, ks)|
    ensures |Text(h, js)| + Size(ks[|ks| - 1]) <= |Text(h, ks)|
  {
    hide Apply;
    var k, n := ks[|ks| - 1], |ks| - 1;
    var mid := ks[|js|..n];
    assert ks == js + ks[|js|..] && ks == ks[..n] + [k] && ks[..n] == js + mid;
    TextSplit(h, ks[..n], [k]);
    TextSplit(h, js, mid);
    TextSplit(h, js, ks[|js|..]);
    assert [k][1..] == [];
  }

  lemma {:induction false} EncodedStarts(input: seq<byte>, file: seq<byte>, toks: seq<Token>)
    requires Encodes(input, file, toks)
    ensures LT.Valid(LT.Start()) && TokensOk(toks) && Starts(ByteBits(file), StreamBits(LT.Start(), toks))
    ensures AllReach(BLANKS, toks) && Text(Blank(), toks) == Blank() + input
  {
    hide StreamBits, Text, AllReach, ByteBits, LT.Valid, LT.Start, TokensOk;
    var full := Blank() + input;
    assert full[..BLANKS + |input|] == full;
    var s, t := StreamBits(LT.Start(), toks), ByteBits(file);
    forall i | 0 <= i < |s| ensures s[i] == At(t, i) { assert s == t[..|s|]; }
  }

  lemma {:induction false} DecodedStarts(bits: seq<bool>, h: seq<byte>, toks: seq<Token>, out: seq<byte>,
                                         rest: seq<bool>)
    requires Decoded(bits, h, toks, out, rest)
    ensures LT.Valid(LT.Start()) && TokensOk(toks) && Starts(bits, StreamBits(LT.Start(), toks))
    ensures AllReach(|h|, toks) && Text(h, toks) == h + out
  {
    hide StreamBits, Text, AllReach, LT.Valid, LT.Start, TokensOk;
  }

  /** Encode, then Decode with the same arrays: the input comes back. */
  method RoundTrip(m: Matcher, h: Huff, input: seq<byte>) returns (out: seq<byte>)
    requires m.Shaped() && h.Shaped() && Distinct(m, h)
    modifies m, m.text_buf, m.lson, m.rson, m.dad, m.same, h.freq, h.prnt, h.son
    ensures out == input
  {
    hide Encodes, Decoded, History;
    var file: seq<byte>;
    ghost var sent: seq<Token>;
    file, sent := Encode(m, h, input);
    ghost var garbage := m.text_buf[BLANKS..N];
    ghost var read: seq<Token>;
    ghost var rest: seq<bool>;
    out, read, rest := Decode(m.text_buf, h, file, |input|);
    DecodedIsInput(input, file, sent, garbage, out, read, rest);
  }
}
