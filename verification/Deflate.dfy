/** deflate of archive/gzip/deflate.c, the lazy version: every match is a true earlier copy, and
    the blocks spell the input. */
module Deflate {
  import opened BitString
  import opened GzipBits
  import opened InflateFormat
  import opened DeflateHash
  import opened DeflateText
  import opened DeflateWindow
  import opened DeflateMatch
  import opened DeflateLazy
  import opened DeflateBlocks
  import opened TreesTally
  import opened TreesFlush
  import InflateBlocks

  // ------------------------------------------------------------- where things stand

  /** The blocks bodies have been sent and spell the input up to a; the items ks tallied since
      then spell it from a to b. */
  ghost predicate Standing(input: seq<byte>, a: int, ks: seq<Item>, b: int, sent: seq<bool>, h: seq<byte>,
                           bodies: seq<Body>) {
    && 0 <= a <= b <= |input| && Parses(input, a, ks) && Reach(a, ks) == b
    && Leads(sent, bodies) && |h| >= 0x8000 && BodiesOk(bodies) && AppendAll(h, bodies) == h + input[..a]
  }

  lemma {:induction false} StandingNone(input: seq<byte>, h: seq<byte>)
    requires |h| >= 0x8000
    ensures Standing(input, 0, [], 0, [], h, [])
  {
    LeadsNone();
    assert h + input[..0] == h;
  }

  /** One item more. */
  lemma {:induction false} StandingMore(input: seq<byte>, a: int, ks: seq<Item>, b: int, sent: seq<bool>, h: seq<byte>,
                                        bodies: seq<Body>, k: Item)
    requires Standing(input, a, ks, b, sent, h, bodies) && Tells(input, b, k)
    ensures ItemOk(k) && Standing(input, a, ks + [k], b + ItemLen(k), sent, h, bodies)
  {
    hide Leads, AppendAll, Parses, Reach;
    ParsesMore(input, a, ks, k);
    PutTells(h, input, b, k);
  }

  /** One block more, ending here. */
  lemma {:induction false} StandingFlushed(input: seq<byte>, a: int, ks: seq<Item>, b: int, sent: seq<bool>,
                                           h: seq<byte>, bodies: seq<Body>,
                                           bits: seq<bool>, body: Body, here: bool, buf: seq<byte>)
    requires Standing(input, a, ks, b, sent, h, bodies) && ReadsAs(bits, false, body, |sent| + |bits|)
    requires BodyOf(body, here, buf, ks) && (here ==> buf == input[a..b])
    ensures Standing(input, b, [], b, sent + bits, h, bodies + [body])
  {
    hide Leads, ReadsAs, BodyOf;
    BodyText(h, input, a, b, ks, body, here, buf);
    LeadsMore(sent, bodies, bits, body);
    InflateBlocks.AppendSnoc(h, bodies, body);
  }

  /** The stream, whatever follows up to a byte boundary, is blocks that spell the input. */
  ghost predicate Spells(stream: seq<bool>, h: seq<byte>, input: seq<byte>, rest: seq<bool>) {
    exists bs: seq<Body> :: Blocks(stream) == Done(bs, rest) && |h| >= 0x8000 && BodiesOk(bs)
      && AppendAll(h, bs) == h + input
  }

  lemma {:induction false} StandingLast(input: seq<byte>, a: int, ks: seq<Item>, sent: seq<bool>, h: seq<byte>,
                                        bodies: seq<Body>,
                                        bits: seq<bool>, body: Body, here: bool, buf: seq<byte>, t: seq<bool>)
    requires Standing(input, a, ks, |input|, sent, h, bodies) && ReadsAs(bits, true, body, |sent| + |bits|)
    requires BodyOf(body, here, buf, ks) && (here ==> buf == input[a..|input|]) && (|sent| + |bits| + |t|) % 8 == 0
    ensures Spells((sent + bits) + t, h, input, t)
  {
    hide Leads, ReadsAs, BodyOf, Blocks, AppendAll, Parses;
    BodyText(h, input, a, |input|, ks, body, here, buf);
    LeadsLast(sent, bodies, bits, body, t);
    InflateBlocks.AppendSnoc(h, bodies, body);
    assert input[..|input|] == input;
  }

  // -------------------------------------------------------------------- matches

  /** The distance of a match, in 16 bits. */
  function Distance16(s: nat, m: nat): (d: nat)
    requires s < WORD && m < WORD
    ensures d < WORD
  {
    (s + WORD - m) % WORD
  }

  /** A match of len bytes for the string at s, which is at in the input; it may have left the
      window. */
  ghost predicate Pending(input: seq<byte>, at: int, len: nat, m: nat, s: int) {
    0 <= s < WORD && m < WORD && at >= 0 && NearestCopy(input, at, len, Distance16(s, m))
  }

  /** Moving the window does not change the distance. */
  lemma {:induction false} DistanceKept(s: nat, m: nat)
    requires WSIZE <= s < WORD && m < WORD
    ensures Distance16(s - WSIZE, (m + WORD - WSIZE) % WORD) == Distance16(s, m)
  {
  }

  lemma {:induction false} PendingSlid(input: seq<byte>, at: int, len: nat, m0: nat, s0: nat, m: nat, s: nat, b0: int,
                                       b: int, o0: nat, o: nat)
    requires Pending(input, at, len, m0, s0 - 1) && 1 <= s0 && Slid(s0, s, m0, m, b0, b, o0, o)
    ensures Pending(input, at, len, m, s - 1)
  {
    hide NearestCopy;
    if s != s0 { DistanceKept(s0 - 1, m0); }
  }

  lemma {:induction false} MatchPending(win: seq<byte>, input: seq<byte>, origin: nat, n: nat, pos: nat, s: nat,
                                        chain: seq<nat>, best: nat, start: nat, m: nat)
    requires Around(win, input, origin, s, n, pos) && |win| == WINDOW_SIZE + MAX_MATCH && best <= MAX_MATCH
    requires Nearest(win, s, chain) && StartOk(win, s, chain, best, start)
    requires MIN_MATCH <= m && m == (if best > n - s then n - s else best)
    requires m == 3 && s < WORD && start < WORD ==> Distance16(s, start) <= TOO_FAR
    ensures Pending(input, origin + s, m, start, s) && Distance16(s, start) == s - start && CopyAt(input, origin + s, m)
  {
    hide SameBytes, KeyAt, NearestCopy, TrueCopy, Shows;
    SameLess(win, start, s, best, m);
    CopyInText(win, input, origin, n, pos, start, s, m);
    FoundNearest(win, input, origin, s, n, pos, chain, best, start, m);
  }

  // --------------------------------------------------------------------- looking

  /** The string at strstart is inserted, and the next one is not. */
  ghost predicate Inserted(d: Deflater)
    reads d, d.src, d.window, d.prev, d.head
  {
    && d.Windowed() && d.lookahead > 0 && d.strstart + 3 <= WINDOW_SIZE
    && Chains(d.window[..], d.head[..], d.prev[..], d.strstart + 1)
    && Running(d.insH, d.window[d.strstart + 1], d.window[d.strstart + 2])
  }

  lemma {:induction false} RoomFor(d: Deflater)
    requires d.Windowed() && (d.eofile || d.lookahead >= MIN_LOOKAHEAD) && d.lookahead > 0
    ensures d.strstart + d.lookahead <= WINDOW_SIZE && d.strstart + 3 <= WINDOW_SIZE
    ensures d.origin + d.strstart + d.lookahead <= |d.src.input|
  {
  }

  /** What the last look found: nothing, or a match for the string at strstart. */
  ghost predicate Found(d: Deflater, m: nat, prevLength: nat)
    reads d, d.src
  {
    && m <= MAX_MATCH && d.matchStart < WORD && (m >= 2 || m == d.lookahead)
    && (m > prevLength && m >= MIN_MATCH ==>
          m <= d.lookahead
          && Pending(d.src.input, d.origin + d.strstart, m, d.matchStart, d.strstart))
  }

  /** Insert the string at strstart and look for a match for it that is longer than the one at
      hand, cut to what is left of the input; a match of three bytes too far back does not
      count. */
  method Look(d: Deflater, matchLength: nat) returns (m: nat, prevMatch: nat)
    requires d.Valid() && d.lookahead > 0 && d.matchStart < WORD && 2 <= matchLength <= MAX_MATCH
    modifies d`insH, d`prevLength, d`matchStart, d.prev, d.head
    ensures Inserted(d) && d.prevLength == matchLength && prevMatch == old(d.matchStart) && Found(d, m, matchLength)
    ensures Finds(d.src.input, d.origin + d.strstart, matchLength, m, d.config)
  {
    hide Shows, Chains, Running, KeyAt, Pending, Latest, Around, Finds;
    RoomFor(d);
    var hashHead := d.InsertString(d.strstart);
    AroundNow(d);
    d.prevLength := matchLength;
    prevMatch := d.matchStart;
    m := MIN_MATCH - 1;
    if hashHead != NIL && d.prevLength < d.config.maxLazy && d.strstart - hashHead <= MAX_DIST {
      m := Search(d, hashHead);
    } else {
      LookNone(d.window[..], d.src.input, d.origin, d.strstart, d.strstart + d.lookahead, d.src.pos, hashHead,
               matchLength, d.config);
    }
  }

  /** Look along the chain. */
  method Search(d: Deflater, hashHead: nat) returns (m: nat)
    requires Inserted(d) && (d.eofile || d.lookahead >= MIN_LOOKAHEAD) && d.matchStart < WORD
    requires 0 < hashHead && d.strstart - hashHead <= MAX_DIST && 2 <= d.prevLength < d.config.maxLazy
    requires Latest(d.window[..], hashHead, d.strstart, KeyAt(d.window[..], d.strstart))
    modifies d`matchStart
    ensures Found(d, m, d.prevLength) && Finds(d.src.input, d.origin + d.strstart, d.prevLength, m, d.config)
  {
    hide Shows, Chains, Running, KeyAt, Matched, Pending, TrueCopy, Along, PastEnd, Latest, Around, Searched, Finds;
    RoomFor(d);
    AroundNow(d);
    LatestPlace(d.window[..], hashHead, d.strstart, KeyAt(d.window[..], d.strstart));
    ghost var chain, top;
    m, chain, top := LongestMatch(d, hashHead);
    ghost var best := m;
    MatchSmall(d.window[..], d.strstart, d.prevLength, d.config, chain, m, d.matchStart);
    if m > d.lookahead { m := d.lookahead; }
    if m == MIN_MATCH && Distance16(d.strstart, d.matchStart) > TOO_FAR {
      m := m - 1;
    }
    if m > d.prevLength && m >= MIN_MATCH {
      MatchPending(d.window[..], d.src.input, d.origin, d.strstart + d.lookahead, d.src.pos, d.strstart, chain, best,
                   d.matchStart, m);
    }
    LookFinds(d.window[..], d.src.input, d.origin, d.strstart, d.strstart + d.lookahead, d.src.pos, d.prevLength,
              chain, best, d.matchStart, m, d.config);
  }

  lemma {:induction false} LatestPlace(win: seq<byte>, m: nat, s: nat, k: nat)
    requires s + 2 <= |win| && Latest(win, m, s, k)
    ensures m == NIL || m < s
  {
  }

  lemma {:induction false} AroundNow(d: Deflater)
    requires d.Windowed() && (d.eofile || d.lookahead >= MIN_LOOKAHEAD) && d.lookahead > 0
    ensures Around(d.window[..], d.src.input, d.origin, d.strstart, d.strstart + d.lookahead, d.src.pos)
  {
    hide Shows;
    RoomFor(d);
  }

  lemma {:induction false} MatchSmall(win: seq<byte>, s: nat, l: nat, c: Config, chain: seq<nat>, best: nat, start: nat)
    requires s + 2 < |win| && Searched(win, s, l, c.niceMatch, ChainLength(c, l), chain, best, start)
    ensures l <= best <= MAX_MATCH && (best > l ==> start < s && StartOk(win, s, chain, best, start))
    ensures Nearest(win, s, chain)
  {
    hide NoneLonger, Exhausted, SameBytes, KeyAt;
  }

  // --------------------------------------------------------------------- tallying

  /** The arrays of the window and of the trees are not the same. */
  ghost predicate Apart(d: Deflater, t: Trees) {
    && {d.prev, d.head} !! t.Scratch() && {d.prev, d.head} !! t.Buffers() && {d.prev, d.head} !! t.dyn.Arrays()
  }

  /** The input up to a is spelled by blocks, and up to b by items that wait. */
  ghost predicate Going(t: Trees, w: BitSink, input: seq<byte>, a: int, b: int, h: seq<byte>, bodies: seq<Body>)
    reads t, t.work, t.tally, t.Scratch(), t.Buffers(), t.dyn.Arrays(), w
  {
    && t.Valid() && w.Valid() && t.compressedLen == Long(|w.sent|)
    && Standing(input, a, t.tally.toks, b, w.sent, h, bodies) && Told(input, t.tally.all, b)
  }

  /** All items so far, whatever blocks they went to, tell the input up to b. */
  ghost predicate Told(input: seq<byte>, all: seq<Item>, b: int) { Parses(input, 0, all) && Reach(0, all) == b }

  lemma {:induction false} ToldMore(input: seq<byte>, all: seq<Item>, b: nat, k: Item)
    requires Told(input, all, b) && Tells(input, b, k)
    ensures Told(input, all + [k], b + ItemLen(k))
  {
    hide Tells;
    ParsesMore(input, 0, all, k);
  }

  /** There is room for at least one more item. */
  ghost predicate Room(t: Trees)
    reads t.tally
  {
    |t.tally.toks| + 1 < LIT_BUFSIZE
  }

  /** Hand an item to ct_tally. */
  method Emit(t: Trees, w: BitSink, dist: nat, lc: nat, level: nat, inLength: nat, ghost k: Item,
              ghost input: seq<byte>, ghost a: int, ghost b: int, ghost h: seq<byte>, ghost bodies: seq<Body>)
    returns (flush: bool)
    requires Going(t, w, input, a, b, h, bodies) && Room(t) && Tells(input, b, k)
    requires match k { case Lit(c) => dist == 0 && lc == c case Back(len, far) => lc == len - 3 && dist == far }
    requires inLength == b - a + 1
    modifies t.tally, t.Buffers(), t.dyn.lFc, t.dyn.dFc
    ensures Going(t, w, input, a, b + ItemLen(k), h, bodies) && (flush || Room(t))
    ensures flush <==> Due(t.tally.toks, level)
    ensures t.tally.toks == old(t.tally.toks) + [k] && t.tally.all == old(t.tally.all) + [k]
  {
    hide Standing, Tells, Told, Tally.Valid, Tally.Tables, Counted, GzipBits.Holds, Trees.Static, Matches, Profitable,
         Due;
    StandingRange(input, a, t.tally.toks, b, w.sent, h, bodies);
    ToldMore(input, t.tally.all, b, k);
    StandingMore(input, a, t.tally.toks, b, w.sent, h, bodies, k);
    assert Reach(a, t.tally.toks) == b by { StandingReach(input, a, t.tally.toks, b, w.sent, h, bodies); }
    DueNow(t.tally.toks, k, level, a, b, inLength);
    flush := t.tally.CtTally(t.dyn.lFc, t.dyn.dFc, dist, lc, level, inLength, k);
    TallyOk(t.tally);
  }

  /** FLUSH_BLOCK(0); the next block starts here. */
  method Flush(d: Deflater, t: Trees, w: BitSink, ghost h: seq<byte>, ghost bodies: seq<Body>)
    returns (ghost bodies2: seq<Body>, ghost cut: Cut)
    requires d.Windowed() && Apart(d, t)
    requires Going(t, w, d.src.input, d.origin + d.blockStart, d.origin + d.strstart, h, bodies)
    modifies w, t, t.work, t.tally, t.Scratch(), t.Buffers(), t.dyn.Arrays()
    ensures Going(t, w, d.src.input, d.origin + d.strstart, d.origin + d.strstart, h, bodies2) && Room(t)
    ensures t.tally.all == old(t.tally.all) && t.tally.toks == [] && w.sent == old(w.sent) + cut.bits
    ensures CutOk(d.src.input, cut, |old(w.sent)|, false) && cut.ks == old(t.tally.toks)
    ensures cut.from == d.origin + d.blockStart && cut.to == d.origin + d.strstart
  {
    hide Standing, Trees.Valid, GzipBits.Holds, Shows, ReadsAs, BodyOf, BlockOf, Told, Fill;
    ghost var a, ks, s0, input := d.origin + d.blockStart, t.tally.toks, w.sent, d.src.input;
    StandingRange(input, a, ks, d.origin + d.strstart, s0, h, bodies);
    var here := d.blockStart >= 0;
    var buf := [];
    WindowSize(d);
    if here {
      buf := d.window[d.blockStart..d.strstart];
      ShowsSlice(d.window[..], input, d.origin, d.strstart + d.lookahead, d.src.pos, d.blockStart, d.strstart);
    }
    var bytes;
    ghost var bits, body, dyn;
    bytes, bits, body, dyn := FlushBlock(t, w, buf, here, d.strstart - d.blockStart, false);
    assert w.sent == s0 + bits;
    BlockReads(bits, false, body, |s0|, here, buf, dyn, ks);
    StandingFlushed(input, a, ks, d.origin + d.strstart, s0, h, bodies, bits, body, here, buf);
    bodies2 := bodies + [body];
    cut := Cut(ks, a, d.origin + d.strstart, here, bits, dyn, body);
  }

  lemma {:induction false} StandingRange(input: seq<byte>, a: int, ks: seq<Item>, b: int, sent: seq<bool>, h: seq<byte>,
                                         bodies: seq<Body>)
    requires Standing(input, a, ks, b, sent, h, bodies)
    ensures 0 <= a <= b <= |input|
  {
    hide Leads, AppendAll, Parses, Reach;
  }

  lemma {:induction false} StandingReach(input: seq<byte>, a: int, ks: seq<Item>, b: int, sent: seq<bool>, h: seq<byte>,
                                         bodies: seq<Body>)
    requires Standing(input, a, ks, b, sent, h, bodies)
    ensures a >= 0 && Reach(a, ks) == b
  {
    hide Leads, AppendAll, Parses, Reach;
  }

  lemma {:induction false} WindowSize(d: Deflater)
    requires d.Windowed()
    ensures d.strstart + d.lookahead <= WINDOW_SIZE && d.window.Length == WINDOW_SIZE + MAX_MATCH
  {
  }

  // --------------------------------------------------------------------- one step

  /** Insert the other strings of a match, prevLength of them. */
  method InsertRest(d: Deflater)
    requires d.Shaped() && Chains(d.window[..], d.head[..], d.prev[..], d.strstart + 1)
    requires d.strstart + d.prevLength + 3 <= WINDOW_SIZE
    requires Running(d.insH, d.window[d.strstart + 1], d.window[d.strstart + 2]) && d.prevLength >= 1
    modifies d`insH, d`strstart, d`prevLength, d.prev, d.head
    ensures d.strstart == old(d.strstart) + old(d.prevLength)
    ensures Chains(d.window[..], d.head[..], d.prev[..], d.strstart + 1)
    ensures Running(d.insH, d.window[d.strstart + 1], d.window[d.strstart + 2])
  {
    hide Chains, Running, KeyAt;
    var more := true;
    while more
      invariant d.strstart + d.prevLength == old(d.strstart) + old(d.prevLength) && (more <==> d.prevLength > 0)
      invariant Chains(d.window[..], d.head[..], d.prev[..], d.strstart + 1)
      invariant Running(d.insH, d.window[d.strstart + 1], d.window[d.strstart + 2])
      decreases d.prevLength
    {
      d.strstart := d.strstart + 1;
      var hashHead := d.InsertString(d.strstart);
      d.prevLength := d.prevLength - 1;
      more := d.prevLength != 0;
    }
  }

  /** Some lookahead is left even before more is read. */
  ghost predicate Fed(d: Deflater)
    reads d
  {
    d.eofile || d.lookahead >= 2
  }

  /** Output the match at hand, for the string before strstart. */
  method EmitMatch(d: Deflater, t: Trees, w: BitSink, prevMatch: nat, level: nat, ghost h: seq<byte>,
                   ghost bodies: seq<Body>)
    returns (flush: bool)
    requires Apart(d, t) && Room(t)
    requires Going(t, w, d.src.input, d.origin + d.blockStart, d.origin + d.strstart - 1, h, bodies)
    requires MIN_MATCH <= d.prevLength <= MAX_MATCH && 1 <= d.strstart <= WINDOW_SIZE && prevMatch < WORD
    requires Pending(d.src.input, d.origin + d.strstart - 1, d.prevLength, prevMatch, d.strstart - 1)
    modifies t.tally, t.Buffers(), t.dyn.lFc, t.dyn.dFc
    ensures Going(t, w, d.src.input, d.origin + d.blockStart, d.origin + d.strstart - 1 + d.prevLength, h, bodies)
    ensures (flush || Room(t)) && (flush <==> Due(t.tally.toks, level))
    ensures var k := Back(d.prevLength, Distance16(d.strstart - 1, prevMatch));
            t.tally.all == old(t.tally.all) + [k] && t.tally.toks == old(t.tally.toks) + [k]
  {
    hide Standing, Trees.Valid, GzipBits.Holds, TrueCopy, Due;
    BlockLength(t, w, d.src.input, d.origin + d.blockStart, d.origin + d.strstart - 1, h, bodies);
    var dist := Distance16(d.strstart - 1, prevMatch);
    ghost var k := Back(d.prevLength, dist);
    PendingTells(d.src.input, d.origin + d.strstart - 1, d.prevLength, prevMatch, d.strstart - 1);
    flush := Emit(t, w, dist, d.prevLength - MIN_MATCH, level, d.strstart - d.blockStart, k, d.src.input,
                  d.origin + d.blockStart, d.origin + d.strstart - 1, h, bodies);
  }

  /** Go to the end of the match at hand. */
  method SkipMatch(d: Deflater)
    requires Inserted(d) && (d.eofile || d.lookahead >= MIN_LOOKAHEAD)
    requires MIN_MATCH <= d.prevLength <= MAX_MATCH && d.prevLength <= d.lookahead + 1 && d.strstart >= 1
    modifies d`lookahead, d`prevLength, d`strstart, d`insH, d.prev, d.head
    ensures d.Chained() && Fed(d) && d.strstart == old(d.strstart) - 1 + old(d.prevLength)
  {
    hide Shows, Chains, Running, KeyAt;
    WindowSize(d);
    d.lookahead := d.lookahead - (d.prevLength - 1);
    d.prevLength := d.prevLength - 2;
    InsertRest(d);
    d.strstart := d.strstart + 1;
  }

  /** The trees and what was sent have nothing to do with it. */
  method SkipOver(d: Deflater, t: Trees, w: BitSink, ghost a: int, ghost b: int, ghost h: seq<byte>,
                  ghost bodies: seq<Body>)
    requires Inserted(d) && (d.eofile || d.lookahead >= MIN_LOOKAHEAD) && Apart(d, t)
    requires MIN_MATCH <= d.prevLength <= MAX_MATCH && d.prevLength <= d.lookahead + 1 && d.strstart >= 1
    requires Going(t, w, d.src.input, a, b, h, bodies)
    modifies d`lookahead, d`prevLength, d`strstart, d`insH, d.prev, d.head
    ensures d.Chained() && Fed(d) && d.strstart == old(d.strstart) - 1 + old(d.prevLength)
    ensures Going(t, w, d.src.input, a, b, h, bodies)
  {
    hide Going, Deflater.Chained, Inserted, Fed;
    SkipMatch(d);
  }

  lemma {:induction false} PendingTells(input: seq<byte>, at: nat, len: nat, m: nat, s: nat)
    requires Pending(input, at, len, m, s)
    ensures Tells(input, at, Back(len, Distance16(s, m))) && Distance16(s, m) >= 1
  {
  }

  lemma {:induction false} BlockLength(t: Trees, w: BitSink, input: seq<byte>, a: int, b: int, h: seq<byte>,
                                       bodies: seq<Body>)
    requires Going(t, w, input, a, b, h, bodies)
    ensures 0 <= a <= b <= |input|
  {
    hide Trees.Valid, GzipBits.Holds;
    StandingRange(input, a, t.tally.toks, b, w.sent, h, bodies);
  }

  /** Output the byte before strstart. */
  method TakeLiteral(d: Deflater, t: Trees, w: BitSink, level: nat, ghost h: seq<byte>, ghost bodies: seq<Body>)
    returns (flush: bool)
    requires d.Windowed() && Apart(d, t) && Room(t) && d.strstart >= 1
    requires Going(t, w, d.src.input, d.origin + d.blockStart, d.origin + d.strstart - 1, h, bodies)
    modifies t.tally, t.Buffers(), t.dyn.lFc, t.dyn.dFc
    ensures Going(t, w, d.src.input, d.origin + d.blockStart, d.origin + d.strstart, h, bodies) && (flush || Room(t))
    ensures var k := Lit(d.window[d.strstart - 1]);
            t.tally.all == old(t.tally.all) + [k] && t.tally.toks == old(t.tally.toks) + [k]
    ensures flush <==> Due(t.tally.toks, level)
  {
    hide Standing, Trees.Valid, GzipBits.Holds, Shows, Due;
    WindowSize(d);
    BlockLength(t, w, d.src.input, d.origin + d.blockStart, d.origin + d.strstart - 1, h, bodies);
    ShowsAt(d.window[..], d.src.input, d.origin, d.strstart + d.lookahead, d.src.pos, d.strstart - 1);
    var c := d.window[d.strstart - 1];
    flush := Emit(t, w, 0, c, level, d.strstart - d.blockStart, Lit(c), d.src.input, d.origin + d.blockStart,
                  d.origin + d.strstart - 1, h, bodies);
  }

  /** Between two strings: what is spelled, and the match that waits, if there is one. */
  ghost predicate Ready(d: Deflater, t: Trees, w: BitSink, available: bool, m: nat, h: seq<byte>, bodies: seq<Body>)
    reads d, d.src, t, t.work, t.tally, t.Scratch(), t.Buffers(), t.dyn.Arrays(), w
  {
    && Apart(d, t)
    && Going(t, w, d.src.input, d.origin + d.blockStart,
             d.origin + d.strstart - (if available then 1 else 0), h, bodies)
    && Room(t)
    && Waiting(d, available, m)
  }

  ghost predicate Waiting(d: Deflater, available: bool, m: nat)
    reads d, d.src
  {
    && d.matchStart < WORD && m <= MAX_MATCH && (available ==> d.strstart >= 1) && (d.lookahead > 0 ==> m >= 2)
    && (m >= MIN_MATCH ==>
          available && m <= d.lookahead + 1
          && Pending(d.src.input, d.origin + d.strstart - 1, m, d.matchStart, d.strstart - 1))
  }

  /** Always have enough lookahead, except at the end of the input. */
  method Refill(d: Deflater, ghost available: bool, ghost m: nat)
    requires d.Chained() && Fed(d) && d.strstart > 0 && Waiting(d, available, m)
    modifies d`strstart, d`matchStart, d`blockStart, d`origin, d`lookahead, d`eofile, d.src`pos, d.window, d.head,
             d.prev
    ensures d.Valid() && Waiting(d, available, m) && d.origin + d.strstart == old(d.origin + d.strstart)
    ensures d.origin + d.blockStart == old(d.origin + d.blockStart)
    ensures d.strstart > 0
  {
    hide Shows, Chains, Running, KeyAt, Pending;
    while d.lookahead < MIN_LOOKAHEAD && !d.eofile
      invariant d.Chained() && Fed(d) && d.strstart > 0 && Waiting(d, available, m)
      invariant d.origin + d.strstart == old(d.origin + d.strstart)
      invariant d.origin + d.blockStart == old(d.origin + d.blockStart)
      decreases !d.eofile, MIN_LOOKAHEAD - d.lookahead
    {
      ghost var s0, m0, b0, o0, l0 := d.strstart, d.matchStart, d.blockStart, d.origin, d.lookahead;
      d.FillWindow();
      WaitingSlid(d, available, m, s0, m0, b0, o0, l0);
    }
  }

  lemma {:induction false} WaitingSlid(d: Deflater, available: bool, m: nat, s0: nat, m0: nat, b0: int, o0: nat,
                                       l0: nat)
    requires Slid(s0, d.strstart, m0, d.matchStart, b0, d.blockStart, o0, d.origin) && s0 > 0 && l0 <= d.lookahead
    requires 2 <= l0
    requires m0 < WORD && m <= MAX_MATCH && m >= 2
    requires m >= MIN_MATCH ==> available && m <= l0 + 1 && Pending(d.src.input, o0 + s0 - 1, m, m0, s0 - 1)
    ensures Waiting(d, available, m) && d.origin + d.strstart == o0 + s0 && d.origin + d.blockStart == o0 + b0
    ensures d.strstart > 0
  {
    hide Pending;
    if m >= MIN_MATCH {
      PendingSlid(d.src.input, o0 + s0 - 1, m, m0, s0, d.matchStart, d.strstart, b0, d.blockStart, o0, d.origin);
    }
  }

  /** Go on to the next string. */
  method MoveOn(d: Deflater)
    requires Inserted(d) && (d.eofile || d.lookahead >= MIN_LOOKAHEAD)
    modifies d`lookahead, d`strstart
    ensures d.Chained() && Fed(d) && d.strstart == old(d.strstart) + 1 && d.lookahead == old(d.lookahead) - 1
  {
    hide Shows, Chains, Running, KeyAt;
    d.strstart := d.strstart + 1;
    d.lookahead := d.lookahead - 1;
  }

  /** The looks and the items so far, with m found for the byte that is available. */
  ghost predicate LazyNow(d: Deflater, t: Trees, available: bool, m: nat)
    reads d, d.src, d.looks, t.tally
  {
    LazyState(d.src.input, d.config, t.tally.all, d.looks.steps, d.looks.prior,
              d.origin + d.strstart - (if available then 1 else 0), available, m)
  }

  /** The items so far and the blocks they went to. */
  ghost predicate SplitNow(d: Deflater, t: Trees, w: BitSink, level: nat)
    reads d`origin, d`blockStart, d.looks`cuts, t.tally`all, t.tally`toks, w`sent
  {
    Split(d.src.input, level, d.looks.cuts, w.sent, d.origin + d.blockStart, t.tally.all, t.tally.toks)
  }

  /** The block at hand goes on. */
  ghost predicate GoesOn(d: Deflater, t: Trees, w: BitSink, level: nat)
    reads d`origin, d`blockStart, d.looks`cuts, t.tally`all, t.tally`toks, w`sent
  {
    SplitNow(d, t, w, level) && !Due(t.tally.toks, level)
  }

  /** If ct_tally has said so: FLUSH_BLOCK(0), block_start = strstart. */
  method FlushIf(d: Deflater, t: Trees, w: BitSink, flush: bool, ghost level: nat, ghost at: int,
                 ghost available: bool, ghost m: nat, ghost h: seq<byte>, ghost bodies: seq<Body>)
    returns (ghost bodies2: seq<Body>)
    requires LazyState(d.src.input, d.config, t.tally.all, d.looks.steps, d.looks.prior, at, available, m)
    requires d.Windowed() && Apart(d, t) && SplitNow(d, t, w, level) && (flush <==> Due(t.tally.toks, level))
    requires Going(t, w, d.src.input, d.origin + d.blockStart, d.origin + d.strstart, h, bodies) && (flush || Room(t))
    modifies d`blockStart, d.looks`cuts, w, t, t.work, t.tally, t.Scratch(), t.Buffers(), t.dyn.Arrays()
    ensures (old(d.Chained()) ==> d.Chained()) && (old(Inserted(d)) ==> Inserted(d)) && Room(t)
    ensures GoesOn(d, t, w, level)
    ensures LazyState(d.src.input, d.config, t.tally.all, d.looks.steps, d.looks.prior, at, available, m)
    ensures Going(t, w, d.src.input, d.origin + d.blockStart, d.origin + d.strstart, h, bodies2)
  {
    hide Shows, Chains, Running, KeyAt, Going, Split, Due, CutOk, LazyState;
    bodies2 := bodies;
    if flush {
      ghost var cut, sent := Cut([], 0, 0, false, [], [], Coded([])), w.sent;
      bodies2, cut := Flush(d, t, w, h, bodies);
      SplitCut(d.src.input, level, d.looks.cuts, sent, t.tally.all, cut);
      d.blockStart := d.strstart;
      d.looks.cuts := d.looks.cuts + [cut];
    }
  }

  /** Output it, and keep what led to it. */
  method OutputMatch(d: Deflater, t: Trees, w: BitSink, prevMatch: nat, level: nat, ghost next: nat, ghost h: seq<byte>,
                     ghost bodies: seq<Body>)
    returns (flush: bool)
    requires Apart(d, t) && Room(t)
    requires Going(t, w, d.src.input, d.origin + d.blockStart, d.origin + d.strstart - 1, h, bodies)
    requires MIN_MATCH <= d.prevLength <= MAX_MATCH && 1 <= d.strstart <= WINDOW_SIZE && prevMatch < WORD
    requires Pending(d.src.input, d.origin + d.strstart - 1, d.prevLength, prevMatch, d.strstart - 1)
    requires LazyNow(d, t, true, d.prevLength) && next <= d.prevLength && GoesOn(d, t, w, level)
    requires Finds(d.src.input, d.origin + d.strstart, d.prevLength, next, d.config)
    modifies d.looks`steps, t.tally, t.Buffers(), t.dyn.lFc, t.dyn.dFc
    ensures Going(t, w, d.src.input, d.origin + d.blockStart, d.origin + d.strstart - 1 + d.prevLength, h, bodies)
    ensures (flush || Room(t)) && SplitNow(d, t, w, level) && (flush <==> Due(t.tally.toks, level))
    ensures LazyState(d.src.input, d.config, t.tally.all, d.looks.steps, d.looks.prior,
                      d.origin + d.strstart - 1 + d.prevLength, false, 2)
  {
    hide NearestCopy, Going, LazyState, Finds, Split, Due;
    SplitMore(d.src.input, level, d.looks.cuts, w.sent, d.origin + d.blockStart, t.tally.all, t.tally.toks,
              Back(d.prevLength, Distance16(d.strstart - 1, prevMatch)));
    StateMatch(d.src.input, d.config, t.tally.all, d.looks.steps, d.looks.prior, d.origin + d.strstart - 1,
               d.prevLength, next, Distance16(d.strstart - 1, prevMatch), d.looks.prior);
    flush := EmitMatch(d, t, w, prevMatch, level, h, bodies);
    d.looks.steps := d.looks.steps + [View(d.looks.prior, d.prevLength, next)];
  }

  /** The match at hand is output, and its strings are inserted; the next look has found next. */
  method PassMatch(d: Deflater, t: Trees, w: BitSink, prevMatch: nat, level: nat, ghost next: nat, ghost h: seq<byte>,
                   ghost bodies: seq<Body>)
    returns (flush: bool)
    requires Inserted(d) && (d.eofile || d.lookahead >= MIN_LOOKAHEAD) && Apart(d, t) && Room(t)
    requires Going(t, w, d.src.input, d.origin + d.blockStart, d.origin + d.strstart - 1, h, bodies)
    requires MIN_MATCH <= d.prevLength <= MAX_MATCH && d.prevLength <= d.lookahead + 1 && d.strstart >= 1
    requires prevMatch < WORD
    requires Pending(d.src.input, d.origin + d.strstart - 1, d.prevLength, prevMatch, d.strstart - 1)
    requires LazyNow(d, t, true, d.prevLength) && next <= d.prevLength && GoesOn(d, t, w, level)
    requires Finds(d.src.input, d.origin + d.strstart, d.prevLength, next, d.config)
    modifies d`insH, d`prevLength, d`lookahead, d`strstart, d.looks`steps, d.prev, d.head, t.tally, t.Buffers(),
             t.dyn.lFc, t.dyn.dFc
    ensures d.Chained() && Fed(d) && d.strstart > old(d.strstart) && (flush || Room(t))
    ensures Going(t, w, d.src.input, d.origin + d.blockStart, d.origin + d.strstart, h, bodies)
    ensures LazyNow(d, t, false, 2) && SplitNow(d, t, w, level) && (flush <==> Due(t.tally.toks, level))
  {
    hide Shows, Chains, Running, KeyAt, Pending, Going, Deflater.Chained, Deflater.Windowed, Inserted, LazyState, Finds,
         Split, Due, Fed;
    assert d.strstart <= WINDOW_SIZE by { InsertedRange(d); }
    flush := OutputMatch(d, t, w, prevMatch, level, next, h, bodies);
    SkipOver(d, t, w, d.origin + d.blockStart, d.origin + d.strstart - 1 + d.prevLength, h, bodies);
  }

  method StepMatch(d: Deflater, t: Trees, w: BitSink, prevMatch: nat, level: nat, ghost next: nat, ghost h: seq<byte>,
                   ghost bodies: seq<Body>)
    returns (ghost bodies2: seq<Body>)
    requires Inserted(d) && (d.eofile || d.lookahead >= MIN_LOOKAHEAD) && Apart(d, t) && Room(t)
    requires Going(t, w, d.src.input, d.origin + d.blockStart, d.origin + d.strstart - 1, h, bodies)
    requires MIN_MATCH <= d.prevLength <= MAX_MATCH && d.prevLength <= d.lookahead + 1 && d.strstart >= 1
    requires prevMatch < WORD
    requires Pending(d.src.input, d.origin + d.strstart - 1, d.prevLength, prevMatch, d.strstart - 1)
    requires LazyNow(d, t, true, d.prevLength) && next <= d.prevLength && GoesOn(d, t, w, level)
    requires Finds(d.src.input, d.origin + d.strstart, d.prevLength, next, d.config)
    modifies d`insH, d`prevLength, d`lookahead, d`strstart, d`blockStart, d.looks, d.prev, d.head, w, t, t.work,
             t.tally, t.Scratch(), t.Buffers(), t.dyn.Arrays()
    ensures d.Chained() && Fed(d) && d.strstart > old(d.strstart) && Room(t)
    ensures Going(t, w, d.src.input, d.origin + d.blockStart, d.origin + d.strstart, h, bodies2)
    ensures LazyNow(d, t, false, 2) && GoesOn(d, t, w, level)
  {
    hide Shows, Chains, Running, KeyAt, Pending, Going, Deflater.Chained, Deflater.Windowed, Inserted, LazyState, Finds,
         Split, Due, SplitNow, GoesOn;
    var flush := PassMatch(d, t, w, prevMatch, level, next, h, bodies);
    ChainedWindow(d);
    bodies2 := FlushIf(d, t, w, flush, level, d.origin + d.strstart, false, 2, h, bodies);
  }

  lemma {:induction false} InsertedRange(d: Deflater)
    requires Inserted(d)
    ensures d.strstart + 3 <= WINDOW_SIZE && d.lookahead > 0 && d.Windowed()
  {
  }

  lemma {:induction false} ChainedWindow(d: Deflater)
    requires d.Chained()
    ensures d.Windowed()
  {
  }

  method OutputLiteral(d: Deflater, t: Trees, w: BitSink, level: nat, ghost m: nat, ghost next: nat, ghost h: seq<byte>,
                       ghost bodies: seq<Body>)
    returns (flush: bool)
    requires d.Windowed() && Apart(d, t) && Room(t) && d.strstart >= 1
    requires Going(t, w, d.src.input, d.origin + d.blockStart, d.origin + d.strstart - 1, h, bodies)
    requires LazyNow(d, t, true, m) && (m >= 3 || next >= 3 ==> next > m) && GoesOn(d, t, w, level)
    requires Finds(d.src.input, d.origin + d.strstart, m, next, d.config)
    modifies d.looks`steps, d.looks`prior, t.tally, t.Buffers(), t.dyn.lFc, t.dyn.dFc
    ensures Going(t, w, d.src.input, d.origin + d.blockStart, d.origin + d.strstart, h, bodies) && (flush || Room(t))
    ensures SplitNow(d, t, w, level) && (flush <==> Due(t.tally.toks, level))
    ensures LazyState(d.src.input, d.config, t.tally.all, d.looks.steps, d.looks.prior, d.origin + d.strstart, true,
                      next)
  {
    hide Going, LazyState, Finds, Shows, Split, Due;
    WindowSize(d);
    SplitMore(d.src.input, level, d.looks.cuts, w.sent, d.origin + d.blockStart, t.tally.all, t.tally.toks,
              Lit(d.window[d.strstart - 1]));
    StateLiteral(d.src.input, d.config, t.tally.all, d.looks.steps, d.looks.prior, d.origin + d.strstart - 1, m, next,
                 d.window[d.strstart - 1]);
    flush := TakeLiteral(d, t, w, level, h, bodies);
    d.looks.steps, d.looks.prior := d.looks.steps + [View(d.looks.prior, m, next)], m;
  }

  /** The byte before is output, for which m was found; the next look has found next. */
  method StepLiteral(d: Deflater, t: Trees, w: BitSink, level: nat, ghost m: nat, ghost next: nat, ghost h: seq<byte>,
                     ghost bodies: seq<Body>)
    returns (ghost bodies2: seq<Body>)
    requires Inserted(d) && (d.eofile || d.lookahead >= MIN_LOOKAHEAD) && Apart(d, t) && Room(t) && d.strstart >= 1
    requires Going(t, w, d.src.input, d.origin + d.blockStart, d.origin + d.strstart - 1, h, bodies)
    requires LazyNow(d, t, true, m) && (m >= 3 || next >= 3 ==> next > m) && GoesOn(d, t, w, level)
    requires Finds(d.src.input, d.origin + d.strstart, m, next, d.config)
    modifies d`lookahead, d`strstart, d`blockStart, d.looks, w, t, t.work, t.tally, t.Scratch(), t.Buffers(),
             t.dyn.Arrays()
    ensures d.Chained() && Fed(d) && d.strstart == old(d.strstart) + 1 && d.lookahead == old(d.lookahead) - 1 && Room(t)
    ensures Going(t, w, d.src.input, d.origin + d.blockStart, d.origin + d.strstart - 1, h, bodies2)
    ensures LazyNow(d, t, true, next) && GoesOn(d, t, w, level)
  {
    hide Shows, Chains, Running, KeyAt, Pending, Going, Deflater.Chained, Deflater.Windowed, Inserted, LazyState, Finds,
         Split, Due, SplitNow, GoesOn, Fed;
    InsertedRange(d);
    var flush := OutputLiteral(d, t, w, level, m, next, h, bodies);
    bodies2 := FlushIf(d, t, w, flush, level, d.origin + d.strstart, true, next, h, bodies);
    MoveOn(d);
  }

  /** One string: output the match that waits, unless there is a better one here, or the byte
      before, or wait. */
  method Step(d: Deflater, t: Trees, w: BitSink, level: nat, available: bool, matchLength: nat, ghost h: seq<byte>,
              ghost bodies: seq<Body>)
    returns (available2: bool, m: nat, ghost bodies2: seq<Body>)
    requires d.Valid() && d.lookahead > 0 && Ready(d, t, w, available, matchLength, h, bodies)
    requires LazyNow(d, t, available, matchLength) && GoesOn(d, t, w, level)
    modifies d`insH, d`prevLength, d`matchStart, d`lookahead, d`strstart, d`blockStart, d.looks, d.prev, d.head,
             w, t, t.work, t.tally, t.Scratch(), t.Buffers(), t.dyn.Arrays()
    ensures d.Chained() && Fed(d) && d.strstart > 0 && Ready(d, t, w, available2, m, h, bodies2)
    ensures d.origin + d.strstart > old(d.origin + d.strstart) && LazyNow(d, t, available2, m) && GoesOn(d, t, w, level)
  {
    hide Shows, Chains, Running, KeyAt, Pending, Going, Deflater.Windowed, Deflater.Chained, Inserted, LazyState, Finds,
         Split, Due;
    bodies2 := bodies;
    var prevMatch;
    m, prevMatch := Look(d, matchLength);
    if d.prevLength >= MIN_MATCH && m <= d.prevLength {
      bodies2 := StepMatch(d, t, w, prevMatch, level, m, h, bodies);
      available2, m := false, MIN_MATCH - 1;
    } else if available {
      bodies2 := StepLiteral(d, t, w, level, matchLength, m, h, bodies);
      available2 := true;
    } else {
      StateWait(d.src.input, d.config, t.tally.all, d.looks.steps, d.looks.prior, d.origin + d.strstart, m);
      MoveOn(d);
      d.looks.prior := matchLength;
      available2 := true;
    }
  }

  // --------------------------------------------------------------------- the whole

  /** A stream of bytes that starts with sent is blocks that spell the input. */
  ghost predicate Deflated(sent: seq<bool>, h: seq<byte>, input: seq<byte>, pad: seq<bool>) {
    |pad| < 8 && forall t: seq<bool> :: |t| % 8 == 0 ==> Spells(sent + t, h, input, pad + t)
  }

  lemma {:induction false} DeflatedNow(input: seq<byte>, a: int, ks: seq<Item>, sent: seq<bool>, h: seq<byte>,
                                       bodies: seq<Body>,
                                       bits: seq<bool>, body: Body, here: bool, buf: seq<byte>, pad: seq<bool>)
    requires Standing(input, a, ks, |input|, sent, h, bodies) && ReadsAs(bits, true, body, |sent| + |bits|)
    requires BodyOf(body, here, buf, ks) && (here ==> buf == input[a..|input|]) && |pad| == Fill(|sent| + |bits|)
    ensures Deflated(sent + bits + pad, h, input, pad)
  {
    hide Standing, ReadsAs, BodyOf, Spells;
    forall t: seq<bool> | |t| % 8 == 0 ensures Spells((sent + bits + pad) + t, h, input, pad + t) {
      assert (sent + bits + pad) + t == (sent + bits) + (pad + t);
      StandingRange(input, a, ks, |input|, sent, h, bodies);
      StandingLast(input, a, ks, sent, h, bodies, bits, body, here, buf, pad + t);
    }
  }

  /** The stream is the blocks, the last one of which ends with the input, and a filling. */
  ghost predicate Ended(input: seq<byte>, level: nat, cs: seq<Cut>, sent: seq<bool>, all: seq<Item>, pad: seq<bool>) {
    |pad| <= |sent| && sent[|sent| - |pad|..] == pad && AllCut(input, level, cs, sent[..|sent| - |pad|], all)
  }

  /** The last byte, if it waits. */
  method LastLiteral(d: Deflater, t: Trees, w: BitSink, level: nat, available: bool, ghost m: nat, ghost h: seq<byte>,
                     ghost bodies: seq<Body>)
    requires d.Windowed() && d.lookahead == 0 && d.eofile && Apart(d, t) && Room(t) && (available ==> d.strstart >= 1)
    requires Going(t, w, d.src.input, d.origin + d.blockStart,
                   d.origin + d.strstart - (if available then 1 else 0), h, bodies)
    requires LazyNow(d, t, available, m) && m < 3 && GoesOn(d, t, w, level)
    modifies d.looks`steps, t.tally, t.Buffers(), t.dyn.lFc, t.dyn.dFc
    ensures Going(t, w, d.src.input, d.origin + d.blockStart, d.origin + d.strstart, h, bodies)
    ensures Lazily(d.src.input, d.config, t.tally.all, d.looks.steps, |d.src.input|) && SplitNow(d, t, w, level)
  {
    hide Going, Shows, Lazily, Finds, Follows, Split, Due;
    WindowSize(d);
    AtEnd(d);
    if available {
      StateLast(d.src.input, d.config, t.tally.all, d.looks.steps, d.looks.prior, d.origin + d.strstart - 1, m,
                d.window[d.strstart - 1]);
      SplitMore(d.src.input, level, d.looks.cuts, w.sent, d.origin + d.blockStart, t.tally.all, t.tally.toks,
                Lit(d.window[d.strstart - 1]));
      var flush := TakeLiteral(d, t, w, level, h, bodies);
      d.looks.steps := d.looks.steps + [View(d.looks.prior, m, 0)];
    }
  }

  /** The last byte, if it waits, and the last block. */
  method Finish(d: Deflater, t: Trees, w: BitSink, level: nat, available: bool, ghost m: nat, ghost h: seq<byte>,
                ghost bodies: seq<Body>)
    returns (bytes: nat, ghost pad: seq<bool>)
    requires d.Windowed() && d.lookahead == 0 && d.eofile && Apart(d, t) && Room(t) && (available ==> d.strstart >= 1)
    requires Going(t, w, d.src.input, d.origin + d.blockStart,
                   d.origin + d.strstart - (if available then 1 else 0), h, bodies)
    requires LazyNow(d, t, available, m) && m < 3 && GoesOn(d, t, w, level)
    modifies d.looks, w, t, t.work, t.tally, t.Scratch(), t.Buffers(), t.dyn.Arrays()
    ensures Deflated(w.sent, h, d.src.input, pad) && w.sent == ByteLsb(w.out)
    ensures |w.sent| + 8 < LONG ==> bytes == |w.out|
    ensures Told(d.src.input, t.tally.all, |d.src.input|)
    ensures Lazily(d.src.input, d.config, t.tally.all, d.looks.steps, |d.src.input|)
    ensures Ended(d.src.input, level, d.looks.cuts, w.sent, t.tally.all, pad)
  {
    hide Standing, Trees.Valid, GzipBits.Holds, Shows, ReadsAs, BodyOf, BlockOf, Told, Lsb, ByteLsb,
         Deflated, Lazily, Finds, Follows, LazyState, Split, Due, AllCut;
    WindowSize(d);
    LastLiteral(d, t, w, level, available, m, h, bodies);
    ghost var a, ks, s0, input := d.origin + d.blockStart, t.tally.toks, w.sent, d.src.input;
    AtEnd(d);
    StandingRange(input, a, ks, |input|, s0, h, bodies);
    var here := d.blockStart >= 0;
    var buf := [];
    if here {
      buf := d.window[d.blockStart..d.strstart];
      ShowsSlice(d.window[..], input, d.origin, d.strstart + d.lookahead, d.src.pos, d.blockStart, d.strstart);
    }
    ghost var bits, body, dyn;
    bytes, bits, body, dyn := FlushBlock(t, w, buf, here, d.strstart - d.blockStart, true);
    pad := Lsb(0, Fill(|s0| + |bits|));
    BlockReads(bits, true, body, |s0|, here, buf, dyn, ks);
    DeflatedNow(input, a, ks, s0, h, bodies, bits, body, here, buf, pad);
    assert w.sent == s0 + bits + pad;
    ghost var cut := Cut(ks, a, d.origin + d.strstart, here, bits, dyn, body);
    SplitLast(input, level, d.looks.cuts, s0, t.tally.all, cut);
    d.looks.cuts := d.looks.cuts + [cut];
  }

  lemma {:induction false} AtEnd(d: Deflater)
    requires d.Windowed() && d.lookahead == 0 && d.eofile
    ensures d.origin + d.strstart == |d.src.input|
  {
  }

  /** One turn of the loop of deflate. */
  method StepAndRefill(d: Deflater, t: Trees, w: BitSink, level: nat, available: bool, matchLength: nat,
                       ghost h: seq<byte>, ghost bodies: seq<Body>)
    returns (available2: bool, m: nat, ghost bodies2: seq<Body>)
    requires d.Valid() && d.lookahead > 0 && Ready(d, t, w, available, matchLength, h, bodies)
    requires LazyNow(d, t, available, matchLength) && GoesOn(d, t, w, level)
    modifies d, d.looks, d.src`pos, d.window, d.prev, d.head, w, t, t.work, t.tally, t.Scratch(), t.Buffers(),
             t.dyn.Arrays()
    ensures d.Valid() && Ready(d, t, w, available2, m, h, bodies2) && LazyNow(d, t, available2, m)
    ensures GoesOn(d, t, w, level)
    ensures d.origin + d.strstart > old(d.origin + d.strstart)
  {
    hide Going, Deflater.Valid, Deflater.Chained, Deflater.Windowed, LazyState, Split, Due;
    available2, m, bodies2 := Step(d, t, w, level, available, matchLength, h, bodies);
    Refill(d, available2, m);
  }

  /** deflate: every item tallied is a byte of the input or a true copy from 1 to MAX_DIST back,
      one after the other to its end; the bytes written are blocks that spell the input, whatever
      bytes follow and whatever h the reader has in its window; the number returned is theirs. */
  method DeflateAll(d: Deflater, t: Trees, w: BitSink, level: nat, ghost h: seq<byte>)
    returns (bytes: nat, ghost pad: seq<bool>)
    requires d.Valid() && d.strstart == 0 && d.blockStart == 0 && d.origin == 0 && d.matchStart < WORD && Apart(d, t)
    requires d.looks.steps == [] && d.looks.cuts == []
    requires t.Valid() && t.tally.toks == t.tally.all == [] && t.compressedLen == 0
    requires w.Valid() && w.sent == [] && |h| >= 0x8000
    modifies d, d.looks, d.src`pos, d.window, d.prev, d.head, w, t, t.work, t.tally, t.Scratch(), t.Buffers(),
             t.dyn.Arrays()
    ensures Deflated(w.sent, h, d.src.input, pad) && w.sent == ByteLsb(w.out)
    ensures |w.sent| + 8 < LONG ==> bytes == |w.out|
    ensures Told(d.src.input, t.tally.all, |d.src.input|)
    ensures Lazily(d.src.input, d.config, t.tally.all, d.looks.steps, |d.src.input|)
    ensures Ended(d.src.input, level, d.looks.cuts, w.sent, t.tally.all, pad)
  {
    hide Standing, Trees.Valid, GzipBits.Holds, Going, Deflated, Deflater.Valid, Deflater.Chained, Deflater.Windowed,
         LazyState, Lazily, Told, Split, Due, Ended;
    StateStart(d.src.input, d.config, d.looks.prior);
    SplitNone(d.src.input, level);
    var available: bool, m: nat := false, MIN_MATCH - 1;
    ghost var bodies: seq<Body> := [];
    GoingStart(t, w, d.src.input, h);
    InInput(d);
    while d.lookahead != 0
      invariant d.Valid() && Ready(d, t, w, available, m, h, bodies) && LazyNow(d, t, available, m)
      invariant GoesOn(d, t, w, level)
      decreases |d.src.input| - (d.origin + d.strstart)
    {
      available, m, bodies := StepAndRefill(d, t, w, level, available, m, h, bodies);
      InInput(d);
    }
    InInput(d);
    bytes, pad := Finish(d, t, w, level, available, m, h, bodies);
  }

  lemma {:induction false} InInput(d: Deflater)
    requires d.Valid()
    ensures d.origin + d.strstart + d.lookahead <= |d.src.input| && d.Windowed()
    ensures (d.eofile || d.lookahead >= MIN_LOOKAHEAD)
  {
  }

  lemma {:induction false} GoingStart(t: Trees, w: BitSink, input: seq<byte>, h: seq<byte>)
    requires t.Valid() && t.tally.toks == t.tally.all == [] && t.compressedLen == 0
    requires w.Valid() && w.sent == [] && |h| >= 0x8000
    ensures Going(t, w, input, 0, 0, h, [])
  {
    hide Trees.Valid, GzipBits.Holds, Standing;
    StandingNone(input, h);
  }
}
