/** The sliding window and the hash chains of archive/gzip/deflate.c. */
module DeflateWindow {
  import opened BitString
  import opened DeflateHash
  import opened DeflateText

  const HASH_SIZE: nat := 0x4000
  const WINDOW_SIZE: nat := 0x8000
  const NIL: nat := 0

  // ---------------------------------------------------------------------- chains

  function KeyAt(win: seq<byte>, p: nat): nat
    requires p + 2 < |win|
  {
    Key(win[p], win[p + 1], win[p + 2])
  }

  /** No string after m and before s has key k. */
  ghost predicate NoneSince(win: seq<byte>, m: nat, s: nat, k: nat)
    requires s + 2 <= |win|
  {
    forall p: nat :: m < p < s ==> KeyAt(win, p) != k
  }

  /** m is the last string with key k before s; or it is NIL, and there is none, the one at 0 aside. */
  ghost predicate Latest(win: seq<byte>, m: nat, s: nat, k: nat)
    requires s + 2 <= |win|
  {
    (m == NIL || (m < s && KeyAt(win, m) == k)) && NoneSince(win, m, s, k)
  }

  /** The latest string with key k, or none; all strings before s are inserted. */
  ghost predicate HeadOk(win: seq<byte>, head: seq<nat>, s: nat, k: nat)
    requires k < |head| && s + 2 <= |win|
  {
    Latest(win, head[k], s, k)
  }

  /** The string linked to p is the latest one before it with the same key, or none. */
  ghost predicate PrevOk(win: seq<byte>, prev: seq<nat>, p: nat)
    requires |prev| == WSIZE && p + 2 < |win|
  {
    Latest(win, prev[p % WSIZE], p, KeyAt(win, p))
  }

  /** All heads are in order, and the links of the last WSIZE strings before s. */
  ghost predicate Chains(win: seq<byte>, head: seq<nat>, prev: seq<nat>, s: nat) {
    && |head| == HASH_SIZE && |prev| == WSIZE && s + 2 <= |win|
    && (forall k :: 0 <= k < HASH_SIZE ==> HeadOk(win, head, s, k))
    && forall p: nat :: s <= p + WSIZE && p < s ==> PrevOk(win, prev, p)
  }

  lemma {:induction false} NoStrings(win: seq<byte>, head: seq<nat>, prev: seq<nat>)
    requires |head| == HASH_SIZE && |prev| == WSIZE && |win| >= 2 && forall k :: 0 <= k < HASH_SIZE ==> head[k] == NIL
    ensures Chains(win, head, prev, 0)
  {
  }

  lemma {:induction false} InsertChain(win: seq<byte>, head: seq<nat>, prev: seq<nat>, s: nat, k: nat)
    requires Chains(win, head, prev, s) && s + 3 <= |win| && k < HASH_SIZE && k == KeyAt(win, s)
    ensures Chains(win, head[k := s], prev[s % WSIZE := head[k]], s + 1)
    ensures HeadOk(win, head, s, k)
  {
    hide KeyAt;
    var h2, p2, s1 := head[k := s], prev[s % WSIZE := head[k]], s + 1;
    assert HeadOk(win, head, s, k);
    forall j | 0 <= j < HASH_SIZE ensures HeadOk(win, h2, s1, j) {
      assert HeadOk(win, head, s, j);
    }
    forall p: nat | s1 <= p + WSIZE && p < s1 ensures PrevOk(win, p2, p) {
      if p < s {
        assert PrevOk(win, prev, p);
        OtherPlace(p, s);
      }
    }
  }

  lemma {:induction false} OtherPlace(p: nat, s: nat)
    requires p < s < p + WSIZE
    ensures p % WSIZE != s % WSIZE
  {
  }

  /** Bytes after those of the strings do not matter. */
  lemma {:induction false} ChainsSame(win: seq<byte>, win2: seq<byte>, head: seq<nat>, prev: seq<nat>, s: nat)
    requires Chains(win, head, prev, s) && |win2| == |win| && (s > 0 ==> win[..s + 2] == win2[..s + 2])
    ensures Chains(win2, head, prev, s)
  {
    hide Key;
    forall p: nat | p < s ensures p + 2 < |win2| && KeyAt(win2, p) == KeyAt(win, p) {
      assert win[p] == win[..s + 2][p] && win[p + 1] == win[..s + 2][p + 1] && win[p + 2] == win[..s + 2][p + 2];
    }
    forall k | 0 <= k < HASH_SIZE ensures HeadOk(win2, head, s, k) {
      assert HeadOk(win, head, s, k);
      LatestSame(win, win2, head[k], s, k);
    }
    forall p: nat | s <= p + WSIZE && p < s ensures PrevOk(win2, prev, p) {
      assert PrevOk(win, prev, p);
      LatestSame(win, win2, prev[p % WSIZE], p, KeyAt(win, p));
    }
  }

  lemma {:induction false} LatestSame(win: seq<byte>, win2: seq<byte>, m: nat, s: nat, k: nat)
    requires |win2| == |win| && s + 2 <= |win| && Latest(win, m, s, k)
    requires forall p: nat :: p < s ==> KeyAt(win2, p) == KeyAt(win, p)
    ensures Latest(win2, m, s, k)
  {
    hide KeyAt;
  }

  /** An entry after the window moved back. */
  function Moved(m: nat): nat { if m >= WSIZE then m - WSIZE else NIL }

  ghost predicate AllMoved(a: seq<nat>, b: seq<nat>, n: nat) {
    n <= |a| == |b| && (forall i :: 0 <= i < n ==> b[i] == Moved(a[i])) && forall i :: n <= i < |a| ==> b[i] == a[i]
  }

  /** The upper half is copied to the lower one. */
  ghost predicate Halved(win: seq<byte>, win2: seq<byte>) {
    |win| == |win2| >= WINDOW_SIZE && forall i :: 0 <= i < WSIZE ==> win2[i] == win[i + WSIZE]
  }

  lemma {:induction false} KeyMoved(win: seq<byte>, win2: seq<byte>, p: nat)
    requires Halved(win, win2) && WSIZE <= p && p + 2 < WINDOW_SIZE
    ensures KeyAt(win2, p - WSIZE) == KeyAt(win, p)
  {
    hide Key;
  }

  /** The latest string is still the latest, unless it has left the window. */
  lemma {:induction false} LatestMoved(win: seq<byte>, win2: seq<byte>, m: nat, s: nat, k: nat)
    requires Halved(win, win2) && WSIZE <= s && s + 2 <= WINDOW_SIZE && Latest(win, m, s, k)
    ensures Latest(win2, Moved(m), s - WSIZE, k)
  {
    hide KeyAt, Halved;
    assert |win| == |win2| >= WINDOW_SIZE by { HalvedSize(win, win2); }
    if m >= WSIZE { KeyMoved(win, win2, m); }
    forall p: nat | Moved(m) < p < s - WSIZE ensures KeyAt(win2, p) != k {
      KeyMoved(win, win2, p + WSIZE);
      assert KeyAt(win, p + WSIZE) != k;
    }
  }

  lemma {:induction false} HalvedSize(win: seq<byte>, win2: seq<byte>)
    requires Halved(win, win2)
    ensures |win| == |win2| >= WINDOW_SIZE
  {
  }

  lemma {:induction false} ChainsMoved(win: seq<byte>, win2: seq<byte>, head: seq<nat>, head2: seq<nat>, prev: seq<nat>,
                                       prev2: seq<nat>, s: nat)
    requires Chains(win, head, prev, s) && Halved(win, win2) && WSIZE <= s && s + 2 <= WINDOW_SIZE
    requires AllMoved(head, head2, |head|) && AllMoved(prev, prev2, |prev|)
    ensures Chains(win2, head2, prev2, s - WSIZE)
  {
    hide KeyAt;
    var s2 := s - WSIZE;
    forall k | 0 <= k < HASH_SIZE ensures HeadOk(win2, head2, s2, k) {
      assert HeadOk(win, head, s, k);
      LatestMoved(win, win2, head[k], s, k);
    }
    forall p: nat | s2 <= p + WSIZE && p < s2 ensures PrevOk(win2, prev2, p) {
      var q := p + WSIZE;
      assert PrevOk(win, prev, q);
      SamePlace(p);
      KeyMoved(win, win2, q);
      assert prev2[p % WSIZE] == Moved(prev[p % WSIZE]);
      LatestMoved(win, win2, prev[p % WSIZE], q, KeyAt(win, q));
    }
  }

  lemma {:induction false} SamePlace(p: nat)
    ensures (p + WSIZE) % WSIZE == p % WSIZE
  {
  }

  // ---------------------------------------------------------------------- window

  /** The first n bytes of the window are those of the input from origin to pos. */
  ghost predicate Shows(win: seq<byte>, input: seq<byte>, origin: nat, n: nat, pos: nat) {
    |win| == WINDOW_SIZE + MAX_MATCH && n <= WINDOW_SIZE && origin + n == pos <= |input|
      && win[..n] == input[origin..pos]
  }

  /** More is read after the n-th byte. */
  lemma {:induction false} ShowsMore(win: seq<byte>, win2: seq<byte>, input: seq<byte>, origin: nat, n: nat, pos: nat,
                                     m: nat)
    requires Shows(win, input, origin, n, pos) && pos + m <= |input| && n + m <= WINDOW_SIZE
    requires win2 == win[..n] + input[pos..pos + m] + win[n + m..]
    ensures Shows(win2, input, origin, n + m, pos + m) && win2[..n] == win[..n]
  {
    assert input[origin..pos + m] == input[origin..pos] + input[pos..pos + m];
  }

  lemma {:induction false} ShowsMoved(win: seq<byte>, win2: seq<byte>, input: seq<byte>, origin: nat, n: nat, pos: nat)
    requires Shows(win, input, origin, n, pos) && Halved(win, win2) && n >= WSIZE
    ensures Shows(win2, input, origin + WSIZE, n - WSIZE, pos)
  {
    forall i | 0 <= i < n - WSIZE ensures win2[i] == input[origin + WSIZE + i] {
      assert win[..n][i + WSIZE] == input[origin..pos][i + WSIZE];
    }
    assert win2[..n - WSIZE] == input[origin + WSIZE..pos];
  }

  /** What reading leaves as it was. */
  lemma {:induction false} AfterRead(win: seq<byte>, win2: seq<byte>, input: seq<byte>, origin: nat, n: nat, pos: nat,
                                     m: nat, head: seq<nat>, prev: seq<nat>, s: nat)
    requires Shows(win, input, origin, n, pos) && pos + m <= |input| && n + m <= WINDOW_SIZE
    requires win2 == win[..n] + input[pos..pos + m] + win[n + m..] && Chains(win, head, prev, s)
    requires (s > 0 ==> s + 2 <= n)
    ensures Shows(win2, input, origin, n + m, pos + m) && Chains(win2, head, prev, s)
    ensures s > 0 ==> win2[s] == win[s] && win2[s + 1] == win[s + 1]
  {
    hide Chains, Shows;
    ShowsSizes(win, input, origin, n, pos);
    ShowsMore(win, win2, input, origin, n, pos, m);
    if s > 0 { SameStart(win, win2, n, s); }
    ChainsSame(win, win2, head, prev, s);
  }

  /** A byte of the window is one of the input. */
  lemma {:induction false} ShowsAt(win: seq<byte>, input: seq<byte>, origin: nat, n: nat, pos: nat, i: nat)
    requires Shows(win, input, origin, n, pos) && i < n
    ensures origin + i < |input| && win[i] == input[origin + i]
  {
    assert win[..n][i] == input[origin..pos][i];
  }

  lemma {:induction false} ShowsSlice(win: seq<byte>, input: seq<byte>, origin: nat, n: nat, pos: nat, a: nat, b: nat)
    requires Shows(win, input, origin, n, pos) && a <= b <= n
    ensures win[a..b] == input[origin + a..origin + b]
  {
    forall i | a <= i < b ensures origin + i < |input| && win[i] == input[origin + i] {
      ShowsAt(win, input, origin, n, pos, i);
    }
  }

  // ------------------------------------------------------------------ comparing

  /** The len bytes at m and at s are equal. */
  ghost predicate SameBytes(win: seq<byte>, m: nat, s: nat, len: nat) {
    m + len <= |win| && s + len <= |win| && win[m..m + len] == win[s..s + len]
  }

  /** Strings with equal keys whose first two bytes are equal have equal third bytes. */
  lemma {:induction false} ThirdSame(win: seq<byte>, m: nat, s: nat)
    requires m + 2 < |win| && s + 2 < |win| && KeyAt(win, m) == KeyAt(win, s) && win[m] == win[s]
    requires win[m + 1] == win[s + 1]
    ensures SameBytes(win, m, s, 3)
  {
    hide Key;
    KeyTells(win[s], win[s + 1], win[m + 2], win[s + 2]);
  }

  /** Bytes of the window that are equal are a true copy in the text. */
  lemma {:induction false} CopyInText(win: seq<byte>, input: seq<byte>, origin: nat, n: nat, pos: nat, m: nat, s: nat,
                                      len: nat)
    requires Shows(win, input, origin, n, pos) && m < s && s - m <= MAX_DIST && s + len <= n
    requires SameBytes(win, m, s, len) && MIN_MATCH <= len <= MAX_MATCH
    ensures TrueCopy(input, origin + s, len, s - m)
  {
    forall q | origin + s <= q < origin + s + len ensures input[q] == input[q - (s - m)] {
      var i := q - origin - s;
      ShowsAt(win, input, origin, n, pos, s + i);
      ShowsAt(win, input, origin, n, pos, m + i);
      assert win[m..m + len][i] == win[s..s + len][i];
    }
  }

  /** s with the bytes t at a place. */
  function Overwritten(s: seq<byte>, at: nat, t: seq<byte>): (r: seq<byte>)
    requires at + |t| <= |s|
    ensures |r| == |s|
  {
    s[..at] + t + s[at + |t|..]
  }

  lemma {:induction false} OneMore(s: seq<byte>, at: nat, input: seq<byte>, pos: nat, i: nat)
    requires pos + i < |input| && at + i < |s|
    ensures Overwritten(s, at, input[pos..pos + i])[at + i := input[pos + i]]
      == Overwritten(s, at, input[pos..pos + (i + 1)])
  {
    assert input[pos..pos + (i + 1)] == input[pos..pos + i] + [input[pos + i]];
  }

  method CopyIn(w: array<byte>, at: nat, input: seq<byte>, pos: nat, n: nat)
    requires pos + n <= |input| && at + n <= w.Length
    modifies w
    ensures w[..] == old(w[..at]) + input[pos..pos + n] + old(w[at + n..])
  {
    ghost var w0: seq<byte> := w[..];
    var i: nat := 0;
    NoneWritten(w0, at, input, pos);
    while i < n
      invariant i <= n && w[..] == Overwritten(w0, at, input[pos..pos + i])
    {
      OneMore(w0, at, input, pos, i);
      ghost var was: seq<byte> := w[..];
      w[at + i] := input[pos + i];
      assert w[..] == was[at + i := input[pos + i]];
      i := i + 1;
    }
  }

  lemma {:induction false} NoneWritten(s: seq<byte>, at: nat, input: seq<byte>, pos: nat)
    requires at <= |s| && pos <= |input|
    ensures Overwritten(s, at, input[pos..pos + 0]) == s
  {
  }

  /** The input file: read_buf delivers at least one byte until the end, how many is not known. */
  class Source {
    const input: seq<byte>
    const step: nat -> nat
    var pos: nat

    constructor (input: seq<byte>, step: nat -> nat)
      ensures this.input == input && pos == 0
    {
      this.input, this.step, pos := input, step, 0;
    }

    method ReadBuf(w: array<byte>, at: nat, size: nat) returns (n: nat)
      requires pos <= |input| && at + size <= w.Length
      modifies this`pos, w
      ensures n <= size && pos == old(pos) + n <= |input|
      ensures w[..] == old(w[..at]) + input[old(pos)..pos] + old(w[at + n..])
      ensures n == 0 <==> size == 0 || old(pos) == |input|
    {
      var left: nat := |input| - pos;
      n := if step(pos) == 0 then 1 else step(pos);
      if n > size { n := size; }
      if n > left { n := left; }
      CopyIn(w, at, input, pos, n);
      pos := pos + n;
    }
  }

  /** Settings for a level of packing. */
  datatype Config = Config(goodMatch: nat, maxLazy: nat, niceMatch: nat, maxChain: nat)

  function ConfigurationTable(): (t: seq<Config>)
    ensures |t| == 10
  {
    [Config(0, 0, 0, 0), Config(4, 4, 16, 16), Config(6, 8, 16, 16), Config(8, 16, 32, 32), Config(8, 16, 64, 64),
     Config(8, 16, 128, 128), Config(8, 32, 128, 256), Config(8, 64, 128, 512), Config(32, 128, 258, 1024),
     Config(32, 258, 258, 4096)]
  }

  predicate ConfigOk(c: Config) { c.maxLazy <= MAX_MATCH && 4 <= c.niceMatch <= MAX_MATCH && c.maxChain >= 4 }

  lemma {:induction false} LevelOk(level: nat)
    requires 1 <= level <= 9
    ensures ConfigOk(ConfigurationTable()[level])
  {
  }

  /** What the looks for matches have found: those that led to the items so far, and what was at
      hand in the one at the place before strstart; and the blocks so far. */
  class Looks {
    ghost var steps: seq<View>
    ghost var prior: nat
    ghost var cuts: seq<Cut>

    constructor ()
      ensures steps == [] && cuts == []
    {
      steps, prior, cuts := [], 2, [];
    }
  }

  /** The compressor's view of the text.  The window array is as long as longest_match may look
      beyond the 2 * WSIZE bytes, which it does at the end of the input; what it finds there is
      not used. */
  class Deflater {
    const window: array<byte>
    const prev: array<nat>
    const head: array<nat>
    const src: Source
    const config: Config
    var insH: nat
    var strstart: nat
    var lookahead: nat
    var matchStart: nat
    var prevLength: nat
    var blockStart: int
    var eofile: bool
    ghost var origin: nat  // place in the input of the first byte of the window
    const looks: Looks

    ghost predicate Shaped() {
      window.Length == WINDOW_SIZE + MAX_MATCH && prev.Length == WSIZE && head.Length == HASH_SIZE && prev != head
        && ConfigOk(config)
    }

    /** The window holds a piece of the input, up to what has been read. */
    ghost predicate Windowed()
      reads this, src, window
    {
      && Shaped() && Shows(window[..], src.input, origin, strstart + lookahead, src.pos)
      && (eofile ==> src.pos == |src.input| && strstart + lookahead <= WINDOW_SIZE - 2)
      && (origin == 0 || strstart >= MAX_DIST)
    }

    /** All strings before strstart are in the chains. */
    ghost predicate Chained()
      reads this, src, window, prev, head
    {
      && Windowed() && Chains(window[..], head[..], prev[..], strstart) && strstart + 2 <= WINDOW_SIZE
      && (lookahead > 0 ==> Running(insH, window[strstart], window[strstart + 1]))
    }

    /** There is enough to look at, except at the end of the input. */
    ghost predicate Valid()
      reads this, src, window, prev, head
    {
      Chained() && (eofile || lookahead >= MIN_LOOKAHEAD)
    }

    /** The arrays, whatever they hold, and the settings for the level. */
    constructor (src: Source, level: nat)
      requires 1 <= level <= 9
      ensures looks.steps == [] && looks.cuts == [] && fresh(looks)
      ensures Shaped() && this.src == src && config == ConfigurationTable()[level]
      ensures fresh(window) && fresh(prev) && fresh(head)
    {
      LevelOk(level);
      window, prev, head := new byte[WINDOW_SIZE + MAX_MATCH], new nat[WSIZE], new nat[HASH_SIZE];
      this.src, config := src, ConfigurationTable()[level];
      insH, strstart, lookahead, matchStart, prevLength, blockStart, eofile, origin := 0, 0, 0, 0, 0, 0, false, 0;
      looks := new Looks();
    }

    /** INSERT_STRING at the string s, the next one. */
    method InsertString(s: nat) returns (hashHead: nat)
      requires Shaped() && Chains(window[..], head[..], prev[..], s) && s + 3 <= WINDOW_SIZE
      requires Running(insH, window[s], window[s + 1])
      modifies this`insH, prev, head
      ensures Chains(window[..], head[..], prev[..], s + 1) && Running(insH, window[s + 1], window[s + 2])
      ensures Latest(window[..], hashHead, s, KeyAt(window[..], s))
    {
      hide Chains, Key, Running, UpdateHash, Latest;
      ghost var win: seq<byte>, h0: seq<nat>, p0: seq<nat> := window[..], head[..], prev[..];
      HashSmall(insH, window[s + 2]);
      ThirdByte(insH, window[s], window[s + 1], window[s + 2]);
      insH := UpdateHash(insH, window[s + 2]);
      hashHead := head[insH];
      InsertChain(win, h0, p0, s, insH);
      prev[s % WSIZE] := hashHead;
      head[insH] := s;
      assert head[..] == h0[insH := s] && prev[..] == p0[s % WSIZE := hashHead];
    }

    /** Move the upper half of the window to the lower one, and the chains with it. */
    method Slide()
      requires Chained() && strstart >= WSIZE + MAX_DIST
      modifies this`strstart, this`matchStart, this`blockStart, this`origin, window, head, prev
      ensures Chained() && strstart == old(strstart) - WSIZE && blockStart == old(blockStart) - WSIZE
      ensures origin == old(origin) + WSIZE
      ensures matchStart == (old(matchStart) + WORD - WSIZE) % WORD
    {
      hide Shows, Chains, Halved, Running;
      ghost var w0: seq<byte>, h0: seq<nat>, p0: seq<nat>, n := window[..], head[..], prev[..], strstart + lookahead;
      CopyHalf();
      ShowsMoved(w0, window[..], src.input, origin, n, src.pos);
      HalvedAt(w0, window[..], strstart - WSIZE);
      HalvedAt(w0, window[..], strstart - WSIZE + 1);
      matchStart := (matchStart + WORD - WSIZE) % WORD;
      strstart := strstart - WSIZE;
      blockStart := blockStart - WSIZE;
      origin := origin + WSIZE;
      MoveEntries(head);
      MoveEntries(prev);
      ChainsMoved(w0, window[..], h0, head[..], p0, prev[..], old(strstart));
    }

    method CopyHalf()
      requires Shaped()
      modifies window
      ensures Halved(old(window[..]), window[..])
    {
      var i: nat := 0;
      while i < WSIZE
        invariant i <= WSIZE && (forall j :: 0 <= j < i ==> window[j] == old(window[j + WSIZE]))
        invariant forall j :: i <= j < window.Length ==> window[j] == old(window[j])
      {
        window[i] := window[i + WSIZE];
        i := i + 1;
      }
    }

    /** Read into the rest of the window. */
    method ReadMore(more: nat)
      requires Windowed() && Chains(window[..], head[..], prev[..], strstart)
      requires more == WINDOW_SIZE - lookahead - strstart && more >= 2 && !eofile
      requires strstart > 0 ==> Chained() && lookahead >= 2
      modifies this`lookahead, this`eofile, src`pos, window
      ensures Windowed() && Chains(window[..], head[..], prev[..], strstart) && (strstart > 0 ==> Chained())
      ensures eofile || lookahead > old(lookahead)
      ensures lookahead >= old(lookahead)
    {
      hide Shows, Chains, Running;
      ghost var w0: seq<byte>, n0, pos0 := window[..], strstart + lookahead, src.pos;
      ShowsSizes(w0, src.input, origin, n0, src.pos);
      var n := src.ReadBuf(window, strstart + lookahead, more);
      assert window[..] == w0[..n0] + src.input[pos0..pos0 + n] + w0[n0 + n..];
      AfterRead(w0, window[..], src.input, origin, n0, pos0, n, head[..], prev[..], strstart);
      if n == 0 {
        eofile := true;
      } else {
        lookahead := lookahead + n;
      }
    }

    /** fill_window: read at least one byte, unless the end is reached; there is always room for
        at least two more than there were. */
    method FillWindow()
      requires Windowed() && lookahead < MIN_LOOKAHEAD && Chains(window[..], head[..], prev[..], strstart)
      requires strstart > 0 ==> Chained() && (eofile || lookahead >= 2)
      modifies this`strstart, this`matchStart, this`blockStart, this`origin, this`lookahead, this`eofile, src`pos,
               window, head, prev
      ensures Windowed() && Chains(window[..], head[..], prev[..], strstart)
      ensures (old(strstart) > 0 ==> strstart > 0 && Chained())
      ensures old(strstart) == 0 ==> strstart == 0
      ensures old(eofile) || eofile || lookahead > old(lookahead)
      ensures Slid(old(strstart), strstart, old(matchStart), matchStart, old(blockStart), blockStart, old(origin),
        origin)
      ensures lookahead >= old(lookahead)
      ensures strstart + old(lookahead) + 2 <= WINDOW_SIZE
    {
      hide Shows, Chains, Running;
      ShowsSizes(window[..], src.input, origin, strstart + lookahead, src.pos);
      var more: nat := WINDOW_SIZE - lookahead - strstart;
      if strstart >= WSIZE + MAX_DIST {
        Slide();
        more := more + WSIZE;
      }
      if !eofile {
        ReadMore(more);
      }
    }

    /** lm_init: read the first of the input. */
    method LmInit()
      requires Shaped() && src.pos == 0
      modifies this`insH, this`strstart, this`blockStart, this`matchStart, this`origin, this`lookahead, this`eofile,
               src`pos, window, head, prev
      ensures Valid() && strstart == 0 && blockStart == 0 && origin == 0
      ensures old(matchStart) < WORD ==> matchStart < WORD
    {
      hide Shows, Chains, Running, UpdateHash;
      ClearHeads(head);
      strstart, blockStart, origin := 0, 0, 0;
      NoStrings(window[..], head[..], prev[..]);
      ReadFirst();
      if lookahead == 0 {
        eofile := true;
        return;
      }
      eofile := false;
      FillFirst();
      StartHash();
    }

    method StartHash()
      requires Windowed() && Chains(window[..], head[..], prev[..], strstart) && strstart == 0
      modifies this`insH
      ensures Chained()
    {
      hide Shows, Chains, Running, UpdateHash;
      insH := 0;
      FirstTwo(insH, window[0], window[1]);
      insH := UpdateHash(insH, window[0]);
      insH := UpdateHash(insH, window[1]);
    }

    method FillFirst()
      requires Windowed() && Chains(window[..], head[..], prev[..], strstart) && strstart == 0 && blockStart == 0
      requires origin == 0 && !eofile && lookahead > 0
      modifies this`strstart, this`matchStart, this`blockStart, this`origin, this`lookahead, this`eofile, src`pos,
               window, head, prev
      ensures Windowed() && Chains(window[..], head[..], prev[..], strstart) && strstart == 0 && blockStart == 0
      ensures origin == 0
      ensures lookahead > 0 && (eofile || lookahead >= MIN_LOOKAHEAD)
      ensures old(matchStart) < WORD ==> matchStart < WORD
    {
      hide Shows, Chains, Running;
      while lookahead < MIN_LOOKAHEAD && !eofile
        invariant Windowed() && Chains(window[..], head[..], prev[..], strstart) && strstart == 0 && blockStart == 0
        invariant origin == 0
        invariant lookahead > 0 && (old(matchStart) < WORD ==> matchStart < WORD)
        decreases !eofile, MIN_LOOKAHEAD - lookahead
      {
        FillWindow();
      }
    }

    method ReadFirst()
      requires Shaped() && src.pos == 0 && strstart == 0 && origin == 0 && Chains(window[..], head[..], prev[..], 0)
      modifies this`lookahead, src`pos, window
      ensures Shows(window[..], src.input, 0, lookahead, src.pos) && Chains(window[..], head[..], prev[..], 0)
      ensures lookahead == 0 ==> src.pos == |src.input|
    {
      hide Chains;
      ghost var w0: seq<byte> := window[..];
      lookahead := src.ReadBuf(window, 0, WINDOW_SIZE);
      ChainsSame(w0, window[..], head[..], prev[..], 0);
    }
  }

  /** Nothing moved, or all by WSIZE; the start of a match counts modulo 2^16. */
  ghost predicate Slid(s0: nat, s: nat, m0: nat, m: nat, b0: int, b: int, o0: nat, o: nat) {
    (s == s0 && m == m0 && b == b0 && o == o0)
    || (s + WSIZE == s0 && s0 >= WSIZE + MAX_DIST
      && m == (m0 + WORD - WSIZE) % WORD && b == b0 - WSIZE && o == o0 + WSIZE)
  }

  lemma {:induction false} ShowsSizes(win: seq<byte>, input: seq<byte>, origin: nat, n: nat, pos: nat)
    requires Shows(win, input, origin, n, pos)
    ensures n <= WINDOW_SIZE && origin + n == pos <= |input| && |win| == WINDOW_SIZE + MAX_MATCH
  {
  }

  lemma {:induction false} HalvedAt(win: seq<byte>, win2: seq<byte>, i: nat)
    requires Halved(win, win2) && i < WSIZE
    ensures i + WSIZE < |win| && i < |win2| && win2[i] == win[i + WSIZE]
  {
  }

  lemma {:induction false} SameStart(win: seq<byte>, win2: seq<byte>, n: nat, s: nat)
    requires n <= |win| == |win2| && s + 2 <= n && win2[..n] == win[..n]
    ensures win[..s + 2] == win2[..s + 2] && win2[s] == win[s] && win2[s + 1] == win[s + 1]
  {
    assert win2[..n][..s + 2] == win2[..s + 2] && win[..n][..s + 2] == win[..s + 2];
    assert win2[..n][s] == win[..n][s] && win2[..n][s + 1] == win[..n][s + 1];
  }

  lemma {:induction false} HashSmall(h: nat, c: byte)
    ensures UpdateHash(h, c) < HASH_SIZE
  {
    Pow2Values();
    assert Pow2(14) == 4 * Pow2(12) && Pow2(12) == 4096;
  }

  method ClearHeads(a: array<nat>)
    modifies a
    ensures forall k :: 0 <= k < a.Length ==> a[k] == NIL
  {
    var j := 0;
    while j < a.Length
      invariant j <= a.Length && forall k :: 0 <= k < j ==> a[k] == NIL
    {
      a[j] := NIL;
      j := j + 1;
    }
  }

  /** The head and prev entries of a window that has moved. */
  method MoveEntries(a: array<nat>)
    modifies a
    ensures AllMoved(old(a[..]), a[..], a.Length)
  {
    var n := 0;
    while n < a.Length
      invariant n <= a.Length && AllMoved(old(a[..]), a[..], n)
    {
      var m := a[n];
      a[n] := if m >= WSIZE then m - WSIZE else NIL;
      n := n + 1;
    }
  }
}
