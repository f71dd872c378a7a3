/** longest_match of archive/gzip/deflate.c: the longest of the strings it looks at, with the
    third byte of each left unchecked. */
module DeflateMatch {
  import opened BitString
  import opened DeflateHash
  import opened DeflateText
  import opened DeflateWindow

  lemma {:induction false} SameMore(win: seq<byte>, m: nat, s: nat, len: nat)
    requires SameBytes(win, m, s, len) && m + len < |win| && s + len < |win|
    ensures SameBytes(win, m, s, len + 1) <==> win[m + len] == win[s + len]
  {
    assert win[m..m + (len + 1)] == win[m..m + len] + [win[m + len]];
    assert win[s..s + (len + 1)] == win[s..s + len] + [win[s + len]];
  }

  lemma {:induction false} SameAt(win: seq<byte>, m: nat, s: nat, len: nat, i: nat)
    requires SameBytes(win, m, s, len) && i < len
    ensures win[m + i] == win[s + i]
  {
    assert win[m..m + len][i] == win[s..s + len][i];
  }

  lemma {:induction false} SameLess(win: seq<byte>, m: nat, s: nat, len: nat, less: nat)
    requires SameBytes(win, m, s, len) && less <= len
    ensures SameBytes(win, m, s, less)
  {
    var a, b := win[m..m + less], win[s..s + less];
    forall i | 0 <= i < less ensures a[i] == b[i] { SameAt(win, m, s, len, i); }
  }

  /** A byte that differs. */
  lemma {:induction false} Differ(win: seq<byte>, m: nat, s: nat, len: nat, i: nat)
    requires m + i < |win| && s + i < |win| && win[m + i] != win[s + i] && i < len
    ensures !SameBytes(win, m, s, len)
  {
    if SameBytes(win, m, s, len) { SameAt(win, m, s, len, i); }
  }

  /** len is what the strings at m and s have in common, or they cannot beat best. */
  ghost predicate Compared(win: seq<byte>, m: nat, s: nat, best: nat, len: nat) {
    && len <= MAX_MATCH
    && (len <= best ==> !SameBytes(win, m, s, best + 1))
    && (len > best ==> SameBytes(win, m, s, len) && (len < MAX_MATCH ==> !SameBytes(win, m, s, len + 1)))
  }

  /** The tests before the bytes are compared one by one. */
  ghost predicate Passes(win: seq<byte>, m: nat, s: nat, best: nat)
    requires 1 <= best && m < s && s + 1 < |win| && s + best < |win|
  {
    win[m + best] == win[s + best] && win[m + best - 1] == win[s + best - 1] && win[m] == win[s]
    && win[m + 1] == win[s + 1]
  }

  /** Looking at m reads past the end of the window: at once for the byte that would make the
      match longer, or in comparing, if the end is near and all bytes up to it agree. */
  ghost predicate ReadsPast(win: seq<byte>, m: nat, s: nat, best: nat)
    requires 1 <= best && m < s < WINDOW_SIZE && s + 1 < |win| && s + best < |win|
  {
    s + best >= WINDOW_SIZE
    || (Passes(win, m, s, best) && s + MAX_MATCH >= WINDOW_SIZE && SameBytes(win, m, s, WINDOW_SIZE - s))
  }

  /** Where the comparison stopped tells how far it read. */
  lemma {:induction false} ReadTo(win: seq<byte>, m: nat, s: nat, best: nat, i: nat)
    requires 1 <= best && m < s < WINDOW_SIZE && s + MAX_MATCH < |win| && best < MAX_MATCH && 2 <= i <= MAX_MATCH
    requires Passes(win, m, s, best) && SameBytes(win, m, s, i) && (i < MAX_MATCH ==> !SameBytes(win, m, s, i + 1))
    ensures (s + best >= WINDOW_SIZE || s + i >= WINDOW_SIZE) <==> ReadsPast(win, m, s, best)
  {
    hide SameBytes, Passes;
    if s + i >= WINDOW_SIZE {
      SameLess(win, m, s, i, WINDOW_SIZE - s);
    } else if s + MAX_MATCH >= WINDOW_SIZE && SameBytes(win, m, s, WINDOW_SIZE - s) {
      SameLess(win, m, s, WINDOW_SIZE - s, i + 1);
    }
  }

  /** The tests: the byte that would make the match longer, the one before it, and the first two. */
  method MayBeLonger(d: Deflater, cur: nat, best: nat, scanEnd1: byte, scanEnd: byte) returns (ok: bool)
    requires d.Shaped() && cur < d.strstart < WINDOW_SIZE && 1 <= best < MAX_MATCH
    requires scanEnd1 == d.window[d.strstart + best - 1] && scanEnd == d.window[d.strstart + best]
    ensures ok <==> Passes(d.window[..], cur, d.strstart, best)
    ensures !ok ==> !SameBytes(d.window[..], cur, d.strstart, best + 1)
  {
    hide SameBytes;
    ghost var win, s: nat := d.window[..], d.strstart;
    ok := true;
    if d.window[cur + best] != scanEnd {
      Differ(win, cur, s, best + 1, best);
      ok := false;
    } else if d.window[cur + best - 1] != scanEnd1 {
      Differ(win, cur, s, best + 1, best - 1);
      ok := false;
    } else if d.window[cur] != d.window[d.strstart] {
      Differ(win, cur, s, best + 1, 0);
      ok := false;
    } else if d.window[cur + 1] != d.window[d.strstart + 1] {
      Differ(win, cur, s, best + 1, 1);
      ok := false;
    }
  }

  /** Compare byte by byte, from the fourth on; the end is checked for after every eighth byte
      only.  The last place read is top. */
  method CompareOn(d: Deflater, cur: nat) returns (len: nat, ghost top: nat)
    requires d.Shaped() && cur < d.strstart < WINDOW_SIZE && SameBytes(d.window[..], cur, d.strstart, 3)
    ensures 2 <= len <= MAX_MATCH && SameBytes(d.window[..], cur, d.strstart, len) && top == d.strstart + len
    ensures len < MAX_MATCH ==> !SameBytes(d.window[..], cur, d.strstart, len + 1)
  {
    hide SameBytes;
    ghost var win, s: nat := d.window[..], d.strstart;
    var i: nat := 2;
    top := s + 2;
    while true
      invariant 2 <= i < MAX_MATCH && SameBytes(win, cur, s, i + 1) && top == s + i
      decreases MAX_MATCH - i
    {
      i := i + 1;
      top := s + i;
      SameMore(win, cur, s, i);
      if d.window[cur + i] != d.window[d.strstart + i] { break; }
      if (i - 2) % 8 == 0 && i >= MAX_MATCH {
        SameLess(win, cur, s, i + 1, i);
        break;
      }
      OffEnd(i);
    }
    len := i;
  }

  /** Compare the string at cur with the one at strstart, if it can be longer than best; 0 if it
      cannot.  The last place of the window read for that is top. */
  method MatchLength(d: Deflater, cur: nat, best: nat, scanEnd1: byte, scanEnd: byte)
    returns (len: nat, ghost top: nat)
    requires d.Shaped() && cur < d.strstart < WINDOW_SIZE && 1 <= best < MAX_MATCH
    requires scanEnd1 == d.window[d.strstart + best - 1] && scanEnd == d.window[d.strstart + best]
    requires KeyAt(d.window[..], cur) == KeyAt(d.window[..], d.strstart)
    ensures Compared(d.window[..], cur, d.strstart, best, len)
    ensures top >= WINDOW_SIZE <==> ReadsPast(d.window[..], cur, d.strstart, best)
  {
    hide SameBytes, KeyAt;
    ghost var win, s: nat := d.window[..], d.strstart;
    top := s + best;
    var ok := MayBeLonger(d, cur, best, scanEnd1, scanEnd);
    if !ok { return 0, top; }
    ThirdSame(win, cur, s);
    ghost var t;
    len, t := CompareOn(d, cur);
    if t > top { top := t; }
    ReadTo(win, cur, s, best, len);
    if len <= best { NotLonger(win, cur, s, best, len); }
  }

  lemma {:induction false} OffEnd(i: nat)
    requires i <= MAX_MATCH && !((i - 2) % 8 == 0 && i >= MAX_MATCH)
    ensures i < MAX_MATCH
  {
  }

  lemma {:induction false} NotLonger(win: seq<byte>, m: nat, s: nat, best: nat, len: nat)
    requires len <= best && !SameBytes(win, m, s, len + 1)
    ensures !SameBytes(win, m, s, best + 1)
  {
    if SameBytes(win, m, s, best + 1) { SameLess(win, m, s, best + 1, len + 1); }
  }

  /** The strings looked at: one after the other along the links. */
  ghost predicate Along(prev: seq<nat>, hashHead: nat, chain: seq<nat>) {
    && |prev| == WSIZE && chain != [] && chain[0] == hashHead
    && forall i :: 0 < i < |chain| ==> LinkAt(prev, chain, i)
  }

  ghost predicate LinkAt(prev: seq<nat>, chain: seq<nat>, i: nat)
    requires |prev| == WSIZE && 0 < i < |chain|
  {
    chain[i] == prev[chain[i - 1] % WSIZE]
  }

  lemma {:induction false} AlongMore(prev: seq<nat>, hashHead: nat, chain: seq<nat>, next: nat)
    requires Along(prev, hashHead, chain) && next == prev[chain[|chain| - 1] % WSIZE]
    ensures Along(prev, hashHead, chain + [next])
  {
    var c2 := chain + [next];
    forall i | 0 < i < |c2| ensures LinkAt(prev, c2, i) {
      if i < |chain| { assert LinkAt(prev, chain, i); }
    }
  }

  /** No string looked at has more in common than best. */
  ghost predicate NoneLonger(win: seq<byte>, chain: seq<nat>, s: nat, best: nat) {
    forall i :: 0 <= i < |chain| ==> !SameBytes(win, chain[i], s, best + 1)
  }

  lemma {:induction false} NoneLongerMore(win: seq<byte>, chain: seq<nat>, s: nat, best: nat, cur: nat, len: nat)
    requires NoneLonger(win, chain, s, best) && Compared(win, cur, s, best, len)
    ensures var b := if len > best then len else best; b < MAX_MATCH ==> NoneLonger(win, chain + [cur], s, b)
  {
    hide SameBytes;
    var b, c2 := if len > best then len else best, chain + [cur];
    if b < MAX_MATCH {
      forall i | 0 <= i < |c2| ensures !SameBytes(win, c2[i], s, b + 1) {
        if i < |chain| && len > best {
          assert !SameBytes(win, chain[i], s, best + 1);
          NotLonger(win, chain[i], s, b, best);
        }
      }
    }
  }

  /** The strings of the chain have been looked at, and cur comes next. */
  ghost predicate Walked(win: seq<byte>, prev: seq<nat>, hashHead: nat, s: nat, chain: seq<nat>, cur: nat, best: nat) {
    && |prev| == WSIZE && NoneLonger(win, chain, s, best)
    && if chain == [] then cur == hashHead else Along(prev, hashHead, chain) && cur == prev[chain[|chain| - 1] % WSIZE]
  }

  lemma {:induction false} WalkedStart(win: seq<byte>, prev: seq<nat>, hashHead: nat, s: nat, best: nat)
    requires |prev| == WSIZE
    ensures Walked(win, prev, hashHead, s, [], hashHead, best)
  {
  }

  lemma {:induction false} WalkedMore(win: seq<byte>, prev: seq<nat>, hashHead: nat, s: nat, chain: seq<nat>, cur: nat,
                                      best: nat, len: nat)
    requires Walked(win, prev, hashHead, s, chain, cur, best) && Compared(win, cur, s, best, len)
    ensures Along(prev, hashHead, chain + [cur])
    ensures var b := if len > best then len else best;
            b < MAX_MATCH ==>
              NoneLonger(win, chain + [cur], s, b)
              && Walked(win, prev, hashHead, s, chain + [cur], prev[cur % WSIZE], b)
  {
    hide NoneLonger, Compared, Along;
    NoneLongerMore(win, chain, s, best, cur, len);
    if chain == [] { AlongStart(prev, hashHead); } else { AlongMore(prev, hashHead, chain, cur); }
  }

  /** A match at m for the string at s. */
  ghost predicate Matched(win: seq<byte>, m: nat, s: nat, len: nat) {
    m < s && s - m <= MAX_DIST && SameBytes(win, m, s, len)
  }

  function ChainLength(c: Config, prevLength: nat): nat {
    if prevLength >= c.goodMatch then c.maxChain / 4 else c.maxChain
  }

  /** Every string after cur with the key of the one at s has been looked at. */
  ghost predicate Covered(win: seq<byte>, s: nat, chain: seq<nat>, cur: nat)
    requires s + 2 < |win|
  {
    forall p: nat :: cur < p < s && KeyAt(win, p) == KeyAt(win, s) ==> p in chain
  }

  lemma {:induction false} CoveredMore(win: seq<byte>, s: nat, chain: seq<nat>, cur: nat, next: nat)
    requires s + 2 < |win| && cur < s && Covered(win, s, chain, cur) && Latest(win, next, cur, KeyAt(win, s))
    ensures Covered(win, s, chain + [cur], next)
  {
    hide KeyAt;
    forall p: nat | next < p < s && KeyAt(win, p) == KeyAt(win, s) ensures p in chain + [cur] {
      if p < cur { assert KeyAt(win, p) != KeyAt(win, s); }
    }
  }

  /** No string nearer than MAX_DIST, the one at 0 aside, agrees with the one at s in n bytes. */
  ghost predicate NoneWithin(win: seq<byte>, s: nat, n: nat) {
    forall p: nat :: 0 < p < s && s - p < MAX_DIST ==> !SameBytes(win, p, s, n)
  }

  /** A string that agrees in three bytes has the same key, so that it has been looked at. */
  lemma {:induction false} NotMissed(win: seq<byte>, s: nat, chain: seq<nat>, cur: nat, best: nat, p: nat)
    requires s + 2 < |win| && Covered(win, s, chain, cur) && NoneLonger(win, chain, s, best) && best >= 2
    requires cur < p < s
    ensures !SameBytes(win, p, s, best + 1)
  {
    hide SameBytes, Key;
    if SameBytes(win, p, s, best + 1) {
      SameAt(win, p, s, best + 1, 0);
      SameAt(win, p, s, best + 1, 1);
      SameAt(win, p, s, best + 1, 2);
      assert p in chain;
      var i :| 0 <= i < |chain| && chain[i] == p;
      assert !SameBytes(win, chain[i], s, best + 1);
    }
  }

  /** In looking at these strings the window has been read past its end. */
  ghost predicate PastEnd(win: seq<byte>, s: nat, first: nat, chain: seq<nat>) {
    s + first >= WINDOW_SIZE
    || (WINDOW_SIZE - MAX_MATCH <= s < WINDOW_SIZE
        && exists i :: 0 <= i < |chain| && SameBytes(win, chain[i], s, WINDOW_SIZE - s))
  }

  /** The best length so far is that of a string looked at, or the first. */
  ghost predicate BestOf(win: seq<byte>, s: nat, first: nat, chain: seq<nat>, best: nat) {
    best == first || exists i :: 0 <= i < |chain| && SameBytes(win, chain[i], s, best)
  }

  lemma {:induction false} PastEndMore(win: seq<byte>, s: nat, first: nat, chain: seq<nat>, cur: nat, best: nat)
    requires 1 <= first <= best < MAX_MATCH && cur < s < WINDOW_SIZE && s + MAX_MATCH < |win|
    requires BestOf(win, s, first, chain, best)
    ensures PastEnd(win, s, first, chain + [cur]) <==> PastEnd(win, s, first, chain) || ReadsPast(win, cur, s, best)
  {
    hide SameBytes;
    var c2 := chain + [cur];
    assert c2[|chain|] == cur;
    assert forall i :: 0 <= i < |chain| ==> c2[i] == chain[i];
    if s + best >= WINDOW_SIZE && best > first {
      var i :| 0 <= i < |chain| && SameBytes(win, chain[i], s, best);
      SameLess(win, chain[i], s, best, WINDOW_SIZE - s);
    } else if s + best < WINDOW_SIZE <= s + MAX_MATCH && SameBytes(win, cur, s, WINDOW_SIZE - s) {
      SameAt(win, cur, s, WINDOW_SIZE - s, best);
      SameAt(win, cur, s, WINDOW_SIZE - s, best - 1);
      SameAt(win, cur, s, WINDOW_SIZE - s, 0);
      SameAt(win, cur, s, WINDOW_SIZE - s, 1);
    }
  }

  /** The byte after a longer match is read for the next string. */
  lemma {:induction false} PastEndLonger(win: seq<byte>, s: nat, first: nat, chain: seq<nat>, cur: nat, best: nat,
                                         len: nat)
    requires s < WINDOW_SIZE && len > best && Compared(win, cur, s, best, len)
    ensures BestOf(win, s, first, chain + [cur], len)
    ensures s + len >= WINDOW_SIZE ==> PastEnd(win, s, first, chain + [cur])
  {
    hide SameBytes;
    assert (chain + [cur])[|chain|] == cur;
    if s + len >= WINDOW_SIZE { SameLess(win, cur, s, len, WINDOW_SIZE - s); }
  }

  lemma {:induction false} BestOfMore(win: seq<byte>, s: nat, first: nat, chain: seq<nat>, cur: nat, best: nat)
    requires BestOf(win, s, first, chain, best)
    ensures BestOf(win, s, first, chain + [cur], best)
  {
    hide SameBytes;
    if best != first {
      var i :| 0 <= i < |chain| && SameBytes(win, chain[i], s, best);
      assert (chain + [cur])[i] == chain[i];
    }
  }

  /** Where looking stands: these strings have been looked at, cur comes next, best is the best
      length so far and top the last place read. */
  ghost predicate Looked(win: seq<byte>, prev: seq<nat>, hashHead: nat, s: nat, first: nat, chain: seq<nat>, cur: nat,
                         best: nat, top: nat) {
    && Walked(win, prev, hashHead, s, chain, cur, best) && s + 2 < |win| && Covered(win, s, chain, cur)
    && BestOf(win, s, first, chain, best) && (top >= WINDOW_SIZE <==> PastEnd(win, s, first, chain))
  }

  /** One string more. */
  lemma {:induction false} LookedMore(win: seq<byte>, head: seq<nat>, prev: seq<nat>, hashHead: nat, s: nat,
                                      first: nat, chain: seq<nat>, cur: nat, best: nat, len: nat, top: nat, t: nat)
    requires Looked(win, prev, hashHead, s, first, chain, cur, best, top) && Compared(win, cur, s, best, len)
    requires Chains(win, head, prev, s + 1) && cur < s < WINDOW_SIZE && s - cur <= MAX_DIST && s + MAX_MATCH < |win|
    requires KeyAt(win, cur) == KeyAt(win, s) && 1 <= first <= best < MAX_MATCH
    requires t >= WINDOW_SIZE <==> ReadsPast(win, cur, s, best)
    ensures Along(prev, hashHead, chain + [cur]) && |prev| == WSIZE
    ensures var b, m := if len > best then len else best, if t > top then t else top;
            && (b < MAX_MATCH ==> NoneLonger(win, chain + [cur], s, b))
            && (m >= WINDOW_SIZE <==> PastEnd(win, s, first, chain + [cur]))
            && (b < MAX_MATCH ==> Looked(win, prev, hashHead, s, first, chain + [cur], prev[cur % WSIZE], b,
                                         if len > best && s + len > m then s + len else m))
    ensures var next := prev[cur % WSIZE];
            next == NIL || (next < cur && KeyAt(win, next) == KeyAt(win, s))
    ensures len > best ==>
              SameBytes(win, cur, s, len) && (s + len >= WINDOW_SIZE ==> PastEnd(win, s, first, chain + [cur]))
  {
    hide SameBytes, KeyAt, Along, NoneLonger, Chains, Latest, PastEnd, BestOf, ReadsPast, Walked, Covered, Compared;
    WalkedMore(win, prev, hashHead, s, chain, cur, best, len);
    PastEndMore(win, s, first, chain, cur, best);
    BestOfMore(win, s, first, chain, cur, best);
    NextLink(win, head, prev, s, cur);
    CoveredMore(win, s, chain, cur, prev[cur % WSIZE]);
    if len > best {
      PastEndLonger(win, s, first, chain, cur, best, len);
      SameOf(win, cur, s, best, len);
    }
  }

  /** Strings with the key of the one at s, the nearest first, none nearer than the last left out;
      the one at 0 is none of them. */
  ghost predicate Nearest(win: seq<byte>, s: nat, chain: seq<nat>)
    requires s + 2 < |win|
  {
    && Listed(win, s, chain)
    && forall p: nat :: chain != [] && chain[|chain| - 1] <= p < s && KeyAt(win, p) == KeyAt(win, s) ==> p in chain
  }

  ghost predicate Listed(win: seq<byte>, s: nat, chain: seq<nat>)
    requires s + 2 < |win|
  {
    && (forall i :: 0 <= i < |chain| ==>
          0 < chain[i] < s && s - chain[i] <= MAX_DIST && KeyAt(win, chain[i]) == KeyAt(win, s))
    && forall i, j :: 0 <= i < j < |chain| ==> chain[i] > chain[j]
  }

  /** No string with this key before these is nearer than MAX_DIST. */
  ghost predicate Exhausted(win: seq<byte>, s: nat, chain: seq<nat>)
    requires s + 2 < |win|
  {
    forall p: nat :: chain != [] && 0 < p < chain[|chain| - 1] && p < s && KeyAt(win, p) == KeyAt(win, s) ==>
      s - p >= MAX_DIST
  }

  /** start is the nearest of them that agrees in best bytes. */
  ghost predicate StartOk(win: seq<byte>, s: nat, chain: seq<nat>, best: nat, start: nat) {
    && start in chain && Matched(win, start, s, best)
    && forall i :: 0 <= i < |chain| && chain[i] > start ==> !SameBytes(win, chain[i], s, best)
  }

  /** What longest_match finds when first bytes are at hand: it looks at the nearest strings with
      this key, one after the other, until one agrees in nice bytes and more than first, or there
      are no more in reach, or the patience for max of them is used up; the longest of these, if
      longer than first, and of equally long ones the nearest. */
  ghost predicate Searched(win: seq<byte>, s: nat, first: nat, nice: nat, max: nat, chain: seq<nat>, best: nat,
                           start: nat)
    requires s + 2 < |win|
  {
    && chain != [] && |chain| <= max && Nearest(win, s, chain) && first <= best <= MAX_MATCH
    && (forall i :: 0 <= i < |chain| - 1 ==> !SameBytes(win, chain[i], s, if first < nice then nice else first + 1))
    && ((best > first && best >= nice) || |chain| == max || Exhausted(win, s, chain))
    && (best < MAX_MATCH ==> NoneLonger(win, chain, s, best))
    && (best > first ==> StartOk(win, s, chain, best, start))
  }

  /** The search goes on. */
  ghost predicate Searching(win: seq<byte>, s: nat, first: nat, nice: nat, chain: seq<nat>, cur: nat, best: nat,
                            start: nat)
    requires s + 2 < |win|
  {
    && NoneLonger(win, chain, s, best) && Listed(win, s, chain) && Covered(win, s, chain, cur)
    && (chain != [] ==> cur < chain[|chain| - 1])
    && first <= best && (best == first || best < nice) && (best > first ==> StartOk(win, s, chain, best, start))
  }

  lemma {:induction false} SearchStart(win: seq<byte>, s: nat, first: nat, nice: nat, hashHead: nat, start: nat)
    requires s + 2 < |win| && Latest(win, hashHead, s, KeyAt(win, s))
    ensures Searching(win, s, first, nice, [], hashHead, first, start)
  {
    hide KeyAt, SameBytes;
  }

  lemma {:induction false} ListedMore(win: seq<byte>, s: nat, chain: seq<nat>, cur: nat)
    requires s + 2 < |win| && Listed(win, s, chain) && Covered(win, s, chain, cur)
    requires 0 < cur < s && s - cur <= MAX_DIST && KeyAt(win, cur) == KeyAt(win, s)
    requires chain != [] ==> cur < chain[|chain| - 1]
    ensures Nearest(win, s, chain + [cur])
  {
    hide KeyAt;
    var c2 := chain + [cur];
    forall i, j | 0 <= i < j < |c2| ensures c2[i] > c2[j] {
      if j == |chain| && i < |chain| - 1 { assert chain[i] > chain[|chain| - 1]; }
    }
    forall p: nat | c2[|c2| - 1] <= p < s && KeyAt(win, p) == KeyAt(win, s) ensures p in c2 {
      if p > cur { assert p in chain; } else { assert c2[|chain|] == cur; }
    }
  }

  /** The string at cur has been looked at: start2 is cur if it is longer. */
  lemma {:induction false} StartMore(win: seq<byte>, s: nat, chain: seq<nat>, cur: nat, best: nat, start: nat,
                                     len: nat)
    requires s + 2 < |win| && Listed(win, s, chain) && NoneLonger(win, chain, s, best) && cur < s
    requires s - cur <= MAX_DIST && (chain != [] ==> cur < chain[|chain| - 1]) && Compared(win, cur, s, best, len)
    ensures len > best ==> StartOk(win, s, chain + [cur], len, cur)
    ensures len <= best && StartOk(win, s, chain, best, start) ==> StartOk(win, s, chain + [cur], best, start)
  {
    hide SameBytes, KeyAt;
    var c2 := chain + [cur];
    assert c2[|chain|] == cur;
    if len > best {
      forall i | 0 <= i < |c2| && c2[i] > cur ensures !SameBytes(win, c2[i], s, len) {
        assert !SameBytes(win, chain[i], s, best + 1);
        if SameBytes(win, chain[i], s, len) { SameLess(win, chain[i], s, len, best + 1); }
      }
    } else if StartOk(win, s, chain, best, start) {
      assert start >= chain[|chain| - 1] by {
        var i :| 0 <= i < |chain| && chain[i] == start;
        if i < |chain| - 1 { assert chain[i] > chain[|chain| - 1]; }
      }
    }
  }

  /** Whether the search stops at cur or goes on to the next string, what it has found so far is
      what it should. */
  lemma {:induction false} SearchedMore(win: seq<byte>, s: nat, first: nat, nice: nat, max: nat, chain: seq<nat>,
                                        cur: nat, best: nat, start: nat, len: nat, next: nat)
    requires s + 2 < |win| && Searching(win, s, first, nice, chain, cur, best, start) && best < MAX_MATCH
    requires 0 < cur < s && s - cur <= MAX_DIST && KeyAt(win, cur) == KeyAt(win, s) && Compared(win, cur, s, best, len)
    requires |chain| < max && Latest(win, next, cur, KeyAt(win, s)) && nice <= MAX_MATCH
    ensures var b, st, c2 := if len > best then len else best, if len > best then cur else start, chain + [cur];
            && (len > best && len >= nice ==> Searched(win, s, first, nice, max, c2, b, st))
            && (!(len > best && len >= nice) ==>
                  Searching(win, s, first, nice, c2, next, b, st)
                  && (|c2| == max || next <= (if s > MAX_DIST then s - MAX_DIST else NIL) ==>
                        Searched(win, s, first, nice, max, c2, b, st)))
  {
    hide KeyAt, SameBytes, StartOk, NoneLonger, Listed, Compared, Latest;
    var b, st, c2 := if len > best then len else best, if len > best then cur else start, chain + [cur];
    LengthOk(win, cur, s, best, len);
    ListedMore(win, s, chain, cur);
    StartMore(win, s, chain, cur, best, start, len);
    NoneLongerMore(win, chain, s, best, cur, len);
    CoveredMore(win, s, chain, cur, next);
    LatestBelow(win, next, cur, KeyAt(win, s));
    GoesOn(win, s, chain, best, if first < nice then nice else first + 1);
    if next <= (if s > MAX_DIST then s - MAX_DIST else NIL) { NoMore(win, s, c2, next); }
  }

  lemma {:induction false} LatestBelow(win: seq<byte>, m: nat, s: nat, k: nat)
    requires s + 2 <= |win| && Latest(win, m, s, k) && s > 0
    ensures m < s
  {
  }

  lemma {:induction false} GoesOn(win: seq<byte>, s: nat, chain: seq<nat>, best: nat, n: nat)
    requires NoneLonger(win, chain, s, best) && n > best
    ensures forall i :: 0 <= i < |chain| ==> !SameBytes(win, chain[i], s, n)
  {
    hide SameBytes;
    forall i | 0 <= i < |chain| ensures !SameBytes(win, chain[i], s, n) {
      if SameBytes(win, chain[i], s, n) { SameLess(win, chain[i], s, n, best + 1); }
    }
  }

  lemma {:induction false} NoMore(win: seq<byte>, s: nat, chain: seq<nat>, next: nat)
    requires s + 2 < |win| && chain != [] && Covered(win, s, chain, next)
    requires next <= (if s > MAX_DIST then s - MAX_DIST else NIL) && Listed(win, s, chain)
    ensures Exhausted(win, s, chain)
  {
    hide KeyAt;
    forall p: nat | 0 < p < chain[|chain| - 1] && KeyAt(win, p) == KeyAt(win, s) ensures s - p >= MAX_DIST {
      if p > next {
        assert p in chain;
        var i :| 0 <= i < |chain| && chain[i] == p;
        if i < |chain| - 1 { assert chain[i] > chain[|chain| - 1]; }
      }
    }
  }

  /** With patience left and no string long enough to stop at, none nearer than MAX_DIST is longer. */
  lemma {:induction false} SearchedAll(win: seq<byte>, s: nat, first: nat, nice: nat, max: nat, chain: seq<nat>,
                                       best: nat, start: nat)
    requires s + 2 < |win| && Searched(win, s, first, nice, max, chain, best, start) && best < MAX_MATCH && best >= 2
    requires Exhausted(win, s, chain)
    ensures NoneWithin(win, s, best + 1)
  {
    hide SameBytes, KeyAt, NoneLonger;
    var n, cur := best + 1, chain[|chain| - 1] - 1;
    assert Covered(win, s, chain, cur);
    forall p: nat | 0 < p < s && s - p < MAX_DIST ensures !SameBytes(win, p, s, n) {
      if p > cur {
        NotMissed(win, s, chain, cur, best, p);
      } else if SameBytes(win, p, s, n) {
        SameKey(win, p, s, n);
      }
    }
  }

  lemma {:induction false} SameKey(win: seq<byte>, p: nat, s: nat, n: nat)
    requires SameBytes(win, p, s, n) && n >= 3
    ensures p + 2 < |win| && s + 2 < |win| && KeyAt(win, p) == KeyAt(win, s)
  {
    hide SameBytes, Key;
    SameAt(win, p, s, n, 0);
    SameAt(win, p, s, n, 1);
    SameAt(win, p, s, n, 2);
    SameRange(win, p, s, n);
  }

  lemma {:induction false} SameRange(win: seq<byte>, p: nat, s: nat, n: nat)
    requires SameBytes(win, p, s, n)
    ensures p + n <= |win| && s + n <= |win|
  {
  }

  /** The search for the string at strstart. */
  ghost predicate SearchDone(d: Deflater, chain: seq<nat>, best: nat)
    requires d.Shaped() && d.strstart < WINDOW_SIZE
    reads d, d.window
  {
    Searched(d.window[..], d.strstart, d.prevLength, d.config.niceMatch, ChainLength(d.config, d.prevLength), chain,
             best, d.matchStart)
  }

  ghost predicate Seeking(d: Deflater, hashHead: nat, chain: seq<nat>, cur: nat, best: nat, top: nat)
    requires d.Shaped() && d.strstart < WINDOW_SIZE
    reads d, d.window, d.prev
  {
    && Looked(d.window[..], d.prev[..], hashHead, d.strstart, d.prevLength, chain, cur, best, top)
    && Searching(d.window[..], d.strstart, d.prevLength, d.config.niceMatch, chain, cur, best, d.matchStart)
  }

  /** Look at the string at cur; enough if it matches long enough to stop here. */
  method LookAt(d: Deflater, cur: nat, best0: nat, scanEnd1: byte, scanEnd: byte, ghost hashHead: nat,
                ghost chain: seq<nat>, ghost top0: nat)
    returns (best: nat, enough: bool, ghost top: nat)
    requires d.Shaped() && 0 < cur < d.strstart < WINDOW_SIZE && 1 <= d.prevLength <= best0 < MAX_MATCH
    requires scanEnd1 == d.window[d.strstart + best0 - 1] && scanEnd == d.window[d.strstart + best0]
    requires KeyAt(d.window[..], cur) == KeyAt(d.window[..], d.strstart) && d.strstart - cur <= MAX_DIST
    requires Chains(d.window[..], d.head[..], d.prev[..], d.strstart + 1)
    requires |chain| < ChainLength(d.config, d.prevLength) && Seeking(d, hashHead, chain, cur, best0, top0)
    modifies d`matchStart
    ensures best0 <= best <= MAX_MATCH && (enough <==> best > best0 && best >= d.config.niceMatch)
    ensures best == best0 ==> d.matchStart == old(d.matchStart)
    ensures Along(d.prev[..], hashHead, chain + [cur])
    ensures top >= WINDOW_SIZE <==> PastEnd(d.window[..], d.strstart, d.prevLength, chain + [cur])
    ensures !enough ==> best < MAX_MATCH && Seeking(d, hashHead, chain + [cur], d.prev[cur % WSIZE], best, top)
    ensures enough || |chain| + 1 == ChainLength(d.config, d.prevLength) || AtLimit(d, chain + [cur]) ==>
              SearchDone(d, chain + [cur], best)
    ensures var next := d.prev[cur % WSIZE];
            next == NIL || (next < cur && KeyAt(d.window[..], next) == KeyAt(d.window[..], d.strstart))
  {
    hide SameBytes, KeyAt, Along, NoneLonger, Chains, Latest, PastEnd, ReadsPast, Compared, Looked, Searching, Searched;
    ghost var win, s: nat := d.window[..], d.strstart;
    var len;
    ghost var t;
    len, t := MatchLength(d, cur, best0, scanEnd1, scanEnd);
    LengthOk(win, cur, s, best0, len);
    LookedMore(win, d.head[..], d.prev[..], hashHead, s, d.prevLength, chain, cur, best0, len, top0, t);
    NextLink(win, d.head[..], d.prev[..], s, cur);
    SearchedMore(win, s, d.prevLength, d.config.niceMatch, ChainLength(d.config, d.prevLength), chain, cur, best0,
                 d.matchStart, len, d.prev[cur % WSIZE]);
    best, enough := best0, false;
    top := if t > top0 then t else top0;
    if len > best0 {
      d.matchStart := cur;
      best := len;
      enough := len >= d.config.niceMatch;
      if !enough && s + best > top { top := s + best; }
    }
  }

  /** longest_match: what the search finds.  The last place of the window that is read is top. */
  method LongestMatch(d: Deflater, hashHead: nat) returns (best: nat, ghost chain: seq<nat>, ghost top: nat)
    requires d.Shaped() && d.strstart < WINDOW_SIZE && Chains(d.window[..], d.head[..], d.prev[..], d.strstart + 1)
    requires 0 < hashHead < d.strstart && d.strstart - hashHead <= MAX_DIST
    requires Latest(d.window[..], hashHead, d.strstart, KeyAt(d.window[..], d.strstart))
    requires 1 <= d.prevLength < MAX_MATCH
    modifies d`matchStart
    ensures SearchDone(d, chain, best)
    ensures best == d.prevLength ==> d.matchStart == old(d.matchStart)
    ensures Along(d.prev[..], hashHead, chain)
    ensures top >= WINDOW_SIZE <==> PastEnd(d.window[..], d.strstart, d.prevLength, chain)
  {
    hide SameBytes, KeyAt, Along, NoneLonger, Chains, Latest, PastEnd, Looked, Searching, Searched;
    ghost var win, prev, s: nat, first := d.window[..], d.prev[..], d.strstart, d.prevLength;
    var chainLength: nat := d.config.maxChain;
    var cur: nat := hashHead;
    best := d.prevLength;
    var limit: nat := if d.strstart > MAX_DIST then d.strstart - MAX_DIST else NIL;
    if d.prevLength >= d.config.goodMatch {
      chainLength := chainLength / 4;
    }
    ghost var full := chainLength;
    chain, top := [], s + best;
    LookStart(win, prev, s, hashHead, first);
    SearchStart(win, s, first, d.config.niceMatch, hashHead, d.matchStart);
    while true
      invariant 0 < cur < s && s - cur <= MAX_DIST && KeyAt(win, cur) == KeyAt(win, s)
      invariant d.prevLength <= best < MAX_MATCH
      invariant |chain| + chainLength == full && chainLength >= 1
      invariant Seeking(d, hashHead, chain, cur, best, top)
      invariant best == d.prevLength ==> d.matchStart == old(d.matchStart)
      decreases chainLength
    {
      var scanEnd1, scanEnd := d.window[d.strstart + best - 1], d.window[d.strstart + best];
      var enough;
      best, enough, top := LookAt(d, cur, best, scanEnd1, scanEnd, hashHead, chain, top);
      chain := chain + [cur];
      if enough { break; }
      cur := d.prev[cur % WSIZE];
      if cur <= limit { break; }
      chainLength := chainLength - 1;
      if chainLength == 0 { break; }
    }
  }

  lemma {:induction false} LengthOk(win: seq<byte>, m: nat, s: nat, best: nat, len: nat)
    requires Compared(win, m, s, best, len)
    ensures len <= MAX_MATCH
  {
  }

  /** The next string of the chain is too far back, or there is none. */
  ghost predicate AtLimit(d: Deflater, chain: seq<nat>)
    requires d.Shaped() && chain != []
    reads d, d.prev
  {
    d.prev[chain[|chain| - 1] % WSIZE] <= if d.strstart > MAX_DIST then d.strstart - MAX_DIST else NIL
  }

  lemma {:induction false} LookStart(win: seq<byte>, prev: seq<nat>, s: nat, hashHead: nat, first: nat)
    requires s + 2 < |win| && Latest(win, hashHead, s, KeyAt(win, s)) && hashHead > 0 && |prev| == WSIZE
    ensures Looked(win, prev, hashHead, s, first, [], hashHead, first, s + first)
    ensures KeyAt(win, hashHead) == KeyAt(win, s)
  {
    hide KeyAt, SameBytes;
    WalkedStart(win, prev, hashHead, s, first);
  }

  lemma {:induction false} SameOf(win: seq<byte>, m: nat, s: nat, best: nat, len: nat)
    requires Compared(win, m, s, best, len) && len > best
    ensures SameBytes(win, m, s, len) && len <= MAX_MATCH
  {
    hide SameBytes;
  }

  lemma {:induction false} AlongStart(prev: seq<nat>, hashHead: nat)
    requires |prev| == WSIZE
    ensures Along(prev, hashHead, [] + [hashHead])
  {
  }

  /** The next string in a chain has the same key. */
  lemma {:induction false} NextLink(win: seq<byte>, head: seq<nat>, prev: seq<nat>, s: nat, cur: nat)
    requires Chains(win, head, prev, s + 1) && cur < s && s - cur <= MAX_DIST && s + 2 < |win|
    ensures |prev| == WSIZE
    ensures Latest(win, prev[cur % WSIZE], cur, KeyAt(win, cur))
    ensures prev[cur % WSIZE] == NIL || (prev[cur % WSIZE] < cur && KeyAt(win, prev[cur % WSIZE]) == KeyAt(win, cur))
  {
    hide KeyAt;
    assert PrevOk(win, prev, cur);
  }

  /** A look that goes past the window's end is one for the last bytes of the input: as long as
      more may be read, or more than MAX_MATCH - 2 bytes are left, the window has the place. */
  lemma {:induction false} BeyondOnlyAtEnd(d: Deflater, first: nat, chain: seq<nat>)
    requires d.Valid() && first <= MAX_MATCH && PastEnd(d.window[..], d.strstart, first, chain)
    ensures d.eofile && d.lookahead <= MAX_MATCH - 2
  {
    hide Chains, Running, SameBytes;
  }

  // ------------------------------------------------------------- past the window

  /** The first n bytes are zero. */
  ghost predicate Zeroed(win: seq<byte>, n: nat) { n <= |win| && forall i :: 0 <= i < n ==> win[i] == 0 }

  lemma {:induction false} ZeroedSame(win: seq<byte>, n: nat, m: nat, s: nat, len: nat)
    requires Zeroed(win, n) && m <= s && s + len <= n
    ensures SameBytes(win, m, s, len)
  {
    var a, b := win[m..m + len], win[s..s + len];
    assert forall i :: 0 <= i < len ==> a[i] == b[i];
  }

  lemma {:induction false} ZeroedKey(win: seq<byte>, n: nat, m: nat, s: nat)
    requires Zeroed(win, n) && m <= s && s + 3 <= n
    ensures KeyAt(win, m) == KeyAt(win, s)
  {
  }

  /** The latest string with the same key is the one right before. */
  lemma {:induction false} ZeroedLatest(win: seq<byte>, n: nat, m: nat, s: nat)
    requires Zeroed(win, n) && s + 3 <= n && s >= 2 && Latest(win, m, s, KeyAt(win, s))
    ensures m == s - 1
  {
    hide KeyAt;
    ZeroedKey(win, n, s - 1, s);
  }

  method FillZeros(a: array<byte>)
    modifies a
    ensures Zeroed(a[..], a.Length)
  {
    var i := 0;
    while i < a.Length
      invariant i <= a.Length && forall j :: 0 <= j < i ==> a[j] == 0
    {
      a[i] := 0;
      i := i + 1;
    }
  }

  /** An input of 2 * WSIZE - 2 zeros, all read. */
  method AllZeros() returns (d: Deflater)
    ensures fresh(d) && fresh(d.window) && fresh(d.prev) && fresh(d.head) && d.Chained() && d.eofile
    ensures d.strstart == 0 && d.lookahead == WINDOW_SIZE - 2 && Zeroed(d.window[..], WINDOW_SIZE)
  {
    hide Chains, Running, Latest, KeyAt, Zeroed, Shows;
    var input: seq<byte> := seq(WINDOW_SIZE - 2, _ => 0);
    var src := new Source(input, _ => 0);
    d := new Deflater(src, 6);
    FillZeros(d.window);
    src.pos := |input|;
    d.eofile, d.strstart, d.lookahead, d.origin := true, 0, WINDOW_SIZE - 2, 0;
    ClearHeads(d.head);
    NoStrings(d.window[..], d.head[..], d.prev[..]);
    ZeroedShows(d.window[..], input);
    d.StartHash();
  }

  /** It has been gone through up to the last ten bytes. */
  method NearTheEnd() returns (d: Deflater)
    ensures fresh(d) && fresh(d.window) && fresh(d.prev) && fresh(d.head) && d.Valid()
    ensures d.strstart == WINDOW_SIZE - 12 && d.lookahead == 10 && Zeroed(d.window[..], WINDOW_SIZE)
  {
    hide Chains, Running, Latest, KeyAt, Zeroed, Shows;
    d := AllZeros();
    while d.strstart < WINDOW_SIZE - 12
      invariant d.strstart <= WINDOW_SIZE - 12 && d.strstart + d.lookahead == WINDOW_SIZE - 2 && d.Chained() && d.eofile
      invariant fresh(d) && fresh(d.window) && fresh(d.prev) && fresh(d.head) && Zeroed(d.window[..], WINDOW_SIZE)
    {
      var hashHead := d.InsertString(d.strstart);
      d.strstart := d.strstart + 1;
      d.lookahead := d.lookahead - 1;
    }
  }

  lemma {:induction false} ZeroedShows(win: seq<byte>, input: seq<byte>)
    requires Zeroed(win, WINDOW_SIZE + MAX_MATCH) && |win| == WINDOW_SIZE + MAX_MATCH
    requires |input| == WINDOW_SIZE - 2 && forall i :: 0 <= i < |input| ==> input[i] == 0
    ensures Shows(win, input, 0, WINDOW_SIZE - 2, WINDOW_SIZE - 2) && Zeroed(win, WINDOW_SIZE)
  {
    var a, b := win[..WINDOW_SIZE - 2], input[0..WINDOW_SIZE - 2];
    assert forall i :: 0 <= i < WINDOW_SIZE - 2 ==> a[i] == b[i];
  }

  /** There the next look for a match reads past the end of the window. */
  method PastEndRun() returns (best: nat, ghost top: nat)
    ensures top >= WINDOW_SIZE
  {
    hide Chains, Running, KeyAt, Zeroed, Latest, SameBytes, Shows;
    var d := NearTheEnd();
    var hashHead := d.InsertString(d.strstart);
    ghost var win, s: nat := d.window[..], d.strstart;
    ZeroedLatest(win, WINDOW_SIZE, hashHead, s);
    ZeroedSame(win, WINDOW_SIZE, hashHead, s, WINDOW_SIZE - s);
    d.prevLength := MIN_MATCH - 1;
    ghost var chain;
    best, chain, top := LongestMatch(d, hashHead);
    assert chain[0] == hashHead;
  }
}
