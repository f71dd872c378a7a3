/** What the lazy deflate of archive/gzip/deflate.c puts out, in terms of the input alone: which
    matches a look at a place may leave unfound, and when a match or a literal is output. */
module DeflateLazy {
  import opened BitString
  import opened Lz
  import opened InflateFormat
  import opened DeflateHash
  import opened DeflateText
  import opened DeflateWindow
  import opened DeflateMatch

  const TOO_FAR: nat := 4096

  // ------------------------------------------------------------------- one look

  /** The string at q is a better match for the one at p than b bytes.  Three bytes count up to 4096
      bytes back only; at the end of the input they may be missed. */
  ghost predicate Beats(input: seq<byte>, p: nat, q: nat, b: nat)
    requires q < p
  {
    if b >= 3 then Repeats(input, p, p + b + 1, p - q)
    else Repeats(input, p, p + 4, p - q)
         || (Repeats(input, p, p + 3, p - q) && p - q <= 4096 && p + 3 < |input|)
  }

  /** No string less than 0x4000 - 262 bytes back, the one at 0 aside, is better. */
  ghost predicate NoBetter(input: seq<byte>, p: nat, b: nat) {
    forall q: nat :: 0 < q < p && p - q < 16122 ==> !Beats(input, p, q, b)
  }

  /** The n nearest strings with the same key, which are no better. */
  ghost predicate Tried(input: seq<byte>, p: nat, b: nat, n: nat, chain: seq<nat>) {
    && p + 2 < |input| && |chain| == n >= 1
    && (forall i :: 0 <= i < n ==>
          0 < chain[i] < p && p - chain[i] <= 16122 && KeyAt(input, chain[i]) == KeyAt(input, p)
          && !Beats(input, p, chain[i], b))
    && (forall i, j :: 0 <= i < j < n ==> chain[i] > chain[j])
    && forall q: nat :: chain[n - 1] <= q < p && KeyAt(input, q) == KeyAt(input, p) ==> q in chain
  }

  ghost predicate GaveUp(input: seq<byte>, p: nat, b: nat, n: nat) { exists chain :: Tried(input, p, b, n, chain) }

  /** m bytes at p repeat those d back, which do not start at 0, and are near if they are but three;
      and unless the input ends there, no nearer string has them. */
  ghost predicate NearestCopy(input: seq<byte>, p: nat, m: nat, d: nat) {
    && d < p && TrueCopy(input, p, m, d) && (m == 3 ==> d <= 4096)
    && (p + m < |input| ==> NoNearer(input, p, p + m, d))
  }

  ghost predicate NoNearer(input: seq<byte>, p: nat, to: nat, d: nat) {
    forall e: nat :: 0 < e < d ==> !Repeats(input, p, to, e)
  }

  ghost predicate CopyAt(input: seq<byte>, p: nat, m: nat) { exists d: nat :: NearestCopy(input, p, m, d) }

  /** A look at p, with l bytes at hand, finds m: nothing if l is as much as max_lazy.  What it finds
      beyond l is a true copy.  If something is better than that and what is at hand, then it was
      enough to stop at, or as many strings have been tried as the patience allows: a fourth of it
      when l is good already. */
  ghost predicate Finds(input: seq<byte>, p: nat, l: nat, m: nat, c: Config) {
    var b := if m > l then m else l;
    && (l >= c.maxLazy ==> m == 2)
    && (m >= 3 && m > l ==> CopyAt(input, p, m))
    && (l < c.maxLazy ==>
          b >= c.niceMatch || NoBetter(input, p, b)
          || GaveUp(input, p, b, if l >= c.goodMatch then c.maxChain / 4 else c.maxChain))
  }

  // ------------------------------------------------------ from the window to the input

  /** What the window shows of the input around place p = origin + s. */
  ghost predicate Around(win: seq<byte>, input: seq<byte>, origin: nat, s: nat, n: nat, pos: nat) {
    && Shows(win, input, origin, n, pos) && s < n && (pos == |input| || n - s >= MIN_LOOKAHEAD)
    && (origin == 0 || s >= MAX_DIST) && s + 3 <= WINDOW_SIZE
  }

  lemma {:induction false} RepeatsSame(win: seq<byte>, input: seq<byte>, origin: nat, s: nat, n: nat, pos: nat, wq: nat,
                                       k: nat)
    requires Around(win, input, origin, s, n, pos) && wq < s && k <= MAX_MATCH + 1
    requires Repeats(input, origin + s, origin + s + k, s - wq)
    ensures SameBytes(win, wq, s, k) && s + k <= n
  {
    var a, b := win[wq..wq + k], win[s..s + k];
    forall i | 0 <= i < k ensures a[i] == b[i] {
      ShowsAt(win, input, origin, n, pos, s + i);
      ShowsAt(win, input, origin, n, pos, wq + i);
      assert input[origin + s + i] == input[origin + s + i - (s - wq)];
    }
  }

  /** A better match for p is one for s in the window, of b + 1 bytes, or of three and near. */
  lemma {:induction false} BeatsSame(win: seq<byte>, input: seq<byte>, origin: nat, s: nat, n: nat, pos: nat, wq: nat,
                                     b: nat)
    requires Around(win, input, origin, s, n, pos) && wq < s && 2 <= b <= MAX_MATCH
    requires Beats(input, origin + s, origin + wq, b)
    ensures b >= 3 ==> SameBytes(win, wq, s, b + 1) && s + b + 1 <= n
    ensures b == 2 ==> SameBytes(win, wq, s, 3) && s + 4 <= n
    ensures b == 2 ==> SameBytes(win, wq, s, 4) || s - wq <= TOO_FAR
  {
    hide SameBytes, Around;
    if b >= 3 {
      RepeatsSame(win, input, origin, s, n, pos, wq, b + 1);
    } else if Repeats(input, origin + s, origin + s + 4, s - wq) {
      RepeatsSame(win, input, origin, s, n, pos, wq, 4);
      SameLess(win, wq, s, 4, 3);
    } else {
      RepeatsSame(win, input, origin, s, n, pos, wq, 3);
      AroundMore(win, input, origin, s, n, pos);
    }
  }

  lemma {:induction false} AroundMore(win: seq<byte>, input: seq<byte>, origin: nat, s: nat, n: nat, pos: nat)
    requires Around(win, input, origin, s, n, pos)
    ensures origin + s + 3 < |input| ==> s + 4 <= n
    ensures |win| == WINDOW_SIZE + MAX_MATCH && origin + n <= |input|
    ensures s + 2 < n ==> origin + s + 2 < |input|
    ensures n - s < MIN_LOOKAHEAD ==> origin + n == |input|
  {
  }

  lemma {:induction false} AroundPlace(win: seq<byte>, input: seq<byte>, origin: nat, s: nat, n: nat, pos: nat)
    requires Around(win, input, origin, s, n, pos)
    ensures s + 3 <= WINDOW_SIZE
  {
  }

  /** The string at place wq of the window is a better match. */
  ghost predicate BeatsHere(input: seq<byte>, origin: nat, s: nat, wq: nat, b: nat)
    requires wq < s
  {
    Beats(input, origin + s, origin + wq, b)
  }

  /** Nothing is better if no string in the window is. */
  lemma {:induction false} NoneBeats(win: seq<byte>, input: seq<byte>, origin: nat, s: nat, n: nat, pos: nat, b: nat)
    requires Around(win, input, origin, s, n, pos) && 2 <= b <= MAX_MATCH
    requires forall wq: nat :: 0 < wq < s && s - wq < MAX_DIST ==> !BeatsHere(input, origin, s, wq, b)
    ensures NoBetter(input, origin + s, b)
  {
    hide Beats;
    var p := origin + s;
    forall q: nat | 0 < q < p && p - q < 16122 ensures !Beats(input, p, q, b) {
      InWindow(win, input, origin, s, n, pos, q);
      assert !BeatsHere(input, origin, s, q - origin, b);
    }
  }

  lemma {:induction false} InWindow(win: seq<byte>, input: seq<byte>, origin: nat, s: nat, n: nat, pos: nat, q: nat)
    requires Around(win, input, origin, s, n, pos) && 0 < q < origin + s && origin + s - q < MAX_DIST
    ensures q > origin
  {
  }

  /** At the end of the input there is nothing better than all of it. */
  lemma {:induction false} AllOfIt(input: seq<byte>, p: nat, b: nat)
    requires p + b >= |input|
    ensures NoBetter(input, p, b)
  {
  }

  lemma {:induction false} ThreeLeft(input: seq<byte>, p: nat)
    requires p + 3 == |input|
    ensures NoBetter(input, p, 2)
  {
  }

  /** There is no string with the key in reach. */
  lemma {:induction false} LookNone(win: seq<byte>, input: seq<byte>, origin: nat, s: nat, n: nat, pos: nat,
                                    hashHead: nat, l: nat, c: Config)
    requires Around(win, input, origin, s, n, pos) && 2 <= l <= MAX_MATCH && |win| == WINDOW_SIZE + MAX_MATCH
    requires Latest(win, hashHead, s, KeyAt(win, s))
    requires l >= c.maxLazy || hashHead == NIL || s - hashHead > MAX_DIST
    ensures Finds(input, origin + s, l, 2, c)
  {
    hide Beats, SameBytes, KeyAt, Around, NoBetter, GaveUp;
    if l < c.maxLazy {
      forall wq: nat | 0 < wq < s && s - wq < MAX_DIST ensures !BeatsHere(input, origin, s, wq, l) {
        if Beats(input, origin + s, origin + wq, l) {
          BeatsSame(win, input, origin, s, n, pos, wq, l);
          SameKey(win, wq, s, if l >= 3 then l + 1 else 3);
          assert KeyAt(win, wq) != KeyAt(win, s);
        }
      }
      NoneBeats(win, input, origin, s, n, pos, l);
    }
  }

  /** A string of the chain is no better than what the search has found, b, or two bytes when it
      found three too far back. */
  lemma {:induction false} NotBetter(win: seq<byte>, input: seq<byte>, origin: nat, s: nat, n: nat, pos: nat, l: nat,
                                     chain: seq<nat>, best: nat, start: nat, b: nat, i: nat)
    requires Around(win, input, origin, s, n, pos) && NoneLonger(win, chain, s, best) && i < |chain| && chain[i] < s
    requires 2 <= l <= best <= MAX_MATCH && (best > l ==> StartOk(win, s, chain, best, start))
    requires b == best || (b == 2 && best == 3 && l == 2 && start < s && s - start > TOO_FAR)
    ensures !Beats(input, origin + s, origin + chain[i], b)
  {
    hide Beats, SameBytes, Around;
    if Beats(input, origin + s, origin + chain[i], b) {
      BeatsSame(win, input, origin, s, n, pos, chain[i], b);
      assert !SameBytes(win, chain[i], s, best + 1);
      if b != best { assert chain[i] > start; }
    }
  }

  /** What the search has found is the nearest copy. */
  lemma {:induction false} FoundNearest(win: seq<byte>, input: seq<byte>, origin: nat, s: nat, n: nat, pos: nat,
                                        chain: seq<nat>, best: nat, start: nat, m: nat)
    requires Around(win, input, origin, s, n, pos) && |win| == WINDOW_SIZE + MAX_MATCH && start < s
    requires Nearest(win, s, chain) && StartOk(win, s, chain, best, start) && best <= MAX_MATCH
    requires 3 <= m && m == (if best > n - s then n - s else best) && TrueCopy(input, origin + s, m, s - start)
    requires m == 3 ==> s - start <= TOO_FAR
    ensures NearestCopy(input, origin + s, m, s - start)
  {
    hide SameBytes, KeyAt, Around, Repeats;
    AroundMore(win, input, origin, s, n, pos);
    var p := origin + s;
    assert start in chain && start > 0 && chain != [];
    if p + m < |input| {
      var to := p + m;
      forall e: nat | 0 < e < s - start ensures !Repeats(input, p, to, e) {
        if Repeats(input, p, to, e) {
          var wq := s - e;
          RepeatsSame(win, input, origin, s, n, pos, wq, m);
          SameKey(win, wq, s, m);
          var j :| 0 <= j < |chain| && chain[j] == start;
          if j < |chain| - 1 { assert chain[j] > chain[|chain| - 1]; }
          var i :| 0 <= i < |chain| && chain[i] == wq;
        }
      }
    }
  }

  lemma {:induction false} LookSearched(win: seq<byte>, input: seq<byte>, origin: nat, s: nat, n: nat, pos: nat,
                                        l: nat, chain: seq<nat>, best: nat, start: nat, m: nat, c: Config)
    requires Around(win, input, origin, s, n, pos) && |win| == WINDOW_SIZE + MAX_MATCH && ConfigOk(c)
    requires 2 <= l < c.maxLazy && best <= n - s
    requires Searched(win, s, l, c.niceMatch, ChainLength(c, l), chain, best, start)
    requires m == best || (m == 2 && best == 3 && (best > l ==> start < s && s - start > TOO_FAR))
    ensures var b := if m > l then m else l;
            b >= c.niceMatch || NoBetter(input, origin + s, b) || GaveUp(input, origin + s, b, ChainLength(c, l))
  {
    hide Beats, SameBytes, KeyAt, Around, NoBetter, StartOk, NoneLonger;
    AroundMore(win, input, origin, s, n, pos);
    assert s + 2 < |win| by { AroundPlace(win, input, origin, s, n, pos); }
    var b := if m > l then m else l;
    if b < c.niceMatch {
      if Exhausted(win, s, chain) {
        forall wq: nat | 0 < wq < s && s - wq < MAX_DIST ensures !BeatsHere(input, origin, s, wq, b) {
          if Beats(input, origin + s, origin + wq, b) {
            BeatsSame(win, input, origin, s, n, pos, wq, b);
            SameKey(win, wq, s, if b >= 3 then b + 1 else 3);
            assert wq >= chain[|chain| - 1];
            var i :| 0 <= i < |chain| && chain[i] == wq;
            NotBetter(win, input, origin, s, n, pos, l, chain, best, start, b, i);
          }
        }
        NoneBeats(win, input, origin, s, n, pos, b);
      } else {
        TriedAll(win, input, origin, s, n, pos, l, chain, best, start, b, c);
      }
    }
  }

  /** What is made of the best length: cut to what is left, and nothing for three bytes too far
      back. */
  lemma {:induction false} LookFinds(win: seq<byte>, input: seq<byte>, origin: nat, s: nat, n: nat, pos: nat,
                                     l: nat, chain: seq<nat>, best: nat, start: nat, m: nat, c: Config)
    requires Around(win, input, origin, s, n, pos) && |win| == WINDOW_SIZE + MAX_MATCH && ConfigOk(c)
    requires 2 <= l < c.maxLazy && start < WORD
    requires Searched(win, s, l, c.niceMatch, ChainLength(c, l), chain, best, start)
    requires var cut := if best > n - s then n - s else best;
             m == if cut == 3 && (s + WORD - start) % WORD > TOO_FAR then 2 else cut
    requires m >= 3 && m > l ==> CopyAt(input, origin + s, m)
    ensures Finds(input, origin + s, l, m, c)
  {
    hide NoBetter, GaveUp, Around, Nearest, NoneLonger, SameBytes, Exhausted;
    AroundMore(win, input, origin, s, n, pos);
    if best > n - s {
      if m == n - s || l > 2 {
        AllOfIt(input, origin + s, if m > l then m else l);
      } else {
        ThreeLeft(input, origin + s);
      }
    } else {
      LookSearched(win, input, origin, s, n, pos, l, chain, best, start, m, c);
    }
  }

  lemma {:induction false} TriedAll(win: seq<byte>, input: seq<byte>, origin: nat, s: nat, n: nat, pos: nat,
                                    l: nat, chain: seq<nat>, best: nat, start: nat, b: nat, c: Config)
    requires Around(win, input, origin, s, n, pos) && |win| == WINDOW_SIZE + MAX_MATCH && 2 <= l <= best <= MAX_MATCH
    requires Nearest(win, s, chain) && NoneLonger(win, chain, s, best) && best <= n - s
    requires best > l ==> StartOk(win, s, chain, best, start)
    requires b == best || (b == 2 && best == 3 && l == 2 && start < s && s - start > TOO_FAR)
    requires |chain| == ChainLength(c, l) >= 1
    ensures NoBetter(input, origin + s, b) || GaveUp(input, origin + s, b, ChainLength(c, l))
  {
    hide Beats, SameBytes, KeyAt, Around, NoBetter, StartOk, NoneLonger;
    AroundMore(win, input, origin, s, n, pos);
    if n - s <= 2 {
      AllOfIt(input, origin + s, b);
    } else {
      var places := seq(|chain|, i requires 0 <= i < |chain| => origin + chain[i]);
      forall i | 0 <= i < |chain|
        ensures KeyAt(input, places[i]) == KeyAt(input, origin + s) && !Beats(input, origin + s, places[i], b)
      {
        SameKeys(win, input, origin, s, n, pos, chain[i]);
        SameKeys(win, input, origin, s, n, pos, s);
        NotBetter(win, input, origin, s, n, pos, l, chain, best, start, b, i);
      }
      forall q: nat | places[|chain| - 1] <= q < origin + s && KeyAt(input, q) == KeyAt(input, origin + s)
        ensures q in places
      {
        SameKeys(win, input, origin, s, n, pos, q - origin);
        SameKeys(win, input, origin, s, n, pos, s);
        var i :| 0 <= i < |chain| && chain[i] == q - origin;
        assert places[i] == q;
      }
      assert Tried(input, origin + s, b, |chain|, places);
    }
  }

  /** A string of the window has the key it has in the input. */
  lemma {:induction false} SameKeys(win: seq<byte>, input: seq<byte>, origin: nat, s: nat, n: nat, pos: nat, q: nat)
    requires Around(win, input, origin, s, n, pos) && q <= s && s + 2 < n
    ensures q + 2 < |win| && origin + q + 2 < |input| && KeyAt(input, origin + q) == KeyAt(win, q)
  {
    hide Key;
    ShowsAt(win, input, origin, n, pos, q);
    ShowsAt(win, input, origin, n, pos, q + 1);
    ShowsAt(win, input, origin, n, pos, q + 2);
  }

  // --------------------------------------------------------------------- all items

  /** A literal is what is left of a place where nothing was found, or less than at the next one; a
      match is what was found, and no less than at the next place. */
  ghost predicate Judged(input: seq<byte>, c: Config, k: Item, st: View, p: nat) {
    && Finds(input, p, st.prior, st.found, c)
    && match k {
         case Lit(_) => st.found < 3 || (st.next > st.found && Finds(input, p + 1, st.found, st.next, c))
         case Back(len, dist) =>
           len == st.found && st.found > st.prior && st.next <= st.found && NearestCopy(input, p, len, dist)
           && Finds(input, p + 1, st.found, st.next, c)
       }
  }

  /** After a literal its next look is the one at the place now; after a match nothing is at hand. */
  ghost predicate Follows(all: seq<Item>, steps: seq<View>, prior: nat, found: nat)
    requires |all| == |steps|
  {
    if all != [] && all[|all| - 1].Lit? then prior == steps[|all| - 1].found && found == steps[|all| - 1].next
    else prior == 2
  }

  /** The items up to place b, with the looks that led to them. */
  ghost predicate Lazily(input: seq<byte>, c: Config, all: seq<Item>, steps: seq<View>, b: nat)
    decreases |all|
  {
    && |all| == |steps|
    && if all == [] then b == 0
       else
         var n := |all| - 1;
         && ItemLen(all[n]) <= b
         && Lazily(input, c, all[..n], steps[..n], b - ItemLen(all[n]))
         && Follows(all[..n], steps[..n], steps[n].prior, steps[n].found)
         && Judged(input, c, all[n], steps[n], b - ItemLen(all[n]))
  }

  lemma {:induction false} LazilyMore(input: seq<byte>, c: Config, all: seq<Item>, steps: seq<View>, b: nat, k: Item,
                                      st: View)
    requires Lazily(input, c, all, steps, b) && Follows(all, steps, st.prior, st.found) && Judged(input, c, k, st, b)
    ensures Lazily(input, c, all + [k], steps + [st], b + ItemLen(k))
  {
    hide Follows, Judged;
    assert (all + [k])[..|all|] == all && (steps + [st])[..|all|] == steps;
  }

  /** Between two looks: the items so far end at b, and if a byte is available its look found m. */
  ghost predicate LazyState(input: seq<byte>, c: Config, all: seq<Item>, steps: seq<View>, prior: nat, b: int,
                            available: bool, m: nat) {
    && b >= 0 && |all| == |steps| && Lazily(input, c, all, steps, b)
    && if available then Follows(all, steps, prior, m) && Finds(input, b, prior, m, c) && (m >= 3 ==> m > prior)
       else all != [] ==> all[|all| - 1].Back?
  }

  lemma {:induction false} StateStart(input: seq<byte>, c: Config, prior: nat)
    ensures LazyState(input, c, [], [], prior, 0, false, 2)
  {
  }

  /** The match is output. */
  lemma {:induction false} StateMatch(input: seq<byte>, c: Config, all: seq<Item>, steps: seq<View>, prior: nat, p: int,
                                      m: nat, next: nat, dist: nat, prior2: nat)
    requires LazyState(input, c, all, steps, prior, p, true, m) && m >= 3 && next <= m
    requires Finds(input, p + 1, m, next, c) && NearestCopy(input, p, m, dist)
    ensures LazyState(input, c, all + [Back(m, dist)], steps + [View(prior, m, next)], prior2, p + m, false, 2)
  {
    hide Finds, Follows, Lazily, NearestCopy;
    LazilyMore(input, c, all, steps, p, Back(m, dist), View(prior, m, next));
  }

  /** The byte is output, and the next one is available. */
  lemma {:induction false} StateLiteral(input: seq<byte>, c: Config, all: seq<Item>, steps: seq<View>, prior: nat,
                                        p: int, m: nat, next: nat, x: byte)
    requires LazyState(input, c, all, steps, prior, p, true, m) && Finds(input, p + 1, m, next, c)
    requires m >= 3 || next >= 3 ==> next > m
    ensures LazyState(input, c, all + [Lit(x)], steps + [View(prior, m, next)], m, p + 1, true, next)
  {
    hide Finds, Lazily;
    LazilyMore(input, c, all, steps, p, Lit(x), View(prior, m, next));
  }

  /** The byte is available. */
  lemma {:induction false} StateWait(input: seq<byte>, c: Config, all: seq<Item>, steps: seq<View>, prior: nat, p: int,
                                     next: nat)
    requires LazyState(input, c, all, steps, prior, p, false, 2) && Finds(input, p, 2, next, c)
    ensures LazyState(input, c, all, steps, 2, p, true, next)
  {
    hide Finds, Lazily;
  }

  /** The last byte is output. */
  lemma {:induction false} StateLast(input: seq<byte>, c: Config, all: seq<Item>, steps: seq<View>, prior: nat, p: int,
                                     m: nat, x: byte)
    requires LazyState(input, c, all, steps, prior, p, true, m) && m < 3
    ensures Lazily(input, c, all + [Lit(x)], steps + [View(prior, m, 0)], p + 1)
  {
    hide Finds, Follows, Lazily;
    LazilyMore(input, c, all, steps, p, Lit(x), View(prior, m, 0));
  }

  // ------------------------------------------------------------------- an example

  lemma {:induction false} ReachSnoc(a: nat, ks: seq<Item>, k: Item)
    ensures Reach(a, ks + [k]) == Reach(a, ks) + ItemLen(k)
    decreases |ks|
  {
    if ks == [] {
      assert [] + [k] == [k];
      assert [k][1..] == [];
    } else {
      assert (ks + [k])[1..] == ks[1..] + [k];
      ReachSnoc(a + ItemLen(ks[0]), ks[1..], k);
    }
  }

  /** Every item is judged where it stands. */
  lemma {:induction false} LazilyAt(input: seq<byte>, c: Config, all: seq<Item>, steps: seq<View>, b: nat, i: nat)
    requires Lazily(input, c, all, steps, b) && Reach(0, all) == b && i < |all|
    ensures |steps| == |all| && Judged(input, c, all[i], steps[i], Reach(0, all[..i]))
    ensures Follows(all[..i], steps[..i], steps[i].prior, steps[i].found)
    decreases |all|
  {
    hide Judged, Follows, Reach;
    var n := |all| - 1;
    assert all == all[..n] + [all[n]];
    ReachSnoc(0, all[..n], all[n]);
    if i < n {
      LazilyAt(input, c, all[..n], steps[..n], b - ItemLen(all[n]), i);
      assert all[..n][..i] == all[..i] && steps[..n][..i] == steps[..i];
    }
  }

  /** Eight times the letter a. */
  function EightAs(): (s: seq<byte>)
    ensures |s| == 8 && forall i :: 0 <= i < 8 ==> s[i] == 97
  {
    seq(8, _ => 97)
  }

  lemma {:induction false} NothingAt(m: nat, p: nat)
    requires p < 2
    ensures !CopyAt(EightAs(), p, m)
  {
  }

  lemma {:induction false} LiteralAt(k: Item, st: View, p: nat, c: Config)
    requires Judged(EightAs(), c, k, st, p) && st.prior < 3 && p < 2 && Tells(EightAs(), p, k)
    ensures k == Lit(97) && st.found < 3
  {
    hide NoBetter, GaveUp, CopyAt;
    if st.found >= 3 { NothingAt(st.found, p); }
  }

  /** What the look at 2 finds: six bytes, all that is left. */
  lemma {:induction false} SixAt(prior: nat, m: nat)
    requires Finds(EightAs(), 2, prior, m, Config(8, 32, 128, 256)) && prior < 3
    ensures m == 6
  {
    hide Beats;
    var input, b := EightAs(), if m > prior then m else prior;
    if m >= 3 { CopyEnds(m, 2); }
    if GaveUp(input, 2, b, 256) {
      var chain: seq<nat> :| Tried(input, 2, b, 256, chain);
      assert chain[0] > chain[1];
    }
    if b < 6 { OneBeats(b); }
  }

  lemma {:induction false} OneBeats(b: nat)
    requires b < 6
    ensures Beats(EightAs(), 2, 1, b)
  {
  }

  lemma {:induction false} CopyEnds(m: nat, p: nat)
    requires CopyAt(EightAs(), p, m)
    ensures p + m <= 8
  {
  }

  lemma {:induction false} MatchAt(k: Item, st: View)
    requires Judged(EightAs(), Config(8, 32, 128, 256), k, st, 2) && st.prior < 3
    ensures k == Back(6, 1)
  {
    hide NoBetter, GaveUp, CopyAt;
    SixAt(st.prior, st.found);
    if k.Lit? { CopyEnds(st.next, 3); }
  }

  lemma {:induction false} ReachGrows(a: nat, ks: seq<Item>)
    ensures Reach(a, ks) >= a
    decreases |ks|
  {
    if ks != [] { ReachGrows(a + ItemLen(ks[0]), ks[1..]); }
  }

  /** With the settings of level 6 the eight letters become two literals and a match of six bytes one
      back, whatever the way of reading them. */
  lemma {:induction false} EightAsPacked(all: seq<Item>, steps: seq<View>)
    requires Parses(EightAs(), 0, all) && Reach(0, all) == 8
    requires Lazily(EightAs(), Config(8, 32, 128, 256), all, steps, 8)
    ensures all == [Lit(97), Lit(97), Back(6, 1)]
  {
    hide Judged, Tells, Lazily;
    var input, c := EightAs(), Config(8, 32, 128, 256);
    LazilyAt(input, c, all, steps, 8, 0);
    assert all[..0] == [];
    LiteralAt(all[0], steps[0], 0, c);
    var one := all[1..];
    assert Reach(1, one) == 8 && Parses(input, 1, one);
    LazilyAt(input, c, all, steps, 8, 1);
    assert all[..1] == [Lit(97)] && steps[..1] == [steps[0]];
    ReachSnoc(0, [], Lit(97));
    LiteralAt(all[1], steps[1], 1, c);
    var two := one[1..];
    assert Reach(2, two) == 8 && Parses(input, 2, two);
    LazilyAt(input, c, all, steps, 8, 2);
    assert all[..2] == [Lit(97)] + [Lit(97)] && steps[..2] == [steps[0], steps[1]];
    ReachSnoc(0, [Lit(97)], Lit(97));
    MatchAt(all[2], steps[2]);
    var three := two[1..];
    assert Reach(8, three) == 8;
    if three != [] { ReachGrows(8 + ItemLen(three[0]), three[1..]); ItemPositive(input, three); }
    assert three == all[3..] && all == all[..3] + three && all[..3] == [all[0], all[1], all[2]];
  }

  lemma {:induction false} ItemPositive(input: seq<byte>, ks: seq<Item>)
    requires Parses(input, 8, ks) && ks != []
    ensures ItemLen(ks[0]) >= 1
  {
  }
}
