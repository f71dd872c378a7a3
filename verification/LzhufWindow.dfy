/** The window of Encode in archive/lharc/lzhuf.c: what the ring buffer shows of the text, which
    matches are on offer at a place, and that no string in the window offers a longer one. */
module LzhufWindow {
  import opened BitString
  import opened Lz
  import opened LzhufKeys
  import opened LzhufSearch
  import opened LzhufMatch
  import opened LzhufDecode

  /** The text buffer shows the last N bytes of full[..e]: byte q at q % N, and those at the
      start of the window again behind its end. */
  ghost predicate Window(text: seq<byte>, full: seq<byte>, e: nat) {
    && |text| == TEXT && e <= |full|
    && forall q :: 0 <= q < e && e - N <= q ==> Shown(text, full, q)
  }

  ghost predicate Shown(text: seq<byte>, full: seq<byte>, q: nat)
    requires |text| == TEXT && q < |full|
  {
    text[q % N] == full[q] && (N <= q && q % N < F - 1 ==> text[q % N + N] == full[q])
  }

  /** Reading on from the slot of byte a shows the bytes after it. */
  lemma {:induction false} WindowRead(text: seq<byte>, full: seq<byte>, e: nat, a: nat, i: nat)
    requires Window(text, full, e) && i < F && a + i < e && e - N <= a + i
    ensures a % N + i < TEXT && text[a % N + i] == full[a + i]
  {
    assert Shown(text, full, a + i);
    if a % N + i < N {
      assert (a + i) % N == a % N + i;
    } else {
      assert (a + i) % N == a % N + i - N;
    }
  }

  lemma {:induction false} WindowWrite(text: seq<byte>, full: seq<byte>, e: nat)
    requires Window(text, full, e) && N <= e < |full|
    ensures Window(Written(text, e % N, full[e]), full, e + 1)
  {
    var t := Written(text, e % N, full[e]);
    forall q | 0 <= q < e + 1 && e + 1 - N <= q ensures Shown(t, full, q) {
      if q < e {
        assert Shown(text, full, q);
        assert q % N != e % N;
      }
    }
  }

  function Min(x: nat, y: nat): nat { if x < y then x else y }

  /** A match on offer at a: the next bytes, as far as they are known, repeat earlier ones. */
  ghost predicate Offer(full: seq<byte>, a: nat, e: nat, ml: nat, mp: nat) {
    ml <= F && (ml > 0 ==> THRESHOLD < ml && mp < BLANKS && Repeats(full, a, Min(a + ml, e), mp + 1))
  }

  lemma {:induction false} MatchRepeats(text: seq<byte>, full: seq<byte>, a: nat, e: nat, p: nat, ml: nat, mp: nat,
                                        q: nat)
    requires Window(text, full, e) && BLANKS <= a <= e <= a + F
    requires MatchAt(Keys(text), a % N, p, ml, mp) && mp + 1 <= BLANKS
    requires a <= q < a + ml && q < e
    ensures mp + 1 <= a && e <= |full| && full[q] == full[q - (mp + 1)]
  {
    hide Window, Lcp;
    WindowSize(text, full, e);
    var ks, d := Keys(text), mp + 1;
    assert (a - d) % N == p by { DistBack(a, p); }
    WindowRead(text, full, e, a, q - a);
    WindowRead(text, full, e, a - d, q - a);
    KeysAt(text, a % N);
    KeysAt(text, p);
    assert ks[a % N][q - a] == ks[p][q - a];
  }

  lemma {:induction false} DistBack(a: nat, p: nat)
    requires p < N && Dist(a % N, p) <= a
    ensures (a - Dist(a % N, p)) % N == p
  {
    var r := a % N;
    assert Dist(r, p) == if p <= r then r - p else r + N - p;
    assert a == N * (a / N) + r;
  }

  lemma {:induction false} ReportedOffers(text: seq<byte>, full: seq<byte>, a: nat, e: nat, live: set<nat>, ml: nat,
                                          mp: nat)
    requires Window(text, full, e) && BLANKS <= a <= e <= a + F && ml <= F && |text| == TEXT
    requires Reported(Keys(text), live, a % N, ml, mp)
    requires Near(live, a)
    ensures Offer(full, a, e, ml, mp)
  {
    hide Window, MatchAt, Keys;
    WindowSize(text, full, e);
    if ml > 0 {
      var p :| p in live && MatchAt(Keys(text), a % N, p, ml, mp);
      MatchDist(Keys(text), a % N, p, ml, mp);
      forall q | a <= q < Min(a + ml, e) ensures full[q] == full[q - (mp + 1)] {
        MatchRepeats(text, full, a, e, p, ml, mp, q);
      }
    }
  }

  lemma {:induction false} MatchDist(ks: seq<Key>, r: nat, p: nat, ml: nat, mp: nat)
    requires |ks| == N && r < N && MatchAt(ks, r, p, ml, mp)
    ensures p < N && mp + 1 == Dist(r, p)
  {
  }

  lemma {:induction false} WindowSize(text: seq<byte>, full: seq<byte>, e: nat)
    requires Window(text, full, e)
    ensures |text| == TEXT && e <= |full|
  {
  }

  /** The live strings all start within BLANKS bytes before a. */
  ghost predicate Near(live: set<nat>, a: nat) {
    forall p :: p in live ==> p < N && Dist(a % N, p) <= BLANKS
  }

  /** No live string covers slot s. */
  ghost predicate Clear(live: set<nat>, s: nat) requires s < N {
    forall p :: p in live ==> p < N && Dist(s, p) >= F
  }

  /** Removing the oldest position and moving on one byte keeps the strings near, and none of
      them reaches the slot that is free now. */
  lemma {:induction false} NearMoves(live: set<nat>, a: nat)
    requires Near(live, a)
    ensures Near(live - {(a + F) % N}, a + 1) && (a + 1) % N !in live - {(a + F) % N}
    ensures Clear(live - {(a + F) % N}, (a + F) % N)
  {
    forall p | p in live && p != (a + F) % N
      ensures p < N && Dist((a + F) % N, p) >= F && Dist((a + 1) % N, p) <= BLANKS && p != (a + 1) % N
    {
      NearMovesAt(a, p);
    }
  }

  lemma {:induction false} Slot(a: nat, k: nat)
    requires k < N
    ensures (a + k) % N == if a % N + k < N then a % N + k else a % N + k - N
  {
  }

  lemma {:induction false} Back(r: nat, p: nat)
    requires r < N && p < N
    ensures Dist(r, p) == if p <= r then r - p else r + N - p
  {
  }

  lemma {:induction false} NearMovesAt(a: nat, p: nat)
    requires p < N && Dist(a % N, p) <= BLANKS && p != (a + F) % N
    ensures Dist((a + F) % N, p) >= F && Dist((a + 1) % N, p) <= BLANKS && p != (a + 1) % N
  {
    hide Dist;
    var r := a % N;
    Slot(a, F);
    Slot(a, 1);
    Back(r, p);
    Back((a + F) % N, p);
    Back((a + 1) % N, p);
  }

  // ------------------------------------------------------------------ the longest

  /** The string at q stays in the trees, itself or one equal to it, until this place is left.  Of
      the strings that start in the blanks before the text the one furthest back stands for all. */
  function Due(q: nat): nat { if q < BLANKS then BLANKS - F else q }

  predicate InReach(a: nat, q: nat) { a - q <= BLANKS && a - Due(q) <= BLANKS }

  /** p is in the trees for the string at q, and leaves them no sooner. */
  ghost predicate Standin(live: set<nat>, ks: seq<Key>, a: nat, q: nat, p: nat)
    requires |ks| == N
  {
    p in live && p < N && Dist(a % N, p) <= a - Due(q) && ks[p] == ks[q % N]
  }

  ghost predicate StoodFor(live: set<nat>, ks: seq<Key>, a: nat, q: nat)
    requires |ks| == N
  {
    exists p: nat :: Standin(live, ks, a, q, p)
  }

  /** All strings before `to` within reach are in the trees, or equal ones are. */
  ghost predicate Covered(live: set<nat>, ks: seq<Key>, a: nat, to: nat) {
    |ks| == N && forall q: nat :: q < to && InReach(a, q) ==> StoodFor(live, ks, a, q)
  }

  lemma {:induction false} DistOf(a: nat, q: nat)
    requires q <= a && a - q < N
    ensures Dist(a % N, q % N) == a - q
  {
    Back(a % N, q % N);
    assert a == N * (a / N) + a % N && q == N * (q / N) + q % N;
  }

  lemma {:induction false} NearSlots(live: set<nat>, a: nat)
    requires Near(live, a)
    ensures forall y :: y in live ==> y < N
  {
  }

  /** Moving on drops the oldest slot, and changes no string that is left. */
  lemma {:induction false} CoverMoves(live: set<nat>, ks: seq<Key>, ks2: seq<Key>, a: nat)
    requires Covered(live, ks, a, a + 1) && |ks2| == N
    requires forall x :: 0 <= x < N && Dist((a + F) % N, x) >= F ==> ks2[x] == ks[x]
    ensures Covered(live - {(a + F) % N}, ks2, a + 1, a + 1)
  {
    hide Dist;
    var b := a + 1;
    forall q: nat | q < b && InReach(b, q) ensures StoodFor(live - {(a + F) % N}, ks2, b, q) {
      assert InReach(a, q);
      assert StoodFor(live, ks, a, q);
      var p: nat :| Standin(live, ks, a, q, p);
      DistOf(a, q);
      DistOn(a, p);
      DistOn(a, q % N);
      assert Standin(live - {(a + F) % N}, ks2, a + 1, q, p);
    }
  }

  lemma {:induction false} DistOn(a: nat, p: nat)
    requires p < N && Dist(a % N, p) < BLANKS
    ensures Dist((a + F) % N, p) >= F && p != (a + F) % N && Dist((a + 1) % N, p) == Dist(a % N, p) + 1
  {
    hide Dist;
    var r := a % N;
    Slot(a, F);
    Slot(a, 1);
    Back(r, p);
    Back((a + F) % N, p);
    Back((a + 1) % N, p);
  }

  /** The string at a is entered; it stands for the ones it replaces. */
  lemma {:induction false} CoverEnter(live: set<nat>, live': set<nat>, ks: seq<Key>, a: nat)
    requires Covered(live, ks, a, a) && a >= BLANKS && forall y :: y in live ==> y < N
    requires forall y :: y in live' <==> y == a % N || (y in live && ks[y] != ks[a % N])
    ensures Covered(live', ks, a, a + 1)
  {
    hide Dist;
    DistOf(a, a);
    forall q: nat | q <= a && InReach(a, q) ensures StoodFor(live', ks, a, q) {
      if q == a {
        assert Standin(live', ks, a, q, a % N);
      } else {
        assert StoodFor(live, ks, a, q);
        var p: nat :| Standin(live, ks, a, q, p);
        if ks[p] == ks[a % N] {
          assert Standin(live', ks, a, q, a % N);
        } else {
          assert Standin(live', ks, a, q, p);
        }
      }
    }
  }

  /** The n bytes at a, as far as e, do not repeat those d back. */
  ghost predicate NoRepeat(full: seq<byte>, a: nat, e: nat, d: int, n: nat) {
    d >= 0 && n <= F && a + n <= e ==> !Repeats(full, a, a + n, d)
  }

  /** No string within reach repeats in more bytes than ml, or than THRESHOLD. */
  ghost predicate NoneBefore(full: seq<byte>, a: nat, e: nat, ml: nat) {
    forall q: nat :: q < a && InReach(a, q) ==> NoRepeat(full, a, e, a - q, Cap(ml) + 1)
  }

  lemma {:induction false} TopOffer(text: seq<byte>, full: seq<byte>, a: nat, e: nat, live: set<nat>, ml: nat)
    requires Window(text, full, e) && BLANKS <= a <= e <= a + F && |text| == TEXT
    requires Covered(live, Keys(text), a, a) && forall y :: y in live ==> y < N
    requires forall y :: y in live ==> Lcp(Keys(text)[y], Keys(text)[a % N]) <= Cap(ml)
    ensures NoneBefore(full, a, e, ml)
  {
    hide Window, Keys, Dist, Lcp;
    var ks, n := Keys(text), Cap(ml) + 1;
    forall q: nat | q < a && InReach(a, q) ensures NoRepeat(full, a, e, a - q, n) {
      assert StoodFor(live, ks, a, q);
      var p: nat :| Standin(live, ks, a, q, p);
      if n <= F && a + n <= e && Repeats(full, a, a + n, a - q) {
        RepeatAgrees(text, full, a, e, q, n);
        LcpAtLeast(ks[q % N], ks[a % N], n);
        assert Lcp(ks[p], ks[a % N]) <= Cap(ml);
      }
    }
  }

  lemma {:induction false} LcpAtLeast(x: Key, y: Key, n: nat)
    requires n <= F && Agree(x, y, n)
    ensures Lcp(x, y) >= n
  {
    hide LcpFrom;
  }

  lemma {:induction false} RepeatAgrees(text: seq<byte>, full: seq<byte>, a: nat, e: nat, q: nat, n: nat)
    requires Window(text, full, e) && BLANKS <= a <= e <= a + F && |text| == TEXT
    requires q < a && a - q <= BLANKS && n <= F && a + n <= e && Repeats(full, a, a + n, a - q)
    ensures Agree(Keys(text)[q % N], Keys(text)[a % N], n)
  {
    hide Window;
    WindowSize(text, full, e);
    KeysAt(text, a % N);
    KeysAt(text, q % N);
    var x, y := Keys(text)[q % N], Keys(text)[a % N];
    forall i | 0 <= i < n ensures x[i] == y[i] {
      WindowRead(text, full, e, a, i);
      WindowRead(text, full, e, q, i);
      assert full[a + i] == full[a + i - (a - q)];
    }
  }

  /** Only the strings that the slot s is in change with it. */
  lemma {:induction false} WrittenKeys(text: seq<byte>, s: nat, c: byte)
    requires |text| == TEXT && s < N
    ensures forall x :: 0 <= x < N && Dist(s, x) >= F ==> Keys(Written(text, s, c))[x] == Keys(text)[x]
  {
    hide Keys, Dist;
    var t := Written(text, s, c);
    forall x | 0 <= x < N && Dist(s, x) >= F ensures Keys(t)[x] == Keys(text)[x] {
      KeyApart(text, t, s, x);
      KeysAt(t, x);
      KeysAt(text, x);
    }
  }

  /** Cut to what is left of the input, the match is still the longest. */
  lemma {:induction false} NoneCut(full: seq<byte>, a: nat, len: nat, ml: nat)
    requires NoneBefore(full, a, a + len, ml) && ml <= F && 0 < len <= F && (len == F || a + len == |full|)
    ensures var cut := if ml > len then len else ml;
            NoneBefore(full, a, |full|, if cut <= THRESHOLD then 1 else cut)
  {
    hide Repeats;
    var cut := if ml > len then len else ml;
    var sz := if cut <= THRESHOLD then 1 else cut;
    forall q: nat | q < a && InReach(a, q) ensures NoRepeat(full, a, |full|, a - q, Cap(sz) + 1) {
      assert NoRepeat(full, a, a + len, a - q, Cap(ml) + 1);
    }
  }
}
