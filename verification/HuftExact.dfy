/** For any set of lengths, complete or not: exactly when a look-up in the tables of huft_build in
    archive/gzip/inflate.c finds the code a stream starts with. */
module HuftExact {
  import opened BitString
  import opened GzipBits
  import opened Canonical
  import opened Ladder
  import opened HuftTables
  import opened HuftWalk
  import opened HuftSound
  import opened HuftMake
  import opened Hufts

  /** Of the j bits looked at, those after the first l are zeros. */
  ghost predicate ClearAfter(s: seq<bool>, l: nat, j: nat) {
    forall y :: l <= y < j && y < |s| ==> !s[y]
  }

  /** Table u lies on the way of a code that goes on from it, at or below table t. */
  ghost predicate OnWay(g: Made, l: nat, code: seq<bool>, t: nat, u: nat)
    requires t < |g.pre|
  {
    1 <= u < |g.pre| && g.pre[t] <= g.pre[u] <= code && |code| > |g.pre[u]| + l
  }

  /** Wherever a table on the way has more than l bits, the bits it is looked at with after the
      first l are zeros; s is the stream from table t on. */
  ghost predicate ClearFrom(g: Made, l: nat, code: seq<bool>, t: nat, s: seq<bool>)
    requires t < |g.pre| == |g.jb|
  {
    forall u: nat :: OnWay(g, l, code, t, u) ==> ClearAt(g, l, t, u, s)
  }

  ghost predicate ClearAt(g: Made, l: nat, t: nat, u: nat, s: seq<bool>)
    requires t < |g.pre| == |g.jb| && u < |g.pre|
  {
    |g.pre[t]| <= |g.pre[u]| <= |g.pre[t]| + |s| && ClearAfter(s[|g.pre[u]| - |g.pre[t]|..], l, g.jb[u])
  }

  /** Zeros after the first l bits do not change the number. */
  lemma {:induction false} RevClear(s: seq<bool>, l: nat)
    requires l <= |s| && ClearAfter(s, l, |s|)
    ensures Rev(s) == Rev(s[..l])
  {
    if l > 0 {
      assert ClearAfter(s[1..], l - 1, |s| - 1) by {
        forall y | l - 1 <= y < |s| - 1 ensures !s[1..][y] { assert s[1..][y] == s[y + 1]; }
      }
      RevClear(s[1..], l - 1);
      assert s[..l][1..] == s[1..][..l - 1];
    } else {
      forall i | 0 <= i < |s| ensures !s[i] {}
      RevZero(s);
    }
  }

  /** A one after the first l bits makes the index 2^l or more. */
  lemma {:induction false} RevNotClear(s: seq<bool>, l: nat)
    requires !ClearAfter(s, l, |s|)
    ensures Rev(s) >= Pow2(l)
  {
    var y :| l <= y < |s| && s[y];
    BigIndex(s[..y + 1], y);
    Pow2Monotone(l, y);
    RevPrefix(s, y + 1);
  }

  lemma {:induction false} RevPrefix(s: seq<bool>, n: nat)
    requires n <= |s|
    ensures Rev(s) >= Rev(s[..n])
  {
    if n > 0 {
      RevPrefix(s[1..], n - 1);
      assert s[..n][1..] == s[1..][..n - 1];
    }
  }

  /** A table that is too big misses a code that goes on from it, if the bits are not clear. */
  lemma {:induction false} MissNotClear(g: Made, l: nat, cs: seq<seq<bool>>, ops: seq<(nat, nat)>, max: nat, q: nat,
                                        t: nat, s: seq<bool>)
    requires Finished(g, l, cs, ops, max) && 1 <= t < |g.tabs| == |g.pre| == |g.jb| && q < |cs|
    requires g.pre[t] <= cs[q] && |cs[q]| > |g.pre[t]| + l && g.jb[t] > l && cs[q][|g.pre[t]|..] <= s
    requires g.jb[t] <= |s| && !ClearAfter(s, l, g.jb[t])
    ensures Walk(g.tabs, t, g.jb[t], s) == Miss
  {
    hide Entries, AllRooted, AllSizes, Shape, Lsb, Rev, Pow2, OnePrefix, EntryOk, Path;
    var w, j := |g.pre[t]|, g.jb[t];
    EntryAt(g, t, j, s, l, cs, |cs|);
    var x := Rev(s[..j]);
    var path := Path(g, t, x);
    assert path[..w + l] == cs[q][..w + l] by {
      assert path == g.pre[t] + s[..j];
      assert path[..w + l] == g.pre[t] + s[..l] && s[..l] == cs[q][w..][..l];
      assert cs[q][..w + l] == cs[q][..w] + cs[q][w..][..l];
    }
    EntryFact(g, l, cs, ops, t, x);
    assert !ClearAfter(s[..j], l, |s[..j]|) by {
      var y :| l <= y < j && y < |s| && s[y];
      assert s[..j][y];
    }
    RevNotClear(s[..j], l);
    forall p: nat | p < |cs| ensures !EndsAtEntry(g, l, cs, p, t, x) {
      if EndsAtEntry(g, l, cs, p, t, x) {
        Shorter(path, path, |path|, w + l);
        assert cs[p] == path[..w + l][..|cs[p]|] == cs[q][..w + l][..|cs[p]|];
        LadderApart(cs, p, q);
      }
    }
  }

  /** From any table on its way: code q is found if all is clear, and missed if not. */
  lemma {:induction false} WalkExact(g: Made, l: nat, cs: seq<seq<bool>>, ops: seq<(nat, nat)>, max: nat, q: nat,
                                     t: nat, s: seq<bool>)
    requires Finished(g, l, cs, ops, max) && t < |g.tabs| == |g.pre| == |g.jb| && q < |cs| && q < |ops|
    requires g.pre[t] <= cs[q] && |g.pre[t]| < |cs[q]|
    requires cs[q][|g.pre[t]|..] <= s && |g.pre[t]| + |s| >= max + 1
    ensures Walk(g.tabs, t, Looked(g, l, t), s) ==
            if ClearFrom(g, l, cs[q], t, s) then Found(ops[q].0, ops[q].1, |cs[q]| - |g.pre[t]|) else Miss
    decreases |cs[q]| - |g.pre[t]|
  {
    hide Entries, AllRooted, Rooted, IsLadder, AllSizes, Shape, Lsb, Rev, Pow2, OnePrefix, EntryOk, Path, HasTable,
         ClearFrom, ClearAfter, Walk;
    var w := |g.pre[t]|;
    if |cs[q]| <= w + l {
      FindsHere(g, l, cs, ops, max, q, t, s);
      NothingBelow(g, l, cs[q], t, s);
    } else {
      SizeAt(g, l, cs, ops, max, t, q);
      if t >= 1 && g.jb[t] != l && !ClearAfter(s, l, g.jb[t]) {
        MissNotClear(g, l, cs, ops, max, q, t, s);
        NotClearHere(g, l, cs[q], t, s);
      } else {
        GoOnClear(g, l, cs, ops, max, q, t, s);
      }
    }
  }

  lemma {:induction false} NothingBelow(g: Made, l: nat, code: seq<bool>, t: nat, s: seq<bool>)
    requires t < |g.pre| == |g.jb| && |code| <= |g.pre[t]| + l
    ensures ClearFrom(g, l, code, t, s)
  {
  }

  lemma {:induction false} NotClearHere(g: Made, l: nat, code: seq<bool>, t: nat, s: seq<bool>)
    requires 1 <= t < |g.pre| == |g.jb| && g.pre[t] <= code && |code| > |g.pre[t]| + l && !ClearAfter(s, l, g.jb[t])
    ensures !ClearFrom(g, l, code, t, s)
  {
    assert OnWay(g, l, code, t, t);
    assert s[0..] == s;
  }

  /** Where table t is right for the stream, everything hangs on the tables below. */
  lemma {:induction false} GoOnClear(g: Made, l: nat, cs: seq<seq<bool>>, ops: seq<(nat, nat)>, max: nat, q: nat,
                                     t: nat, s: seq<bool>)
    requires Finished(g, l, cs, ops, max) && t < |g.tabs| == |g.pre| == |g.jb| && q < |cs| && q < |ops|
    requires g.pre[t] <= cs[q] && |g.pre[t]| + l < |cs[q]|
    requires cs[q][|g.pre[t]|..] <= s && |g.pre[t]| + |s| >= max + 1
    requires t >= 1 && g.jb[t] != l ==> ClearAfter(s, l, g.jb[t])
    ensures Walk(g.tabs, t, Looked(g, l, t), s) ==
            if ClearFrom(g, l, cs[q], t, s) then Found(ops[q].0, ops[q].1, |cs[q]| - |g.pre[t]|) else Miss
    decreases |cs[q]| - |g.pre[t]|, 0
  {
    hide Entries, AllRooted, Rooted, IsLadder, AllSizes, Shape, Lsb, Rev, Pow2, OnePrefix, EntryOk, Path, HasTable,
         ClearFrom, ClearAfter;
    var w, j := |g.pre[t]|, Looked(g, l, t);
    SizeAt(g, l, cs, ops, max, t, q);
    var u := GoesOn(g, l, cs, ops, max, q, t, s);
    SameIndex(s, l, j);
    assert cs[q][w + l..] == cs[q][w..][l..];
    assert cs[q][w + l..] <= s[l..];
    WalkExact(g, l, cs, ops, max, q, u, s[l..]);
    NoneLookedAt(s, l);
    ClearStep(g, l, cs, ops, max, q, t, u, s);
  }

  lemma {:induction false} NoneLookedAt(s: seq<bool>, l: nat)
    ensures ClearAfter(s, l, l)
  {
  }

  lemma {:induction false} SameIndex(s: seq<bool>, l: nat, j: nat)
    requires l <= j <= |s| && (j != l ==> ClearAfter(s, l, j))
    ensures Rev(s[..j]) == Rev(s[..l])
  {
    hide Rev;
    assert s[..j][..l] == s[..l];
    if j != l {
      forall y | l <= y < j ensures !s[..j][y] { assert s[..j][y] == s[y]; }
      RevClear(s[..j], l);
    }
  }

  /** The tables below t are those below the next table u. */
  lemma {:induction false} ClearStep(g: Made, l: nat, cs: seq<seq<bool>>, ops: seq<(nat, nat)>, max: nat, q: nat,
                                     t: nat, u: nat, s: seq<bool>)
    requires Finished(g, l, cs, ops, max) && t < |g.tabs| == |g.pre| == |g.jb| && u < |g.pre| && q < |cs|
    requires g.pre[t] <= cs[q] && |g.pre[t]| + l < |cs[q]| && g.pre[u] == cs[q][..|g.pre[t]| + l] && l >= 1 && l <= |s|
    requires t >= 1 ==> ClearAfter(s, l, g.jb[t])
    ensures ClearFrom(g, l, cs[q], t, s) <==> ClearFrom(g, l, cs[q], u, s[l..])
  {
    hide Finished, ClearAfter, ClearAt;
    var code := cs[q];
    assert g.pre[t] <= g.pre[u];
    if ClearFrom(g, l, code, t, s) {
      forall v: nat | OnWay(g, l, code, u, v) ensures ClearAt(g, l, u, v, s[l..]) {
        assert OnWay(g, l, code, t, v);
        ClearBelow(g, l, t, u, v, s);
      }
    }
    if ClearFrom(g, l, code, u, s[l..]) {
      forall v: nat | OnWay(g, l, code, t, v) ensures ClearAt(g, l, t, v, s) {
        NextOnWay(g, l, cs, ops, max, code, t, v);
        if |g.pre[v]| == |g.pre[t]| {
          SamePlace(g, l, cs, ops, max, t, v);
          ClearItself(g, l, t, s);
        } else {
          assert OnWay(g, l, code, u, v);
          ClearBelow(g, l, t, u, v, s);
        }
      }
    }
  }

  lemma {:induction false} ClearBelow(g: Made, l: nat, t: nat, u: nat, v: nat, s: seq<bool>)
    requires t < |g.pre| == |g.jb| && u < |g.pre| && v < |g.pre| && |g.pre[u]| == |g.pre[t]| + l
    requires |g.pre[v]| >= |g.pre[u]| && l <= |s|
    ensures ClearAt(g, l, t, v, s) <==> ClearAt(g, l, u, v, s[l..])
  {
    hide ClearAfter;
    if |g.pre[v]| <= |g.pre[t]| + |s| { assert s[l..][|g.pre[v]| - |g.pre[u]|..] == s[|g.pre[v]| - |g.pre[t]|..]; }
  }

  lemma {:induction false} ClearItself(g: Made, l: nat, t: nat, s: seq<bool>)
    requires t < |g.pre| == |g.jb| && ClearAfter(s, l, g.jb[t])
    ensures ClearAt(g, l, t, t, s)
  {
    assert s[0..] == s;
  }

  lemma {:induction false} NextOnWay(g: Made, l: nat, cs: seq<seq<bool>>, ops: seq<(nat, nat)>, max: nat,
                                     code: seq<bool>, t: nat, v: nat)
    requires Finished(g, l, cs, ops, max) && t < |g.tabs| == |g.pre| == |g.jb| && OnWay(g, l, code, t, v)
    ensures |g.pre[v]| == |g.pre[t]| || |g.pre[v]| >= |g.pre[t]| + l
  {
    hide Entries, AllRooted, IsLadder, AllSizes, OnePrefix;
    ShapeSize(g, l, cs, |cs|);
    ShapeAt(g, l, cs, |cs|, t);
    ShapeAt(g, l, cs, |cs|, v);
    if |g.pre[t]| < |g.pre[v]| { NextMultiple(|g.pre[t]|, |g.pre[v]|, l); }
  }

  /** No two tables come after the same bits. */
  lemma {:induction false} SamePlace(g: Made, l: nat, cs: seq<seq<bool>>, ops: seq<(nat, nat)>, max: nat, t: nat,
                                     v: nat)
    requires Finished(g, l, cs, ops, max) && t < |g.pre| && v < |g.pre| && g.pre[t] <= g.pre[v]
    requires |g.pre[t]| == |g.pre[v]|
    ensures t == v
  {
    hide Entries, AllRooted, IsLadder, AllSizes, Shape;
    assert g.pre[t] == g.pre[v];
  }

  /** Whatever the set of lengths: the code a stream starts with is found, with the bits it has,
      exactly if no table on its way with more than l bits is looked at with a one after the
      first l; otherwise nothing is found. */
  lemma {:induction false} FindsIffClear(b: seq<nat>, s: nat, d: seq<nat>, e: seq<nat>, l: nat, g: Made, i: nat,
                                         t: seq<bool>)
    requires Tabled(b, s, d, e, l, g) && i < |b| && b[i] > 0 && Code(b, i) <= t && |t| >= MaxLen(b) + 1
    ensures g.pre != [] && |g.pre| == |g.jb|
    ensures Finds(b, s, d, e, l, g, i, t) <==> ClearFrom(g, l, Code(b, i), 0, t)
    ensures !ClearFrom(g, l, Code(b, i), 0, t) ==> Walk(g.tabs, 0, l, t) == Miss
  {
    hide Spare, Code, AllCodes, Finished, Walk, MaxLen, SymsTo, Filled, Entered, ClearFrom;
    var cs, ops := AllCodes(b), EveryOp(b, s, d, e);
    CodeAtSlot(b, i);
    EnteredAt(b, s, d, e, i);
    FinishedParts(g, l, cs, ops, MaxLen(b));
    var q := Slot(b, i);
    assert cs[q][|g.pre[0]|..] == cs[q];
    assert ops[..|Order(b)|] == Ops(Order(b), s, d, e);
    assert ops[q] == ops[..|Order(b)|][q];
    WalkExact(g, l, cs, ops, MaxLen(b), q, 0, t);
  }
}
