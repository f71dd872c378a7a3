/** The match finder of archive/lharc/lzhuf.c: the arrays text_buf, lson, rson, dad and same
    and the operations that keep them. */
module LzhufMatch {
  import opened BitString
  import opened LzhufKeys
  import LF = LzhufForest
  import opened LzhufForest
  import opened LzhufSearch
  import opened LzhufSplice

  const TEXT: nat := N + F - 1

  function KeyAt(text: seq<byte>, p: nat): Key
    requires |text| == TEXT && p < N
  {
    text[p..p + F]
  }

  function Keys(text: seq<byte>): (ks: seq<Key>)
    requires |text| == TEXT
    ensures |ks| == N && forall x :: 0 <= x < N ==> ks[x] == KeyAt(text, x)
  {
    seq(N, x requires 0 <= x < N => KeyAt(text, x))
  }

  function Vals(ks: seq<Key>): (v: seq<int>)
    ensures |v| == |ks| && forall x :: 0 <= x < |ks| ==> v[x] == KeyVal(ks[x])
  {
    seq(|ks|, x requires 0 <= x < |ks| => KeyVal(ks[x]))
  }

  function Heads(ks: seq<Key>): (v: seq<nat>)
    ensures |v| == |ks| && forall x :: 0 <= x < |ks| ==> v[x] == Head(ks[x])
  {
    seq(|ks|, x requires 0 <= x < |ks| => Head(ks[x]))
  }

  /** The text after byte c is put at s and, near the start, at s + N. */
  function Written(t: seq<byte>, s: nat, c: byte): (r: seq<byte>)
    requires |t| == TEXT && s < N
    ensures |r| == TEXT
  {
    var u: seq<byte> := t[s := c];
    if s < F - 1 then u[s + N := c] else u
  }

  /** The distance from r back to p around the window. */
  function Dist(r: nat, p: nat): nat
    requires r < N && p < N
  {
    (r + N - p) % N
  }

  /** match_length and match_position report a live string that agrees with r that far. */
  ghost predicate Reported(ks: seq<Key>, live: set<nat>, r: nat, ml: nat, mp: nat)
    requires |ks| == N && r < N
  {
    ml > 0 ==> THRESHOLD < ml && exists p :: p in live && MatchAt(ks, r, p, ml, mp)
  }

  ghost predicate MatchAt(ks: seq<Key>, r: nat, p: nat, ml: nat, mp: nat)
    requires |ks| == N && r < N
  {
    p < N && p != r && Lcp(ks[r], ks[p]) == ml && mp + 1 == Dist(r, p)
  }

  /** The nodes a search for r sees one after the other: down from the root of its tree, on the side
      where its string belongs. */
  ghost predicate Seeing(g: Forest, r: nat, seen: seq<nat>)
    requires Sized(g) && r < N
  {
    seen == [] || (var n := |seen| - 1;
                   seen[n] in g.live && Seeing(g, r, seen[..n]) && NextSeen(g, r, seen[..n], seen[n]))
  }

  /** After these comes q. */
  ghost predicate NextSeen(g: Forest, r: nat, seen: seq<nat>, q: nat)
    requires Sized(g) && r < N
  {
    if seen == [] then q == g.rs[g.head[r]]
    else
      var p := seen[|seen| - 1];
      p < N && q == if g.val[p] < g.val[r] then g.rs[p] else g.ls[p]
  }

  /** The whole search: it ends at an empty slot, or at a node with the same string. */
  ghost predicate Descent(g: Forest, ks: seq<Key>, r: nat, seen: seq<nat>) {
    && Keyed(g, ks) && r < N && Seeing(g, r, seen)
    && (NextSeen(g, r, seen, NIL) || (seen != [] && seen[|seen| - 1] in g.live && ks[seen[|seen| - 1]] == ks[r]))
  }

  /** Of the nodes seen, a nearest one with the most bytes is the match. */
  ghost predicate NearestSeen(ks: seq<Key>, seen: seq<nat>, r: nat, ml: nat, mp: nat)
    requires |ks| == N && r < N
  {
    && (forall i :: 0 <= i < |seen| ==> seen[i] < N && Lcp(ks[r], ks[seen[i]]) <= Cap(ml))
    && (ml > 0 ==>
          && THRESHOLD < ml && (exists i :: 0 <= i < |seen| && MatchAt(ks, r, seen[i], ml, mp))
          && forall i :: 0 <= i < |seen| && Lcp(ks[r], ks[seen[i]]) == ml ==> mp < Dist(r, seen[i]))
  }

  class Matcher {
    const text_buf: array<byte>
    const lson: array<nat>
    const rson: array<nat>
    const dad: array<nat>
    const same: array<nat>
    var match_position: nat
    var match_length: nat
    ghost var live: set<nat>
    ghost var lo: seq<int>
    ghost var hi: seq<int>

    ghost predicate Shaped()
      reads this
    {
      && text_buf.Length == TEXT
      && lson.Length == N + 1 && dad.Length == N + 1 && same.Length == N + 1 && rson.Length == 2 * N + 1
      && lson != rson && lson != dad && lson != same && rson != dad && rson != same && dad != same
    }

    ghost function Strings(): (ks: seq<Key>)
      requires Shaped()
      reads this, text_buf
      ensures |ks| == N
    {
      Keys(text_buf[..])
    }

    /** The forest the arrays hold. */
    ghost function G(): Forest
      requires Shaped()
      reads this, text_buf, lson, rson, dad
    {
      Forest(lson[..], rson[..], dad[..], live, lo, hi, Vals(Strings()), Heads(Strings()))
    }

    ghost predicate Valid()
      reads this, text_buf, lson, rson, dad, same
    {
      Shaped() && LF.Valid(G()) && Keyed(G(), Strings()) && SameOk(G(), Strings(), same[..])
    }

    constructor ()
      ensures Shaped() && fresh(text_buf) && fresh(lson) && fresh(rson) && fresh(dad) && fresh(same)
    {
      text_buf := new byte[TEXT];
      lson := new nat[N + 1];
      rson := new nat[2 * N + 1];
      dad := new nat[N + 1];
      same := new nat[N + 1];
      match_position, match_length := 0, 0;
      live, lo, hi := {}, [], [];
    }

    /** Compare key r with position q from index i on. */
    method Compare(r: nat, q: nat, i: nat) returns (k: nat, cmp: int)
      requires Shaped() && r < N && q < N && 1 <= i < F && Agree(Strings()[r], Strings()[q], i)
      ensures k == Lcp(Strings()[r], Strings()[q]) >= i
      ensures k < F ==> cmp == Strings()[r][k] as int - Strings()[q][k] as int && cmp != 0
    {
      ghost var ks := Strings();
      k, cmp := i, 0;
      while k < F
        invariant i <= k <= F && Agree(ks[r], ks[q], k) && cmp == 0
      {
        assert ks[r][k] == text_buf[r + k] && ks[q][k] == text_buf[q + k];
        cmp := text_buf[r + k] as int - text_buf[q + k] as int;
        if cmp != 0 { break; }
        k := k + 1;
      }
      LcpIs(ks[r], ks[q], k);
    }

    /** How far r agrees with q, and on which side of it r belongs: cached lengths first. */
    method Agreement(r: nat, p: nat, right: bool, q: nat, i: nat, j: nat, cmp: int, ghost ml: nat)
      returns (i': nat, cmp': int)
      requires Valid() && Searching(G(), Strings(), r, p, right, i, ml)
      requires q == Kid(G(), p, right) != NIL && q < N && j == same[q]
      requires right <==> cmp >= 0
      ensures q in live && G().da[q] == p
      ensures i' == Lcp(Strings()[r], Strings()[q]) && 1 <= i' <= F
      ensures i' < F ==> (cmp' >= 0 <==> G().val[q] < G().val[r])
    {
      hide LF.Valid, Lcp, Head, KeyVal, Bound, Excluded, SlotOk, Searching, Keys, Vals, Heads, Kid, IsSlot, Agreed,
           SameOk;
      ghost var ks := Strings();
      ghost var g := G();
      KidFacts(g, ks, same[..], r, p, right, i, ml, q);
      i', cmp' := i, cmp;
      if i > j {
        i' := j;
        assert ks[r][i'] == text_buf[r + i'] && ks[q][i'] == text_buf[q + i'];
        cmp' := text_buf[r + i'] as int - text_buf[q + i'] as int;
        SideOf(g, ks, r, q, i');
      } else if i == j {
        AgreeTo(ks[r], ks[q], i);
        i', cmp' := Compare(r, q, i);
        if i' < F { SideOf(g, ks, r, q, i'); }
      } else {
        SideOf(g, ks, r, q, i);
        SideKept(g, ks, r, p, right, i, ml);
      }
    }

    /** Remember a match of length i at node p if it is longer, or as long and nearer. */
    method Note(r: nat, p: nat, i: nat, ghost seen: seq<nat>)
      requires Shaped() && r < N && p < N && p != r && i == Lcp(Strings()[r], Strings()[p])
      requires NearestSeen(Strings(), seen, r, match_length, match_position)
      modifies this`match_length, this`match_position
      ensures NearestSeen(Strings(), seen + [p], r, match_length, match_position)
      ensures match_length == if i > THRESHOLD && i > old(match_length) then i else old(match_length)
    {
      hide Lcp;
      ghost var after := seen + [p];
      assert after[|seen|] == p;
      if i > THRESHOLD {
        if i > match_length {
          match_position := Dist(r, p) - 1;
          match_length := i;
          assert MatchAt(Strings(), r, after[|seen|], match_length, match_position);
        } else if i == match_length {
          var c := Dist(r, p) - 1;
          if c < match_position {
            match_position := c;
            assert MatchAt(Strings(), r, after[|seen|], match_length, match_position);
          } else {
            StillMatch(Strings(), seen, p, r, match_length, match_position);
          }
        } else {
          StillMatch(Strings(), seen, p, r, match_length, match_position);
        }
      } else {
        StillMatch(Strings(), seen, p, r, match_length, match_position);
      }
    }

    /** Make r a son of the empty slot where its search ended. */
    method AttachNode(r: nat, p: nat, right: bool, i: nat)
      requires Valid() && CanAttach(G(), p, right, r) && i == Agreed(Strings(), p, r)
      requires lson[r] == NIL && rson[r] == NIL
      modifies this`live, this`lo, this`hi, lson, rson, dad, same
      ensures Valid() && live == old(live) + {r}
    {
      hide LF.Valid, SameOk, Bound, Keys, Vals, Heads, KeyVal, Head, AllUp, AllBounds, AllBorders, AllSlots, AllLaminar,
           DadTells, SlotOk, NoneIn;
      ghost var g := G();
      AttachValid(g, p, right, r);
      AttachSame(g, Strings(), same[..], p, right, r, i);
      if right { rson[p] := r; } else { lson[p] := r; }
      dad[r] := p;
      same[r] := i;
      live := live + {r};
      lo, hi := lo[r := SlotLo(g, p, right)], hi[r := SlotHi(g, p, right)];
      assert G() == Attach(g, p, right, r, SlotLo(g, p, right), SlotHi(g, p, right));
    }

    /** Put r in the place of p, whose string it repeats. */
    method ReplaceNode(p: nat, r: nat)
      requires Valid() && CanSubstitute(G(), p, r) && Strings()[p] == Strings()[r]
      modifies this`live, this`lo, this`hi, lson, rson, dad, same
      ensures Valid() && live == old(live) - {p} + {r}
    {
      hide LF.Valid, SameOk, Bound, Keys, Vals, Heads, KeyVal, Head, AllUp, AllBounds, AllBorders, AllSlots, AllLaminar,
           DadTells, SlotOk, NoneIn;
      ghost var g := G();
      SubstituteValid(g, p, r);
      SubstituteSame(g, Strings(), same[..], p, r);
      SubstituteLive(g, p, r);
      IsPlaced(g, p);
      DadAlive(g, p);
      same[r] := same[p];
      dad[r] := dad[p];
      lson[r] := lson[p];
      rson[r] := rson[p];
      dad[lson[p]] := r;
      dad[rson[p]] := r;
      if rson[dad[p]] == p {
        rson[dad[p]] := r;
      } else {
        lson[dad[p]] := r;
      }
      dad[p] := NIL;
      live := live - {p} + {r};
      lo, hi := ReBound(lo, g.val[p], g.val[r])[r := g.lo[p]], ReBound(hi, g.val[p], g.val[r])[r := g.hi[p]];
      ghost var e := Substitute(g, p, r);
      assert lson[..] == e.ls;
      assert rson[..] == e.rs;
      assert dad[..] == e.da;
      assert G() == e;
    }

    /** Enter position r into its tree, in the place of a node with the same string if there
        is one, and report the longest match with the strings already there. */
    method InsertNode(r: nat) returns (ghost seen: seq<nat>)
      requires Valid() && r < N && r !in live
      modifies this, lson, rson, dad, same
      ensures Valid() && match_length <= F
      ensures Descent(old(G()), Strings(), r, seen)
      ensures NearestSeen(Strings(), seen, r, match_length, match_position)
      ensures Reported(Strings(), old(live), r, match_length, match_position)
      ensures forall y :: y in old(live) ==> Lcp(Strings()[y], Strings()[r]) <= Cap(match_length)
      ensures forall y :: y in live <==> y == r || (y in old(live) && Strings()[y] != Strings()[r])
    {
      hide LF.Valid, SameOk, Bound, Keys, Vals, Heads, KeyVal, Head, Lcp, Excluded, AllUp, AllBounds, AllBorders,
           AllSlots, AllLaminar, DadTells, SlotOk, NoneIn, Reported, Agreed, Kid, SlotLo, SlotHi, HeadOf, Keyed;
      hide Seeing, Descent, NearestSeen;
      ghost var ks, g0 := Strings(), G();
      ClearLinks(r);
      ghost var g, live0 := G(), live;
      SearchStart(g, ks, r);
      var cmp: int := 1;
      var p: nat := Head(KeyAt(text_buf[..], r));
      match_length := 0;
      var i: nat, j: nat := 1, 1;
      StartReport(ks, r, g);
      seen := [];
      var full := false;
      while !full
        invariant Valid() && G() == g && lson[r] == NIL && rson[r] == NIL && live == live0
        invariant NearestSeen(ks, seen, r, match_length, match_position)
        invariant Came(g, r, seen, p, cmp >= 0, full)
        invariant !full ==> match_length < F && Searching(g, ks, r, p, cmp >= 0, i, match_length)
        invariant full ==> p < N && p in live0 && Lcp(ks[r], ks[p]) == F && match_length == F
        decreases !full, if full then {} else Inside(g, p, cmp >= 0)
      {
        var q := NextKid(p, cmp >= 0);
        if q == NIL {
          SearchDone(g, ks, r, p, cmp >= 0, i, match_length);
          AttachNode(r, p, cmp >= 0, i);
          Distinct(g, ks, r, match_length, live);
          CameDone(g0, g, ks, r, seen, p, cmp >= 0);
          SeenReported(g, ks, seen, r, match_length, match_position);
          return;
        }
        KidLive(g, p, cmp >= 0, q);
        j := same[q];
        ghost var p0, right0, i0, ml0 := p, cmp >= 0, i, match_length;
        i, cmp := Agreement(r, p, cmp >= 0, q, i, j, cmp, match_length);
        p := q;
        Note(r, p, i, seen);
        CameOn(g, r, seen, p0, right0, q);
        seen := seen + [q];
        if match_length >= F {
          full := true;
        } else {
          SearchStep(g, ks, r, p0, right0, i0, ml0, q, i, match_length);
          InsideShrinks(g, p0, right0, q, cmp >= 0);
        }
      }
      SearchFull(g, ks, r, p);
      FullMatch(g, ks, r, p, live0);
      CameFull(g0, g, ks, r, seen, p, cmp >= 0);
      SeenReported(g, ks, seen, r, match_length, match_position);
      ReplaceNode(p, r);
    }

    /** rson[r] = lson[r] = NIL, r being in no tree. */
    method ClearLinks(r: nat)
      requires Valid() && r < N && r !in live
      modifies lson, rson
      ensures Valid() && lson[r] == NIL && rson[r] == NIL
      ensures G() == old(G()).(ls := old(G()).ls[r := NIL], rs := old(G()).rs[r := NIL])
    {
      hide LF.Valid, SameOk, Bound, Keys, Vals, Heads, KeyVal, Head, AllUp, AllBounds, AllBorders, AllSlots, AllLaminar,
           SlotOk, NoneIn;
      ghost var g := G();
      rson[r] := NIL;
      lson[r] := NIL;
      ValidDad(g);
      assert SameForest(g, G());
      SameValid(g, G());
      assert SameOk(G(), Strings(), same[..]) by { SameSame(g, G(), Strings(), same[..]); }
    }

    /** The son of the slot searched next. */
    method NextKid(p: nat, right: bool) returns (q: nat)
      requires Valid() && IsSlot(G(), p, right)
      ensures q == Kid(G(), p, right)
    {
      hide LF.Valid, SameOk;
      if right { q := rson[p]; } else { q := lson[p]; }
    }

    /** same[q] becomes how far q agrees with p, which it does for n bytes; 1 for a head. */
    method Link(n: nat, p: nat, q: nat)
      requires Shaped() && q < N && p <= 2 * N && 1 <= n <= F
      requires p < N ==> Agree(Strings()[p], Strings()[q], n)
      modifies same
      ensures same[..] == old(same[..])[q := Agreed(Strings(), p, q)]
    {
      hide Lcp;
      ghost var ks := Strings();
      if p >= NIL {
        same[q] := 1;
        return;
      }
      var i := n;
      while i < F
        invariant n <= i <= F && Agree(ks[p], ks[q], i)
        invariant same[..] == old(same[..])
      {
        assert ks[p][i] == text_buf[p + i] && ks[q][i] == text_buf[q + i];
        if text_buf[p + i] != text_buf[q + i] {
          LcpIs(ks[p], ks[q], i);
          same[q] := i;
          return;
        }
        i := i + 1;
      }
      LcpIs(ks[p], ks[q], F);
      same[q] := F;
    }

    /** r, a son of q, is about to become a son of q's dad p. */
    method LinkNode(p: nat, q: nat, r: nat)
      requires Shaped() && q < N && r < N && q != r && p <= 2 * N && p != NIL
      requires same[q] == Agreed(Strings(), p, q) && same[r] == Agreed(Strings(), q, r)
      requires Head(Strings()[q]) == Head(Strings()[r]) && (p < N ==> Head(Strings()[p]) == Head(Strings()[q]))
      modifies same
      ensures same[..] == old(same[..])[r := Agreed(Strings(), p, r)]
    {
      hide Lcp, Head, KeyVal;
      ghost var ks := Strings();
      MovedLength(ks, p, q, r);
      if same[q] == same[r] {
        if p < N { AgreeTo(ks[p], ks[r], same[q]); }
        Link(same[q], p, r);
      } else if same[q] < same[r] {
        same[r] := same[q];
      }
    }

    /** The statements that end DeleteNode: q takes the slot that held p. */
    method TakeSlot(p: nat, q: nat)
      requires Shaped() && Sized(G()) && p in live && q <= N && dad[p] <= 2 * N
      requires rson[dad[p]] == p || dad[p] < N
      modifies lson, rson, dad, this`live
      ensures G() == Finish(old(G()), p, q)
    {
      hide Bound, Keys, Vals, Heads, KeyVal, Head;
      ghost var g := G();
      dad[q] := dad[p];
      if rson[dad[p]] == p {
        rson[dad[p]] := q;
      } else {
        lson[dad[p]] := q;
      }
      dad[p] := NIL;
      live := live - {p};
      assert G() == Finish(g, p, q);
    }

    /** The node that comes right before p: the rightmost one below its left son. */
    method FindBefore(p: nat) returns (q: nat)
      requires Valid() && p in live && lson[p] < N && rson[p] < N
      ensures Splicing(G(), p, q) && q < N
      ensures q == lson[p] <==> rson[lson[p]] == NIL
    {
      hide LF.Valid, SameOk, Keys, Vals, Heads, Bound, Before, Above;
      ghost var g := G();
      BeforeSon(g, p);
      q := lson[p];
      BeforeRange(g, p, q);
      while rson[q] != NIL
        invariant q < N && Before(g, p, q)
        invariant q == lson[p] || (rson[lson[p]] != NIL && g.val[lson[p]] < g.val[q])
        decreases Above(g, g.val[q])
      {
        BeforeStep(g, p, q);
        BeforeRange(g, p, rson[q]);
        AboveShrinks(g, g.val[q], rson[q]);
        q := rson[q];
      }
    }

    /** The two-son case of DeleteNode up to where q takes the slot of p. */
    method Relink(p: nat) returns (q: nat)
      requires Valid() && p in live && lson[p] < N && rson[p] < N
      modifies lson, rson, dad, same
      ensures Splicing(old(G()), p, q) && Apart(old(G()), p, q)
      ensures G() == if old(lson[p]) == q then NearLinks(old(G()), p, q) else FarLinks(old(G()), p, q)
      ensures same[..] == Relinked(old(G()), Strings(), old(same[..]), p, q)
    {
      hide LF.Valid, SameOk, Keys, Vals, Heads, Bound, Before, KeyVal, Head, Splicing, Agreed, Apart;
      ghost var g, ks := G(), Strings();
      q := FindBefore(p);
      SpliceApart(g, p, q);
      SpliceLengths(g, ks, same[..], p, q);
      SpliceRange(g, p, q);
      if q != lson[p] {
        if lson[q] != NIL {
          LinkNode(dad[q], q, lson[q]);
        }
        Link(1, q, lson[p]);
        rson[dad[q]] := lson[q];
        dad[lson[q]] := dad[q];
        lson[q] := lson[p];
        dad[lson[p]] := q;
      }
      Link(1, dad[p], q);
      Link(1, q, rson[p]);
      rson[q] := rson[p];
      dad[rson[p]] := q;
    }

    /** DeleteNode for a node with an empty slot: its other son q, if any, moves up. */
    method DeleteOne(p: nat, emptyRight: bool)
      requires Valid() && CanDetach(G(), p, emptyRight)
      modifies this`live, this`lo, this`hi, lson, rson, dad, same
      ensures Valid() && live == old(live) - {p}
    {
      hide LF.Valid, SameOk, Keys, Vals, Heads, Bound, KeyVal, Head, Agreed, Finish;
      ghost var g, ks, same0 := G(), Strings(), same[..];
      DadAlive(g, p);
      IsPlaced(g, p);
      DetachLengths(g, ks, same0, p, emptyRight);
      TakenIsDetached(g, ks, same0, p, emptyRight);
      DetachLive(g, p, emptyRight);
      var q := if emptyRight then lson[p] else rson[p];
      if q != NIL {
        LinkNode(dad[p], p, q);
      }
      TakeSlot(p, q);
      lo, hi := ReLo(g, p, emptyRight), ReHi(g, p, emptyRight);
      assert G() == Detach(g, p, emptyRight);
    }

    /** DeleteNode for a node with two sons. */
    method DeleteInner(p: nat)
      requires Valid() && p in live && lson[p] < N && rson[p] < N
      modifies this`live, this`lo, this`hi, lson, rson, dad, same
      ensures Valid() && live == old(live) - {p}
    {
      hide LF.Valid, SameOk, Keys, Vals, Heads, Bound, KeyVal, Head, Agreed, Apart, Relinked, Finish, CanDetach,
           CanSubstitute, Splicing, Ideal, NearLinks, FarLinks;
      ghost var g, ks, same0 := G(), Strings(), same[..];
      var q := Relink(p);
      SpliceRange(g, p, q);
      AfterValid(g, p, q);
      AfterSame(g, ks, same0, p, q);
      SplicedPlain(g, p, q);
      SlotStays(g, p, q);
      TakeSlot(p, q);
      lo, hi := Ideal(g, p, q).lo, Ideal(g, p, q).hi;
      assert G() == After(g, p, q);
    }

    /** Take position p out of its tree, if it is in one. */
    method DeleteNode(p: nat)
      requires Valid() && p < N
      modifies this`live, this`lo, this`hi, lson, rson, dad, same
      ensures Valid() && live == old(live) - {p}
    {
      hide LF.Valid, SameOk, Keys, Vals, Heads, Bound;
      ValidDad(G());
      if dad[p] == NIL {
        assert live == live - {p};
        return;
      }
      SonRange(G(), p);
      if rson[p] == NIL {
        DeleteOne(p, true);
      } else if lson[p] == NIL {
        DeleteOne(p, false);
      } else {
        DeleteInner(p);
      }
    }

    /** Every tree is empty. */
    method InitTree()
      requires Shaped()
      modifies this`live, this`lo, this`hi, rson, dad
      ensures Valid() && live == {}
    {
      hide Keys, Vals, Heads, KeyVal, Head, Bound;
      var p := N + 1;
      while p <= N + N
        invariant N + 1 <= p <= 2 * N + 1
        invariant forall d :: N < d < p ==> rson[d] == NIL
      {
        rson[p] := NIL;
        p := p + 1;
      }
      p := 0;
      while p < N
        invariant p <= N
        invariant forall x :: 0 <= x < p ==> dad[x] == NIL
        invariant forall d :: N < d <= 2 * N ==> rson[d] == NIL
      {
        dad[p] := NIL;
        p := p + 1;
      }
      live := {};
      lo, hi := seq(N, _ => 0), seq(N, _ => 0);
      KeyedSized(lson[..], rson[..], dad[..], live, lo, hi, Strings());
      EmptyValid(G());
    }

    /** Change one byte of the text while every tree is empty. */
    method Poke(i: nat, c: byte)
      requires Valid() && live == {} && i < TEXT
      modifies text_buf
      ensures Valid() && text_buf[..] == old(text_buf[..])[i := c]
    {
      hide LF.Valid, Keys, Vals, Heads, KeyVal, Head, Bound, Keyed, SameOk;
      ghost var g, ks := G(), Strings();
      ValidDad(g);
      text_buf[i] := c;
      KeyedSized(lson[..], rson[..], dad[..], live, lo, hi, Strings());
      Retext(g, ks, same[..], G(), Strings());
    }

    /** Put the next byte of the input at s, and in the copy of the window's start that
        follows its end; no string in the trees reaches s. */
    method PutText(s: nat, c: byte)
      requires Valid() && s < N && forall p :: p in live ==> p < N && Dist(s, p) >= F
      modifies text_buf
      ensures Valid()
      ensures text_buf[..] == Written(old(text_buf[..]), s, c)
    {
      hide LF.Valid, Keys, Vals, Heads, KeyVal, Head, Bound, Keyed, SameOk;
      ghost var g, ks, t := G(), Strings(), text_buf[..];
      ValidDad(g);
      text_buf[s] := c;
      if s < F - 1 {
        text_buf[s + N] := c;
      }
      ghost var t' := text_buf[..];
      assert t' == Written(t, s, c);
      forall p | p in live ensures p < N && Strings()[p] == ks[p] {
        KeyApart(t, t', s, p);
        KeysAt(t, p);
        KeysAt(t', p);
      }
      KeyedSized(lson[..], rson[..], dad[..], live, lo, hi, Strings());
      Retext(g, ks, same[..], G(), Strings());
    }
  }

  /** The dad of a node is a node or a head, and not the node itself. */
  lemma {:induction false} DadAlive(g: Forest, p: nat)
    requires LF.Valid(g) && p in g.live
    ensures g.da[p] in g.live || N < g.da[p] <= 2 * N
    ensures g.da[p] != p && g.ls[p] != p && g.rs[p] != p
  {
    hide AllUp, AllBounds, AllBorders, AllSlots, AllLaminar, DadTells, Bound, NoneIn;
    NodeFact(g, p);
  }

  ghost function Above(g: Forest, v: int): set<nat> {
    if Sized(g) then set y | y in g.live && v < g.val[y] else {}
  }

  lemma {:induction false} AboveShrinks(g: Forest, v: int, y: nat)
    requires Sized(g) && y in g.live && v < g.val[y]
    ensures Above(g, g.val[y]) < Above(g, v)
  {
    assert y in Above(g, v) && y !in Above(g, g.val[y]);
  }

  lemma {:induction false} BeforeRange(g: Forest, p: nat, q: nat)
    requires LF.Valid(g) && Before(g, p, q)
    ensures q < N && g.rs[q] <= N
  {
    hide AllUp, AllBounds, AllBorders, AllSlots, AllLaminar, DadTells, Bound, NoneIn;
    NodeFact(g, q);
  }

  lemma {:induction false} SonRange(g: Forest, p: nat)
    requires LF.Valid(g) && p in g.live
    ensures p < N && g.ls[p] <= N && g.rs[p] <= N
  {
    hide AllUp, AllBounds, AllBorders, AllSlots, AllLaminar, DadTells, Bound, NoneIn;
    NodeFact(g, p);
  }

  /** Relinking the sons of p does not touch the slot that holds p. */
  lemma {:induction false} SlotStays(g: Forest, p: nat, q: nat)
    requires Splicing(g, p, q) && Apart(g, p, q)
    ensures var c := if g.ls[p] == q then NearLinks(g, p, q) else FarLinks(g, p, q);
      && Sized(c) && p in c.live && p < N && c.da[p] == g.da[p] <= 2 * N && (c.rs[c.da[p]] == p || c.da[p] < N)
      && Spliced(g, p, q) == Finish(c, p, q)
  {
    hide LF.Valid, Before, Finish;
    SpliceRange(g, p, q);
  }

  /** The links DeleteNode follows stay within the arrays. */
  lemma {:induction false} SpliceRange(g: Forest, p: nat, q: nat)
    requires Splicing(g, p, q) && Apart(g, p, q)
    ensures p < N && q < N && p != q && Placed(g, p) && Placed(g, q) && g.ls[p] < N && g.rs[p] < N
    ensures g.ls[q] != NIL ==> g.ls[q] < N
    ensures g.ls[p] != q ==> g.da[q] < N && g.da[q] != g.da[p] && g.da[q] != q && g.da[q] != p
    ensures g.da[p] != NIL && g.da[p] != q && g.da[p] != p && g.da[q] != N
    ensures g.rs[p] != p && g.ls[p] != p && g.ls[q] != p && g.ls[q] != q && g.rs[p] != q
    ensures g.rs[p] != g.ls[q] && g.rs[p] != g.ls[p]
  {
    hide LF.Valid, Before;
    SpliceFacts(g, p, q);
    IsPlaced(g, p);
    IsPlaced(g, q);
  }

  /** What is cached for the nodes DeleteNode moves. */
  lemma {:induction false} SpliceLengths(g: Forest, ks: seq<Key>, same: seq<nat>, p: nat, q: nat)
    requires Splicing(g, p, q) && Apart(g, p, q) && Keyed(g, ks) && SameOk(g, ks, same)
    ensures same[q] == Agreed(ks, g.da[q], q)
    ensures g.ls[q] != NIL ==>
              g.ls[q] < N && same[g.ls[q]] == Agreed(ks, q, g.ls[q]) && Head(ks[q]) == Head(ks[g.ls[q]])
    ensures g.da[q] < N ==> Head(ks[g.da[q]]) == Head(ks[q])
    ensures g.ls[p] < N && g.rs[p] < N && Agree(ks[q], ks[g.ls[p]], 1) && Agree(ks[q], ks[g.rs[p]], 1)
    ensures g.da[p] < N ==> Agree(ks[g.da[p]], ks[q], 1)
  {
    hide LF.Valid, Before, Head, KeyVal, Bound, Lcp;
    SpliceFacts(g, p, q);
    SpliceHeads(g, p, q);
    HeadAgree(ks[q], ks[g.ls[p]]);
    HeadAgree(ks[q], ks[g.rs[p]]);
    if g.da[p] < N { HeadAgree(ks[g.da[p]], ks[q]); }
  }

  lemma {:induction false} HeadAgree(a: Key, b: Key)
    ensures Head(a) == Head(b) ==> Agree(a, b, 1)
  {
    hide Head, Lcp;
    HeadLcp(a, b);
  }

  lemma {:induction false} SpliceHeads(g: Forest, p: nat, q: nat)
    requires Splicing(g, p, q) && Apart(g, p, q)
    ensures g.head[q] == g.head[p] && g.ls[p] < N && g.head[g.ls[p]] == g.head[p] && g.rs[p] < N
    ensures g.head[g.rs[p]] == g.head[p]
    ensures g.ls[q] != NIL ==> g.ls[q] < N && g.head[g.ls[q]] == g.head[q]
    ensures g.da[q] < N ==> g.head[g.da[q]] == g.head[q]
    ensures g.da[p] < N ==> g.head[g.da[p]] == g.head[p]
    ensures q in g.live && g.ls[q] != NIL ==> g.ls[q] in g.live && g.da[g.ls[q]] == q
  {
    hide AllUp, AllBounds, AllBorders, AllSlots, AllLaminar, DadTells, Bound, NoneIn;
    SpliceFacts(g, p, q);
    NodeFact(g, p);
    NodeFact(g, q);
    SameTree(g, p, q);
    NodeFact(g, g.ls[p]);
    NodeFact(g, g.rs[p]);
    if g.ls[q] != NIL { NodeFact(g, g.ls[q]); }
  }

  /** What is cached for the son that moves up when p has only one. */
  lemma {:induction false} DetachLengths(g: Forest, ks: seq<Key>, same: seq<nat>, p: nat, emptyRight: bool)
    requires CanDetach(g, p, emptyRight) && Keyed(g, ks) && SameOk(g, ks, same)
    ensures same[p] == Agreed(ks, g.da[p], p) && g.da[p] <= 2 * N
    ensures g.da[p] < N ==> Head(ks[g.da[p]]) == Head(ks[p])
    ensures var q := Kid(g, p, !emptyRight);
      q != NIL ==> q < N && q != p && same[q] == Agreed(ks, p, q) && Head(ks[p]) == Head(ks[q])
  {
    hide AllUp, AllBounds, AllBorders, AllSlots, AllLaminar, DadTells, Bound, NoneIn, Head, KeyVal, Lcp;
    NodeFact(g, p);
    var q := Kid(g, p, !emptyRight);
    if q != NIL { NodeFact(g, q); }
  }

  /** The forest and the cached lengths when p gave its slot to its only son. */
  lemma {:induction false} TakenIsDetached(g: Forest, ks: seq<Key>, same: seq<nat>, p: nat, emptyRight: bool)
    requires CanDetach(g, p, emptyRight) && Keyed(g, ks) && SameOk(g, ks, same)
    ensures LF.Valid(Detach(g, p, emptyRight)) && Keyed(Detach(g, p, emptyRight), ks)
    ensures Placed(g, p) && p < N && Kid(g, p, !emptyRight) <= N
    ensures Detach(g, p, emptyRight)
         == Finish(g, p, Kid(g, p, !emptyRight)).(lo := ReLo(g, p, emptyRight), hi := ReHi(g, p, emptyRight))
    ensures var q := Kid(g, p, !emptyRight);
      SameOk(Detach(g, p, emptyRight), ks, if q == NIL then same else same[q := Agreed(ks, g.da[p], q)])
  {
    DetachValid(g, p, emptyRight);
    IsPlaced(g, p);
    DetachSame(g, ks, same, p, emptyRight);
  }

  lemma {:induction false} DetachSame(g: Forest, ks: seq<Key>, same: seq<nat>, p: nat, emptyRight: bool)
    requires CanDetach(g, p, emptyRight) && Keyed(g, ks) && SameOk(g, ks, same) && Placed(g, p)
    ensures Keyed(Detach(g, p, emptyRight), ks)
    ensures var q := Kid(g, p, !emptyRight);
      SameOk(Detach(g, p, emptyRight), ks, if q == NIL then same else same[q := Agreed(ks, g.da[p], q)])
  {
    hide AllUp, AllBounds, AllBorders, AllSlots, AllLaminar, DadTells, Bound, NoneIn, Head, KeyVal, Lcp, Agreed;
    var q := Kid(g, p, !emptyRight);
    var s := if q == NIL then same else same[q := Agreed(ks, g.da[p], q)];
    forall x | x in g.live && x != p ensures s[x] == Agreed(ks, Detach(g, p, emptyRight).da[x], x) {
      NodeFact(g, x);
      NodeFact(g, p);
    }
  }

  lemma {:induction false} KeysAt(text: seq<byte>, p: nat)
    requires |text| == TEXT && p < N
    ensures Keys(text)[p] == KeyAt(text, p)
  {
  }

  /** A string that s is not in does not change with it. */
  lemma {:induction false} KeyApart(t: seq<byte>, t': seq<byte>, s: nat, p: nat)
    requires |t| == |t'| == TEXT && s < N && p < N && Dist(s, p) >= F
    requires forall i :: 0 <= i < TEXT && i != s && (i != s + N || s >= F - 1) ==> t[i] == t'[i]
    ensures KeyAt(t, p) == KeyAt(t', p)
  {
    forall k | p <= k < p + F ensures t[k] == t'[k] {
      assert k != s && k != s + N;
    }
  }

  lemma {:induction false} KeyedSized(ls: seq<nat>, rs: seq<nat>, da: seq<nat>, live: set<nat>, lo: seq<int>,
                                      hi: seq<int>, ks: seq<Key>)
    requires |ls| == N + 1 && |rs| == 2 * N + 1 && |da| == N + 1 && |lo| == N && |hi| == N && |ks| == N
    requires forall x :: x in live ==> x < N
    ensures Keyed(Forest(ls, rs, da, live, lo, hi, Vals(ks), Heads(ks)), ks)
  {
    hide KeyVal, Head, Bound;
    forall x | 0 <= x < N
      ensures N < Head(ks[x]) <= 2 * N && Bound(Head(ks[x])) < KeyVal(ks[x]) < Bound(Head(ks[x]) + 1)
    {
      KeyValBounds(ks[x]);
    }
  }

  lemma {:induction false} EmptyValid(g: Forest)
    requires Sized(g) && g.live == {}
    requires forall x :: 0 <= x < N ==> g.da[x] == NIL
    requires forall d :: N < d <= 2 * N ==> g.rs[d] == NIL
    ensures LF.Valid(g)
  {
    hide Bound;
    forall p, right | IsSlot(g, p, right) ensures SlotOk(g, p, right) {}
  }

  /** A change of the text that no live string sees keeps everything. */
  lemma {:induction false} Retext(g: Forest, ks: seq<Key>, same: seq<nat>, g': Forest, ks': seq<Key>)
    requires LF.Valid(g) && Keyed(g, ks) && SameOk(g, ks, same) && Keyed(g', ks')
    requires g' == g.(val := g'.val, head := g'.head)
    requires forall p :: p in g.live ==> p < N && ks'[p] == ks[p]
    ensures LF.Valid(g') && SameOk(g', ks', same)
  {
    hide KeyVal, Head, Bound, AllUp, AllBounds, AllBorders, AllSlots, AllLaminar, Lcp;
    ValidDad(g);
    assert SameForest(g, g');
    SameValid(g, g');
    forall x | x in g.live ensures Agreed(ks', g.da[x], x) == Agreed(ks, g.da[x], x) {
      DadAlive(g, x);
    }
  }

  /** How far a son agrees with its grandfather. */
  lemma {:induction false} MovedLength(ks: seq<Key>, p: nat, q: nat, r: nat)
    requires |ks| == N && q < N && r < N && p != NIL
    requires Head(ks[q]) == Head(ks[r]) && (p < N ==> Head(ks[p]) == Head(ks[q]))
    ensures var a, b := Agreed(ks, p, q), Agreed(ks, q, r);
      && 1 <= a <= F && 1 <= b
      && (a < b ==> Agreed(ks, p, r) == a) && (b < a ==> Agreed(ks, p, r) == b)
      && (a == b && p < N ==> Lcp(ks[p], ks[r]) >= a)
  {
    hide Head, Lcp;
    HeadLcp(ks[q], ks[r]);
    if p < N {
      HeadLcp(ks[p], ks[q]);
      LcpTriangle(ks[p], ks[q], ks[r]);
    }
  }

  lemma {:induction false} ValidDad(g: Forest)
    requires LF.Valid(g)
    ensures Sized(g) && DadTells(g)
  {
  }

  lemma {:induction false} SameSame(a: Forest, b: Forest, ks: seq<Key>, same: seq<nat>)
    requires SameForest(a, b) && Keyed(a, ks) && Keyed(b, ks) && SameOk(a, ks, same)
    ensures SameOk(b, ks, same)
  {
    hide Agreed, Head, KeyVal;
  }

  lemma {:induction false} KidLive(g: Forest, p: nat, right: bool, q: nat)
    requires LF.Valid(g) && IsSlot(g, p, right) && q == Kid(g, p, right) != NIL
    ensures q in g.live && q < N
  {
    hide AllUp, AllBounds, AllBorders, AllSlots, AllLaminar, DadTells, Bound, NoneIn;
    SlotFact(g, p, right);
  }

  /** One more node that is no better leaves the match as it is. */
  lemma {:induction false} StillMatch(ks: seq<Key>, seen: seq<nat>, p: nat, r: nat, ml: nat, mp: nat)
    requires |ks| == N && r < N && p < N && NearestSeen(ks, seen, r, ml, mp)
    requires Lcp(ks[r], ks[p]) <= Cap(ml) && (ml > 0 && Lcp(ks[r], ks[p]) == ml ==> mp < Dist(r, p))
    ensures NearestSeen(ks, seen + [p], r, ml, mp)
  {
    hide Lcp;
    var after := seen + [p];
    if ml > 0 {
      var i :| 0 <= i < |seen| && MatchAt(ks, r, seen[i], ml, mp);
      assert MatchAt(ks, r, after[i], ml, mp);
    }
  }

  /** The search has seen these nodes and is at this slot; or at a node with the same string. */
  ghost predicate Came(g: Forest, r: nat, seen: seq<nat>, p: nat, right: bool, full: bool) {
    && Sized(g) && r < N && Seeing(g, r, seen)
    && if full then seen != [] && p == seen[|seen| - 1]
       else if seen == [] then p == g.head[r] && right
       else p == seen[|seen| - 1] && p in g.live && (right <==> g.val[p] < g.val[r])
  }

  lemma {:induction false} CameOn(g: Forest, r: nat, seen: seq<nat>, p: nat, right: bool, q: nat)
    requires Came(g, r, seen, p, right, false) && IsSlot(g, p, right) && q == Kid(g, p, right) && q in g.live
    ensures Seeing(g, r, seen + [q])
  {
    assert (seen + [q])[..|seen|] == seen;
  }

  /** Clearing the links of a node in no tree does not change the search. */
  lemma {:induction false} SeeingSame(g0: Forest, g: Forest, r: nat, seen: seq<nat>)
    requires Sized(g0) && Sized(g) && r < N && r !in g0.live && Seeing(g, r, seen)
    requires g == g0.(ls := g0.ls[r := NIL], rs := g0.rs[r := NIL])
    ensures Seeing(g0, r, seen)
  {
    if seen != [] { SeeingSame(g0, g, r, seen[..|seen| - 1]); }
  }

  lemma {:induction false} CameDone(g0: Forest, g: Forest, ks: seq<Key>, r: nat, seen: seq<nat>, p: nat, right: bool)
    requires Came(g, r, seen, p, right, false) && IsSlot(g, p, right) && Kid(g, p, right) == NIL
    requires Keyed(g0, ks) && r < N && r !in g0.live && g == g0.(ls := g0.ls[r := NIL], rs := g0.rs[r := NIL])
    ensures Descent(g0, ks, r, seen)
  {
    hide Seeing, Lcp, Head, KeyVal;
    SeeingSame(g0, g, r, seen);
  }

  lemma {:induction false} CameFull(g0: Forest, g: Forest, ks: seq<Key>, r: nat, seen: seq<nat>, p: nat, right: bool)
    requires Came(g, r, seen, p, right, true) && p in g.live && p < N && |ks| == N && ks[p] == ks[r]
    requires Keyed(g0, ks) && r < N && r !in g0.live && g == g0.(ls := g0.ls[r := NIL], rs := g0.rs[r := NIL])
    ensures Descent(g0, ks, r, seen)
  {
    hide Seeing, Lcp, Head, KeyVal;
    SeeingSame(g0, g, r, seen);
  }

  lemma {:induction false} SeeingLive(g: Forest, r: nat, seen: seq<nat>)
    requires Sized(g) && r < N && Seeing(g, r, seen)
    ensures forall i :: 0 <= i < |seen| ==> seen[i] in g.live
  {
    if seen != [] { SeeingLive(g, r, seen[..|seen| - 1]); }
  }

  lemma {:induction false} SeenReported(g: Forest, ks: seq<Key>, seen: seq<nat>, r: nat, ml: nat, mp: nat)
    requires Sized(g) && |ks| == N && r < N && Seeing(g, r, seen) && NearestSeen(ks, seen, r, ml, mp)
    ensures Reported(ks, g.live, r, ml, mp)
  {
    hide Seeing, Lcp, Dist;
    SeeingLive(g, r, seen);
  }

  lemma {:induction false} StartReport(ks: seq<Key>, r: nat, g: Forest)
    requires |ks| == N && r < N && Keyed(g, ks)
    ensures forall mp :: NearestSeen(ks, [], r, 0, mp)
    ensures Came(g, r, [], g.head[r], true, false)
    ensures g.head[r] == Head(ks[r])
  {
    hide Lcp, Head;
  }

  /** The live nodes whose values lie in a slot: what is left to search. */
  ghost function Inside(g: Forest, p: nat, right: bool): set<nat> {
    if Sized(g) && IsSlot(g, p, right) then
      set y | y in g.live && SlotLo(g, p, right) < g.val[y] < SlotHi(g, p, right)
    else {}
  }

  lemma {:induction false} InsideShrinks(g: Forest, p: nat, right: bool, q: nat, side: bool)
    requires LF.Valid(g) && IsSlot(g, p, right) && q == Kid(g, p, right) && q in g.live
    ensures Inside(g, q, side) < Inside(g, p, right)
  {
    hide AllUp, AllBounds, AllBorders, AllSlots, AllLaminar, DadTells, Bound, NoneIn;
    SlotFact(g, p, right);
    NodeFact(g, q);
    assert q in Inside(g, p, right) && q !in Inside(g, q, side);
  }

  /** No live string equals r when none agrees with it in full. */
  lemma {:induction false} Distinct(g: Forest, ks: seq<Key>, r: nat, ml: nat, live': set<nat>)
    requires |ks| == N && r < N && ml < F && Keyed(g, ks)
    requires forall y :: y in g.live ==> Lcp(ks[y], ks[r]) <= Cap(ml)
    requires live' == g.live + {r}
    ensures forall y :: y in live' <==> y == r || (y in g.live && ks[y] != ks[r])
  {
    hide Lcp, Num;
    forall y | y in g.live ensures ks[y] != ks[r] { NumOrder(ks[y], ks[r]); }
  }

  /** Only one node holds a given string, and none agrees further than in full. */
  lemma {:induction false} FullMatch(g: Forest, ks: seq<Key>, r: nat, p: nat, live: set<nat>)
    requires LF.Valid(g) && Keyed(g, ks) && r < N && r !in g.live && p in g.live && ks[p] == ks[r] && live == g.live
    ensures forall y :: y in live ==> Lcp(ks[y], ks[r]) <= Cap(F)
    ensures forall y :: y in live - {p} + {r} <==> y == r || (y in live && ks[y] != ks[r])
  {
    hide Lcp, KeyVal, Head, Bound, AllUp, AllBounds, AllBorders, AllSlots, AllLaminar, DadTells, NoneIn;
    forall y | y in live && y != p ensures ks[y] != ks[r] { PairFact(g, p, y); }
  }

  lemma {:induction false} AgreeTo(a: Key, b: Key, i: nat)
    requires i <= Lcp(a, b)
    ensures Agree(a, b, i)
  {
    hide Lcp;
  }

  lemma {:induction false} KidFacts(g: Forest, ks: seq<Key>, same: seq<nat>, r: nat, p: nat, right: bool, i: nat,
                                    ml: nat, q: nat)
    requires Searching(g, ks, r, p, right, i, ml) && SameOk(g, ks, same)
    requires q == Kid(g, p, right) != NIL && q < N
    ensures Keyed(g, ks) && r < N && r !in g.live && q in g.live && g.da[q] == p && g.head[q] == g.head[r]
    ensures 1 <= i < F && 1 <= same[q] && (p < N ==> p in g.live)
    ensures i > same[q] ==> Lcp(ks[r], ks[q]) == same[q]
    ensures i == same[q] ==> Lcp(ks[r], ks[q]) >= i
    ensures i < same[q] ==> p < N && Lcp(ks[r], ks[q]) == i && ks[q][i] == ks[p][i]
  {
    hide LF.Valid, Lcp, Head, KeyVal, Bound, Excluded, SlotOk, Agreed;
    KidLive(g, p, right, q);
    SearchKid(g, ks, r, p, right, i, ml, q, same[q]);
    SlotHead(g, p, right, q);
  }

  lemma {:induction false} SlotHead(g: Forest, p: nat, right: bool, q: nat)
    requires LF.Valid(g) && IsSlot(g, p, right) && q == Kid(g, p, right) && q in g.live
    ensures g.head[q] == HeadOf(g, p)
  {
    hide AllUp, AllBounds, AllBorders, AllSlots, AllLaminar, DadTells, Bound;
    SlotFact(g, p, right);
    NodeFact(g, q);
  }

  /** The side r lies on of p is that of their first difference. */
  lemma {:induction false} SideKept(g: Forest, ks: seq<Key>, r: nat, p: nat, right: bool, i: nat, ml: nat)
    requires Searching(g, ks, r, p, right, i, ml) && p < N
    ensures right <==> ks[p][i] < ks[r][i]
  {
    hide AllUp, AllBounds, AllBorders, AllSlots, AllLaminar, DadTells, Bound, Lcp, Head, KeyVal;
    LcpSym(ks[p], ks[r]);
    SideOf(g, ks, r, p, i);
  }
}
