/** build_tree of archive/gzip/trees.c: from frequencies to canonical codes. */
module TreesTree {
  import opened BitString
  import opened Canonical
  import opened TreesHeap
  import opened Huffman
  import opened TreesBuild
  import opened TreesKraft
  import opened TreesLengths
  import opened TreesRepair
  import opened TreesCodes
  import opened PrefixCodes

  /** The symbols that occur. */
  ghost function Used(f: seq<nat>, elems: nat): set<nat>
    requires elems <= |f|
  {
    set x: nat | x < elems && f[x] != 0
  }

  lemma {:induction false} UsedSnoc(f: seq<nat>, n: nat)
    requires n < |f|
    ensures Used(f, n + 1) == Used(f, n) + (if f[n] != 0 then {n} else {}) && n !in Used(f, n)
  {
  }

  lemma {:induction false} UsedUpdate(f: seq<nat>, elems: nat, x: nat)
    requires elems <= |f| && x < elems && x !in Used(f, elems)
    ensures Used(f[x := 1], elems) == Used(f, elems) + {x}
  {
  }

  lemma {:induction false} UsedSize(f: seq<nat>, n: nat)
    requires n <= |f|
    ensures |Used(f, n)| <= n
  {
    if n > 0 {
      UsedSize(f, n - 1);
      UsedSnoc(f, n - 1);
    }
  }

  /** heap[1..len] lists the nodes a, which have depth 0. */
  ghost predicate Listing(h: seq<nat>, depth: seq<nat>, len: nat, a: set<nat>, elems: nat) {
    && |h| == |depth| == HEAP_SIZE && len < HEAP_SIZE && |a| == len && Held(h, len) == multiset(a)
    && (forall x :: x in a ==> x < elems && x < HEAP_SIZE && depth[x] == 0) && forall i :: 1 <= i <= len ==> h[i] in a
  }

  lemma {:induction false} ListingMore(h: seq<nat>, depth: seq<nat>, depth': seq<nat>, len: nat, a: set<nat>,
                                       elems: nat, x: nat)
    requires Listing(h, depth, len, a, elems) && x !in a && x < elems && len + 1 < HEAP_SIZE && x < |depth|
    requires depth' == depth[x := 0]
    ensures Listing(h[len + 1 := x], depth', len + 1, a + {x}, elems)
  {
    hide Held;
    HeldMore(h, len, x);
    OneMoreIn(a, x);
  }

  lemma {:induction false} HeldMore(h: seq<nat>, len: nat, x: nat)
    requires len + 1 < |h|
    ensures Held(h[len + 1 := x], len + 1) == Held(h, len) + multiset{x}
  {
    assert h[len + 1 := x][1..len + 2] == h[1..len + 1] + [x];
  }

  lemma {:induction false} OneMoreIn(a: set<nat>, x: nat)
    requires x !in a
    ensures multiset(a + {x}) == multiset(a) + multiset{x} && |a + {x}| == |a| + 1
  {
  }

  /** The initial heap: the symbols that occur, the others getting length 0. */
  method InitHeap(w: Work, fc: array<nat>, dl: array<nat>, elems: nat) returns (maxCode: int)
    requires w.Shaped() && fc.Length == dl.Length == 2 * elems + 1 <= HEAP_SIZE
    requires {w.heap, w.depth, w.blCount} !! {fc, dl} && fc != dl
    modifies w`heapLen, w`heapMax, w.heap, w.depth, dl
    ensures w.heapMax == HEAP_SIZE && Listing(w.heap[..], w.depth[..], w.heapLen, Used(fc[..], elems), elems)
    ensures forall x :: 0 <= x < elems && fc[x] == 0 ==> dl[x] == 0
    ensures LargestUsed(Used(fc[..], elems), maxCode, elems)
  {
    hide Listing, Used;
    w.heapLen := 0;
    w.heapMax := HEAP_SIZE;
    maxCode := -1;
    ghost var f := fc[..];
    ListingNone(w.heap[..], w.depth[..], f, elems);
    var n: nat := 0;
    while n < elems
      invariant n <= elems && w.heapLen <= n && w.heapMax == HEAP_SIZE
      invariant Listing(w.heap[..], w.depth[..], w.heapLen, Used(f, n), elems)
      invariant forall x :: 0 <= x < n && fc[x] == 0 ==> dl[x] == 0
      invariant -1 <= maxCode < n && (maxCode == -1 <==> Used(f, n) == {})
      invariant maxCode >= 0 ==> maxCode in Used(f, n) && forall x :: x in Used(f, n) ==> x <= maxCode
    {
      UsedSnoc(f, n);
      if fc[n] != 0 {
        ghost var h, d := w.heap[..], w.depth[..];
        w.heapLen := w.heapLen + 1;
        w.heap[w.heapLen] := n;
        maxCode := n;
        w.depth[n] := 0;
        ListingMore(h, d, w.depth[..], w.heapLen - 1, Used(f, n), elems, n);
        assert w.heap[..] == h[w.heapLen := n];
      } else {
        dl[n] := 0;
        assert Used(f, n + 1) == Used(f, n);
      }
      n := n + 1;
    }
  }

  lemma {:induction false} ListingNone(h: seq<nat>, depth: seq<nat>, f: seq<nat>, elems: nat)
    requires |h| == |depth| == HEAP_SIZE
    ensures Used(f, 0) == {} && Listing(h, depth, 0, {}, elems)
  {
    assert h[1..1] == [];
  }

  /** mc is the largest symbol that occurs, -1 if none does. */
  ghost predicate LargestUsed(u: set<nat>, mc: int, elems: nat) {
    && -1 <= mc < elems && (mc == -1 <==> u == {})
    && (mc >= 0 ==> mc in u && forall x :: x in u ==> x <= mc)
  }

  /** f is f0 with the forced symbols occurring once; opt and st are what is taken off. */
  ghost predicate Forcing(f: seq<nat>, f0: seq<nat>, elems: nat, forced: set<nat>, opt: int, st: int, stat: seq<nat>) {
    && |f| == |f0| && elems <= |f|
    && Used(f, elems) == Used(f0, elems) + forced && forced !! Used(f0, elems)
    && (forall x :: x in forced ==> x < 3 && x < |f| && f[x] == 1)
    && (forall x :: 0 <= x < |f| && x !in forced ==> f[x] == f0[x])
    && opt == 0 - |forced| && st == if stat == [] then 0 else 0 - Sum(forced, stat)
  }

  lemma {:induction false} ForcingMore(f: seq<nat>, f0: seq<nat>, elems: nat, forced: set<nat>, opt: int, st: int,
                                       stat: seq<nat>, mc: int, x: nat)
    requires Forcing(f, f0, elems, forced, opt, st, stat) && LargestUsed(Used(f, elems), mc, elems)
    requires |Used(f, elems)| < 2
    requires x == (if mc < 2 then mc + 1 else 0) && x < elems && (stat == [] || |stat| >= elems)
    ensures x < 3 && x !in Used(f, elems) && LargestUsed(Used(f[x := 1], elems), if mc < 2 then x else mc, elems)
    ensures Forcing(f[x := 1], f0, elems, forced + {x}, opt - 1, st - (if stat == [] then 0 else stat[x]), stat)
    ensures Used(f[x := 1], elems) == Used(f, elems) + {x}
  {
    hide Used, Sum, Forcing, LargestUsed;
    ForcingSize(f, f0, elems, forced, opt, st, stat);
    LargestMore(Used(f, elems), mc, elems, x);
    UsedUpdate(f, elems, x);
    ForcingAlso(f, f0, elems, forced, opt, st, stat, x);
  }

  lemma {:induction false} ForcingSize(f: seq<nat>, f0: seq<nat>, elems: nat, forced: set<nat>, opt: int, st: int,
                                       stat: seq<nat>)
    requires Forcing(f, f0, elems, forced, opt, st, stat)
    ensures elems <= |f| == |f0|
  {
    hide Used, Sum;
  }

  lemma {:induction false} LargestMore(u: set<nat>, mc: int, elems: nat, x: nat)
    requires LargestUsed(u, mc, elems) && |u| < 2 && x == (if mc < 2 then mc + 1 else 0) && x < elems
    ensures x < 3 && x !in u && LargestUsed(u + {x}, if mc < 2 then x else mc, elems)
  {
    NewOne(u, mc, x, |u|);
  }

  lemma {:induction false} ForcingAlso(f: seq<nat>, f0: seq<nat>, elems: nat, forced: set<nat>, opt: int, st: int,
                                       stat: seq<nat>, x: nat)
    requires Forcing(f, f0, elems, forced, opt, st, stat) && x < 3 && x < elems <= |f| && x !in Used(f, elems)
    requires (stat == [] || |stat| >= elems)
    requires Used(f[x := 1], elems) == Used(f, elems) + {x}
    ensures Forcing(f[x := 1], f0, elems, forced + {x}, opt - 1, st - (if stat == [] then 0 else stat[x]), stat)
  {
    hide Used, Sum;
    if stat != [] { SumAdd(forced, stat, x); }
    assert |forced + {x}| == |forced| + 1;
  }

  /** Force at least two codes of non zero frequency; what they cost is taken off beforehand. */
  method ForceTwo(w: Work, fc: array<nat>, dl: array<nat>, elems: nat, maxCode0: int, stat: seq<nat>)
    returns (maxCode: nat, ghost forced: set<nat>)
    requires w.Shaped() && fc.Length == dl.Length == 2 * elems + 1 <= HEAP_SIZE
    requires {w.heap, w.depth, w.blCount} !! {fc, dl} && fc != dl
    requires 3 <= elems && Listing(w.heap[..], w.depth[..], w.heapLen, Used(fc[..], elems), elems)
    requires (stat == [] || |stat| >= elems)
    requires LargestUsed(Used(fc[..], elems), maxCode0, elems)
    modifies w`heapLen, w`optLen, w`staticLen, w.heap, w.depth, fc
    ensures Listing(w.heap[..], w.depth[..], w.heapLen, Used(fc[..], elems), elems) && w.heapLen >= 2
    ensures LargestUsed(Used(fc[..], elems), maxCode, elems) && (forced != {} ==> w.heapLen == 2)
    ensures Forcing(fc[..], old(fc[..]), elems, forced, w.optLen - old(w.optLen), w.staticLen - old(w.staticLen), stat)
  {
    hide Listing, Used, Sum, Forcing, LargestUsed;
    var mc := maxCode0;
    forced := {};
    ghost var f0, o0, s0 := fc[..], w.optLen, w.staticLen;
    ForcingStart(f0, elems, stat);
    ListingSize(w.heap[..], w.depth[..], w.heapLen, Used(f0, elems), elems);
    while w.heapLen < 2
      invariant Listing(w.heap[..], w.depth[..], w.heapLen, Used(fc[..], elems), elems)
      invariant |Used(fc[..], elems)| == w.heapLen
      invariant LargestUsed(Used(fc[..], elems), mc, elems) && (forced != {} ==> w.heapLen <= 2)
      invariant Forcing(fc[..], f0, elems, forced, w.optLen - o0, w.staticLen - s0, stat)
      decreases 2 - w.heapLen
    {
      ghost var f, h, d, mc0 := fc[..], w.heap[..], w.depth[..], mc;
      LargestRange(Used(f, elems), mc, elems);
      var new': nat := 0;
      if mc < 2 {
        mc := mc + 1;
        new' := mc;
      }
      ForcingMore(f, f0, elems, forced, w.optLen - o0, w.staticLen - s0, stat, mc0, new');
      w.heapLen := w.heapLen + 1;
      w.heap[w.heapLen] := new';
      fc[new'] := 1;
      w.depth[new'] := 0;
      w.optLen := w.optLen - 1;
      if stat != [] {
        w.staticLen := w.staticLen - stat[new'];
      }
      assert fc[..] == f[new' := 1];
      ListingMore(h, d, w.depth[..], w.heapLen - 1, Used(f, elems), elems, new');
      assert w.heap[..] == h[w.heapLen := new'];
      forced := forced + {new'};
      ListingSize(w.heap[..], w.depth[..], w.heapLen, Used(fc[..], elems), elems);
    }
    LargestSome(Used(fc[..], elems), mc, elems);
    maxCode := mc;
  }

  lemma {:induction false} ForcingStart(f: seq<nat>, elems: nat, stat: seq<nat>)
    requires elems <= |f|
    ensures Forcing(f, f, elems, {}, 0, 0, stat)
  {
    SumNone(stat);
  }

  lemma {:induction false} LargestRange(u: set<nat>, mc: int, elems: nat)
    requires LargestUsed(u, mc, elems)
    ensures -1 <= mc < elems
  {
  }

  lemma {:induction false} LargestSome(u: set<nat>, mc: int, elems: nat)
    requires LargestUsed(u, mc, elems) && |u| >= 2
    ensures 0 <= mc < elems
  {
  }

  lemma {:induction false} ListingSize(h: seq<nat>, depth: seq<nat>, len: nat, a: set<nat>, elems: nat)
    requires Listing(h, depth, len, a, elems)
    ensures |a| == len < HEAP_SIZE
  {
  }

  /** The forced code is one that does not occur. */
  lemma {:induction false} NewOne(u: set<nat>, mc: int, x: nat, len: nat)
    requires |u| == len < 2 && -1 <= mc && (mc == -1 <==> u == {})
    requires (mc >= 0 ==> mc in u && forall y :: y in u ==> y <= mc)
    requires x == if mc < 2 then mc + 1 else 0
    ensures x !in u && x < 3
  {
    if mc >= 2 { TwoIn(u, 0, mc); }
  }

  lemma {:induction false} TwoIn(u: set<nat>, a: nat, b: nat)
    ensures a in u && b in u && a != b ==> |u| >= 2
  {
    if a in u && b in u && a != b {
      assert |u - {a}| == |u| - 1;
      assert b in u - {a};
    }
  }

  /** Establish sub-heaps of increasing lengths. */
  method Heapify(w: Work, fc: array<nat>, ghost a: set<nat>, ghost elems: nat)
    requires w.Shaped() && w.heap != fc && w.depth != fc && fc.Length == 2 * elems + 1 <= HEAP_SIZE
    requires Listing(w.heap[..], w.depth[..], w.heapLen, a, elems) && w.heapLen >= 2
    modifies w.heap
    ensures Combining(w.heap[..], w.depth[..], w.heapLen, HEAP_SIZE, fc[..], a, elems, [], a)
    ensures Deep(w.depth[..], elems, [], a)
  {
    hide HeapFrom, Held;
    ghost var len := w.heapLen;
    NoSons(w.heap[..], w.depth[..], w.heapLen, a, elems, fc[..]);
    var n := w.heapLen / 2;
    while n >= 1
      invariant 0 <= n <= len / 2 && Nodes(w.heap[..], len, fc[..], w.depth[..])
      invariant HeapFrom(w.heap[..], len, fc[..], w.depth[..], n + 1)
      invariant Held(w.heap[..], len) == multiset(a)
    {
      PqDownHeap(w.heap, w.heapLen, n, fc, w.depth);
      n := n - 1;
    }
    StartCombining(w.heap[..], w.depth[..], len, a, elems, fc[..]);
  }

  lemma {:induction false} NoSons(h: seq<nat>, depth: seq<nat>, len: nat, a: set<nat>, elems: nat, f: seq<nat>)
    requires Listing(h, depth, len, a, elems) && |f| == 2 * elems + 1 <= HEAP_SIZE
    ensures Nodes(h, len, f, depth) && HeapFrom(h, len, f, depth, len / 2 + 1)
  {
  }

  lemma {:induction false} StartCombining(h: seq<nat>, depth: seq<nat>, len: nat, a: set<nat>, elems: nat, f: seq<nat>)
    requires |h| == |depth| == HEAP_SIZE && |f| == 2 * elems + 1 <= HEAP_SIZE && Nodes(h, len, f, depth)
    requires HeapFrom(h, len, f, depth, 1)
    requires Held(h, len) == multiset(a) && |a| == len && forall x :: x in a ==> x < elems
    ensures Combining(h, depth, len, HEAP_SIZE, f, a, elems, [], a)
  {
    hide HeapFrom, Held;
    CardBelow(a, elems);
  }

  lemma {:induction false} CardBelow(a: set<nat>, n: nat)
    requires forall x :: x in a ==> x < n
    ensures |a| <= n
  {
    if n > 0 {
      CardBelow(a - {n - 1}, n - 1);
      if n - 1 in a { assert |a - {n - 1}| == |a| - 1; } else { assert a - {n - 1} == a; }
    } else {
      assert a == {};
    }
  }

  // ----------------------------------------------------------------- build_tree

  /** The codes of a tree: complete, within the limit, for every symbol that occurs in f. */
  ghost predicate TreeDone(f: seq<nat>, fc: seq<nat>, dl: seq<nat>, elems: nat, max: nat, maxCode: nat) {
    && 1 <= maxCode < elems <= |dl| && elems <= |fc| && elems <= |f| && 1 <= max <= 15
    && Complete(dl[..maxCode + 1], max) && TreesCodes.Coded(fc, dl[..maxCode + 1], maxCode + 1)
    && dl[maxCode] >= 1
    && (forall x :: 0 <= x < elems && f[x] != 0 ==> x <= maxCode && dl[x] >= 1)
    && (forall x :: maxCode < x < elems ==> dl[x] == 0)
  }

  /** Sums over the symbols that occur do not see the forced ones' one bit. */
  lemma {:induction false} ForcedOff(f: seq<nat>, f0: seq<nat>, elems: nat, forced: set<nat>, opt: int, st: int,
                                     stat: seq<nat>,
                                     dl: seq<nat>, extra: seq<nat>, base: nat)
    requires Forcing(f, f0, elems, forced, opt, st, stat) && |dl| == |f| && (stat == [] || |stat| >= elems)
    requires elems >= 3
    requires forced != {} ==> forall x :: x in forced ==> dl[x] == 1
    requires forall x :: 0 <= x < 3 ==> Xbits(extra, base, x) == 0
    ensures opt + Sum(Used(f, elems), BitCosts(f, dl, extra, base))
      == Sum(Used(f0, elems), BitCosts(f0, dl, extra, base))
    ensures stat == [] ==> st == 0
    ensures stat != [] ==>
              st + Sum(Used(f, elems), BitCosts(f, stat, extra, base))
                == Sum(Used(f0, elems), BitCosts(f0, stat, extra, base))
  {
    hide Sum, Used, Xbits;
    var u := Used(f0, elems);
    SumUnion(u, forced, BitCosts(f, dl, extra, base));
    SumSame(u, u, BitCosts(f, dl, extra, base), BitCosts(f0, dl, extra, base));
    SumCard(forced, BitCosts(f, dl, extra, base));
    if stat != [] { ForcedStatic(f, f0, elems, forced, opt, st, stat, extra, base); }
  }

  lemma {:induction false} ForcedStatic(f: seq<nat>, f0: seq<nat>, elems: nat, forced: set<nat>, opt: int, st: int,
                                        stat: seq<nat>, extra: seq<nat>, base: nat)
    requires Forcing(f, f0, elems, forced, opt, st, stat) && stat != [] && |stat| >= elems >= 3
    requires forall x :: 0 <= x < 3 ==> Xbits(extra, base, x) == 0
    ensures st + Sum(Used(f, elems), BitCosts(f, stat, extra, base))
      == Sum(Used(f0, elems), BitCosts(f0, stat, extra, base))
  {
    hide Sum, Used, Xbits;
    var u, s := Used(f0, elems), BitCosts(f, stat, extra, base);
    SumUnion(u, forced, s);
    SumSame(u, u, s, BitCosts(f0, stat, extra, base));
    forall x | x in forced ensures x < |s| && s[x] == stat[x] {}
    SumPrefix(forced, s, stat, 3);
  }

  /** Sums over small nodes only look at the start. */
  lemma {:induction false} SumPrefix(a: set<nat>, s: seq<nat>, t: seq<nat>, n: nat)
    requires n <= |s| && n <= |t| && forall x :: x in a ==> x < n && s[x] == t[x]
    ensures Sum(a, s) == Sum(a, t)
  {
    SumCut(a, s, n);
    SumCut(a, t, n);
    SumSame(a, a, s[..n], t[..n]);
  }

  lemma {:induction false} SumCut(a: set<nat>, s: seq<nat>, n: nat)
    requires n <= |s| && forall x :: x in a ==> x < n
    ensures Sum(a, s) == Sum(a, s[..n])
  {
    if |s| > n {
      SumCut(a, s[..|s| - 1], n);
      assert s[..|s| - 1][..n] == s[..n];
    } else {
      assert s[..n] == s;
    }
  }

  /** build_tree: the codes for the frequencies, and opt_len and static_len with the bits the
      symbols that occur take.  Where no length had to be cut (no inner node of the tree has the
      limit as its length l) no prefix code costs less. */
  method BuildTree(w: Work, fc: array<nat>, dl: array<nat>, elems: nat, max: nat, extra: seq<nat>, base: nat,
                   stat: seq<nat>)
    returns (maxCode: nat, ghost f: seq<nat>, ghost l: seq<nat>, ghost mg: seq<nat>)
    requires w.Shaped() && fc.Length == dl.Length == 2 * elems + 1 <= HEAP_SIZE
    requires {w.heap, w.depth, w.blCount} !! {fc, dl} && fc != dl
    requires 3 <= elems <= Pow2(max) && 1 <= max <= 15 && (stat == [] || |stat| >= elems)
    requires Sum(Used(fc[..], elems), fc[..]) + 2 < WORD && forall x :: 0 <= x < 3 ==> Xbits(extra, base, x) == 0
    modifies w, w.heap, w.depth, w.blCount, fc, dl
    ensures TreeDone(old(fc[..]), fc[..], dl[..], elems, max, maxCode)
    ensures w.optLen == old(w.optLen) + Sum(Used(old(fc[..]), elems), BitCosts(old(fc[..]), dl[..], extra, base))
    ensures w.staticLen
            == old(w.staticLen) + if stat == [] then 0
                                 else Sum(Used(old(fc[..]), elems), BitCosts(old(fc[..]), stat, extra, base))
    ensures |f| == |l| == fc.Length && Whole(Used(f, elems), elems, mg) && TopDown(l, elems, mg, max)
    ensures |Used(old(fc[..]), elems)| >= 2 ==> f == old(fc[..])
    ensures Fathers(l, elems, mg, max, 0) == 0 ==>
              Cheapest(Used(f, elems), f, dl[..]) && BestCode(Used(f, elems), f, dl[..])
    ensures Grown(f, elems, mg) && MendedTo(dl[..], l, elems, mg, max, maxCode)
    ensures RarerLonger(Used(f, elems), f, dl[..])
  {
    hide BestCode, Used, Sum, Forcing, LargestUsed, BitCosts, Fathers, Built, Merged, TopDown, Cheapest, TreeDone,
         Xbits, Whole, RarerLonger, MendedTo, Grown;
    ghost var f0, o0, s0 := fc[..], w.optLen, w.staticLen;
    ghost var forced;
    maxCode, f, mg, forced := MakeTree(w, fc, dl, elems, stat);
    BuiltGrown(w.heap[..], w.heapMax, fc[..], dl[..], f, elems, mg);
    ghost var o1, s1 := w.optLen, w.staticLen;
    l := CodeTree(w, fc, dl, elems, max, maxCode, extra, base, stat, f, mg);
    ForcedOff(f, f0, elems, forced, o1 - o0, s1 - s0, stat, dl[..], extra, base);
    DoneForced(f0, f, fc[..], dl[..], elems, max, maxCode, forced, o1 - o0, s1 - s0, stat);
    CheapestIsBest(Used(f, elems), f, dl[..]);
  }

  lemma {:induction false} BuiltGrown(h: seq<nat>, max: nat, g: seq<nat>, dl: seq<nat>, f: seq<nat>, elems: nat,
                                      mg: seq<nat>)
    requires elems <= |f| && Built(h, max, g, dl, f, Used(f, elems), elems, mg)
    ensures Grown(f, elems, mg)
  {
    hide Greedy, Weighs, Merged, AtLeast, Used;
  }

  lemma {:induction false} DoneForced(f0: seq<nat>, f: seq<nat>, fc: seq<nat>, dl: seq<nat>, elems: nat, max: nat,
                                      maxCode: nat,
                                      forced: set<nat>, opt: int, st: int, stat: seq<nat>)
    requires Forcing(f, f0, elems, forced, opt, st, stat) && TreeDone(f, fc, dl, elems, max, maxCode)
    ensures TreeDone(f0, fc, dl, elems, max, maxCode)
  {
    hide TreesCodes.Coded, Complete, Sum;
    forall x | 0 <= x < elems && f0[x] != 0 ensures f[x] != 0 {
      assert x in Used(f0, elems);
    }
  }

  /** The second half of build_tree: lengths and codes. */
  method CodeTree(w: Work, fc: array<nat>, dl: array<nat>, elems: nat, max: nat, maxCode: nat, extra: seq<nat>,
                  base: nat, stat: seq<nat>,
                  ghost f: seq<nat>, ghost mg: seq<nat>) returns (ghost l: seq<nat>)
    requires w.Shaped() && fc.Length == dl.Length == |f| == 2 * elems + 1 && {w.heap, w.depth, w.blCount} !! {fc, dl}
    requires fc != dl
    requires Built(w.heap[..], w.heapMax, fc[..], dl[..], f, Used(f, elems), elems, mg)
    requires 3 <= elems <= Pow2(max) && 1 <= max <= 15 && (stat == [] || |stat| >= elems)
    requires LargestUsed(Used(f, elems), maxCode, elems) && 1 <= maxCode < elems
    requires forall x :: 0 <= x < elems && x !in Used(f, elems) ==> dl[x] == 0
    modifies w`optLen, w`staticLen, w.blCount, fc, dl
    ensures TreeDone(f, fc[..], dl[..], elems, max, maxCode)
    ensures w.optLen == old(w.optLen) + Sum(Used(f, elems), BitCosts(f, dl[..], extra, base))
    ensures w.staticLen
            == old(w.staticLen) + if stat == [] then 0 else Sum(Used(f, elems), BitCosts(f, stat, extra, base))
    ensures |l| == fc.Length && Whole(Used(f, elems), elems, mg) && TopDown(l, elems, mg, max)
    ensures Fathers(l, elems, mg, max, 0) == 0 ==> Cheapest(Used(f, elems), f, dl[..])
    ensures |Used(f, elems)| == 2 ==> forall x :: x in Used(f, elems) ==> x < dl.Length && dl[x] == 1
    ensures RarerLonger(Used(f, elems), f, dl[..]) && MendedTo(dl[..], l, elems, mg, max, maxCode)
  {
    hide Used, Sum, LargestUsed, BitCosts, Fathers, Built, TopDown, Lengthened, Cheapest, TreesCodes.Coded, Whole,
         TreeDone, RarerLonger, MendedTo, InOrder, Greedy, Mended, CountsOf;
    ghost var u := Used(f, elems);
    UsedSmall(f, elems, maxCode, u);
    BuiltParts(w.heap[..], w.heapMax, fc[..], dl[..], f, u, elems, mg);
    l := GenBitlen(w, fc, dl, maxCode, max, extra, base, stat, f, u, elems, mg);
    CostsKept(u, fc[..], f, dl[..], extra, base, stat);
    LengthenedParts(w.blCount[..], u, dl[..], max, maxCode);
    GenCodes(fc, dl, maxCode, w.blCount[..]);
    DoneParts(f, fc[..], dl[..], elems, max, maxCode, u, w.blCount[..]);
    MendedCounts(w.blCount[..], u, dl[..], l, elems, mg, max, maxCode);
  }

  /** The symbols with each length are as many as the first lengths have, mended for each father at
      the limit. */
  ghost predicate MendedTo(dl: seq<nat>, l: seq<nat>, elems: nat, mg: seq<nat>, max: nat, maxCode: nat) {
    && maxCode < |dl| == |l| && 1 <= max <= 15 && |mg| % 2 == 0 && elems + |mg| / 2 <= |l|
    && var c := Mended(CountsOf(l[..maxCode + 1]), max, Fathers(l, elems, mg, max, 0));
       forall b :: 1 <= b <= 15 ==> Count(dl[..maxCode + 1], b) == c[b]
  }

  lemma {:induction false} MendedCounts(c: seq<nat>, u: set<nat>, dl: seq<nat>, l: seq<nat>, elems: nat, mg: seq<nat>,
                                        max: nat, maxCode: nat)
    requires Lengthened(c, u, dl, max, maxCode) && |l| == |dl| && 1 <= max <= 15 && |mg| % 2 == 0
    requires elems + |mg| / 2 <= |l| && maxCode < |l|
    requires c == Mended(CountsOf(l[..maxCode + 1]), max, Fathers(l, elems, mg, max, 0))
    ensures MendedTo(dl, l, elems, mg, max, maxCode)
  {
    hide Mended, CountsOf, Fathers, Count, Spare;
  }

  /** The tree was grown from these frequencies by always joining the first two nodes. */
  ghost predicate Grown(f: seq<nat>, elems: nat, mg: seq<nat>) {
    elems <= |f| && exists g: seq<nat> ::
      |g| == |f| && Weighs(g, elems, mg) && Greedy(g, Used(f, elems), elems, mg)
      && forall i :: 0 <= i < elems ==> g[i] == f[i]
  }

  /** The first half of build_tree: the tree. */
  method MakeTree(w: Work, fc: array<nat>, dl: array<nat>, elems: nat, stat: seq<nat>)
    returns (maxCode: nat, ghost f: seq<nat>, ghost mg: seq<nat>, ghost forced: set<nat>)
    requires w.Shaped() && fc.Length == dl.Length == 2 * elems + 1 <= HEAP_SIZE
    requires {w.heap, w.depth, w.blCount} !! {fc, dl} && fc != dl
    requires 3 <= elems && (stat == [] || |stat| >= elems) && Sum(Used(fc[..], elems), fc[..]) + 2 < WORD
    modifies w`heapLen, w`heapMax, w`optLen, w`staticLen, w.heap, w.depth, fc, dl
    ensures Forcing(f, old(fc[..]), elems, forced, w.optLen - old(w.optLen), w.staticLen - old(w.staticLen), stat)
    ensures |f| == fc.Length && LargestUsed(Used(f, elems), maxCode, elems) && 1 <= maxCode < elems
    ensures Built(w.heap[..], w.heapMax, fc[..], dl[..], f, Used(f, elems), elems, mg)
    ensures forall x :: 0 <= x < elems && x !in Used(f, elems) ==> dl[x] == 0
    ensures |Used(old(fc[..]), elems)| >= 2 ==> f == old(fc[..])
    ensures forced != {} ==> |Used(f, elems)| == 2
    ensures forced <= Used(f, elems)
  {
    hide Used, Sum, Forcing, LargestUsed, Listing, Combining, Built, Merged;
    ghost var f0, o0, s0 := fc[..], w.optLen, w.staticLen;
    var mc := InitHeap(w, fc, dl, elems);
    ghost var dl0 := dl[..];
    UsedIs(f0, elems);
    maxCode, forced := ForceTwo(w, fc, dl, elems, mc, stat);
    f := fc[..];
    ghost var u := Used(f, elems);
    ForcedFacts(f, f0, elems, forced, w.optLen - o0, w.staticLen - s0, stat, dl0, maxCode, w.heap[..], w.depth[..],
                w.heapLen);
    Heapify(w, fc, u, elems);
    mg := CombineAll(w, fc, dl, elems, u);
    BuiltParts(w.heap[..], w.heapMax, fc[..], dl[..], f, u, elems, mg);
    forall x | 0 <= x < elems && x !in u ensures dl[x] == 0 { NotASon(u, elems, mg, x); }
  }

  lemma {:induction false} UsedIs(f: seq<nat>, elems: nat)
    requires elems <= |f|
    ensures forall x :: 0 <= x < elems ==> (x in Used(f, elems) <==> f[x] != 0)
  {
  }

  lemma {:induction false} ForcedFacts(f: seq<nat>, f0: seq<nat>, elems: nat, forced: set<nat>, opt: int, st: int,
                                       stat: seq<nat>, dl: seq<nat>, maxCode: nat,
                                       h: seq<nat>, depth: seq<nat>, len: nat)
    requires Forcing(f, f0, elems, forced, opt, st, stat) && LargestUsed(Used(f, elems), maxCode, elems) && |dl| == |f|
    requires Listing(h, depth, len, Used(f, elems), elems) && (forced != {} ==> len == 2) && len >= 2
    requires Sum(Used(f0, elems), f0) + 2 < WORD && forall x :: 0 <= x < elems && f0[x] == 0 ==> dl[x] == 0
    ensures |Used(f, elems)| == len && Sum(Used(f, elems), f) < WORD && 1 <= maxCode < elems
    ensures forall x :: 0 <= x < elems && x !in Used(f, elems) ==> dl[x] == 0
    ensures |Used(f0, elems)| >= 2 ==> f == f0
    ensures forced != {} ==> |Used(f, elems)| == 2
    ensures forced <= Used(f, elems)
  {
    hide Sum;
    SumUnion(Used(f0, elems), forced, f);
    SumSame(Used(f0, elems), Used(f0, elems), f, f0);
    SumCard(forced, f);
    assert |Used(f, elems)| == |Used(f0, elems)| + |forced|;
    CardBelow(Used(f, elems), maxCode + 1);
  }

  lemma {:induction false} UsedSmall(f: seq<nat>, elems: nat, maxCode: nat, u: set<nat>)
    requires elems <= |f| && u == Used(f, elems) && LargestUsed(u, maxCode, elems)
    ensures (forall x :: x in u ==> x <= maxCode && x < elems) && |u| <= elems
  {
    UsedSize(f, elems);
  }

  lemma {:induction false} CostsKept(u: set<nat>, fb: seq<nat>, f: seq<nat>, dl: seq<nat>, extra: seq<nat>, base: nat,
                                     stat: seq<nat>)
    requires |fb| == |f| == |dl| && forall x :: x in u ==> x < |f| && fb[x] == f[x]
    ensures Sum(u, BitCosts(fb, dl, extra, base)) == Sum(u, BitCosts(f, dl, extra, base))
    ensures Sum(u, BitCosts(fb, stat, extra, base)) == Sum(u, BitCosts(f, stat, extra, base))
  {
    hide Sum;
    SumSame(u, u, BitCosts(fb, dl, extra, base), BitCosts(f, dl, extra, base));
    SumSame(u, u, BitCosts(fb, stat, extra, base), BitCosts(f, stat, extra, base));
  }

  lemma {:induction false} LengthenedParts(c: seq<nat>, u: set<nat>, dl: seq<nat>, max: nat, maxCode: nat)
    requires Lengthened(c, u, dl, max, maxCode) && 1 <= max <= 15
    ensures maxCode < |dl| && NoneAbove(dl[..maxCode + 1], 15) && Spare(dl[..maxCode + 1], 15) >= 0
    ensures |c| == 16 && c[0] == 0 && forall b :: 1 <= b <= 15 ==> c[b] == Count(dl[..maxCode + 1], b)
  {
    hide Spare, Count;
    SpareStays(dl[..maxCode + 1], max, 15);
  }

  /** Beyond the longest code nothing is left over. */
  lemma {:induction false} SpareStays(ls: seq<nat>, max: nat, b: nat)
    requires Complete(ls, max) && max <= b
    ensures Spare(ls, b) == 0
  {
    if b > max {
      SpareStays(ls, max, b - 1);
      CountNone(ls, max, b);
    }
  }

  lemma {:induction false} DoneParts(f: seq<nat>, fc: seq<nat>, dl: seq<nat>, elems: nat, max: nat, maxCode: nat,
                                     u: set<nat>, c: seq<nat>)
    requires elems <= |f| && u == Used(f, elems) && LargestUsed(u, maxCode, elems) && 1 <= maxCode && 1 <= max <= 15
    requires Lengthened(c, u, dl, max, maxCode) && TreesCodes.Coded(fc, dl[..maxCode + 1], maxCode + 1)
    requires |fc| == |dl| == |f|
    requires forall x :: 0 <= x < elems && x !in u ==> dl[x] == 0
    ensures TreeDone(f, fc, dl, elems, max, maxCode)
  {
    hide TreesCodes.Coded, Complete, Sum, Count;
    assert maxCode in u;
    forall x | 0 <= x < elems && f[x] != 0 ensures x <= maxCode && dl[x] >= 1 { assert x in u; }
    forall x | maxCode < x < elems ensures dl[x] == 0 { assert x !in u; }
  }
}
