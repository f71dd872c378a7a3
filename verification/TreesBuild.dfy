/** The combining of nodes in build_tree of archive/gzip/trees.c. */
module TreesBuild {
  import opened BitString
  import opened TreesHeap
  import opened Huffman

  const HEAP_SIZE: nat := 573

  /** What the merges so far have made of the leaves: mg lists the sons of node elems, then
      those of node elems + 1 and so on; a holds the nodes without a father. */
  ghost predicate Merged(leaves: set<nat>, elems: nat, mg: seq<nat>, a: set<nat>) {
    && |mg| % 2 == 0
    && (forall x :: x in leaves ==> x < elems)
    && (forall i :: 0 <= i < |mg| ==> SonOk(leaves, elems, mg, i))
    && (forall i, j :: 0 <= i < j < |mg| ==> mg[i] != mg[j])
    && (forall x :: x in a <==> IsNode(leaves, elems, mg, x) && x !in mg)
  }

  /** A leaf, or a node made so far. */
  ghost predicate IsNode(leaves: set<nat>, elems: nat, mg: seq<nat>, x: nat) {
    x in leaves || elems <= x < elems + |mg| / 2
  }

  /** Sons come before their father. */
  ghost predicate SonOk(leaves: set<nat>, elems: nat, mg: seq<nat>, i: nat)
    requires i < |mg|
  {
    mg[i] in leaves || elems <= mg[i] < elems + i / 2
  }

  /** A father weighs as much as his sons. */
  ghost predicate Weighs(f: seq<nat>, elems: nat, mg: seq<nat>) {
    forall t: nat :: 2 * t + 1 < |mg| ==> FatherWeighs(f, elems, mg, t)
  }

  ghost predicate FatherWeighs(f: seq<nat>, elems: nat, mg: seq<nat>, t: nat)
    requires 2 * t + 1 < |mg|
  {
    elems + t < |f| && mg[2 * t] < |f| && mg[2 * t + 1] < |f| && f[elems + t] == f[mg[2 * t]] + f[mg[2 * t + 1]]
  }

  /** The merged weights: what the lengths of the tree cost. */
  function MergeSum(f: seq<nat>, elems: nat, n: nat): nat {
    if n == 0 then 0 else MergeSum(f, elems, n - 1) + (if elems + n - 1 < |f| then f[elems + n - 1] else 0)
  }

  lemma {:induction false} MergeSumSame(f: seq<nat>, g: seq<nat>, elems: nat, n: nat)
    requires elems + n <= |f| == |g| && forall i :: elems <= i < elems + n ==> f[i] == g[i]
    ensures MergeSum(f, elems, n) == MergeSum(g, elems, n)
  {
    if n > 0 { MergeSumSame(f, g, elems, n - 1); }
  }

  /** How deep a node is: leaves 0, a father one more than the deeper of his sons, in 8 bits. */
  function NodeDepth(elems: nat, mg: seq<nat>, x: nat): nat {
    if x < elems || 2 * (x - elems) + 1 >= |mg| then 0
    else
      var n, m := mg[2 * (x - elems)], mg[2 * (x - elems) + 1];
      if n >= x || m >= x then 0
      else
        var i, j := NodeDepth(elems, mg, n), NodeDepth(elems, mg, m);
        (1 + if i >= j then i else j) % 256
  }

  /** x is no more frequent than y, and if it is as frequent, no deeper. */
  ghost predicate Comes(f: seq<nat>, elems: nat, mg: seq<nat>, x: nat, y: nat) {
    && x < |f| && y < |f|
    && (f[x] < f[y] || (f[x] == f[y] && NodeDepth(elems, mg, x) <= NodeDepth(elems, mg, y)))
  }

  /** x and y, in this order, come before all others of a. */
  ghost predicate Firsts(f: seq<nat>, elems: nat, mg: seq<nat>, a: set<nat>, x: nat, y: nat) {
    && x in a && y in a && x != y
    && (forall z :: z in a ==> Comes(f, elems, mg, x, z) && (z != x ==> Comes(f, elems, mg, y, z)))
  }

  /** The sons of each node made were, when it was made, the first two of the nodes without a
      father. */
  ghost predicate Greedy(f: seq<nat>, leaves: set<nat>, elems: nat, mg: seq<nat>) {
    |mg| >= 2 ==>
      var k := |mg| - 2;
      && Greedy(f, leaves, elems, mg[..k])
      && exists a :: Merged(leaves, elems, mg[..k], a) && Firsts(f, elems, mg[..k], a, mg[k], mg[k + 1])
  }

  /** The depths kept of the nodes a. */
  ghost predicate Deep(depth: seq<nat>, elems: nat, mg: seq<nat>, a: set<nat>) {
    forall x :: x in a ==> x < |depth| && depth[x] == NodeDepth(elems, mg, x)
  }

  /** What is made of nodes later does not make them deeper. */
  lemma {:induction false} DepthKept(leaves: set<nat>, elems: nat, mg: seq<nat>, more: seq<nat>, x: nat)
    requires |mg| % 2 == 0 && IsNode(leaves, elems, mg, x) && (forall y :: y in leaves ==> y < elems)
    requires forall i :: 0 <= i < |mg| ==> SonOk(leaves, elems, mg, i)
    ensures NodeDepth(elems, mg + more, x) == NodeDepth(elems, mg, x)
    decreases x
  {
    if x >= elems {
      var t := x - elems;
      assert SonOk(leaves, elems, mg, 2 * t) && SonOk(leaves, elems, mg, 2 * t + 1);
      DepthKept(leaves, elems, mg, more, mg[2 * t]);
      DepthKept(leaves, elems, mg, more, mg[2 * t + 1]);
    }
  }

  /** The depth of a new node. */
  lemma {:induction false} DeepMore(depth: seq<nat>, leaves: set<nat>, elems: nat, mg: seq<nat>, a: set<nat>, n: nat,
                                    m: nat, v: nat)
    requires Deep(depth, elems, mg, a) && Merged(leaves, elems, mg, a) && n in a && m in a
    requires elems + |mg| / 2 < |depth| && elems + |mg| / 2 !in a && n < |depth| && m < |depth|
    requires v == (1 + if depth[n] >= depth[m] then depth[n] else depth[m]) % 256
    ensures Deep(depth[elems + |mg| / 2 := v], elems, mg + [n] + [m], a - {n} - {m} + {elems + |mg| / 2})
  {
    var z, g := elems + |mg| / 2, mg + [n] + [m];
    assert g == mg + ([n] + [m]) && g[|mg|] == n && g[|mg| + 1] == m;
    forall x | x in a ensures NodeDepth(elems, g, x) == NodeDepth(elems, mg, x) {
      DepthKept(leaves, elems, mg, [n] + [m], x);
    }
  }

  /** Comparing nodes that were there before is not changed by a new one. */
  lemma {:induction false} GreedyMore(f: seq<nat>, leaves: set<nat>, elems: nat, mg: seq<nat>, a: set<nat>, n: nat,
                                      m: nat, v: nat)
    requires Greedy(f, leaves, elems, mg) && Merged(leaves, elems, mg, a) && Firsts(f, elems, mg, a, n, m)
    requires elems + |mg| / 2 < |f|
    ensures Greedy(f[elems + |mg| / 2 := v], leaves, elems, mg + [n] + [m])
  {
    hide Merged, Comes;
    var z, g := elems + |mg| / 2, mg + [n] + [m];
    assert g[..|mg|] == mg;
    GreedySame(f, f[z := v], leaves, elems, mg, z);
    assert z !in a by { NewNotIn(leaves, elems, mg, a); }
    FirstsSame(f, f[z := v], elems, mg, a, n, m, z);
  }

  lemma {:induction false} FirstsLeast(f: seq<nat>, elems: nat, mg: seq<nat>, a: set<nat>, n: nat, m: nat)
    requires Firsts(f, elems, mg, a, n, m)
    ensures n in a && m in a && n != m
    ensures forall x :: x in a ==> x < |f| && f[n] <= f[x]
    ensures forall x :: x in a && x != n ==> f[m] <= f[x]
  {
    hide NodeDepth;
  }

  /** The nodes that have a father stand in the order of their frequencies. */
  ghost predicate InOrder(f: seq<nat>, mg: seq<nat>) {
    forall i, j :: 0 <= i < j < |mg| && mg[i] < |f| && mg[j] < |f| ==> f[mg[i]] <= f[mg[j]]
  }

  ghost predicate Lower(f: seq<nat>, mg: seq<nat>, a: set<nat>) {
    forall i, x :: 0 <= i < |mg| && x in a && mg[i] < |f| && x < |f| ==> f[mg[i]] <= f[x]
  }

  /** They do, for what is made weighs no less than what was taken. */
  lemma {:induction false} GreedyOrder(f: seq<nat>, leaves: set<nat>, elems: nat, mg: seq<nat>, a: set<nat>)
    requires Greedy(f, leaves, elems, mg) && Merged(leaves, elems, mg, a) && Weighs(f, elems, mg)
    ensures InOrder(f, mg) && Lower(f, mg, a)
    decreases |mg|
  {
    hide Merged, Firsts, Weighs, InOrder, Lower;
    if |mg| >= 2 {
      var k := |mg| - 2;
      var n, m := mg[k], mg[k + 1];
      var b :| Merged(leaves, elems, mg[..k], b) && Firsts(f, elems, mg[..k], b, n, m);
      WeighsLess(f, elems, mg, k);
      GreedyOrder(f, leaves, elems, mg[..k], b);
      FirstsLeast(f, elems, mg[..k], b, n, m);
      LastWeighs(f, leaves, elems, mg, a);
      forall x | x in a ensures (x in b && x != n) || x == elems + k / 2 {
        BeforeOrNew(leaves, elems, mg, a, b, x);
      }
      assert mg == mg[..k] + [n] + [m];
      OrderStep(f, mg[..k], a, b, n, m, elems + k / 2);
    } else {
      OrderNone(f, leaves, elems, mg, a);
    }
  }

  lemma {:induction false} OrderNone(f: seq<nat>, leaves: set<nat>, elems: nat, mg: seq<nat>, a: set<nat>)
    requires Merged(leaves, elems, mg, a) && |mg| < 2
    ensures InOrder(f, mg) && Lower(f, mg, a)
  {
  }

  lemma {:induction false} LastWeighs(f: seq<nat>, leaves: set<nat>, elems: nat, mg: seq<nat>, a: set<nat>)
    requires Merged(leaves, elems, mg, a) && Weighs(f, elems, mg) && |mg| >= 2
    ensures var k := |mg| - 2;
            k % 2 == 0 && elems + k / 2 < |f| && mg[k] < |f| && mg[k + 1] < |f|
            && f[elems + k / 2] == f[mg[k]] + f[mg[k + 1]]
  {
    assert FatherWeighs(f, elems, mg, (|mg| - 2) / 2);
  }

  lemma {:induction false} OrderStep(f: seq<nat>, mg: seq<nat>, a: set<nat>, b: set<nat>, n: nat, m: nat, z: nat)
    requires InOrder(f, mg) && Lower(f, mg, b) && n in b && m in b && n != m && n < |f| && m < |f| && z < |f|
    requires (forall x :: x in b ==> x < |f| && f[n] <= f[x]) && (forall x :: x in b && x != n ==> f[m] <= f[x])
    requires f[z] == f[n] + f[m] && forall x :: x in a ==> (x in b && x != n) || x == z
    ensures InOrder(f, mg + [n] + [m]) && Lower(f, mg + [n] + [m], a)
  {
  }

  lemma {:induction false} WeighsLess(f: seq<nat>, elems: nat, mg: seq<nat>, k: nat)
    requires Weighs(f, elems, mg) && k <= |mg|
    ensures Weighs(f, elems, mg[..k])
  {
    forall t: nat | 2 * t + 1 < k ensures FatherWeighs(f, elems, mg[..k], t) { assert FatherWeighs(f, elems, mg, t); }
  }

  lemma {:induction false} BeforeOrNew(leaves: set<nat>, elems: nat, mg: seq<nat>, a: set<nat>, b: set<nat>, x: nat)
    requires Merged(leaves, elems, mg, a) && |mg| >= 2 && Merged(leaves, elems, mg[..|mg| - 2], b) && x in a
    ensures (x in b && x != mg[|mg| - 2]) || x == elems + (|mg| - 2) / 2
  {
    var k := |mg| - 2;
    assert IsNode(leaves, elems, mg, x) && x !in mg;
    if x in mg[..k] { assert x in mg; }
    assert x in b <==> IsNode(leaves, elems, mg[..k], x) && x !in mg[..k];
  }

  lemma {:induction false} NewNotIn(leaves: set<nat>, elems: nat, mg: seq<nat>, a: set<nat>)
    requires Merged(leaves, elems, mg, a)
    ensures elems + |mg| / 2 !in a && |mg| % 2 == 0
  {
  }

  lemma {:induction false} FirstsSame(f: seq<nat>, g: seq<nat>, elems: nat, mg: seq<nat>, a: set<nat>, n: nat, m: nat,
                                      z: nat)
    requires Firsts(f, elems, mg, a, n, m) && |g| == |f| && z !in a
    requires forall i :: 0 <= i < |f| && i != z ==> g[i] == f[i]
    ensures Firsts(g, elems, mg, a, n, m)
  {
    forall x | x in a ensures Comes(g, elems, mg, n, x) && (x != n ==> Comes(g, elems, mg, m, x)) {
      assert Comes(f, elems, mg, n, x) && (x != n ==> Comes(f, elems, mg, m, x));
    }
  }

  lemma {:induction false} GreedySame(f: seq<nat>, g: seq<nat>, leaves: set<nat>, elems: nat, mg: seq<nat>, z: nat)
    requires Greedy(f, leaves, elems, mg) && |g| == |f| && z >= elems + |mg| / 2
    requires forall i :: 0 <= i < |f| && i != z ==> g[i] == f[i]
    ensures Greedy(g, leaves, elems, mg)
    decreases |mg|
  {
    if |mg| >= 2 {
      var k := |mg| - 2;
      GreedySame(f, g, leaves, elems, mg[..k], z);
      var a :| Merged(leaves, elems, mg[..k], a) && Firsts(f, elems, mg[..k], a, mg[k], mg[k + 1]);
      assert z !in a by { if z in a { assert IsNode(leaves, elems, mg[..k], z); } }
      FirstsSame(f, g, elems, mg[..k], a, mg[k], mg[k + 1], z);
    }
  }

  /** Merging two nodes of a under a new one. */
  lemma {:induction false} MergedMore(leaves: set<nat>, elems: nat, mg: seq<nat>, a: set<nat>, x: nat, y: nat)
    requires Merged(leaves, elems, mg, a) && x in a && y in a && x != y
    ensures elems + |mg| / 2 !in a && Merged(leaves, elems, mg + [x] + [y], a - {x} - {y} + {elems + |mg| / 2})
  {
    var g, b, z := mg + [x] + [y], a - {x} - {y} + {elems + |mg| / 2}, elems + |mg| / 2;
    forall i | 0 <= i < |g| ensures SonOk(leaves, elems, g, i) {
      if i < |mg| { assert SonOk(leaves, elems, mg, i); }
    }
    forall i, j | 0 <= i < j < |g| ensures g[i] != g[j] {
      assert i < |mg| ==> g[i] in mg;
    }
    forall v | v in mg ensures v != z {
      var i :| 0 <= i < |mg| && mg[i] == v;
      assert SonOk(leaves, elems, mg, i);
    }
    forall v ensures v in b <==> IsNode(leaves, elems, g, v) && v !in g {
      assert v in g <==> v in mg || v == x || v == y;
      assert v in a <==> IsNode(leaves, elems, mg, v) && v !in mg;
    }
  }

  lemma {:induction false} WeighsMore(f: seq<nat>, g: seq<nat>, leaves: set<nat>, elems: nat, mg: seq<nat>, a: set<nat>,
                                      x: nat, y: nat)
    requires Merged(leaves, elems, mg, a) && Weighs(f, elems, mg) && x in a && y in a
    requires elems + |mg| / 2 < |f| && g == f[elems + |mg| / 2 := f[x] + f[y]] && x < |f| && y < |f|
    requires x != elems + |mg| / 2 && y != elems + |mg| / 2
    ensures Weighs(g, elems, mg + [x] + [y])
  {
    var h := mg + [x] + [y];
    forall t: nat | 2 * t + 1 < |h| ensures FatherWeighs(g, elems, h, t) {
      if 2 * t + 1 < |mg| {
        assert FatherWeighs(f, elems, mg, t);
        assert SonOk(leaves, elems, mg, 2 * t) && SonOk(leaves, elems, mg, 2 * t + 1);
      }
    }
  }

  // ---------------------------------------------------------------- the arrays

  class Work {
    const heap: array<nat>
    const depth: array<nat>
    const blCount: array<nat>
    var heapLen: nat
    var heapMax: nat
    var optLen: int
    var staticLen: int

    ghost predicate Shaped()
      reads this
    {
      heap.Length == HEAP_SIZE && depth.Length == HEAP_SIZE && blCount.Length == 16 && heap != depth && heap != blCount
        && depth != blCount
    }

    constructor ()
      ensures Shaped() && fresh(heap) && fresh(depth) && fresh(blCount) && optLen == staticLen == 0
    {
      heap, depth, blCount := new nat[HEAP_SIZE], new nat[HEAP_SIZE], new nat[16];
      heapLen, heapMax, optLen, staticLen := 0, HEAP_SIZE, 0, 0;
    }
  }

  /** heap[1..heapLen] holds the nodes a, in order; the nodes mg with a father stand at the end
      of heap, the latest first. */
  ghost predicate Combining(h: seq<nat>, depth: seq<nat>, len: nat, max: nat, f: seq<nat>, leaves: set<nat>, elems: nat,
                            mg: seq<nat>, a: set<nat>) {
    && |h| == HEAP_SIZE && |depth| == HEAP_SIZE && |f| == 2 * elems + 1 <= HEAP_SIZE
    && Nodes(h, len, f, depth) && HeapFrom(h, len, f, depth, 1) && Held(h, len) == multiset(a)
    && Merged(leaves, elems, mg, a) && Weighs(f, elems, mg)
    && |leaves| <= elems && len + |mg| / 2 == |leaves| && max == HEAP_SIZE - |mg|
    && forall i :: 0 <= i < |mg| ==> h[HEAP_SIZE - 1 - i] == mg[i]
  }

  lemma {:induction false} HeldHas(h: seq<nat>, len: nat, a: set<nat>, i: nat)
    requires len < |h| && Held(h, len) == multiset(a) && 1 <= i <= len
    ensures h[i] in a
  {
    assert h[1..len + 1][i - 1] == h[i];
    assert h[i] in Held(h, len);
  }

  lemma {:induction false} HeldFind(h: seq<nat>, len: nat, a: set<nat>, x: nat) returns (i: nat)
    requires len < |h| && Held(h, len) == multiset(a) && x in a
    ensures 1 <= i <= len && h[i] == x
  {
    assert x in Held(h, len);
    assert x in h[1..len + 1];
    var j :| 0 <= j < |h[1..len + 1]| && h[1..len + 1][j] == x;
    i := j + 1;
  }

  lemma {:induction false} HeldSize(h: seq<nat>, len: nat, a: set<nat>)
    requires len < |h| && Held(h, len) == multiset(a)
    ensures |a| == len
  {
    assert |Held(h, len)| == len;
  }

  /** The first node in the heap is the least frequent, and of those as frequent none is less deep. */
  lemma {:induction false} FirstLeast(h: seq<nat>, depth: seq<nat>, len: nat, f: seq<nat>, a: set<nat>)
    requires Nodes(h, len, f, depth) && HeapFrom(h, len, f, depth, 1) && Held(h, len) == multiset(a) && len >= 1
    ensures h[1] in a && forall w :: w in a ==> w < |f| && w < |depth| && f[h[1]] <= f[w]
    ensures forall w :: w in a && w < |f| && f[h[1]] == f[w] && w < |depth| ==> depth[h[1]] <= depth[w]
  {
    HeldHas(h, len, a, 1);
    forall w | w in a
      ensures w < |f| && w < |depth| && f[h[1]] <= f[w] && (f[h[1]] == f[w] ==> depth[h[1]] <= depth[w])
    {
      var i := HeldFind(h, len, a, w);
      RootLeast(h, len, f, depth, i);
    }
  }

  lemma {:induction false} HeldDrop(h: seq<nat>, len: nat, a: set<nat>)
    requires 1 <= len < |h| && Held(h, len) == multiset(a)
    ensures Held(h[1 := h[len]], len - 1) == multiset(a - {h[1]})
  {
    var g := h[1 := h[len]];
    HeldHas(h, len, a, 1);
    var s := h[1..len + 1];
    if len == 1 {
      assert s == [h[1]];
      assert g[1..1] == [];
    } else {
      assert s == [h[1]] + h[2..len] + [h[len]];
      assert g[1..len] == [h[len]] + h[2..len];
      assert multiset(s) == multiset(g[1..len]) + multiset{h[1]};
    }
    assert multiset(a) - multiset{h[1]} == multiset(a - {h[1]});
  }

  /** Changing what is in the first place does not disturb the sons below. */
  lemma {:induction false} BelowFirst(h: seq<nat>, g: seq<nat>, len: nat, n: nat, f: seq<nat>, depth: seq<nat>)
    requires Nodes(h, len, f, depth) && HeapFrom(h, len, f, depth, 1) && n <= len
    requires |g| == |h| && Nodes(g, n, f, depth) && forall i :: 2 <= i <= n ==> g[i] == h[i]
    ensures HeapFrom(g, n, f, depth, 2)
  {
    forall i: nat | 2 <= i ensures FatherOk(g, n, f, depth, i) {
      assert FatherOk(h, len, f, depth, i);
    }
  }

  /** Frequencies and depths of nodes that are not in the heap do not matter. */
  lemma {:induction false} OutsideHeap(h: seq<nat>, len: nat, f: seq<nat>, f': seq<nat>, depth: seq<nat>,
                                       depth': seq<nat>, k: nat)
    requires Nodes(h, len, f, depth) && HeapFrom(h, len, f, depth, k) && |f| == |f'| && |depth| == |depth'| && k >= 1
    requires forall i :: k <= i <= len ==> f'[h[i]] == f[h[i]] && depth'[h[i]] == depth[h[i]]
    ensures Nodes(h, len, f', depth') && HeapFrom(h, len, f', depth', k)
  {
    forall i: nat | k <= i ensures FatherOk(h, len, f', depth', i) {
      assert FatherOk(h, len, f, depth, i);
    }
  }

  /** What lies beyond the heap does not matter to it. */
  lemma {:induction false} BeyondHeap(h: seq<nat>, g: seq<nat>, len: nat, f: seq<nat>, depth: seq<nat>)
    requires Nodes(h, len, f, depth) && HeapFrom(h, len, f, depth, 1) && |g| == |h|
    requires forall i :: 1 <= i <= len ==> g[i] == h[i]
    ensures Nodes(g, len, f, depth) && HeapFrom(g, len, f, depth, 1) && Held(g, len) == Held(h, len)
  {
    assert g[1..len + 1] == h[1..len + 1];
    forall i: nat | 1 <= i ensures FatherOk(g, len, f, depth, i) {
      assert FatherOk(h, len, f, depth, i);
    }
  }

  /** pqremove: take the least frequent node out of the heap. */
  method PqRemove(w: Work, fc: array<nat>, ghost a: set<nat>) returns (top: nat)
    requires w.Shaped() && w.heap != fc && w.depth != fc && w.heapLen >= 2
    requires Nodes(w.heap[..], w.heapLen, fc[..], w.depth[..])
    requires HeapFrom(w.heap[..], w.heapLen, fc[..], w.depth[..], 1)
    requires Held(w.heap[..], w.heapLen) == multiset(a)
    modifies w`heapLen, w.heap
    ensures w.heapLen == old(w.heapLen) - 1 && top in a && top < fc.Length
    ensures forall x :: x in a ==> x < fc.Length && x < HEAP_SIZE && fc[top] <= fc[x]
    ensures forall x :: x in a && x < fc.Length && fc[top] == fc[x] && x < HEAP_SIZE ==> w.depth[top] <= w.depth[x]
    ensures Nodes(w.heap[..], w.heapLen, fc[..], w.depth[..]) && HeapFrom(w.heap[..], w.heapLen, fc[..], w.depth[..], 1)
    ensures Held(w.heap[..], w.heapLen) == multiset(a - {top})
    ensures w.heap[old(w.heapLen) + 1..] == old(w.heap[w.heapLen + 1..])
  {
    hide HeapFrom, Held;
    ghost var h0, n := w.heap[..], w.heapLen;
    FirstLeast(h0, w.depth[..], n, fc[..], a);
    HeldDrop(h0, n, a);
    top := w.heap[1];
    w.heap[1] := w.heap[w.heapLen];
    w.heapLen := w.heapLen - 1;
    assert w.heap[..] == h0[1 := h0[n]];
    BelowFirst(h0, w.heap[..], n, n - 1, fc[..], w.depth[..]);
    ghost var h1 := w.heap[..];
    PqDownHeap(w.heap, w.heapLen, 1, fc, w.depth);
    assert w.heap[n + 1..] == w.heap[n..][1..] == h1[n..][1..] == h0[n + 1..];
  }

  lemma {:induction false} ReplaceFirst(h: seq<nat>, len: nat, a: set<nat>, z: nat)
    requires 1 <= len < |h| && Held(h, len) == multiset(a) && z !in a
    ensures h[1] in a && Held(h[1 := z], len) == multiset(a - {h[1]} + {z})
  {
    HeldHas(h, len, a, 1);
    HeldUpdate(h, len, 1, z);
    assert multiset(a) - multiset{h[1]} + multiset{z} == multiset(a - {h[1]} + {z});
  }

  /** Take out the least frequent node and see the next one; both go to the end of heap. */
  method TakeTwo(w: Work, fc: array<nat>, ghost a: set<nat>) returns (n: nat, m: nat)
    requires w.Shaped() && w.heap != fc && w.depth != fc && w.heapLen >= 2 && w.heapLen + 2 < w.heapMax <= HEAP_SIZE
    requires Nodes(w.heap[..], w.heapLen, fc[..], w.depth[..])
    requires HeapFrom(w.heap[..], w.heapLen, fc[..], w.depth[..], 1)
    requires Held(w.heap[..], w.heapLen) == multiset(a)
    modifies w`heapLen, w`heapMax, w.heap
    ensures w.heapLen == old(w.heapLen) - 1 && w.heapMax == old(w.heapMax) - 2
    ensures n in a && m in a && n != m && n < fc.Length && m < fc.Length && w.heap[1] == m
    ensures forall x :: x in a ==> x < fc.Length && x < HEAP_SIZE && fc[n] <= fc[x]
    ensures forall x :: x in a && x != n ==> fc[m] <= fc[x]
    ensures forall x :: x in a && fc[n] == fc[x] ==> w.depth[n] <= w.depth[x]
    ensures forall x :: x in a && x != n && fc[m] == fc[x] ==> w.depth[m] <= w.depth[x]
    ensures Nodes(w.heap[..], w.heapLen, fc[..], w.depth[..]) && HeapFrom(w.heap[..], w.heapLen, fc[..], w.depth[..], 1)
    ensures Held(w.heap[..], w.heapLen) == multiset(a - {n})
    ensures w.heap[w.heapMax] == m && w.heap[w.heapMax + 1] == n && w.heap[old(w.heapMax)..] == old(w.heap[w.heapMax..])
  {
    hide HeapFrom, Held;
    ghost var h0, top := w.heap[..], w.heapMax;
    n := PqRemove(w, fc, a);
    ghost var h1, b := w.heap[..], a - {n};
    FirstLeast(h1, w.depth[..], w.heapLen, fc[..], b);
    m := w.heap[1];
    w.heapMax := w.heapMax - 1;
    w.heap[w.heapMax] := n;
    w.heapMax := w.heapMax - 1;
    w.heap[w.heapMax] := m;
    BeyondHeap(h1, w.heap[..], w.heapLen, fc[..], w.depth[..]);
    SameTail(h0, h1, w.heapLen + 2, top);
    assert w.heap[top..] == h1[top..];
  }

  lemma {:induction false} SameTail(h: seq<nat>, g: seq<nat>, i: nat, j: nat)
    requires i <= j <= |h| == |g| && h[i..] == g[i..]
    ensures h[j..] == g[j..]
  {
    assert h[j..] == h[i..][j - i..] && g[j..] == g[i..][j - i..];
  }

  /** In terms of the tree: they are the first two. */
  method TakeFirsts(w: Work, fc: array<nat>, node: nat, ghost elems: nat, ghost leaves: set<nat>, ghost mg: seq<nat>,
                    ghost a: set<nat>)
    returns (n: nat, m: nat, ghost v: nat)
    requires Merged(leaves, elems, mg, a) && node == elems + |mg| / 2 < HEAP_SIZE && node !in a
    requires w.Shaped() && w.heap != fc && w.depth != fc && w.heapLen >= 2 && w.heapLen + 2 < w.heapMax <= HEAP_SIZE
    requires Nodes(w.heap[..], w.heapLen, fc[..], w.depth[..])
    requires HeapFrom(w.heap[..], w.heapLen, fc[..], w.depth[..], 1)
    requires Held(w.heap[..], w.heapLen) == multiset(a) && Deep(w.depth[..], elems, mg, a)
    modifies w`heapLen, w`heapMax, w.heap
    ensures w.heapLen == old(w.heapLen) - 1 && w.heapMax == old(w.heapMax) - 2
    ensures n in a && m in a && n != m && n < fc.Length && m < fc.Length && w.heap[1] == m
    ensures n < HEAP_SIZE && m < HEAP_SIZE && Firsts(fc[..], elems, mg, a, n, m)
    ensures v == (1 + if w.depth[n] >= w.depth[m] then w.depth[n] else w.depth[m]) % 256
    ensures Deep(w.depth[..][node := v], elems, mg + [n] + [m], a - {n} - {m} + {node})
    ensures Nodes(w.heap[..], w.heapLen, fc[..], w.depth[..]) && HeapFrom(w.heap[..], w.heapLen, fc[..], w.depth[..], 1)
    ensures Held(w.heap[..], w.heapLen) == multiset(a - {n})
    ensures w.heap[w.heapMax] == m && w.heap[w.heapMax + 1] == n && w.heap[old(w.heapMax)..] == old(w.heap[w.heapMax..])
  {
    hide HeapFrom, Held, Nodes, Deep, Firsts, Merged;
    n, m := TakeTwo(w, fc, a);
    FirstTwo(fc[..], w.depth[..], elems, mg, a, n, m);
    v := (1 + if w.depth[n] >= w.depth[m] then w.depth[n] else w.depth[m]) % 256;
    DeepMore(w.depth[..], leaves, elems, mg, a, n, m, v);
  }

  /** Put the father node of n and m, which is in the first place, into that place. */
  method PutFather(w: Work, fc: array<nat>, dl: array<nat>, node: nat, n: nat, m: nat, ghost b: set<nat>, ghost v: nat)
    requires w.Shaped() && fc.Length == dl.Length && {w.heap, w.depth, w.blCount} !! {fc, dl} && fc != dl
    requires 1 <= w.heapLen < w.heapMax && node < fc.Length && node < HEAP_SIZE && n < fc.Length && m < fc.Length
    requires n < HEAP_SIZE && m < HEAP_SIZE
    requires v == (1 + if w.depth[n] >= w.depth[m] then w.depth[n] else w.depth[m]) % 256
    requires Nodes(w.heap[..], w.heapLen, fc[..], w.depth[..])
    requires HeapFrom(w.heap[..], w.heapLen, fc[..], w.depth[..], 1)
    requires Held(w.heap[..], w.heapLen) == multiset(b) && node !in b && w.heap[1] == m && fc[n] + fc[m] < WORD
    modifies w.heap, w.depth, fc, dl
    ensures fc[..] == old(fc[..])[node := old(fc[n]) + old(fc[m])]
    ensures dl[..] == old(dl[..])[n := node][m := node]
    ensures w.depth[..] == old(w.depth[..])[node := v]
    ensures Nodes(w.heap[..], w.heapLen, fc[..], w.depth[..]) && HeapFrom(w.heap[..], w.heapLen, fc[..], w.depth[..], 1)
    ensures Held(w.heap[..], w.heapLen) == multiset(b - {m} + {node})
    ensures w.heap[w.heapLen + 1..] == old(w.heap[w.heapLen + 1..])
  {
    hide HeapFrom, Held;
    ghost var h2, f0, depth0 := w.heap[..], fc[..], w.depth[..];
    fc[node] := (fc[n] + fc[m]) % WORD;
    w.depth[node] := ((if w.depth[n] >= w.depth[m] then w.depth[n] else w.depth[m]) + 1) % 256;
    dl[n] := node;
    dl[m] := node;
    ReplaceFirst(h2, w.heapLen, b, node);
    w.heap[1] := node;
    ghost var h3 := w.heap[..];
    assert h3 == h2[1 := node];
    NewFirst(h2, h3, w.heapLen, f0, fc[..], depth0, w.depth[..], b, node);
    PqDownHeap(w.heap, w.heapLen, 1, fc, w.depth);
    assert w.heap[w.heapLen + 1..] == h3[w.heapLen + 1..] == h2[w.heapLen + 1..];
  }

  /** No two frequencies overrun a word. */
  ghost predicate PairsFit(a: set<nat>, f: seq<nat>) {
    forall x, y :: x in a && y in a && x != y && x < |f| && y < |f| ==> f[x] + f[y] < WORD
  }

  lemma {:induction false} PairFits(a: set<nat>, f: seq<nat>, x: nat, y: nat)
    requires PairsFit(a, f) && x in a && y in a && x != y && x < |f| && y < |f|
    ensures f[x] + f[y] < WORD
  {
  }

  /** Take out the two least frequent nodes and put their father in. */
  method CombineTwo(w: Work, fc: array<nat>, dl: array<nat>, node: nat, ghost elems: nat, ghost leaves: set<nat>,
                    ghost mg: seq<nat>, ghost a: set<nat>)
    returns (n: nat, m: nat)
    requires w.Shaped() && fc.Length == dl.Length && {w.heap, w.depth, w.blCount} !! {fc, dl} && fc != dl
    requires Combining(w.heap[..], w.depth[..], w.heapLen, w.heapMax, fc[..], leaves, elems, mg, a)
    requires w.heapLen >= 2 && node == elems + |mg| / 2 && Deep(w.depth[..], elems, mg, a)
    requires PairsFit(a, fc[..])
    modifies w`heapLen, w`heapMax, w.heap, w.depth, fc, dl
    ensures n in a && m in a && n != m && node < fc.Length && n < fc.Length && m < fc.Length
    ensures fc[..] == old(fc[..])[node := old(fc[n]) + old(fc[m])]
    ensures dl[..] == old(dl[..])[n := node][m := node]
    ensures w.heapLen == old(w.heapLen) - 1 && Firsts(old(fc[..]), elems, mg, a, n, m)
    ensures Deep(w.depth[..], elems, mg + [n] + [m], a - {n} - {m} + {node})
    ensures Combining(w.heap[..], w.depth[..], w.heapLen, w.heapMax, fc[..], leaves, elems,
                      mg + [n] + [m], a - {n} - {m} + {node})
  {
    hide HeapFrom, Held, Merged, Weighs, Nodes, Combining, Deep, Firsts, PairsFit;
    ghost var h0, len0, f0 := w.heap[..], w.heapLen, fc[..];
    NodeFits(h0, w.depth[..], len0, w.heapMax, f0, leaves, elems, mg, a);
    ghost var v;
    n, m, v := TakeFirsts(w, fc, node, elems, leaves, mg, a);
    PairFits(a, f0, n, m);
    ghost var h2 := w.heap[..];
    PutFather(w, fc, dl, node, n, m, a - {n}, v);
    CombiningMore(h0, h2, w.heap[..], w.depth[..], len0, f0, leaves, elems, mg, a, n, m);
  }

  lemma {:induction false} FirstTwo(f: seq<nat>, depth: seq<nat>, elems: nat, mg: seq<nat>, a: set<nat>, n: nat, m: nat)
    requires Deep(depth, elems, mg, a) && n in a && m in a && n != m && n < |f| && m < |f|
    requires forall x :: x in a ==> x < |f| && x < |depth| && f[n] <= f[x]
    requires forall x :: x in a && x != n ==> f[m] <= f[x]
    requires forall x :: x in a && f[n] == f[x] ==> depth[n] <= depth[x]
    requires forall x :: x in a && x != n && f[m] == f[x] ==> depth[m] <= depth[x]
    ensures Firsts(f, elems, mg, a, n, m)
  {
    hide NodeDepth;
  }

  /** After a merge all is as before, with one node fewer to combine. */
  lemma {:induction false} CombiningMore(h0: seq<nat>, h2: seq<nat>, h: seq<nat>, depth: seq<nat>, len: nat,
                                         f: seq<nat>,
                                         leaves: set<nat>, elems: nat, mg: seq<nat>, a: set<nat>, n: nat, m: nat)
    requires |h| == HEAP_SIZE == |depth| == |h0| == |h2| && |f| == 2 * elems + 1 <= HEAP_SIZE && len >= 2
    requires Merged(leaves, elems, mg, a) && Weighs(f, elems, mg)
    requires |leaves| <= elems && len + |mg| / 2 == |leaves|
    requires forall i :: 0 <= i < |mg| ==> h0[HEAP_SIZE - 1 - i] == mg[i]
    requires n in a && m in a && n != m && n < |f| && m < |f| && elems + |mg| / 2 < |f| && elems + |mg| / 2 !in a
    requires var f' := f[elems + |mg| / 2 := f[n] + f[m]];
      && Nodes(h, len - 1, f', depth) && HeapFrom(h, len - 1, f', depth, 1)
      && Held(h, len - 1) == multiset((a - {n}) - {m} + {elems + |mg| / 2})
    requires |mg| + 2 < HEAP_SIZE && h2[HEAP_SIZE - |mg|..] == h0[HEAP_SIZE - |mg|..]
    requires h2[HEAP_SIZE - |mg| - 1] == n && h2[HEAP_SIZE - |mg| - 2] == m && h[len..] == h2[len..]
    ensures Combining(h, depth, len - 1, HEAP_SIZE - |mg| - 2, f[elems + |mg| / 2 := f[n] + f[m]], leaves, elems,
                      mg + [n] + [m], a - {n} - {m} + {elems + |mg| / 2})
  {
    hide HeapFrom, Held, Weighs, Nodes;
    MergedMore(leaves, elems, mg, a, n, m);
    WeighsMore(f, f[elems + |mg| / 2 := f[n] + f[m]], leaves, elems, mg, a, n, m);
    PlacedMore(h0, h2, h, len, mg, n, m);
  }

  /** There is room for the next node. */
  lemma {:induction false} NodeFits(h: seq<nat>, depth: seq<nat>, len: nat, max: nat, f: seq<nat>, leaves: set<nat>,
                                    elems: nat, mg: seq<nat>, a: set<nat>)
    requires Combining(h, depth, len, max, f, leaves, elems, mg, a) && len >= 2
    ensures elems + |mg| / 2 < |f| && elems + |mg| / 2 < HEAP_SIZE && len + 2 < max && elems + |mg| / 2 !in a
    ensures (forall x :: x in a ==> x < |f|) && |mg| % 2 == 0 && max == HEAP_SIZE - |mg|
    ensures Nodes(h, len, f, depth) && HeapFrom(h, len, f, depth, 1) && Held(h, len) == multiset(a)
    ensures |h| == HEAP_SIZE == |depth| && |f| == 2 * elems + 1 <= HEAP_SIZE
    ensures Merged(leaves, elems, mg, a) && Weighs(f, elems, mg) && |leaves| <= elems && len + |mg| / 2 == |leaves|
    ensures forall i :: 0 <= i < |mg| ==> h[HEAP_SIZE - 1 - i] == mg[i]
  {
    hide HeapFrom, Weighs;
    assert 2 * |leaves| <= 2 * elems && |mg| / 2 <= |leaves| - 2;
    forall x | x in a ensures x < |f| { assert IsNode(leaves, elems, mg, x); }
  }

  /** A new node in the first place, known to none of the others. */
  lemma {:induction false} NewFirst(h: seq<nat>, g: seq<nat>, len: nat, f: seq<nat>, f': seq<nat>, depth: seq<nat>,
                                    depth': seq<nat>, b: set<nat>, z: nat)
    requires Nodes(h, len, f, depth) && HeapFrom(h, len, f, depth, 1) && Held(h, len) == multiset(b) && len >= 1
    requires z !in b
    requires g == h[1 := z] && z < |f| && z < |depth|
    requires |f'| == |f| && |depth'| == |depth|
    requires forall i :: 0 <= i < |f| && i != z ==> f'[i] == f[i]
    requires forall i :: 0 <= i < |depth| && i != z ==> depth'[i] == depth[i]
    ensures Nodes(g, len, f', depth') && HeapFrom(g, len, f', depth', 2)
  {
    hide HeapFrom, Held;
    forall i | 1 <= i <= len ensures h[i] != z { HeldHas(h, len, b, i); }
    BelowFirst(h, g, len, len, f, depth);
    OutsideHeap(g, len, f, f', depth, depth', 2);
  }

  lemma {:induction false} PlacedMore(h0: seq<nat>, h2: seq<nat>, h: seq<nat>, len0: nat, mg: seq<nat>, n: nat, m: nat)
    requires |h0| == |h2| == |h| == HEAP_SIZE && |mg| % 2 == 0 && len0 < HEAP_SIZE - |mg| - 2
    requires forall i :: 0 <= i < |mg| ==> h0[HEAP_SIZE - 1 - i] == mg[i]
    requires h2[HEAP_SIZE - |mg|..] == h0[HEAP_SIZE - |mg|..]
    requires h2[HEAP_SIZE - |mg| - 1] == n && h2[HEAP_SIZE - |mg| - 2] == m
    requires h[len0..] == h2[len0..]
    ensures forall i :: 0 <= i < |mg| + 2 ==> h[HEAP_SIZE - 1 - i] == (mg + [n] + [m])[i]
  {
    forall i | 0 <= i < |mg| + 2 ensures h[HEAP_SIZE - 1 - i] == (mg + [n] + [m])[i] {
      var j, k := HEAP_SIZE - 1 - i, HEAP_SIZE - |mg|;
      assert h[j] == h[len0..][j - len0] == h2[len0..][j - len0] == h2[j];
      if i < |mg| { assert h2[j] == h2[k..][j - k] == h0[k..][j - k] == h0[j]; }
    }
  }

  // ------------------------------------------------------------ all the merges

  ghost predicate DadsSet(dl: seq<nat>, elems: nat, mg: seq<nat>) {
    forall i :: 0 <= i < |mg| ==> mg[i] < |dl| && dl[mg[i]] == elems + i / 2
  }

  lemma {:induction false} DadsMore(dl: seq<nat>, leaves: set<nat>, elems: nat, mg: seq<nat>, a: set<nat>, n: nat,
                                    m: nat)
    requires DadsSet(dl, elems, mg) && Merged(leaves, elems, mg, a) && n in a && m in a && n != m && n < |dl|
    requires m < |dl|
    ensures DadsSet(dl[n := elems + |mg| / 2][m := elems + |mg| / 2], elems, mg + [n] + [m])
  {
    forall i | 0 <= i < |mg| ensures mg[i] != n && mg[i] != m { assert mg[i] in mg; }
  }

  lemma {:induction false} TwoBound(a: set<nat>, f: seq<nat>, x: nat, y: nat)
    requires x in a && y in a && x != y && x < |f| && y < |f|
    ensures f[x] + f[y] <= Sum(a, f)
  {
    SumRemove(a, f, x);
    SumRemove(a - {x}, f, y);
  }

  lemma {:induction false} SumMerged(a: set<nat>, f: seq<nat>, x: nat, y: nat, z: nat)
    requires x in a && y in a && x != y && x < |f| && y < |f| && z < |f| && z !in a
    ensures Sum(a - {x} - {y} + {z}, f[z := f[x] + f[y]]) == Sum(a, f)
  {
    var b, g := a - {x} - {y}, f[z := f[x] + f[y]];
    SumRemove(a, f, x);
    SumRemove(a - {x}, f, y);
    SumSame(b, b, f, g);
    SumAdd(b, g, z);
  }

  /** After t merges: the weights kept, the fathers set, and what the tree costs at least. */
  ghost predicate Kept(f: seq<nat>, dl: seq<nat>, f0: seq<nat>, leaves: set<nat>, elems: nat, mg: seq<nat>,
                       a: set<nat>) {
    && |f| == |f0| && (forall i :: 0 <= i < |f| && i < elems ==> f[i] == f0[i])
    && Sum(a, f) == Sum(leaves, f0) && DadsSet(dl, elems, mg)
    && AtLeast(leaves, f0, a, f, MergeSum(f, elems, |mg| / 2))
  }

  lemma {:induction false} KeptMore(f: seq<nat>, dl: seq<nat>, f0: seq<nat>, leaves: set<nat>, elems: nat, mg: seq<nat>,
                                    a: set<nat>, n: nat, m: nat)
    requires Kept(f, dl, f0, leaves, elems, mg, a) && Merged(leaves, elems, mg, a) && n in a && m in a && n != m
    requires n < |dl| && m < |dl| && elems + |mg| / 2 < |f| && (forall x :: x in a ==> x < |f| && f[n] <= f[x])
    requires forall x :: x in a && x != n ==> f[m] <= f[x]
    ensures var z := elems + |mg| / 2;
      n < |f| && m < |f|
      && Kept(f[z := f[n] + f[m]], dl[n := z][m := z], f0, leaves, elems, mg + [n] + [m], a - {n} - {m} + {z})
  {
    hide AtLeast;
    var z, t := elems + |mg| / 2, |mg| / 2;
    var g := f[z := f[n] + f[m]];
    MergedMore(leaves, elems, mg, a, n, m);
    SumMerged(a, f, n, m, z);
    DadsMore(dl, leaves, elems, mg, a, n, m);
    AtLeastMerge(leaves, f0, a, f, MergeSum(f, elems, t), n, m, z);
    MergeSumSame(f, g, elems, t);
    assert |mg + [n] + [m]| / 2 == t + 1;
    assert MergeSum(g, elems, t + 1) == MergeSum(f, elems, t) + f[n] + f[m];
  }

  /** Combine until one node is left, which goes to the front of the order. */
  method CombineAll(w: Work, fc: array<nat>, dl: array<nat>, elems: nat, ghost leaves: set<nat>)
    returns (ghost mg: seq<nat>)
    requires w.Shaped() && fc.Length == dl.Length && {w.heap, w.depth, w.blCount} !! {fc, dl} && fc != dl
    requires Combining(w.heap[..], w.depth[..], w.heapLen, w.heapMax, fc[..], leaves, elems, [], leaves)
    requires w.heapLen >= 2 && Sum(leaves, fc[..]) < WORD && Deep(w.depth[..], elems, [], leaves)
    modifies w`heapLen, w`heapMax, w.heap, w.depth, fc, dl
    ensures Built(w.heap[..], w.heapMax, fc[..], dl[..], old(fc[..]), leaves, elems, mg)
    ensures forall x :: 0 <= x < dl.Length && x !in mg ==> dl[x] == old(dl[x])
  {
    hide Combining, Kept, Merged, Weighs, Sum, Deep, Firsts, Greedy;
    ghost var f0, a := fc[..], leaves;
    mg := [];
    KeptStart(f0, dl[..], leaves, elems, w.heap[..], w.depth[..], w.heapLen, w.heapMax);
    assert Greedy(f0, leaves, elems, []) by { GreedyStart(f0, leaves, elems); }
    var node := elems;
    while w.heapLen >= 2
      invariant w.heapLen >= 1 && node == elems + |mg| / 2 && |mg| % 2 == 0 && (w.heapLen == 1 ==> |mg| > 0)
      invariant Combining(w.heap[..], w.depth[..], w.heapLen, w.heapMax, fc[..], leaves, elems, mg, a)
      invariant Kept(fc[..], dl[..], f0, leaves, elems, mg, a)
      invariant Deep(w.depth[..], elems, mg, a) && Greedy(fc[..], leaves, elems, mg)
      invariant forall x :: 0 <= x < dl.Length && x !in mg ==> dl[x] == old(dl[x])
      decreases w.heapLen
    {
      ghost var n, m, f1, dl1 := 0, 0, fc[..], dl[..];
      NodeFits(w.heap[..], w.depth[..], w.heapLen, w.heapMax, f1, leaves, elems, mg, a);
      PairsBound(f1, dl1, f0, leaves, elems, mg, a);
      n, m := CombineTwo(w, fc, dl, node, elems, leaves, mg, a);
      FirstsLeast(f1, elems, mg, a, n, m);
      KeptMore(f1, dl1, f0, leaves, elems, mg, a, n, m);
      GreedyMore(f1, leaves, elems, mg, a, n, m, f1[n] + f1[m]);
      mg, a := mg + [n] + [m], a - {n} - {m} + {node};
      node := node + 1;
    }
    BuiltEnd(w.heap[..], w.depth[..], w.heapMax, fc[..], dl[..], f0, leaves, elems, mg, a);
    w.heapMax := w.heapMax - 1;
    w.heap[w.heapMax] := w.heap[1];
  }

  lemma {:induction false} GreedyStart(f: seq<nat>, leaves: set<nat>, elems: nat)
    ensures Greedy(f, leaves, elems, [])
  {
  }

  lemma {:induction false} KeptStart(f: seq<nat>, dl: seq<nat>, leaves: set<nat>, elems: nat, h: seq<nat>,
                                     depth: seq<nat>, len: nat, max: nat)
    requires Combining(h, depth, len, max, f, leaves, elems, [], leaves)
    ensures Kept(f, dl, f, leaves, elems, [], leaves)
  {
    hide AtLeast;
    AtLeastStart(leaves, f);
  }

  lemma {:induction false} PairsBound(f: seq<nat>, dl: seq<nat>, f0: seq<nat>, leaves: set<nat>, elems: nat,
                                      mg: seq<nat>, a: set<nat>)
    requires Kept(f, dl, f0, leaves, elems, mg, a) && Sum(leaves, f0) < WORD
    ensures PairsFit(a, f)
  {
    forall x, y | x in a && y in a && x != y && x < |f| && y < |f| ensures f[x] + f[y] < WORD { TwoBound(a, f, x, y); }
  }

  /** The tree is built: the root stands first in the order, then the sons of each node from
      the last made back to the first. */
  ghost predicate Built(h: seq<nat>, max: nat, f: seq<nat>, dl: seq<nat>, f0: seq<nat>, leaves: set<nat>, elems: nat,
                        mg: seq<nat>) {
    && |h| == HEAP_SIZE && |f| == |f0| == |dl| == 2 * elems + 1 <= HEAP_SIZE && |leaves| >= 2 && |leaves| <= elems
    && |mg| == 2 * (|leaves| - 1) && Merged(leaves, elems, mg, {elems + |mg| / 2 - 1})
    && max == HEAP_SIZE - |mg| - 1 && h[max] == elems + |mg| / 2 - 1
    && (forall i :: 0 <= i < |mg| ==> h[HEAP_SIZE - 1 - i] == mg[i])
    && Weighs(f, elems, mg) && DadsSet(dl, elems, mg) && Greedy(f, leaves, elems, mg)
    && (forall i :: 0 <= i < |f| && i < elems ==> f[i] == f0[i])
    && AtLeast(leaves, f0, {elems + |mg| / 2 - 1}, f, MergeSum(f, elems, |mg| / 2))
  }

  lemma {:induction false} BuiltEnd(h: seq<nat>, depth: seq<nat>, max: nat, f: seq<nat>, dl: seq<nat>, f0: seq<nat>,
                                    leaves: set<nat>, elems: nat, mg: seq<nat>, a: set<nat>)
    requires Combining(h, depth, 1, max, f, leaves, elems, mg, a) && Kept(f, dl, f0, leaves, elems, mg, a) && |mg| > 0
    requires |dl| == |f| && Greedy(f, leaves, elems, mg)
    ensures 1 < max <= HEAP_SIZE && |h| == HEAP_SIZE && Built(h[max - 1 := h[1]], max - 1, f, dl, f0, leaves, elems, mg)
  {
    hide AtLeast, HeapFrom, Nodes, Greedy;
    HeldHas(h, 1, a, 1);
    HeldSize(h, 1, a);
    var root := elems + |mg| / 2 - 1;
    assert a == {h[1]} by {
      var b := a - {h[1]};
      assert |b| == 0;
    }
    LastIsRoot(leaves, elems, mg, a);
    assert h[1] == root;
  }

  /** The node made last has no father. */
  lemma {:induction false} LastIsRoot(leaves: set<nat>, elems: nat, mg: seq<nat>, a: set<nat>)
    requires Merged(leaves, elems, mg, a) && |mg| > 0
    ensures elems + |mg| / 2 - 1 in a
  {
    var z := elems + |mg| / 2 - 1;
    forall i | 0 <= i < |mg| ensures mg[i] != z { assert SonOk(leaves, elems, mg, i); }
    assert IsNode(leaves, elems, mg, z);
  }
}
