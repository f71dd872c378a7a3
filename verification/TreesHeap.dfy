/** The heap of archive/gzip/trees.c: pqdownheap and pqremove.  heap[0] is not used; the sons of
    heap[n] are heap[2n] and heap[2n+1]. */
module TreesHeap {
  /** smaller(n, m): lower frequency, or the same and no deeper. */
  predicate Smaller(freq: seq<nat>, depth: seq<nat>, n: nat, m: nat)
    requires n < |freq| && n < |depth| && m < |freq| && m < |depth|
  {
    freq[n] < freq[m] || (freq[n] == freq[m] && depth[n] <= depth[m])
  }

  /** heap[1..len] are nodes. */
  ghost predicate Nodes(h: seq<nat>, len: nat, freq: seq<nat>, depth: seq<nat>) {
    len < |h| && forall i :: 1 <= i <= len ==> h[i] < |freq| && h[i] < |depth|
  }

  ghost predicate Ordered(h: seq<nat>, len: nat, freq: seq<nat>, depth: seq<nat>, i: nat, j: nat)
    requires Nodes(h, len, freq, depth) && 1 <= i
  {
    j <= len && i <= len ==> j >= 1 && Smaller(freq, depth, h[i], h[j])
  }

  /** Each father from k on is smaller than his sons. */
  ghost predicate HeapFrom(h: seq<nat>, len: nat, freq: seq<nat>, depth: seq<nat>, k: nat)
    requires Nodes(h, len, freq, depth)
  {
    forall i: nat :: 1 <= i && k <= i ==> FatherOk(h, len, freq, depth, i)
  }

  ghost predicate FatherOk(h: seq<nat>, len: nat, freq: seq<nat>, depth: seq<nat>, i: nat)
    requires Nodes(h, len, freq, depth) && 1 <= i
  {
    Ordered(h, len, freq, depth, i, 2 * i) && Ordered(h, len, freq, depth, i, 2 * i + 1)
  }

  /** The heap is in order from k0 on but for the hole at k, and the hole's father is smaller
      than the hole's sons. */
  ghost predicate HoleAt(h: seq<nat>, len: nat, freq: seq<nat>, depth: seq<nat>, k0: nat, k: nat)
    requires Nodes(h, len, freq, depth) && 1 <= k0 <= k
  {
    && (forall i: nat :: k0 <= i && i != k ==> FatherOk(h, len, freq, depth, i))
    && (k / 2 >= k0 ==> Ordered(h, len, freq, depth, k / 2, 2 * k) && Ordered(h, len, freq, depth, k / 2, 2 * k + 1))
  }

  /** The larger of the sons is not smaller than son j. */
  ghost predicate Least(h: seq<nat>, len: nat, freq: seq<nat>, depth: seq<nat>, k: nat, j: nat)
    requires Nodes(h, len, freq, depth) && 1 <= k
  {
    && (j == 2 * k || j == 2 * k + 1) && j <= len
    && Ordered(h, len, freq, depth, j, 2 * k) && Ordered(h, len, freq, depth, j, 2 * k + 1)
  }

  lemma {:induction false} SmallerTrans(freq: seq<nat>, depth: seq<nat>, a: nat, b: nat, c: nat)
    requires a < |freq| && a < |depth| && b < |freq| && b < |depth| && c < |freq| && c < |depth|
    requires Smaller(freq, depth, a, b) && Smaller(freq, depth, b, c)
    ensures Smaller(freq, depth, a, c)
  {
  }

  lemma {:induction false} SmallerTotal(freq: seq<nat>, depth: seq<nat>, a: nat, b: nat)
    requires a < |freq| && a < |depth| && b < |freq| && b < |depth|
    ensures Smaller(freq, depth, a, b) || Smaller(freq, depth, b, a)
  {
  }

  /** Exchange the hole with its least son, which is smaller than what is in the hole. */
  lemma {:induction false} HoleDown(h: seq<nat>, len: nat, freq: seq<nat>, depth: seq<nat>, k0: nat, k: nat, j: nat)
    requires Nodes(h, len, freq, depth) && 1 <= k0 <= k <= len && HoleAt(h, len, freq, depth, k0, k)
    requires Least(h, len, freq, depth, k, j) && !Smaller(freq, depth, h[k], h[j])
    ensures var g := h[k := h[j]][j := h[k]]; Nodes(g, len, freq, depth) && HoleAt(g, len, freq, depth, k0, j)
  {
    var g := h[k := h[j]][j := h[k]];
    SmallerTotal(freq, depth, h[k], h[j]);
    forall i: nat | k0 <= i && i != j ensures FatherOk(g, len, freq, depth, i) {
      if i != k { assert FatherOk(h, len, freq, depth, i); }
      if i == k / 2 {
        assert FatherOk(h, len, freq, depth, i);
      }
    }
    assert FatherOk(h, len, freq, depth, j);
  }

  /** Where what is in the hole is smaller than its least son, or there are none, the heap is
      in order. */
  lemma {:induction false} HoleFilled(h: seq<nat>, len: nat, freq: seq<nat>, depth: seq<nat>, k0: nat, k: nat, j: nat)
    requires Nodes(h, len, freq, depth) && 1 <= k0 <= k <= len && HoleAt(h, len, freq, depth, k0, k)
    requires 2 * k > len || (Least(h, len, freq, depth, k, j) && Smaller(freq, depth, h[k], h[j]))
    ensures HeapFrom(h, len, freq, depth, k0)
  {
    if 2 * k <= len {
      SmallerTrans(freq, depth, h[k], h[j], h[2 * k]);
      if 2 * k + 1 <= len { SmallerTrans(freq, depth, h[k], h[j], h[2 * k + 1]); }
    }
    assert FatherOk(h, len, freq, depth, k);
  }

  /** The first element is the smallest. */
  lemma {:induction false} RootLeast(h: seq<nat>, len: nat, freq: seq<nat>, depth: seq<nat>, i: nat)
    requires Nodes(h, len, freq, depth) && HeapFrom(h, len, freq, depth, 1) && 1 <= i <= len
    ensures Smaller(freq, depth, h[1], h[i])
    decreases i
  {
    if i > 1 {
      RootLeast(h, len, freq, depth, i / 2);
      assert FatherOk(h, len, freq, depth, i / 2);
      SmallerTrans(freq, depth, h[1], h[i / 2], h[i]);
    }
  }

  /** The nodes in the heap. */
  function Held(h: seq<nat>, len: nat): multiset<nat>
    requires len < |h|
  {
    multiset(h[1..len + 1])
  }

  lemma {:induction false} HeldUpdate(h: seq<nat>, len: nat, i: nat, v: nat)
    requires len < |h| && 1 <= i <= len
    ensures Held(h[i := v], len) == Held(h, len) - multiset{h[i]} + multiset{v}
  {
    var a, b := h[1..len + 1], h[i := v][1..len + 1];
    assert b == a[i - 1 := v];
    assert a == a[..i - 1] + [a[i - 1]] + a[i..];
    assert b == a[..i - 1] + [v] + a[i..];
  }

  lemma {:induction false} HeldSwap(h: seq<nat>, len: nat, i: nat, j: nat)
    requires len < |h| && 1 <= i <= len && 1 <= j <= len
    ensures Held(h[i := h[j]][j := h[i]], len) == Held(h, len)
  {
    HeldUpdate(h, len, i, h[j]);
    HeldUpdate(h[i := h[j]], len, j, h[i]);
    assert h[i] in Held(h, len) by { assert h[1..len + 1][i - 1] == h[i]; }
    if i != j {
      assert h[j] in Held(h, len) by { assert h[1..len + 1][j - 1] == h[j]; }
      assert h[i := h[j]][j] == h[j];
    }
  }

  /** pqdownheap: restore the order from node k on, everything below it being in order. */
  method PqDownHeap(heap: array<nat>, heapLen: nat, k0: nat, fc: array<nat>, dep: array<nat>)
    requires heap != fc && heap != dep
    requires 1 <= k0 <= heapLen && Nodes(heap[..], heapLen, fc[..], dep[..])
    requires HeapFrom(heap[..], heapLen, fc[..], dep[..], k0 + 1)
    modifies heap
    ensures Nodes(heap[..], heapLen, fc[..], dep[..]) && HeapFrom(heap[..], heapLen, fc[..], dep[..], k0)
    ensures Held(heap[..], heapLen) == Held(old(heap[..]), heapLen)
    ensures heap[..k0] == old(heap[..k0]) && heap[heapLen + 1..] == old(heap[heapLen + 1..])
  {
    hide FatherOk, Ordered, Held;
    ghost var freq, depth := fc[..], dep[..];
    var k, v := k0, heap[k0];
    var j := 2 * k;
    ghost var h := heap[..];  // the heap with v in the hole
    HoleStarts(h, heapLen, freq, depth, k0);
    while j <= heapLen
      invariant k0 <= k <= heapLen && j == 2 * k && Nodes(h, heapLen, freq, depth)
      invariant HoleAt(h, heapLen, freq, depth, k0, k)
      invariant |h| == heap.Length && h == heap[..][k := v] && fc[..] == freq && dep[..] == depth
      invariant Held(h, heapLen) == Held(old(heap[..]), heapLen)
      invariant heap[..k0] == old(heap[..k0]) && heap[heapLen + 1..] == old(heap[heapLen + 1..])
      decreases heapLen - k
    {
      assert heap[j] == h[j] && (j < heapLen ==> heap[j + 1] == h[j + 1]);
      if j < heapLen
         && (fc[heap[j + 1]] < fc[heap[j]] || (fc[heap[j + 1]] == fc[heap[j]] && dep[heap[j + 1]] <= dep[heap[j]])) {
        j := j + 1;
      }
      LeastSon(h, heapLen, freq, depth, k, j);
      if fc[v] < fc[heap[j]] || (fc[v] == fc[heap[j]] && dep[v] <= dep[heap[j]]) {
        break;
      }
      HoleDown(h, heapLen, freq, depth, k0, k, j);
      HeldSwap(h, heapLen, k, j);
      ghost var g := h[k := h[j]][j := h[k]];
      heap[k] := heap[j];
      k := j;
      h := g;
      assert h == heap[..][k := v];
      j := 2 * j;
    }
    HoleFilled(h, heapLen, freq, depth, k0, k, j);
    heap[k] := v;
    assert heap[..] == h;
  }

  lemma {:induction false} HoleStarts(h: seq<nat>, len: nat, freq: seq<nat>, depth: seq<nat>, k: nat)
    requires Nodes(h, len, freq, depth) && 1 <= k <= len && HeapFrom(h, len, freq, depth, k + 1)
    ensures HoleAt(h, len, freq, depth, k, k) && h[k := h[k]] == h
  {
  }

  /** j is the smaller of the two sons. */
  lemma {:induction false} LeastSon(h: seq<nat>, len: nat, freq: seq<nat>, depth: seq<nat>, k: nat, j: nat)
    requires Nodes(h, len, freq, depth) && 1 <= k && 2 * k <= len
    requires j == if 2 * k < len && Smaller(freq, depth, h[2 * k + 1], h[2 * k]) then 2 * k + 1 else 2 * k
    ensures Least(h, len, freq, depth, k, j)
  {
    if 2 * k < len { SmallerTotal(freq, depth, h[2 * k], h[2 * k + 1]); }
  }
}
