/** The Huffman tree of archive/gzip/unpack.c: leaf counts for each level, numbers of parents, and
    the table that gives the length of a code from its first bits. */
module UnpackTree {
  import opened BitString
  import opened Canonical

  const MAX_BITLEN: nat := 25
  const MAX_PEEK: nat := 12

  /** Leaf counts of a complete tree of m levels.  SpareOf counts the inner nodes of a level. */
  predicate Full(c: seq<nat>, m: nat) {
    1 <= m <= MAX_BITLEN && |c| == MAX_BITLEN + 1 && SpareOf(c, m) == 0 && c[m] >= 2
  }

  /** Every level above the last has inner nodes. */
  lemma {:induction false} InnerNodes(c: seq<nat>, m: nat, len: nat)
    requires Full(c, m) && len < m
    ensures SpareOf(c, len) >= 1
    decreases m - len
  {
    if len + 1 < m { InnerNodes(c, m, len + 1); }
  }

  /** The bits that stand for a node. */
  function NodeBits(node: nat, len: nat): (s: seq<bool>)
    ensures |s| == len
  {
    BitsOf(node, len)
  }

  /** Walking bit by bit: go on as long as the node is an inner one. */
  ghost function WalkLen(c: seq<nat>, m: nat, t: seq<bool>, len: nat): (r: nat)
    requires 1 <= len <= m < |c| && m <= |t|
    ensures len <= r <= m
    decreases m - len
  {
    if len == m || Value(t[..len]) >= SpareOf(c, len) then len else WalkLen(c, m, t, len + 1)
  }

  lemma {:induction false} ValueHalf(t: seq<bool>, len: nat)
    requires 1 <= len <= |t|
    ensures Value(t[..len]) / 2 == Value(t[..len - 1])
  {
    assert t[..len][..len - 1] == t[..len - 1];
  }

  /** The walk ends at a leaf. */
  lemma {:induction false} WalkEnds(c: seq<nat>, m: nat, t: seq<bool>, len: nat)
    requires Full(c, m) && 1 <= len <= m <= |t| && Value(t[..len - 1]) < SpareOf(c, len - 1)
    ensures var r := WalkLen(c, m, t, len); SpareOf(c, r) <= Value(t[..r]) < SpareOf(c, r) + c[r]
    decreases m - len
  {
    ValueHalf(t, len);
    if len < m && Value(t[..len]) < SpareOf(c, len) { WalkEnds(c, m, t, len + 1); }
  }

  lemma {:induction false} WalkFinds(c: seq<nat>, m: nat, t: seq<bool>)
    requires Full(c, m) && m <= |t|
    ensures var r := WalkLen(c, m, t, 1); 1 <= r <= m && SpareOf(c, r) <= Value(t[..r]) < SpareOf(c, r) + c[r]
  {
    assert t[..0] == [];
    WalkEnds(c, m, t, 1);
  }

  /** Above a leaf there are inner nodes only. */
  lemma {:induction false} AboveLeaf(c: seq<nat>, m: nat, t: seq<bool>, len: nat, k: nat)
    requires Full(c, m) && k < len <= m <= |t| && Value(t[..len]) < SpareOf(c, len) + c[len]
    ensures Value(t[..k]) < SpareOf(c, k)
    decreases len - k
  {
    ValueHalf(t, len);
    if k < len - 1 { AboveLeaf(c, m, t, len - 1, k); }
  }

  lemma {:induction false} WalkStops(c: seq<nat>, m: nat, t: seq<bool>, len: nat, k: nat)
    requires Full(c, m) && 1 <= k <= len <= m <= |t| && SpareOf(c, len) <= Value(t[..len]) < SpareOf(c, len) + c[len]
    ensures WalkLen(c, m, t, k) == len
    decreases len - k
  {
    if k < len {
      AboveLeaf(c, m, t, len, k);
      WalkStops(c, m, t, len, k + 1);
    }
  }

  // ----------------------------------------------------------------------- leaves

  /** A leaf: the j-th of those at a level. */
  datatype Leaf = Leaf(len: nat, j: nat)

  ghost predicate LeafOk(c: seq<nat>, m: nat, x: Leaf) { 1 <= x.len <= m < |c| && x.j < c[x.len] }

  ghost function LeafBits(c: seq<nat>, m: nat, x: Leaf): (s: seq<bool>)
    requires Full(c, m) && LeafOk(c, m, x)
    ensures |s| == x.len
  {
    if x.len < m then InnerNodes(c, m, x.len); NodeBits(SpareOf(c, x.len) + x.j, x.len)
    else NodeBits(x.j, x.len)
  }

  lemma {:induction false} NodeFits(c: seq<nat>, m: nat, len: nat)
    requires Full(c, m) && len <= m
    ensures 0 <= SpareOf(c, len) && SpareOf(c, len) + (if len > 0 then c[len] else 0) <= Pow2(len)
  {
    if len < m { InnerNodes(c, m, len); }
    if len > 0 { NodeFits(c, m, len - 1); }
  }

  /** A stream that starts with the bits of a leaf leads there. */
  lemma {:induction false} LeafWalk(c: seq<nat>, m: nat, x: Leaf, t: seq<bool>)
    requires Full(c, m) && LeafOk(c, m, x) && LeafBits(c, m, x) <= t && m <= |t|
    ensures WalkLen(c, m, t, 1) == x.len && Value(t[..x.len]) == SpareOf(c, x.len) + x.j
  {
    hide SpareOf, BitsOf, Value;
    NodeFits(c, m, x.len);
    var v := SpareOf(c, x.len) + x.j;
    assert x.len == m ==> SpareOf(c, m) == 0;
    assert LeafBits(c, m, x) == BitsOf(v, x.len);
    assert t[..x.len] == BitsOf(v, x.len);
    ValueOfBits(v, x.len);
    LowOfSmall(v, x.len);
    WalkStops(c, m, t, x.len, 1);
  }

  // ------------------------------------------------------------------------ table

  /** The length of the code that starts with the pb bits of x, 0 if it is longer. */
  function TableLen(c: seq<nat>, pb: nat, x: nat, len: nat): (r: nat)
    requires len <= pb + 1 && pb < |c|
    decreases pb + 1 - len
  {
    if len > pb then 0 else if Shr(x, pb - len) >= SpareOf(c, len) then len else TableLen(c, pb, x, len + 1)
  }

  lemma {:induction false} ValueShr(t: seq<bool>, pb: nat, len: nat)
    requires len <= pb <= |t|
    ensures Shr(Value(t[..pb]), pb - len) == Value(t[..len])
    decreases pb - len
  {
    if len < pb {
      ValueHalf(t, pb);
      ValueShr(t, pb - 1, len);
    }
  }

  /** The table agrees with the walk. */
  lemma {:induction false} TableWalk(c: seq<nat>, m: nat, t: seq<bool>, pb: nat, len: nat)
    requires 1 <= len <= pb <= m < |c| && m <= |t| && SpareOf(c, m) == 0
    ensures var w := WalkLen(c, m, t, len); TableLen(c, pb, Value(t[..pb]), len) == if w <= pb then w else 0
    decreases pb - len
  {
    hide SpareOf;
    ValueShr(t, pb, len);
    if Value(t[..len]) < SpareOf(c, len) && len < pb { TableWalk(c, m, t, pb, len + 1); }
  }

  /** From here on the entries are those of codes of up to len bits. */
  function TableFrom(c: seq<nat>, pb: nat, len: nat): int
    requires len <= pb < |c|
  {
    SpareOf(c, len) * Pow2(pb - len)
  }

  lemma {:induction false} TableNext(c: seq<nat>, pb: nat, len: nat)
    requires 1 <= len <= pb < |c|
    ensures TableFrom(c, pb, len) == TableFrom(c, pb, len - 1) - c[len] * Pow2(pb - len)
  {
    var p := Pow2(pb - len);
    assert Pow2(pb - (len - 1)) == 2 * p;
    assert (2 * SpareOf(c, len - 1) - c[len]) * p == SpareOf(c, len - 1) * (2 * p) - c[len] * p;
  }

  /** The entry for x depends on where it lies. */
  lemma {:induction false} TablePlace(c: seq<nat>, pb: nat, x: nat, len: nat)
    requires len <= pb < |c|
    ensures Shr(x, pb - len) >= SpareOf(c, len) <==> x >= TableFrom(c, pb, len)
  {
    ShrPlace(x, pb - len, SpareOf(c, len));
  }

  lemma {:induction false} ShrPlace(x: nat, n: nat, s: int)
    ensures Shr(x, n) >= s <==> x >= s * Pow2(n)
  {
    if n > 0 {
      ShrPlace(x / 2, n - 1, s);
      assert s * Pow2(n) == 2 * (s * Pow2(n - 1));
    }
  }
}
