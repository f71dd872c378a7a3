/** build_tree of archive/gzip/unpack.c: numbers of parents, places of the literals, and the table
    of code lengths. */
module UnpackTable {
  import opened BitString
  import opened Canonical
  import opened UnpackTree

  const TABLE: nat := 4096

  lemma {:induction false} TableFalls(c: seq<nat>, pb: nat, k: nat, len: nat)
    requires k <= len <= pb < |c|
    ensures TableFrom(c, pb, len) <= TableFrom(c, pb, k)
    decreases len - k
  {
    hide TableFrom;
    if k < len {
      TableNext(c, pb, len);
      TableFalls(c, pb, k, len - 1);
    }
  }

  /** Entries between two ends are those of codes of that length. */
  lemma {:induction false} TableIs(c: seq<nat>, pb: nat, x: nat, len: nat, k: nat)
    requires 1 <= k <= len <= pb < |c| && TableFrom(c, pb, len) <= x < TableFrom(c, pb, len - 1)
    ensures TableLen(c, pb, x, k) == len
    decreases len - k
  {
    hide TableFrom, SpareOf;
    TablePlace(c, pb, x, k);
    if k < len {
      TableFalls(c, pb, k, len - 1);
      TableIs(c, pb, x, len, k + 1);
    }
  }

  /** The first entries belong to longer codes. */
  lemma {:induction false} TableZero(c: seq<nat>, pb: nat, x: nat, k: nat)
    requires 1 <= k <= pb + 1 && pb < |c| && x < TableFrom(c, pb, pb)
    ensures TableLen(c, pb, x, k) == 0
    decreases pb + 1 - k
  {
    hide TableFrom, SpareOf;
    if k <= pb {
      TablePlace(c, pb, x, k);
      TableFalls(c, pb, k, pb);
      TableZero(c, pb, x, k + 1);
    }
  }

  ghost predicate TableSet(t: seq<nat>, c: seq<nat>, pb: nat, from: int) {
    |t| == TABLE && pb < |c| && Pow2(pb) <= TABLE && from >= 0 && forall x: nat :: from <= x < Pow2(pb) ==>
      t[x] == TableLen(c, pb, x, 1)
  }

  lemma {:induction false} TableMore(t: seq<nat>, c: seq<nat>, pb: nat, from: nat, v: nat)
    requires TableSet(t, c, pb, from + 1) && from < TABLE && v == TableLen(c, pb, from, 1)
    ensures TableSet(t[from := v], c, pb, from)
  {
    hide TableLen;
  }

  /** The entries of codes of len bits. */
  method FillLength(prefix: array<nat>, c: seq<nat>, pb: nat, len: nat, p0: nat) returns (p: nat)
    requires prefix.Length == TABLE && 1 <= len <= pb < |c| && TableSet(prefix[..], c, pb, p0)
    requires p0 == TableFrom(c, pb, len - 1) <= Pow2(pb)
    requires TableFrom(c, pb, len) >= 0
    modifies prefix
    ensures TableSet(prefix[..], c, pb, p) && p == TableFrom(c, pb, len)
  {
    hide TableFrom, TableSet, TableLen;
    var prefixes: nat := c[len] * Pow2(pb - len);
    TableNext(c, pb, len);
    TableSize(prefix[..], c, pb, p0);
    p := p0;
    while prefixes > 0
      invariant p - prefixes == TableFrom(c, pb, len) && p <= p0 && TableSet(prefix[..], c, pb, p)
    {
      prefixes := prefixes - 1;
      p := p - 1;
      TableIs(c, pb, p, len, 1);
      TableMore(prefix[..], c, pb, p, len);
      ghost var was: seq<nat> := prefix[..];
      prefix[p] := len;
      assert prefix[..] == was[p := len];
    }
  }

  lemma {:induction false} TableSize(t: seq<nat>, c: seq<nat>, pb: nat, from: nat)
    requires TableSet(t, c, pb, from)
    ensures Pow2(pb) <= TABLE
  {
  }

  /** The table of code lengths, from the shortest leaves to the longest; the shortest code is
      all ones. */
  method FillTable(prefix: array<nat>, c: seq<nat>, m: nat, pb: nat)
    requires prefix.Length == TABLE && Full(c, m) && 1 <= pb <= m && pb <= MAX_PEEK
    modifies prefix
    ensures TableSet(prefix[..], c, pb, 0)
  {
    hide TableFrom, TableSet, TableLen, SpareOf, Pow2;
    PeekPow(pb);
    var p: nat := Pow2(pb);
    TableStart(prefix[..], c, pb);
    var len := 1;
    while len <= pb
      invariant 1 <= len <= pb + 1 && p == TableFrom(c, pb, len - 1) <= Pow2(pb) && TableSet(prefix[..], c, pb, p)
    {
      TableGoesOn(c, m, pb, len);
      p := FillLength(prefix, c, pb, len, p);
      len := len + 1;
    }
    ghost var from: nat := p;
    while p > 0
      invariant p <= from == TableFrom(c, pb, pb) && TableSet(prefix[..], c, pb, p) && from <= TABLE
    {
      p := p - 1;
      TableZero(c, pb, p, 1);
      TableMore(prefix[..], c, pb, p, 0);
      ghost var was: seq<nat> := prefix[..];
      prefix[p] := 0;
      assert prefix[..] == was[p := 0];
    }
  }

  lemma {:induction false} PeekPow(pb: nat)
    requires pb <= MAX_PEEK
    ensures Pow2(pb) <= TABLE
  {
    Pow2Monotone(pb, 12);
    assert Pow2(12) == 4096;
  }

  lemma {:induction false} TableStart(t: seq<nat>, c: seq<nat>, pb: nat)
    requires |t| == TABLE && pb < |c| && Pow2(pb) <= TABLE
    ensures TableFrom(c, pb, 0) == Pow2(pb) && TableSet(t, c, pb, Pow2(pb))
  {
  }

  lemma {:induction false} TableGoesOn(c: seq<nat>, m: nat, pb: nat, len: nat)
    requires Full(c, m) && 1 <= len <= pb <= m
    ensures 0 <= TableFrom(c, pb, len) <= TableFrom(c, pb, len - 1)
  {
    hide SpareOf, Pow2;
    NodeFits(c, m, len);
    TableFalls(c, pb, len - 1, len);
    assert SpareOf(c, len) * Pow2(pb - len) >= 0;
  }

  // --------------------------------------------------------------------- literals

  /** A code of a level, biased by the base, is the place of its literal: the inner nodes are
      skipped. */
  ghost predicate BasesSet(base: seq<int>, parents: seq<nat>, c: seq<nat>, m: nat, from: nat) {
    && |base| == |parents| == |c| == MAX_BITLEN + 1 && m <= MAX_BITLEN
    && forall len :: from <= len <= m && len >= 1 ==>
         parents[len] == SpareOf(c, len) && base[len] == Total(c, len - 1) - SpareOf(c, len)
  }

  /** The first half of build_tree: parents of each level, from the last one up. */
  method CountParents(c: seq<nat>, m: nat, base: array<int>, parents: array<nat>)
    requires Full(c, m) && base.Length == parents.Length == MAX_BITLEN + 1
    requires forall len :: 1 <= len <= m ==> base[len] == Total(c, len - 1)
    modifies base, parents
    ensures BasesSet(base[..], parents[..], c, m, 1)
  {
    hide SpareOf, Total;
    var nodes: nat := 0;
    var len := m;
    while len >= 1
      invariant 0 <= len <= m && nodes / 2 == SpareOf(c, len) && BasesSet(base[..], parents[..], c, m, len + 1)
      invariant forall k :: 1 <= k <= len ==> base[k] == Total(c, k - 1)
    {
      nodes := nodes / 2;
      parents[len] := nodes;
      base[len] := base[len] - nodes;
      nodes := nodes + c[len];
      SpareUp(c, len);
      len := len - 1;
    }
  }

  lemma {:induction false} SpareUp(c: seq<nat>, len: nat)
    requires 1 <= len < |c|
    ensures SpareOf(c, len) + c[len] == 2 * SpareOf(c, len - 1)
  {
  }
}
