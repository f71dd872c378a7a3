/** Strings of the LZSS window of archive/lharc/lzhuf.c: how two of them compare, how far
    they agree, and which hash chain head they belong to. */
module LzhufKeys {
  import opened BitString

  const N: nat := 4096
  const F: nat := 60
  const THRESHOLD: nat := 2
  const NIL: nat := N

  type Key = s: seq<byte> | |s| == F witness seq(F, _ => 0)

  // ---------------------------------------------------------- common prefixes

  ghost predicate Agree(a: seq<byte>, b: seq<byte>, n: nat) {
    n <= |a| && n <= |b| && forall k :: 0 <= k < n ==> a[k] == b[k]
  }

  /** Length of the common prefix of a and b, given that they agree before i. */
  function LcpFrom(a: seq<byte>, b: seq<byte>, i: nat): (n: nat)
    requires i <= |a| == |b| && Agree(a, b, i)
    ensures i <= n <= |a| && Agree(a, b, n)
    ensures n < |a| ==> a[n] != b[n]
    decreases |a| - i
  {
    if i < |a| && a[i] == b[i] then LcpFrom(a, b, i + 1) else i
  }

  function Lcp(a: Key, b: Key): (n: nat)
    ensures n <= F && Agree(a, b, n)
    ensures n < F ==> a[n] != b[n]
  {
    LcpFrom(a, b, 0)
  }

  /** The common prefix is the one after which the strings differ. */
  lemma {:induction false} LcpIs(a: Key, b: Key, n: nat)
    requires Agree(a, b, n) && (n < F ==> a[n] != b[n])
    ensures Lcp(a, b) == n
  {
    hide Lcp;
  }

  lemma {:induction false} LcpSym(a: Key, b: Key)
    ensures Lcp(a, b) == Lcp(b, a)
  {
    LcpIs(b, a, Lcp(a, b));
  }

  /** Two of the three common prefixes of three strings are equal, and the least. */
  lemma {:induction false} LcpTriangle(a: Key, b: Key, c: Key)
    ensures Lcp(a, b) < Lcp(b, c) ==> Lcp(a, c) == Lcp(a, b)
    ensures Lcp(b, c) < Lcp(a, b) ==> Lcp(a, c) == Lcp(b, c)
    ensures Lcp(a, b) == Lcp(b, c) ==> Lcp(a, c) >= Lcp(a, b)
  {
    hide Lcp;
    if Lcp(a, b) < Lcp(b, c) {
      LcpIs(a, c, Lcp(a, b));
    } else if Lcp(b, c) < Lcp(a, b) {
      LcpIs(a, c, Lcp(b, c));
    }
  }

  // -------------------------------------------------------------------- order

  /** A string as a number in base 256: strings of one length compare as their numbers. */
  function Num(s: seq<byte>): nat {
    if s == [] then 0 else 256 * Num(s[..|s| - 1]) + s[|s| - 1]
  }

  function Pow256(n: nat): (p: nat)
    ensures p >= 1
  {
    if n == 0 then 1 else 256 * Pow256(n - 1)
  }

  lemma {:induction false} NumBound(s: seq<byte>)
    ensures Num(s) < Pow256(|s|)
  {
    if s != [] { NumBound(s[..|s| - 1]); }
  }

  lemma {:induction false} NumLess(a: seq<byte>, b: seq<byte>, n: nat)
    requires n < |a| == |b| && Agree(a, b, n) && a[n] < b[n]
    ensures Num(a) < Num(b)
  {
    var a', b' := a[..|a| - 1], b[..|b| - 1];
    if n == |a| - 1 {
      assert a' == b';
    } else {
      NumLess(a', b', n);
    }
  }

  /** The order of two keys is that of their first difference. */
  lemma {:induction false} NumOrder(a: Key, b: Key)
    ensures Lcp(a, b) == F <==> a == b
    ensures Num(a) == Num(b) <==> a == b
    ensures var n := Lcp(a, b); n < F ==> (Num(a) < Num(b) <==> a[n] < b[n])
  {
    hide Lcp;
    var n := Lcp(a, b);
    if n == F {
      assert a == b;
    } else if a[n] < b[n] {
      NumLess(a, b, n);
    } else {
      NumLess(b, a, n);
    }
  }

  /** A string between two others agrees with either at least as far as they do. */
  lemma {:induction false} LcpBetween(a: Key, b: Key, c: Key)
    requires Num(a) <= Num(b) <= Num(c)
    ensures Lcp(a, c) <= Lcp(a, b) && Lcp(a, c) <= Lcp(b, c)
  {
    hide Lcp, Num;
    LcpTriangle(a, b, c);
    NumOrder(a, b);
    NumOrder(b, c);
  }

  // --------------------------------------------------------------------- hash

  /** The head of the tree a key belongs to, an index into rson above N. */
  function Head(k: Key): (d: nat)
    ensures N < d <= 2 * N
  {
    var i := Xor(k[1], k[2]);
    var j := Xor(i, Shr(i, 4));
    N + 1 + k[0] + 256 * (j % 16)
  }

  /** Keys of one tree agree in their first byte; keys that agree in three are in one tree. */
  lemma {:induction false} HeadLcp(a: Key, b: Key)
    ensures Head(a) == Head(b) ==> Lcp(a, b) >= 1
    ensures Lcp(a, b) > THRESHOLD ==> Head(a) == Head(b)
  {
    hide Lcp, Xor, Shr;
  }

  // ------------------------------------------------------------- node values

  /** Keys of one tree lie strictly between Bound(head) and Bound(head + 1). */
  function Bound(d: nat): nat {
    if d == 0 then 0 else Bound(d - 1) + Pow256(F) + 1
  }

  lemma {:induction false} BoundMonotone(d: nat, e: nat)
    requires d <= e
    ensures Bound(d) <= Bound(e)
  {
    if d < e { BoundMonotone(d, e - 1); }
  }

  function KeyVal(k: Key): nat { Bound(Head(k)) + 1 + Num(k) }

  lemma {:induction false} KeyValBounds(k: Key)
    ensures Bound(Head(k)) < KeyVal(k) < Bound(Head(k) + 1)
  {
    NumBound(k);
  }

  /** Value order within a tree is key order, and equal values are equal keys. */
  lemma {:induction false} KeyValOrder(a: Key, b: Key)
    ensures KeyVal(a) == KeyVal(b) <==> a == b
    ensures Head(a) == Head(b) ==> (KeyVal(a) < KeyVal(b) <==> Num(a) < Num(b))
  {
    hide Bound, Num, Head;
    NumOrder(a, b);
    KeyValBounds(a);
    KeyValBounds(b);
    if Head(a) < Head(b) {
      BoundMonotone(Head(a) + 1, Head(b));
    } else if Head(b) < Head(a) {
      BoundMonotone(Head(b) + 1, Head(a));
    }
  }
}
