/** Which kind of block flush_block of archive/gzip/trees.c chooses, and when it is the shortest:
    the sizes it compares leave out where the block starts, and for a stored block the bits of its
    kind and the filling to a byte. */
module TreesChoice {
  import opened BitString
  import opened Canonical
  import opened InflateFormat
  import opened Huffman
  import TreesKraft
  import opened PrefixCodes
  import opened TreesRuns
  import opened TreesTables
  import opened TreesTokens
  import opened TreesSend
  import opened TreesHeader
  import opened TreesFlush

  // --------------------------------------------------------------- the condition

  /** The output is in no more bytes after a block of size bits from bit n on than after any
      other kind of block for the same text. */
  predicate Shortest(n: nat, size: nat, here: bool, len: nat, st: nat, dy: nat) {
    && InBytes(n + size) <= InBytes(n + 3 + st) && InBytes(n + size) <= InBytes(n + 3 + dy)
    && (here ==> InBytes(n + size) <= InBytes(n + StoredTotal(n, len)))
  }

  /** A stored block: its bytes and words, from the next byte boundary after its kind, go no
      further than the smaller coded one.  A static block that has more bits than the dynamic one:
      it ends in the same byte.  A dynamic block: always. */
  predicate Fits(n: nat, here: bool, len: nat, st: nat, dy: nat) {
    if StoresIt(here, len, st, dy) then (n + 3 + 7) / 8 + len + 4 <= InBytes(n + 3 + if st < dy then st else dy)
    else Smaller(st, dy) == st && dy < st ==> (n + 3 + dy - 1) / 8 == (n + 3 + st - 1) / 8
  }

  /** The block written is the shortest exactly then. */
  lemma {:induction false} ShortestIff(bits: seq<bool>, eof: bool, body: Body, n: nat, here: bool, buf: seq<byte>,
                                       dyn: seq<bool>, ks: seq<Item>)
    requires BlockOf(bits, eof, body, n, here, buf, dyn, ks)
    ensures Shortest(n, |bits|, here, |buf|, |StaticBits(ks)|, |dyn|) <==>
            Fits(n, here, |buf|, |StaticBits(ks)|, |dyn|)
  {
    hide ReadsAs, DynamicOf, FromTrees, StaticBits, ItemsOk;
    ChosenShortest(n, here, |buf|, |StaticBits(ks)|, |dyn|);
  }

  lemma {:induction false} ChosenShortest(n: nat, here: bool, len: nat, st: nat, dy: nat)
    ensures Shortest(n, Chosen(n, here, len, st, dy), here, len, st, dy) <==> Fits(n, here, len, st, dy)
  {
    if StoresIt(here, len, st, dy) {
      StoredEnd(n, len);
    } else if here {
      CodedFirst(n, len, Smaller(st, dy));
    }
  }

  lemma {:induction false} StoredEnd(n: nat, len: nat)
    ensures InBytes(n + StoredTotal(n, len)) == (n + 3 + 7) / 8 + len + 4
  {
  }

  /** A coded block chosen ends before a stored one would. */
  lemma {:induction false} CodedFirst(n: nat, len: nat, c: nat)
    requires InBytes(3 + c) < len + 4
    ensures InBytes(n + 3 + c) <= InBytes(n + StoredTotal(n, len))
  {
    StoredEnd(n, len);
  }

  /** What the choice can lose: two bytes with a stored block, one with a static one. */
  lemma {:induction false} LossBound(bits: seq<bool>, eof: bool, body: Body, n: nat, here: bool, buf: seq<byte>,
                                     dyn: seq<bool>, ks: seq<Item>)
    requires BlockOf(bits, eof, body, n, here, buf, dyn, ks)
    ensures var loss := if body.Stored? then 2 else 1;
            InBytes(n + |bits|) <= InBytes(n + 3 + |StaticBits(ks)|) + loss
            && InBytes(n + |bits|) <= InBytes(n + 3 + |dyn|) + loss
    ensures here ==> InBytes(n + |bits|) <= InBytes(n + StoredTotal(n, |buf|))
  {
    hide ReadsAs, DynamicOf, FromTrees, StaticBits, ItemsOk;
    var st, dy := |StaticBits(ks)|, |dyn|;
    StoredEnd(n, |buf|);
    if !StoresIt(here, |buf|, st, dy) && here { CodedFirst(n, |buf|, Smaller(st, dy)); }
  }

  // ----------------------------------------------------- a text that takes more

  /** The bytes 0, 1, ..., n - 1, and the items for them. */
  function Ascending(n: nat): (s: seq<byte>)
    requires n <= 256
    ensures |s| == n
  {
    seq(n, i requires 0 <= i < n => i)
  }

  function Literals(n: nat): (s: seq<Item>)
    requires n <= 256
    ensures |s| == n && forall i :: 0 <= i < n ==> s[i] == Lit(i)
  {
    seq(n, i requires 0 <= i < n => Lit(i))
  }

  lemma {:induction false} LiteralsSize(ll: seq<nat>, dl: seq<nat>, n: nat)
    requires n <= 256 && AllInTrees(ll, dl, Literals(n))
    ensures n <= |ll| && |ItemsBits(ll, dl, Literals(n))| == Sum(AllBelow(n), ll)
    ensures forall x :: 0 <= x < n ==> ll[x] > 0
    decreases n
  {
    hide Sum, Code;
    if n == 0 {
      TreesKraft.SumNone(ll);
    } else {
      var a, k := Literals(n - 1), Lit(n - 1);
      assert Literals(n) == a + [k];
      assert InTrees(ll, dl, Literals(n)[n - 1]);
      assert forall i :: 0 <= i < n - 1 ==> a[i] == Literals(n)[i];
      LiteralsSize(ll, dl, n - 1);
      ItemsBitsMore(ll, dl, a, k);
      SumAdd(AllBelow(n - 1), ll, n - 1);
    }
  }

  lemma {:induction false} StaticSum(n: nat)
    requires n <= 256
    ensures Sum(AllBelow(n), FixedLit()) == if n <= 144 then 8 * n else 1152 + 9 * (n - 144)
    decreases n
  {
    hide Sum;
    if n == 0 {
      TreesKraft.SumNone(FixedLit());
    } else {
      StaticSum(n - 1);
      SumAdd(AllBelow(n - 1), FixedLit(), n - 1);
    }
  }

  /** Lengths of 7 and 8 are the cheapest at this price for what they take of all patterns. */
  lemma {:induction false} Tangent(l: nat)
    requires 1 <= l <= 15
    ensures 128 * l + Share(l, 15) >= 1152
  {
    Pow2Values();
    assert Pow2(9) == 512 && Pow2(10) == 1024 && Pow2(11) == 2048 && Pow2(12) == 4096 && Pow2(13) == 8192;
    assert Pow2(14) == 16384;
  }

  lemma {:induction false} TangentSum(a: set<nat>, l: seq<nat>)
    requires forall x :: x in a && x < |l| ==> 1 <= l[x] <= 15
    ensures 128 * Sum(a, l) + Sum(a, Shares(l, 15)) >= 1152 * Sum(a, Repeat(|l|, 1))
  {
    hide Share;
    if l != [] {
      var n := |l| - 1;
      TangentSum(a, l[..n]);
      assert Shares(l, 15)[..n] == Shares(l[..n], 15);
      assert Repeat(|l|, 1)[..n] == Repeat(n, 1);
      if n in a { Tangent(l[n]); }
    }
  }

  /** The codes of complete lengths, by Kraft's inequality. */
  lemma {:induction false} KraftOf(a: set<nat>, l: seq<nat>)
    requires Complete(l, 15) && forall x :: x in a ==> x < |l| && l[x] > 0
    ensures Sum(a, Shares(l, 15)) <= Pow2(15)
  {
    hide Code, Sum, Spare;
    var cs: seq<seq<bool>> := seq(|l|, i requires 0 <= i < |l| => Code(l, i));
    forall x, y | x in a && y in a && x != y ensures !(cs[x] <= cs[y]) {
      if cs[x] <= cs[y] { Canonical.PrefixFree(l, 15, x, y); }
    }
    assert CodeLengths(cs) == l;
    KraftInequality(a, cs, 15);
  }

  lemma {:induction false} CountBelow(n: nat, m: nat)
    requires n <= m
    ensures Sum(AllBelow(n), Repeat(m, 1)) == n
    decreases n
  {
    hide Sum;
    if n == 0 {
      TreesKraft.SumNone(Repeat(m, 1));
    } else {
      CountBelow(n - 1, m);
      SumAdd(AllBelow(n - 1), Repeat(m, 1), n - 1);
    }
  }

  const USED: nat := 166

  /** 167 codes of a complete set have 1247 bits at least. */
  lemma {:induction false} CodesAtLeast(l: seq<nat>)
    requires Complete(l, 15) && |l| >= 257 && l[END_BLOCK] > 0 && forall x :: 0 <= x < USED ==> l[x] > 0
    ensures Sum(AllBelow(USED), l) + l[END_BLOCK] >= 1247
    ensures 2 * NonZero(l) >= 334
  {
    hide Sum, Spare, Share, NonZero;
    var a := AllBelow(USED) + {END_BLOCK};
    KraftOf(a, l);
    TangentSum(a, l);
    CountBelow(USED, |l|);
    SumAdd(AllBelow(USED), l, END_BLOCK);
    SumAdd(AllBelow(USED), Repeat(|l|, 1), END_BLOCK);
    NonZeroAtLeast(a, l);
    Pow2Values();
    assert Pow2(12) == 4096 && Pow2(15) == 8 * Pow2(12);
  }

  /** How many entries are not zero. */
  function NonZero(l: seq<nat>): nat {
    if l == [] then 0 else NonZero(l[..|l| - 1]) + if l[|l| - 1] != 0 then 1 else 0
  }

  lemma {:induction false} NonZeroAtLeast(a: set<nat>, l: seq<nat>)
    requires forall x :: x in a && x < |l| ==> l[x] > 0
    ensures NonZero(l) >= Sum(a, Repeat(|l|, 1))
  {
    if l != [] {
      var n := |l| - 1;
      assert Repeat(|l|, 1)[..n] == Repeat(n, 1);
      NonZeroAtLeast(a, l[..n]);
    }
  }

  lemma {:induction false} NonZeroSplit(x: seq<nat>, y: seq<nat>)
    ensures NonZero(x + y) == NonZero(x) + NonZero(y)
    decreases |y|
  {
    if y == [] {
      assert x + y == x;
    } else {
      assert (x + y)[..|x + y| - 1] == x + y[..|y| - 1];
      NonZeroSplit(x, y[..|y| - 1]);
    }
  }

  lemma {:induction false} NonZeroRepeat(n: nat, v: nat)
    ensures NonZero(Repeat(n, v)) == if v == 0 then 0 else n
    decreases n
  {
    if n > 0 {
      assert Repeat(n, v)[..n - 1] == Repeat(n - 1, v);
      NonZeroRepeat(n - 1, v);
    }
  }

  /** A run code takes at least half a bit for each length that is not zero. */
  lemma {:induction false} OpAtLeast(b: seq<nat>, o: Op, last: nat)
    requires OpOk(o) && o.code < |b| && b[o.code] > 0
    ensures 2 * |OpBits(b, o)| >= NonZero(Means(o, last))
  {
    hide Code, Pow2, NonZero;
    if o.code < 16 {
      NonZeroRepeat(1, o.code);
      assert [o.code] == Repeat(1, o.code);
    } else {
      Pow2Values();
      NonZeroRepeat((if o.code == REPZ_11_138 then 11 else 3) + o.extra, After(o, last));
    }
  }

  lemma {:induction false} OpsAtLeast(b: seq<nat>, os: seq<Op>, last: nat)
    requires InTree(b, os) && OpsOk(os) && forall i :: 0 <= i < |os| ==> b[os[i].code] > 0
    ensures 2 * |OpsBits(b, os)| >= NonZero(Expand(os, last))
    decreases |os|
  {
    hide OpOk, OpBits, Means, NonZero;
    if os == [] {
      assert NonZero([]) == 0 by { NonZeroRepeat(0, 0); assert Repeat(0, 0) == []; }
    } else {
      var o, rest := os[0], os[1..];
      assert os == [o] + rest;
      OpAtLeast(b, o, last);
      OpsAtLeast(b, rest, After(o, last));
      OpsBitsSplit(b, [o], rest);
      assert OpsBits(b, [o]) == OpBits(b, o) by { assert [o][..0] == []; }
      NonZeroSplit(Means(o, last), Expand(rest, After(o, last)));
    }
  }

  /** No trees make a dynamic block of the 166 bytes that takes less than 170 bytes. */
  lemma {:induction false} DynamicAtLeast(dyn: seq<bool>)
    requires FromTrees(dyn, Literals(USED))
    ensures |dyn| >= 1357
  {
    hide DynOk, DynBits, NonZero, Sum;
    var la, lb, nb, b :| DynOk(la, lb, nb, b, Literals(USED)) && dyn == DynBits(la, lb, nb, b, Literals(USED));
    TreesAtLeast(la, lb, nb, b);
  }

  lemma {:induction false} TreesAtLeast(la: seq<nat>, lb: seq<nat>, nb: nat, b: seq<nat>)
    requires DynOk(la, lb, nb, b, Literals(USED))
    ensures |DynBits(la, lb, nb, b, Literals(USED))| >= 1357
  {
    hide NonZero, Sum, HeaderBits, Spare, AllRuns, ItemsBits, InTrees, Code;
    var os := AllRuns(la) + AllRuns(lb);
    LiteralsSize(la, lb, USED);
    CodesAtLeast(la);
    HeaderSize(|la|, |lb|, nb, b, os);
    RunsInverse(la, lb);
    OpsAtLeast(b, os, 0);
    NonZeroSplit(la, lb);
  }

  /** The text 0, 1, ..., 165 at the start of a byte: it is stored, in 171 bytes, although the
      static block would take 170, whatever the trees of the dynamic one. */
  lemma {:induction false} StoredLoses(bits: seq<bool>, eof: bool, body: Body, n: nat, dyn: seq<bool>)
    requires BlockOf(bits, eof, body, n, true, Ascending(USED), dyn, Literals(USED)) && n % 8 == 0
    ensures body == Stored(Ascending(USED)) && |bits| == 8 * 171 && 3 + |StaticBits(Literals(USED))| == 8 * 170
    ensures !Shortest(n, |bits|, true, USED, |StaticBits(Literals(USED))|, |dyn|)
  {
    hide ReadsAs, DynamicOf, FromTrees, Sum, ItemsBits, ItemsOk;
    DynamicAtLeast(dyn);
    LiteralsStatic();
  }

  lemma {:induction false} LiteralsStatic()
    requires ItemsOk(Literals(USED))
    ensures |StaticBits(Literals(USED))| == 1357
  {
    hide Sum, ItemsBits, Code, InTrees;
    FixedInTrees(Literals(USED));
    LiteralsSize(FixedLit(), FixedDist(), USED);
    StaticSum(USED);
  }
}
