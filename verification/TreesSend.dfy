/** compress_block of archive/gzip/trees.c, and how many bits it sends. */
module TreesSend {
  import opened BitString
  import opened GzipBits
  import opened Canonical
  import opened Huffman
  import opened TreesLengths
  import opened TreesCodes
  import opened TreesTree
  import opened InflateFormat
  import opened TreesTables
  import opened TreesTokens
  import opened TreesTally

  // -------------------------------------------------------------------- sending

  /** Codes f of lengths ls, ready to be sent. */
  ghost predicate Ready(f: seq<nat>, ls: seq<nat>) { TreesCodes.Coded(f, ls, |ls|) && NoneAbove(ls, 15) }

  /** send_code. */
  method SendCode(w: BitSink, f: seq<nat>, ls: seq<nat>, i: nat)
    requires w.Valid() && Ready(f, ls) && i < |ls| && ls[i] > 0
    modifies w
    ensures w.Valid() && w.sent == old(w.sent) + Code(ls, i)
  {
    hide Holds, Lsb, Code;
    assert CodeSet(f, ls, i);
    w.SendBits(f[i], ls[i]);
  }

  lemma {:induction false} ItemsBitsMore(ll: seq<nat>, dl: seq<nat>, ks: seq<Item>, k: Item)
    requires AllInTrees(ll, dl, ks) && InTrees(ll, dl, k)
    ensures AllInTrees(ll, dl, ks + [k]) && ItemsBits(ll, dl, ks + [k]) == ItemsBits(ll, dl, ks) + ItemBits(ll, dl, k)
  {
    hide ItemBits, LitSym, DistSym, ItemOk;
    if ks == [] {
      assert [] + [k] == [k];
      assert [k][1..] == [];
    } else {
      ItemsBitsMore(ll, dl, ks[1..], k);
      assert (ks + [k])[1..] == ks[1..] + [k];
      var a, b, c := ItemBits(ll, dl, ks[0]), ItemsBits(ll, dl, ks[1..]), ItemBits(ll, dl, k);
      assert a + (b + c) == (a + b) + c;
    }
  }

  /** The items the flag byte at hand is still for. */
  function Pending(ks: seq<Item>, lx: nat): seq<Item>
    requires lx <= |ks|
  {
    if (lx + 7) / 8 * 8 <= |ks| then ks[lx..(lx + 7) / 8 * 8] else ks[lx..]
  }

  /** Take the next flag, loading a flag byte where one is needed. */
  lemma {:induction false} NextFlag(fb: seq<nat>, ks: seq<Item>, lx: nat, flag: nat)
    requires lx < |ks| && Flagged(fb, ks, (|ks| + 7) / 8) && flag == FlagBits(Pending(ks, lx))
    ensures lx / 8 < |fb|
    ensures var v := if lx % 8 == 0 then fb[lx / 8] else flag;
            (v % 2 == 1 <==> ks[lx].Back?) && v / 2 == FlagBits(Pending(ks, lx + 1))
    ensures (lx + 8) / 8 == lx / 8 + 1
    ensures lx % 8 == 0 ==> (lx + 7) / 8 == lx / 8
    ensures lx % 8 != 0 ==> (lx + 7) / 8 == lx / 8 + 1
  {
    hide FlagBits;
    assert FlagByte(fb, ks, lx / 8);
    var g := if lx % 8 == 0 then Group(ks, lx / 8) else Pending(ks, lx);
    assert lx % 8 == 0 ==> 8 * (lx / 8) == lx;
    assert g != [] && g[0] == ks[lx];
    assert g[1..] == Pending(ks, lx + 1);
    FlagsSplit(g);
  }

  lemma {:induction false} FlagsSplit(g: seq<Item>)
    requires g != []
    ensures FlagBits(g) % 2 == (if g[0].Back? then 1 else 0) && FlagBits(g) / 2 == FlagBits(g[1..])
  {
  }

  lemma {:induction false} NonePending(ks: seq<Item>)
    ensures FlagBits(Pending(ks, 0)) == 0 && ks[..0] == [] && Matches([]) == 0
  {
    NoFlags();
  }

  lemma {:induction false} NoItems(ll: seq<nat>, dl: seq<nat>)
    ensures ItemsBits(ll, dl, []) == []
  {
  }

  /** What the next item's place in the buffers holds. */
  lemma {:induction false} ItemFacts(lb: seq<nat>, db: seq<nat>, ks: seq<Item>, i: nat)
    requires AllStored(lb, db, ks) && i < |ks|
    ensures i < |lb| && ItemOk(ks[i]) && ks[..i + 1] == ks[..i] + [ks[i]]
    ensures match ks[i] {
              case Lit(b) => lb[i] == b
              case Back(len, dist) => lb[i] == len - 3 && Matches(ks[..i]) < |db| && db[Matches(ks[..i])] == dist - 1
            }
    ensures Matches(ks[..i + 1]) == Matches(ks[..i]) + if ks[i].Back? then 1 else 0
  {
    hide Matches;
    assert ItemStored(lb, db, ks, i);
    assert ks[..i + 1] == ks[..i] + [ks[i]];
    MatchesMore(ks[..i], ks[i]);
  }

  /** The codes and extra bits of a match. */
  method SendMatch(t: Tally, w: BitSink, lc: nat, dist: nat, lf: seq<nat>, ll: seq<nat>, df: seq<nat>, dl: seq<nat>,
                   ghost k: Item)
    requires w.Valid() && t.Tables() && Ready(lf, ll) && Ready(df, dl) && InTrees(ll, dl, k)
    requires k == Back(lc + 3, dist + 1)
    modifies w
    ensures w.Valid() && w.sent == old(w.sent) + ItemBits(ll, dl, k)
  {
    hide Holds, Lsb, Code, CpLens, CpLExt, CpDist, CpDExt, LenCode, DistCode, Ready, Pow2;
    ghost var s0 := w.sent;
    t.SymsFromTables(k);
    LengthParts(t.baseLength, lc + 3);
    DistanceParts(t.baseDist, dist + 1);
    LsbNone();
    var code := t.lengthCode[lc];
    SendCode(w, lf, ll, code + LITERALS + 1);
    var extra := CpLExt()[code];
    if extra != 0 {
      BaseIs(t.baseLength, code);
      w.SendBits(lc - t.baseLength[code], extra);
    }
    assert w.sent == s0 + Code(ll, LitSym(k)) + LenBits(k.len);
    var dcode := DCode(t.distCode, dist);
    SendCode(w, df, dl, dcode);
    var dextra := CpDExt()[dcode];
    if dextra != 0 {
      DistSpan(dcode);
      w.SendBits(dist - t.baseDist[dcode], dextra);
    }
    assert w.sent == s0 + Code(ll, LitSym(k)) + LenBits(k.len) + Code(dl, DistSym(k)) + DistBits(k.dist);
    FiveParts(s0, Code(ll, LitSym(k)), LenBits(k.len), Code(dl, DistSym(k)), DistBits(k.dist));
  }

  lemma {:induction false} LsbNone()
    ensures forall x: nat :: Lsb(x, 0) == []
  {
  }

  lemma {:induction false} FiveParts(s: seq<bool>, a: seq<bool>, b: seq<bool>, c: seq<bool>, d: seq<bool>)
    ensures s + a + b + c + d == s + (a + (b + (c + d)))
  {
  }

  /** compress_block: the bits of all items and of the end of the block. */
  method CompressBlock(t: Tally, w: BitSink, lf: seq<nat>, ll: seq<nat>, df: seq<nat>, dl: seq<nat>,
                       ghost ks: seq<Item>)
    requires w.Valid() && t.Tables() && t.Shaped() && Saved(t.lBuf[..], t.dBuf[..], t.flagBuf[..], ks)
    requires t.lastLit == |ks|
    requires Ready(lf, ll) && Ready(df, dl) && AllInTrees(ll, dl, ks) && END_BLOCK < |ll| && ll[END_BLOCK] > 0
    modifies w
    ensures w.Valid() && w.sent == old(w.sent) + BlockBits(ll, dl, ks)
  {
    hide Holds, Code, ItemBits, ItemsBits, LenTable, DistTable, Matches, FlagBits, InTrees, Pending, LitSym, DistSym,
         ItemOk, Ready, AllStored, Flagged;
    ghost var s0 := w.sent;
    var lx: nat, dx: nat, fx: nat, flag: nat := 0, 0, 0, 0;
    NonePending(ks);
    NoItems(ll, dl);
    while lx < t.lastLit
      invariant lx <= |ks| && t.lastLit == |ks| && dx == Matches(ks[..lx]) && fx == (lx + 7) / 8
      invariant flag == FlagBits(Pending(ks, lx))
      invariant w.Valid() && AllInTrees(ll, dl, ks[..lx]) && w.sent == s0 + ItemsBits(ll, dl, ks[..lx])
      invariant Saved(t.lBuf[..], t.dBuf[..], t.flagBuf[..], ks)
    {
      ghost var k, before := ks[lx], w.sent;
      NextFlag(t.flagBuf[..], ks, lx, flag);
      ItemFacts(t.lBuf[..], t.dBuf[..], ks, lx);
      ItemsBitsMore(ll, dl, ks[..lx], k);
      LiteralBits(ll, dl, k);
      if lx % 8 == 0 {
        flag := t.flagBuf[fx];
        fx := fx + 1;
      }
      var lc := t.lBuf[lx];
      lx := lx + 1;
      if flag % 2 == 0 {
        SendCode(w, lf, ll, lc);
      } else {
        MatchIs(k, lc, t.dBuf[dx]);
        SendMatch(t, w, lc, t.dBuf[dx], lf, ll, df, dl, k);
        dx := dx + 1;
      }
      assert (s0 + ItemsBits(ll, dl, ks[..lx - 1])) + ItemBits(ll, dl, k)
        == s0 + (ItemsBits(ll, dl, ks[..lx - 1]) + ItemBits(ll, dl, k));
      flag := flag / 2;
    }
    assert ks[..lx] == ks;
    SendCode(w, lf, ll, END_BLOCK);
    assert (s0 + ItemsBits(ll, dl, ks)) + Code(ll, END_BLOCK) == s0 + BlockBits(ll, dl, ks);
  }

  lemma {:induction false} LiteralBits(ll: seq<nat>, dl: seq<nat>, k: Item)
    requires InTrees(ll, dl, k)
    ensures k.Lit? ==> k.b < |ll| && ll[k.b] > 0 && ItemBits(ll, dl, k) == Code(ll, k.b)
    ensures LitSym(k) < |ll| && (k.Back? ==> DistSym(k) < |dl|)
  {
    hide Code;
  }

  lemma {:induction false} MatchIs(k: Item, lc: nat, dist: nat)
    requires ItemOk(k) && (k.Back? ==> lc == k.len - 3 && dist == k.dist - 1)
    ensures k.Back? ==> k == Back(lc + 3, dist + 1)
  {
  }

  // ---------------------------------------------------------------------- sizes

  function AllBelow(n: nat): (s: set<nat>)
    ensures forall x: nat :: x in s <==> x < n
  {
    if n == 0 then {} else AllBelow(n - 1) + {n - 1}
  }

  function LitFreqs(ks: seq<Item>): (f: seq<nat>)
    ensures |f| == L_CODES
  {
    seq(L_CODES, c requires 0 <= c => LitUses(ks, c) + if c == END_BLOCK then 1 else 0)
  }

  function DistFreqs(ks: seq<Item>): (f: seq<nat>)
    ensures |f| == D_CODES
  {
    seq(D_CODES, c requires 0 <= c => DistUses(ks, c))
  }

  /** Bits that lengths l and d give the items, counted by code. */
  function CodedSize(ks: seq<Item>, l: seq<nat>, d: seq<nat>): nat {
    Sum(AllBelow(L_CODES), BitCosts(LitFreqs(ks), l, ExtraLBits(), 257))
      + Sum(AllBelow(D_CODES), BitCosts(DistFreqs(ks), d, CpDExt(), 0))
  }

  lemma {:induction false} OneMoreUse(f: seq<nat>, g: seq<nat>, c: nat, l: seq<nat>, extra: seq<nat>, base: nat)
    requires c < |f| <= |l| && g == f[c := f[c] + 1]
    ensures Sum(AllBelow(|f|), BitCosts(g, l, extra, base))
      == Sum(AllBelow(|f|), BitCosts(f, l, extra, base)) + l[c] + Xbits(extra, base, c)
  {
    hide Sum;
    var s, v := BitCosts(f, l, extra, base), l[c] + Xbits(extra, base, c);
    assert (f[c] + 1) * v == f[c] * v + v;
    assert BitCosts(g, l, extra, base) == s[c := g[c] * v];
    assert s[c] == f[c] * v && c in AllBelow(|f|);
    SumUpdate(AllBelow(|f|), s, c, g[c] * v);
  }

  function ItemSize(l: seq<nat>, d: seq<nat>, k: Item): nat
    requires ItemOk(k) && L_CODES <= |l| && D_CODES <= |d|
  {
    l[LitSym(k)] + if k.Back? then CpLExt()[LenCode(k.len)] + d[DistSym(k)] + CpDExt()[DistCode(k.dist)] else 0
  }

  lemma {:induction false} SizeMore(ks: seq<Item>, k: Item, l: seq<nat>, d: seq<nat>)
    requires ItemOk(k) && L_CODES <= |l| && D_CODES <= |d|
    ensures CodedSize(ks + [k], l, d) == CodedSize(ks, l, d) + ItemSize(l, d, k)
  {
    hide AllBelow, Sum, LitUses, DistUses, LenCode, DistCode, CpLExt, CpDExt;
    forall c ensures LitUses(ks + [k], c) == LitUses(ks, c) + (if LitSym(k) == c then 1 else 0)
                     && DistUses(ks + [k], c) == DistUses(ks, c) + if k.Back? && DistSym(k) == c then 1 else 0
    {
      UsesMore(ks, k, c);
    }
    var f, g, c := LitFreqs(ks), LitFreqs(ks + [k]), LitSym(k);
    assert g == f[c := f[c] + 1];
    OneMoreUse(f, g, c, l, ExtraLBits(), 257);
    var df, dg := DistFreqs(ks), DistFreqs(ks + [k]);
    if k.Back? {
      assert dg == df[DistSym(k) := df[DistSym(k)] + 1];
      OneMoreUse(df, dg, DistSym(k), d, CpDExt(), 0);
    } else {
      assert dg == df;
    }
  }

  lemma {:induction false} NoUses()
    ensures forall c :: LitUses([], c) == 0 && DistUses([], c) == 0
  {
  }

  lemma {:induction false} SizeNone(l: seq<nat>, d: seq<nat>)
    requires L_CODES <= |l| && D_CODES <= |d|
    ensures CodedSize([], l, d) == l[END_BLOCK]
  {
    hide AllBelow, Sum, CpLExt, CpDExt, LitUses, DistUses;
    assert forall c :: LitUses([], c) == 0 && DistUses([], c) == 0 by { NoUses(); }
    var f := LitFreqs([]);
    var z: seq<nat> := seq(L_CODES, _ => 0);
    SumZero(AllBelow(D_CODES), BitCosts(DistFreqs([]), d, CpDExt(), 0));
    SumZero(AllBelow(L_CODES), BitCosts(z, l, ExtraLBits(), 257));
    assert f == z[END_BLOCK := 1];
    OneMoreUse(z, f, END_BLOCK, l, ExtraLBits(), 257);
  }

  /** The sum over the codes is the number of bits compress_block sends. */
  lemma {:induction false} SizeExact(ks: seq<Item>, l: seq<nat>, d: seq<nat>, nl: nat, nd: nat)
    requires nl <= |l| && L_CODES <= |l| && nd <= |d| && D_CODES <= |d| && AllInTrees(l[..nl], d[..nd], ks)
    requires END_BLOCK < nl
    ensures |BlockBits(l[..nl], d[..nd], ks)| == CodedSize(ks, l, d)
    decreases |ks|
  {
    hide LitFreqs, DistFreqs, BitCosts, Sum, CodedSize, LenCode, DistCode, CpLExt, CpDExt, CpLens, CpDist, Lsb, Code;
    var ll, dl := l[..nl], d[..nd];
    if ks == [] {
      SizeNone(l, d);
    } else {
      var a, k := ks[..|ks| - 1], ks[|ks| - 1];
      assert ks == a + [k];
      SizeExact(a, l, d, nl, nd);
      SizeMore(a, k, l, d);
      ItemsBitsMore(ll, dl, a, k);
      ItemBitsSize(l, d, nl, nd, k);
    }
  }

  lemma {:induction false} ItemBitsSize(l: seq<nat>, d: seq<nat>, nl: nat, nd: nat, k: Item)
    requires nl <= |l| && L_CODES <= |l| && nd <= |d| && D_CODES <= |d| && InTrees(l[..nl], d[..nd], k)
    ensures |ItemBits(l[..nl], d[..nd], k)| == ItemSize(l, d, k)
  {
    hide LenCode, DistCode, CpLExt, CpDExt, CpLens, CpDist, Lsb;
  }

  lemma {:induction false} UsedSum(f: seq<nat>, g: seq<nat>, n: nat, l: seq<nat>, extra: seq<nat>, base: nat)
    requires |g| == n <= |f| && n <= |l| && forall c :: 0 <= c < n ==> g[c] == f[c]
    ensures Sum(Used(f, n), BitCosts(f, l, extra, base)) == Sum(AllBelow(n), BitCosts(g, l, extra, base))
  {
    hide Sum;
    var u, s := Used(f, n), BitCosts(g, l, extra, base);
    SumPrefix(u, BitCosts(f, l, extra, base), s, n);
    var rest := AllBelow(n) - u;
    assert u + rest == AllBelow(n);
    SumUnion(u, rest, s);
    forall x | x in rest && x < |s| ensures s[x] == 0 { assert g[x] == 0; }
    SumZero(rest, s);
  }

  /** The sum build_tree takes over the codes in use is the size of the block. */
  lemma {:induction false} CountedSum(lf: seq<nat>, df: seq<nat>, ks: seq<Item>, l: seq<nat>, d: seq<nat>)
    requires Counted(lf, df, ks) && L_CODES <= |l| && D_CODES <= |d|
    ensures Sum(Used(lf, L_CODES), BitCosts(lf, l, ExtraLBits(), 257))
      + Sum(Used(df, D_CODES), BitCosts(df, d, CpDExt(), 0)) == CodedSize(ks, l, d)
  {
    hide AllBelow, Sum, BitCosts, Used, LitUses, DistUses;
    UsedSum(lf, LitFreqs(ks), L_CODES, l, ExtraLBits(), 257);
    UsedSum(df, DistFreqs(ks), D_CODES, d, CpDExt(), 0);
  }
}
