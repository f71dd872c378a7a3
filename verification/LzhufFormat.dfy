/** What an LHarc stream of archive/lharc/lzhuf.c means: tokens, their bits, their text. */
module LzhufFormat {
  import opened BitString
  import opened Lz
  import opened LzhufBits
  import opened LzhufKeys
  import opened LzhufPosition
  import LT = LzhufTree

  /** A literal byte, or a copy of len bytes from pos + 1 bytes back. */
  datatype Token = Lit(b: byte) | Match(len: nat, pos: nat)

  predicate TokenOk(k: Token) {
    k.Match? ==> THRESHOLD < k.len <= F && k.pos < N
  }

  predicate TokensOk(ks: seq<Token>) { forall i :: 0 <= i < |ks| ==> TokenOk(ks[i]) }

  /** The code of a token's first part: the byte itself, or 255 - THRESHOLD + len. */
  function Sym(k: Token): (c: nat)
    requires TokenOk(k)
    ensures c < LT.N_CHR
  {
    match k
    case Lit(b) => b
    case Match(len, _) => 255 - THRESHOLD + len
  }

  // ------------------------------------------------------------------- bits

  function TokenBits(t: LT.Tree, k: Token): (s: seq<bool>)
    requires LT.Valid(t) && TokenOk(k)
  {
    LT.CharCode(t, Sym(k)) + (if k.Match? then PosCode(k.pos) else [])
  }

  /** The tree adapts after every token. */
  function TreeAfter(t: LT.Tree, ks: seq<Token>): (r: LT.Tree)
    requires LT.Valid(t) && TokensOk(ks)
    ensures LT.Valid(r)
    decreases |ks|
  {
    if ks == [] then t else TreeAfter(LT.Update(t, Sym(ks[0])), ks[1..])
  }

  function StreamBits(t: LT.Tree, ks: seq<Token>): (s: seq<bool>)
    requires LT.Valid(t) && TokensOk(ks)
    decreases |ks|
  {
    if ks == [] then []
    else TokenBits(t, ks[0]) + StreamBits(LT.Update(t, Sym(ks[0])), ks[1..])
  }

  lemma {:induction false} StreamSnoc(t: LT.Tree, ks: seq<Token>, k: Token)
    requires LT.Valid(t) && TokensOk(ks) && TokenOk(k)
    ensures TokensOk(ks + [k])
    ensures StreamBits(t, ks + [k]) == StreamBits(t, ks) + TokenBits(TreeAfter(t, ks), k)
    ensures TreeAfter(t, ks + [k]) == LT.Update(TreeAfter(t, ks), Sym(k))
    decreases |ks|
  {
    hide TokenBits, LT.Valid, LT.Update;
    if ks == [] {
      assert ([k])[1..] == [];
      assert ks + [k] == [k];
    } else {
      var u := LT.Update(t, Sym(ks[0]));
      StreamSnoc(u, ks[1..], k);
      assert (ks + [k])[1..] == ks[1..] + [k];
      assert TokenBits(t, ks[0]) + (StreamBits(u, ks[1..]) + TokenBits(TreeAfter(u, ks[1..]), k))
          == StreamBits(t, ks) + TokenBits(TreeAfter(t, ks), k);
    }
  }

  // ------------------------------------------------------------------- text

  /** A token copies only from what is there. */
  predicate Reaches(n: nat, k: Token) {
    TokenOk(k) && (k.Match? ==> k.pos < n)
  }

  function Size(k: Token): nat {
    if k.Match? then k.len else 1
  }

  function Apply(h: seq<byte>, k: Token): (r: seq<byte>)
    requires Reaches(|h|, k)
    ensures |r| == |h| + Size(k) && h <= r
  {
    match k
    case Lit(b) => h + [b]
    case Match(len, pos) => Copy(h, len, pos + 1)
  }

  predicate AllReach(n: nat, ks: seq<Token>)
    decreases |ks|
  {
    ks == [] || (Reaches(n, ks[0]) && AllReach(n + Size(ks[0]), ks[1..]))
  }

  /** The history after a sequence of tokens. */
  function Text(h: seq<byte>, ks: seq<Token>): (r: seq<byte>)
    requires AllReach(|h|, ks)
    ensures h <= r && |r| >= |h| + |ks|
    decreases |ks|
  {
    if ks == [] then h else Text(Apply(h, ks[0]), ks[1..])
  }

  lemma {:induction false} ReachOk(n: nat, ks: seq<Token>)
    requires AllReach(n, ks)
    ensures TokensOk(ks)
    decreases |ks|
  {
    if ks != [] {
      ReachOk(n + Size(ks[0]), ks[1..]);
      forall i | 0 <= i < |ks| ensures TokenOk(ks[i]) {
        if i > 0 { assert ks[i] == ks[1..][i - 1]; }
      }
    }
  }

  lemma {:induction false} TextSnoc(h: seq<byte>, ks: seq<Token>, k: Token)
    requires AllReach(|h|, ks) && Reaches(|Text(h, ks)|, k)
    ensures AllReach(|h|, ks + [k]) && Text(h, ks + [k]) == Apply(Text(h, ks), k)
    decreases |ks|
  {
    hide Apply;
    if ks == [] {
      assert ([k])[1..] == [];
      assert ks + [k] == [k];
    } else {
      TextSnoc(Apply(h, ks[0]), ks[1..], k);
      assert (ks + [k])[1..] == ks[1..] + [k];
    }
  }

  /** What lies before the history a token sequence reaches does not matter. */
  lemma {:induction false} TextAfter(g: seq<byte>, h: seq<byte>, ks: seq<Token>)
    requires AllReach(|h|, ks)
    ensures AllReach(|g + h|, ks) && Text(g + h, ks) == g + Text(h, ks)
    decreases |ks|
  {
    hide Apply;
    if ks != [] {
      ApplyAfter(g, h, ks[0]);
      TextAfter(g, Apply(h, ks[0]), ks[1..]);
    }
  }

  lemma {:induction false} ApplyAfter(g: seq<byte>, h: seq<byte>, k: Token)
    requires Reaches(|h|, k)
    ensures Reaches(|g + h|, k) && Apply(g + h, k) == g + Apply(h, k)
    ensures |Apply(h, k)| == |h| + Size(k)
  {
    match k {
      case Lit(b) => assert (g + h) + [b] == g + (h + [b]);
      case Match(len, pos) => CopyAfter(g, h, len, pos + 1);
    }
  }

  // --------------------------------------------------------------- uniqueness

  /** The stream s starts with these bits. */
  ghost predicate Starts(s: seq<bool>, bits: seq<bool>) {
    forall i :: 0 <= i < |bits| ==> bits[i] == At(s, i)
  }

  /** The stream after n bits. */
  function Drop(s: seq<bool>, n: nat): seq<bool> { if n <= |s| then s[n..] else [] }

  lemma {:induction false} StartsSplit(s: seq<bool>, a: seq<bool>, b: seq<bool>)
    requires Starts(s, a + b)
    ensures Starts(s, a) && Starts(Drop(s, |a|), b)
  {
    forall i | 0 <= i < |a| ensures a[i] == At(s, i) { assert (a + b)[i] == a[i]; }
    forall i | 0 <= i < |b| ensures b[i] == At(Drop(s, |a|), i) { assert (a + b)[|a| + i] == b[i]; }
  }

  lemma {:induction false} StartsPrefix(s: seq<bool>, a: seq<bool>, b: seq<bool>)
    requires Starts(s, a) && Starts(s, b)
    ensures a <= b || b <= a
  {
    if |a| <= |b| { assert a == b[..|a|]; } else { assert b == a[..|b|]; }
  }

  /** One tree reads at most one first token in a stream. */
  lemma {:induction false} FirstToken(t: LT.Tree, j: Token, k: Token, s: seq<bool>)
    requires LT.Valid(t) && TokenOk(j) && TokenOk(k)
    requires Starts(s, TokenBits(t, j)) && Starts(s, TokenBits(t, k))
    ensures j == k
  {
    hide LT.Valid, LT.CharCode, PosCode;
    LT.TreeParts(t);
    var cj, ck := LT.CharCode(t, Sym(j)), LT.CharCode(t, Sym(k));
    var pj, pk := if j.Match? then PosCode(j.pos) else [], if k.Match? then PosCode(k.pos) else [];
    StartsSplit(s, cj, pj);
    StartsSplit(s, ck, pk);
    StartsPrefix(s, cj, ck);
    if cj <= ck { LT.PrefixFree(t, Sym(j), Sym(k)); } else { LT.PrefixFree(t, Sym(k), Sym(j)); }
    if j.Match? && k.Match? {
      PosCodeUnique(j.pos, k.pos, Drop(s, |cj|));
    }
  }

  lemma {:induction false} ConsPrefix(js: seq<Token>, ks: seq<Token>)
    requires js != [] && ks != [] && js[0] == ks[0]
    ensures js[1..] <= ks[1..] ==> js <= ks
    ensures ks[1..] <= js[1..] ==> ks <= js
  {
    assert js == [js[0]] + js[1..] && ks == [ks[0]] + ks[1..];
  }

  lemma {:induction false} StreamCons(t: LT.Tree, ks: seq<Token>)
    requires LT.Valid(t) && TokensOk(ks) && ks != []
    ensures LT.Valid(LT.Update(t, Sym(ks[0]))) && TokensOk(ks[1..])
    ensures StreamBits(t, ks) == TokenBits(t, ks[0]) + StreamBits(LT.Update(t, Sym(ks[0])), ks[1..])
  {
    hide LT.Valid, TokenBits, LT.Update;
  }

  /** Of two token sequences read from one stream one starts the other. */
  lemma {:induction false} OneReading(t: LT.Tree, js: seq<Token>, ks: seq<Token>, s: seq<bool>)
    requires LT.Valid(t) && TokensOk(js) && TokensOk(ks)
    requires Starts(s, StreamBits(t, js)) && Starts(s, StreamBits(t, ks))
    ensures js <= ks || ks <= js
    decreases |js|
  {
    if js != [] && ks != [] {
      hide LT.Valid, TokenBits, LT.Update, Starts, StreamBits;
      var j, k := js[0], ks[0];
      var u, v := LT.Update(t, Sym(j)), LT.Update(t, Sym(k));
      StreamCons(t, js);
      StreamCons(t, ks);
      StartsSplit(s, TokenBits(t, j), StreamBits(u, js[1..]));
      StartsSplit(s, TokenBits(t, k), StreamBits(v, ks[1..]));
      FirstToken(t, j, k, s);
      OneReading(u, js[1..], ks[1..], Drop(s, |TokenBits(t, j)|));
      ConsPrefix(js, ks);
    }
  }
}
