/** The format of archive/lharc/lzhuf.c in numbers. */
module LzhufNumbers {
  import opened BitString
  import opened Lz
  import opened LzhufTree
  import opened LzhufLaws
  import opened LzhufKeys
  import opened LzhufFormat
  import opened LzhufDecode
  import opened LzhufWindow
  import opened LzhufEncode

  // -------------------------------------------------------------------------- tokens

  /** The tokens in numbers: copies have 3 to 60 bytes and come from 1 to 4096 bytes back, and text
      starts behind 4036 blanks. */
  lemma {:induction false} TokenNumbers(k: Token)
    ensures TokenOk(k) <==> (k.Match? ==> 3 <= k.len <= 60 && k.pos < 4096)
    ensures TokenOk(k) ==> Sym(k) == if k.Match? then 253 + k.len else k.b
    ensures |Blank()| == 4036 && forall i :: 0 <= i < 4036 ==> Blank()[i] == 32
  {
  }

  /** The tree of a string: 4097 and the first byte, and 256 times four bits of the next two. */
  lemma {:induction false} HeadNumbers(k: Key)
    ensures k[1] == 98 && k[2] == 99 ==> Head(k) == 0x100 + 4097 + (k[0] as nat)
    ensures k[1] == 0x37 && k[2] == 0 ==> Head(k) == 0x400 + 4097 + (k[0] as nat)
  {
    hide Xor, Shr;
    XorNumbers();
  }

  lemma {:induction false} XorNumbers()
    ensures Xor(98, 99) == 1 && Xor(0x37, 0) == 0x37 && Shr(1, 4) == 0 && Shr(0x37, 4) == 3
    ensures Xor(1, 0) == 1 && Xor(0x37, 3) == 0x34
  {
  }

  /** In numbers, what it means that no token is shorter than it could be: no string from 4036 bytes
      back on repeats more, those that start in the blanks counting for the first 3976 bytes of
      the input only. */
  lemma {:induction false} LongestNumbers(full: seq<byte>, a: nat, q: nat, ml: nat, n: nat)
    requires NoneBefore(full, a, |full|, ml) && q < a <= q + 4036 && (q < 4036 ==> a <= 8012)
    requires n == (if ml > 2 then ml else 2) + 1 <= 60
    ensures !Repeats(full, a, a + n, a - q)
  {
    hide Repeats;
    assert InReach(a, q) && NoRepeat(full, a, |full|, a - q, n);
    if a + n > |full| { BeyondEnd(full, a, a + n, a - q); }
  }

  lemma {:induction false} BeyondEnd(full: seq<byte>, a: nat, b: nat, d: nat)
    requires b > |full|
    ensures !Repeats(full, a, b, d)
  {
  }

  /** The file of the one letter a. */
  lemma {:induction false} LetterFile(file: seq<byte>, toks: seq<Token>)
    requires Encodes([97], file, toks)
    ensures toks == [Lit(97)] && |file| == 2 && file[0] == 0xf6 && file[1] >= 0x80
  {
    hide Valid, Linked, Start, Update, Apply;
    FirstLetter();
    var blank := Blank();
    assert Text(blank, []) == blank && |Text(blank, toks)| == |blank| + 1;
    var k := toks[0];
    OneByte(blank, toks);
    assert Apply(blank, k) == blank + [97];
    assert k == Lit(97) by { OneLiteral(blank, k); }
    assert toks == [k] && toks[1..] == [];
    StartValid();
    assert StreamBits(Start(), toks) == TokenBits(Start(), k) == CharCode(Start(), 97);
    TwoBytes(file);
  }

  lemma {:induction false} OneByte(h: seq<byte>, toks: seq<Token>)
    requires toks != [] && AllReach(|h|, toks) && |Text(h, toks)| == |h| + 1
    ensures |toks| == 1 && Text(h, toks) == Apply(h, toks[0])
  {
    var rest := Apply(h, toks[0]);
    assert |rest| >= |h| + 1;
    assert toks[1..] == [];
  }

  lemma {:induction false} OneLiteral(h: seq<byte>, k: Token)
    requires Reaches(|h|, k) && Apply(h, k) == h + [97]
    ensures k == Lit(97)
  {
    assert |Apply(h, k)| == |h| + 1;
    match k
    case Lit(b) => assert (h + [b])[|h|] == b;
    case Match(_, _) =>
  }

  lemma {:induction false} TwoBytes(file: seq<byte>)
    requires |file| == 2 && [true, true, true, true, false, true, true, false, true] <= ByteBits(file)
    ensures file[0] == 0xf6 && file[1] >= 0x80
  {
    hide ByteBits, BitsOf, Pow2;
    Joined(file);
    var b := ByteBits(file);
    FirstBits();
    assert BitsOf(file[0], 8) == b[..8] == BitsOf(0xf6, 8);
    SameBits(file[0], 0xf6);
    assert BitsOf(file[1], 8)[0] == b[8];
    Pow2Values();
    if file[1] < 128 { TopBit(file[1], 7); }
  }

  lemma {:induction false} Joined(file: seq<byte>)
    requires |file| == 2
    ensures ByteBits(file) == BitsOf(file[0], 8) + BitsOf(file[1], 8)
  {
    hide BitsOf;
  }

  lemma {:induction false} FirstBits()
    ensures BitsOf(0xf6, 8) == [true, true, true, true, false, true, true, false]
  {
  }

  lemma {:induction false} SameBits(a: nat, b: nat)
    requires a < 256 && b < 256 && BitsOf(a, 8) == BitsOf(b, 8)
    ensures a == b
  {
    Pow2Values();
    ValueOfBits(a, 8);
    ValueOfBits(b, 8);
    LowOfSmall(a, 8);
    LowOfSmall(b, 8);
  }

  lemma {:induction false} TopBit(v: nat, n: nat)
    requires v < Pow2(n)
    ensures !BitsOf(v, n + 1)[0]
  {
    if n > 0 { TopBit(v / 2, n - 1); }
  }
}
