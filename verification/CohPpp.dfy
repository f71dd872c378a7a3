/** HDLC framing and the frame check sequence of net/coh_ppp.c (RFC 1662, section 4.2 and
    appendix C). */
module CohPpp {
  const FLAG: bv8 := 0x7e
  const ESC: bv8 := 0x7d
  const MASK: bv8 := 0x20
  const PACKLEN: nat := 2048
  const FRAMELEN: nat := 2 * (PACKLEN + 8) + 2

  /** Of a frame with a correct frame check sequence this is left over. */
  const GOOD: bv16 := 0xf0b8

  // ---------------------------------------------------------- frame check sequence

  function FcsBit(f: bv16): bv16 { if f & 1 == 1 then (f >> 1) ^ 0x8408 else f >> 1 }

  function FcsByte(f: bv16, b: bv8): bv16 {
    FcsBit(FcsBit(FcsBit(FcsBit(FcsBit(FcsBit(FcsBit(FcsBit(Mix(f, b)))))))))
  }

  function Mix(f: bv16, b: bv8): bv16 { f ^ (b as bv16) }

  function Fcs(f: bv16, s: seq<bv8>): bv16 {
    if s == [] then f else FcsByte(Fcs(f, s[..|s| - 1]), s[|s| - 1])
  }

  lemma {:induction false} FcsSplit(f: bv16, a: seq<bv8>, b: seq<bv8>)
    ensures Fcs(f, a + b) == Fcs(Fcs(f, a), b)
    decreases |b|
  {
    hide FcsByte;
    if b == [] {
      assert a + b == a;
    } else {
      FcsSplit(f, a, b[..|b| - 1]);
      assert (a + b)[..|a + b| - 1] == a + b[..|b| - 1];
    }
  }

  lemma {:induction false} FcsSnoc(f: bv16, s: seq<bv8>, b: bv8)
    ensures Fcs(f, s + [b]) == FcsByte(Fcs(f, s), b)
  {
    hide FcsByte;
    assert (s + [b])[..|s + [b]| - 1] == s;
  }

  /** pppfcs: bit at a time. */
  method PppFcs(fcs: bv16, cp: seq<bv8>) returns (r: bv16)
    ensures r == Fcs(fcs, cp)
  {
    hide Fcs, FcsByte, FcsBit, Mix;
    r := fcs;
    NoFcs(fcs);
    var k := 0;
    while k < |cp|
      invariant k <= |cp| && r == Fcs(fcs, cp[..k])
    {
      ghost var was := r;
      FcsSnoc(fcs, cp[..k], cp[k]);
      assert cp[..k + 1] == cp[..k] + [cp[k]];
      r := Mix(r, cp[k]);
      ghost var f0 := r;
      var i := 0;
      while i < 8
        invariant 0 <= i <= 8 && r == Shifted(f0, i)
      {
        ShiftedNext(f0, i);
        r := if r & 1 == 1 then (r >> 1) ^ 0x8408 else r >> 1;
        i := i + 1;
      }
      EightBits(was, cp[k]);
      k := k + 1;
    }
    assert cp[..k] == cp;
  }

  lemma {:induction false} NoFcs(f: bv16)
    ensures Fcs(f, []) == f
  {
  }

  function Shifted(f: bv16, n: nat): bv16 { if n == 0 then f else FcsBit(Shifted(f, n - 1)) }

  lemma {:induction false} ShiftedNext(f: bv16, n: nat)
    ensures Shifted(f, n + 1) == var r := Shifted(f, n); if r & 1 == 1 then (r >> 1) ^ 0x8408 else r >> 1
    ensures Shifted(f, 0) == f
  {
  }

  lemma {:induction false} EightBits(f: bv16, b: bv8)
    ensures Shifted(Mix(f, b), 8) == FcsByte(f, b)
  {
    hide FcsBit, Mix;
    var x := Mix(f, b);
    assert Shifted(x, 2) == FcsBit(Shifted(x, 1)) && Shifted(x, 4) == FcsBit(Shifted(x, 3))
      && Shifted(x, 6) == FcsBit(Shifted(x, 5));
  }

  function LowByte(f: bv16): bv8 { (f & 0xff) as bv8 }

  function HighByte(f: bv16): bv8 { (f >> 8) as bv8 }

  /** Appending the complement, low byte first, leaves the same from any state. */
  lemma {:induction false} Residue(f: bv16)
    ensures FcsByte(FcsByte(f, LowByte(f ^ 0xffff)), HighByte(f ^ 0xffff)) == GOOD
  {
  }

  /** One byte's step loses nothing: of the state before and of the byte. */
  lemma {:induction false} BitInjective(f: bv16, g: bv16)
    requires FcsBit(f) == FcsBit(g)
    ensures f == g
  {
  }

  lemma {:induction false} ByteInjective(f: bv16, g: bv16, b: bv8, c: bv8)
    requires FcsByte(f, b) == FcsByte(g, c)
    ensures Mix(f, b) == Mix(g, c)
  {
    hide FcsBit, Mix;
    var x, y := Mix(f, b), Mix(g, c);
    BitInjective(FcsBit(FcsBit(FcsBit(FcsBit(FcsBit(FcsBit(FcsBit(x))))))),
                 FcsBit(FcsBit(FcsBit(FcsBit(FcsBit(FcsBit(FcsBit(y))))))));
    BitInjective(FcsBit(FcsBit(FcsBit(FcsBit(FcsBit(FcsBit(x)))))), FcsBit(FcsBit(FcsBit(FcsBit(FcsBit(FcsBit(y)))))));
    BitInjective(FcsBit(FcsBit(FcsBit(FcsBit(FcsBit(x))))), FcsBit(FcsBit(FcsBit(FcsBit(FcsBit(y))))));
    BitInjective(FcsBit(FcsBit(FcsBit(FcsBit(x)))), FcsBit(FcsBit(FcsBit(FcsBit(y)))));
    BitInjective(FcsBit(FcsBit(FcsBit(x))), FcsBit(FcsBit(FcsBit(y))));
    BitInjective(FcsBit(FcsBit(x)), FcsBit(FcsBit(y)));
    BitInjective(FcsBit(x), FcsBit(y));
    BitInjective(x, y);
  }

  lemma {:induction false} MixState(f: bv16, g: bv16, b: bv8)
    requires Mix(f, b) == Mix(g, b)
    ensures f == g
  {
  }

  lemma {:induction false} StateInjective(f: bv16, g: bv16, b: bv8)
    requires FcsByte(f, b) == FcsByte(g, b)
    ensures f == g
  {
    hide FcsByte, Mix;
    ByteInjective(f, g, b, b);
    MixState(f, g, b);
  }

  lemma {:induction false} MixByte(f: bv16, b: bv8, c: bv8)
    requires Mix(f, b) == Mix(f, c)
    ensures b == c
  {
  }

  lemma {:induction false} FcsInjective(f: bv16, g: bv16, z: seq<bv8>)
    requires Fcs(f, z) == Fcs(g, z)
    ensures f == g
    decreases |z|
  {
    hide FcsByte;
    if z != [] {
      var n := |z| - 1;
      StateInjective(Fcs(f, z[..n]), Fcs(g, z[..n]), z[n]);
      FcsInjective(f, g, z[..n]);
    }
  }

  /** A frame with one byte changed never passes as the frame it was. */
  lemma {:induction false} OneByteChanged(f: bv16, a: seq<bv8>, x: bv8, y: bv8, z: seq<bv8>)
    requires Fcs(f, a + ([x] + z)) == Fcs(f, a + ([y] + z))
    ensures x == y
  {
    hide FcsByte, Fcs, Mix;
    FcsSplit(f, a, [x] + z);
    FcsSplit(f, a, [y] + z);
    var g := Fcs(f, a);
    FcsSplit(g, [x], z);
    FcsSplit(g, [y], z);
    FcsInjective(Fcs(g, [x]), Fcs(g, [y]), z);
    FcsOne(g, x);
    FcsOne(g, y);
    ByteInjective(g, g, x, y);
    MixByte(g, x, y);
  }

  lemma {:induction false} FcsOne(f: bv16, b: bv8)
    ensures Fcs(f, [b]) == FcsByte(f, b)
  {
    hide FcsByte;
    assert [b][..0] == [];
  }

  /** The check sequence of the nine digits, which is 0x906e. */
  lemma {:induction false} CheckValue()
    ensures Fcs(0xffff, [0x31, 0x32, 0x33, 0x34, 0x35, 0x36, 0x37, 0x38, 0x39]) ^ 0xffff == 0x906e
  {
    hide Fcs;
    var s: seq<bv8> := [0x31, 0x32, 0x33, 0x34, 0x35, 0x36, 0x37, 0x38, 0x39];
    NoFcs(0xffff);
    NextState(s, 0, 0xffff, 0x2f8d);
    NextState(s, 1, 0x2f8d, 0x4d53);
    NextState(s, 2, 0x4d53, 0x634b);
    NextState(s, 3, 0x634b, 0x8b13);
    NextState(s, 4, 0x8b13, 0x44bf);
    NextState(s, 5, 0x44bf, 0x198d);
    NextState(s, 6, 0x198d, 0x1ac8);
    NextState(s, 7, 0x1ac8, 0xf795);
    NextState(s, 8, 0xf795, 0x6f91);
    assert s[..9] == s;
  }

  lemma {:induction false} NextState(s: seq<bv8>, i: nat, f: bv16, g: bv16)
    requires i < |s| && Fcs(0xffff, s[..i]) == f && FcsByte(f, s[i]) == g
    ensures Fcs(0xffff, s[..i + 1]) == g
  {
    hide FcsByte;
    FcsSnoc(0xffff, s[..i], s[i]);
    assert s[..i + 1] == s[..i] + [s[i]];
  }

  // -------------------------------------------------------------------- framing

  predicate Special(b: bv8) { b == FLAG || b == ESC || b < 0x20 }

  function Stuff(b: bv8): seq<bv8> { if Special(b) then [ESC, b ^ MASK] else [b] }

  function StuffAll(s: seq<bv8>): (r: seq<bv8>)
    ensures |r| <= 2 * |s|
  {
    if s == [] then [] else StuffAll(s[..|s| - 1]) + Stuff(s[|s| - 1])
  }

  lemma {:induction false} StuffSnoc(s: seq<bv8>, b: bv8)
    ensures StuffAll(s + [b]) == StuffAll(s) + Stuff(b)
  {
    assert (s + [b])[..|s + [b]| - 1] == s;
  }

  function Header(proto: bv16): (h: seq<bv8>) ensures |h| == 4 { [0xff, 0x03, HighByte(proto), LowByte(proto)] }

  /** What is between the flags, before stuffing. */
  function Content(proto: bv16, info: seq<bv8>): (s: seq<bv8>)
    ensures |s| == |info| + 6
  {
    var body := Header(proto) + info;
    var f := Fcs(0xffff, body) ^ 0xffff;
    body + [LowByte(f)] + [HighByte(f)]
  }

  function Frame(proto: bv16, info: seq<bv8>): seq<bv8> { [FLAG] + StuffAll(Content(proto, info)) + [FLAG] }

  /** Between its flags a frame holds no flag, and no byte below 0x20. */
  lemma {:induction false} WireBytes(proto: bv16, info: seq<bv8>)
    ensures var f := Frame(proto, info);
            && |f| >= 2 && f[0] == 0x7e == f[|f| - 1]
            && forall i :: 0 < i < |f| - 1 ==> f[i] != 0x7e && f[i] >= 0x20
  {
    hide Content, StuffAll;
    var s := Content(proto, info);
    StuffedBytes(s);
    var f := Frame(proto, info);
    forall i | 0 < i < |f| - 1 ensures f[i] != 0x7e && f[i] >= 0x20 { assert f[i] == StuffAll(s)[i - 1]; }
  }

  lemma {:induction false} StuffedBytes(s: seq<bv8>)
    ensures forall i :: 0 <= i < |StuffAll(s)| ==> StuffAll(s)[i] != 0x7e && StuffAll(s)[i] >= 0x20
  {
    if s != [] {
      var a, b := s[..|s| - 1], s[|s| - 1];
      StuffedBytes(a);
      StuffedByte(b);
    }
  }

  lemma {:induction false} StuffedByte(b: bv8)
    ensures forall i :: 0 <= i < |Stuff(b)| ==> Stuff(b)[i] != 0x7e && Stuff(b)[i] >= 0x20
    ensures Stuff(b) == if b == 0x7e || b == 0x7d || b < 0x20 then [0x7d, b ^ 0x20] else [b]
  {
  }

  lemma {:induction false} FrameFits(proto: bv16, info: seq<bv8>)
    requires |info| <= PACKLEN
    ensures |Frame(proto, info)| <= FRAMELEN
  {
  }

  /** In numbers: information of up to 2048 bytes, and 4114 bytes for a frame. */
  lemma {:induction false} FrameNumbers(proto: bv16, info: seq<bv8>)
    ensures PACKLEN == 2048 && FRAMELEN == 4114
    ensures |info| <= 2048 ==> |Frame(proto, info)| <= 4114
  {
  }

  /** The test for a good frame check sequence holds of everything that is sent. */
  lemma {:induction false} ContentGood(proto: bv16, info: seq<bv8>)
    ensures Fcs(0xffff, Content(proto, info)) == GOOD
  {
    hide Fcs, FcsByte;
    var body := Header(proto) + info;
    var c := Fcs(0xffff, body);
    FcsSnoc(0xffff, body + [LowByte(c ^ 0xffff)], HighByte(c ^ 0xffff));
    FcsSnoc(0xffff, body, LowByte(c ^ 0xffff));
    Residue(c);
  }

  /** The STUFF macro. */
  method PutStuffed(frame: array<bv8>, o: nat, b: bv8) returns (o2: nat)
    requires o + 2 <= frame.Length
    modifies frame
    ensures o2 <= o + 2 && frame[..o2] == old(frame[..o]) + Stuff(b)
  {
    o2 := o;
    if b == FLAG || b == ESC || b < 0x20 {
      frame[o2] := ESC;
      frame[o2 + 1] := b ^ MASK;
      o2 := o2 + 2;
    } else {
      frame[o2] := b;
      o2 := o2 + 1;
    }
  }

  /** Stuff the bytes s after n that are stuffed already. */
  method PutAll(frame: array<bv8>, o: nat, s: seq<bv8>, ghost before: seq<bv8>) returns (o2: nat)
    requires frame.Length == FRAMELEN && |before| + |s| <= PACKLEN + 6 && o <= 1 + 2 * |before|
    requires frame[..o] == [FLAG] + StuffAll(before)
    modifies frame
    ensures o2 <= 1 + 2 * (|before| + |s|) && frame[..o2] == [FLAG] + StuffAll(before + s)
  {
    hide StuffAll, Stuff;
    o2 := o;
    var i: nat := 0;
    assert before + s[..0] == before;
    while i < |s|
      invariant i <= |s| && o2 <= 1 + 2 * (|before| + i) && frame[..o2] == [FLAG] + StuffAll(before + s[..i])
    {
      StuffSnoc(before + s[..i], s[i]);
      assert before + s[..i + 1] == (before + s[..i]) + [s[i]];
      assert ([FLAG] + StuffAll(before + s[..i])) + Stuff(s[i]) == [FLAG] + StuffAll(before + s[..i + 1]);
      o2 := PutStuffed(frame, o2, s[i]);
      i := i + 1;
    }
    assert s[..i] == s;
  }

  /** ppp_send: the bytes written to the line. */
  method PppSend(proto: bv16, info: seq<bv8>, frame: array<bv8>) returns (o: nat)
    requires |info| <= PACKLEN && frame.Length == FRAMELEN
    modifies frame
    ensures o <= FRAMELEN && frame[..o] == Frame(proto, info)
  {
    hide StuffAll, Stuff, Fcs, FcsByte;
    var hdr := Header(proto);
    FcsSplit(0xffff, hdr, info);
    var fcs: bv16 := PppFcs(0xffff, hdr);
    fcs := PppFcs(fcs, info);
    fcs := fcs ^ 0xffff;
    o := 0;
    frame[o] := FLAG;
    o := 1;
    assert StuffAll([]) == [] by { StuffNone(); }
    o := PutAll(frame, o, hdr, []);
    assert [] + hdr == hdr;
    o := PutAll(frame, o, info, hdr);
    o := PutAll(frame, o, [LowByte(fcs)], hdr + info);
    o := PutAll(frame, o, [HighByte(fcs)], hdr + info + [LowByte(fcs)]);
    ghost var was: seq<bv8> := frame[..o];
    frame[o] := FLAG;
    o := o + 1;
    assert frame[..o] == was + [FLAG];
  }

  lemma {:induction false} StuffNone()
    ensures StuffAll([]) == []
  {
  }

  // ------------------------------------------------------------------ unframing

  /** What the receiver has of the frame at hand, and whether an escape came last. */
  datatype Partial = Partial(buf: seq<bv8>, esc: bool)

  /** A byte from the line: what is kept, and a frame if one is complete and good. */
  function Receive(p: Partial, c: bv8): (Partial, seq<seq<bv8>>) {
    if c == FLAG then (Partial([], false), if |p.buf| >= 4 && Fcs(0xffff, p.buf) == GOOD then [p.buf] else [])
    else if c == ESC then (Partial(p.buf, true), [])
    else
      var d := if p.esc then c ^ MASK else c;
      (Partial(if |p.buf| < FRAMELEN then p.buf + [d] else [], false), [])
  }

  function Pump(p: Partial, line: seq<bv8>): (Partial, seq<seq<bv8>>) {
    if line == [] then (p, [])
    else
      var (q, got) := Pump(p, line[..|line| - 1]);
      var (r, more) := Receive(q, line[|line| - 1]);
      (r, got + more)
  }

  /** However the line's bytes are split into reads, the same frames come out. */
  lemma {:induction false} PumpSplit(p: Partial, a: seq<bv8>, b: seq<bv8>)
    ensures Pump(p, a + b) == var (q, got) := Pump(p, a); var (r, more) := Pump(q, b); (r, got + more)
    decreases |b|
  {
    hide Receive;
    if b == [] {
      assert a + b == a;
      assert Pump(p, a).1 + [] == Pump(p, a).1;
    } else {
      PumpSplit(p, a, b[..|b| - 1]);
      assert (a + b)[..|a + b| - 1] == a + b[..|b| - 1];
      var (q, got) := Pump(p, a);
      var (r, more) := Pump(q, b[..|b| - 1]);
      var (_, last) := Receive(r, b[|b| - 1]);
      assert (got + more) + last == got + (more + last);
    }
  }

  lemma {:induction false} PumpOne(p: Partial, c: bv8)
    ensures Pump(p, [c]) == Receive(p, c)
  {
    hide Receive;
    assert [c][..0] == [];
    assert [] + Receive(p, c).1 == Receive(p, c).1;
  }

  /** A stuffed byte arrives as it was. */
  lemma {:induction false} StuffArrives(buf: seq<bv8>, b: bv8)
    requires |buf| < FRAMELEN
    ensures Pump(Partial(buf, false), Stuff(b)) == (Partial(buf + [b], false), [])
  {
    hide Pump;
    NoneTwice();
    if Special(b) {
      MaskSafe(b);
      assert [ESC, b ^ MASK] == [ESC] + [b ^ MASK];
      PumpSplit(Partial(buf, false), [ESC], [b ^ MASK]);
      PumpOne(Partial(buf, false), ESC);
      PumpOne(Partial(buf, true), b ^ MASK);
    } else {
      PumpOne(Partial(buf, false), b);
    }
  }

  lemma {:induction false} NoneTwice()
    ensures var none: seq<seq<bv8>> := []; none + none == none
  {
  }

  lemma {:induction false} MaskSafe(b: bv8)
    requires Special(b)
    ensures (b ^ MASK) ^ MASK == b && b ^ MASK != FLAG && b ^ MASK != ESC
  {
  }

  lemma {:induction false} StuffedArrive(s: seq<bv8>)
    requires |s| <= FRAMELEN
    ensures Pump(Partial([], false), StuffAll(s)) == (Partial(s, false), [])
    decreases |s|
  {
    hide Pump, Stuff;
    if s == [] {
      assert Pump(Partial([], false), []) == (Partial([], false), []) by { PumpNone(Partial([], false)); }
    } else {
      var a, b := s[..|s| - 1], s[|s| - 1];
      StuffedArrive(a);
      PumpSplit(Partial([], false), StuffAll(a), Stuff(b));
      StuffArrives(a, b);
      NoneTwice();
      assert a + [b] == s;
    }
  }

  lemma {:induction false} PumpNone(p: Partial)
    ensures Pump(p, []) == (p, [])
  {
  }

  /** A frame arrives byte for byte, whatever was on the line before it: the flag that opens it
      ends that. */
  lemma {:induction false} FrameArrives(p: Partial, proto: bv16, info: seq<bv8>)
    requires |info| <= PACKLEN
    ensures Pump(p, Frame(proto, info)) == (Partial([], false), Receive(p, FLAG).1 + [Content(proto, info)])
  {
    hide Pump, StuffAll, Fcs, Content;
    var s := Content(proto, info);
    var (q, got) := Receive(p, FLAG);
    PumpSplit(p, [FLAG] + StuffAll(s), [FLAG]);
    PumpSplit(p, [FLAG], StuffAll(s));
    PumpOne(p, FLAG);
    StuffedArrive(s);
    PumpOne(Partial(s, false), FLAG);
    ContentGood(proto, info);
    assert |s| == |info| + 6;
    assert got + [] == got;
  }

  /** Nothing is handed on but what passes the check. */
  lemma {:induction false} OnlyGood(p: Partial, line: seq<bv8>)
    ensures forall i :: 0 <= i < |Pump(p, line).1| ==>
              |Pump(p, line).1[i]| >= 4 && Fcs(0xffff, Pump(p, line).1[i]) == 0xf0b8
  {
    hide Fcs;
    if line != [] { OnlyGood(p, line[..|line| - 1]); }
  }

  /** A frame one byte of which has been changed is dropped. */
  lemma {:induction false} DamagedDropped(p: Partial, proto: bv16, info: seq<bv8>, k: nat, y: bv8)
    requires |info| <= PACKLEN && k < |Content(proto, info)| && y != Content(proto, info)[k]
    ensures Pump(p, [FLAG] + StuffAll(Content(proto, info)[k := y]) + [FLAG])
            == (Partial([], false), Receive(p, FLAG).1)
  {
    hide Pump, StuffAll, Fcs, Content;
    var s := Content(proto, info);
    var t := s[k := y];
    assert |s| == |info| + 6;
    var (q, got) := Receive(p, FLAG);
    PumpSplit(p, [FLAG] + StuffAll(t), [FLAG]);
    PumpSplit(p, [FLAG], StuffAll(t));
    PumpOne(p, FLAG);
    StuffedArrive(t);
    PumpOne(Partial(t, false), FLAG);
    ContentGood(proto, info);
    assert s == s[..k] + ([s[k]] + s[k + 1..]) && t == s[..k] + ([y] + s[k + 1..]);
    if Fcs(0xffff, t) == GOOD { OneByteChanged(0xffff, s[..k], s[k], y, s[k + 1..]); }
    assert got + [] == got;
  }

  datatype Packet = Packet(proto: bv16, info: seq<bv8>)

  ghost predicate Sent(ps: seq<Packet>) { forall i :: 0 <= i < |ps| ==> |ps[i].info| <= PACKLEN }

  function Line(ps: seq<Packet>): seq<bv8> {
    if ps == [] then [] else Line(ps[..|ps| - 1]) + Frame(ps[|ps| - 1].proto, ps[|ps| - 1].info)
  }

  function Contents(ps: seq<Packet>): seq<seq<bv8>> {
    if ps == [] then [] else Contents(ps[..|ps| - 1]) + [Content(ps[|ps| - 1].proto, ps[|ps| - 1].info)]
  }

  /** All frames sent arrive, in order, and nothing else. */
  lemma {:induction false} LineArrives(ps: seq<Packet>)
    requires Sent(ps)
    ensures Pump(Partial([], false), Line(ps)) == (Partial([], false), Contents(ps))
    decreases |ps|
  {
    hide Pump, Frame, Content;
    if ps == [] {
      PumpNone(Partial([], false));
    } else {
      var a, p := ps[..|ps| - 1], ps[|ps| - 1];
      LineArrives(a);
      PumpSplit(Partial([], false), Line(a), Frame(p.proto, p.info));
      FrameArrives(Partial([], false), p.proto, p.info);
      assert [] + [Content(p.proto, p.info)] == [Content(p.proto, p.info)];
    }
  }

  /** Protocol and information field of a frame, as frame_recv takes it apart. */
  function Unwrapped(f: seq<bv8>): Packet
    requires |f| >= 4
  {
    var off := if f[0] == 0xff && f[1] == 0x03 then 2 else 0;
    Packet(((f[off] as bv16) << 8) | (f[off + 1] as bv16), if off + 2 <= |f| - 2 then f[off + 2..|f| - 2] else [])
  }

  /** The packets of frames, the short ones dropped. */
  function Packets(fs: seq<seq<bv8>>): seq<Packet> {
    if fs == [] then []
    else Packets(fs[..|fs| - 1]) + (if |fs[|fs| - 1]| < 4 then [] else [Unwrapped(fs[|fs| - 1])])
  }

  /** What was sent is taken out. */
  lemma {:induction false} ContentUnwraps(proto: bv16, info: seq<bv8>)
    ensures Unwrapped(Content(proto, info)) == Packet(proto, info)
  {
    hide Fcs;
    var s := Content(proto, info);
    assert s[4..|s| - 2] == info;
    TwoBytes(proto);
  }

  /** Address and control bytes may be missing, unless the protocol looks like them. */
  lemma {:induction false} BareUnwraps(proto: bv16, info: seq<bv8>, a: bv8, b: bv8)
    requires proto != 0xff03
    ensures Unwrapped([HighByte(proto), LowByte(proto)] + info + [a, b]) == Packet(proto, info)
  {
    var f := [HighByte(proto), LowByte(proto)] + info + [a, b];
    TwoBytes(proto);
    assert f[2..|f| - 2] == info;
  }

  lemma {:induction false} PacketsSnoc(fs: seq<seq<bv8>>, f: seq<bv8>)
    requires |f| >= 4
    ensures Packets(fs + [f]) == Packets(fs) + [Unwrapped(f)]
  {
    hide Unwrapped;
    assert (fs + [f])[..|fs + [f]| - 1] == fs;
  }

  lemma {:induction false} NoPackets()
    ensures Packets([]) == []
  {
  }

  lemma {:induction false} ContentsUnwrap(ps: seq<Packet>)
    ensures Packets(Contents(ps)) == ps
  {
    hide Content, Unwrapped, Packets;
    if ps == [] {
      NoPackets();
    } else {
      var a, p := ps[..|ps| - 1], ps[|ps| - 1];
      ContentsUnwrap(a);
      ContentUnwraps(p.proto, p.info);
      PacketsSnoc(Contents(a), Content(p.proto, p.info));
      assert a + [p] == ps;
    }
  }

  /** Packets sent one after the other are the packets taken out at the other end, all of them, in
      order, and no others. */
  lemma {:induction false} PacketsArrive(ps: seq<Packet>)
    requires Sent(ps)
    ensures Packets(Pump(Partial([], false), Line(ps)).1) == ps
  {
    hide Pump, Line, Contents, Packets;
    LineArrives(ps);
    ContentsUnwrap(ps);
  }

  lemma {:induction false} TwoBytes(proto: bv16)
    ensures ((HighByte(proto) as bv16) << 8) | (LowByte(proto) as bv16) == proto
  {
  }

  /** The receiver. */
  class Receiver {
    const frame: array<bv8>
    var len: nat
    var esc: bool

    ghost predicate Valid()
      reads this
    {
      frame.Length == FRAMELEN && len <= FRAMELEN
    }

    ghost function At(): Partial
      requires Valid()
      reads this, frame
    {
      Partial(frame[..len], esc)
    }

    constructor ()
      ensures Valid() && At() == Partial([], false) && fresh(frame)
    {
      frame := new bv8[FRAMELEN];
      len, esc := 0, false;
    }

    /** serial_pump, for what one read delivered: the frames handed to frame_recv. */
    method SerialPump(input: seq<bv8>) returns (got: seq<seq<bv8>>)
      requires Valid()
      modifies this, frame
      ensures Valid() && (At(), got) == Pump(old(At()), input)
    {
      hide Pump, Fcs, Receive;
      got := [];
      PumpNone(At());
      var i := 0;
      while i < |input|
        invariant i <= |input| && Valid() && (At(), got) == Pump(old(At()), input[..i])
      {
        PumpSnoc(old(At()), input, i);
        var more := Byte(input[i]);
        got := got + more;
        i := i + 1;
      }
      assert input[..i] == input;
    }

    method Byte(c: bv8) returns (got: seq<seq<bv8>>)
      requires Valid()
      modifies this, frame
      ensures Valid() && (At(), got) == Receive(old(At()), c)
    {
      hide Fcs;
      got := [];
      if c == FLAG {
        if len >= 4 {
          var fcs: bv16 := PppFcs(0xffff, frame[..len]);
          if fcs == 0xf0b8 { got := [frame[..len]]; }
        }
        len, esc := 0, false;
        return;
      }
      if c == ESC {
        esc := true;
        return;
      }
      var d := c;
      if esc {
        d := d ^ MASK;
        esc := false;
      }
      if len < FRAMELEN {
        ghost var was: seq<bv8> := frame[..len];
        frame[len] := d;
        len := len + 1;
        assert frame[..len] == was + [d];
      } else {
        len := 0;
      }
    }
  }

  lemma {:induction false} PumpSnoc(p: Partial, line: seq<bv8>, i: nat)
    requires i < |line|
    ensures Pump(p, line[..i + 1])
            == var (q, got) := Pump(p, line[..i]);
               var (r, more) := Receive(q, line[i]);
               (r, got + more)
  {
    hide Receive;
    assert line[..i + 1][..i] == line[..i];
  }
}
