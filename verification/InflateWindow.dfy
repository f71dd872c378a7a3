/** The circular output window of archive/gzip/inflate.c: copying in pieces that do not cross
    its end and flushing it when it is full write what byte-by-byte copying from an unbounded
    history writes. */
module InflateWindow {
  import opened BitString
  import opened Lz

  const WSIZE: nat := 0x8000

  /** The byte at q of the text is in slot q % WSIZE, as far back as WSIZE bytes. */
  ghost predicate Ring(slide: seq<byte>, text: seq<byte>) {
    |slide| == WSIZE && |text| >= WSIZE && forall q :: |text| - WSIZE <= q < |text| ==> slide[q % WSIZE] == text[q]
  }

  lemma {:induction false} RingAt(slide: seq<byte>, text: seq<byte>, q: nat, j: nat)
    requires Ring(slide, text) && |text| - WSIZE <= q < |text| && j == q % WSIZE
    ensures slide[j] == text[q]
  {
  }

  lemma {:induction false} RingPut(slide: seq<byte>, text: seq<byte>, c: byte, w: nat)
    requires Ring(slide, text) && w == |text| % WSIZE
    ensures Ring(slide[w := c], text + [c])
  {
    var s, t := slide[w := c], text + [c];
    forall q | |t| - WSIZE <= q < |t| ensures s[q % WSIZE] == t[q] {
      if q < |text| {
        RingAt(slide, text, q, q % WSIZE);
        assert q % WSIZE != w;
      }
    }
  }

  /** The slot that lies k on, short of the end of the window. */
  lemma {:induction false} SlotOn(q: nat, k: nat)
    requires q % WSIZE + k < WSIZE
    ensures (q + k) % WSIZE == q % WSIZE + k
  {
  }

  lemma {:induction false} SlotBack(n: nat, dist: nat)
    requires 1 <= dist <= WSIZE <= n
    ensures (n % WSIZE - dist) % WSIZE == (n - dist) % WSIZE
    ensures (n - dist) % WSIZE == if dist <= n % WSIZE then n % WSIZE - dist else n % WSIZE + WSIZE - dist
  {
  }

  /** The e bytes at d are copied to w. */
  ghost predicate Pasted(slide: seq<byte>, after: seq<byte>, w: nat, d: nat, e: nat) {
    && |slide| == |after| == WSIZE && w + e <= WSIZE && d + e <= WSIZE
    && (forall j :: w <= j < w + e ==> after[j] == slide[d + (j - w)])
    && (forall j :: 0 <= j < WSIZE && !(w <= j < w + e) ==> after[j] == slide[j])
  }

  /** A piece copied from d to w in the window, e bytes that the window does not cut and that
      do not run into each other, continues the text. */
  lemma {:induction false} PieceCopied(slide: seq<byte>, text: seq<byte>, after: seq<byte>, w: nat, d: nat, e: nat,
                                       dist: nat)
    requires Ring(slide, text) && w == |text| % WSIZE && 1 <= dist <= WSIZE && d == (|text| - dist) % WSIZE
    requires w + e <= WSIZE && d + e <= WSIZE && e <= dist
    requires Pasted(slide, after, w, d, e)
    ensures Copy(text, e, dist) == text + text[|text| - dist..|text| - dist + e]
    ensures Ring(after, Copy(text, e, dist))
  {
    hide Ring, Copy;
    Whole(slide, text);
    CopyShort(text, e, dist);
    var t := Copy(text, e, dist);
    forall q: nat | |t| - WSIZE <= q < |t| ensures after[q % WSIZE] == t[q] {
      if q >= |text| {
        CopiedAt(slide, text, after, w, d, e, dist, q - |text|);
      } else {
        KeptAt(slide, text, after, w, d, e, q);
      }
    }
    RingIs(slide, after, t, w, d, e);
  }

  lemma {:induction false} RingIs(slide: seq<byte>, after: seq<byte>, text: seq<byte>, w: nat, d: nat, e: nat)
    requires Pasted(slide, after, w, d, e) && |text| >= WSIZE
    requires forall q: nat :: |text| - WSIZE <= q < |text| ==> after[q % WSIZE] == text[q]
    ensures Ring(after, text)
  {
  }

  lemma {:induction false} CopiedAt(slide: seq<byte>, text: seq<byte>, after: seq<byte>, w: nat, d: nat, e: nat,
                                    dist: nat, k: nat)
    requires Ring(slide, text) && w == |text| % WSIZE && 1 <= dist <= WSIZE && d == (|text| - dist) % WSIZE
    requires w + e <= WSIZE && d + e <= WSIZE && e <= dist && k < e
    requires Pasted(slide, after, w, d, e)
    ensures after[(|text| + k) % WSIZE] == text[|text| - dist + k]
  {
    Whole(slide, text);
    SlotOn(|text|, k);
    SlotOn(|text| - dist, k);
    RingAt(slide, text, |text| - dist + k, d + k);
  }

  lemma {:induction false} KeptAt(slide: seq<byte>, text: seq<byte>, after: seq<byte>, w: nat, d: nat, e: nat, q: nat)
    requires Ring(slide, text) && w == |text| % WSIZE && w + e <= WSIZE && d + e <= WSIZE
    requires WSIZE <= |text| && |text| + e - WSIZE <= q < |text| && Pasted(slide, after, w, d, e)
    ensures after[q % WSIZE] == text[q]
  {
    hide Ring;
    Whole(slide, text);
    NotWritten(|text|, q, w, e);
    var j := q % WSIZE;
    RingAt(slide, text, q, j);
    assert 0 <= j < WSIZE;
    assert !(w <= j < w + e);
    PastedAt(slide, after, w, d, e, j);
  }

  lemma {:induction false} PastedAt(slide: seq<byte>, after: seq<byte>, w: nat, d: nat, e: nat, j: nat)
    requires Pasted(slide, after, w, d, e) && j < WSIZE && !(w <= j < w + e)
    ensures after[j] == slide[j]
  {
  }

  lemma {:induction false} NotWritten(n: nat, q: nat, w: nat, e: nat)
    requires w == n % WSIZE && w + e <= WSIZE && n + e - WSIZE <= q < n
    ensures !(w <= q % WSIZE < w + e)
  {
    var k := n - q;
    assert 1 <= k <= WSIZE - e;
    assert q % WSIZE == (if k <= w then w - k else w + WSIZE - k) by {
      assert n == WSIZE * (n / WSIZE) + w;
    }
  }

  lemma {:induction false} CopyShort(text: seq<byte>, e: nat, dist: nat)
    requires e <= dist <= |text| && 1 <= dist
    ensures Copy(text, e, dist) == text + text[|text| - dist..|text| - dist + e]
  {
    var t := Copy(text, e, dist);
    forall q | |text| <= q < |t| ensures t[q] == text[q - dist] {
      assert t[q] == t[q - dist];
    }
  }

  lemma {:induction false} CopyCopy(text: seq<byte>, m: nat, n: nat, dist: nat)
    requires 1 <= dist <= |text|
    ensures Copy(Copy(text, m, dist), n, dist) == Copy(text, m + n, dist)
    decreases m
  {
    if m > 0 { CopyCopy(text + [text[|text| - dist]], m - 1, n, dist); }
  }

  class Window {
    const slide: array<byte>
    var w: nat
    var out: seq<byte>       // what is flushed
    ghost var text: seq<byte>  // what was in the window at first, and all that came after

    ghost predicate Valid()
      reads this, slide
    {
      && Ring(slide[..], text) && w == |text| % WSIZE
      && WSIZE <= |text| - w && out == text[WSIZE..|text| - w]
    }

    /** The window may hold anything at first. */
    constructor (slide: array<byte>)
      requires slide.Length == WSIZE
      ensures Valid() && this.slide == slide && text == slide[..]
    {
      this.slide := slide;
      w, out := 0, [];
      text := slide[..];
    }

    /** flush_output when the window is full. */
    method FlushFull()
      requires Ring(slide[..], text) && WSIZE <= |text| && 0 < w <= WSIZE && (|text| - w) % WSIZE == 0
      requires WSIZE <= |text| - w && out == text[WSIZE..|text| - w]
      modifies this`w, this`out
      ensures Valid() && text == old(text)
    {
      if w == WSIZE {
        FullWindow(slide[..], text);
        out := out + slide[..];
        w := 0;
      }
    }

    method Put(c: byte)
      requires Valid()
      modifies this, slide
      ensures Valid() && text == old(text) + [c]
    {
      hide Ring;
      RingPut(slide[..], text, c, w);
      ghost var was := slide[..];
      Whole(slide[..], text);
      slide[w] := c;
      assert slide[..] == was[w := c];
      text := text + [c];
      w := w + 1;
      FlushFull();
    }

    /** flush_output at the end. */
    method FlushRest()
      requires Valid()
      modifies this`out
      ensures out == text[WSIZE..]
    {
      LastBytes(slide[..], text, w);
      out := out + slide[..w];
    }

    /** Copy e bytes from d to w: by memcpy where the test allows it, else one by one. */
    method CopyPiece(d: nat, e: nat, ghost dist: nat)
      requires Valid() && 1 <= dist <= WSIZE && d == (|text| - dist) % WSIZE && w + e <= WSIZE && d + e <= WSIZE
      modifies this, slide
      ensures Ring(slide[..], text) && text == Copy(old(text), e, dist) && w == old(w) + e && out == old(out)
    {
      hide Ring;
      Whole(slide[..], text);
      if (w - d) % 0x1_0000 >= e {
        FastFits(|text|, w, d, e, dist);
        CopyAtOnce(d, e, dist);
      } else {
        CopyBytes(d, e, dist);
      }
    }

    /** memcpy, taken to copy upwards: the piece at d may begin inside the one at w, not the
        other way round. */
    method CopyAtOnce(d: nat, e: nat, ghost dist: nat)
      requires Valid() && 1 <= dist <= WSIZE && d == (|text| - dist) % WSIZE && w + e <= WSIZE && d + e <= WSIZE
      requires e <= dist
      modifies this, slide
      ensures Ring(slide[..], text) && text == Copy(old(text), e, dist) && w == old(w) + e && out == old(out)
    {
      hide Ring, Copy;
      Whole(slide[..], text);
      ghost var was := slide[..];
      var w0 := w;
      AheadOrApart(|text|, w0, d, e, dist);
      PasteUp(w, d, e);
      PieceCopied(was, text, slide[..], w0, d, e, dist);
      text := Copy(text, e, dist);
      w := w0 + e;
    }

    method PasteUp(w0: nat, d: nat, e: nat)
      requires slide.Length == WSIZE && w0 + e <= WSIZE && d + e <= WSIZE && (d >= w0 || d + e <= w0)
      modifies slide
      ensures Pasted(old(slide[..]), slide[..], w0, d, e)
    {
      var k := 0;
      while k < e
        invariant 0 <= k <= e && forall j :: w0 <= j < w0 + k ==> slide[j] == old(slide[d + (j - w0)])
        invariant forall j :: 0 <= j < WSIZE && !(w0 <= j < w0 + k) ==> slide[j] == old(slide[j])
      {
        slide[w0 + k] := slide[d + k];
        k := k + 1;
      }
    }

    method CopyBytes(d: nat, e: nat, ghost dist: nat)
      requires Valid() && 1 <= dist <= WSIZE && d == (|text| - dist) % WSIZE && w + e <= WSIZE && d + e <= WSIZE
      modifies this, slide
      ensures Ring(slide[..], text) && text == Copy(old(text), e, dist) && w == old(w) + e && out == old(out)
    {
      hide Ring, Copy;
      Whole(slide[..], text);
      ghost var t0, w0 := text, w;
      var k := 0;
      CopyDone(text, dist);
      while k < e
        invariant k <= e && Ring(slide[..], text) && text == Copy(t0, k, dist) && |text| == |t0| + k && w == w0 + k
        invariant out == old(out)
      {
        SlotOn(|t0|, k);
        SlotOn(|t0| - dist, k);
        RingAt(slide[..], text, |text| - dist, d + k);
        RingPut(slide[..], text, text[|text| - dist], w);
        OneMore(t0, k, dist);
        ghost var was := slide[..];
        slide[w] := slide[d + k];
        assert slide[..] == was[w := was[d + k]];
        text := text + [text[|text| - dist]];
        w := w + 1;
        k := k + 1;
      }
    }

    /** Copy n bytes from dist back. */
    method CopyMatch(n0: nat, dist: nat)
      requires Valid() && 1 <= dist <= WSIZE && 1 <= n0
      modifies this, slide
      ensures Valid() && |old(text)| >= WSIZE && text == Copy(old(text), n0, dist)
    {
      hide Ring, Copy;
      Whole(slide[..], text);
      var n: nat := n0;
      var d: nat := (w - dist) % 0x1_0000;
      ghost var t0 := text;
      CopyDone(text, dist);
      SlotWrap(|text|, dist);
      while n != 0
        invariant Valid() && n <= n0 && text == Copy(t0, n0 - n, dist) && |text| == |t0| + (n0 - n)
        invariant d % WSIZE == (|text| - dist) % WSIZE
        decreases n
      {
        ghost var n1 := n;
        d, n := CopyNext(d % WSIZE, n, dist);
        CopyCopy(t0, n0 - n1, n1 - n, dist);
      }
    }

    /** Copy the next piece: up to the end of the match or of the window. */
    method CopyNext(d: nat, n: nat, ghost dist: nat) returns (d': nat, n': nat)
      requires Valid() && 1 <= dist <= WSIZE && d == (|text| - dist) % WSIZE && n >= 1
      modifies this, slide
      ensures Valid() && |old(text)| >= WSIZE && n' < n && text == Copy(old(text), n - n', dist)
      ensures d' % WSIZE == (|text| - dist) % WSIZE
    {
      hide Ring, Copy;
      Whole(slide[..], text);
      var e := WSIZE - (if d > w then d else w);
      if e > n { e := n; }
      ghost var t1 := text;
      CopyPiece(d, e, dist);
      SlotNext(|t1|, d, e, dist);
      d', n' := d + e, n - e;
      Whole(slide[..], text);
      FlushFull();
    }
  }

  /** Where the test allows memcpy no byte is copied that has just been written. */
  lemma {:induction false} FastFits(n: nat, w: nat, d: nat, e: nat, dist: nat)
    requires w == n % WSIZE && 1 <= dist <= WSIZE <= n && d == (n - dist) % WSIZE
    requires w + e <= WSIZE && d + e <= WSIZE && (w - d) % 0x1_0000 >= e
    ensures e <= dist
  {
    SlotBack(n, dist);
  }

  /** What is read has not been written before: the piece at d lies behind w, or far enough ahead. */
  lemma {:induction false} AheadOrApart(n: nat, w: nat, d: nat, e: nat, dist: nat)
    requires w == n % WSIZE && 1 <= dist <= WSIZE <= n && d == (n - dist) % WSIZE && e <= dist
    ensures d >= w || d + e <= w
  {
    SlotBack(n, dist);
  }

  // -------------------------------------------------------------- overlapping pieces

  /** The pieces of e bytes at w and at d share a place. */
  ghost predicate Overlap(w: nat, d: nat, e: nat) { exists j: nat :: InPiece(j, w, e) && InPiece(j, d, e) }

  predicate InPiece(j: nat, a: nat, e: nat) { a <= j < a + e }

  /** The test that lets memcpy do it: it also passes pieces that overlap, exactly when the match
      begins before the window's start and its first byte is less than e slots ahead. */
  lemma {:induction false} OverlapIff(n: nat, w: nat, d: nat, e: nat, dist: nat)
    requires w == n % WSIZE && 1 <= dist <= WSIZE <= n && d == (n - dist) % WSIZE
    requires 1 <= e && w + e <= WSIZE && d + e <= WSIZE
    ensures (w - d) % 0x1_0000 >= e && Overlap(w, d, e) <==> w < dist < WSIZE && WSIZE - dist < e
  {
    SlotBack(n, dist);
    if w < dist < WSIZE && WSIZE - dist < e { assert InPiece(d, w, e) && InPiece(d, d, e); }
  }

  /** Copying e bytes from d to w, the last first. */
  function Downwards(s: seq<byte>, w: nat, d: nat, e: nat): (r: seq<byte>)
    requires w + e <= |s| && d + e <= |s|
    ensures |r| == |s|
    decreases e
  {
    if e == 0 then s else Downwards(s[w + e - 1 := s[d + e - 1]], w, d, e - 1)
  }

  /** Three bytes from 32767 back at the start of the window: the pieces at 0 and at 1 overlap.  A
      memcpy that copied downwards would put the fourth byte of the window in all three places. */
  lemma {:induction false} OverlapExample(n: nat, s: seq<byte>)
    requires n >= WSIZE && n % WSIZE == 0 && |s| == WSIZE
    ensures (n - 32767) % WSIZE == 1 && (0 - 1) % 0x1_0000 >= 3 && Overlap(0, 1, 3)
    ensures Downwards(s, 0, 1, 3)[..3] == [s[3], s[3], s[3]]
    ensures s[1] != s[3] ==> !Pasted(s, Downwards(s, 0, 1, 3), 0, 1, 3)
  {
    assert InPiece(1, 0, 3) && InPiece(1, 1, 3);
    var s1 := s[2 := s[3]];
    var s2 := s1[1 := s1[2]];
    var s3 := s2[0 := s2[1]];
    assert Downwards(s2, 0, 1, 1) == Downwards(s3, 0, 1, 0) == s3;
    assert Downwards(s1, 0, 1, 2) == Downwards(s2, 0, 1, 1);
    assert Downwards(s, 0, 1, 3) == Downwards(s1, 0, 1, 2);
    if Pasted(s, s3, 0, 1, 3) { assert s3[0] == s[1]; }
  }

  lemma {:induction false} SlotNext(n: nat, d: nat, e: nat, dist: nat)
    requires 1 <= dist <= WSIZE <= n && d == (n - dist) % WSIZE && d + e <= WSIZE
    ensures (d + e) % WSIZE == (n + e - dist) % WSIZE
  {
    assert n - dist == WSIZE * ((n - dist) / WSIZE) + d;
    assert n + e - dist == WSIZE * ((n - dist) / WSIZE) + (d + e);
  }

  lemma {:induction false} OneMore(text: seq<byte>, k: nat, dist: nat)
    requires 1 <= dist <= |text|
    ensures var t := Copy(text, k, dist); |t| >= dist && Copy(text, k + 1, dist) == t + [t[|t| - dist]]
  {
    var t := Copy(text, k, dist);
    CopyCopy(text, k, 1, dist);
    CopyUnfold(t, 1, dist);
    CopyDone(t + [t[|t| - dist]], dist);
  }

  /** d = w - dist in 16 bits, taken modulo the window. */
  lemma {:induction false} SlotWrap(n: nat, dist: nat)
    requires 1 <= dist <= WSIZE <= n
    ensures ((n % WSIZE - dist) % 0x1_0000) % WSIZE == (n - dist) % WSIZE
  {
  }

  lemma {:induction false} Whole(slide: seq<byte>, text: seq<byte>)
    requires Ring(slide, text)
    ensures |slide| == WSIZE && |text| >= WSIZE
  {
  }

  lemma {:induction false} FullWindow(slide: seq<byte>, text: seq<byte>)
    requires Ring(slide, text) && |text| % WSIZE == 0
    ensures slide == text[|text| - WSIZE..]
  {
    forall j | 0 <= j < WSIZE ensures slide[j] == text[|text| - WSIZE + j] {
      RingAt(slide, text, |text| - WSIZE + j, j);
    }
  }

  lemma {:induction false} LastBytes(slide: seq<byte>, text: seq<byte>, w: nat)
    requires Ring(slide, text) && w == |text| % WSIZE
    ensures slide[..w] == text[|text| - w..]
  {
    forall j | 0 <= j < w ensures slide[j] == text[|text| - w + j] {
      SlotOn(|text| - w, j);
      RingAt(slide, text, |text| - w + j, j);
    }
  }
}
