/** Copying from a history: what a match of archive/lharc/lzhuf.c and of RFC 1951 means. */
module Lz {
  import opened BitString

  /** len bytes, each equal to the one d back. */
  function Copy(h: seq<byte>, len: nat, d: nat): (r: seq<byte>)
    requires 1 <= d <= |h|
    ensures |r| == |h| + len && h <= r
    ensures forall q :: |h| <= q < |r| ==> r[q] == r[q - d]
    decreases len
  {
    if len == 0 then h else Copy(h + [h[|h| - d]], len - 1, d)
  }

  /** Copying looks only at the end of the history. */
  lemma {:induction false} CopyAfter(g: seq<byte>, h: seq<byte>, len: nat, d: nat)
    requires 1 <= d <= |h|
    ensures Copy(g + h, len, d) == g + Copy(h, len, d)
    decreases len
  {
    if len > 0 {
      assert (g + h) + [(g + h)[|g + h| - d]] == g + (h + [h[|h| - d]]);
      CopyAfter(g, h + [h[|h| - d]], len - 1, d);
    }
  }

  lemma {:induction false} CopyUnfold(h: seq<byte>, len: nat, d: nat)
    requires 1 <= d <= |h| && len > 0
    ensures Copy(h, len, d) == Copy(h + [h[|h| - d]], len - 1, d)
  {
  }

  lemma {:induction false} CopyDone(h: seq<byte>, d: nat)
    requires 1 <= d <= |h|
    ensures Copy(h, 0, d) == h
  {
  }

  /** The bytes from a up to b repeat those d back. */
  ghost predicate Repeats(full: seq<byte>, a: nat, b: nat, d: nat) {
    b <= |full| && 1 <= d <= a && forall q :: a <= q < b ==> full[q] == full[q - d]
  }

  lemma {:induction false} CopyRepeats(full: seq<byte>, a: nat, len: nat, d: nat)
    requires a + len <= |full| && Repeats(full, a, a + len, d)
    ensures Copy(full[..a], len, d) == full[..a + len]
    decreases len
  {
    if len > 0 {
      assert full[..a] + [full[..a][a - d]] == full[..a + 1];
      CopyRepeats(full, a + 1, len - 1, d);
    }
  }
}
