/**
 Byte ranges of a frame, read and written at fixed offsets.
 */
module Bytes {
  import opened Types

  predicate Fits(f: seq<byte>, off: nat, n: nat) {
    off + n <= |f|
  }

  /** Overwrite bytes in place; out of range nothing is written. */
  function Store(f: seq<byte>, off: nat, v: seq<byte>): (r: seq<byte>)
    ensures |r| == |f|
    ensures forall i | 0 <= i < |f| :: r[i] == if Fits(f, off, |v|) && off <= i < off + |v| then v[i - off] else f[i]
  {
    if Fits(f, off, |v|) then f[..off] + v + f[off + |v|..] else f
  }

  function Be16(n: nat): (b: seq<byte>)
    requires n < 0x1_0000
    ensures |b| == 2
  {
    [n / 256, n % 256]
  }

  function Num16(b: seq<byte>): (n: nat)
    requires |b| == 2
    ensures n < 0x1_0000
  {
    (b[0] as int) * 256 + b[1]
  }

  lemma StoredThere(f: seq<byte>, off: nat, v: seq<byte>)
    requires Fits(f, off, |v|)
    ensures Store(f, off, v)[off..off + |v|] == v
  {
  }

  lemma StoredElsewhere(f: seq<byte>, off: nat, v: seq<byte>, at: nat, n: nat)
    requires at + n <= |f|
    requires at + n <= off || off + |v| <= at || !Fits(f, off, |v|)
    ensures Store(f, off, v)[at..at + n] == f[at..at + n]
  {
  }

  lemma SliceOfSlice(s: seq<byte>, lo: nat, hi: nat, at: nat, n: nat)
    requires lo + at + n <= hi <= |s|
    ensures s[lo..hi][at..at + n] == s[lo + at..lo + at + n]
  {
    var x, y := s[lo..hi][at..at + n], s[lo + at..lo + at + n];
    assert forall j | 0 <= j < n :: x[j] == s[lo + at + j] == y[j];
  }

  function Le32(n: nat): (v: seq<byte>)
    ensures |v| == 4
  {
    [n % 256, n / 256 % 256, n / 0x1_0000 % 256, n / 0x100_0000 % 256]
  }

  function NumLe32(v: seq<byte>): nat
    requires |v| == 4
  {
    v[0] as int + 256 * v[1] as int + 0x1_0000 * v[2] as int + 0x100_0000 * v[3] as int
  }

  lemma Le32RoundTrip(n: nat)
    requires n < 0x1_0000_0000
    ensures NumLe32(Le32(n)) == n
  {
    assert n / 0x1_0000 / 256 == n / 0x100_0000;
    assert n / 256 / 256 == n / 0x1_0000;
  }
}
