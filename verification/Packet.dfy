/**
 The userspace side of the copy path (src/packet.rs): what a copied packet teaches, and the
 ICMPv6 checksum repaired in place before a packet is sent again.
 */
module Packet {
  import opened Types
  import opened Bytes
  import opened Checksum

  // ---- the ICMPv6 sum of an IPv6 packet ----

  /** The payload length field. */
  function PayloadLen(l3: seq<byte>): nat
    requires |l3| >= 6
  {
    Num16(l3[4..6])
  }

  /** An ICMPv6 packet that holds its whole payload. */
  predicate Complete(l3: seq<byte>) {
    |l3| >= 44 && l3[6] == 58 && 40 + PayloadLen(l3) <= |l3|
  }

  /** Source, destination and message are contiguous: one even-aligned range. */
  function Covered(l3: seq<byte>): seq<byte>
    requires Complete(l3)
  {
    l3[8..40 + PayloadLen(l3)]
  }

  /** The sum the checksum is taken over: pseudo-header and message, the field included. */
  function Total(l3: seq<byte>): nat
    requires Complete(l3)
  {
    WordSum(Covered(l3)) + PayloadLen(l3) + 58
  }

  /** A receiver accepts the message: everything sums to all ones. */
  predicate Verifies(l3: seq<byte>) {
    Complete(l3) && Fold(Total(l3)) == ALL_ONES
  }

  /** The checksum a sender computes; the all-zero result is sent as all ones. */
  function SenderCsum(l3: seq<byte>): (c: nat)
    requires Complete(l3)
    ensures 0 < c <= ALL_ONES
  {
    var c := ALL_ONES - Fold(Total(l3));
    if c == 0 then ALL_ONES else c
  }

  function Cleared(l3: seq<byte>): seq<byte> {
    Store(l3, 42, [0, 0])
  }

  lemma ClearedComplete(l3: seq<byte>)
    requires Complete(l3)
    ensures Complete(Cleared(l3)) && PayloadLen(Cleared(l3)) == PayloadLen(l3)
  {
  }

  /** The packet fix_icmpv6_csum leaves. */
  function Fixed(l3: seq<byte>): seq<byte>
    requires Complete(l3)
  {
    ClearedComplete(l3);
    Store(l3, 42, Be16(SenderCsum(Cleared(l3))))
  }

  // ---- learning and reinjection ----

  function Slice(s: seq<byte>, lo: nat, n: nat): (r: Option<seq<byte>>)
    ensures r.Some? ==> |r.value| == n
  {
    if lo + n <= |s| then Some(s[lo..lo + n]) else None
  }

  /** icmpv6_type: only behind next header 58. */
  function MessageType(l3: seq<byte>): Option<byte> {
    if |l3| > 40 && l3[6] == 58 then Some(l3[40]) else None
  }

  /** classify_learn: the address a copied packet teaches. */
  function ClassifyLearn(ethertype: nat, l3: seq<byte>): Option<Ip> {
    if ethertype == 0x0806 then
      var spa := Slice(l3, 14, 4);
      if Slice(l3, 2, 2) == Some([8, 0]) && spa.Some? && spa.value != Zeros(4) then Some(V4(spa.value)) else None
    else if ethertype == 0x0800 then
      var src := Slice(l3, 12, 4);
      if src.Some? then Some(V4(src.value)) else None
    else if ethertype == 0x86dd then
      var src, target, t := Slice(l3, 8, 16), Slice(l3, 48, 16), MessageType(l3);
      if src.None? then None
      else if t == Some(136) || (t == Some(135) && src.value == Zeros(16)) then
        if target.Some? then Some(V6(target.value)) else None
      else if t == Some(133) && src.value == Zeros(16) then None
      else Some(V6(src.value))
    else None
  }

  function BuildFrame(dst: Mac, src: Mac, ethertype: nat, l3: seq<byte>): seq<byte>
    requires ethertype < 0x1_0000
  {
    dst + src + Be16(ethertype) + l3
  }

  // ---- fix_icmpv6_csum ----

  newtype u32 = x: int | 0 <= x < 0x1_0000_0000

  lemma WordSumSnoc(s: seq<byte>, lo: nat, words: nat, hi: nat)
    requires hi == lo + 2 * words && hi + 2 <= |s|
    ensures WordSum(s[lo..hi + 2]) == WordSum(s[lo..hi]) + (s[hi] as int) * 256 + s[hi + 1]
  {
    WordSumAppend(s[lo..hi], words, s[hi..hi + 2]);
    assert s[lo..hi] + s[hi..hi + 2] == s[lo..hi + 2];
    assert s[hi..hi + 2] == [s[hi], s[hi + 1]];
  }

  lemma WordSumOdd(s: seq<byte>, lo: nat, words: nat, hi: nat)
    requires hi == lo + 2 * words && hi < |s|
    ensures WordSum(s[lo..hi + 1]) == WordSum(s[lo..hi]) + (s[hi] as int) * 256
  {
    WordSumAppend(s[lo..hi], words, [s[hi]]);
    assert s[lo..hi] + [s[hi]] == s[lo..hi + 1];
  }

  /** No message of a 16-bit length makes the 32-bit sum overflow. */
  lemma SumFits(s: seq<byte>)
    requires |s| <= 65535
    ensures WordSum(s) <= 0x8000_0000
  {
    WordSumBound(s);
    WordsBound(s);
  }

  /** Sum the words of l3[lo..hi], in 32-bit arithmetic. */
  method AddWords(l3: array<byte>, lo: nat, hi: nat, start: u32) returns (sum: u32)
    requires lo <= hi <= l3.Length && hi - lo <= 65535 && start <= 0x40_0000
    ensures sum as int == start as int + WordSum(l3[lo..hi])
  {
    sum := start;
    var i := lo;
    ghost var s, words := l3[..], 0;
    while i + 1 < hi
      invariant lo <= i <= hi && i == lo + 2 * words
      invariant sum as int == start as int + WordSum(s[lo..i])
    {
      WordSumSnoc(s, lo, words, i);
      SumFits(s[lo..i + 2]);
      sum := sum + (l3[i] as u32 * 256 + l3[i + 1] as u32);
      i := i + 2;
      words := words + 1;
    }
    if i < hi {
      WordSumOdd(s, lo, words, i);
      SumFits(s[lo..i + 1]);
      sum := sum + l3[i] as u32 * 256;
    }
    assert s[lo..hi] == l3[lo..hi];
  }

  /** Add the carries back until none is left. */
  method FoldCarries(start: u32) returns (sum: u32)
    ensures sum as int == Fold(start as int) && sum < 0x1_0000
  {
    sum := start;
    while sum / 0x1_0000 != 0
      invariant Fold(sum as int) == Fold(start as int)
      decreases sum
    {
      FoldStep(sum as int);
      sum := sum % 0x1_0000 + sum / 0x1_0000;
    }
  }

  lemma AddressSum(s: seq<byte>)
    requires |s| == 32
    ensures WordSum(s) <= 0x20_0000
  {
    WordSumBound(s);
    WordsBound(s);
  }

  /** The folded sum of pseudo-header and message. */
  method MessageSum(l3: array<byte>, payloadLen: nat) returns (sum: u32)
    requires Complete(l3[..]) && payloadLen == PayloadLen(l3[..])
    ensures sum as int == Fold(Total(l3[..])) && sum < 0x1_0000
  {
    ghost var s := l3[..];
    assert payloadLen < 0x1_0000;
    sum := AddWords(l3, 8, 40, 0);
    assert l3[8..40] == s[8..40];
    AddressSum(s[8..40]);
    sum := sum + (payloadLen as u32 / 0x1_0000) % 0x1_0000;
    sum := sum + payloadLen as u32 % 0x1_0000;
    sum := sum + 58;
    sum := AddWords(l3, 40, 40 + payloadLen, sum);
    assert l3[40..40 + payloadLen] == s[40..40 + payloadLen];
    assert WordSum(Covered(s)) == WordSum(s[8..40]) + WordSum(s[40..40 + payloadLen]) by {
      WordSumAppend(s[8..40], 16, s[40..40 + payloadLen]);
      assert s[8..40] + s[40..40 + payloadLen] == Covered(s);
    }
    sum := FoldCarries(sum);
  }

  /** Recompute the checksum in place; refuse what is not a whole ICMPv6 packet. */
  method FixIcmpv6Csum(l3: array<byte>) returns (ok: bool)
    modifies l3
    ensures ok == old(Complete(l3[..]))
    ensures l3[..] == if ok then old(Fixed(l3[..])) else old(l3[..])
  {
    if l3.Length < 44 || l3[6] != 58 {
      return false;
    }
    ghost var before := l3[..];
    var payloadLen := (l3[4] as int) * 256 + l3[5];
    assert before[4..6] == [l3[4], l3[5]];
    if 40 + payloadLen > l3.Length {
      return false;
    }
    l3[42], l3[43] := 0, 0;
    assert l3[..] == Cleared(before);
    ClearedComplete(before);
    var sum := MessageSum(l3, payloadLen);
    var csum := 0xffff - sum as int;
    if csum == 0 {
      csum := 0xffff;
    }
    assert csum == SenderCsum(Cleared(before));
    l3[42], l3[43] := csum / 256, csum % 256;
    assert l3[..] == Store(before, 42, Be16(csum));
    return true;
  }

  // ---- what the repaired packet is worth ----

  /** Only the checksum field is touched. */
  lemma FixedTouchesField(l3: seq<byte>)
    requires Complete(l3)
    ensures |Fixed(l3)| == |l3| && Complete(Fixed(l3)) && PayloadLen(Fixed(l3)) == PayloadLen(l3)
    ensures forall i | 0 <= i < |l3| && i != 42 && i != 43 :: Fixed(l3)[i] == l3[i]
    ensures Num16(Fixed(l3)[42..44]) == SenderCsum(Cleared(l3)) != 0
  {
    var c := SenderCsum(Cleared(l3));
    StoredThere(l3, 42, Be16(c));
    StoredElsewhere(l3, 42, Be16(c), 4, 2);
  }

  lemma StoreInSlice(s: seq<byte>, lo: nat, hi: nat, at: nat, v: seq<byte>)
    requires lo + at + |v| <= hi <= |s|
    ensures Store(s, lo + at, v)[lo..hi] == Store(s[lo..hi], at, v)
  {
  }

  lemma CoveredStore(l3: seq<byte>, at: nat, v: seq<byte>)
    requires Complete(l3) && 8 + at + |v| <= 40 + PayloadLen(l3)
    ensures Complete(Store(l3, 8 + at, v)) && PayloadLen(Store(l3, 8 + at, v)) == PayloadLen(l3)
    ensures Covered(Store(l3, 8 + at, v)) == Store(Covered(l3), at, v)
    ensures Covered(l3)[at..at + |v|] == l3[8 + at..8 + at + |v|]
  {
    var g, hi := Store(l3, 8 + at, v), 40 + PayloadLen(l3);
    assert PayloadLen(g) == PayloadLen(l3) by { StoredElsewhere(l3, 8 + at, v, 4, 2); }
    assert Complete(g) && Covered(g) == g[8..hi] && Covered(l3) == l3[8..hi];
    StoreInSlice(l3, 8, hi, at, v);
    SliceOfSlice(l3, 8, hi, at, |v|);
  }

  lemma TotalMoves(l3: seq<byte>, g: seq<byte>, x: nat, y: nat)
    requires Complete(l3) && Complete(g) && PayloadLen(g) == PayloadLen(l3)
    requires WordSum(Covered(g)) + x == WordSum(Covered(l3)) + y
    ensures Total(g) + x == Total(l3) + y
  {
  }

  /** How the total moves when words are overwritten, `i` words into the covered range. */
  lemma TotalStore(l3: seq<byte>, i: nat, v: seq<byte>, words: nat)
    requires Complete(l3) && |v| == 2 * words && 8 + 2 * i + |v| <= 40 + PayloadLen(l3)
    ensures var g := Store(l3, 8 + 2 * i, v);
            && Complete(g) && PayloadLen(g) == PayloadLen(l3)
            && Total(g) + WordSum(l3[8 + 2 * i..8 + 2 * i + |v|]) == Total(l3) + WordSum(v)
  {
    var g, from := Store(l3, 8 + 2 * i, v), l3[8 + 2 * i..8 + 2 * i + |v|];
    CoveredStore(l3, 2 * i, v);
    CoveredWords(Covered(l3), Covered(g), i, v, words, from);
    TotalMoves(l3, g, WordSum(from), WordSum(v));
  }

  lemma CoveredWords(w: seq<byte>, x: seq<byte>, i: nat, v: seq<byte>, words: nat, from: seq<byte>)
    requires |v| == 2 * words && 2 * i + |v| <= |w|
    requires x == Store(w, 2 * i, v) && w[2 * i..2 * i + |v|] == from
    ensures WordSum(x) + WordSum(from) == WordSum(w) + WordSum(v)
  {
    WordSumStore(w, i, v, words);
  }

  lemma WordOf(b: seq<byte>)
    requires |b| == 2
    ensures WordSum(b) == Num16(b)
  {
    assert b[2..] == [];
  }

  /** After the repair a receiver accepts the message, odd lengths included. */
  lemma FixedVerifies(l3: seq<byte>)
    requires Complete(l3) && PayloadLen(l3) >= 4
    ensures Verifies(Fixed(l3))
  {
    var clear := Cleared(l3);
    ClearedComplete(l3);
    var c := SenderCsum(clear);
    TotalStore(clear, 17, Be16(c), 1);
    assert Store(clear, 42, Be16(c)) == Fixed(l3);
    WordOf(clear[42..44]);
    WordOf(Be16(c));
    assert Total(Fixed(l3)) == Total(clear) + c;
    FoldComplement(Total(clear), c);
  }

  lemma FoldComplement(t: nat, c: nat)
    requires t > 0 && c == (if Fold(t) == ALL_ONES then ALL_ONES else ALL_ONES - Fold(t))
    ensures Fold(t + c) == ALL_ONES
  {
    FoldUnique(t + c, ALL_ONES, Wraps(t) + if Fold(t) == ALL_ONES then 1 else 0);
  }

  /** Repairing twice changes nothing more. */
  lemma FixedIdempotent(l3: seq<byte>)
    requires Complete(l3)
    ensures Complete(Fixed(l3)) && Fixed(Fixed(l3)) == Fixed(l3)
  {
    FixedTouchesField(l3);
    assert Cleared(Fixed(l3)) == Cleared(l3);
    var c := Be16(SenderCsum(Cleared(l3)));
    assert Store(Store(l3, 42, c), 42, c) == Store(l3, 42, c);
  }

  /** Two packets that differ only in their checksum field, and both verify, carry the same
      checksum up to the two one's-complement zeros. */
  lemma ChecksumIsUnique(a: seq<byte>, b: seq<byte>)
    requires Verifies(a) && Verifies(b) && PayloadLen(a) >= 4
    requires b == Store(a, 42, b[42..44])
    ensures OnesEqual(Num16(a[42..44]), Num16(b[42..44]))
  {
    TotalStore(a, 17, b[42..44], 1);
    WordOf(a[42..44]);
    WordOf(b[42..44]);
    OnesFromMultiple(Num16(b[42..44]), Num16(a[42..44]), Wraps(Total(b)) - Wraps(Total(a)));
  }
}
