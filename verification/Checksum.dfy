/**
 One's-complement checksum arithmetic: the folded word sum, the incremental update of a
 checksum field (section 3 of RFC 1624), and the ICMPv6 message sum over the pseudo-header
 (section 8.1 of RFC 8200, section 2.3 of RFC 4443).

 Words are taken big-endian; a one's-complement sum does not depend on that choice.
 */
module Checksum {
  import opened Types
  import opened Bytes

  const ALL_ONES := 65535

  /** The sum of 16-bit words, an odd last byte padded with zero. */
  function WordSum(s: seq<byte>): nat {
    if |s| == 0 then 0
    else if |s| == 1 then s[0] * 256
    else s[0] * 256 + s[1] + WordSum(s[2..])
  }

  /** How often a sum wraps around when it is folded. */
  function Wraps(n: nat): nat {
    if n == 0 then 0 else (n - 1) / 65535
  }

  /** The end-around-carry fold of a sum to 16 bits: zero only for zero. */
  function Fold(n: nat): (r: nat)
    ensures r <= ALL_ONES && (r == 0 <==> n == 0) && n == r + 65535 * Wraps(n)
  {
    if n == 0 then 0 else (n - 1) % 65535 + 1
  }

  /** Equal as one's-complement numbers, which have two zeros. */
  predicate OnesEqual(x: nat, y: nat) {
    x == y || (x == 0 && y == ALL_ONES) || (x == ALL_ONES && y == 0)
  }

  lemma OnesFromMultiple(x: nat, y: nat, k: int)
    requires x <= ALL_ONES && y <= ALL_ONES && x == y + 65535 * k
    ensures OnesEqual(x, y)
  {
  }

  lemma FoldUnique(n: nat, r: nat, k: int)
    requires n > 0 && 0 < r <= ALL_ONES && n == r + 65535 * k
    ensures Fold(n) == r
  {
    assert Fold(n) - r == 65535 * (k - Wraps(n));
  }

  /** One carry step keeps the folded value. */
  lemma FoldStep(n: nat)
    ensures Fold(n % 0x1_0000 + n / 0x1_0000) == Fold(n)
  {
    var hi, lo := n / 0x1_0000, n % 0x1_0000;
    if n > 0 {
      FoldUnique(n, Fold(lo + hi), Wraps(lo + hi) + hi);
    }
  }

  lemma {:induction false} WordSumAppend(a: seq<byte>, words: nat, b: seq<byte>)
    requires |a| == 2 * words
    ensures WordSum(a + b) == WordSum(a) + WordSum(b)
  {
    if words == 0 {
      assert a + b == b;
    } else {
      WordSumAppend(a[2..], words - 1, b);
      assert (a + b)[2..] == a[2..] + b;
    }
  }

  /** The number of words, a last odd byte counted as one. */
  function Words(s: seq<byte>): nat {
    if |s| == 0 then 0 else if |s| == 1 then 1 else 1 + Words(s[2..])
  }

  lemma {:induction false} WordSumBound(s: seq<byte>)
    ensures WordSum(s) <= 65535 * Words(s)
  {
    if |s| > 1 {
      WordSumBound(s[2..]);
    }
  }

  lemma {:induction false} WordsBound(s: seq<byte>)
    ensures 2 * Words(s) <= |s| + 1
  {
    if |s| > 1 {
      WordsBound(s[2..]);
    }
  }

  lemma WordSumSplice(a: seq<byte>, i: nat, b: seq<byte>, v: seq<byte>, words: nat, c: seq<byte>)
    requires |a| == 2 * i && |b| == |v| == 2 * words
    ensures WordSum(a + (v + c)) + WordSum(b) == WordSum(a + (b + c)) + WordSum(v)
  {
    WordSumAppend(a, i, b + c);
    WordSumAppend(b, words, c);
    WordSumAppend(a, i, v + c);
    WordSumAppend(v, words, c);
  }

  /** Overwriting whole words, `i` words in, moves the sum by exactly their difference. */
  lemma WordSumStore(f: seq<byte>, i: nat, v: seq<byte>, words: nat)
    requires |v| == 2 * words && 2 * i + |v| <= |f|
    ensures WordSum(Store(f, 2 * i, v)) + WordSum(f[2 * i..2 * i + |v|]) == WordSum(f) + WordSum(v)
  {
    var off := 2 * i;
    StoreParts(f, off, v);
    WordSumSplice(f[..off], i, f[off..off + |v|], v, words, f[off + |v|..]);
  }

  lemma StoreParts(f: seq<byte>, off: nat, v: seq<byte>)
    requires off + |v| <= |f|
    ensures f == f[..off] + (f[off..off + |v|] + f[off + |v|..])
    ensures Store(f, off, v) == f[..off] + (v + f[off + |v|..])
  {
    assert f[..off] + v + f[off + |v|..] == f[..off] + (v + f[off + |v|..]);
  }

  // ---- incremental update ----

  function Complement(s: seq<byte>): seq<byte> {
    seq(|s|, i requires 0 <= i < |s| => 255 - s[i])
  }

  lemma {:induction false} ComplementSum(s: seq<byte>, words: nat)
    requires |s| == 2 * words
    ensures WordSum(Complement(s)) + WordSum(s) == 65535 * words
  {
    if words > 0 {
      ComplementSum(s[2..], words - 1);
      assert Complement(s)[2..] == Complement(s[2..]);
    }
  }

  /** bpf_csum_diff: the one's-complement sum of `to` and of `from` complemented. */
  function CsumDiff(from: seq<byte>, to: seq<byte>): nat {
    WordSum(Complement(from)) + WordSum(to)
  }

  /** bpf_l4_csum_replace with a precomputed difference. */
  function Replaced(c: nat, diff: nat): (r: nat)
    requires c <= ALL_ONES
    ensures r <= ALL_ONES && (r == ALL_ONES <==> diff == 0 && c == ALL_ONES)
  {
    ALL_ONES - Fold(diff + (ALL_ONES - c))
  }

  /** The field plus the words it covers is unchanged but for a multiple of 65535. */
  lemma ReplacedBalances(c: nat, from: seq<byte>, to: seq<byte>, words: nat) returns (k: int)
    requires c <= ALL_ONES && |from| == 2 * words
    ensures Replaced(c, CsumDiff(from, to)) + WordSum(to) == c + WordSum(from) + 65535 * k
  {
    ComplementSum(from, words);
    k := Wraps(CsumDiff(from, to) + (ALL_ONES - c)) - words;
  }
}
