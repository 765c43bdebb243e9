/**
 What the prefix test and the choice among covering prefixes decide, told on the octets of the
 addresses (src/core.rs:1100-1152), and the address classes of src/types.rs as prefixes.
 */
module Prefixes {
  import opened Types
  import opened Topology
  import opened Subnet

  function Octets(ip: Ip): (o: seq<byte>)
    ensures |o| == if ip.V4? then 4 else 16
  {
    match ip
    case V4(o) => o
    case V6(o) => o
  }

  const POWERS := [1, 2, 4, 8, 16, 32, 64, 128]

  /** The leading `r` bits of an octet. */
  function TopBits(o: byte, r: nat): nat
    requires 0 < r < 8
  {
    o / POWERS[8 - r]
  }

  /** The first `k` octets and `r` bits of two octet strings are the same. */
  predicate AgreeOn(a: seq<byte>, b: seq<byte>, k: nat, r: nat)
    requires |a| == |b| && r < 8 && (if r == 0 then k else k + 1) <= |a|
  {
    a[..k] == b[..k] && (r != 0 ==> TopBits(a[k], r) == TopBits(b[k], r))
  }

  /** The first `plen` bits of two octet strings are the same. */
  predicate SameBits(a: seq<byte>, b: seq<byte>, plen: nat)
    requires |a| == |b| && plen <= 8 * |a|
  {
    AgreeOn(a, b, plen / 8, plen % 8)
  }

  // ---- division ----

  lemma MulMono(p: nat, i: int, j: int)
    ensures i >= j ==> p * i >= p * j
  {
  }

  lemma DivIs(x: nat, p: nat, q: nat, r: nat)
    requires p > 0 && x == p * q + r && r < p
    ensures x / p == q
  {
    var d := x / p - q;
    assert p * d == r - x % p by { assert p * d == p * (x / p) - p * q; }
    MulMono(p, d, 1);
    MulMono(p, -1, d);
  }

  lemma MaskIsDiv(x: nat, y: nat, p: nat)
    requires p > 0
    ensures x - x % p == y - y % p <==> x / p == y / p
  {
    assert x - x % p == p * (x / p) && y - y % p == p * (y / p);
    if p * (x / p) == p * (y / p) {
      DivIs(x, p, y / p, x % p);
    }
  }

  /** Dropping a whole octet first. */
  lemma DropOctet(x: nat, lo: byte, p: nat)
    requires p > 0
    ensures (x * 256 + lo) / (256 * p) == x / p
  {
    var q, r := x / p, x % p;
    assert x == p * q + r;
    assert x * 256 + lo == (256 * p) * q + (256 * r + lo) by { assert (256 * p) * q == 256 * (p * q); }
    assert 256 * r + lo < 256 * p;
    DivIs(x * 256 + lo, 256 * p, q, 256 * r + lo);
  }

  /** Dropping part of the last octet: the rest is the number before it and its leading bits. */
  lemma DropBits(x: nat, a: byte, y: nat, b: byte, p: nat, w: nat)
    requires 0 < p && p * w == 256
    ensures (x * 256 + a) / p == (y * 256 + b) / p <==> x == y && a / p == b / p
  {
    SplitDiv(x, a, p, w);
    SplitDiv(y, b, p, w);
    SplitUnique(x, a / p, y, b / p, w);
  }

  lemma SplitUnique(x: nat, i: nat, y: nat, j: nat, w: nat)
    requires i < w && j < w
    ensures x * w + i == y * w + j <==> x == y && i == j
  {
    if x * w + i == y * w + j {
      DivIs(x * w + i, w, x, i);
      DivIs(y * w + j, w, y, j);
    }
  }

  lemma SplitDiv(x: nat, a: byte, p: nat, w: nat)
    requires 0 < p && p * w == 256
    ensures (x * 256 + a) / p == x * w + a / p && a / p < w
  {
    var i, r := a / p, a % p;
    assert a == p * i + r;
    assert x * 256 + a == p * (x * w + i) + r by { assert p * (x * w) == x * (p * w); }
    DivIs(x * 256 + a, p, x * w + i, r);
    MulMono(p, i, w);
  }

  // ---- from numbers to octets ----

  lemma Pow2Plus8(n: nat)
    ensures Pow2(n + 8) == 256 * Pow2(n)
  {
    assert Pow2(n + 8) == 2 * Pow2(n + 7) == 4 * Pow2(n + 6);
    assert Pow2(n + 6) == 2 * Pow2(n + 5) == 4 * Pow2(n + 4);
    assert Pow2(n + 4) == 2 * Pow2(n + 3) == 4 * Pow2(n + 2);
    assert Pow2(n + 2) == 2 * Pow2(n + 1) == 4 * Pow2(n);
  }

  lemma SmallPowers(n: nat)
    requires n < 8
    ensures Pow2(n) == POWERS[n]
  {
    assert Pow2(1) == 2 && Pow2(2) == 4 && Pow2(3) == 8 && Pow2(4) == 16;
    assert Pow2(5) == 32 && Pow2(6) == 64 && Pow2(7) == 128;
  }

  lemma NumLast(s: seq<byte>)
    requires s != []
    ensures Num(s) == Num(s[..|s| - 1]) * 256 + s[|s| - 1]
  {
  }

  predicate SameHigh(a: seq<byte>, b: seq<byte>, host: nat) {
    Num(a) / Pow2(host) == Num(b) / Pow2(host)
  }

  /** Numbers agree above their last bits exactly when the octets agree on the bits before. */
  lemma {:induction false} HighBits(a: seq<byte>, b: seq<byte>, k: nat, r: nat)
    requires |a| == |b| && r < 8 && (if r == 0 then k else k + 1) <= |a|
    ensures SameHigh(a, b, 8 * (|a| - k) - r) <==> AgreeOn(a, b, k, r)
    decreases |a|
  {
    if k == |a| {
      WholeOctets(a, b);
    } else if r != 0 && k + 1 == |a| {
      LastOctetCut(a, b, r);
    } else {
      var n := |a| - 1;
      LastOctetGone(a, b, 8 * (|a| - k) - r);
      HighBits(a[..n], b[..n], k, r);
      assert a[..n][..k] == a[..k] && b[..n][..k] == b[..k];
    }
  }

  lemma WholeOctets(a: seq<byte>, b: seq<byte>)
    requires |a| == |b|
    ensures SameHigh(a, b, 0) <==> AgreeOn(a, b, |a|, 0)
  {
    assert a[..|a|] == a && b[..|b|] == b;
    if Num(a) == Num(b) {
      NumInjective(a, b);
    }
  }

  lemma LastOctetGone(a: seq<byte>, b: seq<byte>, host: nat)
    requires |a| == |b| > 0 && 8 <= host
    ensures SameHigh(a, b, host) <==> SameHigh(a[..|a| - 1], b[..|b| - 1], host - 8)
  {
    var n := |a| - 1;
    Pow2Plus8(host - 8);
    NumLast(a);
    NumLast(b);
    DropOctet(Num(a[..n]), a[n], Pow2(host - 8));
    DropOctet(Num(b[..n]), b[n], Pow2(host - 8));
  }

  lemma LastOctetCut(a: seq<byte>, b: seq<byte>, r: nat)
    requires |a| == |b| > 0 && 0 < r < 8
    ensures SameHigh(a, b, 8 - r) <==> AgreeOn(a, b, |a| - 1, r)
  {
    var n := |a| - 1;
    assert SameHigh(a, b, 8 - r) <==> Num(a[..n]) == Num(b[..n]) && TopBits(a[n], r) == TopBits(b[n], r) by {
      NumLast(a);
      NumLast(b);
      SmallPowers(8 - r);
      PowersPair(r);
      DropBits(Num(a[..n]), a[n], Num(b[..n]), b[n], POWERS[8 - r], POWERS[r]);
    }
    if Num(a[..n]) == Num(b[..n]) {
      NumInjective(a[..n], b[..n]);
    }
  }

  lemma PowersPair(r: nat)
    requires 0 < r < 8
    ensures POWERS[8 - r] * POWERS[r] == 256
  {
  }

  /** On the octets: a prefix of at most their length covers exactly the addresses of its family
      that agree with it on the first `plen` bits; a longer one covers nothing. */
  lemma ContainsIff(net: Ip, plen: nat, ip: Ip)
    ensures SubnetContains(net, plen, ip)
       <==> && net.V4? == ip.V4? && plen <= 8 * |Octets(net)| && SameBits(Octets(net), Octets(ip), plen)
  {
    if net.V4? == ip.V4? && plen <= 8 * |Octets(net)| {
      var a, b := Octets(net), Octets(ip);
      assert Width(net) == Width(ip) == 8 * |a|;
      MaskIsDiv(Value(net), Value(ip), Pow2(8 * |a| - plen));
      HighBits(a, b, plen / 8, plen % 8);
      assert 8 * (|a| - plen / 8) - plen % 8 == 8 * |a| - plen;
    }
  }

  // ---- the order among equally long prefixes ----

  /** Lexicographic order of octet strings of one length. */
  ghost predicate Before(a: seq<byte>, b: seq<byte>)
    requires |a| == |b|
  {
    exists i :: 0 <= i < |a| && a[..i] == b[..i] && a[i] < b[i]
  }

  lemma {:induction false} LessIsBefore(a: seq<byte>, b: seq<byte>)
    requires |a| == |b|
    ensures Num(a) < Num(b) <==> Before(a, b)
  {
    if a != [] {
      var n := |a| - 1;
      NumLast(a);
      NumLast(b);
      LessIsBefore(a[..n], b[..n]);
      LastDecides(Num(a[..n]), a[n], Num(b[..n]), b[n]);
      if Num(a) < Num(b) {
        if Num(a[..n]) == Num(b[..n]) {
          NumInjective(a[..n], b[..n]);
          assert a[..n] == b[..n] && a[n] < b[n];
        } else {
          var i :| 0 <= i < n && a[..n][..i] == b[..n][..i] && a[..n][i] < b[..n][i];
          assert a[..i] == a[..n][..i] && b[..i] == b[..n][..i];
          assert a[i] < b[i];
        }
      }
      if Before(a, b) {
        var i :| 0 <= i < |a| && a[..i] == b[..i] && a[i] < b[i];
        if i < n {
          assert a[..n][..i] == a[..i] && b[..n][..i] == b[..i];
          assert a[..n][i] < b[..n][i];
          assert Before(a[..n], b[..n]);
        }
      }
    }
  }

  lemma LastDecides(x: nat, a: byte, y: nat, b: byte)
    ensures x * 256 + a < y * 256 + b <==> x < y || (x == y && a < b)
  {
  }

  /** Of two prefixes of a family the longer is better, and of equally long ones that with the
      lexicographically smaller address. */
  lemma BetterIff(a: Key, b: Key)
    requires a.0.V4? == b.0.V4?
    ensures Better(a, b) <==> a.1 > b.1 || (a.1 == b.1 && Before(Octets(a.0), Octets(b.0)))
  {
    LessIsBefore(Octets(a.0), Octets(b.0));
  }

  // ---- address classes ----

  function Prefix4(a: byte, b: byte): Ip {
    V4([a, b, 0, 0])
  }

  function Prefix6(a: byte, b: byte): Ip {
    V6([a, b] + Zeros(14))
  }

  /** Link-local is 169.254.0.0/16 and fe80::/10. */
  lemma LinkLocalIff(ip: Ip)
    ensures IsLinkLocal(ip) <==> SubnetContains(Prefix4(169, 254), 16, ip) || SubnetContains(Prefix6(0xfe, 0x80), 10, ip)
  {
    ContainsIff(Prefix4(169, 254), 16, ip);
    ContainsIff(Prefix6(0xfe, 0x80), 10, ip);
    var o := Octets(ip);
    assert o[..2] == [o[0], o[1]] && o[..1] == [o[0]];
    assert [169, 254, 0, 0][..2] == [169, 254] && ([0xfe, 0x80] + Zeros(14))[..1] == [0xfe];
    assert TopBits(0x80, 2) == 2 && TopBits(o[1], 2) == o[1] / 64;
  }

  /** Not learnable are exactly 224.0.0.0/4, 127.0.0.0/8, 0.0.0.0, 255.255.255.255, ff00::/8, ::
      and ::1. */
  lemma LearnableIff(ip: Ip)
    ensures IsLearnable(ip)
       <==> !(|| SubnetContains(Prefix4(224, 0), 4, ip) || SubnetContains(Prefix4(127, 0), 8, ip)
              || SubnetContains(Prefix6(0xff, 0), 8, ip)
              || ip in {V4([0, 0, 0, 0]), V4([255, 255, 255, 255]), V6(Zeros(16)), V6(Zeros(15) + [1])})
  {
    ContainsIff(Prefix4(224, 0), 4, ip);
    ContainsIff(Prefix4(127, 0), 8, ip);
    ContainsIff(Prefix6(0xff, 0), 8, ip);
    var o := Octets(ip);
    assert o[..1] == [o[0]] && o[..0] == [];
    assert [127, 0, 0, 0][..1] == [127] && ([0xff, 0] + Zeros(14))[..1] == [0xff] && [224, 0, 0, 0][..0] == [];
    assert TopBits(224, 4) == 14 && TopBits(o[0], 4) == o[0] / 16;
    assert Zeros(4) == [0, 0, 0, 0];
  }
}
