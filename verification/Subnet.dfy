/**
 Prefix tests and the per-route source selector (src/core.rs:1100-1152).
 */
module Subnet {
  import opened Types
  import opened Topology

  /** The octets as a big-endian number. */
  function Num(s: seq<byte>): nat {
    if s == [] then 0 else Num(s[..|s| - 1]) * 256 + s[|s| - 1]
  }

  function Value(ip: Ip): nat {
    if ip.V4? then Num(ip.o4) else Num(ip.o6)
  }

  function Pow2(n: nat): (p: nat)
    ensures p > 0
  {
    if n == 0 then 1 else 2 * Pow2(n - 1)
  }

  function Width(ip: Ip): nat {
    if ip.V4? then 32 else 128
  }

  /** The leading `plen` bits of an address, the rest cleared. */
  function Masked(ip: Ip, plen: nat): int
    requires plen <= Width(ip)
  {
    Value(ip) - Value(ip) % Pow2(Width(ip) - plen)
  }

  predicate SubnetContains(net: Ip, plen: nat, ip: Ip) {
    && FamilyOf(net) == FamilyOf(ip)
    && plen <= Width(net)
    && Masked(net, plen) == Masked(ip, plen)
  }

  predicate Better(a: Key, b: Key) {
    a.1 > b.1 || (a.1 == b.1 && Value(a.0) < Value(b.0))
  }

  /** The host addresses whose prefix covers the guest. */
  function Covering(vm: Ip, host: set<Key>): set<Key> {
    set k | k in host && SubnetContains(k.0, k.1, vm)
  }

  ghost predicate IsBest(vm: Ip, host: set<Key>, src: Option<Ip>) {
    if Covering(vm, host) == {} then src.None?
    else
      exists best :: best in Covering(vm, host) && src == Some(best.0)
                     && forall k | k in Covering(vm, host) :: !Better(k, best)
  }

  /** Most precise covering prefix, smallest address on a tie, whatever the order of `host`. */
  method SelectSrc(vm: Ip, host: seq<Key>) returns (src: Option<Ip>)
    ensures IsBest(vm, (set k | k in host), src)
  {
    var best: Option<Key> := None;
    for i := 0 to |host|
      invariant best.None? ==> forall k | k in host[..i] :: !SubnetContains(k.0, k.1, vm)
      invariant best.Some? ==> best.value in host && SubnetContains(best.value.0, best.value.1, vm)
      invariant best.Some? ==> forall k | k in host[..i] && SubnetContains(k.0, k.1, vm) :: !Better(k, best.value)
    {
      var a := host[i];
      assert host[..i + 1] == host[..i] + [a];
      if SubnetContains(a.0, a.1, vm) && (best.None? || Better(a, best.value)) {
        best := Some(a);
      }
    }
    assert host[..|host|] == host;
    src := if best.Some? then Some(best.value.0) else None;
    if best.Some? {
      assert best.value in Covering(vm, set k | k in host);
    }
  }

  lemma SplitNum(x: nat, lo: byte, y: nat, lo': byte)
    requires x * 256 + lo == y * 256 + lo'
    ensures x == y && lo == lo'
  {
  }

  lemma {:induction false} NumInjective(a: seq<byte>, b: seq<byte>)
    requires |a| == |b| && Num(a) == Num(b)
    ensures a == b
  {
    if a != [] {
      var n := |a| - 1;
      SplitNum(Num(a[..n]), a[n], Num(b[..n]), b[n]);
      NumInjective(a[..n], b[..n]);
      assert a == a[..n] + [a[n]] && b == b[..n] + [b[n]];
    }
  }

  lemma ValueInjective(a: Ip, b: Ip)
    requires FamilyOf(a) == FamilyOf(b) && Value(a) == Value(b)
    ensures a == b
  {
    if a.V4? {
      NumInjective(a.o4, b.o4);
    } else {
      NumInjective(a.o6, b.o6);
    }
  }

  /** The selected source depends only on which addresses the host has. */
  lemma BestIsUnique(vm: Ip, host: set<Key>, a: Option<Ip>, b: Option<Ip>)
    requires IsBest(vm, host, a) && IsBest(vm, host, b)
    ensures a == b
  {
    var covering := Covering(vm, host);
    if covering != {} {
      var x :| x in covering && a == Some(x.0) && forall k | k in covering :: !Better(k, x);
      var y :| y in covering && b == Some(y.0) && forall k | k in covering :: !Better(k, y);
      assert !Better(x, y) && !Better(y, x);
      ValueInjective(x.0, y.0);
    }
  }

  lemma NotBetterTransitive(a: Key, b: Key, c: Key)
    requires !Better(a, b) && !Better(b, c)
    ensures !Better(a, c)
  {
  }

  lemma {:induction false} BestExists(vm: Ip, host: set<Key>, keys: set<Key>) returns (best: Key)
    requires keys != {} && keys <= Covering(vm, host)
    ensures best in keys && forall k | k in keys :: !Better(k, best)
    decreases |keys|
  {
    var x :| x in keys;
    if keys == {x} {
      best := x;
    } else {
      var y := BestExists(vm, host, keys - {x});
      best := if Better(x, y) then x else y;
      forall k | k in keys ensures !Better(k, best) {
        if k != x && best == x {
          NotBetterTransitive(k, y, x);
        }
      }
    }
  }

  /** The selected source, as a function of the addresses. */
  ghost function BestSrc(vm: Ip, host: set<Key>): Option<Ip> {
    BestSrcExists(vm, host);
    var src :| IsBest(vm, host, src);
    src
  }

  lemma BestSrcExists(vm: Ip, host: set<Key>)
    ensures exists src :: IsBest(vm, host, src)
  {
    if Covering(vm, host) == {} {
      assert IsBest(vm, host, None);
    } else {
      var best := BestExists(vm, host, Covering(vm, host));
      assert IsBest(vm, host, Some(best.0));
    }
  }
}
