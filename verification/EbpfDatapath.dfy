/**
 The eBPF programs (bpf/pbridge.bpf.c) as they run: loads into buffers, stores into the skb in
 place, maps looked up and updated. Each is proved against the functions of module Datapath.
 */
module EbpfDatapath {
  import opened Types
  import opened Bytes
  import opened Checksum
  import opened Datapath

  class Skb {
    var data: seq<byte>
    var clones: seq<Clone>
    const pktType: PktType
    const ingress: nat

    constructor (frame: Frame, pktType: PktType, ingress: nat)
      ensures data == frame && clones == [] && this.pktType == pktType && this.ingress == ingress
    {
      data, clones := frame, [];
      this.pktType, this.ingress := pktType, ingress;
    }

    method StoreBytes(off: nat, v: seq<byte>)
      modifies this`data
      ensures data == Store(old(data), off, v)
    {
      if off + |v| <= |data| {
        data := data[..off] + v + data[off + |v|..];
      }
    }

    method L4CsumReplace(at: nat, diff: nat)
      modifies this`data
      ensures data == CsumAt(old(data), at, diff)
    {
      if at + 2 <= |data| {
        StoreBytes(at, Be16(Replaced(Num16(data[at..at + 2]), diff)));
      }
    }

    /** The clone is a snapshot of the bytes as they are now. */
    method CloneRedirect(ifx: nat)
      requires |data| >= 14
      modifies this`clones
      ensures clones == old(clones) + [Clone(ifx, data)]
    {
      clones := clones + [Clone(ifx, data)];
    }
  }

  /** nd_rewrite. */
  method NdRewrite(skb: Skb, off: nat, want: byte, hostmac: Mac) returns (done: bool)
    modifies skb`data
    ensures skb.data == old(NdRewritten(skb.data, off, want, hostmac))
    ensures done == old(HasOption(skb.data, off, want, hostmac))
  {
    if off + 8 > |skb.data| {
      return false;
    }
    var oldopt := skb.data[off..off + 8];
    if oldopt[0] != want || oldopt[2..8] == hostmac {
      return false;
    }
    var newopt := oldopt[..2] + hostmac;
    assert oldopt[..2] == skb.data[off..off + 2] && oldopt[2..8] == skb.data[off + 2..off + 8];
    ghost var was := skb.data;
    assert NdRewritten(was, off, want, hostmac) == Store(CsumAt(was, CSUM, CsumDiff(oldopt, newopt)), off + 2, hostmac);
    skb.L4CsumReplace(CSUM, CsumDiff(oldopt, newopt));
    skb.StoreBytes(off + 2, hostmac);
    return true;
  }

  class Programs {
    var conf: Conf
    var host: set<Ip>
    var ip2mac: map<Ip, Mac>
    var seen: map<Ip, bool>
    var events: seq<(Ip, Mac)>

    function View(): Tables
      reads this
    {
      Tables(host, ip2mac)
    }

    constructor (conf: Conf)
      ensures this.conf == conf && host == {} && ip2mac == map[] && seen == map[] && events == []
    {
      this.conf, host, ip2mac, seen, events := conf, {}, map[], map[], [];
    }

    method MarkSeen(ip: Ip)
      modifies this`seen
      ensures seen == old(seen)[ip := true]
    {
      seen := seen[ip := true];
    }

    method Learn(ip: Ip, mac: Mac)
      modifies this`events
      ensures events == old(events) + [(ip, mac)]
    {
      events := events + [(ip, mac)];
    }

    /** What the outbound program writes to its maps for a frame that leaves. */
    ghost predicate Recorded(was: map<Ip, bool>, wasEvents: seq<(Ip, Mac)>, f: Frame)
      reads this
    {
      var (learn, mark) := Teaches(View(), f);
      && seen == (if mark.Some? then was[mark.value := true] else was)
      && events == (if learn.Some? then wasEvents + [(learn.value, Src(f))] else wasEvents)
    }

    function Term(direct: bool): Verdict
      reads this
    {
      if direct then Accept else Redirect(conf.up0)
    }

    method OutV4(skb: Skb, direct: bool) returns (v: Verdict)
      requires |skb.data| >= 14 && EthType(skb.data) == ETH_IP4
      modifies this`seen, this`events, skb`data
      ensures v == Term(direct)
      ensures skb.data == old(OutFrame(skb.data, conf.hostmac))
      ensures Recorded(old(seen), old(events), old(skb.data))
    {
      var src: Mac := skb.data[6..12];
      var l4 := Peek(skb.data, 23, 1);
      if l4 == [17] {
        var sp := Peek(skb.data, 34, 2);
        var dp := Peek(skb.data, 36, 2);
        if sp == Be16(68) && dp == Be16(67) {
          skb.StoreBytes(52, [0x80, 0x00]);
          skb.StoreBytes(40, [0, 0]);
          skb.StoreBytes(6, conf.hostmac);
          return Term(direct);
        }
      }
      var ip := V4(Peek(skb.data, 26, 4));
      if ip in ip2mac && ip2mac[ip] == src {
        MarkSeen(ip);
        skb.StoreBytes(6, conf.hostmac);
        return Term(direct);
      }
      Learn(ip, src);
      skb.StoreBytes(6, conf.hostmac);
      return Term(direct);
    }

    /** The solicitations, advertisements and router solicitations among IPv6 frames. */
    method OutNd(skb: Skb, t: byte) returns (handled: bool)
      requires |skb.data| >= 14 && EthType(skb.data) == ETH_IP6 && t == Icmp6Type(skb.data)
      modifies this`seen, this`events, skb`data
      ensures handled == (t == 135 || t == 136 || t == 133)
      ensures handled ==>
                && skb.data == old(OutFrame(skb.data, conf.hostmac))
                && Recorded(old(seen), old(events), old(skb.data))
      ensures !handled ==> skb.data == old(skb.data) && seen == old(seen) && events == old(events)
    {
      var src: Mac := skb.data[6..12];
      var s6 := V6(Peek(skb.data, 22, 16));
      var tgt := V6(Peek(skb.data, 62, 16));
      if t == 135 {
        if s6 == UNSPEC6 {
          Learn(tgt, src);
          MarkSeen(tgt);
        } else {
          var _ := NdRewrite(skb, 78, 1, conf.hostmac);
          Learn(s6, src);
          MarkSeen(s6);
        }
      } else if t == 136 {
        var _ := NdRewrite(skb, 78, 2, conf.hostmac);
        Learn(tgt, src);
        MarkSeen(tgt);
      } else if t == 133 {
        if s6 != UNSPEC6 {
          var _ := NdRewrite(skb, 62, 1, conf.hostmac);
          Learn(s6, src);
          MarkSeen(s6);
        }
      } else {
        return false;
      }
      skb.StoreBytes(6, conf.hostmac);
      return true;
    }

    method OutV6(skb: Skb, direct: bool) returns (v: Verdict)
      requires |skb.data| >= 14 && EthType(skb.data) == ETH_IP6
      modifies this`seen, this`events, skb`data
      ensures v == Term(direct)
      ensures skb.data == old(OutFrame(skb.data, conf.hostmac))
      ensures Recorded(old(seen), old(events), old(skb.data))
    {
      var src: Mac := skb.data[6..12];
      var s6 := V6(Peek(skb.data, 22, 16));
      if Peek(skb.data, 20, 1) == [58] {
        var handled := OutNd(skb, Peek(skb.data, 54, 1)[0]);
        if handled {
          return Term(direct);
        }
      }
      if s6 in ip2mac && ip2mac[s6] == src {
        MarkSeen(s6);
      } else if s6 != UNSPEC6 {
        Learn(s6, src);
      }
      skb.StoreBytes(6, conf.hostmac);
      return Term(direct);
    }

    /** out_common. */
    method OutCommon(skb: Skb, direct: bool) returns (v: Verdict)
      requires |skb.data| >= 14
      modifies this`seen, this`events, skb`data
      ensures var o := old(Outbound(conf, skb.data, direct, skb.ingress));
              v == o.verdict && skb.data == o.frame && o.clones == []
      ensures old(Refused(conf, skb.data, direct, skb.ingress)) ==>
                v == Drop && skb.data == old(skb.data) && seen == old(seen) && events == old(events)
      ensures old(!Refused(conf, skb.data, direct, skb.ingress) && Src(skb.data) == conf.hostmac) ==>
                v == Accept && skb.data == old(skb.data) && seen == old(seen) && events == old(events)
      ensures old(!Refused(conf, skb.data, direct, skb.ingress) && Src(skb.data) != conf.hostmac) ==>
                && v == Term(direct)
                && skb.data == old(OutFrame(skb.data, conf.hostmac))
                && Recorded(old(seen), old(events), old(skb.data))
    {
      var src: Mac := skb.data[6..12];
      if src == conf.hostmac {
        if direct {
          return if skb.ingress == 0 then Accept else Drop;
        }
        return Drop;
      }
      if !direct && conf.brmac.Some? && src == conf.brmac.value {
        return Drop;
      }
      var proto := Num16(skb.data[12..14]);
      if proto == ETH_IP4 {
        v := OutV4(skb, direct);
        return;
      }
      if proto == ETH_ARP {
        skb.StoreBytes(22, conf.hostmac);
        var spa := V4(Peek(skb.data, 28, 4));
        assert spa == old(Spa(skb.data)) by {
          if 32 <= |skb.data| {
            StoredElsewhere(old(skb.data), 22, conf.hostmac, 28, 4);
          }
        }
        Learn(spa, src);
        MarkSeen(spa);
        skb.StoreBytes(6, conf.hostmac);
        return Term(direct);
      }
      if proto == ETH_IP6 {
        v := OutV6(skb, direct);
        return;
      }
      return Term(direct);
    }

    /** in_common. */
    method InCommon(skb: Skb, direct: bool) returns (v: Verdict)
      requires |skb.data| >= 14
      modifies skb`data, skb`clones
      ensures var o := old(InboundTo(conf, View(), skb.data, skb.pktType, direct, PeekedDest(skb.data)));
              v == o.verdict && skb.data == o.frame && skb.clones == old(skb.clones) + o.clones
      ensures old(!Misled(conf, View(), skb.data, skb.pktType, direct)) ==>
                var o := old(Inbound(conf, View(), skb.data, skb.pktType, direct));
                v == o.verdict && skb.data == o.frame && skb.clones == old(skb.clones) + o.clones
    {
      PeekedIff(conf, View(), skb.data, skb.pktType, direct);
      var dst: Mac := skb.data[0..6];
      var src: Mac := skb.data[6..12];
      if src == conf.hostmac {
        return Drop;
      }
      var toHost := dst == conf.hostmac;
      var proto := Num16(skb.data[12..14]);
      if proto == ETH_IP4 && toHost {
        if V4(Peek(skb.data, 30, 4)) in host {
          return Accept;
        }
      }
      if proto == ETH_ARP {
        if V4(Peek(skb.data, 38, 4)) in host {
          return Accept;
        }
      }
      if proto == ETH_IP6 && toHost {
        if V6(Peek(skb.data, 38, 16)) in host {
          return Accept;
        }
      }
      if !direct {
        if skb.pktType == PktBroadcast || skb.pktType == PktMulticast {
          skb.CloneRedirect(conf.fwd0);
          return Accept;
        }
      }
      if proto == ETH_IP4 && toHost {
        var ip := V4(Peek(skb.data, 30, 4));
        if ip in ip2mac {
          skb.StoreBytes(0, ip2mac[ip]);
          return if direct then Accept else Redirect(conf.fwd0);
        }
      }
      if proto == ETH_IP6 && toHost {
        var ip := V6(Peek(skb.data, 38, 16));
        if ip in ip2mac {
          skb.StoreBytes(0, ip2mac[ip]);
          return if direct then Accept else Redirect(conf.fwd0);
        }
      }
      if proto == ETH_ARP && toHost {
        var tpa := V4(Peek(skb.data, 38, 4));
        if tpa in ip2mac {
          skb.StoreBytes(32, ip2mac[tpa]);
          skb.StoreBytes(0, ip2mac[tpa]);
          return if direct then Accept else Redirect(conf.fwd0);
        }
      }
      return Accept;
    }

    /** egress_guard: normalise the source, then discover silent guests with an anonymous clone. */
    method EgressGuard(skb: Skb) returns (v: Verdict)
      requires |skb.data| >= 14
      modifies skb`data, skb`clones
      ensures var o := old(Guarded(conf, View(), skb.data));
              v == o.verdict && skb.data == o.frame && skb.clones == old(skb.clones) + o.clones
    {
      if skb.data[6..12] != conf.hostmac {
        skb.StoreBytes(6, conf.hostmac);
      }
      ghost var g := skb.data;
      var proto := Num16(skb.data[12..14]);
      var dst: Mac := skb.data[0..6];
      if proto == ETH_ARP {
        if Peek(skb.data, 20, 2) == Be16(1) && dst == BROADCAST {
          DiscoverArp(skb);
        }
      } else if proto == ETH_IP6 {
        GuardV6(skb);
      }
      return Accept;
    }

    /** The IPv6 half: a multicast solicitation of an unknown sender is cloned. */
    method GuardV6(skb: Skb)
      requires |skb.data| >= 14 && EthType(skb.data) == ETH_IP6
      modifies skb`data, skb`clones
      ensures if old(DiscoversNs(View(), skb.data))
              then && skb.clones == old(skb.clones) + [Clone(conf.fwd0, old(Anonymous(skb.data)))]
                   && skb.data == old(Named(Anonymous(skb.data), skb.data[22..38], FirstOption(skb.data)))
              else skb.data == old(skb.data) && skb.clones == old(skb.clones)
    {
      var dst: Mac := skb.data[0..6];
      if Peek(skb.data, 20, 1) == [58] && dst[0] == 0x33 && dst[1] == 0x33 {
        if Peek(skb.data, 54, 1) == [135] {
          var s6 := Peek(skb.data, 22, 16);
          if V6(s6) != UNSPEC6 && V6(s6) !in ip2mac && 82 <= |skb.data| && skb.data[78] == 1 {
            DiscoverNs(skb, s6);
          }
        }
      }
    }

    /** The broadcast request of an unknown sender is cloned with an empty sender address. */
    method DiscoverArp(skb: Skb)
      requires |skb.data| >= 14
      modifies skb`data, skb`clones
      ensures var f, spa := old(skb.data), old(Spa(skb.data));
              if spa == V4(Zeros(4)) || spa in ip2mac then skb.data == f && skb.clones == old(skb.clones)
              else skb.data == Store(Store(f, 28, Zeros(4)), 28, spa.o4)
                   && skb.clones == old(skb.clones) + [Clone(conf.fwd0, Store(f, 28, Zeros(4)))]
    {
      var spa := Peek(skb.data, 28, 4);
      if spa != Zeros(4) && V4(spa) !in ip2mac {
        skb.StoreBytes(28, Zeros(4));
        skb.CloneRedirect(conf.fwd0);
        skb.StoreBytes(28, spa);
      }
    }

    /** Edit, clone, undo; both edits are covered by the checksum. */
    method DiscoverNs(skb: Skb, s6: seq<byte>)
      requires |skb.data| >= 82 && s6 == skb.data[22..38]
      modifies skb`data, skb`clones
      ensures skb.clones == old(skb.clones) + [Clone(conf.fwd0, old(Anonymous(skb.data)))]
      ensures skb.data == old(Named(Anonymous(skb.data), skb.data[22..38], FirstOption(skb.data)))
    {
      var o4 := skb.data[78..82];
      var n4 := [200, o4[1], o4[2], o4[3]];
      Anonymize(skb, s6, o4, n4);
      skb.CloneRedirect(conf.fwd0);
      Rename(skb, s6, o4, n4);
    }

    method Anonymize(skb: Skb, s6: seq<byte>, o4: seq<byte>, n4: seq<byte>)
      requires |skb.data| >= 82 && s6 == skb.data[22..38] && o4 == FirstOption(skb.data) && n4 == [200, o4[1], o4[2], o4[3]]
      modifies skb`data
      ensures skb.data == old(Anonymous(skb.data))
    {
      assert n4 == Neutral(o4);
      skb.L4CsumReplace(CSUM, CsumDiff(s6, Zeros(16)));
      skb.L4CsumReplace(CSUM, CsumDiff(o4, n4));
      skb.StoreBytes(22, Zeros(16));
      skb.StoreBytes(78, n4[..1]);
    }

    method Rename(skb: Skb, s6: seq<byte>, o4: seq<byte>, n4: seq<byte>)
      requires |skb.data| >= 82 && |s6| == 16 && |o4| == 4 && n4 == [200, o4[1], o4[2], o4[3]]
      modifies skb`data
      ensures skb.data == old(Named(skb.data, s6, o4))
    {
      assert n4 == Neutral(o4);
      skb.L4CsumReplace(CSUM, CsumDiff(Zeros(16), s6));
      skb.L4CsumReplace(CSUM, CsumDiff(n4, o4));
      skb.StoreBytes(22, s6);
      skb.StoreBytes(78, o4[..1]);
    }
  }
}
