/**
 Frames at which the exact conditions stated elsewhere fail: the two engines treat them
 differently, or a clone is not valid.
 */
module FrameWitnesses {
  import opened Types
  import opened Bytes
  import opened Checksum
  import opened Packet
  import opened Datapath
  import opened NftMachine
  import opened NftRules
  import opened InboundEquivalence
  import opened GuardEquivalence
  import opened NdEquivalence
  import opened NdCoverage
  import opened NftOutChain
  import opened NftLearning
  import opened NftMarks
  import opened OutboundEquivalence

  const HOSTMAC: Mac := [2, 0, 0, 0, 0, 1]
  const GUESTMAC: Mac := [2, 0, 0, 0, 0, 5]

  const CONF := Conf(HOSTMAC, None, 2, 3)

  // ---- a group frame to HOSTMAC ----

  const GUEST4 := V4([10, 0, 0, 5])

  const TO_GUEST: Frame := HOSTMAC + [2, 0, 0, 0, 0, 9] + [8, 0] + Zeros(16) + [10, 0, 0, 5]

  /** An IPv4 frame to HOSTMAC for a guest, received as broadcast: nft copies it to the guests
      and then hands it to the guest as well; the eBPF program only copies it. */
  lemma GroupFrameIsDemuxedTwice()
    ensures var env := Env(Tables({}, map[GUEST4 := GUESTMAC]), {}, PktBroadcast);
            var m := Chain(env, InRulesFwd(HOSTMAC, 3), 0, [], Boot(TO_GUEST));
            Outcome(Final(m), m.frame, m.dups) != Inbound(CONF, env.t, TO_GUEST, PktBroadcast, false)
  {
    var env, f := Env(Tables({}, map[GUEST4 := GUESTMAC]), {}, PktBroadcast), TO_GUEST;
    assert f[0..6] == HOSTMAC && f[6..12] == [2, 0, 0, 0, 0, 9] && f[12..14] == [8, 0] && f[30..34] == [10, 0, 0, 5];
    assert f[11] != HOSTMAC[5];
    FwdEquivalenceIff(CONF, env, f);
  }

  // ---- other frames the engines learn differently from ----

  const NOBODY := Env(Tables({}, map[]), {}, PktBroadcast)

  lemma NobodyInStep()
    ensures ValidInStep(NOBODY)
  {
  }

  const SHORT_DHCP: Frame := BROADCAST + GUESTMAC + [8, 0] + Zeros(9) + [17] + Zeros(2) + [10, 0, 0, 5] + Zeros(4)
                             + [0, 68, 0, 67] + Zeros(4)

  /** DHCP ports in a frame of 42 bytes: nft's rule cannot write its flags, so the frame is
      copied and learned from; eBPF teaches nothing. */
  lemma ShortDhcpLearnsApart()
    ensures var m := Chain(NOBODY, OutRulesFwd(HOSTMAC, None, 2), 0, NdOutRules(HOSTMAC), Boot(SHORT_DHCP));
            ValidInStep(NOBODY) && Learnt(m.logs) != Reported(CONF, NOBODY.t, SHORT_DHCP, false)
  {
    var f := SHORT_DHCP;
    NobodyInStep();
    assert f[6..12] == GUESTMAC && f[12..14] == [8, 0] && f[23..24] == [17] && f[26..30] == [10, 0, 0, 5];
    assert f[34..36] == [0, 68] == Be16(68) && f[36..38] == [0, 67] == Be16(67);
    assert GUESTMAC[5] != HOSTMAC[5];
    assert IsLearnable(GUEST4) by { assert [10, 0, 0, 5][0] == 10; }
    assert ShortDhcp(NOBODY.t, f);
    EnginesLearnAlikeFwd(CONF, NOBODY, f);
  }

  const ODD_ARP: Frame := BROADCAST + GUESTMAC + [8, 6] + [0, 1, 0x86, 0xdd, 6, 4, 0, 1] + GUESTMAC + [10, 0, 0, 5]

  /** ARP for another protocol: eBPF learns its sender, userspace does not. */
  lemma OddArpLearnsApart()
    ensures var m := Chain(NOBODY, OutRulesFwd(HOSTMAC, None, 2), 0, NdOutRules(HOSTMAC), Boot(ODD_ARP));
            ValidInStep(NOBODY) && Learnt(m.logs) != Reported(CONF, NOBODY.t, ODD_ARP, false)
  {
    var f := ODD_ARP;
    NobodyInStep();
    assert f[6..12] == GUESTMAC && f[12..14] == [8, 6] && f[16..18] == [0x86, 0xdd] && f[28..32] == [10, 0, 0, 5];
    assert GUESTMAC[5] != HOSTMAC[5];
    assert IsLearnable(GUEST4) by { assert [10, 0, 0, 5][0] == 10; }
    assert OddArp(f);
    EnginesLearnAlikeFwd(CONF, NOBODY, f);
  }

  const DHCP_PORTS6: Frame := BROADCAST + GUESTMAC + [0x86, 0xdd] + [0x60, 0, 0, 0, 0, 20, 17, 255] + SENDER6 + NODES6
                              + [0, 68, 0, 67] + Zeros(16)

  /** The DHCP ports over IPv6: nft's rule takes the frame for DHCP and copies nothing. */
  lemma Dhcp6LearnsApart()
    ensures var m := Chain(NOBODY, OutRulesFwd(HOSTMAC, None, 2), 0, NdOutRules(HOSTMAC), Boot(DHCP_PORTS6));
            ValidInStep(NOBODY) && Learnt(m.logs) != Reported(CONF, NOBODY.t, DHCP_PORTS6, false)
  {
    var f := DHCP_PORTS6;
    NobodyInStep();
    assert f[6..12] == GUESTMAC && f[12..14] == [0x86, 0xdd] && f[20] == 17 && f[22..38] == SENDER6;
    assert f[54..58] == [0, 68, 0, 67];
    assert GUESTMAC[5] != HOSTMAC[5];
    assert SENDER6[0] == 0xfe && IsLearnable(V6(SENDER6));
    assert Dhcp6(NOBODY.t, f);
    EnginesLearnAlikeFwd(CONF, NOBODY, f);
  }

  // ---- frames that leave differently ----

  const LLDP: Frame := BROADCAST + GUESTMAC + [0x88, 0xcc]

  const DHCP_CSUM: Frame := BROADCAST + GUESTMAC + [8, 0] + Zeros(9) + [17] + Zeros(10) + [0, 68, 0, 67] + [0, 8, 1, 2]

  ghost predicate LeavesDifferently(f: Frame) {
    var m := Chain(NOBODY, OutRulesFwd(HOSTMAC, None, 2), 0, NdOutRules(HOSTMAC), Boot(f));
    Outcome(Final(m), m.frame, m.dups) != Outbound(CONF, f, false, 7)
  }

  /** A frame of another type: only nft puts HOSTMAC into it. */
  lemma OtherTypeLeavesApart()
    ensures LeavesDifferently(LLDP)
  {
    var f := LLDP;
    assert f[6..12] == GUESTMAC && f[12..14] == [0x88, 0xcc];
    assert GUESTMAC[5] != HOSTMAC[5];
    FwdSendsAlikeIff(CONF, NOBODY, f, 7);
  }

  /** The DHCP ports over IPv6: nft writes flags that are none. */
  lemma Dhcp6LeavesApart()
    ensures LeavesDifferently(DHCP_PORTS6)
  {
    var f := DHCP_PORTS6;
    assert f[6..12] == GUESTMAC && f[12..14] == [0x86, 0xdd] && f[20] == 17 && f[54..58] == [0, 68, 0, 67] && f[72] == 0;
    assert GUESTMAC[5] != HOSTMAC[5];
    FwdSendsAlikeIff(CONF, NOBODY, f, 7);
  }

  /** DHCP cut off behind its UDP header: only eBPF clears the checksum. */
  lemma ShortDhcpLeavesApart()
    ensures LeavesDifferently(DHCP_CSUM)
  {
    var f := DHCP_CSUM;
    assert f[6..12] == GUESTMAC && f[12..14] == [8, 0] && f[23] == 17 && f[34..38] == [0, 68, 0, 67];
    assert f[40] == 1;
    assert GUESTMAC[5] != HOSTMAC[5];
    FwdSendsAlikeIff(CONF, NOBODY, f, 7);
  }

  // ---- a frame too short for its destination ----

  const BARE_ARP: Frame := BROADCAST + GUESTMAC + [8, 6]

  /** A broadcast ARP header without a body, and 0.0.0.0 among the host addresses: the eBPF
      program keeps from the guests what the rows share with them. */
  lemma ShortFrameMisleads()
    ensures var t := Tables({V4(Zeros(4))}, map[]);
            InboundTo(CONF, t, BARE_ARP, PktBroadcast, false, PeekedDest(BARE_ARP))
            != Inbound(CONF, t, BARE_ARP, PktBroadcast, false)
  {
    var f := BARE_ARP;
    assert f[6..12] == GUESTMAC && f[12..14] == [8, 6];
    assert GUESTMAC[5] != HOSTMAC[5];
    PeekedIff(CONF, Tables({V4(Zeros(4))}, map[]), f, PktBroadcast, false);
  }

  // ---- neighbour discovery ----

  const LL: seq<byte> := [0xfe, 0x80] + Zeros(13)

  const SENDER6: Octets16 := LL + [1]
  const NODES6: Octets16 := [0xff, 2] + Zeros(13) + [1]
  const TARGET6: Octets16 := LL + [7]

  /** Ethernet and IPv6 header of a multicast ICMPv6 message of 24 bytes, and the message. */
  function Message24(typ: byte, csum: seq<byte>): (f: Frame)
    requires |csum| == 2
    ensures |f| == 78
  {
    ([0x33, 0x33, 0, 0, 0, 1] + GUESTMAC + [0x86, 0xdd]) + [0x60, 0, 0, 0, 0, 24, 58, 255] + SENDER6 + NODES6
    + ([typ, 0] + csum + [0, 0, 0, 0]) + TARGET6
  }

  lemma Message24Fields(typ: byte, csum: seq<byte>, tail: seq<byte>)
    requires |csum| == 2
    ensures var f := Message24(typ, csum) + tail;
            && f[0] == 0x33 && f[1] == 0x33 && f[6..12] == GUESTMAC && f[12..14] == [0x86, 0xdd]
            && f[18..20] == [0, 24] && f[20] == 58 && f[22..38] == SENDER6 && f[38..54] == NODES6
            && f[54] == typ && f[54..62] == [typ, 0] + csum + [0, 0, 0, 0] && f[62..78] == TARGET6
            && f[78..] == tail
  {
  }

  /** An advertisement without an option from a known source: the eBPF program reports its
      target, and nft lets it out uncopied. */
  lemma KnownAdvertisementIsNotCopied()
    ensures var f := Message24(136, [0, 0]);
            var env := Env(Tables({}, map[V6(SENDER6) := GUESTMAC]), {(V6(SENDER6), GUESTMAC)}, PktMulticast);
            var m := Chain(env, OutRulesFwd(HOSTMAC, None, 2), 0, NdOutRules(HOSTMAC), Boot(f));
            ValidInStep(env) && Learnt(m.logs) != Reported(CONF, env.t, f, false)
  {
    var f := Message24(136, [0, 0]);
    var env := Env(Tables({}, map[V6(SENDER6) := GUESTMAC]), {(V6(SENDER6), GUESTMAC)}, PktMulticast);
    Message24Fields(136, [0, 0], []);
    assert f + [] == f;
    assert GUESTMAC[5] != HOSTMAC[5];
    assert Src(f) != HOSTMAC && Icmp6Type(f) == 136 && NdKindOf(f, HOSTMAC).None?;
    assert Src6(f) == V6(SENDER6) && Target6(f) == V6(TARGET6);
    assert TARGET6[0] == 0xfe && IsLearnable(V6(TARGET6));
    EnginesLearnAlikeFwd(CONF, env, f);
  }

  /** The same advertisement: eBPF marks its target alive, nft its source. */
  lemma AdvertisementMarksApart()
    ensures var f := Message24(136, [0, 0]);
            var env := Env(Tables({}, map[V6(SENDER6) := GUESTMAC]), {(V6(SENDER6), GUESTMAC)}, PktMulticast);
            var m := Chain(env, OutRulesFwd(HOSTMAC, None, 2), 0, NdOutRules(HOSTMAC), Boot(f));
            ValidInStep(env) && Live(m.marks) != Live(MarkedOn(CONF, env.t, f, false))
  {
    var f := Message24(136, [0, 0]);
    var env := Env(Tables({}, map[V6(SENDER6) := GUESTMAC]), {(V6(SENDER6), GUESTMAC)}, PktMulticast);
    Message24Fields(136, [0, 0], []);
    assert f + [] == f;
    assert GUESTMAC[5] != HOSTMAC[5];
    assert Src(f) != HOSTMAC && Icmp6Type(f) == 136;
    assert SENDER6[15] != TARGET6[15];
    assert Src6(f) == V6(SENDER6) && Target6(f) == V6(TARGET6) && IsLearnable(V6(SENDER6));
    EnginesMarkAlikeFwd(CONF, env, f);
  }

  /** A solicitation of 80 bytes, its first option cut after two: only nft clones it. */
  lemma CutSolicitationIsClonedOnce()
    ensures var f := Message24(135, [0, 0]) + [1, 1];
            var env := Env(Tables({}, map[]), {}, PktMulticast);
            var m := Chain(env, GuardRulesFwd(HOSTMAC, 3), 0, [], Boot(f));
            |f| == 80 && !SameGuard(Guarded(CONF, env.t, f), Outcome(Final(m), m.frame, m.dups))
  {
    var f: Frame, env := Message24(135, [0, 0]) + [1, 1], Env(Tables({}, map[]), {}, PktMulticast);
    Message24Fields(135, [0, 0], [1, 1]);
    var g: Frame := Normalized(f, HOSTMAC);
    assert f[78] == 1;
    assert g[12..14] == f[12..14] && g[22..38] == f[22..38];
    assert SENDER6[0] == 0xfe && V6(SENDER6) != UNSPEC6;
    assert CutOption(env.t, g);
    GuardsAgreeIff(CONF, env, f);
  }

  // ---- an option behind the payload ----

  lemma {:induction false} ZeroSum(n: nat)
    ensures WordSum(Zeros(n)) == 0
  {
    if n > 1 {
      assert Zeros(n)[2..] == Zeros(n - 2);
      ZeroSum(n - 2);
    }
  }

  /** A 16-byte address of a leading word, zeros and a last byte. */
  lemma AddressSum(a: byte, b: byte, c: byte)
    ensures WordSum([a, b] + Zeros(13) + [c]) == a * 256 + b + c
  {
    var s := [a, b] + Zeros(13) + [c];
    assert s == ([a, b] + Zeros(12)) + [0, c];
    WordSumAppend([a, b] + Zeros(12), 7, [0, c]);
    WordSumAppend([a, b], 1, Zeros(12));
    ZeroSum(12);
    assert WordSum([a, b]) == a * 256 + b && WordSum([0, c]) == c;
  }

  lemma EightSum(typ: byte, c: byte, d: byte)
    ensures WordSum([typ, 0] + [c, d] + [0, 0, 0, 0]) == typ * 256 + c * 256 + d
  {
    var s := [typ, 0] + [c, d] + [0, 0, 0, 0];
    assert s == [typ, 0, c, d] + Zeros(4);
    WordSumAppend([typ, 0, c, d], 2, Zeros(4));
    ZeroSum(4);
    assert [typ, 0, c, d][2..] == [c, d];
  }

  const SOLICITATION: Frame := Message24(135, [0x7c, 0x9f]) + ([1, 1] + GUESTMAC)

  lemma SolicitationSum()
    ensures |SOLICITATION| == 86 && PayloadLen(SOLICITATION[14..]) == 24 && Verifies(SOLICITATION[14..])
  {
    var f, tail := SOLICITATION, [1, 1] + GUESTMAC;
    Message24Fields(135, [0x7c, 0x9f], tail);
    var l3, head := f[14..], [135, 0] + [0x7c, 0x9f] + [0, 0, 0, 0];
    assert l3[4..6] == f[18..20] && l3[6] == f[20];
    assert Covered(l3) == f[22..78];
    assert f[22..78] == SENDER6 + (NODES6 + (head + TARGET6));
    WordSumAppend(SENDER6, 8, NODES6 + (head + TARGET6));
    WordSumAppend(NODES6, 8, head + TARGET6);
    WordSumAppend(head, 4, TARGET6);
    AddressSum(0xfe, 0x80, 1);
    AddressSum(0xff, 2, 1);
    AddressSum(0xfe, 0x80, 7);
    EightSum(135, 0x7c, 0x9f);
    assert Total(l3) == 4 * 65535;
    FoldUnique(Total(l3), 65535, 3);
  }

  /** A valid solicitation whose option lies behind its payload: the eBPF program adjusts the
      checksum for bytes it does not cover, the copy path does not. */
  lemma OptionBehindPayload()
    ensures var f := SOLICITATION;
            && NdMatches(f, Ns, HOSTMAC) && Verifies(f[14..]) && PayloadLen(f[14..]) >= 4
            && !SameOnWire(OutFrame(f, HOSTMAC), Reinjected(Store(f, OptAt(Ns) + 2, HOSTMAC), HOSTMAC))
  {
    var f := SOLICITATION;
    SolicitationSum();
    Message24Fields(135, [0x7c, 0x9f], [1, 1] + GUESTMAC);
    assert f[78..86] == [1, 1] + GUESTMAC && f[80..86] == GUESTMAC && f[78] == 1;
    assert GUESTMAC[5] != HOSTMAC[5];
    assert SENDER6[0] == 0xfe;
    assert NdMatches(f, Ns, HOSTMAC);
    OptionWeighs(f);
    NdPathsAgreeIff(f, Ns, HOSTMAC);
  }

  lemma OptionWeighs(f: Frame)
    requires |f| == 86 && PayloadLen(f[14..]) == 24 && f[78..86] == [1, 1] + GUESTMAC
    ensures !Balanced(f, Ns, HOSTMAC)
  {
    var was, now := OldOption(f, Ns), NewOption(f, Ns, HOSTMAC);
    assert was == [1, 1, 2, 0] + [0, 0, 0, 5] && now == [1, 1, 2, 0] + [0, 0, 0, 1] by {
      assert f[78..80] == f[78..86][..2];
    }
    WordSumAppend([1, 1, 2, 0], 2, [0, 0, 0, 5]);
    WordSumAppend([1, 1, 2, 0], 2, [0, 0, 0, 1]);
    assert WordSum(was) == 774 && WordSum(now) == 770 by { SmallSums(); }
    assert CoveredBytes(f, Ns) == 0;
    assert was[..0] == [] && now[..0] == [];
  }

  lemma SmallSums()
    ensures WordSum([1, 1, 2, 0]) == 769 && WordSum([0, 0, 0, 5]) == 5 && WordSum([0, 0, 0, 1]) == 1
  {
    assert [1, 1, 2, 0][2..] == [2, 0] && [0, 0, 0, 5][2..] == [0, 5] && [0, 0, 0, 1][2..] == [0, 1];
    assert WordSum([2, 0]) == 512 && WordSum([0, 5]) == 5 && WordSum([0, 1]) == 1;
  }

  /** The same solicitation from the host, its payload of 24 ending before the option: the
      clone's checksum is wrong. */
  lemma ShortPayloadCloneIsInvalid()
    ensures var t := Tables({}, map[]);
            var o := Guarded(CONF, t, SOLICITATION);
            && DiscoversNs(t, Normalized(SOLICITATION, HOSTMAC)) && Verifies(SOLICITATION[14..])
            && |o.clones| == 1 && !Verifies(o.clones[0].frame[14..])
  {
    var f, t := SOLICITATION, Tables({}, map[]);
    SolicitationSum();
    Message24Fields(135, [0x7c, 0x9f], [1, 1] + GUESTMAC);
    var g: Frame := Normalized(f, HOSTMAC);
    assert f[78] == 1;
    assert g[12..14] == f[12..14] && g[22..38] == f[22..38];
    assert SENDER6[0] == 0xfe && V6(SENDER6) != UNSPEC6;
    assert DiscoversNs(t, g);
    NsCloneValidIff(CONF, t, f);
  }
}
