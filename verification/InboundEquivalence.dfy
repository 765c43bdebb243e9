/**
 The inbound nft rule lists decide as the inbound rows do, so the two engines deliver every
 frame alike (src/backend/nft/mod.rs:652-744, bpf/pbridge.bpf.c:225-291).
 */
module InboundEquivalence {
  import opened Types
  import opened Datapath
  import opened NftMachine
  import opened NftRules

  /** A rule that did not decide: the next one takes over. */
  lemma Skip(env: Env, rules: seq<Rule>, i: nat, sub: seq<Rule>, m: Machine)
    requires i < |rules|
    requires var r := Run(env, rules[i], m).status; r == Running || r == Mismatch
    ensures Chain(env, rules, i, sub, m) == Chain(env, rules, i + 1, sub, Run(env, rules[i], m).(status := Running))
  {
  }

  lemma Take(env: Env, rules: seq<Rule>, i: nat, sub: seq<Rule>, m: Machine)
    requires i < |rules| && Run(env, rules[i], m).status.Done?
    ensures Chain(env, rules, i, sub, m) == Run(env, rules[i], m)
  {
  }

  /** Still running, and nothing but registers moved. */
  predicate Quiet(m: Machine, n: Machine) {
    SameEffects(m, n) && n.status == Running
  }

  predicate HostOwns(env: Env, hostmac: Mac, f: Frame) {
    var dest := DestIp(f);
    dest.Some? && dest.value in env.t.host && (Dst(f) == hostmac || EthType(f) == ETH_ARP)
  }

  predicate GuestOwns(env: Env, hostmac: Mac, f: Frame) {
    var dest := DestIp(f);
    Dst(f) == hostmac && dest.Some? && dest.value in env.t.ip2mac
  }

  predicate HostOwnsIp(env: Env, hostmac: Mac, f: Frame) {
    EthType(f) != ETH_ARP && HostOwns(env, hostmac, f)
  }

  lemma HostIpRules(env: Env, hostmac: Mac, rules: seq<Rule>, m: Machine) returns (n: Machine)
    requires m.status == Running && |rules| >= 4
    requires rules[1] == InHostIp(hostmac, Fam4) && rules[2] == InHostIp(hostmac, Fam6)
    ensures SameEffects(m, n)
    ensures if HostOwnsIp(env, hostmac, m.frame) then Chain(env, rules, 1, [], m) == n && n.status == Done(Accept)
            else Chain(env, rules, 1, [], m) == Chain(env, rules, 3, [], n) && n.status == Running
  {
    InHostIpEffect(env, hostmac, Fam4, m);
    n := Run(env, rules[1], m);
    if n.status.Done? {
      Take(env, rules, 1, [], m);
      return;
    }
    Skip(env, rules, 1, [], m);
    var m1 := n.(status := Running);
    InHostIpEffect(env, hostmac, Fam6, m1);
    n := Run(env, rules[2], m1);
    if n.status.Done? {
      Take(env, rules, 2, [], m1);
      return;
    }
    Skip(env, rules, 2, [], m1);
    n := n.(status := Running);
  }

  /** The three rules that keep the host's own frames. */
  lemma HostRules(env: Env, hostmac: Mac, rules: seq<Rule>, m: Machine) returns (n: Machine)
    requires m.status == Running && |rules| >= 4
    requires rules[1] == InHostIp(hostmac, Fam4) && rules[2] == InHostIp(hostmac, Fam6) && rules[3] == InHostArp()
    ensures SameEffects(m, n)
    ensures if HostOwns(env, hostmac, m.frame) then Chain(env, rules, 1, [], m) == n && n.status == Done(Accept)
            else Chain(env, rules, 1, [], m) == Chain(env, rules, 4, [], n) && n.status == Running
  {
    n := HostIpRules(env, hostmac, rules, m);
    if n.status.Done? {
      return;
    }
    var m2 := n;
    InHostArpEffect(env, m2);
    n := Run(env, rules[3], m2);
    if n.status.Done? {
      Take(env, rules, 3, [], m2);
      return;
    }
    Skip(env, rules, 3, [], m2);
    n := n.(status := Running);
  }

  /** The opening both modes share: reflected frames, then the host's own. */
  lemma Opening(env: Env, hostmac: Mac, rules: seq<Rule>, m: Machine) returns (n: Machine)
    requires m.status == Running && |rules| >= 4 && rules[0] == DropSrc(hostmac)
    requires rules[1] == InHostIp(hostmac, Fam4) && rules[2] == InHostIp(hostmac, Fam6) && rules[3] == InHostArp()
    ensures SameEffects(m, n)
    ensures if Src(m.frame) == hostmac then Chain(env, rules, 0, [], m) == n && n.status == Done(Drop)
            else if HostOwns(env, hostmac, m.frame) then Chain(env, rules, 0, [], m) == n && n.status == Done(Accept)
            else Chain(env, rules, 0, [], m) == Chain(env, rules, 4, [], n) && n.status == Running
  {
    DropSrcEffect(env, hostmac, m);
    n := Run(env, rules[0], m);
    if Src(m.frame) == hostmac {
      Take(env, rules, 0, [], m);
    } else {
      Skip(env, rules, 0, [], m);
      n := HostRules(env, hostmac, rules, n.(status := Running));
    }
  }

  /** The three demux rules, wherever they stand in the list. */
  lemma Demux(env: Env, hostmac: Mac, fwd: Option<nat>, rules: seq<Rule>, i: nat, m: Machine) returns (n: Machine)
    requires m.status == Running && i + 3 <= |rules| && (fwd.Some? ==> fwd.value < 0x1_0000_0000)
    requires rules[i] == InDemuxIp(Fam4, hostmac, Term(fwd)) && rules[i + 1] == InDemuxIp(Fam6, hostmac, Term(fwd))
    requires rules[i + 2] == InDemuxArp(hostmac, Term(fwd))
    ensures if GuestOwns(env, hostmac, m.frame) then
              && Chain(env, rules, i, [], m) == n
              && n == m.(regs := n.regs, status := Done(TermVerdict(fwd)),
                         frame := Demuxed(m.frame, env.t.ip2mac[DestIp(m.frame).value]))
            else Chain(env, rules, i, [], m) == Chain(env, rules, i + 3, [], n) && Quiet(m, n)
  {
    InDemuxIpEffect(env, Fam4, hostmac, fwd, m);
    n := Run(env, rules[i], m);
    if n.status.Done? {
      Take(env, rules, i, [], m);
      return;
    }
    Skip(env, rules, i, [], m);
    var m1 := n.(status := Running);
    InDemuxIpEffect(env, Fam6, hostmac, fwd, m1);
    n := Run(env, rules[i + 1], m1);
    if n.status.Done? {
      Take(env, rules, i + 1, [], m1);
      return;
    }
    Skip(env, rules, i + 1, [], m1);
    var m2 := n.(status := Running);
    InDemuxArpEffect(env, hostmac, fwd, m2);
    n := Run(env, rules[i + 2], m2);
    if n.status.Done? {
      Take(env, rules, i + 2, [], m2);
      return;
    }
    Skip(env, rules, i + 2, [], m2);
    n := n.(status := Running);
  }

  /** The group rules copy a frame to the guests once, and go on. */
  lemma Sharing(env: Env, fwd0: nat, rules: seq<Rule>, m: Machine) returns (n: Machine)
    requires m.status == Running && |rules| >= 6 && fwd0 < 0x1_0000_0000
    requires rules[4] == InDup(1, fwd0) && rules[5] == InDup(2, fwd0)
    ensures Chain(env, rules, 4, [], m) == Chain(env, rules, 6, [], n)
    ensures n == m.(regs := n.regs,
                    dups := if env.pkt == PktBroadcast || env.pkt == PktMulticast then m.dups + [Clone(fwd0, m.frame)] else m.dups)
  {
    InDupEffect(env, 1, fwd0, m);
    Skip(env, rules, 4, [], m);
    n := Run(env, rules[4], m).(status := Running);
    InDupEffect(env, 2, fwd0, n);
    Skip(env, rules, 5, [], n);
    n := Run(env, rules[5], n).(status := Running);
  }

  predicate GroupPkt(pkt: PktType) {
    pkt == PktBroadcast || pkt == PktMulticast
  }

  /** A group frame addressed to HOSTMAC, for a guest: nft copies it and then still demuxes. */
  predicate DemuxedTwice(conf: Conf, env: Env, f: Frame) {
    && Src(f) != conf.hostmac && !HostOwns(env, conf.hostmac, f)
    && GroupPkt(env.pkt) && GuestOwns(env, conf.hostmac, f)
  }

  /** From the group rules on. */
  lemma FwdRest(conf: Conf, env: Env, rules: seq<Rule>, m: Machine) returns (n: Machine)
    requires conf.fwd0 < 0x1_0000_0000 && rules == InRulesFwd(conf.hostmac, conf.fwd0) && m.status == Running
    ensures Chain(env, rules, 4, [], m) == n
    ensures n.dups == if GroupPkt(env.pkt) then m.dups + [Clone(conf.fwd0, m.frame)] else m.dups
    ensures if GuestOwns(env, conf.hostmac, m.frame) then
              Final(n) == Redirect(conf.fwd0) && n.frame == Demuxed(m.frame, env.t.ip2mac[DestIp(m.frame).value])
            else Final(n) == Accept && n.frame == m.frame
  {
    n := Sharing(env, conf.fwd0, rules, m);
    n := Demux(env, conf.hostmac, Some(conf.fwd0), rules, 6, n);
    if n.status == Running {
      InElseEffect(env, conf.hostmac, n);
      if Dst(n.frame) == conf.hostmac {
        Take(env, rules, 9, [], n);
      } else {
        Skip(env, rules, 9, [], n);
      }
      n := Chain(env, rules, 9, [], n);
    }
  }

  /** In fwd mode the rule list gives the same verdict, copies and bytes as the inbound rows
      exactly when the frame is not such a group frame. */
  lemma FwdEquivalenceIff(conf: Conf, env: Env, f: Frame)
    requires conf.fwd0 < 0x1_0000_0000
    ensures var m := Chain(env, InRulesFwd(conf.hostmac, conf.fwd0), 0, [], Boot(f));
            Outcome(Final(m), m.frame, m.dups) == Inbound(conf, env.t, f, env.pkt, false)
            <==> !DemuxedTwice(conf, env, f)
  {
    var rules := InRulesFwd(conf.hostmac, conf.fwd0);
    var n := Opening(env, conf.hostmac, rules, Boot(f));
    if n.status == Running {
      n := FwdRest(conf, env, rules, n);
    }
  }

  predicate IsGroup(mac: Mac) {
    mac[0] % 2 == 1
  }

  /** With HOSTMAC a unicast address, and the driver calling a frame group exactly when its
      destination is, both engines treat every inbound frame alike. */
  lemma FwdEquivalence(conf: Conf, env: Env, f: Frame)
    requires conf.fwd0 < 0x1_0000_0000
    requires !IsGroup(conf.hostmac) && (GroupPkt(env.pkt) <==> IsGroup(Dst(f)))
    ensures var m := Chain(env, InRulesFwd(conf.hostmac, conf.fwd0), 0, [], Boot(f));
            Outcome(Final(m), m.frame, m.dups) == Inbound(conf, env.t, f, env.pkt, false)
  {
    FwdEquivalenceIff(conf, env, f);
  }

  /** In direct mode they agree on every frame. */
  lemma DirectEquivalence(conf: Conf, env: Env, f: Frame)
    ensures var m := Chain(env, InRulesDirect(conf.hostmac), 0, [], Boot(f));
            Outcome(Final(m), m.frame, m.dups) == Inbound(conf, env.t, f, env.pkt, true)
  {
    var rules := InRulesDirect(conf.hostmac);
    var n := Opening(env, conf.hostmac, rules, Boot(f));
    if n.status == Running {
      n := Demux(env, conf.hostmac, None, rules, 4, n);
    }
  }
}
