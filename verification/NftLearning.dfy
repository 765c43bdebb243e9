/**
 What each engine learns from a guest's frame. The eBPF program reports a binding itself; nft
 copies frames to userspace, which classifies them (src/backend/nft/mod.rs:503-646,
 src/packet.rs:74-111, bpf/pbridge.bpf.c:120-223). The copies of the whole outbound chain are
 determined for every frame, and with them the frames on which the engines learn apart.
 */
module NftLearning {
  import opened Types
  import opened Bytes
  import opened Packet
  import opened Datapath
  import opened NftMachine
  import opened NftRules
  import opened NdEquivalence
  import opened NftOutChain

  // ---- what is learned ----

  function Learnable(ip: Option<Ip>, mac: Mac): set<(Ip, Mac)> {
    if ip.Some? && IsLearnable(ip.value) then {(ip.value, mac)} else {}
  }

  /** What userspace takes from copies: the classified address and the source mac of each. */
  function Learnt(logs: seq<Copy>): set<(Ip, Mac)> {
    if logs == [] then {}
    else
      var f := logs[0].frame;
      Learnable(ClassifyLearn(EthType(f), f[14..]), Src(f)) + Learnt(logs[1..])
  }

  /** What the eBPF program reports. */
  function Reported(conf: Conf, t: Tables, f: Frame, direct: bool): set<(Ip, Mac)> {
    if HeldBack(conf, f, direct) then {} else Learnable(Teaches(t, f).0, Src(f))
  }

  /** A UDP frame from port 68 to 67 too short for what the nft rule writes. */
  predicate ShortDhcp(t: Tables, f: Frame) {
    IsDhcp(f) && |f| < 54 && !Known(t, Src4(f), Src(f)) && IsLearnable(Src4(f))
  }

  /** ARP for another protocol, which only userspace checks. */
  predicate OddArp(f: Frame) {
    EthType(f) == ETH_ARP && Peek(f, 16, 2) != [8, 0] && IsLearnable(Spa(f))
  }

  /** The same ports over IPv6, which nft's rule does not exclude. */
  predicate Dhcp6(t: Tables, f: Frame) {
    EthType(f) == ETH_IP6 && DhcpHit(f) && !Known(t, Src6(f), Src(f)) && IsLearnable(Src6(f))
  }

  /** Neighbour discovery from a known source, without an option to rewrite: nft lets it out as
      data. */
  predicate KnownNd(t: Tables, f: Frame, hostmac: Mac) {
    && Icmp6Type(f) in {133, 135, 136} && NdKindOf(f, hostmac).None? && Known(t, Src6(f), Src(f))
    && IsLearnable(if Icmp6Type(f) == 136 || (Icmp6Type(f) == 135 && Src6(f) == UNSPEC6) then Target6(f) else Src6(f))
  }

  predicate LearnsApart(t: Tables, f: Frame, hostmac: Mac) {
    ShortDhcp(t, f) || OddArp(f) || Dhcp6(t, f) || KnownNd(t, f, hostmac)
  }

  ghost predicate ValidInStep(env: Env) {
    forall ip, mac: Mac :: (ip, mac) in env.valid <==> Known(env.t, ip, mac)
  }

  lemma LearntOne(c: Copy)
    ensures Learnt([c]) == Learnable(ClassifyLearn(EthType(c.frame), c.frame[14..]), Src(c.frame))
  {
  }

  lemma AnySlice(f: Frame, at: nat, n: nat)
    ensures Slice(f[14..], at, n) == if Fits(f, 14 + at, n) then Some(Peek(f, 14 + at, n)) else None
  {
    SliceOfFrame(f, at, n);
  }

  lemma LearnV4(env: Env, f: Frame, hostmac: Mac)
    requires ValidInStep(env) && EthType(f) == ETH_IP4
    ensures Learnt(Copies(env, hostmac, f)) == Learnable(Teaches(env.t, f).0, Src(f)) <==> !LearnsApart(env.t, f, hostmac)
  {
    AnySlice(f, 12, 4);
    LearntOne(Copy('L', f));
    assert DhcpHit(f) <==> IsDhcp(f) && |f| >= 54 by { DhcpPorts(f); }
    assert !IsLearnable(V4(Zeros(4)));
    if Fits(f, 26, 4) {
      assert ValidHit(env, f, Fam4) <==> Known(env.t, Src4(f), Src(f));
    }
  }

  lemma DhcpPorts(f: Frame)
    requires EthType(f) == ETH_IP4
    ensures DhcpHit(f) <==> IsDhcp(f) && |f| >= 54
  {
    if |f| >= 38 {
      assert f[34..38] == [f[34], f[35], f[36], f[37]];
      assert f[34..36] == [f[34], f[35]] && f[36..38] == [f[36], f[37]] && f[23..24] == [f[23]];
      assert Be16(68) == [0x00, 0x44] && Be16(67) == [0x00, 0x43];
    }
  }

  lemma LearnArp(env: Env, f: Frame, hostmac: Mac)
    requires EthType(f) == ETH_ARP
    ensures Learnt(Copies(env, hostmac, f)) == Learnable(Teaches(env.t, f).0, Src(f)) <==> !LearnsApart(env.t, f, hostmac)
  {
    var g := ArpNamed(f, hostmac);
    LearntOne(Copy('L', g));
    assert EthType(g) == ETH_ARP && Src(g) == Src(f) by {
      StoredElsewhere(f, 22, hostmac, 12, 2);
      StoredElsewhere(f, 22, hostmac, 6, 6);
    }
    AnySlice(g, 2, 2);
    AnySlice(g, 14, 4);
    if Fits(f, 28, 4) {
      StoredElsewhere(f, 22, hostmac, 16, 2);
      StoredElsewhere(f, 22, hostmac, 28, 4);
    }
    assert !IsLearnable(V4(Zeros(4)));
  }

  /** Both sides read the same ICMPv6 type, zero standing for none. */
  lemma SameType(f: Frame)
    requires EthType(f) == ETH_IP6
    ensures Icmp6Type(f) == if MessageType(f[14..]).Some? then MessageType(f[14..]).value else 0
  {
    if |f| >= 55 {
      assert Peek(f, 20, 1) == [f[20]] && Peek(f, 54, 1) == [f[54]];
    } else if |f| >= 21 {
      assert Peek(f, 20, 1) == [f[20]];
    }
  }

  /** On the same IPv6 frame classification and eBPF name the same learnable address, plain data
      of a known guest aside. */
  lemma SameV6(t: Tables, f: Frame)
    requires EthType(f) == ETH_IP6
    requires Icmp6Type(f) in {133, 135, 136} || !Known(t, Src6(f), Src(f))
    ensures Learnable(ClassifyLearn(ETH_IP6, f[14..]), Src(f)) == Learnable(Teaches(t, f).0, Src(f))
  {
    SameType(f);
    AnySlice(f, 8, 16);
    AnySlice(f, 48, 16);
    assert !IsLearnable(UNSPEC6);
  }

  lemma CopyTeaches(f: Frame, hostmac: Mac, kind: NdKind)
    requires NdMatches(f, kind, hostmac)
    ensures Learnt([Copy('R', Store(f, OptAt(kind) + 2, hostmac))]) == Learnable(ClassifyLearn(ETH_IP6, f[14..]), Src(f))
  {
    var g: Frame := Store(f, OptAt(kind) + 2, hostmac);
    LearntOne(Copy('R', g));
    StoredElsewhere(f, OptAt(kind) + 2, hostmac, 12, 2);
    StoredElsewhere(f, OptAt(kind) + 2, hostmac, 6, 6);
    SameClass(f, g, kind, hostmac);
  }

  lemma LearnNd(env: Env, f: Frame, hostmac: Mac, kind: NdKind)
    requires NdKindOf(f, hostmac) == Some(kind)
    ensures Learnt(Copies(env, hostmac, f)) == Learnable(Teaches(env.t, f).0, Src(f)) && !LearnsApart(env.t, f, hostmac)
  {
    assert !DhcpHit(f);
    CopyTeaches(f, hostmac, kind);
    SameType(f);
    SameV6(env.t, f);
  }

  /** The fields a packet is classified by. */
  lemma SameClassFields(f: Frame, g: Frame)
    requires EthType(f) == EthType(g) == ETH_IP6 && MessageType(f[14..]) == MessageType(g[14..])
    requires Slice(f[14..], 8, 16) == Slice(g[14..], 8, 16)
    requires MessageType(f[14..]) != Some(133) ==> Slice(f[14..], 48, 16) == Slice(g[14..], 48, 16)
    ensures ClassifyLearn(ETH_IP6, g[14..]) == ClassifyLearn(ETH_IP6, f[14..])
  {
  }

  lemma StoredSlice(f: Frame, off: nat, v: seq<byte>, at: nat, n: nat)
    requires 14 + at + n <= off && off + |v| <= |f|
    ensures Slice(f[14..], at, n) == Slice(Store(f, off, v)[14..], at, n)
  {
    var g: Frame := Store(f, off, v);
    AnySlice(f, at, n);
    AnySlice(g, at, n);
    StoredElsewhere(f, off, v, 14 + at, n);
  }

  /** The rewritten option does not change what the copy teaches. */
  lemma SameClass(f: Frame, g: Frame, kind: NdKind, hostmac: Mac)
    requires NdMatches(f, kind, hostmac) && g == Store(f, OptAt(kind) + 2, hostmac)
    ensures ClassifyLearn(ETH_IP6, g[14..]) == ClassifyLearn(ETH_IP6, f[14..])
  {
    assert EthType(g) == ETH_IP6 by { StoredElsewhere(f, OptAt(kind) + 2, hostmac, 12, 2); }
    assert MessageType(f[14..]) == MessageType(g[14..]) == Some(kind.Code());
    StoredSlice(f, OptAt(kind) + 2, hostmac, 8, 16);
    if kind != Rs {
      StoredSlice(f, OptAt(kind) + 2, hostmac, 48, 16);
    }
    SameClassFields(f, g);
  }

  lemma LearnDhcp6(env: Env, f: Frame, hostmac: Mac)
    requires EthType(f) == ETH_IP6 && DhcpHit(f)
    ensures Learnt(Copies(env, hostmac, f)) == Learnable(Teaches(env.t, f).0, Src(f)) <==> !LearnsApart(env.t, f, hostmac)
  {
    assert Peek(f, 20, 1) == [17];
    assert Icmp6Type(f) == 0;
    assert !IsLearnable(UNSPEC6);
  }

  lemma LearnPlain6(env: Env, f: Frame, hostmac: Mac)
    requires ValidInStep(env) && EthType(f) == ETH_IP6 && !DhcpHit(f) && NdKindOf(f, hostmac).None?
    ensures Learnt(Copies(env, hostmac, f)) == Learnable(Teaches(env.t, f).0, Src(f)) <==> !LearnsApart(env.t, f, hostmac)
  {
    LearntOne(Copy('L', f));
    SameType(f);
    if Icmp6Type(f) in {133, 135, 136} || !Known(env.t, Src6(f), Src(f)) {
      SameV6(env.t, f);
    }
    if Fits(f, 22, 16) {
      assert ValidHit(env, f, Fam6) <==> Known(env.t, Src6(f), Src(f));
    } else {
      AnySlice(f, 8, 16);
    }
  }

  /** The frames nft and eBPF learn differently from are exactly those four kinds. */
  lemma CopiesTeachIff(env: Env, f: Frame, hostmac: Mac)
    requires ValidInStep(env)
    ensures Learnt(Copies(env, hostmac, f)) == Learnable(Teaches(env.t, f).0, Src(f)) <==> !LearnsApart(env.t, f, hostmac)
  {
    if EthType(f) == ETH_IP4 {
      LearnV4(env, f, hostmac);
    } else if EthType(f) == ETH_ARP {
      LearnArp(env, f, hostmac);
    } else if EthType(f) == ETH_IP6 {
      if DhcpHit(f) {
        LearnDhcp6(env, f, hostmac);
      } else if NdKindOf(f, hostmac).Some? {
        LearnNd(env, f, hostmac, NdKindOf(f, hostmac).value);
      } else {
        LearnPlain6(env, f, hostmac);
      }
    } else {
      LearntOne(Copy('L', f));
    }
  }

  /** Through the whole fwd chain, on every frame and every table in step: userspace learns from
      nft's copies what the eBPF program reports, exactly unless the frame passes the drop rules
      and is of one of those kinds. */
  lemma EnginesLearnAlikeFwd(conf: Conf, env: Env, f: Frame)
    requires ValidInStep(env)
    ensures var m := Chain(env, OutRulesFwd(conf.hostmac, conf.brmac, conf.up0), 0, NdOutRules(conf.hostmac), Boot(f));
            Learnt(m.logs) == Reported(conf, env.t, f, false)
            <==> HeldBack(conf, f, false) || !LearnsApart(env.t, f, conf.hostmac)
  {
    FwdEffect(conf, env, f);
    CopiesTeachIff(env, f, conf.hostmac);
  }

  /** The same through the direct chain. */
  lemma EnginesLearnAlikeDirect(conf: Conf, env: Env, f: Frame)
    requires ValidInStep(env)
    ensures var m := Chain(env, OutRulesDirect(conf.hostmac), 0, NdOutRules(conf.hostmac), Boot(f));
            Learnt(m.logs) == Reported(conf, env.t, f, true)
            <==> HeldBack(conf, f, true) || !LearnsApart(env.t, f, conf.hostmac)
  {
    DirectEffect(conf, env, f);
    CopiesTeachIff(env, f, conf.hostmac);
  }
}
