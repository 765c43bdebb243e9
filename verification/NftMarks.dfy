/**
 Which addresses each engine marks as alive for a guest's frame. The eBPF program marks what it
 learns from ARP and neighbour discovery and the source of a known guest's data
 (bpf/pbridge.bpf.c:120-223); nft marks the sender of ARP, the IPv6 source of the discovery it
 takes up, and the source of a known guest (src/backend/nft/mod.rs:503-646).
 */
module NftMarks {
  import opened Types
  import opened Bytes
  import opened Datapath
  import opened NftMachine
  import opened NftRules
  import opened NdEquivalence
  import opened NftOutChain
  import opened NftLearning

  /** Only learnable addresses can be entries, so only their marks matter. */
  function Live(marks: seq<Ip>): set<Ip> {
    set ip | ip in marks && IsLearnable(ip)
  }

  function MarkOf(mark: Option<Ip>): seq<Ip> {
    if mark.Some? then [mark.value] else []
  }

  /** What the eBPF program marks. */
  function MarkedOn(conf: Conf, t: Tables, f: Frame, direct: bool): seq<Ip> {
    if HeldBack(conf, f, direct) then [] else MarkOf(Teaches(t, f).1)
  }

  // ---- where the engines differ ----

  /** DHCP too short for nft's rule, from a known source: only nft marks it. */
  predicate ShortKnownDhcp(t: Tables, f: Frame) {
    IsDhcp(f) && |f| < 54 && Known(t, Src4(f), Src(f)) && IsLearnable(Src4(f))
  }

  /** The DHCP ports over IPv6 from a known source: only eBPF marks it. */
  predicate KnownDhcp6(t: Tables, f: Frame) {
    EthType(f) == ETH_IP6 && DhcpHit(f) && Known(t, Src6(f), Src(f)) && IsLearnable(Src6(f))
  }

  /** An advertisement: eBPF marks the target, nft the source, if it marks at all. */
  predicate OtherTarget(t: Tables, f: Frame, hostmac: Mac) {
    && Icmp6Type(f) == 136
    && if (NdMatches(f, Na, hostmac) || Known(t, Src6(f), Src(f))) && IsLearnable(Src6(f)) then Target6(f) != Src6(f)
       else IsLearnable(Target6(f))
  }

  /** A solicitation for address detection, or one nft neither takes up nor knows: only eBPF
      marks it. */
  predicate OnlyLearned(t: Tables, f: Frame, hostmac: Mac) {
    || (Icmp6Type(f) == 135 && Src6(f) == UNSPEC6 && IsLearnable(Target6(f)))
    || (&& Icmp6Type(f) in {133, 135} && NdKindOf(f, hostmac).None?
        && !Known(t, Src6(f), Src(f)) && IsLearnable(Src6(f)))
  }

  predicate MarksApart(t: Tables, f: Frame, hostmac: Mac) {
    ShortKnownDhcp(t, f) || KnownDhcp6(t, f) || OtherTarget(t, f, hostmac) || OnlyLearned(t, f, hostmac)
  }

  // ---- and nowhere else ----

  ghost predicate Alike(env: Env, f: Frame, hostmac: Mac) {
    Live(SeenIn(env, hostmac, f)) == Live(MarkOf(Teaches(env.t, f).1))
  }

  lemma LiveOne(ip: Ip)
    ensures Live([ip]) == if IsLearnable(ip) then {ip} else {}
  {
  }

  lemma ZerosNotLearnable()
    ensures !IsLearnable(V4(Zeros(4))) && !IsLearnable(UNSPEC6)
  {
  }

  lemma MarksV4(env: Env, f: Frame, hostmac: Mac)
    requires ValidInStep(env) && EthType(f) == ETH_IP4
    ensures Alike(env, f, hostmac) <==> !MarksApart(env.t, f, hostmac)
  {
    DhcpPorts(f);
    ZerosNotLearnable();
    LiveOne(Src4(f));
    if Fits(f, 26, 4) {
      assert ValidHit(env, f, Fam4) <==> Known(env.t, Src4(f), Src(f));
    }
  }

  lemma MarksArp(env: Env, f: Frame, hostmac: Mac)
    requires EthType(f) == ETH_ARP
    ensures Alike(env, f, hostmac) && !MarksApart(env.t, f, hostmac)
  {
    ZerosNotLearnable();
    LiveOne(Spa(f));
  }

  lemma MarksTaken(env: Env, f: Frame, hostmac: Mac, kind: NdKind)
    requires NdKindOf(f, hostmac) == Some(kind)
    ensures Alike(env, f, hostmac) <==> !MarksApart(env.t, f, hostmac)
  {
    SameType(f);
    assert !DhcpHit(f) && Icmp6Type(f) == kind.Code();
    assert Src6(f) == V6(f[22..38]);
    LiveOne(Src6(f));
    LiveOne(Target6(f));
  }

  lemma MarksDhcp6(env: Env, f: Frame, hostmac: Mac)
    requires EthType(f) == ETH_IP6 && DhcpHit(f)
    ensures Alike(env, f, hostmac) <==> !MarksApart(env.t, f, hostmac)
  {
    assert Peek(f, 20, 1) == [17];
    assert Icmp6Type(f) == 0;
    LiveOne(Src6(f));
  }

  lemma KnownIsValid6(env: Env, f: Frame)
    requires ValidInStep(env) && EthType(f) == ETH_IP6
    ensures !ValidHit(env, f, Fam4)
    ensures ValidHit(env, f, Fam6) <==> Fits(f, 22, 16) && Known(env.t, Src6(f), Src(f))
  {
  }

  lemma MarksPlain6(env: Env, f: Frame, hostmac: Mac)
    requires ValidInStep(env) && EthType(f) == ETH_IP6 && !DhcpHit(f) && NdKindOf(f, hostmac).None?
    ensures Alike(env, f, hostmac) <==> !MarksApart(env.t, f, hostmac)
  {
    KnownIsValid6(env, f);
    ZerosNotLearnable();
    SameType(f);
    LiveOne(Src6(f));
    LiveOne(Target6(f));
  }

  /** Both engines mark the same learnable addresses exactly outside those four kinds. */
  lemma MarksAgreeIff(env: Env, f: Frame, hostmac: Mac)
    requires ValidInStep(env)
    ensures Live(SeenIn(env, hostmac, f)) == Live(MarkOf(Teaches(env.t, f).1)) <==> !MarksApart(env.t, f, hostmac)
  {
    if EthType(f) == ETH_IP4 {
      MarksV4(env, f, hostmac);
    } else if EthType(f) == ETH_ARP {
      MarksArp(env, f, hostmac);
    } else if EthType(f) == ETH_IP6 {
      if DhcpHit(f) {
        MarksDhcp6(env, f, hostmac);
      } else if NdKindOf(f, hostmac).Some? {
        MarksTaken(env, f, hostmac, NdKindOf(f, hostmac).value);
      } else {
        MarksPlain6(env, f, hostmac);
      }
    }
  }

  /** Through the whole fwd chain, on every frame and every table in step. */
  lemma EnginesMarkAlikeFwd(conf: Conf, env: Env, f: Frame)
    requires ValidInStep(env)
    ensures var m := Chain(env, OutRulesFwd(conf.hostmac, conf.brmac, conf.up0), 0, NdOutRules(conf.hostmac), Boot(f));
            Live(m.marks) == Live(MarkedOn(conf, env.t, f, false))
            <==> HeldBack(conf, f, false) || !MarksApart(env.t, f, conf.hostmac)
  {
    FwdEffect(conf, env, f);
    MarksAgreeIff(env, f, conf.hostmac);
  }

  /** The same through the direct chain. */
  lemma EnginesMarkAlikeDirect(conf: Conf, env: Env, f: Frame)
    requires ValidInStep(env)
    ensures var m := Chain(env, OutRulesDirect(conf.hostmac), 0, NdOutRules(conf.hostmac), Boot(f));
            Live(m.marks) == Live(MarkedOn(conf, env.t, f, true))
            <==> HeldBack(conf, f, true) || !MarksApart(env.t, f, conf.hostmac)
  {
    DirectEffect(conf, env, f);
    MarksAgreeIff(env, f, conf.hostmac);
  }
}
