/**
 What leaves towards the uplink: verdict and every byte, by the eBPF program
 (bpf/pbridge.bpf.c:120-223) and by nft's outbound chains (src/backend/nft/mod.rs:503-646).
 */
module OutboundEquivalence {
  import opened Types
  import opened Bytes
  import opened Datapath
  import opened NftMachine
  import opened NftRules
  import opened NftOutChain

  // ---- DHCP, on the bytes ----

  /** A DHCP request that holds its BOOTP flags: IPv4, UDP, port 68 to 67. */
  predicate IsRequest(f: Frame) {
    |f| >= 54 && f[12..14] == [0x08, 0x00] && f[23] == 17 && f[34..38] == [0, 68, 0, 67]
  }

  /** The broadcast bit is set and the other flags clear, the UDP checksum is off, the source is
      HOSTMAC, and nothing else changed. */
  predicate Broadcasts(f: Frame, g: Frame, hostmac: Mac) {
    && |g| == |f| >= 54 && g[52] == 128 && g[53] == 0 && g[40] == 0 && g[41] == 0 && g[6..12] == hostmac
    && forall i | 0 <= i < |f| && !(6 <= i < 12) && i !in {40, 41, 52, 53} :: g[i] == f[i]
  }

  lemma RequestIsDhcp(f: Frame)
    requires IsRequest(f)
    ensures EthType(f) == ETH_IP4 && IsDhcp(f) && DhcpHit(f) && L4(f) == Some((17, 34))
  {
    assert f[34..38] == f[34..36] + f[36..38] && f[34..36] == f[34..38][..2] && f[36..38] == f[34..38][2..];
    assert Be16(68) == [0, 68] && Be16(67) == [0, 67] && f[23..24] == [f[23]];
  }

  /** The eBPF program asks for a broadcast answer. */
  lemma RequestLeaves(f: Frame, hostmac: Mac)
    requires IsRequest(f)
    ensures Broadcasts(f, OutFrame(f, hostmac), hostmac)
  {
    RequestIsDhcp(f);
    var g := OutFrame(f, hostmac);
    assert g[6..12] == hostmac;
  }

  // ---- where the engines differ ----

  /** Neither IP nor ARP: only nft names HOSTMAC. */
  predicate OtherType(f: Frame) {
    f[12..14] != [0x08, 0x00] && f[12..14] != [0x86, 0xdd] && f[12..14] != [0x08, 0x06]
  }

  /** Ports 68 to 67 over IPv6: nft writes what it takes for BOOTP flags and a checksum. */
  predicate Dhcp6Written(f: Frame) {
    && |f| >= 74 && f[12..14] == [0x86, 0xdd] && f[20] == 17 && f[54..58] == [0, 68, 0, 67]
    && !(f[60] == 0 && f[61] == 0 && f[72] == 128 && f[73] == 0)
  }

  /** DHCP too short for its flags but with a checksum: only eBPF clears it. */
  predicate ShortCleared(f: Frame) {
    && 42 <= |f| < 54 && f[12..14] == [0x08, 0x00] && f[23] == 17 && f[34..38] == [0, 68, 0, 67]
    && !(f[40] == 0 && f[41] == 0)
  }

  predicate OutApart(f: Frame) {
    OtherType(f) || Dhcp6Written(f) || ShortCleared(f)
  }

  // ---- and nowhere else ----

  lemma EthBytes(f: Frame)
    ensures EthType(f) == ETH_IP4 <==> f[12..14] == [0x08, 0x00]
    ensures EthType(f) == ETH_IP6 <==> f[12..14] == [0x86, 0xdd]
    ensures EthType(f) == ETH_ARP <==> f[12..14] == [0x08, 0x06]
  {
    assert f[12..14] == [f[12], f[13]];
  }

  /** Naming both sides: frames agree exactly when they agreed outside the source before. */
  lemma NamedAlike(a: Frame, b: Frame, hostmac: Mac)
    requires |a| == |b|
    ensures Normalized(a, hostmac) == Normalized(b, hostmac) <==> forall i | 0 <= i < |a| && !(6 <= i < 12) :: a[i] == b[i]
  {
    var x, y := Normalized(a, hostmac), Normalized(b, hostmac);
    if x == y {
      forall i | 0 <= i < |a| && !(6 <= i < 12) ensures a[i] == b[i] {
        assert x[i] == y[i];
      }
    }
  }

  predicate SameSent(f: Frame, hostmac: Mac) {
    Normalized(Outgoing(f, hostmac), hostmac) == OutFrame(f, hostmac)
  }

  lemma SentV4(f: Frame, hostmac: Mac)
    requires EthType(f) == ETH_IP4
    ensures SameSent(f, hostmac) <==> !OutApart(f)
  {
    EthBytes(f);
    PortBytes(f);
    var a, b := Outgoing(f, hostmac), PayloadOut(f, hostmac);
    NamedAlike(a, b, hostmac);
    if IsDhcp(f) && 42 <= |f| < 54 {
      assert a == f && b == Store(f, 40, [0, 0]);
      assert b[40] == 0 && b[41] == 0;
    }
  }

  lemma PortBytes(f: Frame)
    requires EthType(f) == ETH_IP4
    ensures IsDhcp(f) <==> |f| >= 38 && f[23] == 17 && f[34..38] == [0, 68, 0, 67]
    ensures DhcpHit(f) <==> IsDhcp(f) && |f| >= 54
  {
    assert Be16(68) == [0, 68] && Be16(67) == [0, 67];
    assert Zeros(2)[1] == 0 && Be16(67)[1] == 67;
    if |f| >= 38 {
      assert f[34..38] == [f[34], f[35], f[36], f[37]] && f[34..36] == [f[34], f[35]] && f[36..38] == [f[36], f[37]];
      assert f[23..24] == [f[23]];
    }
  }

  lemma SentArp(f: Frame, hostmac: Mac)
    requires EthType(f) == ETH_ARP
    ensures SameSent(f, hostmac) && !OutApart(f)
  {
    EthBytes(f);
  }

  /** Discovery that no rule takes up has no option to rewrite either. */
  lemma NoKindNoRewrite(f: Frame, hostmac: Mac)
    requires EthType(f) == ETH_IP6 && NdKindOf(f, hostmac).None?
    ensures NdOut(f, hostmac) == f
  {
    if |f| >= 55 {
      assert Peek(f, 20, 1) == [f[20]] && Peek(f, 54, 1) == [f[54]];
      assert Src6(f) == V6(f[22..38]);
    }
  }

  lemma SentV6(f: Frame, hostmac: Mac)
    requires EthType(f) == ETH_IP6 && NdKindOf(f, hostmac).None?
    ensures SameSent(f, hostmac) <==> !OutApart(f)
  {
    EthBytes(f);
    NoKindNoRewrite(f, hostmac);
    if DhcpHit(f) {
      assert Outgoing(f, hostmac) == WrittenDhcp(f, 54);
      NamedAlike(WrittenDhcp(f, 54), f, hostmac);
      WrittenIff(f);
    } else {
      assert Outgoing(f, hostmac) == f;
    }
  }

  lemma WrittenIff(f: Frame)
    requires |f| >= 74
    ensures (forall i | 0 <= i < |f| && !(6 <= i < 12) :: WrittenDhcp(f, 54)[i] == f[i])
       <==> f[60] == 0 && f[61] == 0 && f[72] == 128 && f[73] == 0
  {
    var g := WrittenDhcp(f, 54);
    assert g[60] == 0 && g[61] == 0 && g[72] == 128 && g[73] == 0;
    assert forall i | 0 <= i < |f| && i !in {60, 61, 72, 73} :: g[i] == f[i];
  }

  lemma SentOther(f: Frame, hostmac: Mac)
    requires !IsIpOrArp(f) && Src(f) != hostmac
    ensures !SameSent(f, hostmac) && OutApart(f)
  {
    EthBytes(f);
    var g := Normalized(f, hostmac);
    StoredThere(f, 6, hostmac);
    assert Outgoing(f, hostmac) == f;
    assert Src(g) == hostmac;
  }

  lemma SentIff(f: Frame, hostmac: Mac)
    requires NdKindOf(f, hostmac).None? && Src(f) != hostmac
    ensures SameSent(f, hostmac) <==> !OutApart(f)
  {
    if EthType(f) == ETH_IP4 {
      SentV4(f, hostmac);
    } else if EthType(f) == ETH_ARP {
      SentArp(f, hostmac);
    } else if EthType(f) == ETH_IP6 {
      SentV6(f, hostmac);
    } else {
      SentOther(f, hostmac);
    }
  }

  /** The frames with one fate: those held back, when they come from the host itself in direct
      mode; and of the others those that nft neither takes up nor writes differently. */
  predicate SentAlike(conf: Conf, f: Frame, direct: bool, ingress: nat) {
    if HeldBack(conf, f, direct) then direct ==> ingress == 0
    else NdKindOf(f, conf.hostmac).None? && !OutApart(f)
  }

  /** Verdict, bytes and clones through the whole fwd chain are the eBPF program's, exactly for
      those frames. */
  lemma FwdSendsAlikeIff(conf: Conf, env: Env, f: Frame, ingress: nat)
    requires conf.up0 < 0x1_0000_0000
    ensures var m := Chain(env, OutRulesFwd(conf.hostmac, conf.brmac, conf.up0), 0, NdOutRules(conf.hostmac), Boot(f));
            Outcome(Final(m), m.frame, m.dups) == Outbound(conf, f, false, ingress) <==> SentAlike(conf, f, false, ingress)
  {
    FwdEffect(conf, env, f);
    Le32RoundTrip(conf.up0);
    if !HeldBack(conf, f, false) && NdKindOf(f, conf.hostmac).None? {
      SentIff(f, conf.hostmac);
    }
  }

  /** The same through the direct chain. */
  lemma DirectSendsAlikeIff(conf: Conf, env: Env, f: Frame, ingress: nat)
    ensures var m := Chain(env, OutRulesDirect(conf.hostmac), 0, NdOutRules(conf.hostmac), Boot(f));
            Outcome(Final(m), m.frame, m.dups) == Outbound(conf, f, true, ingress) <==> SentAlike(conf, f, true, ingress)
  {
    DirectEffect(conf, env, f);
    if !HeldBack(conf, f, true) && NdKindOf(f, conf.hostmac).None? {
      SentIff(f, conf.hostmac);
    }
  }

  /** nft's chains ask for a broadcast answer too. */
  lemma NftRequestLeaves(conf: Conf, env: Env, f: Frame)
    requires IsRequest(f) && Src(f) != conf.hostmac && Some(Src(f)) != conf.brmac && conf.up0 < 0x1_0000_0000
    ensures var m := Chain(env, OutRulesFwd(conf.hostmac, conf.brmac, conf.up0), 0, NdOutRules(conf.hostmac), Boot(f));
            Final(m) == Redirect(conf.up0) && Broadcasts(f, m.frame, conf.hostmac)
    ensures var m := Chain(env, OutRulesDirect(conf.hostmac), 0, NdOutRules(conf.hostmac), Boot(f));
            Final(m) == Accept && Broadcasts(f, m.frame, conf.hostmac)
  {
    RequestIsDhcp(f);
    RequestLeaves(f, conf.hostmac);
    EthBytes(f);
    assert SentAlike(conf, f, false, 0) && SentAlike(conf, f, true, 0);
    FwdSendsAlikeIff(conf, env, f, 0);
    DirectSendsAlikeIff(conf, env, f, 0);
  }
}
