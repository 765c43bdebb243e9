/**
 The rules pbridge installs (src/backend/nft/mod.rs:483-816), transcribed expression by
 expression, and what each block of expressions does on the machine.
 */
module NftRules {
  import opened Types
  import opened Bytes
  import opened Datapath
  import opened NftMachine

  // ---- blocks ----

  function EthGate(ethertype: nat): Rule
    requires ethertype < 0x1_0000
  {
    [MetaLoad(MetaProtocol, REG_1), Cmp(REG_1, true, Be16(ethertype))]
  }

  function L4Gate(proto: byte): Rule {
    [MetaLoad(MetaL4proto, REG_1), Cmp(REG_1, true, [proto])]
  }

  function SetSrcHostmac(hostmac: Mac): Rule {
    [Immediate(REG_1, hostmac), PayloadSet(LinkHeader, 6, 6, REG_1, None)]
  }

  function TermFwd(ifx: nat): Rule {
    [Immediate(REG_1, Le32(ifx)), FwdTo(REG_1)]
  }

  function TermDup(ifx: nat): Rule {
    [Immediate(REG_1, Le32(ifx)), DupTo(REG_1)]
  }

  function TermAccept(): Rule {
    [Decide(Accept)]
  }

  function EthDstIs(mac: Mac): Rule {
    [PayloadLoad(LinkHeader, 0, 6, REG_1), Cmp(REG_1, true, mac)]
  }

  function DropSrc(mac: Mac): Rule {
    [PayloadLoad(LinkHeader, 6, 6, REG_1), Cmp(REG_1, true, mac)] + [Decide(Drop)]
  }

  // ---- inbound rules ----

  function EthOf(fam: Family): nat {
    if fam == Fam4 then ETH_IP4 else ETH_IP6
  }

  function AddrLen(fam: Family): nat {
    if fam == Fam4 then 4 else 16
  }

  function DaddrOff(fam: Family): nat {
    if fam == Fam4 then 16 else 24
  }

  function SaddrOff(fam: Family): nat {
    if fam == Fam4 then 12 else 8
  }

  function InHostIp(hostmac: Mac, fam: Family): Rule {
    EthDstIs(hostmac) + (EthGate(EthOf(fam))
      + ([PayloadLoad(NetworkHeader, DaddrOff(fam), AddrLen(fam), REG_1), Lookup(Host(fam), REG_1, None)]
         + [Decide(Accept)]))
  }

  function InHostArp(): Rule {
    EthGate(ETH_ARP)
      + ([PayloadLoad(NetworkHeader, 24, 4, REG_1), Lookup(Host(Fam4), REG_1, None)] + [Decide(Accept)])
  }

  function InDup(code: byte, fwd0: nat): Rule {
    [MetaLoad(MetaPkttype, REG_1), Cmp(REG_1, true, [code])] + TermDup(fwd0)
  }

  function InDemuxIp(fam: Family, hostmac: Mac, term: Rule): Rule {
    EthDstIs(hostmac) + (EthGate(EthOf(fam))
      + ([PayloadLoad(NetworkHeader, DaddrOff(fam), AddrLen(fam), REG_1), Lookup(Ip2mac(fam), REG_1, Some(REG_1))]
         + ([PayloadSet(LinkHeader, 0, 6, REG_1, None)] + term)))
  }

  function InDemuxArp(hostmac: Mac, term: Rule): Rule {
    EthDstIs(hostmac) + (EthGate(ETH_ARP)
      + ([PayloadLoad(NetworkHeader, 24, 4, REG_1), Lookup(Ip2mac(Fam4), REG_1, Some(REG_1))]
         + ([PayloadSet(NetworkHeader, 18, 6, REG_1, None), PayloadSet(LinkHeader, 0, 6, REG_1, None)] + term)))
  }

  function InElse(hostmac: Mac): Rule {
    EthDstIs(hostmac) + [Decide(Accept)]
  }

  function InRulesFwd(hostmac: Mac, fwd0: nat): seq<Rule> {
    [DropSrc(hostmac),
     InHostIp(hostmac, Fam4), InHostIp(hostmac, Fam6), InHostArp(),
     InDup(1, fwd0), InDup(2, fwd0),
     InDemuxIp(Fam4, hostmac, TermFwd(fwd0)), InDemuxIp(Fam6, hostmac, TermFwd(fwd0)),
     InDemuxArp(hostmac, TermFwd(fwd0)),
     InElse(hostmac)]
  }

  function InRulesDirect(hostmac: Mac): seq<Rule> {
    [DropSrc(hostmac),
     InHostIp(hostmac, Fam4), InHostIp(hostmac, Fam6), InHostArp(),
     InDemuxIp(Fam4, hostmac, TermAccept()), InDemuxIp(Fam6, hostmac, TermAccept()),
     InDemuxArp(hostmac, TermAccept())]
  }

  // ---- outbound rules ----

  function LoadCmpRule(base: Base, off: nat, len: nat, equal: bool, v: seq<byte>): Rule {
    [PayloadLoad(base, off, len, REG_1), Cmp(REG_1, equal, v)]
  }

  function WriteRule(base: Base, off: nat, v: seq<byte>): Rule {
    [Immediate(REG_1, v), PayloadSet(base, off, |v|, REG_1, None)]
  }

  /** Neighbour solicitation, advertisement, router solicitation. */
  datatype NdKind = Ns | Na | Rs {
    function Code(): byte {
      match this
      case Ns => 135
      case Na => 136
      case Rs => 133
    }

    predicate ChecksSrc() {
      this != Na
    }

    /** Offset of the first option within the message. */
    function Opt(): nat {
      if this == Rs then 8 else 24
    }

    function OptType(): byte {
      if this == Na then 2 else 1
    }
  }

  /** Rewrite the address option, mark, copy to userspace for the checksum, drop. */
  function NdOutRule(hostmac: Mac, kind: NdKind): Rule {
    EthGate(ETH_IP6) + (L4Gate(58)
      + (LoadCmpRule(TransportHeader, 0, 1, true, [kind.Code()])
        + ((if kind.ChecksSrc() then LoadCmpRule(NetworkHeader, 8, 16, false, Zeros(16)) else [])
          + (LoadCmpRule(TransportHeader, kind.Opt(), 1, true, [kind.OptType()])
            + (LoadCmpRule(TransportHeader, kind.Opt() + 2, 6, false, hostmac)
              + (WriteRule(TransportHeader, kind.Opt() + 2, hostmac)
                + ([PayloadLoad(NetworkHeader, 8, 16, REG_1), DynsetUpdate(Seen(Fam6), REG_1)]
                  + ([Log('R')] + [Decide(Drop)]))))))))
  }

  function NdOutRules(hostmac: Mac): seq<Rule> {
    [NdOutRule(hostmac, Ns), NdOutRule(hostmac, Na), NdOutRule(hostmac, Rs)]
  }

  function NdDispatch(): Rule {
    EthGate(ETH_IP6) + (L4Gate(58) + [Jump])
  }

  function DhcpRule(hostmac: Mac, term: Rule): Rule {
    L4Gate(17)
      + (LoadCmpRule(TransportHeader, 0, 4, true, [0x00, 0x44, 0x00, 0x43])
        + (WriteRule(TransportHeader, 18, [0x80, 0x00])
          + (WriteRule(TransportHeader, 6, [0, 0]) + (SetSrcHostmac(hostmac) + term))))
  }

  function ValidRule(fam: Family, hostmac: Mac, term: Rule): Rule {
    EthGate(EthOf(fam))
      + ([PayloadLoad(NetworkHeader, SaddrOff(fam), AddrLen(fam), REG_1),
          PayloadLoad(LinkHeader, 6, 6, if fam == Fam4 then REG32_01 else REG_2),
          Lookup(Valid(fam), REG_1, None)]
        + ([PayloadLoad(NetworkHeader, SaddrOff(fam), AddrLen(fam), REG_1), DynsetUpdate(Seen(fam), REG_1)]
          + (SetSrcHostmac(hostmac) + term)))
  }

  function ArpOutRule(hostmac: Mac, term: Rule): Rule {
    EthGate(ETH_ARP)
      + (WriteRule(NetworkHeader, 8, hostmac)
        + ([PayloadLoad(NetworkHeader, 14, 4, REG_1), DynsetUpdate(Seen(Fam4), REG_1), Log('L')]
          + (SetSrcHostmac(hostmac) + term)))
  }

  function ElseOutRule(hostmac: Mac, term: Rule): Rule {
    [Log('L')] + (SetSrcHostmac(hostmac) + term)
  }

  function OutTail(hostmac: Mac, term: Rule): seq<Rule> {
    [DhcpRule(hostmac, term), NdDispatch(),
     ValidRule(Fam4, hostmac, term), ValidRule(Fam6, hostmac, term),
     ArpOutRule(hostmac, term), ElseOutRule(hostmac, term)]
  }

  function OutRulesFwd(hostmac: Mac, brmac: Option<Mac>, up0: nat): seq<Rule> {
    [DropSrc(hostmac)] + (if brmac.Some? then [DropSrc(brmac.value)] else []) + OutTail(hostmac, TermFwd(up0))
  }

  function OutRulesDirect(hostmac: Mac): seq<Rule> {
    [LoadCmpRule(LinkHeader, 6, 6, true, hostmac) + [Decide(Accept)]] + OutTail(hostmac, TermAccept())
  }

  // ---- up0 egress rules ----

  function GuardRule(hostmac: Mac): Rule {
    LoadCmpRule(LinkHeader, 6, 6, false, hostmac) + SetSrcHostmac(hostmac)
  }

  function GuardArpDiscover(fwd0: nat): Rule {
    EthGate(ETH_ARP)
      + (LoadCmpRule(LinkHeader, 0, 6, true, BROADCAST)
        + (LoadCmpRule(NetworkHeader, 6, 2, true, Be16(1))
          + ([PayloadLoad(NetworkHeader, 14, 4, REG_3), Cmp(REG_3, false, Zeros(4)), LookupInv(Ip2mac(Fam4), REG_3)]
            + (WriteRule(NetworkHeader, 14, Zeros(4))
              + (TermDup(fwd0) + [PayloadSet(NetworkHeader, 14, 4, REG_3, None)])))))
  }

  function GuardNsDiscover(fwd0: nat): Rule {
    EthGate(ETH_IP6)
      + (L4Gate(58)
        + (LoadCmpRule(LinkHeader, 0, 2, true, [0x33, 0x33])
          + (LoadCmpRule(TransportHeader, 0, 1, true, [135])
            + (LoadCmpRule(TransportHeader, 24, 1, true, [1])
              + ([PayloadLoad(NetworkHeader, 8, 16, REG_3), Cmp(REG_3, false, Zeros(16)), LookupInv(Ip2mac(Fam6), REG_3)]
                + ([Immediate(REG_1, Zeros(16)), PayloadSet(NetworkHeader, 8, 16, REG_1, Some(42))]
                  + ([Immediate(REG_1, [200]), PayloadSet(TransportHeader, 24, 1, REG_1, Some(2))]
                    + (TermDup(fwd0)
                      + ([PayloadSet(NetworkHeader, 8, 16, REG_3, Some(42))]
                        + [Immediate(REG_1, [1]), PayloadSet(TransportHeader, 24, 1, REG_1, Some(2))])))))))))
  }

  function GuardRulesFwd(hostmac: Mac, fwd0: nat): seq<Rule> {
    [GuardRule(hostmac), GuardArpDiscover(fwd0), GuardNsDiscover(fwd0)]
  }

  // ---- what the blocks do ----

  lemma EthGateTests(env: Env, ethertype: nat, m: Machine)
    requires m.status == Running && ethertype < 0x1_0000
    ensures Tested(m, Run(env, EthGate(ethertype), m), EthType(m.frame) == ethertype)
  {
    Run2(env, MetaLoad(MetaProtocol, REG_1), Cmp(REG_1, true, Be16(ethertype)), m);
    WrittenReg(m.regs, REG_1, Be16(EthType(m.frame)));
    assert Be16(EthType(m.frame)) == Be16(ethertype) ==> EthType(m.frame) == ethertype;
  }

  lemma L4GateTests(env: Env, proto: byte, m: Machine)
    requires m.status == Running
    ensures Tested(m, Run(env, L4Gate(proto), m), L4(m.frame).Some? && L4(m.frame).value.0 == proto)
  {
    Run2(env, MetaLoad(MetaL4proto, REG_1), Cmp(REG_1, true, [proto]), m);
    if L4(m.frame).Some? {
      WrittenReg(m.regs, REG_1, [L4(m.frame).value.0]);
    }
  }

  lemma EthDstTests(env: Env, mac: Mac, m: Machine)
    requires m.status == Running
    ensures Tested(m, Run(env, EthDstIs(mac), m), Dst(m.frame) == mac)
  {
    LoadCmp(env, LinkHeader, 0, 6, true, mac, m);
  }

  lemma DropSrcEffect(env: Env, mac: Mac, m: Machine)
    requires m.status == Running
    ensures var n := Run(env, DropSrc(mac), m);
            SameEffects(m, n) && n.status == if Src(m.frame) == mac then Done(Drop) else Mismatch
  {
    LoadCmp(env, LinkHeader, 6, 6, true, mac, m);
    Decides(env, [PayloadLoad(LinkHeader, 6, 6, REG_1), Cmp(REG_1, true, mac)], Drop, m, Src(m.frame) == mac);
  }

  /** A tested block followed by a verdict. */
  lemma Decides(env: Env, block: Rule, v: Verdict, m: Machine, cond: bool)
    requires Tested(m, Run(env, block, m), cond)
    ensures var n := Run(env, block + [Decide(v)], m);
            SameEffects(m, n) && n.status == if cond then Done(v) else Mismatch
  {
    RunAppend(env, block, [Decide(v)], m);
    if cond {
      Run1(env, Decide(v), Run(env, block, m));
    }
  }

  /** A tested block in front of the rest of a rule. */
  lemma Gated(env: Env, gate: Rule, rest: Rule, m: Machine, cond: bool)
    requires Tested(m, Run(env, gate, m), cond)
    ensures Run(env, gate + rest, m) == if cond then Run(env, rest, Run(env, gate, m)) else Run(env, gate, m)
  {
    RunAppend(env, gate, rest, m);
  }

  /** The terminal of a rule: forward to a device, or accept. */
  function Term(fwd: Option<nat>): Rule {
    if fwd.Some? then TermFwd(fwd.value) else TermAccept()
  }

  function TermVerdict(fwd: Option<nat>): Verdict {
    if fwd.Some? then Redirect(fwd.value) else Accept
  }

  lemma TermEffect(env: Env, fwd: Option<nat>, m: Machine)
    requires m.status == Running && (fwd.Some? ==> fwd.value < 0x1_0000_0000)
    ensures var n := Run(env, Term(fwd), m);
            SameEffects(m, n) && n.status == Done(TermVerdict(fwd))
  {
    if fwd.Some? {
      Run2(env, Immediate(REG_1, Le32(fwd.value)), FwdTo(REG_1), m);
      WrittenReg(m.regs, REG_1, Le32(fwd.value));
      Le32RoundTrip(fwd.value);
    } else {
      Run1(env, Decide(Accept), m);
    }
  }

  lemma TermDupEffect(env: Env, ifx: nat, m: Machine)
    requires m.status == Running && ifx < 0x1_0000_0000
    ensures var n := Run(env, TermDup(ifx), m);
            && n == m.(regs := n.regs, dups := m.dups + [Clone(ifx, m.frame)])
            && n.regs[32..48] == m.regs[32..48]
  {
    Run2(env, Immediate(REG_1, Le32(ifx)), DupTo(REG_1), m);
    WrittenReg(m.regs, REG_1, Le32(ifx));
    Le32RoundTrip(ifx);
  }

  function IpOf(fam: Family, b: seq<byte>): Ip
    requires |b| == AddrLen(fam)
  {
    if fam == Fam4 then V4(b) else V6(b)
  }

  /** The network-layer address at `off`, when the frame is long enough. */
  function NetAddr(f: Frame, fam: Family, off: nat): Option<Ip> {
    if Fits(f, 14 + off, AddrLen(fam)) then Some(IpOf(fam, f[14 + off..14 + off + AddrLen(fam)])) else None
  }

  lemma LoadAddr(env: Env, fam: Family, off: nat, m: Machine)
    requires m.status == Running
    ensures var n := Exec(env, PayloadLoad(NetworkHeader, off, AddrLen(fam), REG_1), m);
            && SameEffects(m, n)
            && n.status == (if NetAddr(m.frame, fam, off).Some? then Running else Mismatch)
            && n.regs[32..48] == m.regs[32..48]
            && (n.status == Running ==> KeyIp(fam, n.regs, REG_1) == NetAddr(m.frame, fam, off).value)
  {
    if NetAddr(m.frame, fam, off).Some? {
      WrittenReg(m.regs, REG_1, m.frame[14 + off..14 + off + AddrLen(fam)]);
    }
  }

  function HostLookup(fam: Family, off: nat): Rule {
    [PayloadLoad(NetworkHeader, off, AddrLen(fam), REG_1), Lookup(Host(fam), REG_1, None)]
  }

  predicate AddrIn(f: Frame, fam: Family, off: nat, ips: set<Ip>) {
    NetAddr(f, fam, off).Some? && NetAddr(f, fam, off).value in ips
  }

  lemma HostLookupTests(env: Env, fam: Family, off: nat, m: Machine)
    requires m.status == Running
    ensures Tested(m, Run(env, HostLookup(fam, off), m), AddrIn(m.frame, fam, off, env.t.host))
  {
    LoadAddr(env, fam, off, m);
    Run2(env, PayloadLoad(NetworkHeader, off, AddrLen(fam), REG_1), Lookup(Host(fam), REG_1, None), m);
  }

  function DemuxLookup(fam: Family, off: nat): Rule {
    [PayloadLoad(NetworkHeader, off, AddrLen(fam), REG_1), Lookup(Ip2mac(fam), REG_1, Some(REG_1))]
  }

  lemma DemuxLookupTests(env: Env, fam: Family, off: nat, m: Machine)
    requires m.status == Running
    ensures var n := Run(env, DemuxLookup(fam, off), m);
            && Tested(m, n, AddrIn(m.frame, fam, off, env.t.ip2mac.Keys))
            && (n.status == Running ==> Reg(n.regs, REG_1, 6) == env.t.ip2mac[NetAddr(m.frame, fam, off).value])
  {
    LoadAddr(env, fam, off, m);
    var load := PayloadLoad(NetworkHeader, off, AddrLen(fam), REG_1);
    Run2(env, load, Lookup(Ip2mac(fam), REG_1, Some(REG_1)), m);
    var n := Exec(env, load, m);
    if AddrIn(m.frame, fam, off, env.t.ip2mac.Keys) {
      WrittenReg(n.regs, REG_1, env.t.ip2mac[NetAddr(m.frame, fam, off).value]);
    }
  }

  // ---- what the inbound rules do ----

  lemma InHostIpEffect(env: Env, hostmac: Mac, fam: Family, m: Machine)
    requires m.status == Running
    ensures var n := Run(env, InHostIp(hostmac, fam), m);
            && SameEffects(m, n)
            && n.status == if Dst(m.frame) == hostmac && EthType(m.frame) == EthOf(fam)
                              && AddrIn(m.frame, fam, DaddrOff(fam), env.t.host) then Done(Accept) else Mismatch
  {
    var look := HostLookup(fam, DaddrOff(fam));
    EthDstTests(env, hostmac, m);
    Gated(env, EthDstIs(hostmac), EthGate(EthOf(fam)) + (look + [Decide(Accept)]), m, Dst(m.frame) == hostmac);
    if Dst(m.frame) == hostmac {
      var m1 := Run(env, EthDstIs(hostmac), m);
      EthGateTests(env, EthOf(fam), m1);
      Gated(env, EthGate(EthOf(fam)), look + [Decide(Accept)], m1, EthType(m.frame) == EthOf(fam));
      if EthType(m.frame) == EthOf(fam) {
        var m2 := Run(env, EthGate(EthOf(fam)), m1);
        HostLookupTests(env, fam, DaddrOff(fam), m2);
        Decides(env, look, Accept, m2, AddrIn(m.frame, fam, DaddrOff(fam), env.t.host));
      }
    }
  }

  lemma InHostArpEffect(env: Env, m: Machine)
    requires m.status == Running
    ensures var n := Run(env, InHostArp(), m);
            && SameEffects(m, n)
            && n.status == if EthType(m.frame) == ETH_ARP && AddrIn(m.frame, Fam4, 24, env.t.host)
                           then Done(Accept) else Mismatch
  {
    var look := HostLookup(Fam4, 24);
    EthGateTests(env, ETH_ARP, m);
    Gated(env, EthGate(ETH_ARP), look + [Decide(Accept)], m, EthType(m.frame) == ETH_ARP);
    if EthType(m.frame) == ETH_ARP {
      var m1 := Run(env, EthGate(ETH_ARP), m);
      HostLookupTests(env, Fam4, 24, m1);
      Decides(env, look, Accept, m1, AddrIn(m.frame, Fam4, 24, env.t.host));
    }
  }

  lemma InDupEffect(env: Env, code: byte, fwd0: nat, m: Machine)
    requires m.status == Running && fwd0 < 0x1_0000_0000
    ensures var n := Run(env, InDup(code, fwd0), m);
            && n == m.(regs := n.regs, status := n.status, dups := n.dups)
            && n.status == (if PktCode(env.pkt) == code then Running else Mismatch)
            && n.dups == if PktCode(env.pkt) == code then m.dups + [Clone(fwd0, m.frame)] else m.dups
  {
    var gate := [MetaLoad(MetaPkttype, REG_1), Cmp(REG_1, true, [code])];
    Run2(env, gate[0], gate[1], m);
    WrittenReg(m.regs, REG_1, [PktCode(env.pkt)]);
    Gated(env, gate, TermDup(fwd0), m, PktCode(env.pkt) == code);
    if PktCode(env.pkt) == code {
      TermDupEffect(env, fwd0, Run(env, gate, m));
    }
  }

  /** Write register 1's mac to the destination, then terminate. */
  lemma RewriteDst(env: Env, fwd: Option<nat>, mac: Mac, m: Machine)
    requires m.status == Running && Reg(m.regs, REG_1, 6) == mac
    requires fwd.Some? ==> fwd.value < 0x1_0000_0000
    ensures var n := Run(env, [PayloadSet(LinkHeader, 0, 6, REG_1, None)] + Term(fwd), m);
            n == m.(regs := n.regs, status := Done(TermVerdict(fwd)), frame := Store(m.frame, 0, mac))
  {
    var put := PayloadSet(LinkHeader, 0, 6, REG_1, None);
    RunAppend(env, [put], Term(fwd), m);
    Run1(env, put, m);
    TermEffect(env, fwd, Exec(env, put, m));
  }

  predicate DemuxCond(env: Env, hostmac: Mac, fam: Family, f: Frame) {
    && Dst(f) == hostmac && EthType(f) == EthOf(fam)
    && AddrIn(f, fam, DaddrOff(fam), env.t.ip2mac.Keys)
  }

  lemma InDemuxIpEffect(env: Env, fam: Family, hostmac: Mac, fwd: Option<nat>, m: Machine)
    requires m.status == Running && (fwd.Some? ==> fwd.value < 0x1_0000_0000)
    ensures var n := Run(env, InDemuxIp(fam, hostmac, Term(fwd)), m);
            if DemuxCond(env, hostmac, fam, m.frame) then
              var mac := env.t.ip2mac[NetAddr(m.frame, fam, DaddrOff(fam)).value];
              n == m.(regs := n.regs, status := Done(TermVerdict(fwd)), frame := Store(m.frame, 0, mac))
            else SameEffects(m, n) && n.status == Mismatch
  {
    var look, put := DemuxLookup(fam, DaddrOff(fam)), [PayloadSet(LinkHeader, 0, 6, REG_1, None)];
    EthDstTests(env, hostmac, m);
    Gated(env, EthDstIs(hostmac), EthGate(EthOf(fam)) + (look + (put + Term(fwd))), m, Dst(m.frame) == hostmac);
    if Dst(m.frame) == hostmac {
      var m1 := Run(env, EthDstIs(hostmac), m);
      EthGateTests(env, EthOf(fam), m1);
      Gated(env, EthGate(EthOf(fam)), look + (put + Term(fwd)), m1, EthType(m.frame) == EthOf(fam));
      if EthType(m.frame) == EthOf(fam) {
        var m2 := Run(env, EthGate(EthOf(fam)), m1);
        DemuxLookupTests(env, fam, DaddrOff(fam), m2);
        Gated(env, look, put + Term(fwd), m2, AddrIn(m.frame, fam, DaddrOff(fam), env.t.ip2mac.Keys));
        if DemuxCond(env, hostmac, fam, m.frame) {
          RewriteDst(env, fwd, env.t.ip2mac[NetAddr(m.frame, fam, DaddrOff(fam)).value], Run(env, look, m2));
        }
      }
    }
  }

  predicate DemuxArpCond(env: Env, hostmac: Mac, f: Frame) {
    Dst(f) == hostmac && EthType(f) == ETH_ARP && AddrIn(f, Fam4, 24, env.t.ip2mac.Keys)
  }

  /** The ARP target mac, then the destination. */
  lemma RewriteArp(env: Env, fwd: Option<nat>, mac: Mac, m: Machine)
    requires m.status == Running && Reg(m.regs, REG_1, 6) == mac && Fits(m.frame, 32, 6)
    requires fwd.Some? ==> fwd.value < 0x1_0000_0000
    ensures var puts := [PayloadSet(NetworkHeader, 18, 6, REG_1, None), PayloadSet(LinkHeader, 0, 6, REG_1, None)];
            var n := Run(env, puts + Term(fwd), m);
            n == m.(regs := n.regs, status := Done(TermVerdict(fwd)), frame := Store(Store(m.frame, 32, mac), 0, mac))
  {
    var tha, put := PayloadSet(NetworkHeader, 18, 6, REG_1, None), PayloadSet(LinkHeader, 0, 6, REG_1, None);
    assert [tha, put] + Term(fwd) == [tha] + ([put] + Term(fwd));
    RunAppend(env, [tha], [put] + Term(fwd), m);
    Run1(env, tha, m);
    RewriteDst(env, fwd, mac, Exec(env, tha, m));
  }

  lemma InDemuxArpEffect(env: Env, hostmac: Mac, fwd: Option<nat>, m: Machine)
    requires m.status == Running && (fwd.Some? ==> fwd.value < 0x1_0000_0000)
    ensures var n := Run(env, InDemuxArp(hostmac, Term(fwd)), m);
            if DemuxArpCond(env, hostmac, m.frame) then
              var mac := env.t.ip2mac[NetAddr(m.frame, Fam4, 24).value];
              n == m.(regs := n.regs, status := Done(TermVerdict(fwd)), frame := Store(Store(m.frame, 32, mac), 0, mac))
            else SameEffects(m, n) && n.status == Mismatch
  {
    var look := DemuxLookup(Fam4, 24);
    var puts := [PayloadSet(NetworkHeader, 18, 6, REG_1, None), PayloadSet(LinkHeader, 0, 6, REG_1, None)];
    EthDstTests(env, hostmac, m);
    Gated(env, EthDstIs(hostmac), EthGate(ETH_ARP) + (look + (puts + Term(fwd))), m, Dst(m.frame) == hostmac);
    if Dst(m.frame) == hostmac {
      var m1 := Run(env, EthDstIs(hostmac), m);
      EthGateTests(env, ETH_ARP, m1);
      Gated(env, EthGate(ETH_ARP), look + (puts + Term(fwd)), m1, EthType(m.frame) == ETH_ARP);
      if EthType(m.frame) == ETH_ARP {
        var m2 := Run(env, EthGate(ETH_ARP), m1);
        DemuxLookupTests(env, Fam4, 24, m2);
        Gated(env, look, puts + Term(fwd), m2, AddrIn(m.frame, Fam4, 24, env.t.ip2mac.Keys));
        if DemuxArpCond(env, hostmac, m.frame) {
          RewriteArp(env, fwd, env.t.ip2mac[NetAddr(m.frame, Fam4, 24).value], Run(env, look, m2));
        }
      }
    }
  }

  lemma InElseEffect(env: Env, hostmac: Mac, m: Machine)
    requires m.status == Running
    ensures var n := Run(env, InElse(hostmac), m);
            SameEffects(m, n) && n.status == if Dst(m.frame) == hostmac then Done(Accept) else Mismatch
  {
    EthDstTests(env, hostmac, m);
    Decides(env, EthDstIs(hostmac), Accept, m, Dst(m.frame) == hostmac);
  }
}
