/**
 The up0-egress rules of nft against the eBPF guard (src/backend/nft/mod.rs:746-816,
 bpf/pbridge.bpf.c:302-386): the same frames are cloned, the clones are the same anonymous
 solicitations, and the sender kept in register 3 comes back on the wire.
 */
module GuardEquivalence {
  import opened Types
  import opened Bytes
  import opened Checksum
  import opened Datapath
  import opened DatapathProperties
  import opened NftMachine
  import opened NftRules
  import opened InboundEquivalence
  import opened NftOutbound
  import opened NdEquivalence

  lemma GuardRuleEffect(env: Env, hostmac: Mac, m: Machine)
    requires m.status == Running
    ensures var n := Run(env, GuardRule(hostmac), m);
            && n == m.(regs := n.regs, status := n.status, frame := Normalized(m.frame, hostmac))
            && (n.status == Running || n.status == Mismatch)
  {
    LoadCmp(env, LinkHeader, 6, 6, false, hostmac, m);
    Gated(env, LoadCmpRule(LinkHeader, 6, 6, false, hostmac), SetSrcHostmac(hostmac), m, Src(m.frame) != hostmac);
    if Src(m.frame) != hostmac {
      SetSrcEffect(env, hostmac, Run(env, LoadCmpRule(LinkHeader, 6, 6, false, hostmac), m));
    } else {
      assert Normalized(m.frame, hostmac) == m.frame;
    }
  }

  // ---- ARP ----

  function SenderGate(fam: Family, off: nat): Rule {
    [PayloadLoad(NetworkHeader, off, AddrLen(fam), REG_3), Cmp(REG_3, false, Zeros(AddrLen(fam))), LookupInv(Ip2mac(fam), REG_3)]
  }

  /** The address in register 3 is neither unspecified nor a known guest. */
  lemma StrangerTests(env: Env, fam: Family, a: seq<byte>, m: Machine)
    requires m.status == Running && |a| == AddrLen(fam) && Reg(m.regs, REG_3, AddrLen(fam)) == a
    ensures Run(env, [Cmp(REG_3, false, Zeros(AddrLen(fam))), LookupInv(Ip2mac(fam), REG_3)], m)
         == if IpOf(fam, a) != IpOf(fam, Zeros(AddrLen(fam))) && IpOf(fam, a) !in env.t.ip2mac then m else m.(status := Mismatch)
  {
    Run2(env, Cmp(REG_3, false, Zeros(AddrLen(fam))), LookupInv(Ip2mac(fam), REG_3), m);
  }

  /** The sender is loaded into register 3 and is neither unspecified nor a known guest. */
  lemma SenderGateTests(env: Env, fam: Family, off: nat, m: Machine)
    requires m.status == Running
    ensures var n := Run(env, SenderGate(fam, off), m);
            var sender := NetAddr(m.frame, fam, off);
            var ok := sender.Some? && sender.value != IpOf(fam, Zeros(AddrLen(fam))) && sender.value !in env.t.ip2mac;
            && SameEffects(m, n) && n.status == (if ok then Running else Mismatch)
            && (ok ==> Reg(n.regs, REG_3, AddrLen(fam)) == m.frame[14 + off..14 + off + AddrLen(fam)])
  {
    var len := AddrLen(fam);
    var load, cmp, inv := PayloadLoad(NetworkHeader, off, len, REG_3), Cmp(REG_3, false, Zeros(len)), LookupInv(Ip2mac(fam), REG_3);
    assert SenderGate(fam, off) == [load] + [cmp, inv];
    RunAppend(env, [load], [cmp, inv], m);
    Run1(env, load, m);
    LoadsSender(env, fam, off, m);
    if Fits(m.frame, 14 + off, len) {
      StrangerTests(env, fam, m.frame[14 + off..14 + off + len], Exec(env, load, m));
    } else {
      Stopped(env, [cmp, inv], Exec(env, load, m));
    }
  }

  lemma LoadsSender(env: Env, fam: Family, off: nat, m: Machine)
    ensures var len := AddrLen(fam);
            var n := Exec(env, PayloadLoad(NetworkHeader, off, len, REG_3), m);
            if Fits(m.frame, 14 + off, len)
            then n == m.(regs := n.regs) && Reg(n.regs, REG_3, len) == m.frame[14 + off..14 + off + len]
            else n == m.(status := Mismatch)
  {
    var len := AddrLen(fam);
    if Fits(m.frame, 14 + off, len) {
      WrittenReg(m.regs, REG_3, m.frame[14 + off..14 + off + len]);
    }
  }

  predicate ArpGatesPass(f: Frame) {
    EthType(f) == ETH_ARP && Dst(f) == BROADCAST && Fits(f, 20, 2) && f[20..22] == Be16(1)
  }

  function ArpGates(): Rule {
    EthGate(ETH_ARP)
      + (LoadCmpRule(LinkHeader, 0, 6, true, BROADCAST) + LoadCmpRule(NetworkHeader, 6, 2, true, Be16(1)))
  }

  lemma ArpGatesTest(env: Env, m: Machine)
    requires m.status == Running
    ensures Tested(m, Run(env, ArpGates(), m), ArpGatesPass(m.frame))
  {
    var bcast, op := LoadCmpRule(LinkHeader, 0, 6, true, BROADCAST), LoadCmpRule(NetworkHeader, 6, 2, true, Be16(1));
    EthGateTests(env, ETH_ARP, m);
    Gated(env, EthGate(ETH_ARP), bcast + op, m, EthType(m.frame) == ETH_ARP);
    if EthType(m.frame) == ETH_ARP {
      var m1 := Run(env, EthGate(ETH_ARP), m);
      LoadCmp(env, LinkHeader, 0, 6, true, BROADCAST, m1);
      Gated(env, bcast, op, m1, Dst(m.frame) == BROADCAST);
      if Dst(m.frame) == BROADCAST {
        LoadCmp(env, NetworkHeader, 6, 2, true, Be16(1), Run(env, bcast, m1));
      }
    }
  }

  function ArpAction(fwd0: nat): Rule {
    WriteRule(NetworkHeader, 14, Zeros(4)) + (TermDup(fwd0) + [PayloadSet(NetworkHeader, 14, 4, REG_3, None)])
  }

  lemma ArpRuleParts(fwd0: nat)
    ensures GuardArpDiscover(fwd0) == ArpGates() + (SenderGate(Fam4, 14) + ArpAction(fwd0))
  {
  }

  /** Blank the sender, clone, put it back from register 3. */
  lemma ArpActionEffect(env: Env, fwd0: nat, m: Machine)
    requires m.status == Running && fwd0 < 0x1_0000_0000
    requires Fits(m.frame, 28, 4) && Reg(m.regs, REG_3, 4) == m.frame[28..32]
    ensures var n := Run(env, ArpAction(fwd0), m);
            n == m.(regs := n.regs, dups := m.dups + [Clone(fwd0, Store(m.frame, 28, Zeros(4)))])
  {
    var write, back := WriteRule(NetworkHeader, 14, Zeros(4)), PayloadSet(NetworkHeader, 14, 4, REG_3, None);
    RunAppend(env, write, TermDup(fwd0) + [back], m);
    WriteEffect(env, NetworkHeader, 14, Zeros(4), m);
    var m1 := Run(env, write, m);
    RunAppend(env, TermDup(fwd0), [back], m1);
    TermDupEffect(env, fwd0, m1);
    var m2 := Run(env, TermDup(fwd0), m1);
    Run1(env, back, m2);
    assert Reg(m2.regs, REG_3, 4) == m2.regs[32..48][..4] == m.regs[32..48][..4];
    assert Store(Store(m.frame, 28, Zeros(4)), 28, m.frame[28..32]) == m.frame;
  }

  predicate ArpStranger(t: Tables, f: Frame) {
    Fits(f, 28, 4) && V4(f[28..32]) != V4(Zeros(4)) && V4(f[28..32]) !in t.ip2mac
  }

  lemma ArpTriggers(t: Tables, f: Frame)
    ensures DiscoversArp(t, f) <==> ArpGatesPass(f) && ArpStranger(t, f)
  {
  }

  lemma ArpTail(env: Env, fwd0: nat, m: Machine)
    requires m.status == Running && fwd0 < 0x1_0000_0000
    ensures var n := Run(env, SenderGate(Fam4, 14) + ArpAction(fwd0), m);
            && n == m.(regs := n.regs, status := n.status, dups := n.dups)
            && (n.status == Running || n.status == Mismatch)
            && n.dups == if ArpStranger(env.t, m.frame) then m.dups + [Clone(fwd0, Store(m.frame, 28, Zeros(4)))] else m.dups
  {
    SenderGateTests(env, Fam4, 14, m);
    RunAppend(env, SenderGate(Fam4, 14), ArpAction(fwd0), m);
    var m2 := Run(env, SenderGate(Fam4, 14), m);
    if m2.status == Running {
      ArpActionEffect(env, fwd0, m2);
    } else {
      Stopped(env, ArpAction(fwd0), m2);
    }
  }

  lemma ArpRuleEffect(env: Env, fwd0: nat, m: Machine)
    requires m.status == Running && fwd0 < 0x1_0000_0000
    ensures var n := Run(env, GuardArpDiscover(fwd0), m);
            && n == m.(regs := n.regs, status := n.status, dups := n.dups)
            && (n.status == Running || n.status == Mismatch)
            && n.dups == if DiscoversArp(env.t, m.frame) then m.dups + [Clone(fwd0, Store(m.frame, 28, Zeros(4)))] else m.dups
  {
    ArpTriggers(env.t, m.frame);
    ArpRuleParts(fwd0);
    ArpGatesTest(env, m);
    Gated(env, ArpGates(), SenderGate(Fam4, 14) + ArpAction(fwd0), m, ArpGatesPass(m.frame));
    if ArpGatesPass(m.frame) {
      ArpTail(env, fwd0, Run(env, ArpGates(), m));
    }
  }

  // ---- neighbour solicitations ----

  lemma MangledBalances(c: nat, from: seq<byte>, to: seq<byte>) returns (k: int)
    requires c <= ALL_ONES
    ensures Mangled(c, from, to) + WordSum(to) == c + WordSum(from) + 65535 * k
    ensures 0 < Mangled(c, from, to)
  {
    WordSumBound(from);
    var x := (ALL_ONES - c) + (65535 * Words(from) - WordSum(from)) + WordSum(to);
    k := Wraps(x) - Words(from) + if Fold(x) == ALL_ONES then 1 else 0;
  }

  /** A covered payload write: the field mangled, the bytes stored. */
  function Covering(f: Frame, at: nat, v: seq<byte>): Frame
    requires Fits(f, at, |v|) && Fits(f, CSUM, 2)
  {
    Store(Store(f, CSUM, Be16(Mangled(Field(f), f[at..at + |v|], v))), at, v)
  }

  lemma CoveringField(f: Frame, at: nat, v: seq<byte>)
    requires Fits(f, at, |v|) && Fits(f, CSUM, 2) && (at + |v| <= CSUM || CSUM + 2 <= at)
    ensures Field(Covering(f, at, v)) == Mangled(Field(f), f[at..at + |v|], v)
    ensures |Covering(f, at, v)| == |f|
    ensures forall i | 0 <= i < |f| && !(CSUM <= i < CSUM + 2) :: Covering(f, at, v)[i] == Store(f, at, v)[i]
  {
    var c := Be16(Mangled(Field(f), f[at..at + |v|], v));
    StoredThere(f, CSUM, c);
    StoredElsewhere(Store(f, CSUM, c), at, v, CSUM, 2);
  }

  /** The four covered writes: source ::, option type 200, and back. */
  function Blanked(f: Frame): Frame
    requires Fits(f, 78, 1)
  {
    Covering(Covering(f, 22, Zeros(16)), 78, [200])
  }

  function Unblanked(f: Frame, src: seq<byte>): Frame
    requires Fits(f, 78, 1) && |src| == 16
  {
    Covering(Covering(f, 22, src), 78, [1])
  }

  lemma OptionWords(o: seq<byte>)
    requires |o| == 4 && o[0] == 1
    ensures WordSum(Neutral(o)) == WordSum(o) + 199 * 256
    ensures WordSum([1]) == 256 && WordSum([200]) == 200 * 256
  {
    assert Neutral(o)[2..] == o[2..];
  }

  lemma BlankedBytes(f: Frame)
    requires Fits(f, 78, 4)
    ensures var b := Blanked(f);
            && |b| == |f| && b[22..38] == Zeros(16) && b[78] == 200
            && (forall i | 0 <= i < |f| && !(22 <= i < 38) && !(CSUM <= i < CSUM + 2) && i != 78 :: b[i] == f[i])
  {
    CoveringField(f, 22, Zeros(16));
    CoveringField(Covering(f, 22, Zeros(16)), 78, [200]);
  }

  lemma UnblankedBytes(b: Frame, src: seq<byte>)
    requires Fits(b, 78, 4) && |src| == 16
    ensures var e := Unblanked(b, src);
            && |e| == |b| && e[22..38] == src && e[78] == 1
            && (forall i | 0 <= i < |b| && !(22 <= i < 38) && !(CSUM <= i < CSUM + 2) && i != 78 :: e[i] == b[i])
  {
    CoveringField(b, 22, src);
    CoveringField(Covering(b, 22, src), 78, [1]);
  }

  /** Two covered writes balance the field against the words they replaced. */
  lemma TwoCoverings(f: Frame, to: seq<byte>, p: byte, q: byte) returns (k: int)
    requires Fits(f, 78, 4) && |to| == 16 && f[78] == p
    ensures var g := Covering(Covering(f, 22, to), 78, [q]);
            && Field(g) + WordSum(to) + WordSum([q]) == Field(f) + WordSum(f[22..38]) + WordSum([p]) + 65535 * k
            && 0 < Field(g)
  {
    var a := Covering(f, 22, to);
    CoveringField(f, 22, to);
    CoveringField(a, 78, [q]);
    assert a[78..79] == [p] by { assert a[78] == f[78]; }
    var k1 := MangledBalances(Field(f), f[22..38], to);
    var k2 := MangledBalances(Field(a), [p], [q]);
    k := k1 + k2;
  }

  lemma AnonymousBalances(f: Frame) returns (k: int)
    requires Fits(f, 78, 4)
    ensures var o := FirstOption(f);
            Field(Anonymous(f)) + WordSum(Zeros(16)) + WordSum(Neutral(o)) == Field(f) + WordSum(f[22..38]) + WordSum(o) + 65535 * k
  {
    AnonymousField(f);
    var o, c1 := FirstOption(f), Replaced(Field(f), CsumDiff(f[22..38], Zeros(16)));
    var k1 := ReplacedBalances(Field(f), f[22..38], Zeros(16), 8);
    var k2 := ReplacedBalances(c1, o, Neutral(o), 2);
    k := k1 + k2;
  }

  lemma SameCloneField(f: Frame)
    requires Fits(f, 78, 4) && f[78] == 1
    ensures OnesEqual(Field(Anonymous(f)), Field(Blanked(f)))
  {
    var k1 := TwoCoverings(f, Zeros(16), 1, 200);
    var k2 := AnonymousBalances(f);
    OptionWords(FirstOption(f));
    OnesFromMultiple(Field(Anonymous(f)), Field(Blanked(f)), k2 - k1);
  }

  lemma SameCloneBytes(f: Frame)
    requires Fits(f, 78, 4)
    ensures Blanked(f) == Store(Anonymous(f), CSUM, Be16(Field(Blanked(f))))
  {
    BlankedBytes(f);
    AnonymousElsewhere(f);
    SameBlanks(Blanked(f), Anonymous(f), f);
    SameButField(Blanked(f), Anonymous(f));
  }

  lemma SameBlanks(a: Frame, b: Frame, f: Frame)
    requires |a| == |b| == |f| >= 82 && a[22..38] == b[22..38] && a[78] == b[78]
    requires forall i | 0 <= i < |f| && !(22 <= i < 38) && !(CSUM <= i < CSUM + 2) && i != 78 :: a[i] == f[i] == b[i]
    ensures forall i | 0 <= i < |f| && !(CSUM <= i < CSUM + 2) :: a[i] == b[i]
  {
    forall i | 22 <= i < 38 ensures a[i] == b[i] {
      assert a[i] == a[22..38][i - 22] && b[i] == b[22..38][i - 22];
    }
  }

  /** nft's clone is eBPF's clone, up to the two zeros. */
  lemma SameClone(f: Frame)
    requires Fits(f, 78, 4) && f[78] == 1
    ensures SameOnWire(Anonymous(f), Blanked(f))
  {
    SameCloneField(f);
    SameCloneBytes(f);
    BlankedBytes(f);
  }

  /** After the undo the wire frame is the original, except that a zero checksum comes back as
      0xffff. */
  lemma UnblankedRestores(f: Frame)
    requires Fits(f, 78, 4) && f[78] == 1
    ensures Unblanked(Blanked(f), f[22..38]) == if Field(f) == 0 then Store(f, CSUM, [0xff, 0xff]) else f
  {
    BytesRestored(f);
    FieldRestored(f, Blanked(f));
    OnlyTheField(Unblanked(Blanked(f), f[22..38]), f);
  }

  lemma OnlyTheField(e: Frame, f: Frame)
    requires |e| == |f| && Fits(f, CSUM, 2)
    requires forall i | 0 <= i < |f| && !(CSUM <= i < CSUM + 2) :: e[i] == f[i]
    requires Field(e) == if Field(f) == 0 then ALL_ONES else Field(f)
    ensures e == if Field(f) == 0 then Store(f, CSUM, [0xff, 0xff]) else f
  {
    SameButField(e, f);
    SameButField(f, f);
  }

  lemma BytesRestored(f: Frame)
    requires Fits(f, 78, 4) && f[78] == 1
    ensures var e := Unblanked(Blanked(f), f[22..38]);
            |e| == |f| && forall i | 0 <= i < |f| && !(CSUM <= i < CSUM + 2) :: e[i] == f[i]
  {
    var src, b := f[22..38], Blanked(f);
    BlankedBytes(f);
    UnblankedBytes(b, src);
    RestoredBytes(Unblanked(b, src), b, f);
  }

  lemma FieldRestored(f: Frame, b: Frame)
    requires Fits(f, 78, 4) && f[78] == 1 && b == Blanked(f)
    ensures Field(Unblanked(b, f[22..38])) == if Field(f) == 0 then ALL_ONES else Field(f)
  {
    BlankedBytes(f);
    var k1 := TwoCoverings(f, Zeros(16), 1, 200);
    var k2 := TwoCoverings(b, f[22..38], 200, 1);
    BackInRange(Field(f), Field(Unblanked(b, f[22..38])), k1 + k2);
  }

  lemma BackInRange(c: nat, d: nat, k: int)
    requires c <= ALL_ONES && 0 < d <= ALL_ONES && d == c + 65535 * k
    ensures d == if c == 0 then ALL_ONES else c
  {
  }

  lemma RestoredBytes(e: Frame, b: Frame, f: Frame)
    requires |e| == |b| == |f| >= 82 && e[22..38] == f[22..38] && e[78] == f[78]
    requires forall i | 0 <= i < |f| && !(22 <= i < 38) && !(CSUM <= i < CSUM + 2) && i != 78 :: e[i] == b[i] == f[i]
    ensures forall i | 0 <= i < |f| && !(CSUM <= i < CSUM + 2) :: e[i] == f[i]
  {
    forall i | 22 <= i < 38 ensures e[i] == f[i] {
      assert e[i] == e[22..38][i - 22] == f[22..38][i - 22];
    }
  }

  // ---- the solicitation rule ----

  predicate NsGatesPass(f: Frame) {
    && EthType(f) == ETH_IP6 && f[0] == 0x33 && f[1] == 0x33
    && |f| >= 79 && f[20] == 58 && f[54] == 135 && f[78] == 1
  }

  function NsLinkGates(): Rule {
    EthGate(ETH_IP6) + (L4Gate(58) + LoadCmpRule(LinkHeader, 0, 2, true, [0x33, 0x33]))
  }

  function NsMessageGates(): Rule {
    LoadCmpRule(TransportHeader, 0, 1, true, [135]) + LoadCmpRule(TransportHeader, 24, 1, true, [1])
  }

  predicate NsLinkPass(f: Frame) {
    EthType(f) == ETH_IP6 && |f| >= 54 && f[20] == 58 && f[0] == 0x33 && f[1] == 0x33
  }

  lemma NsLinkGatesTest(env: Env, m: Machine)
    requires m.status == Running
    ensures Tested(m, Run(env, NsLinkGates(), m), NsLinkPass(m.frame))
  {
    var f, dst := m.frame, LoadCmpRule(LinkHeader, 0, 2, true, [0x33, 0x33]);
    EthGateTests(env, ETH_IP6, m);
    Gated(env, EthGate(ETH_IP6), L4Gate(58) + dst, m, EthType(f) == ETH_IP6);
    if EthType(f) == ETH_IP6 {
      var m1 := Run(env, EthGate(ETH_IP6), m);
      L4GateTests(env, 58, m1);
      var l4 := L4(f).Some? && L4(f).value.0 == 58;
      Gated(env, L4Gate(58), dst, m1, l4);
      if l4 {
        LoadCmp(env, LinkHeader, 0, 2, true, [0x33, 0x33], Run(env, L4Gate(58), m1));
        assert f[0..2] == [f[0], f[1]];
      }
    }
  }

  lemma NsMessageGatesTest(env: Env, m: Machine)
    requires m.status == Running && NsLinkPass(m.frame)
    ensures Tested(m, Run(env, NsMessageGates(), m), NsGatesPass(m.frame))
  {
    var f := m.frame;
    var ty, opt := LoadCmpRule(TransportHeader, 0, 1, true, [135]), LoadCmpRule(TransportHeader, 24, 1, true, [1]);
    LoadCmp(env, TransportHeader, 0, 1, true, [135], m);
    var isNs := |f| >= 55 && f[54] == 135;
    assert |f| >= 55 ==> f[54..55] == [f[54]];
    Gated(env, ty, opt, m, isNs);
    if isNs {
      LoadCmp(env, TransportHeader, 24, 1, true, [1], Run(env, ty, m));
      assert |f| >= 79 ==> f[78..79] == [f[78]];
    }
  }

  function CoverRule(base: Base, off: nat, v: seq<byte>, csum: nat): Rule {
    [Immediate(REG_1, v), PayloadSet(base, off, |v|, REG_1, Some(csum))]
  }

  /** Still the same kind of frame: the writes below stay clear of what the headers are read from. */
  predicate SameShape(f: Frame, g: Frame) {
    |g| == |f| && EthType(g) == EthType(f) && L4(g) == L4(f)
  }

  lemma CoveringShape(f: Frame, at: nat, v: seq<byte>)
    requires EthType(f) == ETH_IP6 && 22 <= at && Fits(f, at, |v|) && Fits(f, CSUM, 2)
    ensures SameShape(f, Covering(f, at, v))
  {
    var g := Covering(f, at, v);
    assert g[12..14] == f[12..14];
  }

  lemma WriteCovers(f: Frame, at: nat, v: seq<byte>)
    requires Fits(f, at, |v|) && Fits(f, CSUM, 2)
    ensures PayloadWrite(f, at, v, Some(CSUM)) == Some(Covering(f, at, v))
  {
  }

  lemma SetCovers(m: Machine, start: nat, off: nat, v: seq<byte>, csum: nat)
    requires Fits(m.frame, start + off, |v|) && start + csum == CSUM && Fits(m.frame, CSUM, 2)
    ensures ExecSet(m, Some(start), off, v, Some(csum)) == m.(frame := Covering(m.frame, start + off, v))
  {
    WriteCovers(m.frame, start + off, v);
  }

  lemma CoverSet(env: Env, base: Base, off: nat, v: seq<byte>, csum: nat, m: Machine)
    requires LoadOk(m.frame, base, off, |v|) && Reg(m.regs, REG_1, |v|) == v
    requires Start(m.frame, base).value + csum == CSUM && Fits(m.frame, CSUM, 2)
    ensures Exec(env, PayloadSet(base, off, |v|, REG_1, Some(csum)), m)
         == m.(frame := Covering(m.frame, Start(m.frame, base).value + off, v))
  {
    var start := Start(m.frame, base).value;
    SetExec(env, PayloadSet(base, off, |v|, REG_1, Some(csum)), start, v, m);
    SetCovers(m, start, off, v, csum);
  }

  lemma CoverEffect(env: Env, base: Base, off: nat, v: seq<byte>, csum: nat, m: Machine)
    requires m.status == Running && |v| <= 16 && LoadOk(m.frame, base, off, |v|)
    requires Start(m.frame, base).value + csum == CSUM && Fits(m.frame, CSUM, 2)
    ensures var n := Run(env, CoverRule(base, off, v, csum), m);
            && n == m.(regs := n.regs, frame := Covering(m.frame, Start(m.frame, base).value + off, v))
            && n.regs[32..48] == m.regs[32..48]
  {
    var m1 := Exec(env, Immediate(REG_1, v), m);
    WrittenReg(m.regs, REG_1, v);
    assert m1 == m.(regs := Written(m.regs, REG_1, v));
    CoverSet(env, base, off, v, csum, m1);
    Run2(env, Immediate(REG_1, v), PayloadSet(base, off, |v|, REG_1, Some(csum)), m);
  }

  function NsEdit(): Rule {
    CoverRule(NetworkHeader, 8, Zeros(16), 42) + CoverRule(TransportHeader, 24, [200], 2)
  }

  /** A covered write on an IPv6 frame that reaches the first option. */
  lemma NsWrite(env: Env, base: Base, off: nat, v: seq<byte>, csum: nat, at: nat, m: Machine)
    requires m.status == Running && EthType(m.frame) == ETH_IP6 && |m.frame| >= 79 && |v| <= 16
    requires (base == NetworkHeader && at == 14 + off && csum == 42) || (base == TransportHeader && at == 54 + off && csum == 2)
    requires 22 <= at && at + |v| <= 79
    ensures var n := Run(env, CoverRule(base, off, v, csum), m);
            && n == m.(regs := n.regs, frame := Covering(m.frame, at, v))
            && n.regs[32..48] == m.regs[32..48]
            && SameShape(m.frame, n.frame)
  {
    CoverEffect(env, base, off, v, csum, m);
    CoveringShape(m.frame, at, v);
  }

  lemma NsEditEffect(env: Env, m: Machine)
    requires m.status == Running && NsGatesPass(m.frame)
    ensures var n := Run(env, NsEdit(), m);
            && n == m.(regs := n.regs, frame := Blanked(m.frame))
            && n.regs[32..48] == m.regs[32..48]
            && SameShape(m.frame, n.frame)
  {
    var first, second := CoverRule(NetworkHeader, 8, Zeros(16), 42), CoverRule(TransportHeader, 24, [200], 2);
    RunAppend(env, first, second, m);
    NsWrite(env, NetworkHeader, 8, Zeros(16), 42, 22, m);
    NsWrite(env, TransportHeader, 24, [200], 2, 78, Run(env, first, m));
  }

  function NsUndo(): Rule {
    [PayloadSet(NetworkHeader, 8, 16, REG_3, Some(42))] + CoverRule(TransportHeader, 24, [1], 2)
  }

  lemma NsUndoEffect(env: Env, src: seq<byte>, m: Machine)
    requires m.status == Running && EthType(m.frame) == ETH_IP6 && |m.frame| >= 79
    requires |src| == 16 && Reg(m.regs, REG_3, 16) == src
    ensures var n := Run(env, NsUndo(), m);
            n == m.(regs := n.regs, frame := Unblanked(m.frame, src))
  {
    var f, back := m.frame, PayloadSet(NetworkHeader, 8, 16, REG_3, Some(42));
    RunAppend(env, [back], CoverRule(TransportHeader, 24, [1], 2), m);
    Run1(env, back, m);
    var g := Covering(f, 22, src);
    SetExec(env, back, 14, src, m);
    SetCovers(m, 14, 8, src, 42);
    CoveringShape(f, 22, src);
    NsWrite(env, TransportHeader, 24, [1], 2, 78, m.(frame := g));
  }

  function NsAction(fwd0: nat): Rule {
    NsEdit() + (TermDup(fwd0) + NsUndo())
  }

  lemma NsActionEffect(env: Env, fwd0: nat, m: Machine)
    requires m.status == Running && NsGatesPass(m.frame) && fwd0 < 0x1_0000_0000
    requires Reg(m.regs, REG_3, 16) == m.frame[22..38]
    ensures var n := Run(env, NsAction(fwd0), m);
            n == m.(regs := n.regs, frame := Unblanked(Blanked(m.frame), m.frame[22..38]),
                    dups := m.dups + [Clone(fwd0, Blanked(m.frame))])
  {
    RunAppend(env, NsEdit(), TermDup(fwd0) + NsUndo(), m);
    NsEditEffect(env, m);
    var m1 := Run(env, NsEdit(), m);
    RunAppend(env, TermDup(fwd0), NsUndo(), m1);
    TermDupEffect(env, fwd0, m1);
    var m2 := Run(env, TermDup(fwd0), m1);
    assert Reg(m2.regs, REG_3, 16) == m2.regs[32..48] == m.regs[32..48] == Reg(m.regs, REG_3, 16);
    NsUndoEffect(env, m.frame[22..38], m2);
  }

  lemma NsRuleParts(fwd0: nat)
    ensures GuardNsDiscover(fwd0)
         == NsLinkGates() + (NsMessageGates() + (SenderGate(Fam6, 8) + NsAction(fwd0)))
  {
  }

  /** A solicitation to clone: as for eBPF, except that the first option's type byte is enough. */
  predicate NsClones(t: Tables, f: Frame) {
    NsGatesPass(f) && Src6(f) != UNSPEC6 && Src6(f) !in t.ip2mac
  }

  lemma NsTail(env: Env, fwd0: nat, m: Machine)
    requires m.status == Running && NsGatesPass(m.frame) && fwd0 < 0x1_0000_0000
    ensures var n := Run(env, SenderGate(Fam6, 8) + NsAction(fwd0), m);
            && (n.status == Running || n.status == Mismatch)
            && n == if NsClones(env.t, m.frame)
                    then m.(regs := n.regs, status := n.status, frame := Unblanked(Blanked(m.frame), m.frame[22..38]),
                            dups := m.dups + [Clone(fwd0, Blanked(m.frame))])
                    else m.(regs := n.regs, status := n.status)
  {
    SenderGateTests(env, Fam6, 8, m);
    RunAppend(env, SenderGate(Fam6, 8), NsAction(fwd0), m);
    var m1 := Run(env, SenderGate(Fam6, 8), m);
    if m1.status == Running {
      NsActionEffect(env, fwd0, m1);
    }
  }

  lemma NsRuleEffect(env: Env, fwd0: nat, m: Machine)
    requires m.status == Running && fwd0 < 0x1_0000_0000
    ensures var n := Run(env, GuardNsDiscover(fwd0), m);
            && (n.status == Running || n.status == Mismatch)
            && n == if NsClones(env.t, m.frame)
                    then m.(regs := n.regs, status := n.status, frame := Unblanked(Blanked(m.frame), m.frame[22..38]),
                            dups := m.dups + [Clone(fwd0, Blanked(m.frame))])
                    else m.(regs := n.regs, status := n.status)
  {
    NsRuleParts(fwd0);
    var tail := SenderGate(Fam6, 8) + NsAction(fwd0);
    NsLinkGatesTest(env, m);
    Gated(env, NsLinkGates(), NsMessageGates() + tail, m, NsLinkPass(m.frame));
    if NsLinkPass(m.frame) {
      var m1 := Run(env, NsLinkGates(), m);
      NsMessageGatesTest(env, m1);
      Gated(env, NsMessageGates(), tail, m1, NsGatesPass(m.frame));
      if NsGatesPass(m.frame) {
        NsTail(env, fwd0, Run(env, NsMessageGates(), m1));
      }
    }
  }

  // ---- the guard chain ----

  /** What nft's guard chain does to a frame. */
  function NftGuarded(t: Tables, hostmac: Mac, fwd0: nat, f: Frame): Outcome {
    var g: Frame := Normalized(f, hostmac);
    if DiscoversArp(t, g) then Outcome(Accept, g, [Clone(fwd0, Store(g, 28, Zeros(4)))])
    else if NsClones(t, g) then Outcome(Accept, Unblanked(Blanked(g), g[22..38]), [Clone(fwd0, Blanked(g))])
    else Outcome(Accept, g, [])
  }

  /** Past the guard and the ARP rule. */
  lemma FirstTwo(env: Env, hostmac: Mac, fwd0: nat, f: Frame) returns (m: Machine)
    requires fwd0 < 0x1_0000_0000
    ensures Chain(env, GuardRulesFwd(hostmac, fwd0), 0, [], Boot(f)) == Chain(env, GuardRulesFwd(hostmac, fwd0), 2, [], m)
    ensures m.status == Running && m.frame == Normalized(f, hostmac)
    ensures m.dups == if DiscoversArp(env.t, m.frame) then [Clone(fwd0, Store(m.frame, 28, Zeros(4)))] else []
  {
    var rules, m0 := GuardRulesFwd(hostmac, fwd0), Boot(f);
    GuardRuleEffect(env, hostmac, m0);
    Skip(env, rules, 0, [], m0);
    var m1 := Run(env, rules[0], m0).(status := Running);
    ArpRuleEffect(env, fwd0, m1);
    Skip(env, rules, 1, [], m1);
    m := Run(env, rules[1], m1).(status := Running);
  }

  /** The solicitation rule ends the chain. */
  lemma LastOne(env: Env, hostmac: Mac, fwd0: nat, m: Machine)
    requires m.status == Running && fwd0 < 0x1_0000_0000
    ensures var n := Chain(env, GuardRulesFwd(hostmac, fwd0), 2, [], m);
            && n.status == Running
            && (NsClones(env.t, m.frame) ==>
                  n.frame == Unblanked(Blanked(m.frame), m.frame[22..38]) && n.dups == m.dups + [Clone(fwd0, Blanked(m.frame))])
            && (!NsClones(env.t, m.frame) ==> n.frame == m.frame && n.dups == m.dups)
  {
    var rules := GuardRulesFwd(hostmac, fwd0);
    NsRuleEffect(env, fwd0, m);
    Skip(env, rules, 2, [], m);
    ChainEnds(env, rules, Run(env, rules[2], m).(status := Running));
  }

  lemma GuardChainEffect(env: Env, hostmac: Mac, fwd0: nat, f: Frame)
    requires fwd0 < 0x1_0000_0000
    ensures var m := Chain(env, GuardRulesFwd(hostmac, fwd0), 0, [], Boot(f));
            Outcome(Final(m), m.frame, m.dups) == NftGuarded(env.t, hostmac, fwd0, f)
  {
    var m := FirstTwo(env, hostmac, fwd0, f);
    LastOne(env, hostmac, fwd0, m);
  }

  lemma ChainEnds(env: Env, rules: seq<Rule>, m: Machine)
    ensures Chain(env, rules, |rules|, [], m) == m
  {
  }

  /** Same verdict, same number of clones to the same port, frames equal on the wire. */
  predicate SameGuard(a: Outcome, b: Outcome) {
    && a.verdict == b.verdict
    && (a.frame == b.frame || SameOnWire(a.frame, b.frame))
    && |a.clones| == |b.clones|
    && forall i | 0 <= i < |a.clones| ::
         a.clones[i].ifx == b.clones[i].ifx
         && (a.clones[i].frame == b.clones[i].frame || SameOnWire(a.clones[i].frame, b.clones[i].frame))
  }

  /** A solicitation whose first option is cut off after its type byte. */
  predicate CutOption(t: Tables, g: Frame) {
    79 <= |g| < 82 && NsClones(t, g)
  }

  lemma SameTrigger(t: Tables, g: Frame)
    ensures DiscoversNs(t, g) <==> NsClones(t, g) && !CutOption(t, g)
  {
    assert |g| >= 55 ==> Peek(g, 54, 1) == [g[54]] && Peek(g, 20, 1) == [g[20]];
  }

  lemma RestoredOnWire(conf: Conf, t: Tables, f: Frame, g: Frame)
    requires g == Normalized(f, conf.hostmac) && DiscoversNs(t, g)
    ensures SameOnWire(Guarded(conf, t, f).frame, Unblanked(Blanked(g), g[22..38]))
  {
    NsDiscoveryRestores(conf, t, f);
    UnblankedRestores(g);
    OnlyFieldDiffers(g, Guarded(conf, t, f).frame, Unblanked(Blanked(g), g[22..38]));
  }

  lemma OnlyFieldDiffers(g: Frame, a: Frame, b: Frame)
    requires Fits(g, CSUM, 2)
    requires a == if Field(g) == ALL_ONES then Store(g, CSUM, [0, 0]) else g
    requires b == if Field(g) == 0 then Store(g, CSUM, [0xff, 0xff]) else g
    ensures SameOnWire(a, b)
  {
    SameButField(b, a);
    assert b[CSUM..CSUM + 2] == Be16(Field(b)) by { assert b[CSUM..CSUM + 2] == [b[CSUM], b[CSUM + 1]]; }
    StoredThere(g, CSUM, [0, 0]);
    StoredThere(g, CSUM, [0xff, 0xff]);
  }

  lemma ArpAgrees(conf: Conf, t: Tables, f: Frame, g: Frame)
    requires g == Normalized(f, conf.hostmac) && DiscoversArp(t, g)
    ensures SameGuard(Guarded(conf, t, f), NftGuarded(t, conf.hostmac, conf.fwd0, f))
  {
    ArpDiscovery(conf, t, f);
  }

  lemma OneClone(a: Outcome, b: Outcome, ifx: nat, x: Frame, y: Frame)
    requires a.verdict == b.verdict && SameOnWire(a.frame, b.frame) && SameOnWire(x, y)
    requires a.clones == [Clone(ifx, x)] && b.clones == [Clone(ifx, y)]
    ensures SameGuard(a, b)
  {
  }

  lemma EbpfClones(conf: Conf, t: Tables, f: Frame, g: Frame)
    requires g == Normalized(f, conf.hostmac) && DiscoversNs(t, g) && !DiscoversArp(t, g)
    ensures Guarded(conf, t, f).verdict == Accept && Guarded(conf, t, f).clones == [Clone(conf.fwd0, Anonymous(g))]
  {
    var _ := NormalizedGuard(conf, f);
  }

  lemma NftClones(t: Tables, hostmac: Mac, fwd0: nat, f: Frame, g: Frame)
    requires g == Normalized(f, hostmac) && NsClones(t, g) && !DiscoversArp(t, g)
    ensures NftGuarded(t, hostmac, fwd0, f) == Outcome(Accept, Unblanked(Blanked(g), g[22..38]), [Clone(fwd0, Blanked(g))])
  {
  }

  lemma NsAgrees(conf: Conf, t: Tables, f: Frame, g: Frame)
    requires g == Normalized(f, conf.hostmac) && DiscoversNs(t, g) && NsClones(t, g) && !DiscoversArp(t, g)
    ensures SameGuard(Guarded(conf, t, f), NftGuarded(t, conf.hostmac, conf.fwd0, f))
  {
    EbpfClones(conf, t, f, g);
    NftClones(t, conf.hostmac, conf.fwd0, f, g);
    SameClone(g);
    RestoredOnWire(conf, t, f, g);
    OneClone(Guarded(conf, t, f), NftGuarded(t, conf.hostmac, conf.fwd0, f), conf.fwd0, Anonymous(g), Blanked(g));
  }

  lemma CutDiffers(conf: Conf, t: Tables, f: Frame, g: Frame)
    requires g == Normalized(f, conf.hostmac) && !DiscoversNs(t, g) && NsClones(t, g)
    ensures !SameGuard(Guarded(conf, t, f), NftGuarded(t, conf.hostmac, conf.fwd0, f))
  {
    NftClones(t, conf.hostmac, conf.fwd0, f, g);
    var _ := NormalizedGuard(conf, f);
    assert |Guarded(conf, t, f).clones| == 0;
  }

  lemma NftGuardedAgrees(conf: Conf, t: Tables, f: Frame)
    ensures SameGuard(Guarded(conf, t, f), NftGuarded(t, conf.hostmac, conf.fwd0, f))
       <==> !CutOption(t, Normalized(f, conf.hostmac))
  {
    var g := NormalizedGuard(conf, f);
    SameTrigger(t, g);
    if DiscoversArp(t, g) {
      ArpAgrees(conf, t, f, g);
    } else if DiscoversNs(t, g) {
      NsAgrees(conf, t, f, g);
    } else if CutOption(t, g) {
      CutDiffers(conf, t, f, g);
    }
  }

  /** Both engines clone the same frames on up0 egress and send the same clones and the same
      wire frame, exactly unless the frame is a solicitation whose first option is cut off after
      its type byte: only nft clones that one. */
  lemma GuardsAgreeIff(conf: Conf, env: Env, f: Frame)
    requires conf.fwd0 < 0x1_0000_0000
    ensures var m := Chain(env, GuardRulesFwd(conf.hostmac, conf.fwd0), 0, [], Boot(f));
            SameGuard(Guarded(conf, env.t, f), Outcome(Final(m), m.frame, m.dups))
            <==> !CutOption(env.t, Normalized(f, conf.hostmac))
  {
    GuardChainEffect(env, conf.hostmac, conf.fwd0, f);
    NftGuardedAgrees(conf, env.t, f);
  }
}
