/**
 nft's outbound chains on every frame (src/backend/nft/mod.rs:503-646): verdict and bytes, what
 is copied to userspace and which addresses are marked as seen.
 */
module NftOutChain {
  import opened Types
  import opened Bytes
  import opened Datapath
  import opened NftMachine
  import opened NftRules
  import opened InboundEquivalence
  import opened NftOutbound
  import opened NdEquivalence

  // ---- the rules, on every frame ----

  /** Nothing but registers moved, and the rule did not apply. */
  predicate Missed(m: Machine, n: Machine) {
    SameEffects(m, n) && n.status == Mismatch
  }

  /** What the chain has added to the copies and the marks. */
  predicate Added(m: Machine, n: Machine, copies: seq<Copy>, marks: seq<Ip>) {
    n.logs == m.logs + copies && n.marks == m.marks + marks
  }

  /** What the terminal of a rule decides. */
  function Ends(fwd: Option<nat>): Verdict {
    if fwd.Some? then Redirect(NumLe32(Le32(fwd.value))) else Accept
  }

  /** The rule let out `g` under the name of HOSTMAC, having copied and marked. */
  predicate LetOut(m: Machine, n: Machine, hostmac: Mac, fwd: Option<nat>, g: Frame, copies: seq<Copy>, marks: seq<Ip>) {
    n.status == Done(Ends(fwd)) && n.frame == Normalized(g, hostmac) && n.dups == m.dups && Added(m, n, copies, marks)
  }

  lemma TestedMisses(env: Env, gate: Rule, rest: Rule, m: Machine)
    requires Tested(m, Run(env, gate, m), false)
    ensures Missed(m, Run(env, gate + rest, m))
  {
    Gated(env, gate, rest, m, false);
  }

  lemma WriteFails(env: Env, base: Base, off: nat, v: seq<byte>, m: Machine)
    requires m.status == Running && |v| <= 16 && !LoadOk(m.frame, base, off, |v|)
    ensures Missed(m, Run(env, WriteRule(base, off, v), m))
  {
    Run2(env, Immediate(REG_1, v), PayloadSet(base, off, |v|, REG_1, None), m);
    WrittenReg(m.regs, REG_1, v);
  }

  lemma TermEnds(env: Env, fwd: Option<nat>, m: Machine)
    requires m.status == Running
    ensures var n := Run(env, Term(fwd), m); SameEffects(m, n) && n.status == Done(Ends(fwd))
  {
    if fwd.Some? {
      Run2(env, Immediate(REG_1, Le32(fwd.value)), FwdTo(REG_1), m);
      WrittenReg(m.regs, REG_1, Le32(fwd.value));
    } else {
      Run1(env, Decide(Accept), m);
    }
  }

  /** Naming HOSTMAC and terminating copies nothing. */
  lemma SealLetsOut(env: Env, hostmac: Mac, fwd: Option<nat>, m: Machine)
    requires m.status == Running
    ensures LetOut(m, Run(env, SetSrcHostmac(hostmac) + Term(fwd), m), hostmac, fwd, m.frame, [], [])
  {
    RunAppend(env, SetSrcHostmac(hostmac), Term(fwd), m);
    SetSrcEffect(env, hostmac, m);
    TermEnds(env, fwd, Run(env, SetSrcHostmac(hostmac), m));
  }

  // ---- DHCP ----

  /** The rule tests ports 68 to 67 behind either header, and writes twenty bytes in. */
  predicate DhcpHit(f: Frame) {
    L4(f).Some? && L4(f).value.0 == 17
      && var s := L4(f).value.1; Fits(f, s, 20) && f[s..s + 4] == [0x00, 0x44, 0x00, 0x43]
  }

  /** The broadcast flag set, the other BOOTP flags and the UDP checksum cleared. */
  function DhcpMarked(f: Frame): Frame
    requires DhcpHit(f)
  {
    WrittenDhcp(f, L4(f).value.1)
  }

  function WrittenDhcp(f: Frame, at: nat): Frame {
    Store(Store(f, at + 18, [0x80, 0x00]), at + 6, [0, 0])
  }

  function DhcpWrites(hostmac: Mac, term: Rule): Rule {
    WriteRule(TransportHeader, 18, [0x80, 0x00]) + (WriteRule(TransportHeader, 6, [0, 0]) + (SetSrcHostmac(hostmac) + term))
  }

  lemma DhcpWritesEffect(env: Env, hostmac: Mac, fwd: Option<nat>, m: Machine)
    requires m.status == Running && L4(m.frame).Some?
    ensures var n := Run(env, DhcpWrites(hostmac, Term(fwd)), m);
            var at := L4(m.frame).value.1;
            if Fits(m.frame, at, 20) then LetOut(m, n, hostmac, fwd, WrittenDhcp(m.frame, at), [], []) else Missed(m, n)
  {
    var w1, w2, seal := WriteRule(TransportHeader, 18, [0x80, 0x00]), WriteRule(TransportHeader, 6, [0, 0]), SetSrcHostmac(hostmac) + Term(fwd);
    RunAppend(env, w1, w2 + seal, m);
    if Fits(m.frame, L4(m.frame).value.1, 20) {
      var f, s := m.frame, L4(m.frame).value.1;
      WriteEffect(env, TransportHeader, 18, [0x80, 0x00], m);
      var m1 := Run(env, w1, m);
      StoredElsewhere(f, s + 18, [0x80, 0x00], 12, 2);
      assert L4(m1.frame) == L4(f);
      RunAppend(env, w2, seal, m1);
      WriteEffect(env, TransportHeader, 6, [0, 0], m1);
      SealLetsOut(env, hostmac, fwd, Run(env, w2, m1));
    } else {
      WriteFails(env, TransportHeader, 18, [0x80, 0x00], m);
      Stopped(env, w2 + seal, Run(env, w1, m));
    }
  }

  function DhcpTest(): Rule {
    LoadCmpRule(TransportHeader, 0, 4, true, [0x00, 0x44, 0x00, 0x43])
  }

  lemma DhcpTestEffect(env: Env, hostmac: Mac, fwd: Option<nat>, m: Machine)
    requires m.status == Running && L4(m.frame).Some? && L4(m.frame).value.0 == 17
    ensures var n := Run(env, DhcpTest() + DhcpWrites(hostmac, Term(fwd)), m);
            if DhcpHit(m.frame) then LetOut(m, n, hostmac, fwd, DhcpMarked(m.frame), [], []) else Missed(m, n)
  {
    var f, s := m.frame, L4(m.frame).value.1;
    LoadCmp(env, TransportHeader, 0, 4, true, [0x00, 0x44, 0x00, 0x43], m);
    var hit := Fits(f, s, 4) && f[s..s + 4] == [0x00, 0x44, 0x00, 0x43];
    Gated(env, DhcpTest(), DhcpWrites(hostmac, Term(fwd)), m, hit);
    if hit {
      DhcpWritesEffect(env, hostmac, fwd, Run(env, DhcpTest(), m));
    }
  }

  lemma DhcpEffect(env: Env, hostmac: Mac, fwd: Option<nat>, m: Machine)
    requires m.status == Running
    ensures var n := Run(env, DhcpRule(hostmac, Term(fwd)), m);
            if DhcpHit(m.frame) then LetOut(m, n, hostmac, fwd, DhcpMarked(m.frame), [], []) else Missed(m, n)
  {
    var isUdp := L4(m.frame).Some? && L4(m.frame).value.0 == 17;
    L4GateTests(env, 17, m);
    Gated(env, L4Gate(17), DhcpTest() + DhcpWrites(hostmac, Term(fwd)), m, isUdp);
    if isUdp {
      DhcpTestEffect(env, hostmac, fwd, Run(env, L4Gate(17), m));
    }
  }

  // ---- neighbour discovery ----

  predicate IsIcmp6(f: Frame) {
    EthType(f) == ETH_IP6 && |f| >= 54 && f[20] == 58
  }

  predicate HeadPass(f: Frame, kind: NdKind) {
    IsIcmp6(f) && |f| >= 55 && f[54] == kind.Code()
  }

  lemma AnyHeadTests(env: Env, kind: NdKind, m: Machine)
    requires m.status == Running
    ensures Tested(m, Run(env, NdHead(kind), m), HeadPass(m.frame, kind))
  {
    var f, code := m.frame, LoadCmpRule(TransportHeader, 0, 1, true, [kind.Code()]);
    EthGateTests(env, ETH_IP6, m);
    Gated(env, EthGate(ETH_IP6), L4Gate(58) + code, m, EthType(f) == ETH_IP6);
    if EthType(f) == ETH_IP6 {
      MessageTests(env, kind, Run(env, EthGate(ETH_IP6), m));
    }
  }

  lemma MessageTests(env: Env, kind: NdKind, m: Machine)
    requires m.status == Running && EthType(m.frame) == ETH_IP6
    ensures Tested(m, Run(env, L4Gate(58) + LoadCmpRule(TransportHeader, 0, 1, true, [kind.Code()]), m), HeadPass(m.frame, kind))
  {
    var f, code := m.frame, LoadCmpRule(TransportHeader, 0, 1, true, [kind.Code()]);
    L4GateTests(env, 58, m);
    Gated(env, L4Gate(58), code, m, IsIcmp6(f));
    if IsIcmp6(f) {
      LoadCmp(env, TransportHeader, 0, 1, true, [kind.Code()], Run(env, L4Gate(58), m));
      assert |f| >= 55 ==> f[54..55] == [f[54]];
    }
  }

  predicate SrcPass(f: Frame, kind: NdKind) {
    kind.ChecksSrc() && Fits(f, 22, 16) ==> f[22..38] != Zeros(16)
  }

  lemma SrcCheckTests(env: Env, kind: NdKind, m: Machine)
    requires m.status == Running && HeadPass(m.frame, kind)
    ensures Tested(m, Run(env, SrcCheck(kind), m), SrcPass(m.frame, kind))
  {
    if kind.ChecksSrc() {
      LoadCmp(env, NetworkHeader, 8, 16, false, Zeros(16), m);
    }
  }

  predicate OptionPass(f: Frame, kind: NdKind, hostmac: Mac) {
    Fits(f, OptAt(kind), 8) && f[OptAt(kind)] == kind.OptType() && f[OptAt(kind) + 2..OptAt(kind) + 8] != hostmac
  }

  lemma BodyMisses(env: Env, hostmac: Mac, kind: NdKind, m: Machine)
    requires m.status == Running && HeadPass(m.frame, kind) && !OptionPass(m.frame, kind, hostmac)
    ensures Missed(m, Run(env, NdBody(hostmac, kind), m))
  {
    var f, off := m.frame, OptAt(kind);
    var opt := LoadCmpRule(TransportHeader, kind.Opt(), 1, true, [kind.OptType()]);
    var lla := LoadCmpRule(TransportHeader, kind.Opt() + 2, 6, false, hostmac);
    LoadCmp(env, TransportHeader, kind.Opt(), 1, true, [kind.OptType()], m);
    var typed := Fits(f, off, 1) && f[off] == kind.OptType();
    assert Fits(f, off, 1) ==> f[off..off + 1] == [f[off]];
    Gated(env, opt, lla + NdAction(hostmac, kind), m, typed);
    if typed {
      var m1 := Run(env, opt, m);
      LoadCmp(env, TransportHeader, kind.Opt() + 2, 6, false, hostmac, m1);
      TestedMisses(env, lla, NdAction(hostmac, kind), m1);
    }
  }

  /** The frame taken up by the rule of its kind, or passed on. */
  lemma NdRuleEffect(env: Env, hostmac: Mac, kind: NdKind, m: Machine)
    requires m.status == Running
    ensures var n := Run(env, NdOutRule(hostmac, kind), m);
            if NdMatches(m.frame, kind, hostmac) then TakenUp(m, n, Store(m.frame, OptAt(kind) + 2, hostmac)) else Missed(m, n)
  {
    var f := m.frame;
    NdRuleParts(hostmac, kind);
    AnyHeadTests(env, kind, m);
    Gated(env, NdHead(kind), SrcCheck(kind) + NdBody(hostmac, kind), m, HeadPass(f, kind));
    if HeadPass(f, kind) {
      var m1 := Run(env, NdHead(kind), m);
      SrcCheckTests(env, kind, m1);
      Gated(env, SrcCheck(kind), NdBody(hostmac, kind), m1, SrcPass(f, kind));
      if SrcPass(f, kind) {
        if OptionPass(f, kind, hostmac) {
          BodyTakes(env, hostmac, kind, Run(env, SrcCheck(kind), m1));
        } else {
          BodyMisses(env, hostmac, kind, Run(env, SrcCheck(kind), m1));
        }
      }
    }
  }

  lemma BodyTakes(env: Env, hostmac: Mac, kind: NdKind, m: Machine)
    requires m.status == Running && NdMatches(m.frame, kind, hostmac)
    ensures TakenUp(m, Run(env, NdBody(hostmac, kind), m), Store(m.frame, OptAt(kind) + 2, hostmac))
  {
    NdBodyEffect(env, hostmac, kind, m);
    StoredElsewhere(m.frame, OptAt(kind) + 2, hostmac, 22, 16);
  }

  /** The kind that takes the frame up, if one does. */
  function NdKindOf(f: Frame, hostmac: Mac): Option<NdKind> {
    if NdMatches(f, Ns, hostmac) then Some(Ns)
    else if NdMatches(f, Na, hostmac) then Some(Na)
    else if NdMatches(f, Rs, hostmac) then Some(Rs)
    else None
  }

  lemma OnlyKind(f: Frame, kind: NdKind, hostmac: Mac)
    requires NdMatches(f, kind, hostmac)
    ensures NdKindOf(f, hostmac) == Some(kind)
  {
  }

  lemma NdSubEffect(env: Env, hostmac: Mac, m: Machine)
    requires m.status == Running
    ensures var n, kind := Chain(env, NdOutRules(hostmac), 0, [], m), NdKindOf(m.frame, hostmac);
            if kind.Some? then TakenUp(m, n, Store(m.frame, OptAt(kind.value) + 2, hostmac)) else Quiet(m, n)
  {
    var rules := NdOutRules(hostmac);
    NdRuleEffect(env, hostmac, Ns, m);
    if NdMatches(m.frame, Ns, hostmac) {
      Take(env, rules, 0, [], m);
    } else {
      Skip(env, rules, 0, [], m);
      NdSubNext(env, hostmac, Run(env, rules[0], m).(status := Running));
    }
  }

  lemma NdSubNext(env: Env, hostmac: Mac, m: Machine)
    requires m.status == Running
    ensures var n, na := Chain(env, NdOutRules(hostmac), 1, [], m), NdMatches(m.frame, Na, hostmac);
            if na || NdMatches(m.frame, Rs, hostmac)
            then TakenUp(m, n, Store(m.frame, OptAt(if na then Na else Rs) + 2, hostmac)) else Quiet(m, n)
  {
    var rules := NdOutRules(hostmac);
    NdRuleEffect(env, hostmac, Na, m);
    if NdMatches(m.frame, Na, hostmac) {
      Take(env, rules, 1, [], m);
    } else {
      Skip(env, rules, 1, [], m);
      NdSubLast(env, hostmac, Run(env, rules[1], m).(status := Running));
    }
  }

  lemma NdSubLast(env: Env, hostmac: Mac, m: Machine)
    requires m.status == Running
    ensures var n := Chain(env, NdOutRules(hostmac), 2, [], m);
            if NdMatches(m.frame, Rs, hostmac) then TakenUp(m, n, Store(m.frame, OptAt(Rs) + 2, hostmac)) else Quiet(m, n)
  {
    var rules := NdOutRules(hostmac);
    NdRuleEffect(env, hostmac, Rs, m);
    if NdMatches(m.frame, Rs, hostmac) {
      Take(env, rules, 2, [], m);
    } else {
      Skip(env, rules, 2, [], m);
    }
  }

  lemma DispatchEffect(env: Env, hostmac: Mac, m: Machine)
    requires m.status == Running
    ensures var n, kind := AfterRule(env, NdDispatch(), NdOutRules(hostmac), m), NdKindOf(m.frame, hostmac);
            if kind.Some? then TakenUp(m, n, Store(m.frame, OptAt(kind.value) + 2, hostmac)) else Quiet(m, n)
  {
    var f := m.frame;
    if IsIcmp6(f) {
      DispatchJumps(env, m);
      NdSubEffect(env, hostmac, Run(env, NdDispatch(), m).(status := Running));
    } else {
      EthGateTests(env, ETH_IP6, m);
      Gated(env, EthGate(ETH_IP6), L4Gate(58) + [Jump], m, EthType(f) == ETH_IP6);
      if EthType(f) == ETH_IP6 {
        var m1 := Run(env, EthGate(ETH_IP6), m);
        L4GateTests(env, 58, m1);
        TestedMisses(env, L4Gate(58), [Jump], m1);
      }
    }
  }

  // ---- known sources ----

  function ValidKey(f: Frame, fam: Family): Option<(Ip, Mac)> {
    var ip := NetAddr(f, fam, SaddrOff(fam));
    if EthType(f) == EthOf(fam) && ip.Some? then Some((ip.value, Src(f))) else None
  }

  predicate ValidHit(env: Env, f: Frame, fam: Family) {
    ValidKey(f, fam).Some? && ValidKey(f, fam).value in env.valid
  }

  function MacReg(fam: Family): nat {
    if fam == Fam4 then REG32_01 else REG_2
  }

  /** Address and mac side by side in the registers are the concatenated key. */
  lemma KeyInRegs(env: Env, fam: Family, regs: Regs, a: seq<byte>, mac: Mac)
    requires |a| == AddrLen(fam)
    ensures var r := Written(Written(regs, REG_1, a), MacReg(fam), mac);
            Member(env, Valid(fam), r, REG_1) <==> (IpOf(fam, a), mac) in env.valid
  {
    var n := AddrLen(fam);
    var r0 := Written(regs, REG_1, a);
    var r := Written(r0, MacReg(fam), mac);
    var pad: seq<byte> := [0, 0];
    assert Padded(a) == a && Padded(mac) == mac + pad;
    StoredThere(regs, 0, a);
    StoredThere(r0, n, mac + pad);
    StoredElsewhere(r0, n, mac + pad, 0, n);
    KeyParts(r, n, a, mac, pad);
  }

  lemma KeyParts(r: Regs, n: nat, a: seq<byte>, mac: Mac, pad: seq<byte>)
    requires n + 8 <= 64 && |a| == n && |pad| == 2 && r[0..n] == a && r[n..n + 8] == mac + pad
    ensures Reg(r, REG_1, n) == a
    ensures var key := Reg(r, REG_1, n + 8); key[n..n + 6] == mac && key[n + 6..] == pad
  {
    var key := r[0..n + 8];
    assert key == a + (mac + pad) by { assert key == r[0..n] + r[n..n + 8]; }
  }

  function ValidLookup(fam: Family): Rule {
    [PayloadLoad(NetworkHeader, SaddrOff(fam), AddrLen(fam), REG_1), PayloadLoad(LinkHeader, 6, 6, MacReg(fam)),
     Lookup(Valid(fam), REG_1, None)]
  }

  function ValidAction(fam: Family, hostmac: Mac, term: Rule): Rule {
    [PayloadLoad(NetworkHeader, SaddrOff(fam), AddrLen(fam), REG_1), DynsetUpdate(Seen(fam), REG_1)]
      + (SetSrcHostmac(hostmac) + term)
  }

  lemma MacThenLookup(env: Env, fam: Family, a: seq<byte>, m: Machine)
    requires m.status == Running && |a| == AddrLen(fam)
    ensures var m1 := m.(regs := Written(m.regs, REG_1, a));
            var n := Run(env, [PayloadLoad(LinkHeader, 6, 6, MacReg(fam)), Lookup(Valid(fam), REG_1, None)], m1);
            SameEffects(m, n) && n.status == if (IpOf(fam, a), Src(m.frame)) in env.valid then Running else Mismatch
  {
    var lm, lk := PayloadLoad(LinkHeader, 6, 6, MacReg(fam)), Lookup(Valid(fam), REG_1, None);
    var m1 := m.(regs := Written(m.regs, REG_1, a));
    var m2 := m1.(regs := Written(m1.regs, MacReg(fam), Src(m.frame)));
    assert Exec(env, lm, m1) == m2;
    Run2(env, lm, lk, m1);
    KeyInRegs(env, fam, m.regs, a, Src(m.frame));
  }

  lemma AddrLoads(env: Env, fam: Family, m: Machine)
    ensures var off, len := SaddrOff(fam), AddrLen(fam);
            Exec(env, PayloadLoad(NetworkHeader, off, len, REG_1), m)
            == if Fits(m.frame, 14 + off, len) then m.(regs := Written(m.regs, REG_1, m.frame[14 + off..14 + off + len]))
               else m.(status := Mismatch)
  {
  }

  lemma ValidLookupRuns(env: Env, fam: Family, m: Machine)
    requires m.status == Running
    ensures var off, len := SaddrOff(fam), AddrLen(fam);
            Run(env, ValidLookup(fam), m)
            == if Fits(m.frame, 14 + off, len)
               then Run(env, [PayloadLoad(LinkHeader, 6, 6, MacReg(fam)), Lookup(Valid(fam), REG_1, None)],
                        m.(regs := Written(m.regs, REG_1, m.frame[14 + off..14 + off + len])))
               else m.(status := Mismatch)
  {
    var la := PayloadLoad(NetworkHeader, SaddrOff(fam), AddrLen(fam), REG_1);
    var rest := [PayloadLoad(LinkHeader, 6, 6, MacReg(fam)), Lookup(Valid(fam), REG_1, None)];
    assert ValidLookup(fam) == [la] + rest;
    RunAppend(env, [la], rest, m);
    Run1(env, la, m);
    AddrLoads(env, fam, m);
    if !Fits(m.frame, 14 + SaddrOff(fam), AddrLen(fam)) {
      Stopped(env, rest, Exec(env, la, m));
    }
  }

  lemma ValidLookupTests(env: Env, fam: Family, m: Machine)
    requires m.status == Running && EthType(m.frame) == EthOf(fam)
    ensures var n := Run(env, ValidLookup(fam), m);
            SameEffects(m, n) && n.status == if ValidHit(env, m.frame, fam) then Running else Mismatch
  {
    var off, len := SaddrOff(fam), AddrLen(fam);
    ValidLookupRuns(env, fam, m);
    ValidHitIs(env, m.frame, fam);
    if Fits(m.frame, 14 + off, len) {
      MacThenLookup(env, fam, m.frame[14 + off..14 + off + len], m);
    }
  }

  lemma ValidHitIs(env: Env, f: Frame, fam: Family)
    requires EthType(f) == EthOf(fam)
    ensures var off, len := SaddrOff(fam), AddrLen(fam);
            ValidHit(env, f, fam) <==> Fits(f, 14 + off, len) && (IpOf(fam, f[14 + off..14 + off + len]), Src(f)) in env.valid
  {
  }

  lemma ValidActionMarks(env: Env, fam: Family, hostmac: Mac, fwd: Option<nat>, m: Machine)
    requires m.status == Running && ValidKey(m.frame, fam).Some?
    ensures LetOut(m, Run(env, ValidAction(fam, hostmac, Term(fwd)), m), hostmac, fwd, m.frame, [], [ValidKey(m.frame, fam).value.0])
  {
    var load, mark := PayloadLoad(NetworkHeader, SaddrOff(fam), AddrLen(fam), REG_1), DynsetUpdate(Seen(fam), REG_1);
    RunAppend(env, [load, mark], SetSrcHostmac(hostmac) + Term(fwd), m);
    Run2(env, load, mark, m);
    LoadAddr(env, fam, SaddrOff(fam), m);
    SealLetsOut(env, hostmac, fwd, Run(env, [load, mark], m));
  }

  lemma ValidEffect(env: Env, fam: Family, hostmac: Mac, fwd: Option<nat>, m: Machine)
    requires m.status == Running
    ensures var n := Run(env, ValidRule(fam, hostmac, Term(fwd)), m);
            if ValidHit(env, m.frame, fam) then LetOut(m, n, hostmac, fwd, m.frame, [], [ValidKey(m.frame, fam).value.0])
            else Missed(m, n)
  {
    var rest := ValidLookup(fam) + ValidAction(fam, hostmac, Term(fwd));
    assert ValidRule(fam, hostmac, Term(fwd)) == EthGate(EthOf(fam)) + rest;
    EthGateTests(env, EthOf(fam), m);
    Gated(env, EthGate(EthOf(fam)), rest, m, EthType(m.frame) == EthOf(fam));
    if EthType(m.frame) == EthOf(fam) {
      var m1 := Run(env, EthGate(EthOf(fam)), m);
      ValidLookupTests(env, fam, m1);
      RunAppend(env, ValidLookup(fam), ValidAction(fam, hostmac, Term(fwd)), m1);
      var m2 := Run(env, ValidLookup(fam), m1);
      if ValidHit(env, m.frame, fam) {
        ValidActionMarks(env, fam, hostmac, fwd, m2);
      } else {
        Stopped(env, ValidAction(fam, hostmac, Term(fwd)), m2);
      }
    }
  }

  // ---- ARP and the rest ----

  /** The sender hardware address named HOSTMAC, when the frame holds one. */
  function ArpNamed(f: Frame, hostmac: Mac): Frame {
    if EthType(f) == ETH_ARP then Store(f, 22, hostmac) else f
  }

  function ArpCopy(hostmac: Mac, term: Rule): Rule {
    [PayloadLoad(NetworkHeader, 14, 4, REG_1), DynsetUpdate(Seen(Fam4), REG_1), Log('L')] + (SetSrcHostmac(hostmac) + term)
  }

  lemma LogThenSeal(env: Env, hostmac: Mac, fwd: Option<nat>, m: Machine)
    requires m.status == Running
    ensures var n := Run(env, [Log('L')] + (SetSrcHostmac(hostmac) + Term(fwd)), m);
            LetOut(m, n, hostmac, fwd, m.frame, [Copy('L', m.frame)], [])
  {
    RunAppend(env, [Log('L')], SetSrcHostmac(hostmac) + Term(fwd), m);
    Run1(env, Log('L'), m);
    SealLetsOut(env, hostmac, fwd, Exec(env, Log('L'), m));
  }

  lemma ArpCopyEffect(env: Env, hostmac: Mac, fwd: Option<nat>, m: Machine)
    requires m.status == Running
    ensures var n := Run(env, ArpCopy(hostmac, Term(fwd)), m);
            if Fits(m.frame, 28, 4) then LetOut(m, n, hostmac, fwd, m.frame, [Copy('L', m.frame)], [Spa(m.frame)])
            else Missed(m, n)
  {
    var load, mark := PayloadLoad(NetworkHeader, 14, 4, REG_1), DynsetUpdate(Seen(Fam4), REG_1);
    var rest := [Log('L')] + (SetSrcHostmac(hostmac) + Term(fwd));
    assert ArpCopy(hostmac, Term(fwd)) == [load, mark] + rest;
    RunAppend(env, [load, mark], rest, m);
    Run2(env, load, mark, m);
    LoadAddr(env, Fam4, 14, m);
    if Fits(m.frame, 28, 4) {
      LogThenSeal(env, hostmac, fwd, Run(env, [load, mark], m));
    } else {
      Stopped(env, rest, Run(env, [load, mark], m));
    }
  }

  lemma SameSpa(f: Frame, hostmac: Mac)
    ensures Spa(Store(f, 22, hostmac)) == Spa(f)
  {
    if Fits(f, 28, 4) {
      StoredElsewhere(f, 22, hostmac, 28, 4);
    }
  }

  /** A whole ARP frame is copied; a short one goes on, its sender already named. */
  lemma ArpEffect(env: Env, hostmac: Mac, fwd: Option<nat>, m: Machine)
    requires m.status == Running
    ensures var n := Run(env, ArpOutRule(hostmac, Term(fwd)), m);
            if EthType(m.frame) == ETH_ARP && Fits(m.frame, 28, 4)
            then LetOut(m, n, hostmac, fwd, ArpNamed(m.frame, hostmac), [Copy('L', ArpNamed(m.frame, hostmac))], [Spa(m.frame)])
            else n.status == Mismatch && Added(m, n, [], []) && n.frame == ArpNamed(m.frame, hostmac) && n.dups == m.dups
  {
    var f, write, rest := m.frame, WriteRule(NetworkHeader, 8, hostmac), ArpCopy(hostmac, Term(fwd));
    assert ArpOutRule(hostmac, Term(fwd)) == EthGate(ETH_ARP) + (write + rest);
    EthGateTests(env, ETH_ARP, m);
    Gated(env, EthGate(ETH_ARP), write + rest, m, EthType(f) == ETH_ARP);
    if EthType(f) == ETH_ARP {
      var m1 := Run(env, EthGate(ETH_ARP), m);
      RunAppend(env, write, rest, m1);
      if Fits(f, 22, 6) {
        WriteEffect(env, NetworkHeader, 8, hostmac, m1);
        SameSpa(f, hostmac);
        ArpCopyEffect(env, hostmac, fwd, Run(env, write, m1));
      } else {
        WriteFails(env, NetworkHeader, 8, hostmac, m1);
        Stopped(env, rest, Run(env, write, m1));
      }
    }
  }

  // ---- the chain ----

  /** The copies nft makes of an outgoing frame that is not dropped at once. */
  function Copies(env: Env, hostmac: Mac, f: Frame): seq<Copy> {
    var kind := NdKindOf(f, hostmac);
    if DhcpHit(f) then []
    else if kind.Some? then [Copy('R', Store(f, OptAt(kind.value) + 2, hostmac))]
    else if ValidHit(env, f, Fam4) || ValidHit(env, f, Fam6) then []
    else [Copy('L', ArpNamed(f, hostmac))]
  }

  /** The frame it lets out, before it is named. */
  function Outgoing(f: Frame, hostmac: Mac): Frame {
    if DhcpHit(f) then DhcpMarked(f) else ArpNamed(f, hostmac)
  }

  /** The addresses it marks. */
  function SeenIn(env: Env, hostmac: Mac, f: Frame): seq<Ip> {
    if DhcpHit(f) then []
    else if NdKindOf(f, hostmac).Some? then [Src6(f)]
    else if ValidHit(env, f, Fam4) || ValidHit(env, f, Fam6) then
      [if EthType(f) == ETH_IP4 then Src4(f) else Src6(f)]
    else if EthType(f) == ETH_ARP && Fits(f, 28, 4) then [Spa(f)]
    else []
  }

  /** The rule list from `i` on is the common tail. */
  predicate TailAt(rules: seq<Rule>, i: nat, hostmac: Mac, fwd: Option<nat>) {
    && |rules| == i + 6
    && rules[i] == DhcpRule(hostmac, Term(fwd)) && rules[i + 1] == NdDispatch()
    && rules[i + 2] == ValidRule(Fam4, hostmac, Term(fwd)) && rules[i + 3] == ValidRule(Fam6, hostmac, Term(fwd))
    && rules[i + 4] == ArpOutRule(hostmac, Term(fwd)) && rules[i + 5] == ElseOutRule(hostmac, Term(fwd))
  }

  /** Arp and else: exactly one copy. */
  lemma LastTwo(env: Env, hostmac: Mac, fwd: Option<nat>, rules: seq<Rule>, i: nat, m: Machine)
    requires TailAt(rules, i, hostmac, fwd) && m.status == Running
    ensures LetOut(m, Chain(env, rules, i + 4, NdOutRules(hostmac), m), hostmac, fwd, ArpNamed(m.frame, hostmac),
                   [Copy('L', ArpNamed(m.frame, hostmac))],
                   if EthType(m.frame) == ETH_ARP && Fits(m.frame, 28, 4) then [Spa(m.frame)] else [])
  {
    var sub, f := NdOutRules(hostmac), m.frame;
    ArpEffect(env, hostmac, fwd, m);
    if EthType(f) == ETH_ARP && Fits(f, 28, 4) {
      Take(env, rules, i + 4, sub, m);
    } else {
      Skip(env, rules, i + 4, sub, m);
      var m1 := Run(env, rules[i + 4], m).(status := Running);
      LogThenSeal(env, hostmac, fwd, m1);
      Take(env, rules, i + 5, sub, m1);
    }
  }

  lemma ValidTwo(env: Env, hostmac: Mac, fwd: Option<nat>, rules: seq<Rule>, i: nat, m: Machine)
    requires TailAt(rules, i, hostmac, fwd) && m.status == Running
    requires !DhcpHit(m.frame) && NdKindOf(m.frame, hostmac).None?
    ensures LetOut(m, Chain(env, rules, i + 2, NdOutRules(hostmac), m), hostmac, fwd, Outgoing(m.frame, hostmac),
                   Copies(env, hostmac, m.frame), SeenIn(env, hostmac, m.frame))
  {
    var sub := NdOutRules(hostmac);
    ValidEffect(env, Fam4, hostmac, fwd, m);
    if ValidHit(env, m.frame, Fam4) {
      Take(env, rules, i + 2, sub, m);
    } else {
      Skip(env, rules, i + 2, sub, m);
      var m1 := Run(env, rules[i + 2], m).(status := Running);
      ValidEffect(env, Fam6, hostmac, fwd, m1);
      if ValidHit(env, m.frame, Fam6) {
        Take(env, rules, i + 3, sub, m1);
      } else {
        Skip(env, rules, i + 3, sub, m1);
        LastTwo(env, hostmac, fwd, rules, i, Run(env, rules[i + 3], m1).(status := Running));
      }
    }
  }

  lemma TailEffect(env: Env, hostmac: Mac, fwd: Option<nat>, rules: seq<Rule>, i: nat, m: Machine)
    requires TailAt(rules, i, hostmac, fwd) && m.status == Running
    ensures var n, kind := Chain(env, rules, i, NdOutRules(hostmac), m), NdKindOf(m.frame, hostmac);
            && Added(m, n, Copies(env, hostmac, m.frame), SeenIn(env, hostmac, m.frame))
            && if kind.Some? then TakenUp(m, n, Store(m.frame, OptAt(kind.value) + 2, hostmac))
               else LetOut(m, n, hostmac, fwd, Outgoing(m.frame, hostmac),
                           Copies(env, hostmac, m.frame), SeenIn(env, hostmac, m.frame))
  {
    var sub := NdOutRules(hostmac);
    DhcpEffect(env, hostmac, fwd, m);
    if DhcpHit(m.frame) {
      Take(env, rules, i, sub, m);
    } else {
      Skip(env, rules, i, sub, m);
      var m1 := Run(env, rules[i], m).(status := Running);
      DispatchEffect(env, hostmac, m1);
      ChainUnfold(env, rules, i + 1, sub, m1);
      if NdKindOf(m.frame, hostmac).None? {
        ValidTwo(env, hostmac, fwd, rules, i, AfterRule(env, rules[i + 1], sub, m1));
      } else {
        KindSource(m.frame, hostmac);
      }
    }
  }

  /** The source survives the rewritten option. */
  lemma KindSource(f: Frame, hostmac: Mac)
    requires NdKindOf(f, hostmac).Some?
    ensures Src6(Store(f, OptAt(NdKindOf(f, hostmac).value) + 2, hostmac)) == Src6(f)
  {
    StoredElsewhere(f, OptAt(NdKindOf(f, hostmac).value) + 2, hostmac, 22, 16);
  }

  lemma FwdTail(hostmac: Mac, brmac: Option<Mac>, up0: nat)
    ensures TailAt(OutRulesFwd(hostmac, brmac, up0), if brmac.Some? then 2 else 1, hostmac, Some(up0))
  {
    var rules, tail := OutRulesFwd(hostmac, brmac, up0), OutTail(hostmac, TermFwd(up0));
    var i := if brmac.Some? then 2 else 1;
    assert rules[i..] == tail;
    assert forall j | 0 <= j < 6 :: rules[i + j] == tail[j];
  }

  lemma DirectTail(hostmac: Mac)
    ensures TailAt(OutRulesDirect(hostmac), 1, hostmac, None)
  {
    var rules, tail := OutRulesDirect(hostmac), OutTail(hostmac, TermAccept());
    assert rules[1..] == tail;
    assert forall j | 0 <= j < 6 :: rules[1 + j] == tail[j];
  }

  /** Frames stopped before they are looked at: the host's own and, in fwd mode, the bridge's. */
  predicate HeldBack(conf: Conf, f: Frame, direct: bool) {
    Src(f) == conf.hostmac || (!direct && conf.brmac == Some(Src(f)))
  }

  /** What a chain started afresh does with a frame: held back it is left alone, taken up it is
      dropped, and otherwise it is let out. */
  predicate ChainEffect(conf: Conf, env: Env, f: Frame, direct: bool, n: Machine) {
    && n.logs == (if HeldBack(conf, f, direct) then [] else Copies(env, conf.hostmac, f))
    && n.marks == (if HeldBack(conf, f, direct) then [] else SeenIn(env, conf.hostmac, f))
    && n.dups == []
    && var kind := NdKindOf(f, conf.hostmac);
       if HeldBack(conf, f, direct) then n.status == Done(if direct then Accept else Drop) && n.frame == f
       else if kind.Some? then TakenUp(Boot(f), n, Store(f, OptAt(kind.value) + 2, conf.hostmac))
       else
         && n.status == Done(Ends(if direct then None else Some(conf.up0)))
         && n.frame == Normalized(Outgoing(f, conf.hostmac), conf.hostmac)
  }

  lemma FwdEffect(conf: Conf, env: Env, f: Frame)
    ensures ChainEffect(conf, env, f, false,
                        Chain(env, OutRulesFwd(conf.hostmac, conf.brmac, conf.up0), 0, NdOutRules(conf.hostmac), Boot(f)))
  {
    var rules, sub := OutRulesFwd(conf.hostmac, conf.brmac, conf.up0), NdOutRules(conf.hostmac);
    FwdRuleParts(conf.hostmac, conf.brmac, conf.up0);
    if HeldBack(conf, f, false) {
      DropSrcEffect(env, conf.hostmac, Boot(f));
      if Src(f) == conf.hostmac {
        Take(env, rules, 0, sub, Boot(f));
      } else {
        Skip(env, rules, 0, sub, Boot(f));
        var m1 := Run(env, rules[0], Boot(f)).(status := Running);
        DropSrcEffect(env, conf.brmac.value, m1);
        Take(env, rules, 1, sub, m1);
      }
    } else {
      var i := if conf.brmac.Some? then 2 else 1;
      var n := FwdDropsMiss(env, conf.hostmac, conf.brmac, conf.up0, Boot(f));
      FwdTail(conf.hostmac, conf.brmac, conf.up0);
      TailEffect(env, conf.hostmac, Some(conf.up0), rules, i, n);
    }
  }

  lemma DirectEffect(conf: Conf, env: Env, f: Frame)
    ensures ChainEffect(conf, env, f, true,
                        Chain(env, OutRulesDirect(conf.hostmac), 0, NdOutRules(conf.hostmac), Boot(f)))
  {
    var rules, sub := OutRulesDirect(conf.hostmac), NdOutRules(conf.hostmac);
    var first := LoadCmpRule(LinkHeader, 6, 6, true, conf.hostmac);
    LoadCmp(env, LinkHeader, 6, 6, true, conf.hostmac, Boot(f));
    Decides(env, first, Accept, Boot(f), Src(f) == conf.hostmac);
    if Src(f) == conf.hostmac {
      Take(env, rules, 0, sub, Boot(f));
    } else {
      Skip(env, rules, 0, sub, Boot(f));
      DirectTail(conf.hostmac);
      TailEffect(env, conf.hostmac, None, rules, 1, Run(env, rules[0], Boot(f)).(status := Running));
    }
  }
}
