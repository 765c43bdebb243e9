/**
 Neighbour discovery out of the two engines. nft rewrites the option, drops the frame and
 hands a copy to userspace, which recomputes the checksum and sends it again; eBPF rewrites in
 place and adjusts the checksum. The same frame reaches the wire, up to the two zeros of
 one's complement.
 */
module NdEquivalence {
  import opened Types
  import opened Bytes
  import opened Checksum
  import opened Packet
  import opened Datapath
  import opened DatapathProperties
  import opened NftMachine
  import opened NftRules
  import opened InboundEquivalence

  /** Frame offset of the first option. */
  function OptAt(kind: NdKind): nat {
    54 + kind.Opt()
  }

  /** An ND message of this kind whose first option names someone other than HOSTMAC. */
  predicate NdMatches(f: Frame, kind: NdKind, hostmac: Mac) {
    && EthType(f) == ETH_IP6 && |f| >= 54 && f[20] == 58
    && Fits(f, OptAt(kind), 8)
    && f[54] == kind.Code()
    && (kind.ChecksSrc() ==> f[22..38] != Zeros(16))
    && f[OptAt(kind)] == kind.OptType()
    && f[OptAt(kind) + 2..OptAt(kind) + 8] != hostmac
  }

  // ---- the nd_out rule ----

  function NdAction(hostmac: Mac, kind: NdKind): Rule {
    WriteRule(TransportHeader, kind.Opt() + 2, hostmac)
      + ([PayloadLoad(NetworkHeader, 8, 16, REG_1), DynsetUpdate(Seen(Fam6), REG_1)]
        + ([Log('R')] + [Decide(Drop)]))
  }

  lemma MarkCopyDrop(env: Env, m: Machine)
    requires m.status == Running && Fits(m.frame, 22, 16)
    ensures var n := Run(env, [PayloadLoad(NetworkHeader, 8, 16, REG_1), DynsetUpdate(Seen(Fam6), REG_1)]
                              + ([Log('R')] + [Decide(Drop)]), m);
            n == m.(regs := n.regs, status := Done(Drop),
                    logs := m.logs + [Copy('R', m.frame)], marks := m.marks + [V6(m.frame[22..38])])
  {
    var load, mark := PayloadLoad(NetworkHeader, 8, 16, REG_1), DynsetUpdate(Seen(Fam6), REG_1);
    RunAppend(env, [load, mark], [Log('R')] + [Decide(Drop)], m);
    Run2(env, load, mark, m);
    LoadAddr(env, Fam6, 8, m);
    var m2 := Run(env, [load, mark], m);
    RunAppend(env, [Log('R')], [Decide(Drop)], m2);
    Run1(env, Log('R'), m2);
    Run1(env, Decide(Drop), Exec(env, Log('R'), m2));
  }

  lemma NdActionEffect(env: Env, hostmac: Mac, kind: NdKind, m: Machine)
    requires m.status == Running && NdMatches(m.frame, kind, hostmac)
    ensures var n := Run(env, NdAction(hostmac, kind), m);
            var g: Frame := Store(m.frame, OptAt(kind) + 2, hostmac);
            n == m.(frame := g, regs := n.regs, status := Done(Drop),
                    logs := m.logs + [Copy('R', g)], marks := m.marks + [V6(m.frame[22..38])])
  {
    var write := WriteRule(TransportHeader, kind.Opt() + 2, hostmac);
    var rest := [PayloadLoad(NetworkHeader, 8, 16, REG_1), DynsetUpdate(Seen(Fam6), REG_1)] + ([Log('R')] + [Decide(Drop)]);
    RunAppend(env, write, rest, m);
    assert L4(m.frame) == Some((58, 54));
    WriteEffect(env, TransportHeader, kind.Opt() + 2, hostmac, m);
    StoredElsewhere(m.frame, OptAt(kind) + 2, hostmac, 22, 16);
    MarkCopyDrop(env, Run(env, write, m));
  }

  /** An immediate written into the payload. */
  lemma WriteEffect(env: Env, base: Base, off: nat, v: seq<byte>, m: Machine)
    requires m.status == Running && |v| <= 16 && LoadOk(m.frame, base, off, |v|)
    ensures var n := Run(env, WriteRule(base, off, v), m);
            && n == m.(regs := n.regs, frame := Store(m.frame, Start(m.frame, base).value + off, v))
            && n.regs[32..48] == m.regs[32..48]
  {
    WriteRuns(env, base, off, v, m, Start(m.frame, base).value);
    WrittenReg(m.regs, REG_1, v);
  }

  lemma WriteRuns(env: Env, base: Base, off: nat, v: seq<byte>, m: Machine, start: nat)
    requires m.status == Running && |v| <= 16 && Start(m.frame, base) == Some(start) && Fits(m.frame, start + off, |v|)
    ensures Run(env, WriteRule(base, off, v), m)
         == m.(regs := Written(m.regs, REG_1, v), frame := Store(m.frame, start + off, v))
  {
    var write, m1 := PayloadSet(base, off, |v|, REG_1, None), m.(regs := Written(m.regs, REG_1, v));
    Run2(env, Immediate(REG_1, v), write, m);
    assert Exec(env, Immediate(REG_1, v), m) == m1;
    assert Exec(env, write, m1) == ExecSet(m1, Some(start), off, v, None) by {
      WrittenReg(m.regs, REG_1, v);
      SetExec(env, write, start, v, m1);
    }
    PlainSet(m1, start, off, v);
  }

  lemma PlainSet(m: Machine, start: nat, off: nat, v: seq<byte>)
    requires Fits(m.frame, start + off, |v|)
    ensures ExecSet(m, Some(start), off, v, None) == m.(frame := Store(m.frame, start + off, v))
  {
  }

  function NdHead(kind: NdKind): Rule {
    EthGate(ETH_IP6) + (L4Gate(58) + LoadCmpRule(TransportHeader, 0, 1, true, [kind.Code()]))
  }

  function NdBody(hostmac: Mac, kind: NdKind): Rule {
    LoadCmpRule(TransportHeader, kind.Opt(), 1, true, [kind.OptType()])
      + (LoadCmpRule(TransportHeader, kind.Opt() + 2, 6, false, hostmac) + NdAction(hostmac, kind))
  }

  function SrcCheck(kind: NdKind): Rule {
    if kind.ChecksSrc() then LoadCmpRule(NetworkHeader, 8, 16, false, Zeros(16)) else []
  }

  lemma NdRuleParts(hostmac: Mac, kind: NdKind)
    ensures NdOutRule(hostmac, kind) == NdHead(kind) + (SrcCheck(kind) + NdBody(hostmac, kind))
  {
  }

  lemma NdBodyEffect(env: Env, hostmac: Mac, kind: NdKind, m: Machine)
    requires m.status == Running && NdMatches(m.frame, kind, hostmac)
    ensures var n := Run(env, NdBody(hostmac, kind), m);
            var g: Frame := Store(m.frame, OptAt(kind) + 2, hostmac);
            n == m.(frame := g, regs := n.regs, status := Done(Drop),
                    logs := m.logs + [Copy('R', g)], marks := m.marks + [V6(m.frame[22..38])])
  {
    var opt := LoadCmpRule(TransportHeader, kind.Opt(), 1, true, [kind.OptType()]);
    var lla := LoadCmpRule(TransportHeader, kind.Opt() + 2, 6, false, hostmac);
    LoadCmp(env, TransportHeader, kind.Opt(), 1, true, [kind.OptType()], m);
    assert m.frame[OptAt(kind)..OptAt(kind) + 1] == [m.frame[OptAt(kind)]];
    Gated(env, opt, lla + NdAction(hostmac, kind), m, true);
    var m1 := Run(env, opt, m);
    LoadCmp(env, TransportHeader, kind.Opt() + 2, 6, false, hostmac, m1);
    Gated(env, lla, NdAction(hostmac, kind), m1, true);
    NdActionEffect(env, hostmac, kind, Run(env, lla, m1));
  }

  /** The frame, copied, marked and dropped. */
  predicate TakenUp(m: Machine, n: Machine, g: Frame) {
    n.status == Done(Drop) && n.logs == m.logs + [Copy('R', g)] && n.dups == m.dups && n.marks == m.marks + [Src6(g)]
  }

  // ---- the outbound chains up to the jump ----

  lemma DispatchJumps(env: Env, m: Machine)
    requires m.status == Running && EthType(m.frame) == ETH_IP6 && |m.frame| >= 54 && m.frame[20] == 58
    ensures var n := Run(env, NdDispatch(), m); SameEffects(m, n) && n.status == Jumping
  {
    EthGateTests(env, ETH_IP6, m);
    Gated(env, EthGate(ETH_IP6), L4Gate(58) + [Jump], m, true);
    var m1 := Run(env, EthGate(ETH_IP6), m);
    L4GateTests(env, 58, m1);
    Gated(env, L4Gate(58), [Jump], m1, true);
    Run1(env, Jump, Run(env, L4Gate(58), m1));
  }

  lemma FwdRuleParts(hostmac: Mac, brmac: Option<Mac>, up0: nat)
    ensures var rules, i := OutRulesFwd(hostmac, brmac, up0), if brmac.Some? then 2 else 1;
            && |rules| == i + 6
            && rules[0] == DropSrc(hostmac) && (brmac.Some? ==> rules[1] == DropSrc(brmac.value))
            && rules[i] == DhcpRule(hostmac, TermFwd(up0)) && rules[i + 1] == NdDispatch()
  {
    var tail := OutTail(hostmac, TermFwd(up0));
    assert tail[0] == DhcpRule(hostmac, TermFwd(up0)) && tail[1] == NdDispatch();
  }

  /** The drop rules let a guest's frame by. */
  lemma FwdDropsMiss(env: Env, hostmac: Mac, brmac: Option<Mac>, up0: nat, m: Machine) returns (n: Machine)
    requires m.status == Running && Src(m.frame) != hostmac && Some(Src(m.frame)) != brmac
    ensures Quiet(m, n)
    ensures var rules, sub := OutRulesFwd(hostmac, brmac, up0), NdOutRules(hostmac);
            var i := if brmac.Some? then 2 else 1;
            i <= |rules| && Chain(env, rules, 0, sub, m) == Chain(env, rules, i, sub, n)
  {
    var rules, sub := OutRulesFwd(hostmac, brmac, up0), NdOutRules(hostmac);
    FwdRuleParts(hostmac, brmac, up0);
    DropSrcEffect(env, hostmac, m);
    Skip(env, rules, 0, sub, m);
    n := Run(env, rules[0], m).(status := Running);
    if brmac.Some? {
      DropSrcEffect(env, brmac.value, n);
      Skip(env, rules, 1, sub, n);
      n := Run(env, rules[1], n).(status := Running);
    }
  }

  // ---- the wire ----

  /** What userspace sends for a copy: checksum recomputed when it can be, source HOSTMAC. */
  function Reinjected(copy: Frame, hostmac: Mac): Frame {
    var l3 := copy[14..];
    BuildFrame(Dst(copy), hostmac, EthType(copy), if Complete(l3) then Fixed(l3) else l3)
  }

  /** The option lies inside the message, so the checksum covers it. */
  predicate OptionCovered(f: Frame, kind: NdKind) {
    Complete(f[14..]) && kind.Opt() + 8 <= PayloadLen(f[14..])
  }

  lemma NdOutRewrites(f: Frame, kind: NdKind, hostmac: Mac)
    requires NdMatches(f, kind, hostmac)
    ensures NdOut(f, hostmac) == NdRewritten(f, OptAt(kind), kind.OptType(), hostmac)
  {
    assert Peek(f, 20, 1) == [58] && Peek(f, 54, 1) == [f[54]];
  }

  lemma NormalizedL3(f: Frame, hostmac: Mac)
    ensures Normalized(f, hostmac)[14..] == f[14..]
  {
  }

  lemma NdOutFrame(f: Frame, kind: NdKind, hostmac: Mac)
    requires NdMatches(f, kind, hostmac)
    ensures OutFrame(f, hostmac) == Normalized(NdRewritten(f, OptAt(kind), kind.OptType(), hostmac), hostmac)
  {
    NdOutRewrites(f, kind, hostmac);
  }

  lemma RewrittenL3(f: Frame, off: nat, want: byte, hostmac: Mac)
    requires HasOption(f, off, want, hostmac) && CSUM + 2 <= off
    ensures Normalized(NdRewritten(f, off, want, hostmac), hostmac)[14..]
         == Patched(f[14..], off - 14, f[off..off + 2] + hostmac)
  {
    RewriteIsPatch(f, off, want, hostmac);
    NormalizedL3(NdRewritten(f, off, want, hostmac), hostmac);
  }

  /** eBPF's frame, above the Ethernet header, is the original with its option patched. */
  lemma EbpfNdPatched(f: Frame, kind: NdKind, hostmac: Mac)
    requires NdMatches(f, kind, hostmac)
    ensures var off := OptAt(kind);
            OutFrame(f, hostmac)[14..] == Patched(f[14..], off - 14, f[off..off + 2] + hostmac)
  {
    NdOutFrame(f, kind, hostmac);
    RewrittenL3(f, OptAt(kind), kind.OptType(), hostmac);
  }

  lemma PatchedElsewhere(l3: seq<byte>, off: nat, v: seq<byte>)
    requires Fits(l3, off, |v|)
    ensures |Patched(l3, off, v)| == |l3|
    ensures forall i | 0 <= i < |l3| && !(42 <= i < 44) :: Patched(l3, off, v)[i] == Store(l3, off, v)[i]
  {
  }

  /** The packet with HOSTMAC in its option and the checksum not yet looked at. */
  function Renamed(f: Frame, kind: NdKind, hostmac: Mac): seq<byte> {
    Store(f[14..], OptAt(kind) - 12, hostmac)
  }

  lemma EbpfPayload(f: Frame, kind: NdKind, hostmac: Mac)
    requires NdMatches(f, kind, hostmac)
    ensures var e := OutFrame(f, hostmac)[14..];
            && |e| == |f| - 14
            && forall i | 0 <= i < |e| && !(42 <= i < 44) :: e[i] == Renamed(f, kind, hostmac)[i]
  {
    var l3, off := f[14..], OptAt(kind);
    var opt := f[off..off + 2] + hostmac;
    EbpfNdPatched(f, kind, hostmac);
    PatchedElsewhere(l3, off - 14, opt);
    WholeOption(f, off, hostmac);
  }

  /** Storing the option with its first two bytes unchanged is storing the mac alone. */
  lemma WholeOption(f: Frame, off: nat, hostmac: Mac)
    requires 14 <= off && Fits(f, off, 8)
    ensures Store(f[14..], off - 14, f[off..off + 2] + hostmac) == Store(f[14..], off - 12, hostmac)
  {
    SliceOfSlice(f, 14, |f|, off - 14, 2);
    StoreSuffix(f[14..], off - 14, f[off..off + 2], hostmac);
  }

  lemma StoreSuffix(s: seq<byte>, at: nat, x: seq<byte>, v: seq<byte>)
    requires Fits(s, at, |x| + |v|) && s[at..at + |x|] == x
    ensures Store(s, at, x + v) == Store(s, at + |x|, v)
  {
    assert s[..at + |x|] == s[..at] + x;
    assert s[..at] + (x + v) == (s[..at] + x) + v;
  }

  lemma StoreField(e: seq<byte>, n: seq<byte>)
    requires |e| == |n| >= 44 && forall i | 0 <= i < |e| && !(42 <= i < 44) :: n[i] == e[i]
    ensures n == Store(e, 42, n[42..44])
  {
  }

  /** Same Ethernet header, same packet but for a checksum equal in one's complement. */
  predicate SameOnWire(a: Frame, b: Frame) {
    && |a| == |b| >= 58
    && b == Store(a, CSUM, b[CSUM..CSUM + 2])
    && OnesEqual(Field(a), Field(b))
  }

  /** The packet in the frame is `l3` except for the checksum field. */
  predicate AgreesWith(e: Frame, l3: seq<byte>) {
    |e[14..]| == |l3| && forall i | 0 <= i < |l3| && !(42 <= i < 44) :: e[14..][i] == l3[i]
  }

  lemma JoinFrames(e: Frame, n: Frame, l3: seq<byte>)
    requires e[..14] == n[..14] && AgreesWith(e, l3) && AgreesWith(n, l3)
    requires Verifies(e[14..]) && Verifies(n[14..]) && PayloadLen(e[14..]) >= 4
    ensures SameOnWire(e, n)
  {
    StoreField(e[14..], n[14..]);
    ChecksumIsUnique(e[14..], n[14..]);
    JoinHeader(e, n);
    assert e[14..][42..44] == e[CSUM..CSUM + 2] && n[14..][42..44] == n[CSUM..CSUM + 2];
  }

  /** The machine dropped the frame, having copied it once for userspace, and what userspace
      sends for the copy is what eBPF lets out. */
  predicate HandedOver(m: Machine, f: Frame, hostmac: Mac) {
    && m.status == Done(Drop) && m.dups == [] && |m.logs| == 1 && m.logs[0].prefix == 'R'
    && Src(m.logs[0].frame) == Src(f)
    && SameOnWire(OutFrame(f, hostmac), Reinjected(m.logs[0].frame, hostmac))
  }

  lemma HandedOverIff(m: Machine, f: Frame, kind: NdKind, hostmac: Mac)
    requires NdMatches(f, kind, hostmac) && TakenUp(Boot(f), m, Store(f, OptAt(kind) + 2, hostmac))
    ensures HandedOver(m, f, hostmac)
       <==> SameOnWire(OutFrame(f, hostmac), Reinjected(Store(f, OptAt(kind) + 2, hostmac), hostmac))
  {
    var g := Store(f, OptAt(kind) + 2, hostmac);
    assert m.logs == [Copy('R', g)];
    assert Src(g) == Src(f) by { StoredElsewhere(f, OptAt(kind) + 2, hostmac, 6, 6); }
  }

  lemma TypeBytes(f: Frame)
    ensures Be16(EthType(f)) == f[12..14]
  {
  }

  lemma HeaderFrom(e: Frame, f: Frame, hostmac: Mac)
    requires Src(e) == hostmac && Dst(e) == Dst(f) && EthType(e) == EthType(f)
    ensures e[..14] == Dst(f) + hostmac + f[12..14]
  {
    TypeBytes(e);
    TypeBytes(f);
    assert e[..14] == e[0..6] + e[6..12] + e[12..14];
  }

  lemma BuiltHeader(dst: Mac, src: Mac, f: Frame, l3: seq<byte>)
    ensures BuildFrame(dst, src, EthType(f), l3)[..14] == dst + src + f[12..14]
  {
    TypeBytes(f);
  }

  lemma ReinjectedHeader(c: Frame, hostmac: Mac)
    ensures Reinjected(c, hostmac)[..14] == Dst(c) + hostmac + c[12..14]
  {
    BuiltHeader(Dst(c), hostmac, c, if Complete(c[14..]) then Fixed(c[14..]) else c[14..]);
  }

  lemma OutHeader(f: Frame, hostmac: Mac)
    requires IsIpOrArp(f)
    ensures OutFrame(f, hostmac)[..14] == Dst(f) + hostmac + f[12..14]
  {
    NoSourceLeak(f, hostmac);
    HeaderFrom(OutFrame(f, hostmac), f, hostmac);
  }

  lemma SameHeaders(f: Frame, kind: NdKind, hostmac: Mac)
    requires NdMatches(f, kind, hostmac)
    ensures OutFrame(f, hostmac)[..14] == Reinjected(Store(f, OptAt(kind) + 2, hostmac), hostmac)[..14]
  {
    var copy := Store(f, OptAt(kind) + 2, hostmac);
    OutHeader(f, hostmac);
    ReinjectedHeader(copy, hostmac);
    StoredElsewhere(f, OptAt(kind) + 2, hostmac, 0, 6);
    StoredElsewhere(f, OptAt(kind) + 2, hostmac, 12, 2);
  }

  lemma JoinHeader(e: Frame, n: Frame)
    requires e[..14] == n[..14] && |e| == |n| >= 58
    requires n[14..] == Store(e[14..], 42, n[14..][42..44])
    ensures n == Store(e, CSUM, n[CSUM..CSUM + 2])
  {
    assert n == n[..14] + n[14..] && e == e[..14] + e[14..];
    assert n[14..][42..44] == n[CSUM..CSUM + 2];
    L3Store(e, CSUM, n[CSUM..CSUM + 2]);
    assert Store(e, CSUM, n[CSUM..CSUM + 2])[..14] == e[..14];
  }

  // ---- slices ----

  lemma SliceOfFrame(f: Frame, at: nat, n: nat)
    ensures Slice(f[14..], at, n) == if Fits(f, 14 + at, n) then Some(f[14 + at..14 + at + n]) else None
  {
    if Fits(f, 14 + at, n) {
      assert f[14..][at..at + n] == f[14 + at..14 + at + n];
    }
  }
}
