/**
 The outbound nft chains: nothing leaves with a guest's source mac, and a neighbour-discovery
 frame taken through userspace reaches the wire as the eBPF engine would have sent it
 (src/backend/nft/mod.rs:503-646, src/core.rs:531-554).
 */
module NftOutbound {
  import opened Types
  import opened Bytes
  import opened Datapath
  import opened NftMachine
  import opened NftRules

  // ---- no leak, whatever the frame ----

  /** Undecided, dropped, or let out with source HOSTMAC. */
  predicate SafeEnd(m: Machine, hostmac: Mac, out: Verdict) {
    m.status.Done? ==> m.status.v == Drop || (m.status.v == out && Src(m.frame) == hostmac)
  }

  /** However a machine enters the rule, if the rule decides it decides safely. */
  ghost predicate Safe(env: Env, hostmac: Mac, out: Verdict, rule: Rule) {
    forall m: Machine | m.status == Running :: SafeEnd(Run(env, rule, m), hostmac, out)
  }

  ghost predicate AllSafe(env: Env, hostmac: Mac, out: Verdict, rules: seq<Rule>) {
    forall r | r in rules :: Safe(env, hostmac, out, r)
  }

  lemma SafeConcat(env: Env, hostmac: Mac, out: Verdict, a: seq<Rule>, b: seq<Rule>)
    requires AllSafe(env, hostmac, out, a) && AllSafe(env, hostmac, out, b)
    ensures AllSafe(env, hostmac, out, a + b)
  {
  }

  lemma SafeThree(env: Env, hostmac: Mac, out: Verdict, a: Rule, b: Rule, c: Rule)
    requires Safe(env, hostmac, out, a) && Safe(env, hostmac, out, b) && Safe(env, hostmac, out, c)
    ensures AllSafe(env, hostmac, out, [a]) && AllSafe(env, hostmac, out, [a, b, c])
  {
  }

  predicate Deciding(e: Expr) {
    e.Decide? || e.FwdTo? || e.Jump?
  }

  lemma {:induction false} PlainNeverDecides(env: Env, rule: Rule, m: Machine)
    requires forall e | e in rule :: !Deciding(e)
    requires m.status == Running
    ensures Run(env, rule, m).status == Running || Run(env, rule, m).status == Mismatch
    decreases |rule|
  {
    if rule != [] {
      assert !Deciding(rule[0]);
      var n := Exec(env, rule[0], m);
      if n.status == Running {
        PlainNeverDecides(env, rule[1..], n);
      } else {
        Stopped(env, rule[1..], n);
      }
    }
  }

  lemma SetSrcEffect(env: Env, hostmac: Mac, m: Machine)
    requires m.status == Running
    ensures var n := Run(env, SetSrcHostmac(hostmac), m);
            && n == m.(regs := n.regs, frame := Normalized(m.frame, hostmac))
            && Src(n.frame) == hostmac
            && n.regs[32..48] == m.regs[32..48]
  {
    Run2(env, Immediate(REG_1, hostmac), PayloadSet(LinkHeader, 6, 6, REG_1, None), m);
    WrittenReg(m.regs, REG_1, hostmac);
    StoredThere(m.frame, 6, hostmac);
  }

  /** A rule that ends by naming HOSTMAC and terminating is safe, whatever comes before. */
  lemma SealedIsSafe(env: Env, hostmac: Mac, body: Rule, fwd: Option<nat>)
    requires forall e | e in body :: !Deciding(e)
    requires fwd.Some? ==> fwd.value < 0x1_0000_0000
    ensures Safe(env, hostmac, TermVerdict(fwd), body + (SetSrcHostmac(hostmac) + Term(fwd)))
  {
    forall m: Machine | m.status == Running
      ensures SafeEnd(Run(env, body + (SetSrcHostmac(hostmac) + Term(fwd)), m), hostmac, TermVerdict(fwd))
    {
      RunAppend(env, body, SetSrcHostmac(hostmac) + Term(fwd), m);
      PlainNeverDecides(env, body, m);
      var n := Run(env, body, m);
      if n.status == Running {
        RunAppend(env, SetSrcHostmac(hostmac), Term(fwd), n);
        SetSrcEffect(env, hostmac, n);
        TermEffect(env, fwd, Run(env, SetSrcHostmac(hostmac), n));
      }
    }
  }

  /** A rule whose only verdict is to drop is safe. */
  lemma DroppingIsSafe(env: Env, hostmac: Mac, out: Verdict, body: Rule)
    requires forall e | e in body :: !Deciding(e)
    ensures Safe(env, hostmac, out, body + [Decide(Drop)])
  {
    forall m: Machine | m.status == Running ensures SafeEnd(Run(env, body + [Decide(Drop)], m), hostmac, out) {
      RunAppend(env, body, [Decide(Drop)], m);
      PlainNeverDecides(env, body, m);
    }
  }

  lemma {:induction false} ChainIsSafe(
    env: Env, hostmac: Mac, out: Verdict, rules: seq<Rule>, i: nat, sub: seq<Rule>, m: Machine)
    requires i <= |rules| && m.status == Running
    requires AllSafe(env, hostmac, out, rules) && AllSafe(env, hostmac, out, sub)
    ensures SafeEnd(Chain(env, rules, i, sub, m), hostmac, out)
    decreases |sub| + |rules| - i
  {
    if i < |rules| {
      assert rules[i] in rules;
      var r := Run(env, rules[i], m);
      assert SafeEnd(r, hostmac, out);
      if !r.status.Done? {
        var s := r.(status := Running);
        if r.status.Jumping? {
          ChainIsSafe(env, hostmac, out, sub, 0, [], s);
          s := Chain(env, sub, 0, [], s);
          ChainStatus(env, sub, 0, r.(status := Running));
        }
        if !s.status.Done? {
          ChainIsSafe(env, hostmac, out, rules, i + 1, sub, s);
        }
      }
    }
  }

  /** A chain ends running or decided. */
  lemma {:induction false} ChainStatus(env: Env, rules: seq<Rule>, i: nat, m: Machine)
    requires i <= |rules| && m.status == Running
    ensures var s := Chain(env, rules, i, [], m).status; s == Running || s.Done?
    decreases |rules| - i
  {
    if i < |rules| {
      var r := Run(env, rules[i], m);
      if !r.status.Done? {
        ChainStatus(env, rules, i + 1, r.(status := Running));
      }
    }
  }

  /** The catch-all rule decides every frame. */
  lemma ElseDecides(env: Env, hostmac: Mac, fwd: Option<nat>, m: Machine)
    requires m.status == Running && (fwd.Some? ==> fwd.value < 0x1_0000_0000)
    ensures Run(env, ElseOutRule(hostmac, Term(fwd)), m).status.Done?
  {
    RunAppend(env, [Log('L')], SetSrcHostmac(hostmac) + Term(fwd), m);
    Run1(env, Log('L'), m);
    var n := Run(env, [Log('L')], m);
    RunAppend(env, SetSrcHostmac(hostmac), Term(fwd), n);
    SetSrcEffect(env, hostmac, n);
    TermEffect(env, fwd, Run(env, SetSrcHostmac(hostmac), n));
  }

  ghost predicate AlwaysDecides(env: Env, rule: Rule) {
    forall m: Machine | m.status == Running :: Run(env, rule, m).status.Done?
  }

  /** What a rule leaves for the next one. */
  function AfterRule(env: Env, rule: Rule, sub: seq<Rule>, m: Machine): Machine {
    var r := Run(env, rule, m);
    if r.status.Done? then r
    else if r.status.Jumping? then Chain(env, sub, 0, [], r.(status := Running))
    else r.(status := Running)
  }

  lemma ChainUnfold(env: Env, rules: seq<Rule>, i: nat, sub: seq<Rule>, m: Machine)
    requires i < |rules|
    ensures var s := AfterRule(env, rules[i], sub, m);
            Chain(env, rules, i, sub, m) == if s.status.Done? then s else Chain(env, rules, i + 1, sub, s)
  {
  }

  lemma AfterRuleStatus(env: Env, rule: Rule, sub: seq<Rule>, m: Machine)
    requires m.status == Running
    ensures var s := AfterRule(env, rule, sub, m).status; s == Running || s.Done?
  {
    if Run(env, rule, m).status.Jumping? {
      ChainStatus(env, sub, 0, Run(env, rule, m).(status := Running));
    }
  }

  lemma {:induction false} LastDecides(env: Env, rules: seq<Rule>, i: nat, sub: seq<Rule>, m: Machine)
    requires i < |rules| && m.status == Running
    requires AlwaysDecides(env, rules[|rules| - 1])
    ensures Chain(env, rules, i, sub, m).status.Done?
    decreases |rules| - i
  {
    ChainUnfold(env, rules, i, sub, m);
    AfterRuleStatus(env, rules[i], sub, m);
    if i + 1 < |rules| && AfterRule(env, rules[i], sub, m).status == Running {
      LastDecides(env, rules, i + 1, sub, AfterRule(env, rules[i], sub, m));
    }
  }

  // ---- the installed lists ----

  lemma NdRuleSafe(env: Env, hostmac: Mac, out: Verdict, kind: NdKind)
    ensures Safe(env, hostmac, out, NdOutRule(hostmac, kind))
  {
    var r := NdOutRule(hostmac, kind);
    var body := r[..|r| - 1];
    assert r == body + [Decide(Drop)];
    DroppingIsSafe(env, hostmac, out, body);
  }

  lemma NdRulesSafe(env: Env, hostmac: Mac, out: Verdict)
    ensures AllSafe(env, hostmac, out, NdOutRules(hostmac))
  {
    NdRuleSafe(env, hostmac, out, Ns);
    NdRuleSafe(env, hostmac, out, Na);
    NdRuleSafe(env, hostmac, out, Rs);
    SafeThree(env, hostmac, out, NdOutRule(hostmac, Ns), NdOutRule(hostmac, Na), NdOutRule(hostmac, Rs));
  }

  lemma DhcpSafe(env: Env, hostmac: Mac, fwd: Option<nat>)
    requires fwd.Some? ==> fwd.value < 0x1_0000_0000
    ensures Safe(env, hostmac, TermVerdict(fwd), DhcpRule(hostmac, Term(fwd)))
  {
    var body := L4Gate(17)
      + (LoadCmpRule(TransportHeader, 0, 4, true, [0x00, 0x44, 0x00, 0x43])
        + (WriteRule(TransportHeader, 18, [0x80, 0x00]) + WriteRule(TransportHeader, 6, [0, 0])));
    SealedIsSafe(env, hostmac, body, fwd);
    assert DhcpRule(hostmac, Term(fwd)) == body + (SetSrcHostmac(hostmac) + Term(fwd));
  }

  lemma ValidSafe(env: Env, hostmac: Mac, fam: Family, fwd: Option<nat>)
    requires fwd.Some? ==> fwd.value < 0x1_0000_0000
    ensures Safe(env, hostmac, TermVerdict(fwd), ValidRule(fam, hostmac, Term(fwd)))
  {
    var rule := ValidRule(fam, hostmac, Term(fwd));
    var body := rule[..7];
    SealedIsSafe(env, hostmac, body, fwd);
    assert rule == body + (SetSrcHostmac(hostmac) + Term(fwd));
  }

  lemma ArpSafe(env: Env, hostmac: Mac, fwd: Option<nat>)
    requires fwd.Some? ==> fwd.value < 0x1_0000_0000
    ensures Safe(env, hostmac, TermVerdict(fwd), ArpOutRule(hostmac, Term(fwd)))
  {
    var rule := ArpOutRule(hostmac, Term(fwd));
    var body := rule[..7];
    SealedIsSafe(env, hostmac, body, fwd);
    assert rule == body + (SetSrcHostmac(hostmac) + Term(fwd));
  }

  lemma DispatchSafe(env: Env, hostmac: Mac, out: Verdict)
    ensures Safe(env, hostmac, out, NdDispatch())
  {
    var body := EthGate(ETH_IP6) + L4Gate(58);
    assert NdDispatch() == body + [Jump];
    forall m: Machine | m.status == Running ensures SafeEnd(Run(env, NdDispatch(), m), hostmac, out) {
      RunAppend(env, body, [Jump], m);
      PlainNeverDecides(env, body, m);
    }
  }

  lemma ElseAlwaysDecides(env: Env, hostmac: Mac, fwd: Option<nat>)
    requires fwd.Some? ==> fwd.value < 0x1_0000_0000
    ensures AlwaysDecides(env, ElseOutRule(hostmac, Term(fwd)))
  {
    forall m: Machine | m.status == Running ensures Run(env, ElseOutRule(hostmac, Term(fwd)), m).status.Done? {
      ElseDecides(env, hostmac, fwd, m);
    }
  }

  lemma ElseSafe(env: Env, hostmac: Mac, fwd: Option<nat>)
    requires fwd.Some? ==> fwd.value < 0x1_0000_0000
    ensures Safe(env, hostmac, TermVerdict(fwd), ElseOutRule(hostmac, Term(fwd)))
  {
    SealedIsSafe(env, hostmac, [Log('L')], fwd);
  }

  lemma TailOpens(env: Env, hostmac: Mac, fwd: Option<nat>)
    requires fwd.Some? ==> fwd.value < 0x1_0000_0000
    ensures AllSafe(env, hostmac, TermVerdict(fwd),
                    [DhcpRule(hostmac, Term(fwd)), NdDispatch(), ValidRule(Fam4, hostmac, Term(fwd))])
  {
    DhcpSafe(env, hostmac, fwd);
    DispatchSafe(env, hostmac, TermVerdict(fwd));
    ValidSafe(env, hostmac, Fam4, fwd);
    SafeThree(env, hostmac, TermVerdict(fwd), DhcpRule(hostmac, Term(fwd)), NdDispatch(), ValidRule(Fam4, hostmac, Term(fwd)));
  }

  lemma TailCloses(env: Env, hostmac: Mac, fwd: Option<nat>)
    requires fwd.Some? ==> fwd.value < 0x1_0000_0000
    ensures AllSafe(env, hostmac, TermVerdict(fwd),
                    [ValidRule(Fam6, hostmac, Term(fwd)), ArpOutRule(hostmac, Term(fwd)), ElseOutRule(hostmac, Term(fwd))])
  {
    ValidSafe(env, hostmac, Fam6, fwd);
    ArpSafe(env, hostmac, fwd);
    ElseSafe(env, hostmac, fwd);
    SafeThree(env, hostmac, TermVerdict(fwd), ValidRule(Fam6, hostmac, Term(fwd)), ArpOutRule(hostmac, Term(fwd)),
              ElseOutRule(hostmac, Term(fwd)));
  }

  lemma SixInAll<T>(a: T, b: T, c: T, d: T, e: T, f: T)
    ensures [a, b, c] + [d, e, f] == [a, b, c, d, e, f]
  {
  }

  lemma TailSafe(env: Env, hostmac: Mac, fwd: Option<nat>)
    requires fwd.Some? ==> fwd.value < 0x1_0000_0000
    ensures AllSafe(env, hostmac, TermVerdict(fwd), OutTail(hostmac, Term(fwd)))
  {
    var term := Term(fwd);
    TailOpens(env, hostmac, fwd);
    TailCloses(env, hostmac, fwd);
    SafeConcat(env, hostmac, TermVerdict(fwd),
               [DhcpRule(hostmac, term), NdDispatch(), ValidRule(Fam4, hostmac, term)],
               [ValidRule(Fam6, hostmac, term), ArpOutRule(hostmac, term), ElseOutRule(hostmac, term)]);
    SixInAll(DhcpRule(hostmac, term), NdDispatch(), ValidRule(Fam4, hostmac, term),
             ValidRule(Fam6, hostmac, term), ArpOutRule(hostmac, term), ElseOutRule(hostmac, term));
  }

  lemma DropSrcSafe(env: Env, hostmac: Mac, out: Verdict, mac: Mac)
    ensures AllSafe(env, hostmac, out, [DropSrc(mac)])
  {
    DroppingIsSafe(env, hostmac, out, LoadCmpRule(LinkHeader, 6, 6, true, mac));
  }

  lemma FwdRulesSafe(env: Env, hostmac: Mac, brmac: Option<Mac>, up0: nat)
    requires up0 < 0x1_0000_0000
    ensures AllSafe(env, hostmac, Redirect(up0), OutRulesFwd(hostmac, brmac, up0))
  {
    var opening := if brmac.Some? then [DropSrc(brmac.value)] else [];
    TailSafe(env, hostmac, Some(up0));
    DropSrcSafe(env, hostmac, Redirect(up0), hostmac);
    if brmac.Some? {
      DropSrcSafe(env, hostmac, Redirect(up0), brmac.value);
    }
    SafeConcat(env, hostmac, Redirect(up0), [DropSrc(hostmac)], opening);
    SafeConcat(env, hostmac, Redirect(up0), [DropSrc(hostmac)] + opening, OutTail(hostmac, TermFwd(up0)));
  }

  /** Every frame the fwd chain lets through has source HOSTMAC, whatever its ethertype. */
  lemma NftFwdNeverLeaks(env: Env, hostmac: Mac, brmac: Option<Mac>, up0: nat, f: Frame)
    requires up0 < 0x1_0000_0000
    ensures var m := Chain(env, OutRulesFwd(hostmac, brmac, up0), 0, NdOutRules(hostmac), Boot(f));
            m.status.Done? && (m.status.v == Drop || (m.status.v == Redirect(up0) && Src(m.frame) == hostmac))
  {
    var rules := OutRulesFwd(hostmac, brmac, up0);
    FwdRulesSafe(env, hostmac, brmac, up0);
    NdRulesSafe(env, hostmac, Redirect(up0));
    ChainIsSafe(env, hostmac, Redirect(up0), rules, 0, NdOutRules(hostmac), Boot(f));
    ElseAlwaysDecides(env, hostmac, Some(up0));
    assert rules[|rules| - 1] == ElseOutRule(hostmac, Term(Some(up0)));
    LastDecides(env, rules, 0, NdOutRules(hostmac), Boot(f));
  }

  lemma OwnFramesPass(env: Env, hostmac: Mac)
    ensures AllSafe(env, hostmac, Accept, [LoadCmpRule(LinkHeader, 6, 6, true, hostmac) + [Decide(Accept)]])
  {
    var first := LoadCmpRule(LinkHeader, 6, 6, true, hostmac);
    forall m: Machine | m.status == Running ensures SafeEnd(Run(env, first + [Decide(Accept)], m), hostmac, Accept) {
      LoadCmp(env, LinkHeader, 6, 6, true, hostmac, m);
      Decides(env, first, Accept, m, Src(m.frame) == hostmac);
    }
  }

  lemma DirectRulesSafe(env: Env, hostmac: Mac)
    ensures AllSafe(env, hostmac, Accept, OutRulesDirect(hostmac))
  {
    TailSafe(env, hostmac, None);
    OwnFramesPass(env, hostmac);
    SafeConcat(env, hostmac, Accept, [LoadCmpRule(LinkHeader, 6, 6, true, hostmac) + [Decide(Accept)]],
               OutTail(hostmac, Term(None)));
  }

  /** Every frame the direct chain lets through has source HOSTMAC, whatever its ethertype. */
  lemma NftDirectNeverLeaks(env: Env, hostmac: Mac, f: Frame)
    ensures var m := Chain(env, OutRulesDirect(hostmac), 0, NdOutRules(hostmac), Boot(f));
            m.status.Done? && (m.status.v == Drop || (m.status.v == Accept && Src(m.frame) == hostmac))
  {
    var rules := OutRulesDirect(hostmac);
    DirectRulesSafe(env, hostmac);
    NdRulesSafe(env, hostmac, Accept);
    ChainIsSafe(env, hostmac, Accept, rules, 0, NdOutRules(hostmac), Boot(f));
    ElseAlwaysDecides(env, hostmac, None);
    assert rules[|rules| - 1] == ElseOutRule(hostmac, Term(None));
    LastDecides(env, rules, 0, NdOutRules(hostmac), Boot(f));
  }
}
