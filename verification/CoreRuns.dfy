/**
 What single steps leave alone, and what follows for every run: which addresses the store can
 hold at all, the timeout the backend works with, and who may be proxied.
 */
module CoreRuns {
  import opened Types
  import opened Topology
  import opened Core
  import opened CoreInvariant
  import S = State
  import B = Backend

  // ---- frames ----

  /** Everything but the backend, the routes, the proxies and the record of installed entries. */
  ghost predicate SameBook(s: State, t: State) {
    (t.cfg, t.caps, t.store, t.snap, t.initialized, t.agingTick)
    == (s.cfg, s.caps, s.store, s.snap, s.initialized, s.agingTick)
  }

  lemma ForgottenSameBook(s: State, ip: Ip)
    ensures SameBook(s, Forgotten(s, ip)) && Forgotten(s, ip).be == s.be
  {
  }

  lemma InstalledSameBook(s: State, ip: Ip, mac: Mac)
    ensures SameBook(s, Installed(s, ip, mac)) && Installed(s, ip, mac).be == s.be
  {
  }

  lemma ReconcileSameBook(s: State, ip: Ip, now: nat)
    ensures SameBook(s, Reconcile(s, ip, now).0)
  {
    var want := Wanted(s, ip);
    if want.None? {
      ForgottenSameBook(s.(be := s.be.Withdraw(ip, now).0), ip);
    } else {
      InstalledSameBook(s.(be := s.be.Write(ip, want.value, now).0), ip, want.value);
    }
  }

  lemma {:induction false} ReconcileSeqSameBook(s: State, ips: seq<Ip>, now: nat)
    ensures SameBook(s, ReconcileSeq(s, ips, now).0)
    decreases |ips|
  {
    if ips != [] {
      ReconcileSameBook(s, ips[0], now);
      if Reconcile(s, ips[0], now).1 {
        ReconcileSeqSameBook(Reconcile(s, ips[0], now).0, ips[1..], now);
      }
    }
  }

  /** Aging only takes entries away. */
  ghost predicate FewerEntries(s: State, t: State) {
    && t.store.entries.Keys <= s.store.entries.Keys
    && forall ip | ip in t.store.entries :: t.store.entries[ip] == s.store.entries[ip]
  }

  lemma {:induction false} AgeOutFrame(s: State, dead: seq<Ip>, now: nat)
    ensures var t := AgeOut(s, dead, now);
            SameBook(s, t.(store := s.store)) && FewerEntries(s, t)
    decreases |dead|
  {
    if dead != [] {
      var s1 := s.(store := S.Removed(s.store, dead[0]));
      ReconcileSameBook(s1, dead[0], now);
      if Reconcile(s1, dead[0], now).1 {
        AgeOutFrame(Reconcile(s1, dead[0], now).0, dead[1..], now);
      }
    }
  }

  lemma InitSameStore(s: State, order: seq<Ip>, fwd0: nat, now: nat)
    ensures InitSession(s, order, fwd0, now).store == s.store && InitSession(s, order, fwd0, now).cfg == s.cfg
    ensures InitSession(s, order, fwd0, now).agingTick == s.agingTick
  {
    var first := Recompute(s.cfg, s.w);
    if first.up0Present && first.hostmac.Some? {
      var w := CreateVeth(s.cfg, s.w, fwd0);
      var snap := Recompute(s.cfg, w);
      var s1 := s.(be := s.be.Init(HostmacOr(snap, first.hostmac.value), snap.brmac, snap.HostIpSet(), s.cfg.timeout, now),
                   initialized := true, snap := snap, w := EnsureBridge(s.cfg, w));
      ReconcileSeqSameBook(if s.cfg.IsFwd() then ReconcileMirror(s1) else s1, order, now);
    }
  }

  lemma NetlinkSameStore(s: State, order: seq<Ip>, fwd0: nat, now: nat)
    ensures OnNetlink(s, order, fwd0, now).store == s.store && OnNetlink(s, order, fwd0, now).cfg == s.cfg
    ensures OnNetlink(s, order, fwd0, now).agingTick == s.agingTick
  {
    var next := Recompute(s.cfg, s.w);
    InitSameStore(s.(snap := next), order, fwd0, now);
    DiffSameStore(s, next, order, now);
  }

  lemma DiffSameStore(s: State, next: Snap, order: seq<Ip>, now: nat)
    ensures var t := ApplyDiff(s, next, order, now);
            t.store == s.store && t.cfg == s.cfg && t.agingTick == s.agingTick
  {
    var p := Prepared(s, next, now);
    PreparedSameBook(s, next, now);
    ReconcileSeqSameBook(p, order, now);
    assert ApplyDiff(s, next, order, now) in {p, ReconcileSeq(p, order, now).0};
  }

  lemma PreparedSameBook(s: State, next: Snap, now: nat)
    ensures var p := Prepared(s, next, now);
            p.store == s.store && p.cfg == s.cfg && p.agingTick == s.agingTick
  {
  }

  lemma TickFrame(s: State, order: seq<Ip>, fwd0: nat, now: nat)
    ensures FewerEntries(s, OnTick(s, order, fwd0, now)) && OnTick(s, order, fwd0, now).cfg == s.cfg
  {
    if !s.initialized {
      NetlinkSameStore(s, order, fwd0, now);
    } else {
      AgeOutFrame(s.(agingTick := s.agingTick + 1, be := s.be.Do(B.Flush, now)), order, now);
    }
  }

  lemma LearnFrame(s: State, ip: Ip, mac: Mac, now: nat)
    ensures var t := DoLearn(s, ip, mac, now);
            && SameBook(s, t.(store := s.store))
            && t.store == if IsLearnable(ip) then S.Learned(s.caps, s.store, ip, mac, now).0 else s.store
  {
    if IsLearnable(ip) {
      var (store, changed) := S.Learned(s.caps, s.store, ip, mac, now);
      ReconcileSeqSameBook(s.(store := store), changed, now);
    }
  }

  lemma StepKeepsCfg(s: State, ev: Event)
    ensures Step(s, ev).cfg == s.cfg
  {
    match ev
    case Netlink(order, fwd0, now) => NetlinkSameStore(s, order, fwd0, now);
    case Learn(ip, mac, now) => LearnFrame(s, ip, mac, now);
    case Tick(order, fwd0, now) => TickFrame(s, order, fwd0, now);
    case _ =>
  }

  // ---- which addresses the tables can hold ----

  ghost predicate OnlyLearnable(s: State) {
    forall ip | ip in s.store.entries :: IsLearnable(ip)
  }

  lemma StepOnlyLearnable(s: State, ev: Event)
    requires OnlyLearnable(s)
    ensures OnlyLearnable(Step(s, ev))
  {
    match ev
    case Netlink(order, fwd0, now) => NetlinkSameStore(s, order, fwd0, now);
    case Learn(ip, mac, now) => LearnFrame(s, ip, mac, now);
    case Tick(order, fwd0, now) => TickFrame(s, order, fwd0, now);
    case _ =>
  }

  lemma {:induction false} RunOnlyLearnable(s: State, evs: seq<Event>)
    requires OnlyLearnable(s)
    ensures OnlyLearnable(Run(s, evs))
    decreases |evs|
  {
    if evs != [] {
      StepOnlyLearnable(s, evs[0]);
      RunOnlyLearnable(Step(s, evs[0]), evs[1..]);
    }
  }

  /** No run ever puts an unlearnable address into the kernel's table: neither of the all-zero
      addresses a short frame's cleared buffer would look up. */
  lemma TableHoldsNoZeroKeys(s: State, evs: seq<Event>)
    requires IsInitial(s) && LegalRun(s, evs)
    ensures var t := Run(s, evs);
            && (forall ip | ip in t.be.Table() :: IsLearnable(ip))
            && V4(Zeros(4)) !in t.be.Table() && V6(Zeros(16)) !in t.be.Table()
  {
    RunOnlyLearnable(s, evs);
    KernelFollowsEntries(s, evs);
    assert !IsLearnable(V4(Zeros(4))) && !IsLearnable(V6(Zeros(16)));
  }

  // ---- the backend's timeout, and who is proxied ----

  ghost predicate SameTimeout(b: Engine, c: Engine) {
    b.OnNft? == c.OnNft? && (b.OnNft? ==> b.n.timeout == c.n.timeout)
  }

  lemma WriteSameTimeout(b: Engine, ip: Ip, mac: Mac, now: nat)
    ensures SameTimeout(b, b.Write(ip, mac, now).0)
  {
  }

  lemma WithdrawSameTimeout(b: Engine, ip: Ip, now: nat)
    ensures SameTimeout(b, b.Withdraw(ip, now).0)
  {
  }

  lemma DoSameTimeout(b: Engine, op: B.Op, now: nat)
    ensures SameTimeout(b, b.Do(op, now))
  {
    match op
    case Write(ip, mac) => WriteSameTimeout(b, ip, mac, now);
    case Withdraw(ip) => WithdrawSameTimeout(b, ip, now);
    case _ =>
  }

  lemma RetunedSameTimeout(b: Engine, prev: Snap, next: Snap, now: nat)
    ensures SameTimeout(b, Retuned(b, prev, next, now))
  {
  }

  lemma {:induction false} RefreshSeqSameTimeout(b: Engine, ips: seq<Ip>, now: nat)
    ensures SameTimeout(b, RefreshSeq(b, ips, now))
    decreases |ips|
  {
    if ips != [] {
      DoSameTimeout(b, B.Refresh(ips[0]), now);
      RefreshSeqSameTimeout(b.Do(B.Refresh(ips[0]), now), ips[1..], now);
    }
  }

  /** The nft sets expire with the configured timeout, and only the offload workaround proxies. */
  ghost predicate Paced(s: State) {
    && (s.be.OnNft? && s.initialized ==> s.be.n.timeout == s.cfg.timeout)
    && (s.cfg.Offload().None? ==> s.proxied == {})
  }

  lemma ReconcilePaced(s: State, ip: Ip, now: nat)
    requires Paced(s)
    ensures Paced(Reconcile(s, ip, now).0)
  {
    var want := Wanted(s, ip);
    if want.None? {
      WithdrawSameTimeout(s.be, ip, now);
      ForgottenPaced(s.(be := s.be.Withdraw(ip, now).0), ip);
    } else {
      WriteSameTimeout(s.be, ip, want.value, now);
      InstalledPaced(s.(be := s.be.Write(ip, want.value, now).0), ip, want.value);
    }
  }

  lemma ForgottenPaced(s: State, ip: Ip)
    requires Paced(s)
    ensures Paced(Forgotten(s, ip))
  {
  }

  lemma InstalledPaced(s: State, ip: Ip, mac: Mac)
    requires Paced(s)
    ensures Paced(Installed(s, ip, mac))
  {
  }

  lemma {:induction false} ReconcileSeqPaced(s: State, ips: seq<Ip>, now: nat)
    requires Paced(s)
    ensures Paced(ReconcileSeq(s, ips, now).0)
    decreases |ips|
  {
    if ips != [] {
      ReconcilePaced(s, ips[0], now);
      if Reconcile(s, ips[0], now).1 {
        ReconcileSeqPaced(Reconcile(s, ips[0], now).0, ips[1..], now);
      }
    }
  }

  lemma {:induction false} AgeOutPaced(s: State, dead: seq<Ip>, now: nat)
    requires Paced(s)
    ensures Paced(AgeOut(s, dead, now))
    decreases |dead|
  {
    if dead != [] {
      var s1 := s.(store := S.Removed(s.store, dead[0]));
      ReconcilePaced(s1, dead[0], now);
      if Reconcile(s1, dead[0], now).1 {
        AgeOutPaced(Reconcile(s1, dead[0], now).0, dead[1..], now);
      }
    }
  }

  lemma InitPaced(s: State, order: seq<Ip>, fwd0: nat, now: nat)
    requires Paced(s)
    ensures Paced(InitSession(s, order, fwd0, now))
  {
    var first := Recompute(s.cfg, s.w);
    if first.up0Present && first.hostmac.Some? {
      var w := CreateVeth(s.cfg, s.w, fwd0);
      var snap := Recompute(s.cfg, w);
      var s1 := s.(be := s.be.Init(HostmacOr(snap, first.hostmac.value), snap.brmac, snap.HostIpSet(), s.cfg.timeout, now),
                   initialized := true, snap := snap, w := EnsureBridge(s.cfg, w));
      ReconcileSeqPaced(if s.cfg.IsFwd() then ReconcileMirror(s1) else s1, order, now);
    }
  }

  lemma NetlinkPaced(s: State, order: seq<Ip>, fwd0: nat, now: nat)
    requires Paced(s)
    ensures Paced(OnNetlink(s, order, fwd0, now))
  {
    var next := Recompute(s.cfg, s.w);
    InitPaced(s.(snap := next), order, fwd0, now);
    DiffPaced(s, next, order, now);
  }

  lemma DiffPaced(s: State, next: Snap, order: seq<Ip>, now: nat)
    requires Paced(s)
    ensures Paced(ApplyDiff(s, next, order, now))
  {
    RetunedSameTimeout(s.be, s.snap, next, now);
    ReconcileSeqPaced(Prepared(s, next, now), order, now);
  }

  lemma TickPaced(s: State, order: seq<Ip>, fwd0: nat, now: nat)
    requires Paced(s)
    ensures Paced(OnTick(s, order, fwd0, now))
  {
    if !s.initialized {
      NetlinkPaced(s, order, fwd0, now);
      return;
    }
    RefreshSeqSameTimeout(s.be, order, now);
    DoSameTimeout(s.be, B.Flush, now);
    AgeOutPaced(s.(agingTick := s.agingTick + 1, be := s.be.Do(B.Flush, now)), order, now);
  }

  lemma StepPaced(s: State, ev: Event)
    requires Paced(s)
    ensures Paced(Step(s, ev))
  {
    match ev
    case Netlink(order, fwd0, now) => NetlinkPaced(s, order, fwd0, now);
    case Learn(ip, mac, now) =>
      var (store, changed) := S.Learned(s.caps, s.store, ip, mac, now);
      ReconcileSeqPaced(s.(store := store), changed, now);
    case Tick(order, fwd0, now) => TickPaced(s, order, fwd0, now);
    case Mark(ip, now) => DoSameTimeout(s.be, B.Mark(ip), now);
    case _ =>
  }

  lemma {:induction false} RunPaced(s: State, evs: seq<Event>)
    requires Paced(s)
    ensures Paced(Run(s, evs))
    decreases |evs|
  {
    if evs != [] {
      StepPaced(s, evs[0]);
      RunPaced(Step(s, evs[0]), evs[1..]);
    }
  }

  // ---- runs in two parts ----

  lemma {:induction false} RunInTwo(s: State, a: seq<Event>, b: seq<Event>)
    ensures Run(s, a + b) == Run(Run(s, a), b)
    ensures LegalRun(s, a + b) <==> LegalRun(s, a) && LegalRun(Run(s, a), b)
    decreases |a|
  {
    if a == [] {
      assert a + b == b;
    } else {
      assert (a + b)[1..] == a[1..] + b;
      RunInTwo(Step(s, a[0]), a[1..], b);
    }
  }
}
