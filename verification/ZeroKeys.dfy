/**
 The all-zero addresses stay out of the kernel's tables: a cleared lookup buffer, which the eBPF
 program uses for a frame too short for its destination (bpf/pbridge.bpf.c:225-291), finds
 nothing. Entries are learnable addresses; host addresses are those the kernel shows.
 */
module ZeroKeys {
  import opened Types
  import opened Topology
  import opened Mirror
  import opened Core
  import opened CoreInvariant
  import opened CoreRuns
  import S = State
  import B = Backend

  predicate IsZero(ip: Ip) {
    ip == V4(Zeros(4)) || ip == V6(Zeros(16))
  }

  lemma ZeroIsUnlearnable(ip: Ip)
    requires IsLearnable(ip)
    ensures !IsZero(ip)
  {
  }

  predicate CleanKeys(keys: set<Key>) {
    forall k | k in keys :: !IsZero(k.0)
  }

  predicate CleanBridges(bridges: map<nat, Bridge>) {
    forall b | b in bridges :: CleanKeys(bridges[b].addrs.Keys)
  }

  /** No interface has the all-zero address. */
  predicate CleanWorld(w: World) {
    CleanKeys(w.up0Addrs.Keys) && CleanBridges(w.bridges)
  }

  predicate CleanMirror(m: MirrorState) {
    CleanBridges(m.bridges) && (m.saved.Some? ==> CleanKeys(m.saved.value.addrs))
  }

  predicate CleanSnap(snap: Snap) {
    CleanKeys(snap.hostIps.Keys) && CleanKeys(snap.up0Addrs.Keys)
  }

  ghost predicate Clean(s: State) {
    OnlyLearnable(s) && CleanWorld(s.w) && CleanMirror(s.Mirror()) && CleanSnap(s.snap)
  }

  lemma RecomputeClean(cfg: Config, w: World)
    requires CleanWorld(w)
    ensures CleanSnap(Recompute(cfg, w))
  {
  }

  // ---- the mirror ----

  lemma LeftClean(m: MirrorState)
    requires CleanMirror(m)
    ensures CleanMirror(Left(m))
  {
  }

  lemma AppliedClean(m: MirrorState, br: nat)
    requires CleanMirror(m)
    ensures CleanMirror(Applied(m, br))
  {
  }

  lemma FilledClean(m: MirrorState, br: nat, want: set<Key>, had: set<Key>)
    requires CleanMirror(m) && CleanKeys(want)
    ensures CleanMirror(Filled(m, br, want, had))
  {
  }

  lemma ReconciledClean(m: MirrorState, target: Option<nat>, want: set<Key>, have: Addrs)
    requires CleanMirror(m) && CleanKeys(want)
    ensures CleanMirror(Reconciled(m, target, want, have))
  {
    var m1 := if m.at != target then Left(m) else m;
    LeftClean(m);
    if target.Some? {
      AppliedClean(m1, target.value);
      FilledClean(if m1.at.None? then Applied(m1, target.value) else m1, target.value, want, MirroredKeys(have));
    }
  }

  lemma ReconcileMirrorClean(s: State)
    requires Clean(s)
    ensures Clean(ReconcileMirror(s))
  {
    ReconciledClean(s.Mirror(), if s.cfg.IsFwd() then s.snap.brIndex else None, Want(s.snap), s.snap.brAddrs);
  }

  // ---- reconciling entries ----

  lemma ForgottenClean(s: State, ip: Ip)
    requires Clean(s)
    ensures Clean(Forgotten(s, ip))
  {
  }

  lemma InstalledClean(s: State, ip: Ip, mac: Mac)
    requires Clean(s) && IsLearnable(ip)
    ensures Clean(Installed(s, ip, mac))
  {
    ZeroIsUnlearnable(ip);
  }

  lemma ReconcileClean(s: State, ip: Ip, now: nat)
    requires Clean(s)
    ensures Clean(Reconcile(s, ip, now).0)
  {
    var want := Wanted(s, ip);
    if want.None? {
      ForgottenClean(s.(be := s.be.Withdraw(ip, now).0), ip);
    } else {
      InstalledClean(s.(be := s.be.Write(ip, want.value, now).0), ip, want.value);
    }
  }

  lemma {:induction false} ReconcileSeqClean(s: State, ips: seq<Ip>, now: nat)
    requires Clean(s)
    ensures Clean(ReconcileSeq(s, ips, now).0)
    decreases |ips|
  {
    if ips != [] {
      ReconcileClean(s, ips[0], now);
      if Reconcile(s, ips[0], now).1 {
        ReconcileSeqClean(Reconcile(s, ips[0], now).0, ips[1..], now);
      }
    }
  }

  lemma {:induction false} AgeOutClean(s: State, dead: seq<Ip>, now: nat)
    requires Clean(s)
    ensures Clean(AgeOut(s, dead, now))
    decreases |dead|
  {
    if dead != [] {
      var s1 := s.(store := S.Removed(s.store, dead[0]));
      ReconcileClean(s1, dead[0], now);
      if Reconcile(s1, dead[0], now).1 {
        AgeOutClean(Reconcile(s1, dead[0], now).0, dead[1..], now);
      }
    }
  }

  // ---- events ----

  lemma PreparedClean(s: State, next: Snap, now: nat)
    requires Clean(s) && CleanSnap(next)
    ensures Clean(Prepared(s, next, now))
  {
    var s1 := s.(snap := next, be := Retuned(s.be, s.snap, next, now));
    ReconcileMirrorClean(s1);
    ReconcileMirrorClean(WithdrawAllRoutes(s1));
  }

  lemma DiffClean(s: State, next: Snap, order: seq<Ip>, now: nat)
    requires Clean(s) && CleanSnap(next)
    ensures Clean(ApplyDiff(s, next, order, now))
  {
    PreparedClean(s, next, now);
    ReconcileSeqClean(Prepared(s, next, now), order, now);
  }

  lemma InitClean(s: State, order: seq<Ip>, fwd0: nat, now: nat)
    requires Clean(s)
    ensures Clean(InitSession(s, order, fwd0, now))
  {
    var first := Recompute(s.cfg, s.w);
    if first.up0Present && first.hostmac.Some? {
      var w := CreateVeth(s.cfg, s.w, fwd0);
      var snap := Recompute(s.cfg, w);
      RecomputeClean(s.cfg, w);
      var s1 := s.(be := s.be.Init(HostmacOr(snap, first.hostmac.value), snap.brmac, snap.HostIpSet(), s.cfg.timeout, now),
                   initialized := true, snap := snap, w := EnsureBridge(s.cfg, w));
      ReconcileMirrorClean(s1);
      ReconcileSeqClean(if s.cfg.IsFwd() then ReconcileMirror(s1) else s1, order, now);
    }
  }

  lemma TeardownClean(s: State)
    requires Clean(s)
    ensures Clean(Teardown(s))
  {
    LeftClean(UnproxyAll(WithdrawAllRoutes(s)).(installed := map[]).Mirror());
  }

  lemma NetlinkClean(s: State, order: seq<Ip>, fwd0: nat, now: nat)
    requires Clean(s)
    ensures Clean(OnNetlink(s, order, fwd0, now))
  {
    var next := Recompute(s.cfg, s.w);
    RecomputeClean(s.cfg, s.w);
    TeardownClean(s.(snap := next));
    InitClean(s.(snap := next), order, fwd0, now);
    DiffClean(s, next, order, now);
  }

  lemma LearnClean(s: State, ip: Ip, mac: Mac, now: nat)
    requires Clean(s)
    ensures Clean(DoLearn(s, ip, mac, now))
  {
    if IsLearnable(ip) {
      var (store, changed) := S.Learned(s.caps, s.store, ip, mac, now);
      StepOnlyLearnable(s, Learn(ip, mac, now));
      LearnFrame(s, ip, mac, now);
      ReconcileSeqClean(s.(store := store), changed, now);
    }
  }

  lemma CleanSame(s: State, t: State)
    requires Clean(s) && (t.store, t.w, t.mirroredBr, t.savedBr, t.snap) == (s.store, s.w, s.mirroredBr, s.savedBr, s.snap)
    ensures Clean(t)
  {
  }

  lemma TickClean(s: State, order: seq<Ip>, fwd0: nat, now: nat)
    requires Clean(s)
    ensures Clean(OnTick(s, order, fwd0, now))
  {
    if !s.initialized {
      NetlinkClean(s, order, fwd0, now);
    } else if s.cfg.Offload().Some? && (s.agingTick + 1) % 2 == 1 {
      CleanSame(s, OnTick(s, order, fwd0, now));
    } else {
      var s1 := s.(agingTick := s.agingTick + 1).(be := s.be.Do(B.Flush, now));
      CleanSame(s, s1);
      AgeOutClean(s1, order, now);
      assert OnTick(s, order, fwd0, now) == AgeOut(s1, order, now);
    }
  }

  lemma StepClean(s: State, ev: Event)
    requires Clean(s) && (ev.Outside? ==> CleanWorld(ev.w))
    ensures Clean(Step(s, ev))
  {
    match ev
    case Outside(w) =>
    case Netlink(order, fwd0, now) => NetlinkClean(s, order, fwd0, now);
    case Learn(ip, mac, now) => LearnClean(s, ip, mac, now);
    case Mark(ip, now) =>
    case Tick(order, fwd0, now) => TickClean(s, order, fwd0, now);
    case Shutdown => TeardownClean(s);
  }

  predicate CleanEvents(evs: seq<Event>) {
    forall ev | ev in evs && ev.Outside? :: CleanWorld(ev.w)
  }

  lemma {:induction false} RunClean(s: State, evs: seq<Event>)
    requires Clean(s) && CleanEvents(evs)
    ensures Clean(Run(s, evs))
    decreases |evs|
  {
    if evs != [] {
      StepClean(s, evs[0]);
      RunClean(Step(s, evs[0]), evs[1..]);
    }
  }

  /** After every run during which no interface ever shows the all-zero address, neither the
      host set nor the guest table of the running engine holds it. */
  lemma TablesHoldNoZeroKeys(s: State, evs: seq<Event>)
    requires IsInitial(s) && LegalRun(s, evs) && CleanWorld(s.w) && CleanEvents(evs)
    ensures var t := Run(s, evs);
            t.initialized ==> forall ip | ip in t.be.Hosts() + t.be.Table().Keys :: !IsZero(ip)
  {
    RunClean(s, evs);
    KernelFollowsEntries(s, evs);
    TableHoldsNoZeroKeys(s, evs);
  }
}
