/**
 What every run of the syncer keeps about the bridges and up0's addresses: the mirror's round
 trip, and that a netlink event with nothing new outside writes nothing.
 */
module CoreTopology {
  import opened Types
  import opened Topology
  import opened Mirror
  import opened Subnet
  import opened Core
  import opened CoreInvariant
  import opened CoreRuns
  import S = State
  import B = Backend

  // ---- the mirror over whole runs ----

  /** The mirror is on the current bridge, and only there, whenever a fwd session is up. */
  ghost predicate Mirrored(s: State, own: map<nat, Bridge>) {
    && MirrorInv(s.Mirror(), own, Ips(s.snap.up0Addrs))
    && s.mirroredBr == (if s.initialized && s.cfg.IsFwd() then s.snap.brIndex else None)
    && (s.cfg.IsFwd() ==> s.snap.hostIps == s.snap.up0Addrs)
    && (!s.snap.up0Present ==> s.snap == NO_SNAP)
  }

  /** Others leave the mirrored bridge's addresses and knobs alone while it is mirrored (it may
      vanish), and put no noprefixroute address on any other bridge. */
  ghost predicate Respects(s: State, w: World) {
    forall b | b in w.bridges ::
      if s.mirroredBr == Some(b) then
        b in s.w.bridges && w.bridges[b] == s.w.bridges[b].(mac := w.bridges[b].mac)
      else
        forall k | k in w.bridges[b].addrs :: !w.bridges[b].addrs[k].npr
  }

  /** What the bridges are without pbridge, after an event. */
  function OwnAfter(s: State, own: map<nat, Bridge>, ev: Event): map<nat, Bridge> {
    if !ev.Outside? then own
    else
      map b | b in own.Keys + ev.w.bridges.Keys ::
        if b in ev.w.bridges && (s.mirroredBr != Some(b) || b !in own) then ev.w.bridges[b] else own[b]
  }

  /** Neither mirror nor snapshot nor bridges move. */
  predicate SameMirror(s: State, t: State) {
    && t.Mirror() == s.Mirror()
    && (t.cfg, t.snap, t.initialized) == (s.cfg, s.snap, s.initialized)
  }

  lemma ForgottenSameMirror(s: State, ip: Ip)
    ensures SameMirror(s, Forgotten(s, ip))
  {
  }

  lemma InstalledSameMirror(s: State, ip: Ip, mac: Mac)
    ensures SameMirror(s, Installed(s, ip, mac))
  {
  }

  lemma ReconcileSameMirror(s: State, ip: Ip, now: nat)
    ensures SameMirror(s, Reconcile(s, ip, now).0)
  {
    if Wanted(s, ip).None? {
      ForgottenSameMirror(s.(be := s.be.Withdraw(ip, now).0), ip);
    } else {
      InstalledSameMirror(s.(be := s.be.Write(ip, Wanted(s, ip).value, now).0), ip, Wanted(s, ip).value);
    }
  }

  lemma {:induction false} ReconcileSeqSameMirror(s: State, ips: seq<Ip>, now: nat)
    ensures SameMirror(s, ReconcileSeq(s, ips, now).0)
    decreases |ips|
  {
    if ips != [] {
      ReconcileSameMirror(s, ips[0], now);
      ReconcileSeqSameMirror(Reconcile(s, ips[0], now).0, ips[1..], now);
    }
  }

  lemma {:induction false} AgeOutSameMirror(s: State, dead: seq<Ip>, now: nat)
    ensures SameMirror(s, AgeOut(s, dead, now))
    decreases |dead|
  {
    if dead != [] {
      var s1 := s.(store := S.Removed(s.store, dead[0]));
      ReconcileSameMirror(s1, dead[0], now);
      AgeOutSameMirror(Reconcile(s1, dead[0], now).0, dead[1..], now);
    }
  }

  /** reconcile_mirror against a snapshot whose view of the bridge is current. */
  lemma ReconcileMirrorKeeps(s: State, own: map<nat, Bridge>, ips: set<Ip>)
    requires s.cfg.IsFwd() && MirrorInv(s.Mirror(), own, ips)
    requires s.snap.brIndex.Some? ==>
               s.snap.brIndex.value in s.w.bridges && s.snap.brAddrs == s.w.bridges[s.snap.brIndex.value].addrs
    requires s.snap.brIndex.None? ==> s.snap.brAddrs == map[]
    ensures var t := ReconcileMirror(s);
            && MirrorInv(t.Mirror(), own, Ips(s.snap.up0Addrs))
            && t.mirroredBr == s.snap.brIndex
            && t.snap == s.snap && t.initialized == s.initialized && t.cfg == s.cfg
            && (s.snap.brIndex.Some? ==>
                  s.snap.brIndex.value in t.w.bridges && t.w.bridges[s.snap.brIndex.value].addrs.Keys == Want(s.snap))
  {
    ReconcileKeeps(s.Mirror(), own, ips, s.snap.brIndex, Want(s.snap));
    assert KeyIps(Want(s.snap)) == Ips(s.snap.up0Addrs);
  }

  lemma RecomputeReadsBridge(cfg: Config, w: World)
    ensures var snap := Recompute(cfg, w);
            && (snap.brIndex.Some? ==> snap.brIndex.value in w.bridges && snap.brAddrs == w.bridges[snap.brIndex.value].addrs)
            && (snap.brIndex.None? ==> snap.brAddrs == map[])
            && (cfg.IsFwd() ==> snap.hostIps == snap.up0Addrs)
  {
  }

  lemma TeardownLeavesMirror(s: State, own: map<nat, Bridge>, ips: set<Ip>)
    requires MirrorInv(s.Mirror(), own, ips) && (!s.initialized ==> s.mirroredBr.None?)
    requires !s.snap.up0Present ==> s.snap == NO_SNAP
    requires s.cfg.IsFwd() ==> s.snap.hostIps == s.snap.up0Addrs
    ensures Mirrored(Teardown(s), own)
  {
    LeaveRestores(s.Mirror(), own, ips);
  }

  lemma InitMirrors(s: State, own: map<nat, Bridge>, order: seq<Ip>, fwd0: nat, now: nat)
    requires Mirrored(s, own) && !s.initialized
    ensures Mirrored(InitSession(s, order, fwd0, now), own)
  {
    var first := Recompute(s.cfg, s.w);
    if first.up0Present && first.hostmac.Some? {
      var w := CreateVeth(s.cfg, s.w, fwd0);
      var snap := Recompute(s.cfg, w);
      RecomputeReadsBridge(s.cfg, w);
      var hostmac := HostmacOr(snap, first.hostmac.value);
      var s1 := s.(be := s.be.Init(hostmac, snap.brmac, snap.HostIpSet(), s.cfg.timeout, now),
                   initialized := true, snap := snap, w := EnsureBridge(s.cfg, w));
      if s.cfg.IsFwd() {
        ReconcileMirrorKeeps(s1, own, Ips(s.snap.up0Addrs));
      }
      ReconcileSeqSameMirror(if s.cfg.IsFwd() then ReconcileMirror(s1) else s1, order, now);
    }
  }

  /** The state before a diff reconciles already has its mirror in place. */
  lemma PreparedMirrors(s: State, own: map<nat, Bridge>, now: nat)
    requires Mirrored(s, own) && s.initialized
    ensures Mirrored(Prepared(s, Recompute(s.cfg, s.w), now), own)
  {
    var next := Recompute(s.cfg, s.w);
    RecomputeReadsBridge(s.cfg, s.w);
    var s1 := s.(snap := next, be := Retuned(s.be, s.snap, next, now));
    var s2 := if s.cfg.IsFwd() && BrChanged(s.snap, next) then WithdrawAllRoutes(s1) else s1;
    assert SameMirror(s1, s2);
    if s.cfg.IsFwd() && (HostIpsChanged(s.snap, next) || BrChanged(s.snap, next)) {
      ReconcileMirrorKeeps(s2, own, Ips(s.snap.up0Addrs));
    }
  }

  lemma DiffMirrors(s: State, own: map<nat, Bridge>, order: seq<Ip>, now: nat)
    requires Mirrored(s, own) && s.initialized
    ensures Mirrored(ApplyDiff(s, Recompute(s.cfg, s.w), order, now), own)
  {
    var next := Recompute(s.cfg, s.w);
    PreparedMirrors(s, own, now);
    ReconcileSeqSameMirror(Prepared(s, next, now), order, now);
  }

  lemma NetlinkMirrors(s: State, own: map<nat, Bridge>, order: seq<Ip>, fwd0: nat, now: nat)
    requires Mirrored(s, own)
    ensures Mirrored(OnNetlink(s, order, fwd0, now), own)
  {
    var next := Recompute(s.cfg, s.w);
    RecomputeReadsBridge(s.cfg, s.w);
    if s.snap.up0Present && !next.up0Present {
      TeardownLeavesMirror(s.(snap := next), own, Ips(s.snap.up0Addrs));
    } else if next.up0Present && !s.initialized {
      InitMirrors(s.(snap := next), own, order, fwd0, now);
    } else if s.initialized && (s.snap.up0Present || next.up0Present) {
      DiffMirrors(s, own, order, now);
    }
  }

  lemma OutsideMirrors(s: State, own: map<nat, Bridge>, w: World)
    requires Mirrored(s, own) && Respects(s, w)
    ensures Mirrored(s.(w := w), OwnAfter(s, own, Outside(w)))
  {
  }

  lemma LearnMirrors(s: State, own: map<nat, Bridge>, ip: Ip, mac: Mac, now: nat)
    requires Mirrored(s, own)
    ensures Mirrored(DoLearn(s, ip, mac, now), own)
  {
    var (store, changed) := S.Learned(s.caps, s.store, ip, mac, now);
    ReconcileSeqSameMirror(s.(store := store), changed, now);
  }

  lemma SameMirrorStays(s: State, t: State, own: map<nat, Bridge>)
    requires Mirrored(s, own) && SameMirror(s, t)
    ensures Mirrored(t, own)
  {
  }

  lemma TickSameMirror(s: State, order: seq<Ip>, fwd0: nat, now: nat)
    requires s.initialized
    ensures SameMirror(s, OnTick(s, order, fwd0, now))
  {
    AgeOutSameMirror(s.(agingTick := s.agingTick + 1, be := s.be.Do(B.Flush, now)), order, now);
  }

  lemma TickMirrors(s: State, own: map<nat, Bridge>, order: seq<Ip>, fwd0: nat, now: nat)
    requires Mirrored(s, own) && s.initialized
    ensures Mirrored(OnTick(s, order, fwd0, now), own)
  {
    TickSameMirror(s, order, fwd0, now);
    SameMirrorStays(s, OnTick(s, order, fwd0, now), own);
  }

  lemma StepMirrors(s: State, own: map<nat, Bridge>, ev: Event)
    requires Mirrored(s, own) && (ev.Outside? ==> Respects(s, ev.w))
    ensures Mirrored(Step(s, ev), OwnAfter(s, own, ev))
  {
    match ev
    case Outside(w) => OutsideMirrors(s, own, w);
    case Netlink(order, fwd0, now) => NetlinkMirrors(s, own, order, fwd0, now);
    case Learn(ip, mac, now) => LearnMirrors(s, own, ip, mac, now);
    case Mark(ip, now) =>
    case Tick(order, fwd0, now) =>
      if s.initialized {
        TickMirrors(s, own, order, fwd0, now);
      } else {
        NetlinkMirrors(s, own, order, fwd0, now);
      }
    case Shutdown => TeardownLeavesMirror(s, own, Ips(s.snap.up0Addrs));
  }

  ghost predicate RespectfulRun(s: State, evs: seq<Event>)
    decreases |evs|
  {
    evs == []
    || ((evs[0].Outside? ==> Respects(s, evs[0].w)) && RespectfulRun(Step(s, evs[0]), evs[1..]))
  }

  ghost function OwnRun(s: State, own: map<nat, Bridge>, evs: seq<Event>): map<nat, Bridge>
    decreases |evs|
  {
    if evs == [] then own else OwnRun(Step(s, evs[0]), OwnAfter(s, own, evs[0]), evs[1..])
  }

  lemma {:induction false} RunMirrors(s: State, own: map<nat, Bridge>, evs: seq<Event>)
    requires Mirrored(s, own) && RespectfulRun(s, evs)
    ensures Mirrored(Run(s, evs), OwnRun(s, own, evs))
    decreases |evs|
  {
    if evs != [] {
      StepMirrors(s, own, evs[0]);
      RunMirrors(Step(s, evs[0]), OwnAfter(s, own, evs[0]), evs[1..]);
    }
  }

  /** No bridge has a mirrored address: nobody mirrored here before. */
  ghost predicate Untouched(bridges: map<nat, Bridge>) {
    forall b | b in bridges :: forall k | k in bridges[b].addrs :: !bridges[b].addrs[k].npr
  }

  /** At most one bridge carries mirrored addresses, it is the current one, it carries nothing
      else, covers exactly up0's addresses and generates none of its own; every other bridge has
      its own knobs and global addresses. */
  ghost predicate OneMirror(t: State, own: map<nat, Bridge>) {
    && t.mirroredBr == (if t.initialized && t.cfg.IsFwd() then t.snap.brIndex else None)
    && (forall b | b in t.w.bridges :: b in own)
    && (forall b | b in t.w.bridges && t.mirroredBr != Some(b) :: AsOwned(t.w.bridges[b], own[b]))
    && (forall b | b in t.w.bridges && t.mirroredBr == Some(b) ::
          var a := t.w.bridges[b].addrs;
          && (forall k | k in a :: IsMirrored(k, a[k])) && Ips(a) == Ips(t.snap.up0Addrs)
          && t.w.bridges[b].addrGenMode == "1" && t.w.bridges[b].acceptRa == "0")
  }

  lemma MirroredIsOne(t: State, own: map<nat, Bridge>)
    requires Mirrored(t, own)
    ensures OneMirror(t, own)
  {
  }

  lemma InitialMirrored(s: State)
    requires IsInitial(s) && Untouched(s.w.bridges)
    ensures Mirrored(s, s.w.bridges)
  {
  }

  /** Over every run of attach, switch, detach, address change and teardown, with others
      respecting the mirrored bridge: one mirror, on the current bridge, and every other bridge
      as its owner left it. */
  lemma MirrorRoundTrip(s: State, evs: seq<Event>)
    requires IsInitial(s) && RespectfulRun(s, evs) && Untouched(s.w.bridges)
    ensures OneMirror(Run(s, evs), OwnRun(s, s.w.bridges, evs))
  {
    InitialMirrored(s);
    RunMirrors(s, s.w.bridges, evs);
    MirroredIsOne(Run(s, evs), OwnRun(s, s.w.bridges, evs));
  }

  /** With prefix lengths the mirror is exact after a diff precisely when the set of addresses
      or the bridge changed, or it was exact already: a change of prefix length alone is missed. */
  lemma MirrorExactIff(s: State, own: map<nat, Bridge>, order: seq<Ip>, now: nat)
    requires Mirrored(s, own) && s.initialized && s.cfg.IsFwd()
    requires Recompute(s.cfg, s.w).brIndex.Some?
    ensures var next := Recompute(s.cfg, s.w);
            var br := next.brIndex.value;
            var t := ApplyDiff(s, next, order, now);
            && br in t.w.bridges
            && (t.w.bridges[br].addrs.Keys == Want(next)
                <==> || HostIpsChanged(s.snap, next) || BrChanged(s.snap, next)
                     || s.w.bridges[br].addrs.Keys == Want(next))
  {
    var next := Recompute(s.cfg, s.w);
    RecomputeReadsBridge(s.cfg, s.w);
    var s1 := s.(snap := next, be := Retuned(s.be, s.snap, next, now));
    var s2 := if BrChanged(s.snap, next) then WithdrawAllRoutes(s1) else s1;
    if HostIpsChanged(s.snap, next) || BrChanged(s.snap, next) {
      ReconcileMirrorKeeps(s2, own, Ips(s.snap.up0Addrs));
    }
    ReconcileSeqSameMirror(Prepared(s, next, now), order, now);
  }

  // ---- a repeated event writes nothing ----

  /** No proxy address is, with its host prefix length, an address the host itself shows. */
  ghost predicate Hidden(s: State) {
    && (s.cfg.Offload().None? ==> s.proxied == {})
    && forall ip | ip in s.proxied :: HostKey(ip) !in Visible(s.cfg, s.w.up0Addrs)
  }

  /** The snapshot's view of up0 is current. */
  predicate SeesUp0(s: State) {
    s.snap.up0Addrs == Visible(s.cfg, s.w.up0Addrs) && (s.cfg.IsFwd() ==> s.snap.hostIps == s.snap.up0Addrs)
  }

  lemma ForgottenHides(s: State, ip: Ip)
    requires Hidden(s) && SeesUp0(s)
    ensures Hidden(Forgotten(s, ip)) && SeesUp0(Forgotten(s, ip))
  {
    var t := Forgotten(s, ip);
    if ip in s.proxied {
      assert Visible(s.cfg, s.w.up0Addrs - {HostKey(ip)}) == Visible(s.cfg, s.w.up0Addrs);
    }
  }

  /** A tagged address is invisible to recompute. */
  lemma TaggedIsInvisible(cfg: Config, a: Addrs, ip: Ip)
    requires cfg.Offload().Some? && HostKey(ip) !in a
    ensures Visible(cfg, a[HostKey(ip) := ProxyFlags(cfg, ip)]) == Visible(cfg, a)
  {
  }

  lemma InstalledHides(s: State, ip: Ip, mac: Mac)
    requires Hidden(s) && SeesUp0(s) && ip !in s.snap.HostIpSet()
    ensures Hidden(Installed(s, ip, mac)) && SeesUp0(Installed(s, ip, mac))
  {
    var t, a := Installed(s, ip, mac), s.w.up0Addrs;
    if ip !in s.proxied && ip in t.proxied {
      if HostKey(ip) !in a {
        TaggedIsInvisible(s.cfg, a, ip);
      }
      assert Visible(s.cfg, t.w.up0Addrs) == Visible(s.cfg, a) == s.snap.hostIps;
      assert HostKey(ip) !in s.snap.hostIps;
    } else {
      assert t.proxied == s.proxied && t.w == s.w;
    }
  }

  lemma ReconcileHides(s: State, ip: Ip, now: nat)
    requires Hidden(s) && SeesUp0(s)
    ensures Hidden(Reconcile(s, ip, now).0) && SeesUp0(Reconcile(s, ip, now).0)
  {
    if Wanted(s, ip).None? {
      ForgottenHides(s.(be := s.be.Withdraw(ip, now).0), ip);
    } else {
      InstalledHides(s.(be := s.be.Write(ip, Wanted(s, ip).value, now).0), ip, Wanted(s, ip).value);
    }
  }

  /** Everything recompute reads but up0's hidden addresses and the bridge's own addresses. */
  predicate SameLinks(w: World, v: World) {
    && v == w.(up0Addrs := v.up0Addrs, bridges := v.bridges)
    && v.bridges.Keys == w.bridges.Keys
    && forall b | b in w.bridges :: v.bridges[b].mac == w.bridges[b].mac
  }

  /** Of the world a reconcile moves up0's addresses alone, and those only for a proxy. */
  predicate OnlyUp0(s: State, t: State) {
    && t.w == s.w.(up0Addrs := t.w.up0Addrs)
    && (s.cfg.Offload().None? && s.proxied == {} ==> t.w == s.w && t.proxied == {})
  }

  lemma ForgottenOnlyUp0(s: State, ip: Ip)
    ensures OnlyUp0(s, Forgotten(s, ip))
  {
  }

  lemma InstalledOnlyUp0(s: State, ip: Ip, mac: Mac)
    ensures OnlyUp0(s, Installed(s, ip, mac))
  {
  }

  lemma ReconcileOnlyUp0(s: State, ip: Ip, now: nat)
    ensures OnlyUp0(s, Reconcile(s, ip, now).0)
  {
    if Wanted(s, ip).None? {
      ForgottenOnlyUp0(s.(be := s.be.Withdraw(ip, now).0), ip);
    } else {
      InstalledOnlyUp0(s.(be := s.be.Write(ip, Wanted(s, ip).value, now).0), ip, Wanted(s, ip).value);
    }
  }

  lemma {:induction false} ReconcileSeqHides(s: State, ips: seq<Ip>, now: nat)
    requires Hidden(s) && SeesUp0(s)
    ensures var t := ReconcileSeq(s, ips, now).0;
            && Hidden(t) && SeesUp0(t)
            && t.w == s.w.(up0Addrs := t.w.up0Addrs)
            && (s.cfg.Offload().None? ==> t.w == s.w)
    decreases |ips|
  {
    if ips != [] {
      var s1 := Reconcile(s, ips[0], now).0;
      ReconcileSameMirror(s, ips[0], now);
      ReconcileHides(s, ips[0], now);
      ReconcileOnlyUp0(s, ips[0], now);
      ReconcileSeqHides(s1, ips[1..], now);
    }
  }

  /** The snapshot is current, save for the bridge addresses the mirror itself changes. */
  predicate Fresh(s: State) {
    s.snap == Recompute(s.cfg, s.w).(brAddrs := s.snap.brAddrs)
  }

  lemma SameLinksSameSnap(cfg: Config, w: World, v: World)
    requires SameLinks(w, v) && Visible(cfg, w.up0Addrs) == Visible(cfg, v.up0Addrs)
    requires cfg.IsFwd() || v == w
    ensures Recompute(cfg, v) == Recompute(cfg, w).(brAddrs := Recompute(cfg, v).brAddrs)
  {
  }

  predicate SameMacs(m: MirrorState, t: MirrorState) {
    t.bridges.Keys == m.bridges.Keys && forall b | b in m.bridges :: t.bridges[b].mac == m.bridges[b].mac
  }

  lemma LeftSameMacs(m: MirrorState)
    ensures SameMacs(m, Left(m))
  {
    if m.at.Some? {
      assert SameMacs(m, Cleaned(m, m.at.value));
    }
  }

  lemma AppliedSameMacs(m: MirrorState, br: nat)
    ensures SameMacs(m, Applied(m, br))
  {
  }

  lemma FilledSameMacs(m: MirrorState, br: nat, want: set<Key>, had: set<Key>)
    ensures SameMacs(m, Filled(m, br, want, had))
  {
  }

  lemma MirrorSameLinks(m: MirrorState, target: Option<nat>, want: set<Key>, have: Addrs)
    ensures SameMacs(m, Reconciled(m, target, want, have))
  {
    LeftSameMacs(m);
    var m1 := if m.at != target then Left(m) else m;
    if target.Some? {
      AppliedSameMacs(m1, target.value);
      FilledSameMacs(if m1.at.None? then Applied(m1, target.value) else m1, target.value, want, MirroredKeys(have));
    }
  }

  lemma ReconcileMirrorSameLinks(s: State)
    ensures var t := ReconcileMirror(s);
            && SameLinks(s.w, t.w)
            && t == s.(w := s.w.(bridges := t.w.bridges), mirroredBr := t.mirroredBr, savedBr := t.savedBr)
  {
    MirrorSameLinks(s.Mirror(), if s.cfg.IsFwd() then s.snap.brIndex else None, Want(s.snap), s.snap.brAddrs);
  }

  lemma PreparedSameLinks(s: State, now: nat)
    requires Hidden(s) && Recompute(s.cfg, s.w).up0Present
    ensures var t := Prepared(s, Recompute(s.cfg, s.w), now);
            && Hidden(t) && SeesUp0(t) && SameLinks(s.w, t.w) && t.w.up0Addrs == s.w.up0Addrs
            && t.snap == Recompute(s.cfg, s.w) && t.cfg == s.cfg && t.initialized == s.initialized
            && (!s.cfg.IsFwd() ==> t.w == s.w)
  {
    var next := Recompute(s.cfg, s.w);
    var s1 := s.(snap := next, be := Retuned(s.be, s.snap, next, now));
    var s2 := if s.cfg.IsFwd() && BrChanged(s.snap, next) then WithdrawAllRoutes(s1) else s1;
    assert Hidden(s2) && SeesUp0(s2);
    ReconcileMirrorSameLinks(s2);
  }

  /** A diff leaves a snapshot that a second recompute only repeats. */
  lemma DiffLeavesFresh(s: State, order: seq<Ip>, now: nat)
    requires Hidden(s) && Recompute(s.cfg, s.w).up0Present
    ensures var t := ApplyDiff(s, Recompute(s.cfg, s.w), order, now);
            Fresh(t) && Hidden(t) && t.snap.up0Present && t.initialized == s.initialized
  {
    var next := Recompute(s.cfg, s.w);
    var p := Prepared(s, next, now);
    PreparedSameLinks(s, now);
    ReconcileSeqHides(p, order, now);
    ReconcileSeqSameMirror(p, order, now);
    var t := ApplyDiff(s, next, order, now);
    SameLinksSameSnap(s.cfg, s.w, t.w);
  }

  // ---- sessions that start ----

  /** The event starts a session. */
  predicate Starts(s: State) {
    !s.initialized && Recompute(s.cfg, s.w).up0Present && Recompute(s.cfg, s.w).hostmac.Some?
  }

  /** --bridge names a bridge the guest port is not in yet. */
  predicate Enslaves(cfg: Config, w: World)
    requires w.up0.Some?
  {
    EnsureBridge(cfg, w) != w
  }

  lemma EnslavedIsSeen(cfg: Config, w: World)
    requires w.up0.Some?
    ensures EnsureBridge(cfg, w).up0.Some?
    ensures Enslaves(cfg, w) ==> Recompute(cfg, EnsureBridge(cfg, w)).brIndex != Recompute(cfg, w).brIndex
  {
  }

  /** What a fresh session looks like before it reconciles its entries. */
  function Started(s: State, fwd0: nat, now: nat): State
    requires s.w.up0.Some? && Recompute(s.cfg, s.w).hostmac.Some?
  {
    var w := CreateVeth(s.cfg, s.w, fwd0);
    var snap := Recompute(s.cfg, w);
    var hostmac := HostmacOr(snap, Recompute(s.cfg, s.w).hostmac.value);
    var s1 := s.(be := s.be.Init(hostmac, snap.brmac, snap.HostIpSet(), s.cfg.timeout, now),
                 initialized := true, snap := snap, w := EnsureBridge(s.cfg, w));
    if s.cfg.IsFwd() then ReconcileMirror(s1) else s1
  }

  lemma InitIsStarted(s: State, order: seq<Ip>, fwd0: nat, now: nat)
    requires s.w.up0.Some? && Recompute(s.cfg, s.w).hostmac.Some?
    ensures InitSession(s, order, fwd0, now) == ReconcileSeq(Started(s, fwd0, now), order, now).0
  {
  }

  lemma StartedLinks(s: State, fwd0: nat, now: nat)
    requires s.w.up0.Some? && Recompute(s.cfg, s.w).hostmac.Some? && s.proxied == {}
    ensures var t, w := Started(s, fwd0, now), CreateVeth(s.cfg, s.w, fwd0);
            && Hidden(t) && SeesUp0(t) && SameLinks(EnsureBridge(s.cfg, w), t.w) && t.w.up0Addrs == s.w.up0Addrs
            && t.snap == Recompute(s.cfg, w) && t.snap.up0Present && t.cfg == s.cfg && t.initialized
            && (!s.cfg.IsFwd() ==> t.w == EnsureBridge(s.cfg, w))
  {
    var w := CreateVeth(s.cfg, s.w, fwd0);
    var snap := Recompute(s.cfg, w);
    var hostmac := HostmacOr(snap, Recompute(s.cfg, s.w).hostmac.value);
    var s1 := s.(be := s.be.Init(hostmac, snap.brmac, snap.HostIpSet(), s.cfg.timeout, now),
                 initialized := true, snap := snap, w := EnsureBridge(s.cfg, w));
    assert Visible(s.cfg, s1.w.up0Addrs) == Visible(s.cfg, w.up0Addrs);
    ReconcileMirrorSameLinks(s1);
  }

  lemma SameLinksSameMaster(cfg: Config, w: World, v: World)
    requires SameLinks(w, v) && w.up0.Some?
    ensures v.up0.Some? && Recompute(cfg, v).brIndex == Recompute(cfg, w).brIndex
  {
  }

  /** A started session is fresh unless it moved the guest port into its bridge; then the next
      recompute sees a bridge the session does not. */
  lemma InitLeavesFresh(s: State, order: seq<Ip>, fwd0: nat, now: nat)
    requires Starts(s) && s.proxied == {}
    ensures var t, w := InitSession(s, order, fwd0, now), CreateVeth(s.cfg, s.w, fwd0);
            && Hidden(t) && t.snap.up0Present && t.initialized && t.cfg == s.cfg && t.w.up0.Some?
            && (!Enslaves(s.cfg, w) ==> Fresh(t))
            && (Enslaves(s.cfg, w) ==> Recompute(t.cfg, t.w).brIndex != t.snap.brIndex)
  {
    var p, w, t := Started(s, fwd0, now), CreateVeth(s.cfg, s.w, fwd0), InitSession(s, order, fwd0, now);
    var v := EnsureBridge(s.cfg, w);
    InitIsStarted(s, order, fwd0, now);
    StartedLinks(s, fwd0, now);
    EnslavedIsSeen(s.cfg, w);
    ReconcileSeqHides(p, order, now);
    ReconcileSeqSameMirror(p, order, now);
    assert SameLinks(v, t.w);
    SameLinksSameMaster(s.cfg, v, t.w);
    if !Enslaves(s.cfg, w) {
      SameLinksSameSnap(s.cfg, w, t.w);
    }
  }

  /** On a fresh session a further event changes nothing. */
  lemma FreshIsQuiet(t: State, order: seq<Ip>, fwd0: nat, now: nat)
    requires t.initialized && t.snap.up0Present && t.w.up0.Some?
    ensures OnNetlink(t, order, fwd0, now) == t.(snap := t.snap.(brAddrs := Recompute(t.cfg, t.w).brAddrs)) <==> Fresh(t)
  {
    var next := Recompute(t.cfg, t.w);
    assert OnNetlink(t, order, fwd0, now) == ApplyDiff(t, next, order, now);
    if !Fresh(t) {
      ReconcileSeqSameMirror(Prepared(t, next, now), order, now);
      assert OnNetlink(t, order, fwd0, now).snap == next by { PreparedSnap(t, next, now); }
    }
  }

  lemma PreparedSnap(s: State, next: Snap, now: nat)
    ensures Prepared(s, next, now).snap == next
  {
  }

  /** Nothing outside changed since the last event, whatever that event did: a further one
      touches neither the backend nor routes nor addresses, exactly unless the first started a
      session and moved the guest port into its bridge. */
  lemma NetlinkIsIdempotent(s: State, order: seq<Ip>, fwd0: nat, now: nat, order': seq<Ip>, fwd0': nat, now': nat)
    requires Hidden(s) && (!s.initialized ==> s.proxied == {}) && (!s.snap.up0Present ==> s.snap == NO_SNAP)
    ensures var t := OnNetlink(s, order, fwd0, now);
            OnNetlink(t, order', fwd0', now') == t.(snap := t.snap.(brAddrs := Recompute(t.cfg, t.w).brAddrs))
            <==> !(Starts(s) && Enslaves(s.cfg, CreateVeth(s.cfg, s.w, fwd0)))
  {
    var next, t := Recompute(s.cfg, s.w), OnNetlink(s, order, fwd0, now);
    if Starts(s) {
      InitLeavesFresh(s.(snap := next), order, fwd0, now);
      FreshIsQuiet(t, order', fwd0', now');
    } else if s.initialized && next.up0Present {
      DiffLeavesFresh(s, order, now);
      FreshIsQuiet(t, order', fwd0', now');
    } else {
      DownIsQuiet(s, order, fwd0, now, order', fwd0', now');
    }
  }

  /** Without a session, and without one to start, a repeated event changes nothing. */
  lemma DownIsQuiet(s: State, order: seq<Ip>, fwd0: nat, now: nat, order': seq<Ip>, fwd0': nat, now': nat)
    requires !Starts(s) && (s.initialized ==> s.w.up0.None?) && (!s.snap.up0Present ==> s.snap == NO_SNAP)
    ensures var t := OnNetlink(s, order, fwd0, now);
            OnNetlink(t, order', fwd0', now') == t.(snap := t.snap.(brAddrs := Recompute(t.cfg, t.w).brAddrs))
  {
  }

  // ---- when no proxy shadows the host, over runs ----

  lemma ForgottenKeepsHidden(s: State, ip: Ip)
    requires Hidden(s)
    ensures Hidden(Forgotten(s, ip))
    ensures Visible(s.cfg, Forgotten(s, ip).w.up0Addrs).Keys <= Visible(s.cfg, s.w.up0Addrs).Keys
  {
  }

  lemma InstalledKeepsHidden(s: State, ip: Ip, mac: Mac)
    requires Hidden(s) && HostKey(ip) !in Visible(s.cfg, s.w.up0Addrs)
    ensures Hidden(Installed(s, ip, mac))
    ensures Visible(s.cfg, Installed(s, ip, mac).w.up0Addrs).Keys <= Visible(s.cfg, s.w.up0Addrs).Keys
  {
    var t, a := Installed(s, ip, mac), s.w.up0Addrs;
    if s.cfg.Offload().Some? {
      if HostKey(ip) !in a {
        TaggedIsInvisible(s.cfg, a, ip);
      }
      assert Visible(s.cfg, t.w.up0Addrs) == Visible(s.cfg, a);
    } else {
      assert t.proxied == s.proxied && t.w == s.w;
    }
  }

  /** No wanted address of the list is one the host shows. */
  ghost predicate Unclaimed(s: State, ips: seq<Ip>) {
    forall x | x in ips && Wanted(s, x).Some? :: HostKey(x) !in Visible(s.cfg, s.w.up0Addrs)
  }

  lemma ReconcileKeepsHidden(s: State, ip: Ip, now: nat)
    requires Hidden(s) && (Wanted(s, ip).Some? ==> HostKey(ip) !in Visible(s.cfg, s.w.up0Addrs))
    ensures var t := Reconcile(s, ip, now).0;
            Hidden(t) && Visible(s.cfg, t.w.up0Addrs).Keys <= Visible(s.cfg, s.w.up0Addrs).Keys
  {
    var want := Wanted(s, ip);
    if want.None? {
      ForgottenKeepsHidden(s.(be := s.be.Withdraw(ip, now).0), ip);
    } else {
      InstalledKeepsHidden(s.(be := s.be.Write(ip, want.value, now).0), ip, want.value);
    }
  }

  lemma {:induction false} ReconcileSeqKeepsHidden(s: State, ips: seq<Ip>, now: nat)
    requires Hidden(s) && Unclaimed(s, ips)
    ensures Hidden(ReconcileSeq(s, ips, now).0)
    decreases |ips|
  {
    if ips != [] {
      var s1 := Reconcile(s, ips[0], now).0;
      ReconcileKeepsHidden(s, ips[0], now);
      ReconcileSameBook(s, ips[0], now);
      if Reconcile(s, ips[0], now).1 {
        assert Unclaimed(s1, ips[1..]) by {
          forall x | x in ips[1..] && Wanted(s1, x).Some? ensures HostKey(x) !in Visible(s1.cfg, s1.w.up0Addrs) {
            assert x in ips && Wanted(s, x) == Wanted(s1, x);
          }
        }
        ReconcileSeqKeepsHidden(s1, ips[1..], now);
      }
    }
  }

  lemma {:induction false} AgeOutKeepsHidden(s: State, dead: seq<Ip>, now: nat)
    requires Hidden(s)
    ensures Hidden(AgeOut(s, dead, now))
    decreases |dead|
  {
    if dead != [] {
      var s1 := s.(store := S.Removed(s.store, dead[0]));
      assert Wanted(s1, dead[0]).None?;
      ReconcileKeepsHidden(s1, dead[0], now);
      if Reconcile(s1, dead[0], now).1 {
        AgeOutKeepsHidden(Reconcile(s1, dead[0], now).0, dead[1..], now);
      }
    }
  }

  /** Nobody gives up0 an address, with its host prefix length, that is proxied there, and no
      guest is learned at one that up0 was given since the last netlink event. */
  ghost predicate Courteous(s: State, ev: Event) {
    match ev
    case Outside(w) => forall ip | ip in s.proxied :: HostKey(ip) !in Visible(s.cfg, w.up0Addrs)
    case Learn(ip, _, _) => ip in s.snap.HostIpSet() || HostKey(ip) !in Visible(s.cfg, s.w.up0Addrs)
    case _ => true
  }

  ghost predicate CourteousRun(s: State, evs: seq<Event>)
    decreases |evs|
  {
    evs == [] || (Legal(s, evs[0]) && Courteous(s, evs[0]) && CourteousRun(Step(s, evs[0]), evs[1..]))
  }

  lemma NetlinkKeepsHidden(s: State, order: seq<Ip>, fwd0: nat, now: nat)
    requires Inv(s) && Hidden(s)
    ensures Hidden(OnNetlink(s, order, fwd0, now))
  {
    var next := Recompute(s.cfg, s.w);
    if Starts(s) {
      InitLeavesFresh(s.(snap := next), order, fwd0, now);
    } else if s.initialized && next.up0Present {
      DiffLeavesFresh(s, order, now);
    }
  }

  lemma LearnKeepsHidden(s: State, ip: Ip, mac: Mac, now: nat)
    requires Hidden(s) && Courteous(s, Learn(ip, mac, now))
    ensures Hidden(DoLearn(s, ip, mac, now))
  {
    if IsLearnable(ip) {
      var (store, changed) := S.Learned(s.caps, s.store, ip, mac, now);
      var s1 := s.(store := store);
      forall x | x in changed && Wanted(s1, x).Some? ensures HostKey(x) !in Visible(s1.cfg, s1.w.up0Addrs) {
        OnlyTheNew(s.caps, s.store, ip, mac, now, x);
      }
      ReconcileSeqKeepsHidden(s1, changed, now);
    }
  }

  /** Of the changed addresses only the learned one is still an entry. */
  lemma OnlyTheNew(caps: S.Caps, store: S.Store, ip: Ip, mac: Mac, now: nat, x: Ip)
    requires var (after, changed) := S.Learned(caps, store, ip, mac, now); x in changed && x in after.entries
    ensures x == ip
  {
  }

  lemma TickKeepsHidden(s: State, order: seq<Ip>, fwd0: nat, now: nat)
    requires Inv(s) && Hidden(s)
    ensures Hidden(OnTick(s, order, fwd0, now))
  {
    if !s.initialized {
      NetlinkKeepsHidden(s, order, fwd0, now);
    } else {
      AgeOutKeepsHidden(s.(agingTick := s.agingTick + 1, be := s.be.Do(B.Flush, now)), order, now);
    }
  }

  lemma StepKeepsHidden(s: State, ev: Event)
    requires Inv(s) && Hidden(s) && Courteous(s, ev)
    ensures Hidden(Step(s, ev))
  {
    match ev
    case Outside(w) =>
    case Netlink(order, fwd0, now) => NetlinkKeepsHidden(s, order, fwd0, now);
    case Learn(ip, mac, now) => LearnKeepsHidden(s, ip, mac, now);
    case Mark(ip, now) =>
    case Tick(order, fwd0, now) => TickKeepsHidden(s, order, fwd0, now);
    case Shutdown =>
  }

  lemma {:induction false} RunKeepsHidden(s: State, evs: seq<Event>)
    requires Inv(s) && Hidden(s) && CourteousRun(s, evs)
    ensures Inv(Run(s, evs)) && Hidden(Run(s, evs))
    decreases |evs|
  {
    if evs != [] {
      StepKeepsInv(s, evs[0]);
      StepKeepsHidden(s, evs[0]);
      RunKeepsHidden(Step(s, evs[0]), evs[1..]);
    }
  }

  /** After every courteous run no proxy shadows the host, so what the netlink events of such
      runs leave is stable. */
  lemma RunsSettle(s: State, evs: seq<Event>, order: seq<Ip>, fwd0: nat, now: nat, order': seq<Ip>, fwd0': nat, now': nat)
    requires IsInitial(s) && CourteousRun(s, evs)
    ensures var d := Run(s, evs);
            var t := OnNetlink(d, order, fwd0, now);
            && Hidden(d)
            && (OnNetlink(t, order', fwd0', now') == t.(snap := t.snap.(brAddrs := Recompute(t.cfg, t.w).brAddrs))
                <==> !(Starts(d) && Enslaves(d.cfg, CreateVeth(d.cfg, d.w, fwd0))))
  {
    InitialInv(s);
    RunKeepsHidden(s, evs);
    NetlinkIsIdempotent(Run(s, evs), order, fwd0, now, order', fwd0', now');
  }

  // ---- when a withdrawn proxy takes the host's own address with it ----

  ghost predicate Lost(s: State, ip: Ip) {
    ip !in s.proxied && HostKey(ip) !in s.w.up0Addrs
  }

  lemma ForgottenLoses(s: State, x: Ip, ip: Ip)
    requires Up0Current(s) && (Lost(s, ip) || (x == ip && ip in s.proxied))
    ensures Lost(Forgotten(s, x), ip)
  {
  }

  lemma InstalledKeepsLost(s: State, x: Ip, mac: Mac, ip: Ip)
    requires x != ip && Lost(s, ip)
    ensures Lost(Installed(s, x, mac), ip)
  {
  }

  lemma ReconcileLoses(s: State, x: Ip, ip: Ip, now: nat)
    requires Live(s) && RoutesPlausible(s) && Up0Current(s) && Wanted(s, ip).None?
    requires Lost(s, ip) || (x == ip && ip in s.proxied)
    ensures Lost(Reconcile(s, x, now).0, ip)
  {
    ReconcileSettles(s, x, now);
    if Wanted(s, x).None? {
      ForgottenLoses(s.(be := s.be.Withdraw(x, now).0), x, ip);
    } else {
      InstalledKeepsLost(s.(be := s.be.Write(x, Wanted(s, x).value, now).0), x, Wanted(s, x).value, ip);
    }
  }

  lemma {:induction false} ReconcileSeqLoses(s: State, ips: seq<Ip>, ip: Ip, now: nat)
    requires Live(s) && RoutesPlausible(s) && Up0Current(s) && Wanted(s, ip).None?
    requires Lost(s, ip) || (ip in ips && ip in s.proxied)
    ensures Lost(ReconcileSeq(s, ips, now).0, ip)
    decreases |ips|
  {
    if ips != [] {
      var x := ips[0];
      var s1 := Reconcile(s, x, now).0;
      ReconcileSettles(s, x, now);
      if Lost(s, ip) || x == ip {
        ReconcileLoses(s, x, ip, now);
      } else {
        assert SameAt(s, s1, ip);
      }
      ReconcileSeqLoses(s1, ips[1..], ip, now);
    }
  }

  lemma ProxiedHostAddressIsLost(s: State, ip: Ip, order: seq<Ip>, now: nat)
    requires Inv(s) && s.initialized && s.cfg.IsFwd() && ToSet(order) == s.store.entries.Keys
    requires s.w.up0.Some? && s.w.up0.value.index != 0
    requires ip in s.proxied && HostKey(ip) in Visible(s.cfg, s.w.up0Addrs)
    ensures HostKey(ip) !in ApplyDiff(s, Recompute(s.cfg, s.w), order, now).w.up0Addrs
  {
    var next := Recompute(s.cfg, s.w);
    assert Agrees(s, ip);
    assert HostKey(ip).0 in next.HostIpSet();
    assert HostIpsChanged(s.snap, next);
    PreparedIsLive(s, next, now);
    var p := Prepared(s, next, now);
    assert p.w.up0 == s.w.up0;
    assert ip in ToSet(order);
    ReconcileSeqLoses(p, order, ip, now);
  }

  /** A netlink event leaves the host's visible addresses alone exactly when no proxied guest
      address is also, with its /32 or /128, one of them; otherwise the event deletes it. */
  lemma HostAddressesKeptIff(s: State, order: seq<Ip>, fwd0: nat, now: nat)
    requires Inv(s) && s.initialized && s.cfg.Offload().Some? && ToSet(order) == s.store.entries.Keys
    requires s.w.up0.Some? && s.w.up0.value.index != 0
    ensures Visible(s.cfg, OnNetlink(s, order, fwd0, now).w.up0Addrs) == Visible(s.cfg, s.w.up0Addrs) <==> Hidden(s)
  {
    var next := Recompute(s.cfg, s.w);
    var t := OnNetlink(s, order, fwd0, now);
    assert t == ApplyDiff(s, next, order, now);
    if Hidden(s) {
      PreparedSameLinks(s, now);
      ReconcileSeqHides(Prepared(s, next, now), order, now);
      ReconcileSeqSameMirror(Prepared(s, next, now), order, now);
    } else {
      var ip :| ip in s.proxied && HostKey(ip) in Visible(s.cfg, s.w.up0Addrs);
      ProxiedHostAddressIsLost(s, ip, order, now);
      assert HostKey(ip) !in Visible(s.cfg, t.w.up0Addrs);
    }
  }

  // ---- the source addresses of the host routes ----

  /** The route names the best source the snapshot offers. */
  ghost predicate SrcRight(s: State, ip: Ip) {
    ip in s.kroutes ==> s.kroutes[ip].src == BestSrc(ip, s.snap.hostIps.Keys)
  }

  lemma ReconcileSrc(s: State, ip: Ip, now: nat)
    requires Live(s) && RoutesPlausible(s)
    ensures var t := Reconcile(s, ip, now).0;
            SrcRight(t, ip) && forall x | x != ip && SrcRight(s, x) :: SrcRight(t, x)
  {
    ReconcileSettles(s, ip, now);
    ReconcileSameBook(s, ip, now);
    var want := Wanted(s, ip);
    if want.None? {
      ForgottenRoutes(s.(be := s.be.Withdraw(ip, now).0), ip);
    } else {
      InstalledRoutes(s.(be := s.be.Write(ip, want.value, now).0), ip, want.value);
    }
  }

  lemma ForgottenRoutes(s: State, ip: Ip)
    requires RoutesOurs(s)
    ensures Forgotten(s, ip).kroutes == s.kroutes - {ip}
  {
    if ip !in s.hostRoutes {
      assert s.kroutes - {ip} == s.kroutes;
    }
  }

  lemma InstalledRoutes(s: State, ip: Ip, mac: Mac)
    requires RoutesOurs(s) && (ip in s.hostRoutes ==> RouteWanted(s, ip))
    ensures Installed(s, ip, mac).kroutes
         == if RouteWanted(s, ip) then s.kroutes[ip := Route(s.snap.brIndex.value, BestSrc(ip, s.snap.hostIps.Keys))] else s.kroutes
    ensures !RouteWanted(s, ip) ==> ip !in s.kroutes
  {
  }

  lemma {:induction false} ReconcileSeqSrc(s: State, ips: seq<Ip>, now: nat)
    requires Live(s) && RoutesPlausible(s)
    ensures forall x | x in ips || SrcRight(s, x) :: SrcRight(ReconcileSeq(s, ips, now).0, x)
    decreases |ips|
  {
    if ips != [] {
      ReconcileSettles(s, ips[0], now);
      ReconcileSrc(s, ips[0], now);
      ReconcileSeqSrc(Reconcile(s, ips[0], now).0, ips[1..], now);
    }
  }

  ghost predicate AllSrcRight(s: State) {
    forall ip :: SrcRight(s, ip)
  }

  /** After a diff every route has the source its snapshot would choose precisely when the diff
      reconciled the entries or the sources were right for the new snapshot already: a change of
      prefix length alone leaves them as they were. */
  lemma RouteSourcesExactIff(s: State, order: seq<Ip>, now: nat)
    requires Inv(s) && s.initialized && ToSet(order) == s.store.entries.Keys
    ensures var next := Recompute(s.cfg, s.w);
            AllSrcRight(ApplyDiff(s, next, order, now))
            <==> || HostmacChanged(s.snap, next) || HostIpsChanged(s.snap, next) || BrChanged(s.snap, next)
                 || AllSrcRight(s.(snap := next))
  {
    var next := Recompute(s.cfg, s.w);
    var p, t := Prepared(s, next, now), ApplyDiff(s, next, order, now);
    RecomputeEmpty(s.cfg, s.w);
    PreparedIsLive(s, next, now);
    if HostmacChanged(s.snap, next) || HostIpsChanged(s.snap, next) || BrChanged(s.snap, next) {
      DiffKeepsInv(s, next, order, now);
      ReconcileSeqSrc(p, order, now);
      ReconcileSeqSameBook(p, order, now);
      forall ip ensures SrcRight(t, ip) {
        if ip in t.kroutes {
          assert Agrees(t, ip);
          assert ip in ToSet(order);
        }
      }
    } else {
      assert t.kroutes == s.kroutes && t.snap == next;
      assert forall ip :: SrcRight(t, ip) <==> SrcRight(s.(snap := next), ip);
    }
  }
}
