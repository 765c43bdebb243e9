/**
 Liveness over time, on runs of the syncer: when a probe is skipped, why a guest that answers
 its probes is never aged out, what nft's expiring marks need for that, and how long an entry
 has been idle when it is aged out (src/core.rs:114-121, 723-748, 838-895). Times are
 milliseconds.
 */
module Aging {
  import opened Types
  import opened Topology
  import opened Core
  import opened CoreInvariant
  import opened CoreRuns
  import S = State
  import B = Backend

  // ---- time ----

  function TimeOf(ev: Event, now: nat): nat {
    match ev
    case Netlink(_, _, t) => t
    case Learn(_, _, t) => t
    case Mark(_, t) => t
    case Tick(_, _, t) => t
    case _ => now
  }

  /** Events carry times that never go back. */
  predicate Timely(evs: seq<Event>, now: nat)
    decreases |evs|
  {
    evs == [] || (now <= TimeOf(evs[0], now) && Timely(evs[1..], TimeOf(evs[0], now)))
  }

  function EndTime(evs: seq<Event>, now: nat): nat
    decreases |evs|
  {
    if evs == [] then now else EndTime(evs[1..], TimeOf(evs[0], now))
  }

  /** The two kinds of tick of an active session. */
  predicate IsProbe(s: State) {
    s.initialized && s.cfg.Offload().Some? && (s.agingTick + 1) % 2 == 1
  }

  predicate IsFlush(s: State) {
    s.initialized && !IsProbe(s)
  }

  // ---- a skipped probe ----

  ghost predicate CtrlBy(s: State, t: nat) {
    forall ip | ip in s.store.entries :: s.store.entries[ip].lastCtrl <= t
  }

  /** An entry's control time is that of the event that learned it, or what it was. */
  lemma StepCtrl(s: State, ev: Event, g: Ip)
    requires g in Step(s, ev).store.entries
    ensures var c := Step(s, ev).store.entries[g].lastCtrl;
            || (ev.Learn? && ev.ip == g && c == ev.now)
            || (g in s.store.entries && c == s.store.entries[g].lastCtrl)
  {
    match ev
    case Netlink(order, fwd0, now) => NetlinkSameStore(s, order, fwd0, now);
    case Learn(ip, mac, now) => LearnFrame(s, ip, mac, now);
    case Tick(order, fwd0, now) => TickFrame(s, order, fwd0, now);
    case _ =>
  }

  lemma {:induction false} RunCtrl(s: State, evs: seq<Event>, t: nat)
    requires CtrlBy(s, t) && Timely(evs, t)
    ensures CtrlBy(Run(s, evs), EndTime(evs, t)) && t <= EndTime(evs, t)
    decreases |evs|
  {
    if evs != [] {
      var s1, t1 := Step(s, evs[0]), TimeOf(evs[0], t);
      forall g | g in s1.store.entries ensures s1.store.entries[g].lastCtrl <= t1 {
        StepCtrl(s, evs[0], g);
      }
      RunCtrl(s1, evs[1..], t1);
    }
  }

  /** A control time later than anything before the run stems from a learn event of the run. */
  lemma {:induction false} ControlWasLearned(s: State, evs: seq<Event>, g: Ip) returns (i: nat)
    requires g in Run(s, evs).store.entries
    ensures i <= |evs|
    ensures var c := Run(s, evs).store.entries[g].lastCtrl;
            if i < |evs| then evs[i].Learn? && evs[i].ip == g && evs[i].now == c
            else g in s.store.entries && s.store.entries[g].lastCtrl == c
    decreases |evs|
  {
    if evs == [] {
      return 0;
    }
    var j := ControlWasLearned(Step(s, evs[0]), evs[1..], g);
    i := j + 1;
    if i == |evs| {
      StepCtrl(s, evs[0], g);
      if !(g in s.store.entries && s.store.entries[g].lastCtrl == Run(s, evs).store.entries[g].lastCtrl) {
        i := 0;
      }
    }
  }

  /** In every run, with a tick at `f` and the next no sooner than a period later: a guest the
      second one skips was heard, in a control frame learned after the first. */
  lemma SkipMeansRecentControl(s: State, pre: seq<Event>, evs: seq<Event>, f: nat, t: nat, g: Ip) returns (i: nat)
    requires IsInitial(s) && Timely(pre, 0) && EndTime(pre, 0) == f && Timely(evs, f)
    requires var d := Run(Run(s, pre), evs); f + 1000 * AgingSecs(d.cfg) <= t && g in Skipped(d, t)
    ensures i < |evs| && evs[i].Learn? && evs[i].ip == g && f < evs[i].now
  {
    RunCtrl(s, pre, 0);
    i := ControlWasLearned(Run(s, pre), evs, g);
  }

  // ---- what the backend remembers of a guest ----

  predicate Marks(op: B.Op, g: Ip) {
    (op.Mark? || op.Refresh?) && op.ip == g
  }

  /** The backend knows the guest, and remembers a mark made no earlier than `since`. */
  ghost predicate Remembers(be: Engine, g: Ip, since: nat, timeout: nat) {
    match be
    case OnEbpf(e) => e.loaded && g in e.seen && e.seen[g]
    case OnNft(n) => Knows(be, g, timeout) && g in n.k.seen && since + 1000 * timeout <= n.k.seen[g]
  }

  ghost predicate Knows(be: Engine, g: Ip, timeout: nat) {
    match be
    case OnEbpf(e) => e.loaded
    case OnNft(n) => n.up && n.timeout == timeout && g in n.entries && B.Synced(n)
  }

  /** Knowledge stays, and so does a memory. */
  ghost predicate Carried(b: Engine, c: Engine, g: Ip, since: nat, timeout: nat) {
    Knows(c, g, timeout) && (Remembers(b, g, since, timeout) ==> Remembers(c, g, since, timeout))
  }

  lemma OpKeepsMemory(be: Engine, g: Ip, op: B.Op, now: nat, since: nat, timeout: nat)
    requires Knows(be, g, timeout) && since <= now
    requires op != B.Flush && op != B.Withdraw(g)
    ensures Carried(be, be.Do(op, now), g, since, timeout)
    ensures Marks(op, g) ==> Remembers(be.Do(op, now), g, since, timeout)
  {
    if be.OnNft? {
      NftKeepsMemory(be.n, g, op, now, since);
    }
  }

  lemma NftKeepsMemory(n: B.Nft, g: Ip, op: B.Op, now: nat, since: nat)
    requires Knows(OnNft(n), g, n.timeout) && since <= now
    requires op != B.Flush && op != B.Withdraw(g)
    ensures Knows(OnNft(B.NftApply(n, op, now)), g, n.timeout)
    ensures Remembers(OnNft(n), g, since, n.timeout) || Marks(op, g)
            ==> Remembers(OnNft(B.NftApply(n, op, now)), g, since, n.timeout)
  {
    match op
    case Write(ip, mac) => B.NftWriteKeeps(n, ip, mac, now);
    case Withdraw(ip) => B.NftWithdrawKeeps(n, ip, now);
    case Refresh(ip) => if ip in n.entries { B.RefreshKeeps(n, ip, now); }
    case _ =>
  }

  lemma ReconcileRemembers(s: State, ip: Ip, now: nat, g: Ip, since: nat)
    requires Knows(s.be, g, s.cfg.timeout) && since <= now && (ip == g ==> Wanted(s, g).Some?)
    ensures Carried(s.be, Reconcile(s, ip, now).0.be, g, since, s.cfg.timeout)
  {
    var want := Wanted(s, ip);
    if want.None? {
      OpKeepsMemory(s.be, g, B.Withdraw(ip), now, since, s.cfg.timeout);
      ForgottenSameBook(s.(be := s.be.Withdraw(ip, now).0), ip);
    } else {
      OpKeepsMemory(s.be, g, B.Write(ip, want.value), now, since, s.cfg.timeout);
      InstalledSameBook(s.(be := s.be.Write(ip, want.value, now).0), ip, want.value);
    }
  }

  lemma {:induction false} ReconcileSeqRemembers(s: State, ips: seq<Ip>, now: nat, g: Ip, since: nat)
    requires Knows(s.be, g, s.cfg.timeout) && since <= now && (g in ips ==> Wanted(s, g).Some?)
    ensures Carried(s.be, ReconcileSeq(s, ips, now).0.be, g, since, s.cfg.timeout)
    decreases |ips|
  {
    if ips != [] {
      var s1 := Reconcile(s, ips[0], now).0;
      ReconcileRemembers(s, ips[0], now, g, since);
      ReconcileSameBook(s, ips[0], now);
      if Reconcile(s, ips[0], now).1 {
        ReconcileSeqRemembers(s1, ips[1..], now, g, since);
      }
    }
  }

  lemma RetunedRemembers(be: Engine, prev: Snap, next: Snap, now: nat, g: Ip, since: nat, timeout: nat)
    requires Knows(be, g, timeout) && since <= now
    ensures Carried(be, Retuned(be, prev, next, now), g, since, timeout)
  {
    var b1 := if HostmacChanged(prev, next) && next.hostmac.Some? then be.Do(B.SetHostmac(next.hostmac.value), now) else be;
    var b2 := if prev.brmac != next.brmac then b1.Do(B.SetBrmac(next.brmac), now) else b1;
    if HostmacChanged(prev, next) && next.hostmac.Some? {
      OpKeepsMemory(be, g, B.SetHostmac(next.hostmac.value), now, since, timeout);
    }
    if prev.brmac != next.brmac {
      OpKeepsMemory(b1, g, B.SetBrmac(next.brmac), now, since, timeout);
    }
    if HostIpsChanged(prev, next) {
      OpKeepsMemory(b2, g, B.SetHostIps(next.HostIpSet()), now, since, timeout);
    }
  }

  lemma {:induction false} RefreshSeqRemembers(be: Engine, ips: seq<Ip>, now: nat, g: Ip, since: nat, timeout: nat)
    requires Knows(be, g, timeout) && since <= now
    ensures Carried(be, RefreshSeq(be, ips, now), g, since, timeout)
    ensures g in ips ==> Remembers(RefreshSeq(be, ips, now), g, since, timeout)
    decreases |ips|
  {
    if ips != [] {
      OpKeepsMemory(be, g, B.Refresh(ips[0]), now, since, timeout);
      RefreshSeqRemembers(be.Do(B.Refresh(ips[0]), now), ips[1..], now, g, since, timeout);
    }
  }

  // ---- the offload keepalive ----

  /** What an observer of one guest keeps beside the run: the time of the last tick, and whether
      the guest still owes an answer since the last probe tick, because that tick did not
      refresh it. */
  datatype Watch = Watch(tickAt: nat, pending: bool, now: nat)

  function Watched(g: Ip, s: State, x: Watch, ev: Event): Watch {
    match ev
    case Tick(_, _, t) => Watch(t, IsProbe(s) && !(s.snap.hostmac.Some? && g in Skipped(s, t)), t)
    case Mark(ip, t) => Watch(x.tickAt, x.pending && ip != g, t)
    case _ => x.(now := TimeOf(ev, x.now))
  }

  /** Time goes on; nothing but a tick may take the proxy away; the guest has been heard by the
      next flush; and with nft's expiring marks that flush comes less than a timeout after the
      probe. */
  ghost predicate Behaved(g: Ip, s: State, x: Watch, ev: Event) {
    && x.now <= TimeOf(ev, x.now)
    && (!ev.Tick? ==> g in Step(s, ev).proxied)
    && (ev.Tick? && IsFlush(s) ==> !x.pending && (s.be.OnNft? ==> ev.now < x.tickAt + 1000 * s.cfg.timeout))
  }

  ghost predicate AllBehaved(g: Ip, s: State, x: Watch, evs: seq<Event>)
    decreases |evs|
  {
    evs == [] || (Behaved(g, s, x, evs[0]) && AllBehaved(g, Step(s, evs[0]), Watched(g, s, x, evs[0]), evs[1..]))
  }

  /** Between a probe and the next flush: unanswered, or remembered since the probe. */
  ghost predicate Kept(g: Ip, s: State, x: Watch) {
    && Inv(s) && Paced(s) && g in s.proxied
    && x.tickAt <= x.now
    && Knows(s.be, g, s.cfg.timeout)
    && (s.agingTick % 2 == 1 && !x.pending ==> Remembers(s.be, g, x.tickAt, s.cfg.timeout))
  }

  /** A proxied guest has a session, the workaround, and a wanted binding. */
  lemma ProxiedIsWanted(g: Ip, s: State)
    requires Inv(s) && Paced(s) && g in s.proxied
    ensures s.initialized && s.cfg.Offload().Some? && Wanted(s, g).Some? && g in s.store.entries
    ensures Knows(s.be, g, s.cfg.timeout)
  {
    assert Agrees(s, g);
  }

  lemma LearnRemembers(g: Ip, s: State, ip: Ip, mac: Mac, now: nat, since: nat)
    requires Inv(s) && Paced(s) && Knows(s.be, g, s.cfg.timeout) && since <= now
    requires g in DoLearn(s, ip, mac, now).proxied && Inv(DoLearn(s, ip, mac, now)) && Paced(DoLearn(s, ip, mac, now))
    ensures Carried(s.be, DoLearn(s, ip, mac, now).be, g, since, s.cfg.timeout)
  {
    var t := DoLearn(s, ip, mac, now);
    ProxiedIsWanted(g, t);
    if IsLearnable(ip) {
      var (store, changed) := S.Learned(s.caps, s.store, ip, mac, now);
      var s1 := s.(store := store);
      LearnFrame(s, ip, mac, now);
      assert Wanted(s1, g) == Wanted(t, g);
      ReconcileSeqRemembers(s1, changed, now, g, since);
    }
  }

  lemma PreparedFrame(s: State, next: Snap, now: nat)
    ensures var p := Prepared(s, next, now);
            && p.be == Retuned(s.be, s.snap, next, now)
            && (p.store, p.snap, p.cfg, p.initialized, p.agingTick) == (s.store, next, s.cfg, s.initialized, s.agingTick)
  {
  }

  lemma DiffRemembers(g: Ip, s: State, next: Snap, order: seq<Ip>, now: nat, since: nat)
    requires Knows(s.be, g, s.cfg.timeout) && since <= now
    requires Wanted(ApplyDiff(s, next, order, now), g).Some?
    ensures Carried(s.be, ApplyDiff(s, next, order, now).be, g, since, s.cfg.timeout)
  {
    var p := Prepared(s, next, now);
    PreparedFrame(s, next, now);
    RetunedRemembers(s.be, s.snap, next, now, g, since, s.cfg.timeout);
    if HostmacChanged(s.snap, next) || HostIpsChanged(s.snap, next) || BrChanged(s.snap, next) {
      ReconcileSeqSameBook(p, order, now);
      assert Wanted(p, g) == Wanted(ReconcileSeq(p, order, now).0, g);
      ReconcileSeqRemembers(p, order, now, g, since);
    }
  }

  lemma NetlinkRemembers(g: Ip, s: State, order: seq<Ip>, fwd0: nat, now: nat, since: nat)
    requires s.initialized && Knows(s.be, g, s.cfg.timeout) && since <= now
    requires var t := OnNetlink(s, order, fwd0, now); g in t.proxied && Inv(t) && Paced(t)
    ensures Carried(s.be, OnNetlink(s, order, fwd0, now).be, g, since, s.cfg.timeout)
  {
    var next, t := Recompute(s.cfg, s.w), OnNetlink(s, order, fwd0, now);
    ProxiedIsWanted(g, t);
    if next.up0Present {
      DiffRemembers(g, s, next, order, now, since);
    }
  }

  /** Aging others leaves the guest where it is. */
  lemma {:induction false} AgeOutSpares(g: Ip, s: State, dead: seq<Ip>, now: nat)
    requires Inv(s) && Paced(s) && g in s.proxied && g !in dead
    ensures var t := AgeOut(s, dead, now);
            g in t.proxied && t.agingTick == s.agingTick && t.cfg == s.cfg
    decreases |dead|
  {
    if dead != [] {
      ProxiedIsWanted(g, s);
      var s1 := s.(store := S.Removed(s.store, dead[0]));
      var t := Reconcile(s1, dead[0], now).0;
      RemoveOne(s, dead[0], now);
      ReconcileSameBook(s1, dead[0], now);
      ReconcilePaced(s1, dead[0], now);
      assert g in t.proxied;
      AgeOutSpares(g, t, dead[1..], now);
    }
  }

  lemma FlushedInv(s: State, now: nat)
    requires Inv(s) && s.initialized
    ensures Inv(s.(agingTick := s.agingTick + 1, be := s.be.Do(B.Flush, now)))
  {
    var s0 := s.(agingTick := s.agingTick + 1);
    forall x ensures Agrees(s0, x) { assert Agrees(s, x); }
    MarkEffect(s.be, B.Flush, now);
    MarksAreInvisible(s0, s.be.Do(B.Flush, now));
  }

  lemma RememberedIsAlive(g: Ip, s: State, order: seq<Ip>, fwd0: nat, now: nat, since: nat)
    requires Inv(s) && IsFlush(s) && Legal(s, Tick(order, fwd0, now))
    requires Remembers(s.be, g, since, s.cfg.timeout) && (s.be.OnNft? ==> now < since + 1000 * s.cfg.timeout)
    ensures g !in order
  {
    assert g in s.be.Alive(now);
    assert g !in ToSet(order);
  }

  lemma FlushSpares(g: Ip, s: State, order: seq<Ip>, fwd0: nat, now: nat, since: nat)
    requires Inv(s) && Paced(s) && g in s.proxied && IsFlush(s) && Legal(s, Tick(order, fwd0, now))
    requires Remembers(s.be, g, since, s.cfg.timeout) && (s.be.OnNft? ==> now < since + 1000 * s.cfg.timeout)
    ensures var t := OnTick(s, order, fwd0, now);
            g in t.proxied && t.agingTick == s.agingTick + 1 && t.cfg == s.cfg
  {
    RememberedIsAlive(g, s, order, fwd0, now, since);
    FlushedInv(s, now);
    DoSameTimeout(s.be, B.Flush, now);
    AgeOutSpares(g, s.(agingTick := s.agingTick + 1, be := s.be.Do(B.Flush, now)), order, now);
  }

  lemma ProbeKeeps(g: Ip, s: State, x: Watch, order: seq<Ip>, fwd0: nat, now: nat)
    requires Kept(g, s, x) && IsProbe(s) && Legal(s, Tick(order, fwd0, now)) && Behaved(g, s, x, Tick(order, fwd0, now))
    requires Inv(OnTick(s, order, fwd0, now)) && Paced(OnTick(s, order, fwd0, now))
    ensures Kept(g, OnTick(s, order, fwd0, now), Watched(g, s, x, Tick(order, fwd0, now)))
  {
    ProxiedIsWanted(g, s);
    RefreshSeqRemembers(s.be, order, now, g, now, s.cfg.timeout);
    assert g in Skipped(s, now) ==> g in ToSet(order);
  }

  lemma FlushKeeps(g: Ip, s: State, x: Watch, order: seq<Ip>, fwd0: nat, now: nat)
    requires Kept(g, s, x) && IsFlush(s) && s.agingTick % 2 == 1
    requires Legal(s, Tick(order, fwd0, now)) && Behaved(g, s, x, Tick(order, fwd0, now))
    requires Inv(OnTick(s, order, fwd0, now)) && Paced(OnTick(s, order, fwd0, now))
    ensures Kept(g, OnTick(s, order, fwd0, now), Watched(g, s, x, Tick(order, fwd0, now)))
  {
    FlushSpares(g, s, order, fwd0, now, x.tickAt);
    ProxiedIsWanted(g, OnTick(s, order, fwd0, now));
  }

  lemma TickKeeps(g: Ip, s: State, x: Watch, order: seq<Ip>, fwd0: nat, now: nat)
    requires Kept(g, s, x) && Legal(s, Tick(order, fwd0, now)) && Behaved(g, s, x, Tick(order, fwd0, now))
    requires Inv(OnTick(s, order, fwd0, now)) && Paced(OnTick(s, order, fwd0, now))
    ensures Kept(g, OnTick(s, order, fwd0, now), Watched(g, s, x, Tick(order, fwd0, now)))
  {
    ProxiedIsWanted(g, s);
    if IsProbe(s) {
      ProbeKeeps(g, s, x, order, fwd0, now);
    } else {
      FlushKeeps(g, s, x, order, fwd0, now);
    }
  }

  lemma StepKeeps(g: Ip, s: State, x: Watch, ev: Event)
    requires Kept(g, s, x) && Legal(s, ev) && Behaved(g, s, x, ev)
    ensures Kept(g, Step(s, ev), Watched(g, s, x, ev))
  {
    var t := Step(s, ev);
    ProxiedIsWanted(g, s);
    StepKeepsInv(s, ev);
    StepPaced(s, ev);
    StepKeepsCfg(s, ev);
    match ev
    case Outside(w) =>
    case Netlink(order, fwd0, now) =>
      NetlinkSameStore(s, order, fwd0, now);
      NetlinkRemembers(g, s, order, fwd0, now, x.tickAt);
    case Learn(ip, mac, now) =>
      LearnFrame(s, ip, mac, now);
      LearnRemembers(g, s, ip, mac, now, x.tickAt);
    case Mark(ip, now) => OpKeepsMemory(s.be, g, B.Mark(ip), now, x.tickAt, s.cfg.timeout);
    case Tick(order, fwd0, now) => TickKeeps(g, s, x, order, fwd0, now);
    case Shutdown =>
  }

  lemma {:induction false} KeptThroughout(g: Ip, s: State, x: Watch, evs: seq<Event>)
    requires Kept(g, s, x) && LegalRun(s, evs) && AllBehaved(g, s, x, evs)
    ensures Inv(Run(s, evs)) && Paced(Run(s, evs)) && g in Run(s, evs).proxied
    decreases |evs|
  {
    if evs != [] {
      StepKeeps(g, s, x, evs[0]);
      KeptThroughout(g, Step(s, evs[0]), Watched(g, s, x, evs[0]), evs[1..]);
    }
  }

  /** In every run of the syncer, from any moment at which the guest is proxied: as long as only
      ticks could take its proxy away, and it is heard between each probe tick that does not
      refresh it and the next flush, no tick ages it out. Before its first probe it is treated
      as probed if a flush comes first. */
  lemma KeepaliveIsSafe(s: State, pre: seq<Event>, evs: seq<Event>, g: Ip, t: nat)
    requires IsInitial(s) && LegalRun(s, pre + evs) && g in Run(s, pre).proxied
    requires AllBehaved(g, Run(s, pre), Watch(t, Run(s, pre).agingTick % 2 == 1, t), evs)
    ensures g in Run(s, pre + evs).proxied && g in Run(s, pre + evs).store.entries
  {
    RunInTwo(s, pre, evs);
    InitialInv(s);
    RunKeepsInv(s, pre);
    RunPaced(s, pre);
    ProxiedIsWanted(g, Run(s, pre));
    KeptThroughout(g, Run(s, pre), Watch(t, Run(s, pre).agingTick % 2 == 1, t), evs);
    ProxiedIsWanted(g, Run(s, pre + evs));
  }

  // ---- what expiring marks need ----

  predicate ExpiresAt(s: State, g: Ip, at: nat) {
    s.be.OnNft? && g in s.be.n.k.seen && s.be.n.k.seen[g] == at
  }

  /** No event of the run renews the guest's mark or takes it away. */
  ghost predicate NeverRenewed(g: Ip, s: State, evs: seq<Event>)
    decreases |evs|
  {
    evs == [] || ((forall at :: ExpiresAt(s, g, at) ==> ExpiresAt(Step(s, evs[0]), g, at)) && NeverRenewed(g, Step(s, evs[0]), evs[1..]))
  }

  lemma {:induction false} StillExpires(g: Ip, s: State, evs: seq<Event>, at: nat)
    requires ExpiresAt(s, g, at) && NeverRenewed(g, s, evs)
    ensures ExpiresAt(Run(s, evs), g, at)
    decreases |evs|
  {
    if evs != [] {
      StillExpires(g, Step(s, evs[0]), evs[1..], at);
    }
  }

  /** The event neither marks nor refreshes the guest, rebuilds no ruleset, and neither rebinds,
      evicts nor ages it out. */
  ghost predicate Quiet(g: Ip, s: State, ev: Event) {
    match ev
    case Outside(_) => true
    case Mark(ip, _) => ip != g
    case Learn(ip, mac, now) => IsLearnable(ip) ==> g !in S.Learned(s.caps, s.store, ip, mac, now).1
    case Netlink(_, _, _) => Untouched(s)
    case Tick(_, _, now) =>
      s.initialized && if IsProbe(s) then (s.snap.hostmac.Some? ==> g !in Skipped(s, now)) else g !in Dead(s, now)
    case Shutdown => false
  }

  /** A netlink event that finds nothing to tell the backend or the entries. */
  predicate Untouched(s: State) {
    var next := Recompute(s.cfg, s.w);
    s.initialized && next.up0Present && !ReconcilesAll(s) && next.brmac == s.snap.brmac
  }

  ghost predicate AllQuiet(g: Ip, s: State, evs: seq<Event>)
    decreases |evs|
  {
    evs == [] || (Quiet(g, s, evs[0]) && AllQuiet(g, Step(s, evs[0]), evs[1..]))
  }

  lemma ReconcileElsewhere(s: State, ip: Ip, now: nat, g: Ip, at: nat)
    requires ExpiresAt(s, g, at) && B.Synced(s.be.n) && ip != g
    ensures var t := Reconcile(s, ip, now).0; ExpiresAt(t, g, at) && B.Synced(t.be.n)
  {
    var n, want := s.be.n, Wanted(s, ip);
    if want.None? {
      B.NftWithdrawKeeps(n, ip, now);
      ForgottenSameBook(s.(be := s.be.Withdraw(ip, now).0), ip);
    } else {
      B.NftWriteKeeps(n, ip, want.value, now);
      InstalledSameBook(s.(be := s.be.Write(ip, want.value, now).0), ip, want.value);
    }
  }

  lemma {:induction false} ReconcileSeqElsewhere(s: State, ips: seq<Ip>, now: nat, g: Ip, at: nat)
    requires ExpiresAt(s, g, at) && B.Synced(s.be.n) && g !in ips
    ensures ExpiresAt(ReconcileSeq(s, ips, now).0, g, at)
    decreases |ips|
  {
    if ips != [] {
      ReconcileElsewhere(s, ips[0], now, g, at);
      if Reconcile(s, ips[0], now).1 {
        ReconcileSeqElsewhere(Reconcile(s, ips[0], now).0, ips[1..], now, g, at);
      }
    }
  }

  lemma {:induction false} AgeOutElsewhere(s: State, dead: seq<Ip>, now: nat, g: Ip, at: nat)
    requires ExpiresAt(s, g, at) && B.Synced(s.be.n) && g !in dead
    ensures ExpiresAt(AgeOut(s, dead, now), g, at)
    decreases |dead|
  {
    if dead != [] {
      var s1 := s.(store := S.Removed(s.store, dead[0]));
      ReconcileElsewhere(s1, dead[0], now, g, at);
      if Reconcile(s1, dead[0], now).1 {
        AgeOutElsewhere(Reconcile(s1, dead[0], now).0, dead[1..], now, g, at);
      }
    }
  }

  lemma {:induction false} RefreshElsewhere(be: Engine, ips: seq<Ip>, now: nat, g: Ip, at: nat)
    requires be.OnNft? && B.Synced(be.n) && g in be.n.k.seen && be.n.k.seen[g] == at && g !in ips
    ensures var b := RefreshSeq(be, ips, now); b.OnNft? && g in b.n.k.seen && b.n.k.seen[g] == at
    decreases |ips|
  {
    if ips != [] {
      if ips[0] in be.n.entries {
        B.RefreshKeeps(be.n, ips[0], now);
      }
      RefreshElsewhere(be.Do(B.Refresh(ips[0]), now), ips[1..], now, g, at);
    }
  }

  lemma QuietTick(g: Ip, s: State, order: seq<Ip>, fwd0: nat, now: nat, at: nat)
    requires Inv(s) && ExpiresAt(s, g, at) && Quiet(g, s, Tick(order, fwd0, now)) && Legal(s, Tick(order, fwd0, now))
    ensures ExpiresAt(OnTick(s, order, fwd0, now), g, at)
  {
    assert g in order ==> g in ToSet(order);
    if IsProbe(s) {
      if s.snap.hostmac.Some? {
        RefreshElsewhere(s.be, order, now, g, at);
      }
    } else {
      AgeOutElsewhere(s.(agingTick := s.agingTick + 1, be := s.be.Do(B.Flush, now)), order, now, g, at);
    }
  }

  lemma UntouchedNetlink(g: Ip, s: State, order: seq<Ip>, fwd0: nat, now: nat, at: nat)
    requires ExpiresAt(s, g, at) && Untouched(s)
    ensures ExpiresAt(OnNetlink(s, order, fwd0, now), g, at)
  {
    ActiveNetlink(s, order, fwd0, now);
    PreparedFrame(s, Recompute(s.cfg, s.w), now);
  }

  lemma QuietKeeps(g: Ip, s: State, ev: Event, at: nat)
    requires Inv(s) && Legal(s, ev) && ExpiresAt(s, g, at) && Quiet(g, s, ev)
    ensures ExpiresAt(Step(s, ev), g, at)
  {
    match ev
    case Outside(_) =>
    case Mark(ip, now) =>
    case Learn(ip, mac, now) =>
      if IsLearnable(ip) {
        var (store, changed) := S.Learned(s.caps, s.store, ip, mac, now);
        ReconcileSeqElsewhere(s.(store := store), changed, now, g, at);
      }
    case Netlink(order, fwd0, now) => UntouchedNetlink(g, s, order, fwd0, now, at);
    case Tick(order, fwd0, now) => QuietTick(g, s, order, fwd0, now, at);
  }

  /** Told by its events: a run of quiet events never renews the guest's mark. */
  lemma {:induction false} QuietRunsNeverRenew(g: Ip, s: State, evs: seq<Event>)
    requires Inv(s) && LegalRun(s, evs) && AllQuiet(g, s, evs)
    ensures NeverRenewed(g, s, evs)
    decreases |evs|
  {
    if evs != [] {
      forall at | ExpiresAt(s, g, at) ensures ExpiresAt(Step(s, evs[0]), g, at) {
        QuietKeeps(g, s, evs[0], at);
      }
      StepKeepsInv(s, evs[0]);
      QuietRunsNeverRenew(g, Step(s, evs[0]), evs[1..]);
    }
  }

  /** A flush ages out exactly the entries it does not find alive. */
  lemma FlushAgesOut(s: State, order: seq<Ip>, fwd0: nat, t: nat, g: Ip)
    requires Inv(s) && IsFlush(s) && Legal(s, Tick(order, fwd0, t)) && g in s.store.entries
    ensures g in OnTick(s, order, fwd0, t).store.entries <==> g in s.be.Alive(t)
  {
    FlushedInv(s, t);
    AgeOutKeepsInv(s.(agingTick := s.agingTick + 1, be := s.be.Do(B.Flush, t)), order, t);
  }

  /** A guest on nft whose mark expires at `at` and is not renewed survives a flush if and only
      if the flush comes before. */
  lemma SurvivesIff(s: State, evs: seq<Event>, g: Ip, at: nat, order: seq<Ip>, fwd0: nat, t: nat)
    requires Inv(s) && LegalRun(s, evs) && ExpiresAt(s, g, at) && NeverRenewed(g, s, evs)
    requires var d := Run(s, evs); IsFlush(d) && Legal(d, Tick(order, fwd0, t)) && g in d.store.entries
    ensures g in OnTick(Run(s, evs), order, fwd0, t).store.entries <==> t < at
  {
    RunKeepsInv(s, evs);
    StillExpires(g, s, evs, at);
    FlushAgesOut(Run(s, evs), order, fwd0, t, g);
  }

  lemma {:induction false} RefreshSetsExpiry(be: Engine, ips: seq<Ip>, now: nat, g: Ip, timeout: nat)
    requires be.OnNft? && Knows(be, g, timeout)
    requires g in ips || (g in be.n.k.seen && be.n.k.seen[g] == now + 1000 * timeout)
    ensures var b := RefreshSeq(be, ips, now);
            b.OnNft? && g in b.n.k.seen && b.n.k.seen[g] == now + 1000 * timeout
    decreases |ips|
  {
    if ips != [] {
      OpKeepsMemory(be, g, B.Refresh(ips[0]), now, 0, timeout);
      if ips[0] in be.n.entries {
        B.RefreshKeeps(be.n, ips[0], now);
      }
      RefreshSetsExpiry(be.Do(B.Refresh(ips[0]), now), ips[1..], now, g, timeout);
    }
  }

  /** A probe tick at `p` gives a skipped guest a full timeout from then. */
  lemma SkipRenews(s: State, order: seq<Ip>, fwd0: nat, p: nat, g: Ip)
    requires Inv(s) && Paced(s) && s.be.OnNft? && IsProbe(s) && s.snap.hostmac.Some?
    requires Legal(s, Tick(order, fwd0, p)) && g in Skipped(s, p)
    ensures ExpiresAt(OnTick(s, order, fwd0, p), g, p + 1000 * s.cfg.timeout)
  {
    ProxiedIsWanted(g, s);
    assert g in ToSet(order);
    RefreshSetsExpiry(s.be, order, p, g, s.cfg.timeout);
  }

  /** Skipped at a probe tick at `p` and not heard again, the guest survives a flush at `t` if
      and only if t is less than a timeout after p. A flush due one period later can spare it,
      therefore, only with a timeout of two seconds or more; then it may be late by anything
      less than the timeout minus the period. */
  lemma NftNeedsTwoSeconds(s: State, pre: seq<Event>, order: seq<Ip>, fwd0: nat, p: nat, evs: seq<Event>,
                           order': seq<Ip>, fwd0': nat, t: nat, g: Ip)
    requires IsInitial(s) && LegalRun(s, pre)
    requires var d := Run(s, pre);
             && d.be.OnNft? && IsProbe(d) && d.snap.hostmac.Some? && g in Skipped(d, p)
             && Legal(d, Tick(order, fwd0, p))
             && var d1 := OnTick(d, order, fwd0, p);
                && LegalRun(d1, evs) && NeverRenewed(g, d1, evs)
                && var d2 := Run(d1, evs);
                   IsFlush(d2) && Legal(d2, Tick(order', fwd0', t)) && g in d2.store.entries
    ensures var d := Run(s, pre);
            var d2 := Run(OnTick(d, order, fwd0, p), evs);
            && (g in OnTick(d2, order', fwd0', t).store.entries <==> t < p + 1000 * d.cfg.timeout)
            && (p + 1000 * AgingSecs(d.cfg) <= t && d.cfg.timeout < 2 ==> g !in OnTick(d2, order', fwd0', t).store.entries)
            && (t == p + 1000 * AgingSecs(d.cfg) && d.cfg.timeout >= 2 ==> g in OnTick(d2, order', fwd0', t).store.entries)
  {
    var d := Run(s, pre);
    InitialInv(s);
    RunKeepsInv(s, pre);
    RunPaced(s, pre);
    TickKeepsInv(d, order, fwd0, p);
    SkipRenews(d, order, fwd0, p, g);
    SurvivesIff(OnTick(d, order, fwd0, p), evs, g, p + 1000 * d.cfg.timeout, order', fwd0', t);
  }

  // ---- second-chance idle bounds ----

  /** A netlink event that ends by reconciling every entry: it starts a session, or finds a
      change that matters to the entries. */
  predicate ReconcilesAll(s: State) {
    var next := Recompute(s.cfg, s.w);
    && next.up0Present
    && if s.initialized then HostmacChanged(s.snap, next) || HostIpsChanged(s.snap, next) || BrChanged(s.snap, next)
       else next.hostmac.Some?
  }

  /** The addresses an event marks: by the datapath, by writing their entry, or by refreshing. */
  ghost function Touched(s: State, ev: Event): set<Ip> {
    match ev
    case Mark(ip, _) => {ip}
    case Learn(ip, mac, now) =>
      if !s.initialized || !IsLearnable(ip) then {}
      else set x | x in S.Learned(s.caps, s.store, ip, mac, now).1 && x in Step(s, ev).installed
    case Netlink(_, _, _) => if ReconcilesAll(s) then Step(s, ev).installed.Keys else {}
    case Tick(_, _, t) =>
      if IsProbe(s) then (if s.snap.hostmac.Some? then Skipped(s, t) else {})
      else if !s.initialized && ReconcilesAll(s) then Step(s, ev).installed.Keys
      else {}
    case _ => {}
  }

  /** What an observer keeps: when each address was last marked, and the last two flushes. */
  datatype Clock = Clock(lastMark: map<Ip, nat>, f0: nat, f1: nat, now: nat)

  ghost function Clocked(s: State, c: Clock, ev: Event): Clock {
    var t, touched := TimeOf(ev, c.now), Touched(s, ev);
    var marked := map ip | ip in c.lastMark.Keys + touched :: if ip in touched then t else c.lastMark[ip];
    if ev.Tick? && IsFlush(s) then Clock(marked, c.f1, t, t) else Clock(marked, c.f0, c.f1, t)
  }

  /** Time advances; what carries a time and follows a flush is later than it. */
  predicate InTime(c: Clock, ev: Event) {
    c.now <= TimeOf(ev, c.now) && (!ev.Outside? && !ev.Shutdown? ==> c.f1 < TimeOf(ev, c.now))
  }

  ghost predicate AllInTime(s: State, c: Clock, evs: seq<Event>)
    decreases |evs|
  {
    evs == [] || (InTime(c, evs[0]) && AllInTime(Step(s, evs[0]), Clocked(s, c, evs[0]), evs[1..]))
  }

  ghost function ClockAfter(s: State, c: Clock, evs: seq<Event>): Clock
    decreases |evs|
  {
    if evs == [] then c else ClockAfter(Step(s, evs[0]), Clocked(s, c, evs[0]), evs[1..])
  }

  predicate Marked(be: Engine, ip: Ip) {
    be.OnEbpf? && ip in be.e.seen && be.e.seen[ip]
  }

  predicate Unmarked(be: Engine, ip: Ip) {
    be.OnEbpf? && ip in be.e.seen && !be.e.seen[ip]
  }

  /** The mark bit tells in which of the last two windows the last mark fell. */
  ghost predicate Ticking(s: State, c: Clock) {
    && Inv(s) && s.be.OnEbpf? && c.f0 <= c.f1 <= c.now
    && (s.initialized ==>
          && (forall ip | ip in s.installed :: Marked(s.be, ip) || Unmarked(s.be, ip))
          && (forall ip | Marked(s.be, ip) :: ip in c.lastMark && c.f1 < c.lastMark[ip] <= c.now)
          && (forall ip | Unmarked(s.be, ip) :: ip in c.lastMark && c.f0 < c.lastMark[ip] <= c.f1))
  }

  /** The eBPF marks after reconciling a list: its wanted addresses are marked, its unwanted ones
      forgotten, all others as they were. */
  ghost predicate MarksFollow(s: State, be: Engine, ips: seq<Ip>) {
    && be.OnEbpf? && be.e.loaded
    && (forall x | x in ips && Wanted(s, x).Some? :: Marked(be, x))
    && (forall x | x in ips && Wanted(s, x).None? :: !Marked(be, x) && !Unmarked(be, x))
    && (forall x | x !in ips :: (Marked(be, x) <==> Marked(s.be, x)) && (Unmarked(be, x) <==> Unmarked(s.be, x)))
  }

  lemma ReconcileMarks(s: State, ip: Ip, now: nat)
    requires s.be.OnEbpf? && s.be.e.loaded
    ensures Reconcile(s, ip, now).1 && MarksFollow(s, Reconcile(s, ip, now).0.be, [ip])
  {
    var want := Wanted(s, ip);
    if want.None? {
      ForgottenSameBook(s.(be := s.be.Withdraw(ip, now).0), ip);
    } else {
      InstalledSameBook(s.(be := s.be.Write(ip, want.value, now).0), ip, want.value);
    }
  }

  lemma {:induction false} ReconcileSeqMarks(s: State, ips: seq<Ip>, now: nat)
    requires s.be.OnEbpf? && s.be.e.loaded
    ensures MarksFollow(s, ReconcileSeq(s, ips, now).0.be, ips)
    decreases |ips|
  {
    if ips != [] {
      var s1 := Reconcile(s, ips[0], now).0;
      ReconcileMarks(s, ips[0], now);
      ReconcileSameBook(s, ips[0], now);
      ReconcileSeqMarks(s1, ips[1..], now);
      assert forall x :: Wanted(s1, x) == Wanted(s, x);
    }
  }

  lemma {:induction false} AgeOutMarks(s: State, dead: seq<Ip>, now: nat)
    requires s.be.OnEbpf? && s.be.e.loaded
    ensures var be := AgeOut(s, dead, now).be;
            && be.OnEbpf?
            && (forall x | x in dead :: !Marked(be, x) && !Unmarked(be, x))
            && (forall x | x !in dead :: (Marked(be, x) <==> Marked(s.be, x)) && (Unmarked(be, x) <==> Unmarked(s.be, x)))
    decreases |dead|
  {
    if dead != [] {
      var s1 := s.(store := S.Removed(s.store, dead[0]));
      ReconcileMarks(s1, dead[0], now);
      assert Wanted(s1, dead[0]).None?;
      AgeOutMarks(Reconcile(s1, dead[0], now).0, dead[1..], now);
    }
  }

  lemma {:induction false} RefreshSeqMarks(be: Engine, ips: seq<Ip>, now: nat)
    requires be.OnEbpf? && be.e.loaded
    ensures var b := RefreshSeq(be, ips, now);
            && b.OnEbpf?
            && (forall x | x in ips :: Marked(b, x))
            && (forall x | x !in ips :: (Marked(b, x) <==> Marked(be, x)) && (Unmarked(b, x) <==> Unmarked(be, x)))
    decreases |ips|
  {
    if ips != [] {
      RefreshSeqMarks(be.Do(B.Refresh(ips[0]), now), ips[1..], now);
    }
  }

  /** A step that marks the touched addresses and otherwise only forgets keeps the clock. */
  lemma TouchKeeps(s: State, t: State, c: Clock, d: Clock, touched: set<Ip>)
    requires Ticking(s, c) && s.initialized && Inv(t) && t.initialized && t.be.OnEbpf?
    requires d.f0 == c.f0 && d.f1 == c.f1 && c.now <= d.now && (touched != {} ==> c.f1 < d.now)
    requires d.lastMark.Keys == c.lastMark.Keys + touched
    requires forall ip | ip in d.lastMark :: d.lastMark[ip] == if ip in touched then d.now else c.lastMark[ip]
    requires forall x | x in touched :: Marked(t.be, x)
    requires forall x | x !in touched :: (Marked(t.be, x) ==> Marked(s.be, x)) && (Unmarked(t.be, x) ==> Unmarked(s.be, x))
    requires forall x | x in t.installed :: Marked(t.be, x) || Unmarked(t.be, x)
    ensures Ticking(t, d)
  {
  }

  lemma LearnTicks(s: State, c: Clock, ip: Ip, mac: Mac, now: nat)
    requires Ticking(s, c) && s.initialized && InTime(c, Learn(ip, mac, now)) && IsLearnable(ip)
    requires Inv(DoLearn(s, ip, mac, now))
    ensures Ticking(DoLearn(s, ip, mac, now), Clocked(s, c, Learn(ip, mac, now)))
  {
    var ev, t := Learn(ip, mac, now), DoLearn(s, ip, mac, now);
    var (store, changed) := S.Learned(s.caps, s.store, ip, mac, now);
    var s1 := s.(store := store);
    LearnFrame(s, ip, mac, now);
    ReconcileSeqMarks(s1, changed, now);
    S.ChangedIsTheDiff(s.caps, s.store, ip, mac, now);
    forall x ensures Wanted(t, x) == Wanted(s1, x) && (x in t.installed <==> Wanted(t, x).Some?) {
      assert Agrees(t, x);
    }
    forall x | x in t.installed && x !in changed ensures Marked(t.be, x) || Unmarked(t.be, x) {
      BindingDecidesWanted(s, s1, x);
      assert Agrees(s, x);
    }
    TouchKeeps(s, t, c, Clocked(s, c, ev), Touched(s, ev));
  }

  /** After a full reconcile exactly the installed addresses are newly marked. */
  lemma AllReconciledMarks(p: State, order: seq<Ip>, now: nat, t: State)
    requires p.be.OnEbpf? && p.be.e.loaded && ToSet(order) == p.store.entries.Keys
    requires t == ReconcileSeq(p, order, now).0 && Inv(t) && t.initialized
    ensures t.be.OnEbpf?
    ensures forall x | x in t.installed :: Marked(t.be, x)
    ensures forall x | x !in t.installed :: (Marked(t.be, x) ==> Marked(p.be, x)) && (Unmarked(t.be, x) ==> Unmarked(p.be, x))
  {
    ReconcileSeqSameBook(p, order, now);
    ReconcileSeqMarks(p, order, now);
    forall x ensures (x in t.installed <==> Wanted(p, x).Some?) && (x in t.installed ==> x in order) {
      assert Agrees(t, x);
      assert Wanted(t, x) == Wanted(p, x);
      assert x in t.installed ==> x in ToSet(order);
    }
  }

  lemma RetunedMarks(be: Engine, prev: Snap, next: Snap, now: nat)
    requires be.OnEbpf?
    ensures var b := Retuned(be, prev, next, now);
            b.OnEbpf? && b.e.seen == be.e.seen && b.e.loaded == be.e.loaded
  {
  }

  lemma DiffMarks(s: State, next: Snap, order: seq<Ip>, now: nat, t: State)
    requires Inv(s) && s.initialized && s.be.OnEbpf? && t == ApplyDiff(s, next, order, now) && Inv(t) && t.initialized
    requires ToSet(order) == s.store.entries.Keys
    requires HostmacChanged(s.snap, next) || HostIpsChanged(s.snap, next) || BrChanged(s.snap, next)
    ensures t.be.OnEbpf?
    ensures forall x | x in t.installed :: Marked(t.be, x)
    ensures forall x | x !in t.installed :: (Marked(t.be, x) ==> Marked(s.be, x)) && (Unmarked(t.be, x) ==> Unmarked(s.be, x))
  {
    var p := Prepared(s, next, now);
    assert p.be.OnEbpf? && p.be.e.seen == s.be.e.seen && p.be.e.loaded && p.store == s.store by {
      PreparedFrame(s, next, now);
      RetunedMarks(s.be, s.snap, next, now);
    }
    AllReconciledMarks(p, order, now, t);
  }

  lemma QuietDiff(s: State, next: Snap, order: seq<Ip>, now: nat, t: State)
    requires s.be.OnEbpf? && t == ApplyDiff(s, next, order, now)
    requires !(HostmacChanged(s.snap, next) || HostIpsChanged(s.snap, next) || BrChanged(s.snap, next))
    ensures t.installed == s.installed && t.be.OnEbpf? && t.be.e.seen == s.be.e.seen
  {
    PreparedFrame(s, next, now);
    RetunedMarks(s.be, s.snap, next, now);
  }

  lemma DiffTicks(s: State, c: Clock, next: Snap, order: seq<Ip>, d: Clock, t: State, touched: set<Ip>)
    requires Ticking(s, c) && s.initialized && t == ApplyDiff(s, next, order, d.now) && Inv(t) && t.initialized
    requires ToSet(order) == s.store.entries.Keys
    requires d.f0 == c.f0 && d.f1 == c.f1 && c.now <= d.now && c.f1 < d.now
    requires touched == if HostmacChanged(s.snap, next) || HostIpsChanged(s.snap, next) || BrChanged(s.snap, next)
                        then t.installed.Keys else {}
    requires d.lastMark.Keys == c.lastMark.Keys + touched
    requires forall ip | ip in d.lastMark :: d.lastMark[ip] == if ip in touched then d.now else c.lastMark[ip]
    ensures Ticking(t, d)
  {
    if HostmacChanged(s.snap, next) || HostIpsChanged(s.snap, next) || BrChanged(s.snap, next) {
      DiffMarks(s, next, order, d.now, t);
    } else {
      QuietDiff(s, next, order, d.now, t);
    }
    TouchKeeps(s, t, c, d, touched);
  }

  /** A session starts by reconciling every entry on empty marks. */
  lemma InitReconciles(s: State, order: seq<Ip>, fwd0: nat, now: nat) returns (p: State)
    requires s.be.OnEbpf? && !s.initialized && InitSession(s, order, fwd0, now).initialized
    ensures p.be.OnEbpf? && p.be.e.seen == map[] && p.be.e.loaded && p.store == s.store
    ensures InitSession(s, order, fwd0, now) == ReconcileSeq(p, order, now).0
  {
    var first := Recompute(s.cfg, s.w);
    var w := CreateVeth(s.cfg, s.w, fwd0);
    var snap := Recompute(s.cfg, w);
    p := s.(be := s.be.Init(HostmacOr(snap, first.hostmac.value), snap.brmac, snap.HostIpSet(), s.cfg.timeout, now),
            initialized := true, snap := snap, w := EnsureBridge(s.cfg, w));
    if s.cfg.IsFwd() {
      p := ReconcileMirror(p);
    }
  }

  /** Once every entry is reconciled on empty marks, exactly the installed ones are marked. */
  lemma FreshTicks(p: State, order: seq<Ip>, d: Clock, t: State)
    requires p.be.OnEbpf? && p.be.e.seen == map[] && p.be.e.loaded && ToSet(order) == p.store.entries.Keys
    requires t == ReconcileSeq(p, order, d.now).0 && Inv(t) && t.initialized
    requires d.f0 <= d.f1 < d.now && forall x | x in t.installed :: x in d.lastMark && d.lastMark[x] == d.now
    ensures Ticking(t, d)
  {
    AllReconciledMarks(p, order, d.now, t);
  }

  lemma InitTicks(s: State, order: seq<Ip>, fwd0: nat, d: Clock, t: State)
    requires s.be.OnEbpf? && !s.initialized && t == InitSession(s, order, fwd0, d.now)
    requires Inv(t) && t.initialized && ToSet(order) == s.store.entries.Keys
    requires d.f0 <= d.f1 < d.now && forall x | x in t.installed :: x in d.lastMark && d.lastMark[x] == d.now
    ensures Ticking(t, d)
  {
    var p := InitReconciles(s, order, fwd0, d.now);
    FreshTicks(p, order, d, t);
  }

  /** The netlink event of an active session whose uplink is there is a diff. */
  lemma ActiveNetlink(s: State, order: seq<Ip>, fwd0: nat, now: nat)
    requires s.initialized && Recompute(s.cfg, s.w).up0Present
    ensures OnNetlink(s, order, fwd0, now) == ApplyDiff(s, Recompute(s.cfg, s.w), order, now)
  {
  }

  lemma NetlinkTicks(s: State, c: Clock, order: seq<Ip>, fwd0: nat, now: nat, d: Clock)
    requires Ticking(s, c) && Inv(OnNetlink(s, order, fwd0, now)) && ToSet(order) == s.store.entries.Keys
    requires c.now <= now && c.f1 < now && d == Clocked(s, c, Netlink(order, fwd0, now))
    ensures Ticking(OnNetlink(s, order, fwd0, now), d)
  {
    var next, t := Recompute(s.cfg, s.w), OnNetlink(s, order, fwd0, now);
    if !t.initialized {
      assert t.be.OnEbpf? by { NetlinkEngine(s, order, fwd0, now); }
    } else if !s.initialized {
      InitTicks(s.(snap := next), order, fwd0, d, t);
    } else if next.up0Present {
      ActiveNetlink(s, order, fwd0, now);
      DiffTicks(s, c, next, order, d, t, Touched(s, Netlink(order, fwd0, now)));
    }
  }

  lemma EngineStays(s: State, ev: Event)
    requires Inv(s) && s.be.OnEbpf?
    ensures Step(s, ev).be.OnEbpf?
  {
    match ev
    case Netlink(order, fwd0, now) => NetlinkEngine(s, order, fwd0, now);
    case Learn(ip, mac, now) =>
      var (store, changed) := S.Learned(s.caps, s.store, ip, mac, now);
      SeqEngine(s.(store := store), changed, now);
    case Tick(order, fwd0, now) =>
      if !s.initialized {
        NetlinkEngine(s, order, fwd0, now);
      } else {
        TickEngine(s, order, fwd0, now);
      }
    case _ =>
  }

  lemma TickEngine(s: State, order: seq<Ip>, fwd0: nat, now: nat)
    requires Inv(s) && s.initialized && s.be.OnEbpf?
    ensures OnTick(s, order, fwd0, now).be.OnEbpf?
  {
    if IsProbe(s) {
      RefreshSeqMarks(s.be, order, now);
    } else {
      AgeOutMarks(s.(agingTick := s.agingTick + 1, be := s.be.Do(B.Flush, now)), order, now);
    }
  }

  lemma {:induction false} SeqEngine(s: State, ips: seq<Ip>, now: nat)
    requires s.be.OnEbpf?
    ensures ReconcileSeq(s, ips, now).0.be.OnEbpf?
    decreases |ips|
  {
    if ips != [] {
      var want := Wanted(s, ips[0]);
      if want.None? {
        ForgottenSameBook(s.(be := s.be.Withdraw(ips[0], now).0), ips[0]);
      } else {
        InstalledSameBook(s.(be := s.be.Write(ips[0], want.value, now).0), ips[0], want.value);
      }
      if Reconcile(s, ips[0], now).1 {
        SeqEngine(Reconcile(s, ips[0], now).0, ips[1..], now);
      }
    }
  }

  lemma NetlinkEngine(s: State, order: seq<Ip>, fwd0: nat, now: nat)
    requires s.be.OnEbpf?
    ensures OnNetlink(s, order, fwd0, now).be.OnEbpf?
  {
    var next := Recompute(s.cfg, s.w);
    PreparedFrame(s, next, now);
    SeqEngine(Prepared(s, next, now), order, now);
    InitEngine(s.(snap := next), order, fwd0, now);
  }

  lemma InitEngine(s: State, order: seq<Ip>, fwd0: nat, now: nat)
    requires s.be.OnEbpf?
    ensures InitSession(s, order, fwd0, now).be.OnEbpf?
  {
    var first := Recompute(s.cfg, s.w);
    if first.up0Present && first.hostmac.Some? {
      var w := CreateVeth(s.cfg, s.w, fwd0);
      var snap := Recompute(s.cfg, w);
      var s1 := s.(be := s.be.Init(HostmacOr(snap, first.hostmac.value), snap.brmac, snap.HostIpSet(), s.cfg.timeout, now),
                   initialized := true, snap := snap, w := EnsureBridge(s.cfg, w));
      SeqEngine(if s.cfg.IsFwd() then ReconcileMirror(s1) else s1, order, now);
    }
  }

  lemma ProbeTicks(s: State, c: Clock, order: seq<Ip>, fwd0: nat, now: nat)
    requires Ticking(s, c) && IsProbe(s) && Legal(s, Tick(order, fwd0, now)) && InTime(c, Tick(order, fwd0, now))
    requires Inv(OnTick(s, order, fwd0, now))
    ensures Ticking(OnTick(s, order, fwd0, now), Clocked(s, c, Tick(order, fwd0, now)))
  {
    var ev, t := Tick(order, fwd0, now), OnTick(s, order, fwd0, now);
    RefreshSeqMarks(s.be, order, now);
    forall x ensures x in order <==> x in Skipped(s, now) {
      assert x in ToSet(order) <==> x in order;
    }
    TouchKeeps(s, t, c, Clocked(s, c, ev), Touched(s, ev));
  }

  /** A flush leaves the reported entries unmarked and nothing else. */
  lemma FlushedMarks(s: State, order: seq<Ip>, fwd0: nat, now: nat)
    requires Inv(s) && s.be.OnEbpf? && IsFlush(s) && Legal(s, Tick(order, fwd0, now)) && Inv(OnTick(s, order, fwd0, now))
    ensures var t := OnTick(s, order, fwd0, now);
            && t.be.OnEbpf? && t.initialized
            && (forall x :: !Marked(t.be, x) && (Unmarked(t.be, x) ==> Marked(s.be, x)))
            && (forall x | x in t.installed :: Unmarked(t.be, x))
  {
    var t := OnTick(s, order, fwd0, now);
    var s1 := s.(agingTick := s.agingTick + 1, be := s.be.Do(B.Flush, now));
    AgeOutMarks(s1, order, now);
    AgeOutFrame(s1, order, now);
    forall x | x in t.installed ensures Unmarked(t.be, x) {
      assert Agrees(t, x);
      FlushAgesOut(s, order, fwd0, now, x);
      assert x in s.be.Alive(now);
      assert x !in Dead(s, now);
      assert x !in ToSet(order);
    }
  }

  lemma FlushTicks(s: State, c: Clock, order: seq<Ip>, fwd0: nat, now: nat)
    requires Ticking(s, c) && IsFlush(s) && Legal(s, Tick(order, fwd0, now)) && InTime(c, Tick(order, fwd0, now))
    requires Inv(OnTick(s, order, fwd0, now))
    ensures Ticking(OnTick(s, order, fwd0, now), Clocked(s, c, Tick(order, fwd0, now)))
  {
    FlushedMarks(s, order, fwd0, now);
  }

  /** Without a session there are no marks to account for. */
  lemma DownTicks(t: State, c: Clock)
    requires Inv(t) && t.be.OnEbpf? && !t.initialized && c.f0 <= c.f1 <= c.now
    ensures Ticking(t, c)
  {
  }

  lemma LearnStepTicks(s: State, c: Clock, ip: Ip, mac: Mac, now: nat)
    requires Ticking(s, c) && InTime(c, Learn(ip, mac, now))
    ensures Ticking(DoLearn(s, ip, mac, now), Clocked(s, c, Learn(ip, mac, now)))
  {
    StepKeepsInv(s, Learn(ip, mac, now));
    if s.initialized && IsLearnable(ip) {
      LearnTicks(s, c, ip, mac, now);
    } else if !s.initialized {
      LearnFrame(s, ip, mac, now);
      EngineStays(s, Learn(ip, mac, now));
      DownTicks(DoLearn(s, ip, mac, now), Clocked(s, c, Learn(ip, mac, now)));
    }
  }

  lemma MarkTicks(s: State, c: Clock, ip: Ip, now: nat)
    requires Ticking(s, c) && InTime(c, Mark(ip, now))
    ensures Ticking(Step(s, Mark(ip, now)), Clocked(s, c, Mark(ip, now)))
  {
    StepKeepsInv(s, Mark(ip, now));
    if s.initialized {
      TouchKeeps(s, Step(s, Mark(ip, now)), c, Clocked(s, c, Mark(ip, now)), {ip});
    }
  }

  lemma TickTicks(s: State, c: Clock, order: seq<Ip>, fwd0: nat, now: nat)
    requires Ticking(s, c) && Legal(s, Tick(order, fwd0, now)) && InTime(c, Tick(order, fwd0, now))
    ensures Ticking(OnTick(s, order, fwd0, now), Clocked(s, c, Tick(order, fwd0, now)))
  {
    StepKeepsInv(s, Tick(order, fwd0, now));
    if IsProbe(s) {
      ProbeTicks(s, c, order, fwd0, now);
    } else if IsFlush(s) {
      FlushTicks(s, c, order, fwd0, now);
    } else {
      NetlinkTicks(s, c, order, fwd0, now, Clocked(s, c, Tick(order, fwd0, now)));
    }
  }

  lemma StepTicks(s: State, c: Clock, ev: Event)
    requires Ticking(s, c) && Legal(s, ev) && InTime(c, ev)
    ensures Ticking(Step(s, ev), Clocked(s, c, ev))
  {
    match ev
    case Outside(w) => StepKeepsInv(s, ev);
    case Netlink(order, fwd0, now) =>
      StepKeepsInv(s, ev);
      NetlinkTicks(s, c, order, fwd0, now, Clocked(s, c, ev));
    case Learn(ip, mac, now) => LearnStepTicks(s, c, ip, mac, now);
    case Mark(ip, now) => MarkTicks(s, c, ip, now);
    case Tick(order, fwd0, now) => TickTicks(s, c, order, fwd0, now);
    case Shutdown =>
      StepKeepsInv(s, ev);
      DownTicks(Step(s, ev), Clocked(s, c, ev));
  }

  lemma {:induction false} RunTicks(s: State, c: Clock, evs: seq<Event>)
    requires Ticking(s, c) && LegalRun(s, evs) && AllInTime(s, c, evs)
    ensures Ticking(Run(s, evs), ClockAfter(s, c, evs))
    decreases |evs|
  {
    if evs != [] {
      StepTicks(s, c, evs[0]);
      RunTicks(Step(s, evs[0]), Clocked(s, c, evs[0]), evs[1..]);
    }
  }

  /** In every run on eBPF: an installed entry that a flush at `t` ages out was last marked after
      the flush before the last and no later than the last, one that it keeps after the last.
      So with flushes at least `p` apart what is aged out has been idle at least p, and with
      flushes exactly p apart less than 2p. */
  lemma IdleBounds(s: State, evs: seq<Event>, order: seq<Ip>, fwd0: nat, t: nat, ip: Ip, p: nat)
    requires IsInitial(s) && s.be.OnEbpf? && LegalRun(s, evs) && AllInTime(s, Clock(map[], 0, 0, 0), evs)
    requires var d := Run(s, evs);
             IsFlush(d) && Legal(d, Tick(order, fwd0, t)) && ip in d.installed
    requires ClockAfter(s, Clock(map[], 0, 0, 0), evs).f1 + p <= t
    ensures var d, c := Run(s, evs), ClockAfter(s, Clock(map[], 0, 0, 0), evs);
            && ip in c.lastMark
            && (ip !in OnTick(d, order, fwd0, t).store.entries ==>
                  && c.f0 < c.lastMark[ip] <= c.f1
                  && p <= t - c.lastMark[ip] < t - c.f0
                  && (t == c.f0 + 2 * p ==> t - c.lastMark[ip] < 2 * p))
            && (ip in OnTick(d, order, fwd0, t).store.entries ==> c.f1 < c.lastMark[ip] <= c.now)
  {
    var d := Run(s, evs);
    InitialInv(s);
    RunTicks(s, Clock(map[], 0, 0, 0), evs);
    assert Agrees(d, ip);
    FlushAgesOut(d, order, fwd0, t, ip);
  }
}
