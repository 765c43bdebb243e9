/**
 What every run of the syncer keeps: the kernel's table is exactly the wanted bindings, the
 host routes and proxies follow it, and nothing outlives a teardown but nft's shadow, whose
 keys are still entries.
 */
module CoreInvariant {
  import opened Types
  import opened Topology
  import opened Core
  import S = State
  import B = Backend

  function Get(m: map<Ip, Mac>, ip: Ip): Option<Mac> {
    if ip in m then Some(m[ip]) else None
  }

  /** The kernel table, the record of it and the wish agree on `ip`; route and proxy follow. */
  ghost predicate Agrees(s: State, ip: Ip) {
    && Get(s.be.Table(), ip) == Wanted(s, ip)
    && Get(s.installed, ip) == Wanted(s, ip)
    && (ip in s.hostRoutes <==> ip in s.installed && RouteWanted(s, ip))
    && (ip in s.hostRoutes ==> ip in s.kroutes && Some(s.kroutes[ip].oif) == s.snap.brIndex)
    && (ip in s.proxied ==> ip in s.installed)
  }

  /** Only we write the vmroute table. */
  ghost predicate RoutesOurs(s: State) {
    s.kroutes.Keys == s.hostRoutes && (s.cfg.table.None? ==> s.hostRoutes == {})
  }

  ghost predicate Live(s: State) {
    s.initialized && s.be.Sound() && s.be.Up() && RoutesOurs(s)
  }

  /** The backend was last told what the snapshot says. */
  ghost predicate Tuned(be: Engine, snap: Snap) {
    && be.Hosts() == snap.HostIpSet()
    && be.Brmac() == snap.brmac
    && (snap.hostmac.Some? ==> be.Hostmac() == snap.hostmac.value)
  }

  ghost predicate Inv(s: State) {
    && S.Reached(s.caps, s.store)
    && s.be.Sound()
    && RoutesOurs(s)
    && s.be.Up() == s.initialized
    && s.be.Shadow() <= s.store.entries.Keys
    && (!s.snap.up0Present ==> s.snap == NO_SNAP)
    && if s.initialized then
         Tuned(s.be, s.snap) && forall ip :: Agrees(s, ip)
       else s.installed == map[] && s.hostRoutes == {} && s.proxied == {}
  }

  // ---- reconcile ----

  /** Everything a reconcile leaves alone. */
  ghost predicate SameFrame(s: State, t: State) {
    && (t.cfg, t.caps, t.store, t.snap, t.initialized) == (s.cfg, s.caps, s.store, s.snap, s.initialized)
    && (t.mirroredBr, t.savedBr, t.agingTick) == (s.mirroredBr, s.savedBr, s.agingTick)
    && t.be.Hosts() == s.be.Hosts() && t.be.Hostmac() == s.be.Hostmac() && t.be.Brmac() == s.be.Brmac()
    && t.w == s.w.(up0Addrs := t.w.up0Addrs)
  }

  /** Nothing about `x` moved. */
  ghost predicate SameAt(s: State, t: State, x: Ip) {
    && Get(t.be.Table(), x) == Get(s.be.Table(), x)
    && Get(t.installed, x) == Get(s.installed, x)
    && (x in t.hostRoutes <==> x in s.hostRoutes)
    && (x in t.proxied <==> x in s.proxied)
    && (x in s.kroutes ==> x in t.kroutes && t.kroutes[x] == s.kroutes[x])
  }

  lemma WriteEffect(be: Engine, ip: Ip, mac: Mac, now: nat)
    requires be.Sound() && be.Up()
    ensures var (after, ok) := be.Write(ip, mac, now);
            && ok && after.Sound() && after.Up()
            && after.Table() == be.Table()[ip := mac]
            && after.Shadow() <= be.Shadow() + {ip}
            && after.Hosts() == be.Hosts() && after.Hostmac() == be.Hostmac() && after.Brmac() == be.Brmac()
  {
    if be.OnNft? {
      B.NftWriteKeeps(be.n, ip, mac, now);
    }
  }

  lemma WithdrawEffect(be: Engine, ip: Ip, now: nat)
    requires be.Sound() && be.Up()
    ensures var (after, ok) := be.Withdraw(ip, now);
            && ok && after.Sound() && after.Up()
            && after.Table() == be.Table() - {ip}
            && after.Shadow() == be.Shadow() - {ip}
            && after.Hosts() == be.Hosts() && after.Hostmac() == be.Hostmac() && after.Brmac() == be.Brmac()
  {
    if be.OnNft? {
      B.NftWithdrawKeeps(be.n, ip, now);
    }
  }

  /** What one reconcile of `ip` ends in. */
  ghost predicate Settled(s: State, t: State, ip: Ip) {
    && Live(t) && SameFrame(s, t)
    && Agrees(t, ip)
    && t.be.Shadow() <= (if Wanted(s, ip).Some? then s.be.Shadow() + {ip} else s.be.Shadow())
    && forall x | x != ip :: SameAt(s, t, x)
  }

  /** The fields a reconcile's second half works on, at every address but `ip`. */
  ghost predicate SameOthers(s: State, t: State, ip: Ip) {
    && t == s.(hostRoutes := t.hostRoutes, kroutes := t.kroutes, proxied := t.proxied, installed := t.installed,
               w := s.w.(up0Addrs := t.w.up0Addrs))
    && forall x | x != ip ::
         && Get(t.installed, x) == Get(s.installed, x)
         && (x in t.hostRoutes <==> x in s.hostRoutes)
         && (x in t.proxied <==> x in s.proxied)
         && (x in s.kroutes ==> x in t.kroutes && t.kroutes[x] == s.kroutes[x])
  }

  lemma ForgetEffect(s: State, ip: Ip)
    requires RoutesOurs(s)
    ensures var t := Forgotten(s, ip);
            && RoutesOurs(t) && SameOthers(s, t, ip)
            && ip !in t.installed && ip !in t.hostRoutes && ip !in t.proxied
  {
    assert WithdrawRoute(s, ip).kroutes.Keys == WithdrawRoute(s, ip).hostRoutes;
  }

  lemma RouteEffect(s: State, ip: Ip)
    requires RoutesOurs(s)
    requires ip in s.hostRoutes ==> RouteWanted(s, ip)
    ensures var t := WriteRoute(s, ip);
            && t == s.(hostRoutes := t.hostRoutes, kroutes := t.kroutes) && RoutesOurs(t)
            && t.hostRoutes == (if RouteWanted(s, ip) then s.hostRoutes + {ip} else s.hostRoutes)
            && (ip in t.hostRoutes <==> RouteWanted(s, ip))
            && (ip in t.hostRoutes ==> Some(t.kroutes[ip].oif) == s.snap.brIndex)
            && (forall x | x != ip && x in s.kroutes :: x in t.kroutes && t.kroutes[x] == s.kroutes[x])
  {
    assert WriteRoute(s, ip).kroutes.Keys == WriteRoute(s, ip).hostRoutes;
  }

  lemma InstallEffect(s: State, ip: Ip, mac: Mac)
    requires RoutesOurs(s)
    requires ip in s.hostRoutes ==> RouteWanted(s, ip)
    ensures var t := Installed(s, ip, mac);
            && RoutesOurs(t) && SameOthers(s, t, ip)
            && Get(t.installed, ip) == Some(mac)
            && (ip in t.hostRoutes <==> RouteWanted(s, ip))
            && (ip in t.hostRoutes ==> ip in t.kroutes && Some(t.kroutes[ip].oif) == s.snap.brIndex)
  {
    RouteEffect(s, ip);
    ProxyEffect(WriteRoute(s, ip), ip);
  }

  lemma ProxyEffect(s: State, ip: Ip)
    ensures var t := Proxy(s, ip);
            && t == s.(proxied := t.proxied, w := s.w.(up0Addrs := t.w.up0Addrs))
            && forall x | x != ip :: x in t.proxied <==> x in s.proxied
  {
  }

  lemma WithdrawSettles(s: State, ip: Ip, now: nat)
    requires Live(s) && Wanted(s, ip).None?
    ensures Reconcile(s, ip, now).1
    ensures Settled(s, Reconcile(s, ip, now).0, ip)
  {
    WithdrawEffect(s.be, ip, now);
    ForgetEffect(s.(be := s.be.Withdraw(ip, now).0), ip);
  }

  lemma WriteSettles(s: State, ip: Ip, now: nat)
    requires Live(s) && Wanted(s, ip).Some?
    requires ip in s.hostRoutes ==> RouteWanted(s, ip)
    ensures Reconcile(s, ip, now).1
    ensures Settled(s, Reconcile(s, ip, now).0, ip)
  {
    WriteEffect(s.be, ip, Wanted(s, ip).value, now);
    InstallEffect(s.(be := s.be.Write(ip, Wanted(s, ip).value, now).0), ip, Wanted(s, ip).value);
  }

  /** A route is only ever held while routes are wanted at all. */
  ghost predicate RoutesPlausible(s: State) {
    forall x | x in s.hostRoutes :: RouteWanted(s, x)
  }

  /** One reconcile on a live session succeeds, settles its address and moves no other. */
  lemma ReconcileSettles(s: State, ip: Ip, now: nat)
    requires Live(s) && RoutesPlausible(s)
    ensures Reconcile(s, ip, now).1
    ensures Settled(s, Reconcile(s, ip, now).0, ip)
    ensures RoutesPlausible(Reconcile(s, ip, now).0)
  {
    if Wanted(s, ip).None? {
      WithdrawSettles(s, ip, now);
    } else {
      WriteSettles(s, ip, now);
    }
    var t := Reconcile(s, ip, now).0;
    forall x | x in t.hostRoutes ensures RouteWanted(t, x) {
      assert x != ip ==> SameAt(s, t, x);
    }
  }

  lemma AgreesElsewhere(s: State, t: State, ip: Ip, x: Ip)
    requires Settled(s, t, ip) && x != ip && Agrees(s, x)
    ensures Agrees(t, x)
  {
    assert SameAt(s, t, x);
  }

  lemma SettledChain(s: State, t: State, u: State)
    requires SameFrame(s, t) && SameFrame(t, u)
    ensures SameFrame(s, u)
  {
  }

  lemma {:induction false} ReconcileSeqSettles(s: State, ips: seq<Ip>, now: nat)
    requires Live(s) && RoutesPlausible(s)
    ensures ReconcileSeq(s, ips, now).1
    ensures var t := ReconcileSeq(s, ips, now).0;
            && Live(t) && SameFrame(s, t)
            && (forall x | x in ips || Agrees(s, x) :: Agrees(t, x))
    decreases |ips|
  {
    if ips != [] {
      var s1 := Reconcile(s, ips[0], now).0;
      ReconcileSettles(s, ips[0], now);
      ReconcileSeqSettles(s1, ips[1..], now);
      SettledChain(s, s1, ReconcileSeq(s, ips, now).0);
      forall x | x in ips || Agrees(s, x) ensures x in ips[1..] || Agrees(s1, x) {
        if x != ips[0] && Agrees(s, x) {
          AgreesElsewhere(s, s1, ips[0], x);
        }
      }
    }
  }

  ghost predicate Offline(s: State) {
    && s.be.Sound() && !s.be.Up() && !s.initialized
    && s.installed == map[] && s.hostRoutes == {} && s.proxied == {}
  }

  /** Off the table a reconcile touches only nft's shadow; it drops a key that is no entry. */
  lemma ReconcileOffline(s: State, ip: Ip, now: nat)
    requires Offline(s)
    requires s.be.Shadow() <= s.store.entries.Keys + {ip}
    ensures var t := Reconcile(s, ip, now).0;
            t == s.(be := t.be) && Offline(t) && t.be.Shadow() <= t.store.entries.Keys
  {
    var want := Wanted(s, ip);
    assert s.installed - {ip} == s.installed;
    if s.be.OnNft? {
      if want.None? {
        B.NftWithdrawKeeps(s.be.n, ip, now);
      } else {
        B.NftWriteKeeps(s.be.n, ip, want.value, now);
      }
    }
  }

  /** The first address is always reconciled, even when an error then stops the list. */
  lemma {:induction false} ReconcileSeqOffline(s: State, ips: seq<Ip>, now: nat)
    requires Offline(s)
    requires s.be.Shadow() <= s.store.entries.Keys + if ips == [] then {} else {ips[0]}
    ensures var t := ReconcileSeq(s, ips, now).0;
            t == s.(be := t.be) && Offline(t) && t.be.Shadow() <= t.store.entries.Keys
    decreases |ips|
  {
    if ips != [] {
      ReconcileOffline(s, ips[0], now);
      var (s1, ok) := Reconcile(s, ips[0], now);
      if ok {
        ReconcileSeqOffline(s1, ips[1..], now);
      }
    }
  }

  // ---- learn ----

  lemma BindingDecidesWanted(s: State, t: State, ip: Ip)
    requires t == s.(store := t.store)
    requires S.Binding(s.store, ip) == S.Binding(t.store, ip)
    ensures Wanted(s, ip) == Wanted(t, ip)
  {
  }

  lemma LearnKeepsInv(s: State, ip: Ip, mac: Mac, now: nat)
    requires Inv(s)
    ensures Inv(DoLearn(s, ip, mac, now))
  {
    if IsLearnable(ip) {
      var (store, changed) := S.Learned(s.caps, s.store, ip, mac, now);
      var s1 := s.(store := store);
      S.LearnKeepsReached(s.caps, s.store, ip, mac, now);
      S.ChangedIsTheDiff(s.caps, s.store, ip, mac, now);
      forall x | x !in changed ensures Wanted(s, x) == Wanted(s1, x) {
        BindingDecidesWanted(s, s1, x);
      }
      if s.initialized {
        LearnOnline(s, s1, changed, now);
      } else {
        LearnOffline(s, s1, ip, mac, changed, now);
      }
    }
  }

  lemma LearnOnline(s: State, s1: State, changed: seq<Ip>, now: nat)
    requires Inv(s) && s.initialized && s1 == s.(store := s1.store)
    requires S.Reached(s.caps, s1.store)
    requires forall x | x !in changed :: Wanted(s, x) == Wanted(s1, x)
    ensures Inv(ReconcileSeq(s1, changed, now).0)
  {
    forall x | x !in changed ensures Agrees(s1, x) {
      assert Agrees(s, x);
    }
    forall x | x in s1.hostRoutes ensures RouteWanted(s1, x) {
      assert Agrees(s, x);
    }
    ReconcileSeqSettles(s1, changed, now);
    ShadowIsTable(ReconcileSeq(s1, changed, now).0);
  }

  /** On a live session nft's shadow is its table, so its keys are wanted entries. */
  lemma ShadowIsTable(t: State)
    requires Live(t) && forall x :: Agrees(t, x)
    ensures t.be.Shadow() <= t.store.entries.Keys
  {
    forall x | x in t.be.Shadow() ensures x in t.store.entries {
      assert Agrees(t, x);
    }
  }

  /** With a single victim, the only key that may have left the store is reconciled first. */
  lemma LearnOffline(s: State, s1: State, ip: Ip, mac: Mac, changed: seq<Ip>, now: nat)
    requires Inv(s) && !s.initialized
    requires (s1, changed) == (s.(store := S.Learned(s.caps, s.store, ip, mac, now).0),
                               S.Learned(s.caps, s.store, ip, mac, now).1)
    requires S.Reached(s.caps, s1.store)
    ensures Inv(ReconcileSeq(s1, changed, now).0)
  {
    VictimFirst(s.caps, s.store, ip, mac, now);
    ReconcileSeqOffline(s1, changed, now);
  }

  lemma VictimFirst(caps: S.Caps, store: S.Store, ip: Ip, mac: Mac, now: nat)
    requires S.Reached(caps, store)
    ensures var (after, changed) := S.Learned(caps, store, ip, mac, now);
            store.entries.Keys <= after.entries.Keys + if changed == [] then {} else {changed[0]}
  {
    S.AtMostOneVictim(caps, store, ip, mac, now);
    S.ChangedIsTheDiff(caps, store, ip, mac, now);
    var (after, changed) := S.Learned(caps, store, ip, mac, now);
    forall x | x in store.entries && x !in after.entries ensures changed != [] && x == changed[0] {
      assert S.Binding(store, x) != S.Binding(after, x);
      assert ip in after.entries;
      assert |changed| == 2 ==> changed[1] == ip;
    }
  }

  // ---- sessions ----

  /** What holds of any state between events, whatever the snapshot says by now. */
  ghost predicate Basic(s: State) {
    && S.Reached(s.caps, s.store)
    && s.be.Sound()
    && RoutesOurs(s)
    && s.be.Up() == s.initialized
    && s.be.Shadow() <= s.store.entries.Keys
    && (!s.initialized ==> s.installed == map[] && s.hostRoutes == {} && s.proxied == {})
  }

  lemma TeardownKeepsInv(s: State)
    requires Basic(s) && (!s.snap.up0Present ==> s.snap == NO_SNAP)
    ensures Inv(Teardown(s)) && !Teardown(s).initialized
  {
    if s.initialized {
      assert (s.kroutes - s.hostRoutes).Keys == {};
    }
  }

  lemma RecomputeEmpty(cfg: Config, w: World)
    ensures !Recompute(cfg, w).up0Present ==> Recompute(cfg, w) == NO_SNAP
  {
  }

  lemma InitEffect(be: Engine, hostmac: Mac, brmac: Option<Mac>, ips: set<Ip>, timeout: nat, now: nat)
    ensures var b := be.Init(hostmac, brmac, ips, timeout, now);
            && b.Sound() && b.Up() && b.Table().Keys == be.Shadow() && b.Shadow() == be.Shadow()
            && b.Hosts() == ips && b.Hostmac() == hostmac && b.Brmac() == brmac
  {
  }

  /** A full reconcile of a live session settles every address. */
  lemma ReconcileAllSettles(s: State, order: seq<Ip>, now: nat)
    requires Live(s) && RoutesPlausible(s) && S.Reached(s.caps, s.store)
    requires Tuned(s.be, s.snap) && (!s.snap.up0Present ==> s.snap == NO_SNAP)
    requires ToSet(order) == s.store.entries.Keys
    requires forall x | x !in s.store.entries :: Agrees(s, x)
    ensures Inv(ReconcileSeq(s, order, now).0)
  {
    ReconcileSeqSettles(s, order, now);
    var t := ReconcileSeq(s, order, now).0;
    forall x ensures Agrees(t, x) {
      assert x in s.store.entries ==> x in ToSet(order);
    }
    ShadowIsTable(t);
  }

  lemma InitKeepsInv(s: State, order: seq<Ip>, fwd0: nat, now: nat)
    requires Basic(s) && !s.initialized && (!s.snap.up0Present ==> s.snap == NO_SNAP)
    requires ToSet(order) == s.store.entries.Keys
    ensures Inv(InitSession(s, order, fwd0, now))
  {
    var first := Recompute(s.cfg, s.w);
    if first.up0Present && first.hostmac.Some? {
      var w := CreateVeth(s.cfg, s.w, fwd0);
      var snap := Recompute(s.cfg, w);
      RecomputeEmpty(s.cfg, w);
      var hostmac := HostmacOr(snap, first.hostmac.value);
      InitEffect(s.be, hostmac, snap.brmac, snap.HostIpSet(), s.cfg.timeout, now);
      var s1 := s.(be := s.be.Init(hostmac, snap.brmac, snap.HostIpSet(), s.cfg.timeout, now),
                   initialized := true, snap := snap, w := EnsureBridge(s.cfg, w));
      var s2 := if s.cfg.IsFwd() then ReconcileMirror(s1) else s1;
      ReconcileAllSettles(s2, order, now);
    }
  }

  lemma RetunedEffect(be: Engine, prev: Snap, next: Snap, now: nat)
    requires be.Sound() && be.Up() && Tuned(be, prev)
    ensures var b := Retuned(be, prev, next, now);
            && b.Sound() && b.Up() && b.Table() == be.Table() && b.Shadow() == be.Shadow()
            && Tuned(b, next)
  {
  }

  lemma PreparedIsLive(s: State, next: Snap, now: nat)
    requires Inv(s) && s.initialized
    ensures var t := Prepared(s, next, now);
            && Live(t) && RoutesPlausible(t) && Tuned(t.be, next)
            && (t.store, t.caps, t.snap, t.installed, t.proxied) == (s.store, s.caps, next, s.installed, s.proxied)
            && t.be.Table() == s.be.Table() && t.be.Shadow() == s.be.Shadow()
            && t.hostRoutes <= s.hostRoutes
            && (!BrChanged(s.snap, next) ==> t.hostRoutes == s.hostRoutes && t.kroutes == s.kroutes)
  {
    RetunedEffect(s.be, s.snap, next, now);
    PreparedRoutes(s, next, now);
  }

  lemma PreparedRoutes(s: State, next: Snap, now: nat)
    requires Inv(s) && s.initialized
    ensures var t := Prepared(s, next, now);
            && RoutesOurs(t) && RoutesPlausible(t) && t.hostRoutes <= s.hostRoutes
            && (!BrChanged(s.snap, next) ==> t.hostRoutes == s.hostRoutes && t.kroutes == s.kroutes)
  {
    assert (s.kroutes - s.hostRoutes).Keys == {};
    var t := Prepared(s, next, now);
    forall x | x in t.hostRoutes ensures RouteWanted(t, x) {
      assert Agrees(s, x);
    }
  }

  lemma DiffKeepsInv(s: State, next: Snap, order: seq<Ip>, now: nat)
    requires Inv(s) && s.initialized && (!next.up0Present ==> next == NO_SNAP)
    requires ToSet(order) == s.store.entries.Keys
    ensures Inv(ApplyDiff(s, next, order, now))
  {
    PreparedIsLive(s, next, now);
    var t := Prepared(s, next, now);
    if HostmacChanged(s.snap, next) || HostIpsChanged(s.snap, next) || BrChanged(s.snap, next) {
      forall x | x !in t.store.entries ensures Agrees(t, x) {
        assert Agrees(s, x);
      }
      ReconcileAllSettles(t, order, now);
    } else {
      forall x ensures Agrees(t, x) {
        assert Agrees(s, x);
      }
    }
  }

  lemma NetlinkKeepsInv(s: State, order: seq<Ip>, fwd0: nat, now: nat)
    requires Inv(s) && ToSet(order) == s.store.entries.Keys
    ensures Inv(OnNetlink(s, order, fwd0, now))
  {
    var next := Recompute(s.cfg, s.w);
    RecomputeEmpty(s.cfg, s.w);
    if s.snap.up0Present && !next.up0Present {
      TeardownKeepsInv(s.(snap := next));
    } else if next.up0Present && !s.initialized {
      InitKeepsInv(s.(snap := next), order, fwd0, now);
    } else if s.initialized && (s.snap.up0Present || next.up0Present) {
      DiffKeepsInv(s, next, order, now);
    }
  }

  // ---- ticks ----

  lemma MarkEffect(be: Engine, op: B.Op, now: nat)
    requires be.Sound() && (op.Mark? || op.Refresh? || op.Flush?)
    ensures var b := be.Do(op, now);
            && b.Sound() && b.Up() == be.Up() && b.Table() == be.Table() && b.Shadow() == be.Shadow()
            && b.Hosts() == be.Hosts() && b.Hostmac() == be.Hostmac() && b.Brmac() == be.Brmac()
  {
    if be.OnNft? && op.Refresh? && op.ip in be.n.entries {
      if be.n.up {
        B.RefreshKeeps(be.n, op.ip, now);
      } else {
        assert B.NftRefresh(be.n, op.ip, now) == be.n;
      }
    }
  }

  /** Replacing the backend by one that differs only in its marks keeps everything. */
  lemma MarksAreInvisible(s: State, be: Engine)
    requires Inv(s)
    requires be.Sound() && be.Up() == s.be.Up() && be.Table() == s.be.Table() && be.Shadow() == s.be.Shadow()
    requires be.Hosts() == s.be.Hosts() && be.Hostmac() == s.be.Hostmac() && be.Brmac() == s.be.Brmac()
    ensures Inv(s.(be := be))
  {
    forall x | s.initialized ensures Agrees(s.(be := be), x) {
      assert Agrees(s, x);
    }
  }

  lemma {:induction false} RefreshSeqEffect(be: Engine, ips: seq<Ip>, now: nat)
    requires be.Sound()
    ensures var b := RefreshSeq(be, ips, now);
            && b.Sound() && b.Up() == be.Up() && b.Table() == be.Table() && b.Shadow() == be.Shadow()
            && b.Hosts() == be.Hosts() && b.Hostmac() == be.Hostmac() && b.Brmac() == be.Brmac()
    decreases |ips|
  {
    if ips != [] {
      MarkEffect(be, B.Refresh(ips[0]), now);
      RefreshSeqEffect(be.Do(B.Refresh(ips[0]), now), ips[1..], now);
    }
  }

  lemma RemoveOne(s: State, ip: Ip, now: nat)
    requires Inv(s) && s.initialized
    ensures var (t, ok) := Reconcile(s.(store := S.Removed(s.store, ip)), ip, now);
            ok && Inv(t) && t.initialized && t.store == S.Removed(s.store, ip)
  {
    var s1 := s.(store := S.Removed(s.store, ip));
    S.RemoveKeepsReached(s.caps, s.store, ip);
    forall x | x != ip ensures Agrees(s1, x) {
      assert Agrees(s, x);
      BindingDecidesWanted(s, s1, x);
    }
    forall x | x in s1.hostRoutes ensures RouteWanted(s1, x) {
      assert Agrees(s, x);
    }
    ReconcileSettles(s1, ip, now);
    var t := Reconcile(s1, ip, now).0;
    forall x ensures Agrees(t, x) {
      if x != ip {
        AgreesElsewhere(s1, t, ip, x);
      }
    }
    ShadowIsTable(t);
  }

  lemma {:induction false} AgeOutKeepsInv(s: State, dead: seq<Ip>, now: nat)
    requires Inv(s) && s.initialized
    ensures Inv(AgeOut(s, dead, now))
    ensures AgeOut(s, dead, now).store.entries == s.store.entries - ToSet(dead)
    decreases |dead|
  {
    if dead != [] {
      RemoveOne(s, dead[0], now);
      AgeOutKeepsInv(Reconcile(s.(store := S.Removed(s.store, dead[0])), dead[0], now).0, dead[1..], now);
      assert ToSet(dead) == {dead[0]} + ToSet(dead[1..]);
    }
  }

  lemma TickKeepsInv(s: State, order: seq<Ip>, fwd0: nat, now: nat)
    requires Inv(s) && Legal(s, Tick(order, fwd0, now))
    ensures Inv(OnTick(s, order, fwd0, now))
  {
    if !s.initialized {
      NetlinkKeepsInv(s, order, fwd0, now);
    } else {
      var s1 := s.(agingTick := s.agingTick + 1);
      assert Inv(s1) by {
        forall x ensures Agrees(s1, x) { assert Agrees(s, x); }
      }
      RefreshSeqEffect(s.be, order, now);
      MarksAreInvisible(s1, RefreshSeq(s.be, order, now));
      MarkEffect(s.be, B.Flush, now);
      MarksAreInvisible(s1, s.be.Do(B.Flush, now));
      AgeOutKeepsInv(s1.(be := s.be.Do(B.Flush, now)), order, now);
    }
  }

  // ---- every run ----

  lemma StepKeepsInv(s: State, ev: Event)
    requires Inv(s) && Legal(s, ev)
    ensures Inv(Step(s, ev))
  {
    match ev
    case Outside(w) =>
      forall x | s.initialized ensures Agrees(s.(w := w), x) { assert Agrees(s, x); }
    case Netlink(order, fwd0, now) => NetlinkKeepsInv(s, order, fwd0, now);
    case Learn(ip, mac, now) => LearnKeepsInv(s, ip, mac, now);
    case Mark(ip, now) =>
      MarkEffect(s.be, B.Mark(ip), now);
      MarksAreInvisible(s, s.be.Do(B.Mark(ip), now));
    case Tick(order, fwd0, now) => TickKeepsInv(s, order, fwd0, now);
    case Shutdown => TeardownKeepsInv(s);
  }

  lemma InitialInv(s: State)
    requires IsInitial(s)
    ensures Inv(s)
  {
    S.RunsStayReached(s.caps, []);
  }

  lemma {:induction false} RunKeepsInv(s: State, evs: seq<Event>)
    requires Inv(s) && LegalRun(s, evs)
    ensures Inv(Run(s, evs))
    decreases |evs|
  {
    if evs != [] {
      StepKeepsInv(s, evs[0]);
      RunKeepsInv(Step(s, evs[0]), evs[1..]);
    }
  }

  /** The bindings the kernel should hold: every entry the host does not own. */
  function Demuxed(s: State): map<Ip, Mac> {
    map ip | ip in s.store.entries && ip !in s.snap.HostIpSet() && Some(s.store.entries[ip].mac) != s.snap.hostmac
      :: s.store.entries[ip].mac
  }

  /** While a session is up the kernel's ip2mac, and the record of it, are exactly the wanted
      bindings, the host routes are its routable part on the current bridge, and proxies are
      installed guests; while it is down nothing is left but nft's shadow, whose keys are
      entries. */
  ghost predicate Follows(t: State) {
    if t.initialized then
      && t.be.Table() == Demuxed(t)
      && t.installed == Demuxed(t)
      && t.be.Hosts() == t.snap.HostIpSet()
      && t.hostRoutes == (set ip | ip in t.installed && RouteWanted(t, ip))
      && t.kroutes.Keys == t.hostRoutes
      && (forall ip | ip in t.kroutes :: Some(t.kroutes[ip].oif) == t.snap.brIndex)
      && t.proxied <= t.installed.Keys
    else
      && t.installed == map[] && t.hostRoutes == {} && t.proxied == {} && t.kroutes == map[]
      && t.be.Table() == map[]
      && t.be.Shadow() <= t.store.entries.Keys
  }

  lemma InvFollows(t: State)
    requires Inv(t)
    ensures Follows(t)
  {
    if t.initialized {
      forall ip ensures Get(t.be.Table(), ip) == Get(Demuxed(t), ip) == Get(t.installed, ip) {
        assert Agrees(t, ip);
      }
      assert forall ip | ip in t.hostRoutes || ip in t.installed || ip in t.proxied :: Agrees(t, ip);
      SameLookups(t.be.Table(), Demuxed(t));
      SameLookups(t.installed, Demuxed(t));
    }
  }

  /** After every event of every run the kernel follows the entries. */
  lemma KernelFollowsEntries(s: State, evs: seq<Event>)
    requires IsInitial(s) && LegalRun(s, evs)
    ensures Follows(Run(s, evs))
  {
    InitialInv(s);
    RunKeepsInv(s, evs);
    InvFollows(Run(s, evs));
  }

  lemma SameLookups(a: map<Ip, Mac>, b: map<Ip, Mac>)
    requires forall ip :: Get(a, ip) == Get(b, ip)
    ensures a == b
  {
    forall ip ensures ip in a <==> ip in b { assert Get(a, ip) == Get(b, ip); }
    forall ip | ip in a ensures a[ip] == b[ip] { assert Get(a, ip) == Get(b, ip); }
  }
}
