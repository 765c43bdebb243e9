/**
 What a session tells the backend and the kernel, read off the links and addresses themselves
 (src/core.rs:184-299, 404-513, 598-714): HOSTMAC, BRMAC and the host addresses after a netlink
 event, the links a session creates and removes, and who is proxied on up0.
 */
module SessionWorld {
  import opened Types
  import opened Topology
  import opened Subnet
  import opened Core
  import opened CoreInvariant
  import opened CoreRuns
  import P = Prefixes
  import B = Backend
  import S = State

  // ---- the world an event finds ----

  /** The bridge that holds the guest-facing port: up0 in direct mode, the veth in fwd mode, where
      a veth still to be created is in no bridge. */
  function BridgeOf(s: State): Option<nat>
    requires s.w.up0.Some?
  {
    var port := if s.cfg.mode == Direct then s.w.up0.value.master
                else if !s.initialized && s.w.fwd0Index.None? then None
                else s.w.fwd1Master;
    if port.Some? && port.value in s.w.bridges then port else None
  }

  predicate Workaround(cfg: Config) {
    cfg.mode == FwdOffload || (cfg.mode == Fwd && cfg.offload.Some?)
  }

  /** The host has the address: in direct mode on the bridge, in fwd mode on up0 and not tagged as
      a guest's; global or link-local. */
  ghost predicate HostHas(s: State, ip: Ip)
    requires s.w.up0.Some?
  {
    if s.cfg.mode == Direct then
      BridgeOf(s).Some? && var a := s.w.bridges[BridgeOf(s).value].addrs;
      exists k :: k in a && k.0 == ip && (a[k].global || IsLinkLocal(ip))
    else
      var a := s.w.up0Addrs;
      exists k :: k in a && k.0 == ip && (a[k].global || IsLinkLocal(ip)) && !(Workaround(s.cfg) && a[k].prio == s.cfg.magic)
  }

  /** HOSTMAC as the links have it: the bridge's in direct mode, up0's otherwise. */
  function HostmacOf(s: State): Option<Mac>
    requires s.w.up0.Some?
  {
    var up0 := s.w.up0.value;
    if s.cfg.mode == Direct && BridgeOf(s).Some? then
      match s.w.bridges[BridgeOf(s).value].mac
      case Some(mac) => Some(mac)
      case None => up0.mac
    else up0.mac
  }

  /** The host end of the veth, in fwd mode: `fwd0` when a session start creates it. */
  function VethOf(s: State, fwd0: nat): Option<nat> {
    if s.cfg.mode == Direct then None
    else if !s.initialized && s.w.fwd0Index.None? then Some(fwd0)
    else s.w.fwd0Index
  }

  /** The session `t` was told of the world `s` was in. */
  ghost predicate Told(s: State, t: State, fwd0: nat)
    requires s.w.up0.Some?
  {
    && (HostmacOf(s).Some? ==> t.be.Hostmac() == HostmacOf(s).value)
    && t.be.Brmac() == (if s.cfg.mode != Direct && BridgeOf(s).Some? then s.w.bridges[BridgeOf(s).value].mac else None)
    && (forall ip :: ip in t.be.Hosts() <==> HostHas(s, ip))
    && t.snap.brIndex == BridgeOf(s)
    && t.snap.up0Index == s.w.up0.value.index
    && t.snap.fwd0Index == VethOf(s, fwd0)
    && t.snap.gw6 == (if Workaround(s.cfg) then s.w.gw6 else {})
  }

  // ---- a snapshot is such a reading ----

  /** The world a netlink event reads: with the veth, when it starts a session. */
  function Read(s: State, fwd0: nat): World {
    if s.initialized then s.w else CreateVeth(s.cfg, s.w, fwd0)
  }

  lemma IpsOf(a: Addrs, ip: Ip)
    ensures ip in Ips(a) <==> exists k :: k in a && k.0 == ip
  {
  }

  lemma SnapHosts(s: State, fwd0: nat, ip: Ip)
    requires s.w.up0.Some?
    ensures ip in Recompute(s.cfg, Read(s, fwd0)).HostIpSet() <==> HostHas(s, ip)
  {
    var h := Recompute(s.cfg, Read(s, fwd0)).hostIps;
    IpsOf(h, ip);
    assert s.cfg.Offload().Some? <==> Workaround(s.cfg);
    if s.cfg.mode == Direct {
      if BridgeOf(s).Some? {
        var a := s.w.bridges[BridgeOf(s).value].addrs;
        assert forall k | k in a && k.0 == ip :: k in h <==> a[k].global || IsLinkLocal(ip);
      }
    } else {
      var a := s.w.up0Addrs;
      assert forall k | k in a && k.0 == ip ::
          k in h <==> (a[k].global || IsLinkLocal(ip)) && !(Workaround(s.cfg) && a[k].prio == s.cfg.magic);
    }
  }

  lemma SnapReads(s: State, fwd0: nat)
    requires s.w.up0.Some?
    ensures var n := Recompute(s.cfg, Read(s, fwd0));
            && n.hostmac == HostmacOf(s) && n.brIndex == BridgeOf(s) && n.up0Index == s.w.up0.value.index
            && n.brmac == (if s.cfg.mode != Direct && BridgeOf(s).Some? then s.w.bridges[BridgeOf(s).value].mac else None)
            && n.gw6 == (if Workaround(s.cfg) then s.w.gw6 else {})
            && n.fwd0Index == VethOf(s, fwd0) && n.up0Present
  {
  }

  lemma TunedIsTold(s: State, fwd0: nat, t: State)
    requires s.w.up0.Some? && t.snap == Recompute(s.cfg, Read(s, fwd0)) && Tuned(t.be, t.snap)
    ensures Told(s, t, fwd0)
  {
    SnapReads(s, fwd0);
    forall ip ensures ip in t.be.Hosts() <==> HostHas(s, ip) {
      SnapHosts(s, fwd0, ip);
    }
  }

  // ---- every event of every run ----

  /** A session has an uplink. */
  predicate Linked(s: State) {
    s.initialized ==> s.snap.up0Present
  }

  lemma DiffSnap(s: State, next: Snap, order: seq<Ip>, now: nat)
    ensures var t := ApplyDiff(s, next, order, now); t.snap == next && t.initialized == s.initialized
  {
    var p := Prepared(s, next, now);
    ReconcileSeqSameBook(p, order, now);
    assert p.snap == next && p.initialized == s.initialized;
    assert ApplyDiff(s, next, order, now) in {p, ReconcileSeq(p, order, now).0};
  }

  lemma InitSnap(s: State, order: seq<Ip>, fwd0: nat, now: nat)
    requires !s.initialized
    ensures var t := InitSession(s, order, fwd0, now);
            if t.initialized then t.snap == Recompute(s.cfg, CreateVeth(s.cfg, s.w, fwd0)) && s.w.up0.Some? else t == s
  {
    var first := Recompute(s.cfg, s.w);
    if first.up0Present && first.hostmac.Some? {
      var w := CreateVeth(s.cfg, s.w, fwd0);
      var snap := Recompute(s.cfg, w);
      var s1 := s.(be := s.be.Init(HostmacOr(snap, first.hostmac.value), snap.brmac, snap.HostIpSet(), s.cfg.timeout, now),
                   initialized := true, snap := snap, w := EnsureBridge(s.cfg, w));
      ReconcileSeqSameBook(if s.cfg.IsFwd() then ReconcileMirror(s1) else s1, order, now);
    }
  }

  /** The snapshot after an event that leaves a session up is the one just read. */
  lemma NetlinkSnap(s: State, order: seq<Ip>, fwd0: nat, now: nat)
    requires Linked(s)
    ensures var t := OnNetlink(s, order, fwd0, now);
            t.initialized ==> s.w.up0.Some? && t.snap == Recompute(s.cfg, Read(s, fwd0))
  {
    var next := Recompute(s.cfg, s.w);
    if !s.initialized {
      InitSnap(s.(snap := next), order, fwd0, now);
    } else {
      DiffSnap(s, next, order, now);
    }
  }

  lemma StepLinked(s: State, ev: Event)
    requires Linked(s)
    ensures Linked(Step(s, ev))
  {
    match ev
    case Netlink(order, fwd0, now) => NetlinkSnap(s, order, fwd0, now);
    case Learn(ip, mac, now) => LearnFrame(s, ip, mac, now);
    case Tick(order, fwd0, now) =>
      if !s.initialized {
        NetlinkSnap(s, order, fwd0, now);
      } else {
        AgeOutFrame(s.(agingTick := s.agingTick + 1, be := s.be.Do(B.Flush, now)), order, now);
      }
    case _ =>
  }

  lemma {:induction false} RunLinked(s: State, evs: seq<Event>)
    requires Linked(s)
    ensures Linked(Run(s, evs))
    decreases |evs|
  {
    if evs != [] {
      StepLinked(s, evs[0]);
      RunLinked(Step(s, evs[0]), evs[1..]);
    }
  }

  /** After any run, a netlink event that leaves a session up has told the backend HOSTMAC, BRMAC
      and the host addresses as the links and addresses of that moment have them. */
  lemma SessionToldTheWorld(s0: State, evs: seq<Event>, order: seq<Ip>, fwd0: nat, now: nat)
    requires IsInitial(s0) && LegalRun(s0, evs) && Legal(Run(s0, evs), Netlink(order, fwd0, now))
    ensures var s := Run(s0, evs);
            var t := Step(s, Netlink(order, fwd0, now));
            t.initialized ==> s.w.up0.Some? && Told(s, t, fwd0)
  {
    var s := Run(s0, evs);
    var t := Step(s, Netlink(order, fwd0, now));
    InitialInv(s0);
    RunKeepsInv(s0, evs);
    RunLinked(s0, evs);
    StepKeepsInv(s, Netlink(order, fwd0, now));
    NetlinkSnap(s, order, fwd0, now);
    if t.initialized {
      TunedIsTold(s, fwd0, t);
    }
  }

  /** A session is up after an event exactly when up0 is there and there was one before or
      HOSTMAC is known. */
  lemma SessionUpIff(s: State, order: seq<Ip>, fwd0: nat, now: nat)
    requires Linked(s) && (!s.snap.up0Present ==> s.snap == NO_SNAP)
    ensures OnNetlink(s, order, fwd0, now).initialized
       <==> s.w.up0.Some? && (s.initialized || HostmacOf(s).Some?)
  {
    var next := Recompute(s.cfg, s.w);
    if !s.initialized {
      InitUpIff(s.(snap := next), order, fwd0, now);
    } else {
      DiffSnap(s, next, order, now);
    }
  }

  lemma InitUpIff(s: State, order: seq<Ip>, fwd0: nat, now: nat)
    requires !s.initialized
    ensures InitSession(s, order, fwd0, now).initialized <==> s.w.up0.Some? && HostmacOf(s).Some?
  {
    var first := Recompute(s.cfg, s.w);
    if first.up0Present && first.hostmac.Some? {
      var p := InitReconciled(s, order, fwd0, now);
      ReconcileSeqSameBook(p, order, now);
    }
  }

  // ---- the links of a session ----

  lemma ForgottenLinks(s: State, ip: Ip)
    ensures var t := Forgotten(s, ip); t.w == s.w.(up0Addrs := t.w.up0Addrs)
  {
  }

  lemma InstalledLinks(s: State, ip: Ip, mac: Mac)
    ensures var t := Installed(s, ip, mac); t.w == s.w.(up0Addrs := t.w.up0Addrs)
  {
  }

  lemma ReconcileLinks(s: State, ip: Ip, now: nat)
    ensures var t := Reconcile(s, ip, now).0; t.w == s.w.(up0Addrs := t.w.up0Addrs)
  {
    var want := Wanted(s, ip);
    if want.None? {
      ForgottenLinks(s.(be := s.be.Withdraw(ip, now).0), ip);
    } else {
      InstalledLinks(s.(be := s.be.Write(ip, want.value, now).0), ip, want.value);
    }
  }

  lemma {:induction false} ReconcileSeqLinks(s: State, ips: seq<Ip>, now: nat)
    ensures var t := ReconcileSeq(s, ips, now).0; t.w == s.w.(up0Addrs := t.w.up0Addrs)
    decreases |ips|
  {
    if ips != [] {
      ReconcileLinks(s, ips[0], now);
      ReconcileSeqLinks(Reconcile(s, ips[0], now).0, ips[1..], now);
    }
  }

  /** The state a session start reaches before it reconciles the entries. */
  lemma InitReconciled(s: State, order: seq<Ip>, fwd0: nat, now: nat) returns (p: State)
    requires Recompute(s.cfg, s.w).up0Present && Recompute(s.cfg, s.w).hostmac.Some?
    ensures InitSession(s, order, fwd0, now) == ReconcileSeq(p, order, now).0 && p.initialized
    ensures p.w == EnsureBridge(s.cfg, CreateVeth(s.cfg, s.w, fwd0)).(bridges := p.w.bridges)
    ensures p.store == s.store && p.cfg == s.cfg && p.proxied == s.proxied && p.snap == Recompute(s.cfg, CreateVeth(s.cfg, s.w, fwd0))
  {
    var w := CreateVeth(s.cfg, s.w, fwd0);
    var snap := Recompute(s.cfg, w);
    p := s.(be := s.be.Init(HostmacOr(snap, Recompute(s.cfg, s.w).hostmac.value), snap.brmac, snap.HostIpSet(),
                            s.cfg.timeout, now),
            initialized := true, snap := snap, w := EnsureBridge(s.cfg, w));
    if s.cfg.IsFwd() {
      p := ReconcileMirror(p);
    }
  }

  /** Starting, a session has its veth in fwd mode, and --bridge, when it exists, holds the
      guest-facing port. */
  lemma StartedLinks(s: State, order: seq<Ip>, fwd0: nat, now: nat)
    requires !s.initialized && OnNetlink(s, order, fwd0, now).initialized
    ensures var t := OnNetlink(s, order, fwd0, now);
            var moved := s.cfg.bridge.Some? && s.cfg.bridge.value in s.w.bridges;
            && s.w.up0.Some? && t.w.up0.Some?
            && t.w.up0.value == s.w.up0.value.(master := if s.cfg.mode == Direct && moved then s.cfg.bridge
                                                         else s.w.up0.value.master)
            && (s.cfg.mode != Direct ==>
                  && t.w.fwd0Index == (if s.w.fwd0Index.Some? then s.w.fwd0Index else Some(fwd0))
                  && t.w.fwd1Master == (if moved then s.cfg.bridge
                                        else if s.w.fwd0Index.Some? then s.w.fwd1Master else None))
  {
    var s1 := s.(snap := Recompute(s.cfg, s.w));
    var p := InitReconciled(s1, order, fwd0, now);
    ReconcileSeqLinks(p, order, now);
  }

  function HostBits(ip: Ip): nat {
    if ip.V4? then 32 else 128
  }

  /** A teardown removes the veth in fwd mode and, from up0, exactly the proxied addresses. */
  lemma TornDownLinks(s: State)
    requires s.initialized
    ensures var t := Teardown(s);
            && t.w.up0 == s.w.up0
            && (if s.cfg.mode == Direct then (t.w.fwd0Index, t.w.fwd1Master) == (s.w.fwd0Index, s.w.fwd1Master)
                else t.w.fwd0Index.None? && t.w.fwd1Master.None?)
            && (Up0Current(s) ==>
                  t.w.up0Addrs == map k | k in s.w.up0Addrs && !(k.0 in s.proxied && k.1 == HostBits(k.0)) :: s.w.up0Addrs[k])
  {
    var keys := set ip | ip in s.proxied :: HostKey(ip);
    assert forall k: Key :: k in keys <==> k.0 in s.proxied && k.1 == HostBits(k.0);
  }

  // ---- who is proxied ----

  /** The workaround covers the address: explicitly by family, or v4 and routable v6 by default. */
  predicate Selected(cfg: Config, ip: Ip) {
    && Workaround(cfg)
    && match cfg.offload
       case None => ip.V4? || !IsLinkLocal(ip)
       case Some(f) => if ip.V4? then f.v4 else if IsLinkLocal(ip) then f.v6ll else f.v6
  }

  /** On one of the host's prefixes, bit for bit, or link-local; and not a gateway. */
  ghost predicate OnLink(snap: Snap, ip: Ip) {
    && ip !in snap.gw6
    && (IsLinkLocal(ip)
        || exists k :: k in snap.hostIps && k.0.V4? == ip.V4? && k.1 <= HostBits(ip)
                       && P.SameBits(P.Octets(k.0), P.Octets(ip), k.1))
  }

  lemma EligibleIff(snap: Snap, ip: Ip)
    ensures ProxyEligible(snap, ip) <==> OnLink(snap, ip)
  {
    forall k | k in snap.hostIps
      ensures SubnetContains(k.0, k.1, ip)
         <==> k.0.V4? == ip.V4? && k.1 <= HostBits(ip) && P.SameBits(P.Octets(k.0), P.Octets(ip), k.1)
    {
      P.ContainsIff(k.0, k.1, ip);
    }
  }

  predicate Tagged(cfg: Config, ip: Ip, f: Flags) {
    f.npr && f.prio == cfg.magic && f.global == !(ip.V6? && IsLinkLocal(ip))
  }

  /** The address is proxied now and was not before. */
  ghost predicate NewlyProxied(s: State, ip: Ip) {
    ip !in s.proxied && Selected(s.cfg, ip) && OnLink(s.snap, ip) && Up0Current(s)
  }

  lemma ProxyIs(s: State, ip: Ip)
    ensures var t := Proxy(s, ip);
            && t.proxied == (if NewlyProxied(s, ip) then s.proxied + {ip} else s.proxied)
            && (!NewlyProxied(s, ip) ==> t.w.up0Addrs == s.w.up0Addrs)
            && (NewlyProxied(s, ip) ==>
                  var k, a := (ip, HostBits(ip)), t.w.up0Addrs;
                  if k in s.w.up0Addrs then a == s.w.up0Addrs
                  else k in a && Tagged(s.cfg, ip, a[k]) && a == s.w.up0Addrs[k := a[k]])
  {
    EligibleIff(s.snap, ip);
    assert FamilySelected(s.cfg, ip) <==> Selected(s.cfg, ip);
  }

  lemma RouteOnly(s: State, ip: Ip)
    ensures var t := WriteRoute(s, ip); (t.cfg, t.snap, t.proxied, t.w) == (s.cfg, s.snap, s.proxied, s.w)
  {
  }

  /** Reconciling a wanted address proxies it exactly when it is covered and on-link and up0 is the
      one of the snapshot, unless it was already; then up0 carries it, tagged, with its full
      length, and nothing else there changes. */
  lemma ProxiedIff(s: State, ip: Ip, mac: Mac)
    ensures var t := Installed(s, ip, mac);
            && t.proxied == (if NewlyProxied(s, ip) then s.proxied + {ip} else s.proxied)
            && (!NewlyProxied(s, ip) ==> t.w.up0Addrs == s.w.up0Addrs)
            && (NewlyProxied(s, ip) ==>
                  var k, a := (ip, HostBits(ip)), t.w.up0Addrs;
                  if k in s.w.up0Addrs then a == s.w.up0Addrs
                  else k in a && Tagged(s.cfg, ip, a[k]) && a == s.w.up0Addrs[k := a[k]])
  {
    var r := WriteRoute(s, ip);
    RouteOnly(s, ip);
    ProxyIs(r, ip);
    assert NewlyProxied(r, ip) <==> NewlyProxied(s, ip);
  }

  /** Withdrawing an address takes its proxy away, and with it exactly that key of up0. */
  lemma UnproxiedIff(s: State, ip: Ip)
    requires Up0Current(s)
    ensures var t := Forgotten(s, ip);
            && t.proxied == s.proxied - {ip}
            && t.w.up0Addrs == (if ip in s.proxied then s.w.up0Addrs - {(ip, HostBits(ip))} else s.w.up0Addrs)
  {
  }

  // ---- over runs ----

  predicate OnlySelected(s: State) {
    forall ip | ip in s.proxied :: Selected(s.cfg, ip)
  }

  lemma ReconcileSelected(s: State, ip: Ip, now: nat)
    requires OnlySelected(s)
    ensures OnlySelected(Reconcile(s, ip, now).0)
  {
    var want := Wanted(s, ip);
    if want.Some? {
      ProxiedIff(s.(be := s.be.Write(ip, want.value, now).0), ip, want.value);
    }
  }

  lemma {:induction false} ReconcileSeqSelected(s: State, ips: seq<Ip>, now: nat)
    requires OnlySelected(s)
    ensures OnlySelected(ReconcileSeq(s, ips, now).0)
    decreases |ips|
  {
    if ips != [] {
      ReconcileSelected(s, ips[0], now);
      ReconcileSeqSelected(Reconcile(s, ips[0], now).0, ips[1..], now);
    }
  }

  lemma {:induction false} AgeOutSelected(s: State, dead: seq<Ip>, now: nat)
    requires OnlySelected(s)
    ensures OnlySelected(AgeOut(s, dead, now))
    decreases |dead|
  {
    if dead != [] {
      var s1 := s.(store := S.Removed(s.store, dead[0]));
      ReconcileSelected(s1, dead[0], now);
      if Reconcile(s1, dead[0], now).1 {
        AgeOutSelected(Reconcile(s1, dead[0], now).0, dead[1..], now);
      }
    }
  }

  lemma NetlinkSelected(s: State, order: seq<Ip>, fwd0: nat, now: nat)
    requires OnlySelected(s)
    ensures OnlySelected(OnNetlink(s, order, fwd0, now))
  {
    var next := Recompute(s.cfg, s.w);
    DiffSelected(s, next, order, now);
    InitSelected(s.(snap := next), order, fwd0, now);
  }

  lemma DiffSelected(s: State, next: Snap, order: seq<Ip>, now: nat)
    requires OnlySelected(s)
    ensures OnlySelected(ApplyDiff(s, next, order, now))
  {
    var p := Prepared(s, next, now);
    assert p.proxied == s.proxied && p.cfg == s.cfg;
    ReconcileSeqSelected(p, order, now);
    assert ApplyDiff(s, next, order, now) in {p, ReconcileSeq(p, order, now).0};
  }

  lemma InitSelected(s: State, order: seq<Ip>, fwd0: nat, now: nat)
    requires OnlySelected(s)
    ensures OnlySelected(InitSession(s, order, fwd0, now))
  {
    if Recompute(s.cfg, s.w).up0Present && Recompute(s.cfg, s.w).hostmac.Some? {
      var p := InitReconciled(s, order, fwd0, now);
      ReconcileSeqSelected(p, order, now);
    }
  }

  lemma StepSelected(s: State, ev: Event)
    requires OnlySelected(s)
    ensures OnlySelected(Step(s, ev))
  {
    match ev
    case Netlink(order, fwd0, now) => NetlinkSelected(s, order, fwd0, now);
    case Learn(ip, mac, now) =>
      if IsLearnable(ip) {
        var (store, changed) := S.Learned(s.caps, s.store, ip, mac, now);
        ReconcileSeqSelected(s.(store := store), changed, now);
      }
    case Tick(order, fwd0, now) =>
      if !s.initialized {
        NetlinkSelected(s, order, fwd0, now);
      } else {
        AgeOutSelected(s.(agingTick := s.agingTick + 1, be := s.be.Do(B.Flush, now)), order, now);
      }
    case _ =>
  }

  /** In every run only addresses the workaround covers are proxied. */
  lemma {:induction false} RunsProxySelected(s: State, evs: seq<Event>)
    requires OnlySelected(s)
    ensures OnlySelected(Run(s, evs))
    decreases |evs|
  {
    if evs != [] {
      StepSelected(s, evs[0]);
      RunsProxySelected(Step(s, evs[0]), evs[1..]);
    }
  }

  /** Reconciled once, a wanted address that is covered and on-link is proxied, and stays so for
      the rest of the walk. */
  lemma {:induction false} ReconcileSeqProxies(s: State, ips: seq<Ip>, now: nat, x: Ip)
    requires Live(s) && RoutesPlausible(s) && Up0Current(s) && Wanted(s, x).Some?
    requires x in s.proxied || (x in ips && Selected(s.cfg, x) && OnLink(s.snap, x))
    ensures x in ReconcileSeq(s, ips, now).0.proxied
    decreases |ips|
  {
    if ips != [] {
      var ip, s1 := ips[0], Reconcile(s, ips[0], now).0;
      ReconcileSettles(s, ip, now);
      if ip == x {
        var mac := Wanted(s, x).value;
        ProxiedIff(s.(be := s.be.Write(x, mac, now).0), x, mac);
      } else {
        assert SameAt(s, s1, x);
      }
      ReconcileSeqProxies(s1, ips[1..], now, x);
    }
  }

  /** The links or addresses differ from what the session was told last: HOSTMAC, an address of
      the host, the bridge, or the veth. */
  ghost predicate Outdated(s: State)
    requires s.w.up0.Some?
  {
    || s.snap.hostmac != HostmacOf(s)
    || (exists ip :: ip in s.snap.HostIpSet() <==> !HostHas(s, ip))
    || s.snap.brIndex != BridgeOf(s)
    || s.snap.fwd0Index != VethOf(s, 0)
  }

  lemma OutdatedIff(s: State)
    requires s.initialized && s.w.up0.Some?
    ensures var next := Recompute(s.cfg, s.w);
            Outdated(s) <==> HostmacChanged(s.snap, next) || HostIpsChanged(s.snap, next) || BrChanged(s.snap, next)
  {
    var next := Recompute(s.cfg, s.w);
    assert Read(s, 0) == s.w;
    SnapReads(s, 0);
    forall ip ensures ip in next.HostIpSet() <==> HostHas(s, ip) {
      SnapHosts(s, 0, ip);
    }
    if HostIpsChanged(s.snap, next) {
      SetsDiffer(s.snap.HostIpSet(), next.HostIpSet());
    }
  }

  lemma SetsDiffer(a: set<Ip>, b: set<Ip>)
    requires a != b
    ensures exists ip :: ip in a <==> ip !in b
  {
    if a <= b {
      var ip :| ip in b && ip !in a;
    } else {
      var ip :| ip in a && ip !in b;
    }
  }

  /** After any run: an event that finds the session outdated leaves every entry proxied that is
      not the host's, covered and on-link. */
  lemma EligibleAreProxied(s0: State, evs: seq<Event>, order: seq<Ip>, fwd0: nat, now: nat, x: Ip)
    requires IsInitial(s0) && LegalRun(s0, evs) && Legal(Run(s0, evs), Netlink(order, fwd0, now))
    requires var s := Run(s0, evs);
             s.initialized && s.w.up0.Some? && s.w.up0.value.index != 0 && Outdated(s)
    ensures var t := Step(Run(s0, evs), Netlink(order, fwd0, now));
            x in t.installed && Selected(t.cfg, x) && OnLink(t.snap, x) ==> x in t.proxied
  {
    var s := Run(s0, evs);
    var next := Recompute(s.cfg, s.w);
    var p, t := Prepared(s, next, now), Step(s, Netlink(order, fwd0, now));
    InitialInv(s0);
    RunKeepsInv(s0, evs);
    StepKeepsInv(s, Netlink(order, fwd0, now));
    OutdatedIff(s);
    assert t == ReconcileSeq(p, order, now).0;
    PreparedIsLive(s, next, now);
    PreparedUplink(s, next, now);
    ReconcileSeqSameBook(p, order, now);
    if x in t.installed && Selected(t.cfg, x) && OnLink(t.snap, x) {
      assert Agrees(t, x);
      assert Wanted(p, x) == Wanted(t, x);
      assert x in ToSet(order);
      ReconcileSeqProxies(p, order, now, x);
    }
  }

  lemma PreparedUplink(s: State, next: Snap, now: nat)
    ensures var p := Prepared(s, next, now); p.w.up0 == s.w.up0 && p.snap == next && p.cfg == s.cfg
  {
  }

  // ---- who is routed ----

  /** After any run a session has a route for exactly the installed addresses that are not
      link-local, in fwd mode, with a route table and a bridge; all to that bridge. */
  lemma RoutesIff(s0: State, evs: seq<Event>, ip: Ip)
    requires IsInitial(s0) && LegalRun(s0, evs) && Run(s0, evs).initialized
    ensures var t := Run(s0, evs);
            && (ip in t.kroutes <==> ip in t.installed && t.cfg.mode != Direct && t.cfg.table.Some? && t.snap.brIndex.Some?
                                     && !IsLinkLocal(ip))
            && (ip in t.kroutes ==> Some(t.kroutes[ip].oif) == t.snap.brIndex)
  {
    KernelFollowsEntries(s0, evs);
  }

  // ---- who is skipped at a probe ----

  /** The entry, if there is one, was last heard of at `u`. */
  predicate HeardAt(s: State, g: Ip, u: nat) {
    g in s.store.entries ==> s.store.entries[g].lastCtrl == u
  }

  lemma StepHeard(s: State, ev: Event, g: Ip, u: nat)
    requires HeardAt(s, g, u) && !(ev.Learn? && ev.ip == g)
    ensures HeardAt(Step(s, ev), g, u)
  {
    match ev
    case Netlink(order, fwd0, now) => NetlinkSameStore(s, order, fwd0, now);
    case Learn(ip, mac, now) => LearnFrame(s, ip, mac, now);
    case Tick(order, fwd0, now) => TickFrame(s, order, fwd0, now);
    case _ =>
  }

  lemma {:induction false} RunHeard(s: State, evs: seq<Event>, g: Ip, u: nat)
    requires HeardAt(s, g, u) && forall ev | ev in evs :: !(ev.Learn? && ev.ip == g)
    ensures HeardAt(Run(s, evs), g, u)
    decreases |evs|
  {
    if evs != [] {
      StepHeard(s, evs[0], g, u);
      RunHeard(Step(s, evs[0]), evs[1..], g, u);
    }
  }

  /** Half the timeout, but between one second and five. */
  function GraceSecs(timeout: nat): nat {
    if timeout < 4 then 1 else if timeout < 12 then timeout / 2 else 5
  }

  /** In every run: of a proxied guest last learned at `u`, a probe at `t` is skipped exactly when
      it comes less than the grace period later. */
  lemma SkippedWithinGrace(s0: State, pre: seq<Event>, mac: Mac, u: nat, evs: seq<Event>, t: nat, g: Ip)
    requires IsLearnable(g) && forall ev | ev in evs :: !(ev.Learn? && ev.ip == g)
    ensures var d := Run(Step(Run(s0, pre), Learn(g, mac, u)), evs);
            g in Skipped(d, t) <==> g in d.proxied && g in d.store.entries && t < u + 1000 * GraceSecs(d.cfg.timeout)
  {
    var s := Run(s0, pre);
    var s1 := Step(s, Learn(g, mac, u));
    LearnFrame(s, g, mac, u);
    RunHeard(s1, evs, g, u);
  }
}
