/**
 The syncer (src/core.rs:184-748): the entry store, the snapshot of the kernel it was last
 reconciled against, and the derived state it keeps in the kernel.

 Each event is one step of a state machine over `State`, which holds the program's fields and
 the kernel state it owns. Link and address calls succeed; backend calls succeed or fail as
 the backend's own state decides. Loops over hash maps take the iteration order as an event
 parameter, so every statement holds for every order.
 */
module Core {
  import opened Types
  import opened Topology
  import opened Mirror
  import opened Subnet
  import S = State
  import B = Backend

  // ---- the backend in use ----

  datatype Engine = OnEbpf(e: B.Ebpf) | OnNft(n: B.Nft) {
    predicate Up() {
      if OnEbpf? then e.loaded else n.up
    }

    /** The ip2mac table the kernel demultiplexes with. */
    function Table(): map<Ip, Mac> {
      if OnEbpf? then e.ip2mac else n.k.ip2mac
    }

    function Hosts(): set<Ip> {
      if OnEbpf? then e.host else n.k.host
    }

    function Hostmac(): Mac {
      if OnEbpf? then e.hostmac else n.hostmac
    }

    function Brmac(): Option<Mac> {
      if OnEbpf? then e.brmac else n.brmac
    }

    /** What survives a teardown. */
    function Shadow(): set<Ip> {
      if OnEbpf? then {} else n.entries.Keys
    }

    ghost predicate Sound() {
      if OnEbpf? then !e.loaded ==> e.ip2mac == map[] else B.Synced(n)
    }

    function Write(ip: Ip, mac: Mac, now: nat): (Engine, bool) {
      match this
      case OnEbpf(e) => var (e', ok) := B.EbpfWrite(e, ip, mac); (OnEbpf(e'), ok)
      case OnNft(n) => var (n', ok) := B.NftWrite(n, ip, mac, now); (OnNft(n'), ok)
    }

    function Withdraw(ip: Ip, now: nat): (Engine, bool) {
      match this
      case OnEbpf(e) => var (e', ok) := B.EbpfWithdraw(e, ip); (OnEbpf(e'), ok)
      case OnNft(n) => var (n', ok) := B.NftWithdraw(n, ip, now); (OnNft(n'), ok)
    }

    function Init(hostmac: Mac, brmac: Option<Mac>, ips: set<Ip>, timeout: nat, now: nat): Engine {
      match this
      case OnEbpf(_) => OnEbpf(B.EbpfInit(hostmac, brmac, ips))
      case OnNft(n) => OnNft(B.NftInit(n, hostmac, brmac, ips, timeout, now))
    }

    function Teardown(): Engine {
      match this
      case OnEbpf(e) => OnEbpf(B.EbpfTeardown(e))
      case OnNft(n) => OnNft(B.NftTeardown(n))
    }

    /** Operations that report no table change: HOSTMAC, BRMAC, host addresses, marks. */
    function Do(op: B.Op, now: nat): Engine {
      match this
      case OnEbpf(e) => OnEbpf(B.EbpfApply(e, op))
      case OnNft(n) => OnNft(B.NftApply(n, op, now))
    }

    function Alive(now: nat): set<Ip> {
      if OnEbpf? then B.EbpfAlive(e) else B.NftAlive(n, now)
    }
  }

  // ---- state ----

  datatype Route = Route(oif: nat, src: Option<Ip>)

  /** `kroutes` is the content of the vmroute table, which nobody else writes. */
  datatype State = State(
    cfg: Config,
    caps: S.Caps,
    store: S.Store,
    snap: Snap,
    initialized: bool,
    hostRoutes: set<Ip>,
    proxied: set<Ip>,
    installed: map<Ip, Mac>,
    mirroredBr: Option<nat>,
    savedBr: Option<Saved>,
    agingTick: nat,
    be: Engine,
    kroutes: map<Ip, Route>,
    w: World)
  {
    function Mirror(): MirrorState {
      MirrorState(w.bridges, mirroredBr, savedBr)
    }

    function WithMirror(m: MirrorState): State {
      this.(w := w.(bridges := m.bridges), mirroredBr := m.at, savedBr := m.saved)
    }
  }

  // ---- reconcile one address ----

  /** What the kernel should map `ip` to: the entry's mac, unless the host owns the address
      or the mac. */
  function Wanted(s: State, ip: Ip): Option<Mac> {
    if ip !in s.store.entries then None
    else
      var mac := s.store.entries[ip].mac;
      if ip in s.snap.HostIpSet() || Some(mac) == s.snap.hostmac then None else Some(mac)
  }

  predicate RouteWanted(s: State, ip: Ip) {
    s.cfg.IsFwd() && s.cfg.table.Some? && s.snap.brIndex.Some? && !IsLinkLocal(ip)
  }

  ghost function WriteRoute(s: State, ip: Ip): State {
    if !RouteWanted(s, ip) then s
    else
      var route := Route(s.snap.brIndex.value, BestSrc(ip, s.snap.hostIps.Keys));
      s.(hostRoutes := s.hostRoutes + {ip}, kroutes := s.kroutes[ip := route])
  }

  function WithdrawRoute(s: State, ip: Ip): State {
    if ip !in s.hostRoutes then s
    else
      s.(hostRoutes := s.hostRoutes - {ip},
         kroutes := if s.cfg.table.Some? then s.kroutes - {ip} else s.kroutes)
  }

  function WithdrawAllRoutes(s: State): State {
    s.(hostRoutes := {}, kroutes := if s.cfg.table.Some? then s.kroutes - s.hostRoutes else s.kroutes)
  }

  predicate FamilySelected(cfg: Config, ip: Ip) {
    var f := cfg.Offload();
    f.Some? && if ip.V4? then f.value.v4 else if IsLinkLocal(ip) then f.value.v6ll else f.value.v6
  }

  /** On-link for the host, and not its gateway. */
  predicate ProxyEligible(snap: Snap, ip: Ip) {
    && ip !in snap.gw6
    && (IsLinkLocal(ip) || exists k | k in snap.hostIps :: SubnetContains(k.0, k.1, ip))
  }

  /** The address as installed: noprefixroute, tagged with the magic metric. */
  function ProxyFlags(cfg: Config, ip: Ip): Flags {
    Flags(!(ip.V6? && IsLinkLocal(ip)), true, cfg.magic)
  }

  /** Address requests name the snapshot's index of up0; a stale index reaches nothing. */
  predicate Up0Current(s: State) {
    s.snap.up0Index != 0 && s.w.up0.Some? && s.w.up0.value.index == s.snap.up0Index
  }

  function Proxy(s: State, ip: Ip): State {
    if !FamilySelected(s.cfg, ip) || !ProxyEligible(s.snap, ip) || !Up0Current(s) || ip in s.proxied then s
    else
      var a := s.w.up0Addrs;
      var k := HostKey(ip);
      s.(proxied := s.proxied + {ip},
         w := s.w.(up0Addrs := if k in a then a else a[k := ProxyFlags(s.cfg, ip)]))
  }

  function DropUp0Addrs(s: State, keys: set<Key>): World {
    if Up0Current(s) then s.w.(up0Addrs := s.w.up0Addrs - keys) else s.w
  }

  function Unproxy(s: State, ip: Ip): State {
    if ip !in s.proxied then s
    else s.(proxied := s.proxied - {ip}, w := DropUp0Addrs(s, {HostKey(ip)}))
  }

  function UnproxyAll(s: State): State {
    s.(proxied := {}, w := DropUp0Addrs(s, set ip | ip in s.proxied :: HostKey(ip)))
  }

  /** The withdraw half of reconcile after the backend agreed. */
  function Forgotten(s: State, ip: Ip): State {
    var t := Unproxy(WithdrawRoute(s, ip), ip);
    t.(installed := t.installed - {ip})
  }

  /** The write half of reconcile after the backend agreed. */
  ghost function Installed(s: State, ip: Ip, mac: Mac): State {
    var t := Proxy(WriteRoute(s, ip), ip);
    t.(installed := t.installed[ip := mac])
  }

  /** reconcile(ip); the flag is false where the source returns early with an error. */
  ghost function Reconcile(s: State, ip: Ip, now: nat): (State, bool) {
    var want := Wanted(s, ip);
    if want.None? then
      var (be, ok) := s.be.Withdraw(ip, now);
      (if ok then Forgotten(s.(be := be), ip) else s.(be := be), ok)
    else
      var (be, ok) := s.be.Write(ip, want.value, now);
      (if ok then Installed(s.(be := be), ip, want.value) else s.(be := be), ok)
  }

  ghost function ReconcileSeq(s: State, ips: seq<Ip>, now: nat): (State, bool)
    decreases |ips|
  {
    if ips == [] then (s, true)
    else
      var (s1, ok) := Reconcile(s, ips[0], now);
      if !ok then (s1, false) else ReconcileSeq(s1, ips[1..], now)
  }

  // ---- events ----

  ghost function DoLearn(s: State, ip: Ip, mac: Mac, now: nat): State {
    if !IsLearnable(ip) then s
    else
      var (store, changed) := S.Learned(s.caps, s.store, ip, mac, now);
      ReconcileSeq(s.(store := store), changed, now).0
  }

  function Want(snap: Snap): set<Key> {
    snap.up0Addrs.Keys
  }

  function ReconcileMirror(s: State): State {
    s.WithMirror(Reconciled(s.Mirror(), if s.cfg.IsFwd() then s.snap.brIndex else None, Want(s.snap), s.snap.brAddrs))
  }

  function Teardown(s: State): State {
    if !s.initialized then s
    else
      var s1 := UnproxyAll(WithdrawAllRoutes(s)).(installed := map[]);
      var s2 := s1.WithMirror(Left(s1.Mirror()));
      s2.(be := s2.be.Teardown(),
          w := if s.cfg.IsFwd() then s2.w.(fwd0Index := None, fwd1Master := None) else s2.w,
          initialized := false)
  }

  /** `fwd0` is the index the kernel gives the veth, should it have to be created. */
  function CreateVeth(cfg: Config, w: World, fwd0: nat): World {
    if !cfg.IsFwd() || w.fwd0Index.Some? then w else w.(fwd0Index := Some(fwd0), fwd1Master := None)
  }

  /** --bridge: enslave the guest-facing port once the hooks are live. */
  function EnsureBridge(cfg: Config, w: World): World {
    if cfg.bridge.None? || cfg.bridge.value !in w.bridges || w.up0.None? then w
    else if cfg.IsFwd() then w.(fwd1Master := cfg.bridge)
    else w.(up0 := Some(w.up0.value.(master := cfg.bridge)))
  }

  function HostmacOr(snap: Snap, mac: Mac): Mac {
    if snap.hostmac.Some? then snap.hostmac.value else mac
  }

  ghost function InitSession(s: State, order: seq<Ip>, fwd0: nat, now: nat): State {
    var first := Recompute(s.cfg, s.w);
    if !first.up0Present || first.hostmac.None? then s
    else
      var w := CreateVeth(s.cfg, s.w, fwd0);
      var snap := Recompute(s.cfg, w);
      var hostmac := HostmacOr(snap, first.hostmac.value);
      var s1 := s.(be := s.be.Init(hostmac, snap.brmac, snap.HostIpSet(), s.cfg.timeout, now),
                   initialized := true,
                   snap := snap,
                   w := EnsureBridge(s.cfg, w));
      var s2 := if s.cfg.IsFwd() then ReconcileMirror(s1) else s1;
      ReconcileSeq(s2, order, now).0
  }

  predicate HostmacChanged(prev: Snap, next: Snap) {
    prev.hostmac != next.hostmac
  }

  /** Compares addresses only; a changed prefix length goes unnoticed. */
  predicate HostIpsChanged(prev: Snap, next: Snap) {
    prev.HostIpSet() != next.HostIpSet()
  }

  predicate BrChanged(prev: Snap, next: Snap) {
    prev.brIndex != next.brIndex || prev.fwd0Index != next.fwd0Index
  }

  /** The backend calls of a diff, in order. */
  function Retuned(be: Engine, prev: Snap, next: Snap, now: nat): Engine {
    var b1 := if HostmacChanged(prev, next) && next.hostmac.Some? then be.Do(B.SetHostmac(next.hostmac.value), now) else be;
    var b2 := if prev.brmac != next.brmac then b1.Do(B.SetBrmac(next.brmac), now) else b1;
    if HostIpsChanged(prev, next) then b2.Do(B.SetHostIps(next.HostIpSet()), now) else b2
  }

  /** The state a diff reaches before it reconciles the entries. */
  function Prepared(s: State, next: Snap, now: nat): State {
    var prev := s.snap;
    var s1 := s.(snap := next, be := Retuned(s.be, prev, next, now));
    var s2 := if s.cfg.IsFwd() && BrChanged(prev, next) then WithdrawAllRoutes(s1) else s1;
    if s.cfg.IsFwd() && (HostIpsChanged(prev, next) || BrChanged(prev, next)) then ReconcileMirror(s2) else s2
  }

  /** The session is active and up0 still there: apply what changed. */
  ghost function ApplyDiff(s: State, next: Snap, order: seq<Ip>, now: nat): State {
    var prev := s.snap;
    if HostmacChanged(prev, next) || HostIpsChanged(prev, next) || BrChanged(prev, next)
    then ReconcileSeq(Prepared(s, next, now), order, now).0
    else Prepared(s, next, now)
  }

  ghost function OnNetlink(s: State, order: seq<Ip>, fwd0: nat, now: nat): State {
    var next := Recompute(s.cfg, s.w);
    var prev := s.snap;
    if prev.up0Present && !next.up0Present then Teardown(s.(snap := next))
    else if next.up0Present && !s.initialized then InitSession(s.(snap := next), order, fwd0, now)
    else if !s.initialized || (!prev.up0Present && !next.up0Present) then s.(snap := next)
    else ApplyDiff(s, next, order, now)
  }

  /** The entries a flush finds dead. */
  function Dead(s: State, now: nat): set<Ip> {
    s.store.entries.Keys - s.be.Alive(now)
  }

  ghost function AgeOut(s: State, dead: seq<Ip>, now: nat): State
    decreases |dead|
  {
    if dead == [] then s
    else
      var (s1, ok) := Reconcile(s.(store := S.Removed(s.store, dead[0])), dead[0], now);
      if !ok then s1 else AgeOut(s1, dead[1..], now)
  }

  function AgingSecs(cfg: Config): nat {
    if cfg.timeout / 2 < 1 then 1 else cfg.timeout / 2
  }

  function GraceMs(cfg: Config): nat {
    1000 * if AgingSecs(cfg) < 5 then AgingSecs(cfg) else 5
  }

  /** The proxied guests a probe tick leaves alone because they just spoke. */
  function Skipped(s: State, now: nat): set<Ip> {
    set ip | ip in s.proxied && ip in s.store.entries && now < s.store.entries[ip].lastCtrl + GraceMs(s.cfg)
  }

  function RefreshSeq(be: Engine, ips: seq<Ip>, now: nat): Engine
    decreases |ips|
  {
    if ips == [] then be else RefreshSeq(be.Do(B.Refresh(ips[0]), now), ips[1..], now)
  }

  ghost function OnTick(s: State, order: seq<Ip>, fwd0: nat, now: nat): State {
    if !s.initialized then OnNetlink(s, order, fwd0, now)
    else
      var s1 := s.(agingTick := s.agingTick + 1);
      if s.cfg.Offload().Some? && s1.agingTick % 2 == 1 then
        if s.snap.hostmac.None? then s1 else s1.(be := RefreshSeq(s.be, order, now))
      else AgeOut(s1.(be := s.be.Do(B.Flush, now)), order, now)
  }

  /** What `order` must enumerate at a tick. */
  function TickOrder(s: State, now: nat): set<Ip> {
    if !s.initialized then s.store.entries.Keys
    else if s.cfg.Offload().Some? && (s.agingTick + 1) % 2 == 1 then Skipped(s, now)
    else Dead(s, now)
  }

  datatype Event =
    | Outside(w: World)
    | Netlink(order: seq<Ip>, fwd0: nat, now: nat)
    | Learn(ip: Ip, mac: Mac, now: nat)
    | Mark(ip: Ip, now: nat)
    | Tick(order: seq<Ip>, fwd0: nat, now: nat)
    | Shutdown

  /** `order` lists the hash-map keys the loop walks, each at least once, in any order. */
  predicate Legal(s: State, ev: Event) {
    match ev
    case Netlink(order, _, _) => ToSet(order) == s.store.entries.Keys
    case Tick(order, _, now) => ToSet(order) == TickOrder(s, now)
    case _ => true
  }

  ghost function Step(s: State, ev: Event): State {
    match ev
    case Outside(w) => s.(w := w)
    case Netlink(order, fwd0, now) => OnNetlink(s, order, fwd0, now)
    case Learn(ip, mac, now) => DoLearn(s, ip, mac, now)
    case Mark(ip, now) => s.(be := s.be.Do(B.Mark(ip), now))
    case Tick(order, fwd0, now) => OnTick(s, order, fwd0, now)
    case Shutdown => Teardown(s)
  }

  ghost predicate LegalRun(s: State, evs: seq<Event>)
    decreases |evs|
  {
    evs == [] || (Legal(s, evs[0]) && LegalRun(Step(s, evs[0]), evs[1..]))
  }

  ghost function Run(s: State, evs: seq<Event>): State
    decreases |evs|
  {
    if evs == [] then s else Run(Step(s, evs[0]), evs[1..])
  }

  /** The process just started. */
  predicate IsInitial(s: State) {
    && s.store == S.EMPTY
    && s.snap == NO_SNAP
    && !s.initialized
    && s.hostRoutes == {} && s.proxied == {} && s.installed == map[] && s.kroutes == map[]
    && s.mirroredBr.None? && s.savedBr.None?
    && match s.be
       case OnEbpf(e) => !e.loaded && e.ip2mac == map[]
       case OnNft(n) => !n.up && n.entries == map[] && n.k == B.NO_ELEMENTS
  }
}
