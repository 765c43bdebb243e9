/**
 The syncer as the program runs it (src/core.rs): fields and kernel state changed in place,
 call by call and address by address. Every method is proved against the state machine of
 module Core, so what its runs keep holds of the object.

 The backend is driven through the operations of module Backend, which the two backend classes
 implement. The `order` a method reports is the order in which its loop walked a hash map.
 */
module Syncer {
  import opened Types
  import opened Topology
  import opened Mirror
  import opened Subnet
  import S = State
  import B = Backend
  import C = Core
  import I = CoreInvariant
  import R = CoreRuns
  import T = CoreTopology

  /** Deleting addresses from a bridge, or from none if it is gone. */
  function Stripped(w: World, br: nat, keys: set<Key>): World {
    if br !in w.bridges then w
    else w.(bridges := w.bridges[br := w.bridges[br].(addrs := w.bridges[br].addrs - keys)])
  }

  function Dressed(w: World, br: nat, keys: set<Key>, flags: Key -> Flags): World {
    if br !in w.bridges then w
    else w.(bridges := w.bridges[br := w.bridges[br].(addrs := AddAll(w.bridges[br].addrs, keys, flags))])
  }

  lemma StripOne(w: World, br: nat, keys: set<Key>, k: Key)
    ensures Stripped(Stripped(w, br, keys), br, {k}) == Stripped(w, br, keys + {k})
  {
    if br in w.bridges {
      var a := w.bridges[br].addrs;
      assert (a - keys) - {k} == a - (keys + {k});
    }
  }

  lemma DressOne(w: World, br: nat, keys: set<Key>, k: Key, flags: Key -> Flags)
    ensures Dressed(Dressed(w, br, keys, flags), br, {k}, flags) == Dressed(w, br, keys + {k}, flags)
  {
    if br in w.bridges {
      var a := w.bridges[br].addrs;
      assert AddAll(AddAll(a, keys, flags), {k}, flags) == AddAll(a, keys + {k}, flags);
    }
  }

  lemma NoKeys(w: World, br: nat, flags: Key -> Flags)
    ensures Stripped(w, br, {}) == w && Dressed(w, br, {}, flags) == w
  {
    if br in w.bridges {
      var a := w.bridges[br].addrs;
      assert a - {} == a && AddAll(a, {}, flags) == a;
      assert w.bridges[br := w.bridges[br]] == w.bridges;
    }
  }

  /** What the main loop waits for, and what happens beside it. */
  datatype Input =
    | Heard(ip: Ip, mac: Mac, now: nat)
    | LinkEvent(fwd0: nat, now: nat)
    | Timer(fwd0: nat, now: nat)
    | Signal
    | Datapath(ip: Ip, now: nat)
    | Elsewhere(w: World)

  /** The event is the one the input asks for; only the order of a walk is open. */
  predicate Serves(input: Input, ev: C.Event) {
    match input
    case Heard(ip, mac, now) => ev == C.Learn(ip, mac, now)
    case LinkEvent(fwd0, now) => ev.Netlink? && ev.fwd0 == fwd0 && ev.now == now
    case Timer(fwd0, now) => ev.Tick? && ev.fwd0 == fwd0 && ev.now == now
    case Signal => ev == C.Shutdown
    case Datapath(ip, now) => ev == C.Mark(ip, now)
    case Elsewhere(w) => ev == C.Outside(w)
  }

  /** What a flush tick is, stated on values. */
  lemma FlushTickIs(s: C.State, dead: seq<Ip>, fwd0: nat, now: nat)
    requires s.initialized && !(s.cfg.Offload().Some? && (s.agingTick + 1) % 2 == 1)
    requires ToSet(dead) == C.Dead(s, now)
    ensures C.Legal(s, C.Tick(dead, fwd0, now))
    ensures C.OnTick(s, dead, fwd0, now) ==
            C.AgeOut(s.(agingTick := s.agingTick + 1, be := s.be.Do(B.Flush, now)), dead, now)
  {
    assert C.TickOrder(s, now) == C.Dead(s, now);
    assert s.(agingTick := s.agingTick + 1).(be := s.be.Do(B.Flush, now))
        == s.(agingTick := s.agingTick + 1, be := s.be.Do(B.Flush, now));
  }

  class Core {
    const cfg: Config
    const entries: S.Entries
    var snap: Snap
    var initialized: bool
    var hostRoutes: set<Ip>
    var proxied: set<Ip>
    var installed: map<Ip, Mac>
    var mirroredBr: Option<nat>
    var savedBr: Option<Saved>
    var agingTick: nat
    var be: C.Engine
    var kroutes: map<Ip, C.Route>
    var w: World

    function Value(): C.State
      reads this, entries
    {
      C.State(cfg, entries.cap, entries.Value(), snap, initialized, hostRoutes, proxied, installed,
              mirroredBr, savedBr, agingTick, be, kroutes, w)
    }

    ghost predicate Valid()
      reads this, entries
    {
      S.Ordered(entries.Value())
    }

    constructor (cfg: Config, cap: S.Caps, be: C.Engine, w: World)
      requires match be
               case OnEbpf(e) => !e.loaded && e.ip2mac == map[]
               case OnNft(n) => !n.up && n.entries == map[] && n.k == B.NO_ELEMENTS
      ensures Valid() && fresh(entries)
      ensures C.IsInitial(Value()) && Value().cfg == cfg && Value().caps == cap && Value().be == be && Value().w == w
      ensures I.Inv(Value()) && (T.Untouched(w.bridges) ==> T.Mirrored(Value(), w.bridges))
    {
      this.cfg := cfg;
      this.entries := new S.Entries(cap);
      snap, initialized, hostRoutes, proxied, installed := NO_SNAP, false, {}, {}, map[];
      mirroredBr, savedBr, agingTick := None, None, 0;
      this.be, kroutes, this.w := be, map[], w;
      new;
      I.InitialInv(Value());
      if T.Untouched(w.bridges) {
        T.InitialMirrored(Value());
      }
    }

    // ---- host routes and proxies ----

    method WriteHostRoute(ip: Ip)
      modifies this`hostRoutes, this`kroutes
      ensures Value() == C.WriteRoute(old(Value()), ip)
    {
      if !cfg.IsFwd() || cfg.table.None? || snap.brIndex.None? || IsLinkLocal(ip) {
        return;
      }
      var src := PickSrc(ip);
      kroutes := kroutes[ip := C.Route(snap.brIndex.value, src)];
      hostRoutes := hostRoutes + {ip};
    }

    /** select_src over the snapshot's addresses, in whatever order they come. */
    method PickSrc(ip: Ip) returns (src: Option<Ip>)
      ensures src == BestSrc(ip, snap.hostIps.Keys)
    {
      var list: seq<Key>, todo := [], snap.hostIps.Keys;
      while todo != {}
        invariant todo <= snap.hostIps.Keys
        invariant forall k :: k in list <==> k in snap.hostIps.Keys - todo
        decreases todo
      {
        var k :| k in todo;
        list, todo := list + [k], todo - {k};
      }
      src := SelectSrc(ip, list);
      assert (set k | k in list) == snap.hostIps.Keys;
      BestIsUnique(ip, snap.hostIps.Keys, src, BestSrc(ip, snap.hostIps.Keys));
    }

    method WithdrawHostRoute(ip: Ip)
      modifies this`hostRoutes, this`kroutes
      ensures Value() == C.WithdrawRoute(old(Value()), ip)
    {
      if ip in hostRoutes {
        hostRoutes := hostRoutes - {ip};
        if cfg.table.Some? {
          kroutes := kroutes - {ip};
        }
      }
    }

    method WithdrawAllHostRoutes()
      modifies this`hostRoutes, this`kroutes
      ensures Value() == C.WithdrawAllRoutes(old(Value()))
    {
      var todo := hostRoutes;
      hostRoutes := {};
      if cfg.table.None? {
        return;
      }
      while todo != {}
        invariant todo <= old(hostRoutes)
        invariant hostRoutes == {} && kroutes == old(kroutes) - (old(hostRoutes) - todo)
        decreases todo
      {
        var ip :| ip in todo;
        kroutes := kroutes - {ip};
        todo := todo - {ip};
      }
      assert old(hostRoutes) - todo == old(hostRoutes);
    }

    method ProxyAddr(ip: Ip)
      modifies this`proxied, this`w
      ensures Value() == C.Proxy(old(Value()), ip)
    {
      if !C.FamilySelected(cfg, ip) || !C.ProxyEligible(snap, ip) {
        return;
      }
      if !C.Up0Current(Value()) || ip in proxied {
        return;
      }
      var k := HostKey(ip);
      if k !in w.up0Addrs {
        w := w.(up0Addrs := w.up0Addrs[k := C.ProxyFlags(cfg, ip)]);
      }
      proxied := proxied + {ip};
    }

    method DelUp0Addr(k: Key)
      modifies this`w
      ensures w == C.DropUp0Addrs(old(Value()), {k})
    {
      if C.Up0Current(Value()) {
        w := w.(up0Addrs := w.up0Addrs - {k});
      }
    }

    method UnproxyAddr(ip: Ip)
      modifies this`proxied, this`w
      ensures Value() == C.Unproxy(old(Value()), ip)
    {
      if ip in proxied {
        DelUp0Addr(HostKey(ip));
        proxied := proxied - {ip};
      }
    }

    method UnproxyAll()
      modifies this`proxied, this`w
      ensures Value() == C.UnproxyAll(old(Value()))
    {
      var todo := proxied;
      proxied := {};
      ghost var was := Value();
      while todo != {}
        invariant todo <= old(proxied)
        invariant proxied == {} && w == C.DropUp0Addrs(was, set ip | ip in old(proxied) - todo :: HostKey(ip))
        decreases todo
      {
        var ip :| ip in todo;
        DelUp0Addr(HostKey(ip));
        todo := todo - {ip};
      }
      assert old(proxied) - todo == old(proxied);
    }

    // ---- reconcile ----

    method Reconcile(ip: Ip, now: nat) returns (ok: bool)
      modifies this`be, this`hostRoutes, this`kroutes, this`proxied, this`installed, this`w
      ensures (Value(), ok) == C.Reconcile(old(Value()), ip, now)
    {
      var skip := ip !in entries.entries
                  || ip in snap.HostIpSet() || Some(entries.entries[ip].mac) == snap.hostmac;
      if skip {
        var (be1, done) := be.Withdraw(ip, now);
        be, ok := be1, done;
        if !ok {
          return;
        }
        WithdrawHostRoute(ip);
        UnproxyAddr(ip);
        installed := installed - {ip};
      } else {
        var mac := entries.entries[ip].mac;
        var (be1, done) := be.Write(ip, mac, now);
        be, ok := be1, done;
        if !ok {
          return;
        }
        WriteHostRoute(ip);
        ProxyAddr(ip);
        installed := installed[ip := mac];
      }
    }

    method ReconcileSeq(ips: seq<Ip>, now: nat) returns (ok: bool)
      modifies this`be, this`hostRoutes, this`kroutes, this`proxied, this`installed, this`w
      ensures (Value(), ok) == C.ReconcileSeq(old(Value()), ips, now)
    {
      var i := 0;
      while i < |ips|
        invariant 0 <= i <= |ips|
        invariant C.ReconcileSeq(Value(), ips[i..], now) == C.ReconcileSeq(old(Value()), ips, now)
      {
        assert ips[i..][1..] == ips[i + 1..];
        ok := Reconcile(ips[i], now);
        if !ok {
          return;
        }
        i := i + 1;
      }
      return true;
    }

    method ReconcileAll(now: nat) returns (ok: bool, ghost order: seq<Ip>)
      modifies this`be, this`hostRoutes, this`kroutes, this`proxied, this`installed, this`w
      ensures ToSet(order) == entries.entries.Keys
      ensures (Value(), ok) == C.ReconcileSeq(old(Value()), order, now)
    {
      var ips := SeqOf(entries.entries.Keys);
      order := ips;
      ok := ReconcileSeq(ips, now);
    }

    // ---- the bridge mirror ----

    method DelAddrs(br: nat, keys: set<Key>)
      modifies this`w
      ensures w == Stripped(old(w), br, keys)
    {
      NoKeys(w, br, _ => OWN_FLAGS);
      var todo := keys;
      assert keys - todo == {};
      while todo != {}
        invariant todo <= keys
        invariant w == Stripped(old(w), br, keys - todo)
        decreases todo
      {
        var k :| k in todo;
        StripOne(old(w), br, keys - todo, k);
        assert (keys - todo) + {k} == keys - (todo - {k});
        w := Stripped(w, br, {k});
        todo := todo - {k};
      }
      assert keys - todo == keys;
    }

    method AddAddrs(br: nat, keys: set<Key>, flags: Key -> Flags)
      modifies this`w
      ensures w == Dressed(old(w), br, keys, flags)
    {
      NoKeys(w, br, flags);
      var todo := keys;
      assert keys - todo == {};
      while todo != {}
        invariant todo <= keys
        invariant w == Dressed(old(w), br, keys - todo, flags)
        decreases todo
      {
        var k :| k in todo;
        DressOne(old(w), br, keys - todo, k, flags);
        assert (keys - todo) + {k} == keys - (todo - {k});
        w := Dressed(w, br, {k}, flags);
        todo := todo - {k};
      }
      assert keys - todo == keys;
    }

    method CleanMirrorFrom(br: nat)
      modifies this`w
      ensures Value() == old(Value()).WithMirror(Cleaned(old(Value()).Mirror(), br))
    {
      if br in w.bridges {
        DelAddrs(br, MirroredKeys(w.bridges[br].addrs));
      }
    }

    method RestoreBridgeCfg(br: nat)
      modifies this`w, this`savedBr
      ensures Value() == old(Value()).WithMirror(Restored(old(Value()).Mirror(), br))
    {
      if savedBr.None? || savedBr.value.index != br {
        return;
      }
      var c := savedBr.value;
      savedBr := None;
      if br in w.bridges {
        var b := w.bridges[br];
        w := w.(bridges := w.bridges[br := b.(addrGenMode := c.addrGenMode, acceptRa := c.acceptRa)]);
        AddAddrs(br, c.addrs, _ => OWN_FLAGS);
      }
    }

    method ApplyBridgeCfg(br: nat)
      modifies this`w, this`savedBr
      ensures Value() == old(Value()).WithMirror(Applied(old(Value()).Mirror(), br))
    {
      if br !in w.bridges {
        return;
      }
      var b := w.bridges[br];
      w := w.(bridges := w.bridges[br := b.(addrGenMode := "1", acceptRa := "0")]);
      DelAddrs(br, OwnKeys(b.addrs));
      savedBr := Some(Saved(br, b.addrGenMode, b.acceptRa, OwnGlobals(b.addrs)));
    }

    /** Take the mirror off the bridge it lives on. */
    method LeaveBridge()
      modifies this`w, this`savedBr, this`mirroredBr
      ensures Value() == old(Value()).WithMirror(Left(old(Value()).Mirror()))
    {
      if mirroredBr.Some? {
        var br := mirroredBr.value;
        CleanMirrorFrom(br);
        RestoreBridgeCfg(br);
        mirroredBr := None;
      }
    }

    method FillBridge(br: nat)
      modifies this`w, this`mirroredBr
      ensures Value() == old(Value()).WithMirror(
                           Filled(old(Value()).Mirror(), br, snap.up0Addrs.Keys, MirroredKeys(snap.brAddrs)))
    {
      var want, have := snap.up0Addrs.Keys, MirroredKeys(snap.brAddrs);
      AddAddrs(br, want - have, MirrorFlags);
      DelAddrs(br, have - want);
      mirroredBr := Some(br);
    }

    method ReconcileMirror()
      modifies this`w, this`savedBr, this`mirroredBr
      ensures Value() == C.ReconcileMirror(old(Value()))
    {
      var target := if cfg.IsFwd() then snap.brIndex else None;
      if mirroredBr != target {
        LeaveBridge();
      }
      if target.None? {
        return;
      }
      if mirroredBr.None? {
        ApplyBridgeCfg(target.value);
      }
      FillBridge(target.value);
    }

    // ---- events ----

    method DoLearn(ip: Ip, mac: Mac, now: nat)
      requires Valid()
      modifies this, entries
      ensures Valid()
      ensures Value() == C.Step(old(Value()), C.Learn(ip, mac, now))
    {
      if !IsLearnable(ip) {
        return;
      }
      var changed := entries.Learn(ip, mac, now);
      var _ := ReconcileSeq(changed, now);
    }

    method TeardownSession()
      requires Valid()
      modifies this
      ensures Valid()
      ensures Value() == C.Step(old(Value()), C.Shutdown)
    {
      if !initialized {
        return;
      }
      WithdrawAllHostRoutes();
      UnproxyAll();
      installed := map[];
      LeaveBridge();
      be := be.Teardown();
      if cfg.IsFwd() {
        w := w.(fwd0Index := None, fwd1Master := None);
      }
      initialized := false;
    }

    /** `order` lists the entries as reconcile_all walked them. */
    method InitSession(fwd0: nat, now: nat) returns (ghost order: seq<Ip>)
      requires Valid()
      modifies this
      ensures Valid() && ToSet(order) == entries.entries.Keys
      ensures Value() == C.InitSession(old(Value()), order, fwd0, now)
    {
      var first := Recompute(cfg, w);
      if !first.up0Present || first.hostmac.None? {
        order := EnumerationOf(entries.entries.Keys);
        return;
      }
      w := C.CreateVeth(cfg, w, fwd0);
      var next := Recompute(cfg, w);
      be := be.Init(C.HostmacOr(next, first.hostmac.value), next.brmac, next.HostIpSet(), cfg.timeout, now);
      initialized := true;
      snap := next;
      w := C.EnsureBridge(cfg, w);
      if cfg.IsFwd() {
        ReconcileMirror();
      }
      var _, walked := ReconcileAll(now);
      order := walked;
    }

    /** The diff between two snapshots of an active session. */
    method ApplyDiff(prev: Snap, now: nat) returns (ghost order: seq<Ip>)
      requires Valid()
      modifies this
      ensures Valid() && ToSet(order) == entries.entries.Keys
      ensures Value() == C.ApplyDiff(old(Value()).(snap := prev), old(snap), order, now)
    {
      var hostmacChanged, hostIpsChanged := prev.hostmac != snap.hostmac, prev.HostIpSet() != snap.HostIpSet();
      var brChanged := prev.brIndex != snap.brIndex || prev.fwd0Index != snap.fwd0Index;
      Retune(prev, now);
      if cfg.IsFwd() && brChanged {
        WithdrawAllHostRoutes();
      }
      if cfg.IsFwd() && (hostIpsChanged || brChanged) {
        ReconcileMirror();
      }
      if hostmacChanged || hostIpsChanged || brChanged {
        var _, walked := ReconcileAll(now);
        order := walked;
      } else {
        order := EnumerationOf(entries.entries.Keys);
      }
    }

    method Retune(prev: Snap, now: nat)
      modifies this`be
      ensures be == C.Retuned(old(be), prev, snap, now)
    {
      if prev.hostmac != snap.hostmac && snap.hostmac.Some? {
        be := be.Do(B.SetHostmac(snap.hostmac.value), now);
      }
      if prev.brmac != snap.brmac {
        be := be.Do(B.SetBrmac(snap.brmac), now);
      }
      if prev.HostIpSet() != snap.HostIpSet() {
        be := be.Do(B.SetHostIps(snap.HostIpSet()), now);
      }
    }

    method OnNetlinkChange(fwd0: nat, now: nat) returns (ghost order: seq<Ip>)
      requires Valid()
      modifies this
      ensures Valid() && C.Legal(old(Value()), C.Netlink(order, fwd0, now))
      ensures Value() == C.Step(old(Value()), C.Netlink(order, fwd0, now))
    {
      var next, prev := Recompute(cfg, w), snap;
      snap := next;
      order := EnumerationOf(entries.entries.Keys);
      if prev.up0Present && !next.up0Present {
        TeardownSession();
      } else if next.up0Present && !initialized {
        order := InitSession(fwd0, now);
      } else if initialized && (prev.up0Present || next.up0Present) {
        order := ApplyDiff(prev, now);
      }
    }

    // ---- the tick ----

    /** The skip branch of probe: a proxied guest that just spoke is re-asserted, not asked. */
    method Probe(now: nat) returns (ghost order: seq<Ip>)
      modifies this`be
      ensures ToSet(order) == C.Skipped(Value(), now)
      ensures be == C.RefreshSeq(old(be), order, now)
    {
      var ips := SeqOf(C.Skipped(Value(), now));
      order := ips;
      var i := 0;
      while i < |ips|
        invariant 0 <= i <= |ips|
        invariant C.RefreshSeq(be, ips[i..], now) == C.RefreshSeq(old(be), ips, now)
      {
        assert ips[i..][1..] == ips[i + 1..];
        be := be.Do(B.Refresh(ips[i]), now);
        i := i + 1;
      }
    }

    method AgeOut(dead: seq<Ip>, now: nat)
      requires Valid()
      modifies this, entries
      ensures Valid()
      ensures Value() == C.AgeOut(old(Value()), dead, now)
    {
      var i := 0;
      while i < |dead|
        invariant 0 <= i <= |dead| && Valid()
        invariant C.AgeOut(Value(), dead[i..], now) == C.AgeOut(old(Value()), dead, now)
      {
        assert dead[i..][1..] == dead[i + 1..];
        var _ := entries.Remove(dead[i]);
        var ok := Reconcile(dead[i], now);
        if !ok {
          return;
        }
        i := i + 1;
      }
    }

    /** An odd tick of the workaround: probe, if HOSTMAC is known. */
    method ProbeTick(fwd0: nat, now: nat) returns (ghost order: seq<Ip>)
      requires Valid() && initialized && cfg.Offload().Some? && (agingTick + 1) % 2 == 1
      modifies this
      ensures Valid() && C.Legal(old(Value()), C.Tick(order, fwd0, now))
      ensures Value() == C.OnTick(old(Value()), order, fwd0, now)
    {
      agingTick := agingTick + 1;
      if snap.hostmac.None? {
        order := EnumerationOf(C.Skipped(Value(), now));
      } else {
        order := Probe(now);
      }
    }

    /** The flush itself, and the entries it did not report. */
    method Flush(now: nat) returns (dead: seq<Ip>)
      requires Valid()
      modifies this`agingTick, this`be
      ensures Valid() && ToSet(dead) == C.Dead(old(Value()), now)
      ensures Value() == old(Value()).(agingTick := old(agingTick) + 1, be := old(be).Do(B.Flush, now))
    {
      agingTick := agingTick + 1;
      var alive := be.Alive(now);
      be := be.Do(B.Flush, now);
      dead := SeqOf(entries.entries.Keys - alive);
    }

    /** Any other tick: flush, then age out what the flush did not report. */
    method FlushTick(fwd0: nat, now: nat) returns (ghost order: seq<Ip>)
      requires Valid() && initialized && !(cfg.Offload().Some? && (agingTick + 1) % 2 == 1)
      modifies this, entries
      ensures Valid() && C.Legal(old(Value()), C.Tick(order, fwd0, now))
      ensures Value() == C.OnTick(old(Value()), order, fwd0, now)
    {
      ghost var before := Value();
      var dead := Flush(now);
      order := dead;
      FlushTickIs(before, dead, fwd0, now);
      AgeOut(dead, now);
    }

    method OnTick(fwd0: nat, now: nat) returns (ghost order: seq<Ip>)
      requires Valid()
      modifies this, entries
      ensures Valid() && C.Legal(old(Value()), C.Tick(order, fwd0, now))
      ensures Value() == C.Step(old(Value()), C.Tick(order, fwd0, now))
    {
      if !initialized {
        order := OnNetlinkChange(fwd0, now);
      } else if cfg.Offload().Some? && (agingTick + 1) % 2 == 1 {
        order := ProbeTick(fwd0, now);
      } else {
        order := FlushTick(fwd0, now);
      }
    }

    /** One turn of the main loop: a legal step of the state machine, the one asked for. */
    method Handle(input: Input) returns (ghost ev: C.Event)
      requires Valid()
      modifies this, entries
      ensures Valid() && C.Legal(old(Value()), ev) && Value() == C.Step(old(Value()), ev) && Serves(input, ev)
    {
      match input {
        case Heard(ip, mac, now) =>
          DoLearn(ip, mac, now);
          ev := C.Learn(ip, mac, now);
        case LinkEvent(fwd0, now) =>
          ghost var order := OnNetlinkChange(fwd0, now);
          ev := C.Netlink(order, fwd0, now);
        case Timer(fwd0, now) =>
          ghost var order := OnTick(fwd0, now);
          ev := C.Tick(order, fwd0, now);
        case Signal =>
          TeardownSession();
          ev := C.Shutdown;
        case Datapath(ip, now) =>
          be := be.Do(B.Mark(ip), now);
          ev := C.Mark(ip, now);
        case Elsewhere(next) =>
          w := next;
          ev := C.Outside(next);
      }
    }

    /** Whatever the program is sent, it runs the state machine, event by event: so its kernel tables, routes and
        proxies follow its entries, and, while others respect the mirrored bridge, there is one
        mirror on the current bridge and every other bridge is as its owner left it. */
    method Serve(inputs: seq<Input>, ghost own: map<nat, Bridge>) returns (ghost trace: seq<C.Event>)
      requires Valid() && I.Inv(Value())
      modifies this, entries
      ensures Valid() && C.LegalRun(old(Value()), trace) && Value() == C.Run(old(Value()), trace)
      ensures |trace| == |inputs| && forall i | 0 <= i < |inputs| :: Serves(inputs[i], trace[i])
      ensures I.Inv(Value()) && I.Follows(Value())
      ensures T.Mirrored(old(Value()), own) && T.RespectfulRun(old(Value()), trace) ==>
                T.OneMirror(Value(), T.OwnRun(old(Value()), own, trace))
    {
      trace := [];
      for i := 0 to |inputs|
        invariant Valid() && C.LegalRun(old(Value()), trace) && Value() == C.Run(old(Value()), trace)
        invariant |trace| == i && forall j | 0 <= j < i :: Serves(inputs[j], trace[j])
      {
        ghost var ev := Handle(inputs[i]);
        R.RunInTwo(old(Value()), trace, [ev]);
        trace := trace + [ev];
      }
      I.RunKeepsInv(old(Value()), trace);
      I.InvFollows(Value());
      if T.Mirrored(old(Value()), own) && T.RespectfulRun(old(Value()), trace) {
        T.RunMirrors(old(Value()), own, trace);
        T.MirroredIsOne(Value(), T.OwnRun(old(Value()), own, trace));
      }
    }
  }

  /** Some order of a set. */
  method SeqOf(ips: set<Ip>) returns (order: seq<Ip>)
    ensures ToSet(order) == ips
  {
    order := [];
    var todo := ips;
    while todo != {}
      invariant todo <= ips && ToSet(order) == ips - todo
      decreases todo
    {
      var ip :| ip in todo;
      assert ToSet(order + [ip]) == ToSet(order) + {ip};
      order, todo := order + [ip], todo - {ip};
    }
  }

  lemma EnumerationOf(ips: set<Ip>) returns (order: seq<Ip>)
    ensures ToSet(order) == ips
  {
    if ips == {} {
      order := [];
    } else {
      var ip :| ip in ips;
      var rest := EnumerationOf(ips - {ip});
      order := [ip] + rest;
      assert ToSet(order) == {ip} + ToSet(rest);
    }
  }
}
