/**
 Runs at which the exact conditions stated elsewhere fail: a host address is deleted, a mirror
 and a route source are stale, a repeated event is not quiet.
 */
module RunWitnesses {
  import opened Types
  import opened Topology
  import opened Mirror
  import opened Subnet
  import opened Core
  import opened CoreInvariant
  import opened CoreTopology
  import S = State
  import F = FrameWitnesses
  import X = EndToEnd
  import D = Datapath
  import Y = Bytes
  import N = NdEquivalence
  import R = NftRules
  import B = Backend

  const HOSTMAC: Mac := [2, 0, 0, 0, 0, 1]
  const GUESTMAC: Mac := [2, 0, 0, 0, 0, 5]

  const OWN := Flags(true, false, 0)

  /** The program before its first event. */
  function Start(cfg: Config, w: World): (s: State)
    ensures IsInitial(s)
  {
    State(cfg, S.Caps(8, 8, 64, 64), S.EMPTY, NO_SNAP, false, {}, {}, map[], None, None, 0,
          OnEbpf(B.Ebpf(false, HOSTMAC, None, map[], {}, map[])), map[], w)
  }

  lemma FirstLearn(s: State, ip: Ip, now: nat)
    requires s.store == S.EMPTY && s.caps == S.Caps(8, 8, 64, 64) && IsLearnable(ip)
    ensures DoLearn(s, ip, GUESTMAC, now)
         == Reconcile(s.(store := S.Store(map[ip := S.Entry(GUESTMAC, 1, now)], 1)), ip, now).0
  {
    var (store, changed) := S.Learned(s.caps, s.store, ip, GUESTMAC, now);
    assert S.Scope(map[], FamilyOf(ip), Some(GUESTMAC)) == {} == S.Scope(map[], FamilyOf(ip), None);
    assert changed == [ip] && [ip][1..] == [];
    assert store == S.Store(map[ip := S.Entry(GUESTMAC, 1, now)], 1);
    var s1 := Reconcile(s.(store := store), ip, now).0;
    assert ReconcileSeq(s1, [], now) == (s1, true);
  }

  // ---- a guest is learned on an address the host has just been given ----

  const OFFLOAD := Config(FwdOffload, None, 77, None, 60, None)

  const BARE := World(Some(Uplink(2, Some(HOSTMAC), None)), map[], None, Some(9), map[], {})

  const CLAIMED := V4([169, 254, 0, 5])

  const CLAIM: Addrs := map[HostKey(CLAIMED) := OWN]

  lemma ClaimIsVisible()
    ensures Visible(OFFLOAD, CLAIM) == CLAIM
  {
  }

  lemma SessionStarts(now: nat)
    ensures var s := Start(OFFLOAD, BARE);
            var t := Step(s, Netlink([], 9, now));
            && t.store == S.EMPTY && t.caps == s.caps && t.cfg == OFFLOAD && t.w == BARE && t.initialized
            && t.proxied == {} && t.be.Up() && t.be.OnEbpf?
            && t.snap == Recompute(OFFLOAD, BARE) && t.snap.hostIps == map[]
  {
  }

  lemma GuestIsProxied(s: State, now: nat)
    requires s.store == S.EMPTY && s.caps == S.Caps(8, 8, 64, 64) && s.cfg == OFFLOAD && s.proxied == {}
    requires s.be.OnEbpf? && s.be.Up() && s.snap == Recompute(OFFLOAD, BARE) && s.w == BARE.(up0Addrs := CLAIM)
    ensures var t := DoLearn(s, CLAIMED, GUESTMAC, now);
            && t.proxied == {CLAIMED} && t.w == s.w && t.store.entries.Keys == {CLAIMED}
            && (t.cfg, t.initialized) == (s.cfg, s.initialized)
  {
    FirstLearn(s, CLAIMED, now);
    assert GUESTMAC[5] != HOSTMAC[5];
    assert s.snap.HostIpSet() == {};
    assert ProxyEligible(s.snap, CLAIMED);
  }

  /** init, up0 is given x/32, a guest is learned on x before the next netlink event: that event
      deletes x/32 from up0. */
  lemma HostAddressIsLost()
    ensures var run := [Netlink([], 9, 0), Outside(BARE.(up0Addrs := CLAIM)), Learn(CLAIMED, GUESTMAC, 0)];
            var s := Run(Start(OFFLOAD, BARE), run);
            && LegalRun(Start(OFFLOAD, BARE), run) && Legal(s, Netlink([CLAIMED], 9, 0))
            && HostKey(CLAIMED) in Visible(OFFLOAD, s.w.up0Addrs)
            && Visible(OFFLOAD, Step(s, Netlink([CLAIMED], 9, 0)).w.up0Addrs) != Visible(OFFLOAD, s.w.up0Addrs)
  {
    var s0 := Start(OFFLOAD, BARE);
    var run := [Netlink([], 9, 0), Outside(BARE.(up0Addrs := CLAIM)), Learn(CLAIMED, GUESTMAC, 0)];
    var s1 := Step(s0, run[0]);
    SessionStarts(0);
    var s2 := Step(s1, run[1]);
    GuestIsProxied(s2, 0);
    var s3 := Step(s2, run[2]);
    RunOfThree(s0, run[0], run[1], run[2]);
    InitialInv(s0);
    RunKeepsInv(s0, run);
    ClaimIsVisible();
    HostAddressesKeptIff(s3, [CLAIMED], 9, 0);
  }

  lemma RunOfThree(s: State, a: Event, b: Event, c: Event)
    ensures Run(s, [a, b, c]) == Step(Step(Step(s, a), b), c)
    ensures LegalRun(s, [a, b, c]) <==> Legal(s, a) && Legal(Step(s, a), b) && Legal(Step(Step(s, a), b), c)
  {
    assert [a, b, c][1..] == [b, c] && [b, c][1..] == [c] && [c][1..] == [];
    assert Run(Step(s, a), [b, c]) == Run(Step(Step(s, a), b), [c]);
    assert Run(Step(Step(s, a), b), [c]) == Run(Step(Step(Step(s, a), b), c), []);
    assert LegalRun(Step(Step(s, a), b), [c]) == Legal(Step(Step(s, a), b), c);
    assert LegalRun(Step(s, a), [b, c]) == (Legal(Step(s, a), b) && LegalRun(Step(Step(s, a), b), [c]));
  }

  // ---- only the prefix length of up0's address changes ----

  const ROUTED := Config(Fwd, None, 77, Some(100), 60, None)

  const HOST4 := V4([10, 0, 0, 2])
  const GUEST4 := V4([10, 0, 0, 3])

  const BRIDGE := Bridge(None, map[], "0", "1")

  /** up0 has one address; the veth's guest port is in bridge 5. */
  function Attached(plen: nat, carried: Addrs): World {
    World(Some(Uplink(2, Some(HOSTMAC), None)), map[(HOST4, plen) := OWN], Some(5), Some(9),
          map[5 := BRIDGE.(addrs := carried)], {})
  }

  /** The one mirrored address. */
  const CARRIED: Addrs := map[(HOST4, 31) := Flags(true, true, 0)]

  function Mirroring(plen: nat): World {
    Attached(plen, CARRIED).(bridges := map[5 := Bridge(None, CARRIED, "1", "0")])
  }

  lemma OneAddress(plen: nat, carried: Addrs, modes: (string, string))
    ensures Visible(ROUTED, map[(HOST4, plen) := OWN]) == map[(HOST4, plen) := OWN]
    ensures var w := Attached(plen, carried).(bridges := map[5 := Bridge(None, carried, modes.0, modes.1)]);
            Recompute(ROUTED, w) == Snap(true, 2, Some(5), Some(9), Some(HOSTMAC), None, map[(HOST4, plen) := OWN],
                                         map[(HOST4, plen) := OWN], carried, {})
    ensures Ips(map[(HOST4, plen) := OWN]) == {HOST4}
  {
    var a: Addrs := map[(HOST4, plen) := OWN];
    assert (HOST4, plen) in a;
    assert Visible(ROUTED, a) == a;
    assert (HOST4, plen).0 in Ips(a);
  }

  lemma MirrorFills()
    ensures Reconciled(MirrorState(map[5 := BRIDGE], None, None), Some(5), {(HOST4, 31)}, map[])
         == MirrorState(map[5 := Bridge(None, CARRIED, "1", "0")], Some(5), Some(Saved(5, "0", "1", {})))
  {
    var m := Applied(MirrorState(map[5 := BRIDGE], None, None), 5);
    var none: Addrs := map[];
    assert OwnKeys(none) == {} && OwnGlobals(none) == {} && MirroredKeys(none) == {};
    assert m == MirrorState(map[5 := Bridge(None, map[], "1", "0")], None, Some(Saved(5, "0", "1", {})));
    assert AddAll(none, {(HOST4, 31)} - {}, MirrorFlags) - ({} - {(HOST4, 31)}) == CARRIED;
    assert m.bridges[5 := Bridge(None, CARRIED, "1", "0")] == map[5 := Bridge(None, CARRIED, "1", "0")];
  }

  lemma BridgeIsMirrored(now: nat)
    ensures var s := Start(ROUTED, Attached(31, map[]));
            var t := Step(s, Netlink([], 9, now));
            && t.store == S.EMPTY && t.caps == s.caps && t.cfg == ROUTED && t.w == Mirroring(31) && t.initialized
            && t.be.OnEbpf? && t.be.Up() && t.kroutes == map[]
            && t.mirroredBr == Some(5) && t.snap == Recompute(ROUTED, Attached(31, map[]))
  {
    OneAddress(31, map[], ("0", "1"));
    MirrorFills();
    var s := Start(ROUTED, Attached(31, map[]));
    assert Attached(31, map[]).bridges == map[5 := BRIDGE];
    assert {(HOST4, 31)} == Recompute(ROUTED, s.w).up0Addrs.Keys;
  }

  lemma OneCandidate(vm: Ip, k: Key)
    ensures BestSrc(vm, {k}) == if SubnetContains(k.0, k.1, vm) then Some(k.0) else None
  {
    assert Covering(vm, {k}) == if SubnetContains(k.0, k.1, vm) then {k} else {};
  }

  lemma MaskedLow(ip: Ip, v: nat)
    requires ip.V4? && Value(ip) == v
    ensures Masked(ip, 32) == v && Masked(ip, 31) == v - v % 2
  {
    assert Pow2(1) == 2 && Pow2(0) == 1;
    assert v % Pow2(0) == 0 && v % Pow2(1) == v % 2;
  }

  lemma PairCovers(net: Ip, vm: Ip, v: nat)
    requires net.V4? && vm.V4? && Value(net) == 2 * v && Value(vm) == 2 * v + 1
    ensures SubnetContains(net, 31, vm) && !SubnetContains(net, 32, vm)
  {
    MaskedLow(net, 2 * v);
    MaskedLow(vm, 2 * v + 1);
  }

  lemma Neighbours()
    ensures SubnetContains(HOST4, 31, GUEST4) && !SubnetContains(HOST4, 32, GUEST4)
  {
    var high := Num([10, 0, 0]);
    assert HOST4.o4[..3] == [10, 0, 0] == GUEST4.o4[..3];
    assert Value(HOST4) == high * 256 + 2 && Value(GUEST4) == high * 256 + 3;
    PairCovers(HOST4, GUEST4, high * 128 + 1);
  }

  lemma Routed(s: State, ip: Ip, mac: Mac, now: nat)
    requires Wanted(s, ip) == Some(mac) && s.be.OnEbpf? && s.be.Up() && RouteWanted(s, ip) && s.cfg.Offload().None?
    ensures var t := Reconcile(s, ip, now).0;
            && t.kroutes == s.kroutes[ip := Route(s.snap.brIndex.value, BestSrc(ip, s.snap.hostIps.Keys))]
            && (t.cfg, t.initialized, t.store, t.snap, t.w) == (s.cfg, s.initialized, s.store, s.snap, s.w)
            && t.mirroredBr == s.mirroredBr
  {
  }

  lemma SourceBefore()
    ensures BestSrc(GUEST4, {(HOST4, 31)}) == Some(HOST4)
  {
    OneCandidate(GUEST4, (HOST4, 31));
    Neighbours();
  }

  predicate SeesHost(snap: Snap) {
    && snap.HostIpSet() == {HOST4} && snap.hostIps.Keys == {(HOST4, 31)}
    && snap.hostmac == Some(HOSTMAC) && snap.brIndex == Some(5)
  }

  lemma GuestIsRouted(s: State, now: nat)
    requires s.store == S.EMPTY && s.caps == S.Caps(8, 8, 64, 64) && s.cfg == ROUTED && s.kroutes == map[]
    requires s.be.OnEbpf? && s.be.Up() && SeesHost(s.snap)
    ensures var t := DoLearn(s, GUEST4, GUESTMAC, now);
            && GUEST4 in t.kroutes && t.kroutes[GUEST4].src == Some(HOST4) && t.store.entries.Keys == {GUEST4}
            && (t.cfg, t.initialized, t.snap, t.w, t.mirroredBr) == (s.cfg, s.initialized, s.snap, s.w, s.mirroredBr)
  {
    var s1 := s.(store := S.Store(map[GUEST4 := S.Entry(GUESTMAC, 1, now)], 1));
    FirstLearn(s, GUEST4, now);
    assert Wanted(s1, GUEST4) == Some(GUESTMAC) by {
      assert GUESTMAC[5] != HOSTMAC[5] && HOST4.o4[3] != GUEST4.o4[3];
    }
    Routed(s1, GUEST4, GUESTMAC, now);
    SourceBefore();
  }

  lemma PrefixChangeIsUnseen()
    ensures var prev, next := Recompute(ROUTED, Attached(31, map[])), Recompute(ROUTED, Mirroring(32));
            && !HostmacChanged(prev, next) && !HostIpsChanged(prev, next) && !BrChanged(prev, next)
            && next.brIndex == Some(5) && Want(next) == {(HOST4, 32)} == next.hostIps.Keys
  {
    OneAddress(31, map[], ("0", "1"));
    OneAddress(32, CARRIED, ("1", "0"));
    assert Attached(31, map[]).bridges == map[5 := BRIDGE];
  }

  lemma RespectfulThree(s: State, a: Event, b: Event, c: Event)
    requires !a.Outside? && !b.Outside? && c.Outside? && Respects(Step(Step(s, a), b), c.w)
    ensures RespectfulRun(s, [a, b, c])
  {
    assert [a, b, c][1..] == [b, c] && [b, c][1..] == [c] && [c][1..] == [];
    assert RespectfulRun(Step(Step(s, a), b), [c]);
    assert RespectfulRun(Step(s, a), [b, c]);
  }

  /** init, a guest is learned, up0's address gets another prefix length. */
  const PREFIX_RUN := [Netlink([], 9, 0), Learn(GUEST4, GUESTMAC, 0), Outside(Mirroring(32))]

  predicate WithRoute(s: State) {
    && s.initialized && s.cfg == ROUTED && s.store.entries.Keys == {GUEST4}
    && s.snap == Recompute(ROUTED, Attached(31, map[]))
    && GUEST4 in s.kroutes && s.kroutes[GUEST4].src == Some(HOST4)
  }

  predicate Waiting(s: State) {
    WithRoute(s) && s.w == Mirroring(31) && s.mirroredBr == Some(5)
  }

  /** The state with the change not yet seen. */
  predicate Unseen(s: State) {
    WithRoute(s) && s.w == Mirroring(32)
  }

  lemma Respectful(s: State)
    requires s.w == Mirroring(31) && s.mirroredBr == Some(5)
    ensures Respects(s, Mirroring(32))
  {
  }

  lemma UntilWaiting(s: State)
    requires s == Start(ROUTED, Attached(31, map[]))
    ensures Waiting(Step(Step(s, PREFIX_RUN[0]), PREFIX_RUN[1]))
    ensures Legal(s, PREFIX_RUN[0]) && Legal(Step(s, PREFIX_RUN[0]), PREFIX_RUN[1])
  {
    BridgeIsMirrored(0);
    assert SeesHost(Step(s, PREFIX_RUN[0]).snap) by { OneAddress(31, map[], ("0", "1")); }
    GuestIsRouted(Step(s, PREFIX_RUN[0]), 0);
  }

  lemma PrefixRun(s: State)
    requires s == Start(ROUTED, Attached(31, map[]))
    ensures Unseen(Run(s, PREFIX_RUN)) && LegalRun(s, PREFIX_RUN) && RespectfulRun(s, PREFIX_RUN)
  {
    var a, b, c := PREFIX_RUN[0], PREFIX_RUN[1], PREFIX_RUN[2];
    UntilWaiting(s);
    Unfold(s, a, b, c.w);
  }

  lemma Unfold(s: State, a: Event, b: Event, w: World)
    requires !a.Outside? && !b.Outside? && Legal(s, a) && Legal(Step(s, a), b)
    requires Waiting(Step(Step(s, a), b)) && w == Mirroring(32)
    ensures var run := [a, b, Outside(w)];
            Unseen(Run(s, run)) && LegalRun(s, run) && RespectfulRun(s, run)
  {
    RunOfThree(s, a, b, Outside(w));
    Respectful(Step(Step(s, a), b));
    RespectfulThree(s, a, b, Outside(w));
  }

  lemma MirrorIsStale(s: State, own: map<nat, Bridge>)
    requires Inv(s) && Mirrored(s, own) && Unseen(s)
    ensures var t := Step(s, Netlink([GUEST4], 9, 0));
            5 in t.w.bridges && t.w.bridges[5].addrs.Keys != Want(t.snap)
  {
    OneAddress(31, map[], ("0", "1"));
    PrefixChangeIsUnseen();
    MirrorExactIff(s, own, [GUEST4], 0);
    assert (HOST4, 31) in CARRIED && (HOST4, 31) !in Want(Recompute(ROUTED, s.w));
  }

  lemma SourceIsStale(s: State)
    requires Inv(s) && Unseen(s)
    ensures Legal(s, Netlink([GUEST4], 9, 0)) && !AllSrcRight(Step(s, Netlink([GUEST4], 9, 0)))
  {
    OneAddress(31, map[], ("0", "1"));
    PrefixChangeIsUnseen();
    assert ToSet([GUEST4]) == {GUEST4};
    assert !SrcRight(s.(snap := Recompute(ROUTED, s.w)), GUEST4) by {
      OneCandidate(GUEST4, (HOST4, 32));
      Neighbours();
    }
    RouteSourcesExactIff(s, [GUEST4], 0);
  }

  /** A guest behind a mirrored bridge, then up0's /31 becomes a /32: the next event leaves the /31
      on the bridge and the guest's route with a source no prefix justifies any more. */
  lemma PrefixChangeIsMissed()
    ensures var s0 := Start(ROUTED, Attached(31, map[]));
            var s := Run(s0, PREFIX_RUN);
            var t := Step(s, Netlink([GUEST4], 9, 0));
            && LegalRun(s0, PREFIX_RUN) && RespectfulRun(s0, PREFIX_RUN) && Legal(s, Netlink([GUEST4], 9, 0))
            && 5 in t.w.bridges && t.w.bridges[5].addrs.Keys != Want(t.snap) && !AllSrcRight(t)
  {
    var s0 := Start(ROUTED, Attached(31, map[]));
    PrefixRun(s0);
    InitialInv(s0);
    RunKeepsInv(s0, PREFIX_RUN);
    InitialMirrored(s0);
    RunMirrors(s0, s0.w.bridges, PREFIX_RUN);
    MirrorIsStale(Run(s0, PREFIX_RUN), OwnRun(s0, s0.w.bridges, PREFIX_RUN));
    SourceIsStale(Run(s0, PREFIX_RUN));
  }

  // ---- the first event moves the guest port into its bridge ----

  const BRIDGED := Config(Fwd, None, 77, None, 60, Some(5))

  /** --bridge names a bridge; the first event puts the new veth into it after reading the
      snapshot, so a second event with nothing changed outside is not quiet. */
  lemma StartIsNotQuiet()
    ensures var s := Start(BRIDGED, Attached(31, map[]).(fwd1Master := None, fwd0Index := None));
            var t := Step(s, Netlink([], 9, 0));
            Step(t, Netlink([], 9, 0)) != t.(snap := t.snap.(brAddrs := Recompute(t.cfg, t.w).brAddrs))
  {
    var s := Start(BRIDGED, Attached(31, map[]).(fwd1Master := None, fwd0Index := None));
    NetlinkIsIdempotent(s, [], 9, 0, [], 9, 0);
  }

  // ---- a guest speaks from the host's own address ----

  const SENDER := V6(F.SENDER6)

  const SHARED := BARE.(up0Addrs := map[(SENDER, 64) := OWN])

  lemma SharedStarts()
    ensures var t := Step(Start(OFFLOAD, SHARED), Netlink([], 9, 0));
            t.initialized && t.snap.hostmac == Some(HOSTMAC) && SENDER in t.snap.HostIpSet()
  {
    var a: Addrs := map[(SENDER, 64) := OWN];
    assert Visible(OFFLOAD, a) == a;
    assert (SENDER, 64) in a && (SENDER, 64).0 in Ips(a);
  }

  /** Its solicitation is not installed, and what is sent again for it is echoed to the guests. */
  lemma HostAddressIsEchoed()
    ensures var s0 := Start(OFFLOAD, SHARED);
            var c: X.Frame := Y.Store(F.SOLICITATION, 80, HOSTMAC);
            var t := X.AfterCopy(Run(s0, [Netlink([], 9, 0)]), c, 0);
            LegalRun(s0, [Netlink([], 9, 0)]) && D.Guarded(X.ConfOf(t), X.TablesOf(t.be), N.Reinjected(c, HOSTMAC)).clones != []
  {
    var s0 := Start(OFFLOAD, SHARED);
    SharedStarts();
    X.RunOne(s0, Netlink([], 9, 0));
    SoliciterIsHost();
    X.NoEchoIff(s0, [Netlink([], 9, 0)], F.SOLICITATION, R.Ns, HOSTMAC, 0);
  }

  lemma SoliciterIsHost()
    ensures var f := F.SOLICITATION;
            N.NdMatches(f, R.Ns, HOSTMAC) && D.Src6(f) == SENDER && f[0] == 0x33 && f[1] == 0x33
  {
    F.OptionBehindPayload();
    F.Message24Fields(135, [0x7c, 0x9f], [1, 1] + F.GUESTMAC);
  }
}
