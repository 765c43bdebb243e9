/**
 The bridge mirror of fwd mode (src/core.rs:956-1083): while a bridge is attached it carries
 up0's addresses and nothing of its own; its own settings are saved and put back.

 `Reconciled` and `Left` are the meaning as functions; the syncer's methods perform them address
 by address. The lemmas at the end state what every run keeps.
 */
module Mirror {
  import opened Types
  import opened Topology

  datatype Saved = Saved(index: nat, addrGenMode: string, acceptRa: string, addrs: set<Key>)

  /** `at` is mirrored_br, `saved` is saved_br_cfg. */
  datatype MirrorState = MirrorState(bridges: map<nat, Bridge>, at: Option<nat>, saved: Option<Saved>)

  /** What the mirror put there: noprefixroute, global or link-local. */
  predicate IsMirrored(k: Key, f: Flags) {
    f.npr && HostScope(k, f)
  }

  function MirrorFlags(k: Key): Flags {
    Flags(!(k.0.V6? && IsLinkLocal(k.0)), true, 0)
  }

  const OWN_FLAGS := Flags(true, false, 0)

  /** addr_add for each key; a present key is left alone. */
  function AddAll(a: Addrs, keys: set<Key>, flags: Key -> Flags): Addrs {
    map k | k in a.Keys + keys :: if k in a then a[k] else flags(k)
  }

  function MirroredKeys(a: Addrs): set<Key> {
    set k | k in a && IsMirrored(k, a[k])
  }

  function OwnKeys(a: Addrs): set<Key> {
    set k | k in a && !a[k].npr
  }

  function OwnGlobals(a: Addrs): set<Key> {
    set k | k in a && !a[k].npr && a[k].global
  }

  /** apply_bridge_cfg: save, then clear the bridge to a clean slate. */
  function Applied(m: MirrorState, br: nat): MirrorState {
    if br !in m.bridges then m
    else
      var b := m.bridges[br];
      m.(saved := Some(Saved(br, b.addrGenMode, b.acceptRa, OwnGlobals(b.addrs))),
         bridges := m.bridges[br := b.(addrGenMode := "1", acceptRa := "0", addrs := b.addrs - OwnKeys(b.addrs))])
  }

  /** clean_mirror_from. */
  function Cleaned(m: MirrorState, br: nat): MirrorState {
    if br !in m.bridges then m
    else
      var b := m.bridges[br];
      m.(bridges := m.bridges[br := b.(addrs := b.addrs - MirroredKeys(b.addrs))])
  }

  /** restore_bridge_cfg. */
  function Restored(m: MirrorState, br: nat): MirrorState {
    if m.saved.None? || m.saved.value.index != br then m
    else if br !in m.bridges then m.(saved := None)
    else
      var c, b := m.saved.value, m.bridges[br];
      m.(saved := None,
         bridges := m.bridges[br := b.(addrGenMode := c.addrGenMode, acceptRa := c.acceptRa,
                                       addrs := AddAll(b.addrs, c.addrs, _ => OWN_FLAGS))])
  }

  /** Take the mirror off the bridge it lives on. */
  function Left(m: MirrorState): MirrorState {
    if m.at.None? then m else Restored(Cleaned(m, m.at.value), m.at.value).(at := None)
  }

  /** Add what is missing, then delete what is stale. */
  function Filled(m: MirrorState, br: nat, want: set<Key>, had: set<Key>): MirrorState {
    if br !in m.bridges then m.(at := Some(br))
    else
      var b := m.bridges[br];
      m.(at := Some(br),
         bridges := m.bridges[br := b.(addrs := AddAll(b.addrs, want - had, MirrorFlags) - (had - want))])
  }

  /** reconcile_mirror: `have` is the snapshot's view of the target bridge's addresses. */
  function Reconciled(m: MirrorState, target: Option<nat>, want: set<Key>, have: Addrs): MirrorState {
    var m1 := if m.at != target then Left(m) else m;
    if target.None? then m1
    else Filled(if m1.at.None? then Applied(m1, target.value) else m1, target.value, want, MirroredKeys(have))
  }

  // ---- what every run keeps ----

  /** A bridge not carrying the mirror: no mirrored address, and its knobs and own global
      addresses are what they are without us. */
  ghost predicate AsOwned(b: Bridge, own: Bridge) {
    && (forall k | k in b.addrs :: !b.addrs[k].npr)
    && b.addrGenMode == own.addrGenMode
    && b.acceptRa == own.acceptRa
    && OwnGlobals(b.addrs) == OwnGlobals(own.addrs)
  }

  /** The bridge carrying the mirror: only mirrored addresses, and the way back is saved. */
  ghost predicate Carries(m: MirrorState, own: map<nat, Bridge>, ips: set<Ip>)
    requires m.at.Some?
  {
    var br := m.at.value;
    && br in own
    && m.saved == Some(Saved(br, own[br].addrGenMode, own[br].acceptRa, OwnGlobals(own[br].addrs)))
    && (br in m.bridges ==>
          var a := m.bridges[br].addrs;
          && (forall k | k in a :: IsMirrored(k, a[k]))
          && Ips(a) == ips
          && m.bridges[br].addrGenMode == "1" && m.bridges[br].acceptRa == "0")
  }

  /** `own` says what each bridge is without pbridge, `ips` what up0 had last. */
  ghost predicate MirrorInv(m: MirrorState, own: map<nat, Bridge>, ips: set<Ip>) {
    && m.bridges.Keys <= own.Keys
    && (forall b | b in m.bridges && m.at != Some(b) :: AsOwned(m.bridges[b], own[b]))
    && (m.at.None? ==> m.saved.None?)
    && (m.at.Some? ==> Carries(m, own, ips))
  }

  function KeyIps(keys: set<Key>): set<Ip> {
    set k | k in keys :: k.0
  }

  lemma LeaveRestores(m: MirrorState, own: map<nat, Bridge>, ips: set<Ip>)
    requires MirrorInv(m, own, ips)
    ensures MirrorInv(Left(m), own, ips)
    ensures Left(m).at.None? && Left(m).bridges.Keys == m.bridges.Keys
    ensures forall b | b in m.bridges && m.at != Some(b) :: Left(m).bridges[b] == m.bridges[b]
  {
    if m.at.Some? && m.at.value in m.bridges {
      var br := m.at.value;
      var a := m.bridges[br].addrs;
      assert a - MirroredKeys(a) == map[];
      var after := Left(m).bridges[br].addrs;
      assert after == AddAll(map[], OwnGlobals(own[br].addrs), _ => OWN_FLAGS);
      assert OwnGlobals(after) == OwnGlobals(own[br].addrs);
    }
  }

  /** Clearing a bridge for its first mirror leaves it bare and remembers the way back. */
  lemma ApplyClears(m: MirrorState, own: map<nat, Bridge>, br: nat)
    requires m.at.None? && MirrorInv(m, own, {}) && br in m.bridges
    ensures var m1 := Applied(m, br);
            && m1.bridges.Keys == m.bridges.Keys
            && m1.bridges[br].addrs == map[]
            && m1.saved == Some(Saved(br, own[br].addrGenMode, own[br].acceptRa, OwnGlobals(own[br].addrs)))
            && (forall b | b in m.bridges && b != br :: m1.bridges[b] == m.bridges[b])
  {
    var a := m.bridges[br].addrs;
    assert a - OwnKeys(a) == map[];
  }

  /** What adding the missing and deleting the stale leaves: exactly the wanted keys. */
  lemma DiffApplied(a: Addrs, want: set<Key>, had: set<Key>)
    requires forall k | k in a :: IsMirrored(k, a[k])
    requires had == a.Keys || (a == map[] && had == {})
    ensures var after := AddAll(a, want - had, MirrorFlags) - (had - want);
            && after.Keys == want
            && (forall k | k in after :: IsMirrored(k, after[k]))
            && Ips(after) == KeyIps(want)
  {
    var after := AddAll(a, want - had, MirrorFlags) - (had - want);
    assert after.Keys == want;
    assert Ips(after) == KeyIps(want);
  }

  lemma MirroredIsAll(a: Addrs)
    requires forall k | k in a :: IsMirrored(k, a[k])
    ensures MirroredKeys(a) == a.Keys
  {
  }

  /** One reconcile_mirror, given that the snapshot's view of the target is current. */
  lemma ReconcileKeeps(m: MirrorState, own: map<nat, Bridge>, ips: set<Ip>, target: Option<nat>, want: set<Key>)
    requires MirrorInv(m, own, ips)
    requires target.Some? ==> target.value in m.bridges
    ensures var have := if target.Some? then m.bridges[target.value].addrs else map[];
            var after := Reconciled(m, target, want, have);
            && MirrorInv(after, own, KeyIps(want))
            && after.at == target
            && (target.Some? ==> after.bridges[target.value].addrs.Keys == want)
  {
    LeaveRestores(m, own, ips);
    if target.Some? {
      var br := target.value;
      var have := m.bridges[br].addrs;
      if m.at == target {
        MirroredIsAll(have);
        DiffApplied(have, want, have.Keys);
      } else {
        var m1 := Left(m);
        assert MirroredKeys(have) == {};
        ApplyClears(m1, own, br);
        DiffApplied(map[], want, {});
      }
    }
  }

  // ---- the addresses as they are written ----

  /** Filling a bridge adds what is missing as noprefixroute addresses without a metric, global
      unless IPv6 link-local, deletes what is stale and leaves every other one as it was. */
  lemma FilledAddrs(m: MirrorState, br: nat, want: set<Key>, had: set<Key>, k: Key)
    requires br in m.bridges
    ensures var was, now := m.bridges[br].addrs, Filled(m, br, want, had).bridges[br].addrs;
            && (k in now <==> (k in was || (k in want && k !in had)) && !(k in had && k !in want))
            && (k in now && k in was ==> now[k] == was[k])
            && (k in now && k !in was ==> now[k] == Flags(k.0.V4? || !IsLinkLocal(k.0), true, 0))
  {
  }

  /** Restoring a bridge puts its saved addresses back as plain global ones, and its knobs. */
  lemma RestoredAddrs(m: MirrorState, br: nat, k: Key)
    requires br in m.bridges && m.saved.Some? && m.saved.value.index == br
    ensures var was, now, c := m.bridges[br].addrs, Restored(m, br).bridges[br], m.saved.value;
            && now.addrGenMode == c.addrGenMode && now.acceptRa == c.acceptRa
            && (k in now.addrs <==> k in was || k in c.addrs)
            && (k in was ==> now.addrs[k] == was[k])
            && (k in now.addrs && k !in was ==> now.addrs[k] == Flags(true, false, 0))
  {
  }
}
