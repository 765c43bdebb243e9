/**
 The part of the kernel the syncer watches (links, addresses, gateways) and `recompute`, which
 reads one consistent snapshot of it (src/core.rs:21-39, 184-299).

 An interface's addresses are a map from (ip, prefix length) to their flags: the source keeps
 a vector, and nothing below depends on its order.
 */
module Topology {
  import opened Types

  datatype Mode = Direct | Fwd | FwdOffload

  datatype Families = Families(v4: bool, v6: bool, v6ll: bool)

  datatype Config = Config(
    mode: Mode,
    offload: Option<Families>,
    magic: nat,
    table: Option<nat>,
    timeout: nat,
    bridge: Option<nat>)
  {
    predicate IsFwd() {
      mode != Direct
    }

    /** The families whose guest addresses are proxied on up0, if any. */
    function Offload(): Option<Families> {
      if !IsFwd() then None
      else if offload.Some? then offload
      else if mode == FwdOffload then Some(Families(true, true, false))
      else None
    }
  }

  /** `npr` is noprefixroute, `prio` the address metric. */
  datatype Flags = Flags(global: bool, npr: bool, prio: nat)

  type Key = (Ip, nat)

  type Addrs = map<Key, Flags>

  function Ips(a: Addrs): set<Ip> {
    set k | k in a :: k.0
  }

  datatype Bridge = Bridge(mac: Option<Mac>, addrs: Addrs, addrGenMode: string, acceptRa: string)

  datatype Uplink = Uplink(index: nat, mac: Option<Mac>, master: Option<nat>)

  /** fwd1Master and fwd0Index are those of the veth pair, when it exists. */
  datatype World = World(
    up0: Option<Uplink>,
    up0Addrs: Addrs,
    fwd1Master: Option<nat>,
    fwd0Index: Option<nat>,
    bridges: map<nat, Bridge>,
    gw6: set<Ip>)

  datatype Snap = Snap(
    up0Present: bool,
    up0Index: nat,
    brIndex: Option<nat>,
    fwd0Index: Option<nat>,
    hostmac: Option<Mac>,
    brmac: Option<Mac>,
    hostIps: Addrs,
    up0Addrs: Addrs,
    brAddrs: Addrs,
    gw6: set<Ip>)
  {
    function HostIpSet(): set<Ip> {
      Ips(hostIps)
    }
  }

  const NO_SNAP := Snap(false, 0, None, None, None, None, map[], map[], map[], {})

  predicate IsProxy(cfg: Config, f: Flags) {
    cfg.Offload().Some? && f.prio == cfg.magic
  }

  /** Global or link-local; the addresses a host answers for. */
  predicate HostScope(k: Key, f: Flags) {
    f.global || IsLinkLocal(k.0)
  }

  function Visible(cfg: Config, a: Addrs): Addrs {
    map k | k in a && HostScope(k, a[k]) && !IsProxy(cfg, a[k]) :: a[k]
  }

  function MasterOf(cfg: Config, w: World): Option<nat>
    requires w.up0.Some?
  {
    var m := if cfg.IsFwd() then w.fwd1Master else w.up0.value.master;
    if m.Some? && m.value in w.bridges then m else None
  }

  function Recompute(cfg: Config, w: World): Snap {
    if w.up0.None? then NO_SNAP
    else
      var up0 := w.up0.value;
      var master := MasterOf(cfg, w);
      var br := if master.Some? then Some(w.bridges[master.value]) else None;
      var brMac := if br.Some? then br.value.mac else None;
      var mirror := Visible(cfg, w.up0Addrs);
      var brAddrs := if br.Some? then br.value.addrs else map[];
      Snap(
        true,
        up0.index,
        master,
        if cfg.IsFwd() then w.fwd0Index else None,
        if !cfg.IsFwd() && brMac.Some? then brMac else up0.mac,
        if cfg.IsFwd() then brMac else None,
        if cfg.IsFwd() then mirror
        else map k | k in brAddrs && HostScope(k, brAddrs[k]) :: brAddrs[k],
        mirror,
        brAddrs,
        if cfg.Offload().Some? then w.gw6 else {})
  }

  /** Host prefix length: /32 or /128. */
  function HostKey(ip: Ip): Key {
    (ip, if ip.V4? then 32 else 128)
  }
}
