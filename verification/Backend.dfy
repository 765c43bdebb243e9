/**
 The two offload backends as values: what each operation does to the tables the kernel holds.
 The classes in EbpfBackend.dfy and NftBackend.dfy perform these operations step by step.

 The v4 and v6 tables of the source are one table here, keyed by `Ip`, whose constructor tells
 the families apart. Times are milliseconds; `timeout` is in seconds, as on the command line.
 */
module Backend {
  import opened Types

  // ---- eBPF maps (src/backend/ebpf.rs) ----

  /** `seen` holds the mark bit: true is 1, false is 0. */
  datatype Ebpf = Ebpf(
    loaded: bool,
    hostmac: Mac,
    brmac: Option<Mac>,
    ip2mac: map<Ip, Mac>,
    host: set<Ip>,
    seen: map<Ip, bool>)

  function EbpfInit(hostmac: Mac, brmac: Option<Mac>, ips: set<Ip>): Ebpf {
    Ebpf(true, hostmac, brmac, map[], ips, map[])
  }

  function EbpfTeardown(e: Ebpf): Ebpf {
    Ebpf(false, e.hostmac, e.brmac, map[], {}, map[])
  }

  function EbpfWrite(e: Ebpf, ip: Ip, mac: Mac): (Ebpf, bool) {
    if e.loaded then (e.(ip2mac := e.ip2mac[ip := mac], seen := e.seen[ip := true]), true) else (e, false)
  }

  function EbpfWithdraw(e: Ebpf, ip: Ip): (Ebpf, bool) {
    if e.loaded then (e.(ip2mac := e.ip2mac - {ip}, seen := e.seen - {ip}), true) else (e, false)
  }

  /** Both the datapath's mark and refresh_seen. */
  function EbpfMark(e: Ebpf, ip: Ip): Ebpf {
    if e.loaded then e.(seen := e.seen[ip := true]) else e
  }

  function EbpfAlive(e: Ebpf): set<Ip> {
    set ip | ip in e.seen && e.seen[ip]
  }

  /** Second chance: marked keys survive unmarked, unmarked keys go. */
  function EbpfFlush(e: Ebpf): Ebpf {
    e.(seen := map ip | ip in e.seen && e.seen[ip] :: false)
  }

  // ---- nf_tables sets (src/backend/nft/mod.rs) ----

  /** `seen` holds each element's expiry time. */
  datatype NftKernel = NftKernel(
    ip2mac: map<Ip, Mac>,
    valid: set<(Ip, Mac)>,
    host: set<Ip>,
    seen: map<Ip, nat>)

  const NO_ELEMENTS := NftKernel(map[], {}, {}, map[])

  datatype ElemOp =
    | NewMap(ip: Ip, mac: Mac) | NewValid(ip: Ip, mac: Mac) | NewSeen(ip: Ip) | NewHost(ip: Ip)
    | DelMap(ip: Ip) | DelValid(ip: Ip, mac: Mac) | DelSeen(ip: Ip) | DelHost(ip: Ip)

  predicate Unexpired(k: NftKernel, ip: Ip, now: nat) {
    ip in k.seen && now < k.seen[ip]
  }

  /** One element message. Adding a present element is accepted, unless it would change a
      map's data; deleting an absent one is refused. An expired element counts as absent. */
  function ElemStep(k: NftKernel, op: ElemOp, now: nat, timeout: nat): Option<NftKernel> {
    match op
    case NewMap(ip, mac) => if ip in k.ip2mac && k.ip2mac[ip] != mac then None else Some(k.(ip2mac := k.ip2mac[ip := mac]))
    case NewValid(ip, mac) => Some(k.(valid := k.valid + {(ip, mac)}))
    case NewSeen(ip) => Some(if Unexpired(k, ip, now) then k else k.(seen := k.seen[ip := now + timeout * 1000]))
    case NewHost(ip) => Some(k.(host := k.host + {ip}))
    case DelMap(ip) => if ip in k.ip2mac then Some(k.(ip2mac := k.ip2mac - {ip})) else None
    case DelValid(ip, mac) => if (ip, mac) in k.valid then Some(k.(valid := k.valid - {(ip, mac)})) else None
    case DelSeen(ip) => if Unexpired(k, ip, now) then Some(k.(seen := k.seen - {ip})) else None
    case DelHost(ip) => if ip in k.host then Some(k.(host := k.host - {ip})) else None
  }

  /** A batch commits as a whole or not at all. */
  function Commit(k: NftKernel, ops: seq<ElemOp>, now: nat, timeout: nat): Option<NftKernel>
    decreases |ops|
  {
    if ops == [] then Some(k)
    else
      match ElemStep(k, ops[0], now, timeout)
      case None => None
      case Some(k') => Commit(k', ops[1..], now, timeout)
  }

  /** `entries` and `host` are the shadow the backend keeps to rebuild from. */
  datatype Nft = Nft(
    up: bool,
    hostmac: Mac,
    brmac: Option<Mac>,
    host: set<Ip>,
    entries: map<Ip, Mac>,
    timeout: nat,
    k: NftKernel)

  function NftTransact(n: Nft, ops: seq<ElemOp>, now: nat): (Nft, bool) {
    var k' := Commit(n.k, ops, now, n.timeout);
    if n.up && k'.Some? then (n.(k := k'.value), true) else (n, false)
  }

  function Flash(n: Nft, ip: Ip, mac: Mac, now: nat): (Nft, bool) {
    NftTransact(n, [NewMap(ip, mac), NewValid(ip, mac), NewSeen(ip)], now)
  }

  /** ip2mac and valid together; seen separately, since it may have expired. */
  function Unflash(n: Nft, ip: Ip, mac: Mac, now: nat): (Nft, bool) {
    var (n1, ok) := NftTransact(n, [DelMap(ip), DelValid(ip, mac)], now);
    if !ok then (n1, false) else (NftTransact(n1, [DelSeen(ip)], now).0, true)
  }

  function NftWrite(n: Nft, ip: Ip, mac: Mac, now: nat): (Nft, bool) {
    var (n1, ok) := if ip in n.entries && n.entries[ip] != mac then Unflash(n, ip, n.entries[ip], now) else (n, true);
    if !ok then (n1, false) else Flash(n1.(entries := n1.entries[ip := mac]), ip, mac, now)
  }

  function NftWithdraw(n: Nft, ip: Ip, now: nat): (Nft, bool) {
    if ip in n.entries then Unflash(n.(entries := n.entries - {ip}), ip, n.entries[ip], now) else (n, true)
  }

  function Pairs(m: map<Ip, Mac>): set<(Ip, Mac)> {
    set ip | ip in m :: (ip, m[ip])
  }

  /** The elements a rebuild leaves: exactly the shadow, every entry freshly seen. */
  function Reflashed(host: set<Ip>, entries: map<Ip, Mac>, now: nat, timeout: nat): NftKernel {
    NftKernel(entries, Pairs(entries), host, map ip | ip in entries :: now + timeout * 1000)
  }

  function NftRebuild(n: Nft, now: nat): (Nft, bool) {
    if n.up then (n.(k := Reflashed(n.host, n.entries, now, n.timeout)), true) else (n, false)
  }

  function NftInit(n: Nft, hostmac: Mac, brmac: Option<Mac>, ips: set<Ip>, timeout: nat, now: nat): Nft {
    NftRebuild(n.(up := true, hostmac := hostmac, brmac := brmac, host := ips, timeout := timeout), now).0
  }

  /** The shadow entries survive the session. */
  function NftTeardown(n: Nft): Nft {
    n.(up := false, k := NO_ELEMENTS)
  }

  function NftSetHostIps(n: Nft, ips: set<Ip>): Nft {
    n.(host := ips, k := if n.up then n.k.(host := ips) else n.k)
  }

  /** The datapath's `update @seen`: add or refresh with the set's timeout. */
  function NftMark(n: Nft, ip: Ip, now: nat): Nft {
    if n.up then n.(k := n.k.(seen := n.k.seen[ip := now + n.timeout * 1000])) else n
  }

  /** refresh_seen: only a known entry, by delete and add. */
  function NftRefresh(n: Nft, ip: Ip, now: nat): Nft {
    if ip in n.entries then NftTransact(NftTransact(n, [DelSeen(ip)], now).0, [NewSeen(ip)], now).0 else n
  }

  function NftAlive(n: Nft, now: nat): set<Ip> {
    set ip | ip in n.k.seen && Unexpired(n.k, ip, now)
  }

  // ---- what the nft operations keep ----

  /** While the table is installed its sets are exactly the shadow. */
  ghost predicate Synced(n: Nft) {
    if n.up then
      && n.k.ip2mac == n.entries
      && n.k.valid == Pairs(n.entries)
      && n.k.host == n.host
    else n.k == NO_ELEMENTS
  }

  lemma Commit1(k: NftKernel, a: ElemOp, now: nat, timeout: nat)
    ensures Commit(k, [a], now, timeout) == ElemStep(k, a, now, timeout)
  {
    var ops := [a];
    assert ops[1..] == [];
  }

  lemma Commit2(k: NftKernel, a: ElemOp, b: ElemOp, now: nat, timeout: nat)
    ensures Commit(k, [a, b], now, timeout)
         == match ElemStep(k, a, now, timeout)
            case None => None
            case Some(k') => ElemStep(k', b, now, timeout)
  {
    var ops := [a, b];
    assert ops[1..] == [b];
    if ElemStep(k, a, now, timeout).Some? {
      Commit1(ElemStep(k, a, now, timeout).value, b, now, timeout);
    }
  }

  lemma Commit3(k: NftKernel, a: ElemOp, b: ElemOp, c: ElemOp, now: nat, timeout: nat)
    ensures Commit(k, [a, b, c], now, timeout)
         == match ElemStep(k, a, now, timeout)
            case None => None
            case Some(k') => Commit(k', [b, c], now, timeout)
  {
    var ops := [a, b, c];
    assert ops[1..] == [b, c];
  }

  function Renewed(seen: map<Ip, nat>, ip: Ip, now: nat, timeout: nat): map<Ip, nat> {
    if ip in seen && now < seen[ip] then seen else seen[ip := now + timeout * 1000]
  }

  lemma FlashResult(n: Nft, ip: Ip, mac: Mac, now: nat)
    requires n.up && (ip in n.k.ip2mac ==> n.k.ip2mac[ip] == mac)
    ensures Flash(n, ip, mac, now)
         == (n.(k := NftKernel(n.k.ip2mac[ip := mac], n.k.valid + {(ip, mac)}, n.k.host,
                               Renewed(n.k.seen, ip, now, n.timeout))), true)
  {
    var k1 := n.k.(ip2mac := n.k.ip2mac[ip := mac]);
    Commit3(n.k, NewMap(ip, mac), NewValid(ip, mac), NewSeen(ip), now, n.timeout);
    Commit2(k1, NewValid(ip, mac), NewSeen(ip), now, n.timeout);
  }

  lemma UnflashResult(n: Nft, ip: Ip, mac: Mac, now: nat)
    requires n.up && ip in n.k.ip2mac && (ip, mac) in n.k.valid
    ensures var (after, ok) := Unflash(n, ip, mac, now);
            && ok
            && after.k.ip2mac == n.k.ip2mac - {ip}
            && after.k.valid == n.k.valid - {(ip, mac)}
            && after.k.seen.Keys <= n.k.seen.Keys
            && (forall x | x != ip && x in n.k.seen :: x in after.k.seen && after.k.seen[x] == n.k.seen[x])
            && !Unexpired(after.k, ip, now)
            && after == n.(k := n.k.(ip2mac := after.k.ip2mac, valid := after.k.valid, seen := after.k.seen))
  {
    Commit2(n.k, DelMap(ip), DelValid(ip, mac), now, n.timeout);
    var n1 := n.(k := n.k.(ip2mac := n.k.ip2mac - {ip}, valid := n.k.valid - {(ip, mac)}));
    assert NftTransact(n, [DelMap(ip), DelValid(ip, mac)], now) == (n1, true);
    Commit1(n1.k, DelSeen(ip), now, n.timeout);
  }

  lemma PairsMinus(m: map<Ip, Mac>, ip: Ip)
    requires ip in m
    ensures Pairs(m - {ip}) == Pairs(m) - {(ip, m[ip])}
  {
    forall x | x in m && x != ip ensures (x, m[x]) in Pairs(m - {ip}) {
      assert x in m - {ip};
    }
  }

  lemma PairsPlus(m: map<Ip, Mac>, ip: Ip, mac: Mac)
    requires ip in m ==> m[ip] == mac
    ensures Pairs(m[ip := mac]) == Pairs(m) + {(ip, mac)}
  {
    assert forall x | x in m :: x in m[ip := mac] && m[ip := mac][x] == m[x];
    assert ip in m[ip := mac];
  }

  /** No other address's mark moved. */
  ghost predicate SeenElsewhere(n: Nft, after: Nft, ip: Ip) {
    forall x | x != ip && x in n.k.seen :: x in after.k.seen && after.k.seen[x] == n.k.seen[x]
  }

  /** A write never fails on an installed table, and leaves exactly the new binding. */
  lemma NftWriteKeeps(n: Nft, ip: Ip, mac: Mac, now: nat)
    requires Synced(n)
    ensures var (after, ok) := NftWrite(n, ip, mac, now);
            && Synced(after)
            && ok == n.up
            && (n.up ==>
                  && after.entries == n.entries[ip := mac]
                  && ip in after.k.seen
                  && (after.k.seen[ip] == now + n.timeout * 1000
                      || (ip in n.k.seen && now < n.k.seen[ip] == after.k.seen[ip])))
            && SeenElsewhere(n, after, ip)
            && n.entries.Keys <= after.entries.Keys <= n.entries.Keys + {ip}
            && (after.up, after.host, after.hostmac, after.brmac, after.timeout)
               == (n.up, n.host, n.hostmac, n.brmac, n.timeout)
  {
    if n.up {
      var n1 := n;
      if ip in n.entries && n.entries[ip] != mac {
        assert (ip, n.entries[ip]) in Pairs(n.entries);
        UnflashResult(n, ip, n.entries[ip], now);
        PairsMinus(n.entries, ip);
        n1 := Unflash(n, ip, n.entries[ip], now).0;
        PairsPlus(n.entries - {ip}, ip, mac);
        assert (n.entries - {ip})[ip := mac] == n.entries[ip := mac];
      } else {
        PairsPlus(n.entries, ip, mac);
      }
      FlashResult(n1.(entries := n1.entries[ip := mac]), ip, mac, now);
    }
  }

  /** A withdrawal never fails on an installed table; off the table it still forgets the shadow. */
  lemma NftWithdrawKeeps(n: Nft, ip: Ip, now: nat)
    requires Synced(n)
    ensures var (after, ok) := NftWithdraw(n, ip, now);
            && Synced(after)
            && ok == (n.up || ip !in n.entries)
            && after.entries == n.entries - {ip}
            && (ip in n.entries ==> !Unexpired(after.k, ip, now))
            && SeenElsewhere(n, after, ip)
            && (after.up, after.host, after.hostmac, after.brmac, after.timeout)
               == (n.up, n.host, n.hostmac, n.brmac, n.timeout)
  {
    if ip in n.entries {
      if n.up {
        assert (ip, n.entries[ip]) in Pairs(n.entries);
        UnflashResult(n.(entries := n.entries - {ip}), ip, n.entries[ip], now);
        PairsMinus(n.entries, ip);
      }
    } else {
      assert n.entries - {ip} == n.entries;
    }
  }

  // ---- both backends keep one map ----

  datatype Op =
    | Write(ip: Ip, mac: Mac) | Withdraw(ip: Ip)
    | SetHostmac(hostmac: Mac) | SetBrmac(brmac: Option<Mac>) | SetHostIps(ips: set<Ip>)
    | Mark(ip: Ip) | Refresh(ip: Ip) | Flush

  function EbpfApply(e: Ebpf, op: Op): Ebpf {
    match op
    case Write(ip, mac) => EbpfWrite(e, ip, mac).0
    case Withdraw(ip) => EbpfWithdraw(e, ip).0
    case SetHostmac(m) => e.(hostmac := m)
    case SetBrmac(m) => e.(brmac := m)
    case SetHostIps(ips) => if e.loaded then e.(host := ips) else e
    case Mark(ip) => EbpfMark(e, ip)
    case Refresh(ip) => EbpfMark(e, ip)
    case Flush => EbpfFlush(e)
  }

  function NftApply(n: Nft, op: Op, now: nat): Nft {
    match op
    case Write(ip, mac) => NftWrite(n, ip, mac, now).0
    case Withdraw(ip) => NftWithdraw(n, ip, now).0
    case SetHostmac(m) => NftRebuild(n.(hostmac := m), now).0
    case SetBrmac(m) => NftRebuild(n.(brmac := m), now).0
    case SetHostIps(ips) => NftSetHostIps(n, ips)
    case Mark(ip) => NftMark(n, ip, now)
    case Refresh(ip) => NftRefresh(n, ip, now)
    case Flush => n
  }

  function EbpfRun(e: Ebpf, ops: seq<Op>): Ebpf
    decreases |ops|
  {
    if ops == [] then e else EbpfRun(EbpfApply(e, ops[0]), ops[1..])
  }

  /** `at` gives the time of each operation. */
  function NftRun(n: Nft, ops: seq<Op>, at: seq<nat>): Nft
    requires |at| == |ops|
    decreases |ops|
  {
    if ops == [] then n else NftRun(NftApply(n, ops[0], at[0]), ops[1..], at[1..])
  }

  ghost predicate Agree(e: Ebpf, n: Nft) {
    && e.loaded && n.up && Synced(n)
    && e.ip2mac == n.entries
    && e.host == n.host
    && e.hostmac == n.hostmac
    && e.brmac == n.brmac
  }

  lemma RefreshKeeps(n: Nft, ip: Ip, now: nat)
    requires n.up && ip in n.entries
    ensures NftRefresh(n, ip, now) == n.(k := n.k.(seen := NftRefresh(n, ip, now).k.seen))
    ensures NftRefresh(n, ip, now).k.seen == n.k.seen[ip := now + n.timeout * 1000]
  {
    Commit1(n.k, DelSeen(ip), now, n.timeout);
    var n1 := NftTransact(n, [DelSeen(ip)], now).0;
    Commit1(n1.k, NewSeen(ip), now, n.timeout);
  }

  lemma AgreeStep(e: Ebpf, n: Nft, op: Op, now: nat)
    requires Agree(e, n)
    ensures Agree(EbpfApply(e, op), NftApply(n, op, now))
  {
    match op
    case Write(ip, mac) => NftWriteKeeps(n, ip, mac, now);
    case Withdraw(ip) => NftWithdrawKeeps(n, ip, now);
    case Refresh(ip) => if ip in n.entries { RefreshKeeps(n, ip, now); }
    case _ =>
  }

  /** After any operations both engines hold the same ip2mac and host tables, and nft's
      (ip, mac) set test answers as eBPF's lookup-and-compare does. */
  lemma {:induction false} BackendsRefineOneMap(e: Ebpf, n: Nft, ops: seq<Op>, at: seq<nat>)
    requires Agree(e, n) && |at| == |ops|
    ensures var e', n' := EbpfRun(e, ops), NftRun(n, ops, at);
            && e'.ip2mac == n'.k.ip2mac
            && e'.host == n'.k.host
            && e'.hostmac == n'.hostmac && e'.brmac == n'.brmac
            && forall ip, mac: Mac :: (ip, mac) in n'.k.valid <==> ip in e'.ip2mac && e'.ip2mac[ip] == mac
    decreases |ops|
  {
    if ops != [] {
      AgreeStep(e, n, ops[0], at[0]);
      BackendsRefineOneMap(EbpfApply(e, ops[0]), NftApply(n, ops[0], at[0]), ops[1..], at[1..]);
    }
  }

  /** A first session starts the two engines in agreement. */
  lemma InitAgrees(n: Nft, hostmac: Mac, brmac: Option<Mac>, ips: set<Ip>, timeout: nat, now: nat)
    requires n.entries == map[]
    ensures Agree(EbpfInit(hostmac, brmac, ips), NftInit(n, hostmac, brmac, ips, timeout, now))
  {
  }

  // ---- second-chance aging ----

  /** The addresses marked, written or refreshed by `ops` and not withdrawn after. */
  function MarkedBy(ops: seq<Op>): set<Ip> {
    if ops == [] then {}
    else
      var rest := MarkedBy(ops[..|ops| - 1]);
      match ops[|ops| - 1]
      case Write(ip, _) => rest + {ip}
      case Mark(ip) => rest + {ip}
      case Refresh(ip) => rest + {ip}
      case Withdraw(ip) => rest - {ip}
      case _ => rest
  }

  lemma {:induction false} EbpfRunSnoc(e: Ebpf, ops: seq<Op>)
    requires ops != []
    ensures EbpfRun(e, ops) == EbpfApply(EbpfRun(e, ops[..|ops| - 1]), ops[|ops| - 1])
    decreases |ops|
  {
    if |ops| > 1 {
      EbpfRunSnoc(EbpfApply(e, ops[0]), ops[1..]);
      assert ops[1..][..|ops| - 2] == ops[..|ops| - 1][1..];
    }
  }

  /** flush reports exactly the addresses marked since the previous flush. */
  lemma {:induction false} FlushReportsTheMarked(e: Ebpf, ops: seq<Op>)
    requires e.loaded
    requires Flush !in ops
    ensures EbpfRun(EbpfFlush(e), ops).loaded
    ensures EbpfAlive(EbpfRun(EbpfFlush(e), ops)) == MarkedBy(ops)
    decreases |ops|
  {
    if ops != [] {
      FlushReportsTheMarked(e, ops[..|ops| - 1]);
      EbpfRunSnoc(EbpfFlush(e), ops);
    }
  }
}
