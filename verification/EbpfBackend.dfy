/**
 The eBPF backend as the program runs it (src/backend/ebpf.rs): maps updated in place, key by
 key. Every method is proved against the value operations of module Backend.
 */
module EbpfBackend {
  import opened Types
  import opened Backend

  class EbpfBackend {
    var loaded: bool
    var hostmac: Mac
    var brmac: Option<Mac>
    var ip2mac: map<Ip, Mac>
    var host: set<Ip>
    var seen: map<Ip, bool>

    function Value(): Ebpf
      reads this
    {
      Ebpf(loaded, hostmac, brmac, ip2mac, host, seen)
    }

    constructor ()
      ensures Value() == Ebpf(false, Zeros(6), None, map[], {}, map[])
    {
      loaded, hostmac, brmac := false, Zeros(6), None;
      ip2mac, host, seen := map[], {}, map[];
    }

    /** Loading the object brings fresh, empty maps. */
    method Init(hostmac: Mac, brmac: Option<Mac>, ips: seq<Ip>)
      modifies this
      ensures Value() == EbpfInit(hostmac, brmac, ToSet(ips))
    {
      this.hostmac, this.brmac, loaded := hostmac, brmac, true;
      ip2mac, host, seen := map[], {}, map[];
      var _ := SetHostIps(ips);
    }

    method Teardown()
      modifies this
      ensures Value() == old(EbpfTeardown(Value()))
    {
      loaded := false;
      ip2mac, host, seen := map[], {}, map[];
    }

    /** Remove what is not wanted, then insert what is. */
    method SetHostIps(ips: seq<Ip>) returns (ok: bool)
      modifies this`host
      ensures ok == loaded
      ensures Value() == EbpfApply(old(Value()), Op.SetHostIps(ToSet(ips)))
    {
      if !loaded {
        return false;
      }
      var want := ToSet(ips);
      var have := host;
      while have != {}
        invariant have <= host && host - have <= want
        decreases have
      {
        var k :| k in have;
        if k !in want {
          host := host - {k};
        }
        have := have - {k};
      }
      var todo := want;
      while todo != {}
        invariant todo <= want && want - todo <= host <= want
        decreases todo
      {
        var k :| k in todo;
        host := host + {k};
        todo := todo - {k};
      }
      return true;
    }

    method WriteEntry(ip: Ip, mac: Mac) returns (ok: bool)
      modifies this`ip2mac, this`seen
      ensures (Value(), ok) == old(EbpfWrite(Value(), ip, mac))
    {
      if !loaded {
        return false;
      }
      ip2mac := ip2mac[ip := mac];
      seen := seen[ip := true];
      return true;
    }

    method WithdrawEntry(ip: Ip) returns (ok: bool)
      modifies this`ip2mac, this`seen
      ensures (Value(), ok) == old(EbpfWithdraw(Value(), ip))
    {
      if !loaded {
        return false;
      }
      ip2mac := ip2mac - {ip};
      seen := seen - {ip};
      return true;
    }

    method RefreshSeen(ip: Ip) returns (ok: bool)
      modifies this`seen
      ensures ok == loaded
      ensures Value() == old(EbpfMark(Value(), ip))
    {
      if loaded {
        seen := seen[ip := true];
      }
      return loaded;
    }

    /** Walk a snapshot of the keys; clear each mark, drop each unmarked key. */
    method Flush() returns (alive: Option<seq<Ip>>)
      modifies this`seen
      ensures alive.Some? == loaded
      ensures alive.Some? ==> ToSet(alive.value) == old(EbpfAlive(Value()))
      ensures alive.Some? ==> forall i, j | 0 <= i < j < |alive.value| :: alive.value[i] != alive.value[j]
      ensures Value() == if loaded then old(EbpfFlush(Value())) else old(Value())
    {
      if !loaded {
        return None;
      }
      ghost var was := seen;
      var keys := seen.Keys;
      var out: seq<Ip> := [];
      while keys != {}
        invariant keys <= was.Keys
        invariant forall ip :: ip in keys ==> ip in seen && seen[ip] == was[ip]
        invariant forall ip :: ip in out <==> ip in was.Keys - keys && was[ip]
        invariant forall i, j | 0 <= i < j < |out| :: out[i] != out[j]
        invariant forall ip :: ip in seen <==> ip in keys || (ip in was && was[ip])
        invariant forall ip :: ip in seen && ip !in keys ==> !seen[ip]
        decreases keys
      {
        var k :| k in keys;
        keys := keys - {k};
        if seen[k] {
          seen := seen[k := false];
          out := out + [k];
        } else {
          seen := seen - {k};
        }
      }
      assert seen == EbpfFlush(old(Value())).seen;
      return Some(out);
    }
  }
}
