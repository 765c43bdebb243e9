/**
 The nft backend as the program runs it (src/backend/nft/mod.rs:74-479): a shadow of the
 elements, and transactions against the kernel's sets. Every method is proved against the
 value operations of module Backend.
 */
module NftBackend {
  import opened Types
  import opened Backend
  import opened SetDump
  import opened NetlinkDump
  import opened NftFlush

  class NftBackend {
    var up: bool
    var hostmac: Mac
    var brmac: Option<Mac>
    var host: set<Ip>
    var entries: map<Ip, Mac>
    var timeout: nat
    var k: NftKernel

    function Value(): Nft
      reads this
    {
      Nft(up, hostmac, brmac, host, entries, timeout, k)
    }

    constructor ()
      ensures Value() == Nft(false, Zeros(6), None, {}, map[], 0, NO_ELEMENTS)
    {
      up, hostmac, brmac, host, entries, timeout := false, Zeros(6), None, {}, map[], 0;
      k := NO_ELEMENTS;
    }

    method Transact(ops: seq<ElemOp>, now: nat) returns (ok: bool)
      modifies this`k
      ensures (Value(), ok) == old(NftTransact(Value(), ops, now))
    {
      var k' := Commit(k, ops, now, timeout);
      ok := up && k'.Some?;
      if ok {
        k := k'.value;
      }
    }

    method FlashEntry(ip: Ip, mac: Mac, now: nat) returns (ok: bool)
      modifies this`k
      ensures (Value(), ok) == old(Flash(Value(), ip, mac, now))
    {
      ok := Transact([NewMap(ip, mac), NewValid(ip, mac), NewSeen(ip)], now);
    }

    method UnflashEntry(ip: Ip, mac: Mac, now: nat) returns (ok: bool)
      modifies this`k
      ensures (Value(), ok) == old(Unflash(Value(), ip, mac, now))
    {
      ok := Transact([DelMap(ip), DelValid(ip, mac)], now);
      if ok {
        var _ := Transact([DelSeen(ip)], now);
      }
    }

    method WriteEntry(ip: Ip, mac: Mac, now: nat) returns (ok: bool)
      modifies this`k, this`entries
      ensures (Value(), ok) == old(NftWrite(Value(), ip, mac, now))
    {
      if ip in entries && entries[ip] != mac {
        ok := UnflashEntry(ip, entries[ip], now);
        if !ok {
          return;
        }
      }
      entries := entries[ip := mac];
      ok := FlashEntry(ip, mac, now);
    }

    method WithdrawEntry(ip: Ip, now: nat) returns (ok: bool)
      modifies this`k, this`entries
      ensures (Value(), ok) == old(NftWithdraw(Value(), ip, now))
    {
      ok := true;
      if ip in entries {
        var mac := entries[ip];
        entries := entries - {ip};
        ok := UnflashEntry(ip, mac, now);
      }
    }

    method RefreshSeen(ip: Ip, now: nat) returns (ok: bool)
      modifies this`k
      ensures Value() == old(NftRefresh(Value(), ip, now))
      ensures ok == (up || ip !in entries)
    {
      ok := true;
      if ip in entries {
        var _ := Transact([DelSeen(ip)], now);
        Commit1(k, NewSeen(ip), now, timeout);
        ok := Transact([NewSeen(ip)], now);
      }
    }

    /** Swap in an empty ruleset, then add host addresses and entries one transaction each. */
    method Rebuild(now: nat) returns (ok: bool)
      modifies this`k
      ensures (Value(), ok) == old(NftRebuild(Value(), now))
    {
      if !up {
        return false;
      }
      k := NO_ELEMENTS;
      ok := true;
      var ips := host;
      while ips != {}
        invariant ok && ips <= host
        invariant k == NO_ELEMENTS.(host := host - ips)
        decreases ips
      {
        var ip :| ip in ips;
        Commit1(k, NewHost(ip), now, timeout);
        ok := Transact([NewHost(ip)], now);
        ips := ips - {ip};
      }
      var todo := entries.Keys;
      while todo != {}
        invariant ok && todo <= entries.Keys
        invariant k == Reflashed(host, entries - todo, now, timeout)
        decreases todo
      {
        var ip :| ip in todo;
        assert ip !in k.ip2mac;
        FlashResult(Value(), ip, entries[ip], now);
        PairsPlus(entries - todo, ip, entries[ip]);
        assert entries - (todo - {ip}) == (entries - todo)[ip := entries[ip]];
        ok := FlashEntry(ip, entries[ip], now);
        todo := todo - {ip};
      }
      assert entries - todo == entries;
    }

    method Init(hostmac: Mac, brmac: Option<Mac>, ips: seq<Ip>, timeout: nat, now: nat)
      modifies this
      ensures Value() == old(NftInit(Value(), hostmac, brmac, ToSet(ips), timeout, now))
    {
      this.hostmac, this.brmac, this.timeout := hostmac, brmac, timeout;
      host, up := ToSet(ips), true;
      var _ := Rebuild(now);
    }

    method Teardown()
      modifies this
      ensures Value() == old(NftTeardown(Value()))
    {
      k, up := NO_ELEMENTS, false;
    }

    method SetHostmac(mac: Mac, now: nat) returns (ok: bool)
      modifies this
      ensures Value() == old(NftApply(Value(), Op.SetHostmac(mac), now)) && ok == up
    {
      hostmac := mac;
      ok := Rebuild(now);
    }

    /** add_host for each address; the shadow is told first, so a failure leaves one behind. */
    method AddHosts(add: set<Ip>, now: nat) returns (ok: bool)
      requires Synced(Value()) && add !! host
      modifies this`host, this`k
      ensures ok == (up || add == {})
      ensures up ==> Value() == old(Value()).(host := host, k := k) && host == old(host) + add && k == old(k).(host := host)
      ensures !up ==> k == old(k)
      ensures !up && !ok ==> exists ip :: ip in add && host == old(host) + {ip}
      ensures !up && ok ==> host == old(host)
    {
      var todo := add;
      ok := true;
      while todo != {}
        invariant ok && todo <= add && (up || todo == add)
        invariant host == old(host) + (add - todo)
        invariant k == if up then old(k).(host := host) else old(k)
        decreases todo
      {
        var ip :| ip in todo;
        host := host + {ip};
        Commit1(k, NewHost(ip), now, timeout);
        ok := Transact([NewHost(ip)], now);
        if !ok {
          return;
        }
        todo := todo - {ip};
      }
    }

    method DelHosts(del: set<Ip>, now: nat) returns (ok: bool)
      requires Synced(Value()) && del <= host
      modifies this`host, this`k
      ensures ok == (up || del == {})
      ensures up ==> Value() == old(Value()).(host := host, k := k) && host == old(host) - del && k == old(k).(host := host)
      ensures !up ==> k == old(k)
      ensures !up && !ok ==> exists ip :: ip in del && host == old(host) - {ip}
      ensures !up && ok ==> host == old(host)
    {
      var todo := del;
      ok := true;
      while todo != {}
        invariant ok && todo <= del && (up || todo == del)
        invariant host == old(host) - (del - todo)
        invariant k == if up then old(k).(host := host) else old(k)
        decreases todo
      {
        var ip :| ip in todo;
        host := host - {ip};
        if up {
          Commit1(k, DelHost(ip), now, timeout);
        }
        ok := Transact([DelHost(ip)], now);
        if !ok {
          return;
        }
        todo := todo - {ip};
      }
    }

    /** Add and delete only the difference between the shadow and the wanted addresses, v4
        before v6. With the session down the first difference is an error, recorded in the
        shadow all the same. */
    method SetHostIps(ips: seq<Ip>, now: nat) returns (ok: bool)
      requires Synced(Value())
      modifies this`host, this`k
      ensures up ==> Value() == old(NftSetHostIps(Value(), ToSet(ips)))
      ensures ok == (up || old(host) == ToSet(ips))
      ensures !up ==> k == old(k)
      ensures !up && ok ==> host == old(host)
      ensures !up && !ok ==> exists ip :: host == if ip in ToSet(ips) then old(host) + {ip} else old(host) - {ip}
    {
      var want := ToSet(ips);
      var want4, host4 := (set ip | ip in want && ip.V4?), (set ip | ip in host && ip.V4?);
      var want6, host6 := want - want4, host - host4;
      ok := AddHosts(want4 - host4, now);
      if !ok {
        return;
      }
      ok := DelHosts(host4 - want4, now);
      if !ok {
        return;
      }
      ok := AddHosts(want6 - host6, now);
      if !ok {
        return;
      }
      ok := DelHosts(host6 - want6, now);
    }

    /** `flush`: two dumps, and an error unless both are whole. When the kernel lists its
        unexpired marks, they are what is reported. */
    method Flush(recvs4: seq<Recv>, recvs6: seq<Recv>, ghost elems4: seq<Elem>, ghost elems6: seq<Elem>,
                 ghost marks4: seq<Ip>, ghost marks6: seq<Ip>, ghost now: nat)
        returns (alive: Option<seq<Ip>>)
      requires (forall r | r in recvs4 :: Filled(r)) && (forall r | r in recvs6 :: Filled(r))
      ensures alive == if up then Report(KeysOfDump(Dumped(recvs4, [])), KeysOfDump(Dumped(recvs6, []))) else None
      ensures alive.Some? <==> up && Dumped(recvs4, []).Whole? && Dumped(recvs6, []).Whole?
      ensures up && DumpOf(recvs4, elems4) && DumpOf(recvs6, elems6)
              && Lists(elems4, marks4, k, Fam4, now) && Lists(elems6, marks6, k, Fam6, now)
              ==> alive.Some? && ToSet(alive.value) == NftAlive(Value(), now)
    {
      if !up {
        return None;
      }
      var four := DumpSetElems(recvs4);
      if !four.Whole? {
        alive := None;
      } else {
        var alive4 := CutKeys(Fam4, four.found);
        var six := DumpSetElems(recvs6);
        if !six.Whole? {
          alive := None;
        } else {
          var alive6 := CutKeys(Fam6, six.found);
          alive := Some(alive4 + alive6);
        }
      }
      if DumpOf(recvs4, elems4) && DumpOf(recvs6, elems6)
         && Lists(elems4, marks4, k, Fam4, now) && Lists(elems6, marks6, k, Fam6, now) {
        FlushReportsTheAlive(Value(), recvs4, recvs6, elems4, elems6, marks4, marks6, now);
      }
    }
  }
}
