/**
 The store against a reference that knows no ages: a queue of bindings in the order of their
 admission (src/state.rs:92-142). A learn of a present address rebinds it in its place; a new
 one drops the first binding of a full scope and goes to the end.
 */
module StoreOrder {
  import opened Types
  import opened State

  // ---- the queue ----

  type Queue = seq<(Ip, Mac)>

  predicate Fits(x: (Ip, Mac), v4: bool, who: Option<Mac>) {
    x.0.V4? == v4 && (who == None || who == Some(x.1))
  }

  function Count(q: Queue, v4: bool, who: Option<Mac>): nat {
    if q == [] then 0 else (if Fits(q[0], v4, who) then 1 else 0) + Count(q[1..], v4, who)
  }

  function WithoutFirst(q: Queue, v4: bool, who: Option<Mac>): Queue {
    if q == [] then []
    else if Fits(q[0], v4, who) then q[1..]
    else [q[0]] + WithoutFirst(q[1..], v4, who)
  }

  function Room(q: Queue, v4: bool, who: Option<Mac>, limit: nat): Queue {
    if Count(q, v4, who) >= limit then WithoutFirst(q, v4, who) else q
  }

  predicate Holds(q: Queue, ip: Ip) {
    exists i :: 0 <= i < |q| && q[i].0 == ip
  }

  function Rebound(q: Queue, ip: Ip, mac: Mac): Queue {
    seq(|q|, i requires 0 <= i < |q| => if q[i].0 == ip then (ip, mac) else q[i])
  }

  function Without(q: Queue, ip: Ip): Queue {
    if q == [] then [] else (if q[0].0 == ip then [] else [q[0]]) + Without(q[1..], ip)
  }

  function Queued(cap: Caps, q: Queue, ip: Ip, mac: Mac): Queue {
    if Holds(q, ip) then Rebound(q, ip, mac)
    else
      var q1 := Room(q, ip.V4?, Some(mac), if ip.V4? then cap.v4PerMac else cap.v6PerMac);
      var q2 := Room(q1, ip.V4?, None, if ip.V4? then cap.v4Global else cap.v6Global);
      q2 + [(ip, mac)]
  }

  function QueueRun(cap: Caps, ops: seq<Op>): Queue {
    if ops == [] then []
    else
      var q := QueueRun(cap, ops[..|ops| - 1]);
      match ops[|ops| - 1]
      case Learn(ip, mac, _) => Queued(cap, q, ip, mac)
      case Remove(ip) => Without(q, ip)
  }

  // ---- a queue lists a store's entries, oldest first ----

  ghost predicate Lists(m: map<Ip, Entry>, q: Queue) {
    && (forall i | 0 <= i < |q| :: q[i].0 in m && m[q[i].0].mac == q[i].1)
    && (forall ip | ip in m :: Holds(q, ip))
    && (forall i, j | 0 <= i < j < |q| :: m[q[i].0].createat < m[q[j].0].createat)
  }

  lemma ListsHead(m: map<Ip, Entry>, q: Queue)
    requires Lists(m, q) && q != []
    ensures Lists(m - {q[0].0}, q[1..])
    ensures forall x | x in m && x != q[0].0 :: m[q[0].0].createat < m[x].createat
  {
    var h, t := q[0].0, q[1..];
    forall ip | ip in m && ip != h ensures Holds(t, ip) && m[h].createat < m[ip].createat {
      var i :| 0 <= i < |q| && q[i].0 == ip;
      assert t[i - 1].0 == ip;
    }
  }

  lemma ListsCons(m: map<Ip, Entry>, h: (Ip, Mac), t: Queue)
    requires h.0 in m && m[h.0].mac == h.1 && Lists(m - {h.0}, t)
    requires forall x | x in m && x != h.0 :: m[h.0].createat < m[x].createat
    ensures Lists(m, [h] + t)
  {
    var q, rest := [h] + t, m - {h.0};
    forall ip | ip in m ensures Holds(q, ip) {
      assert ip != h.0 ==> ip in rest;
      HoldsCons(h, t, ip);
    }
    assert forall i | 0 < i < |q| :: q[i] == t[i - 1] && q[i].0 in rest;
  }

  lemma HoldsCons(h: (Ip, Mac), t: Queue, ip: Ip)
    requires ip == h.0 || Holds(t, ip)
    ensures Holds([h] + t, ip)
  {
    if ip == h.0 {
      assert ([h] + t)[0].0 == ip;
    } else {
      var i :| 0 <= i < |t| && t[i].0 == ip;
      assert ([h] + t)[i + 1].0 == ip;
    }
  }

  lemma ScopeOfHead(m: map<Ip, Entry>, q: Queue, fam: Family, who: Option<Mac>)
    requires Lists(m, q) && q != []
    ensures Scope(m, fam, who)
         == Scope(m - {q[0].0}, fam, who) + if Fits(q[0], fam == Fam4, who) then {q[0].0} else {}
    ensures q[0].0 !in Scope(m - {q[0].0}, fam, who)
  {
  }

  lemma {:induction false} CountIsScope(m: map<Ip, Entry>, q: Queue, fam: Family, who: Option<Mac>)
    requires Lists(m, q)
    ensures Count(q, fam == Fam4, who) == |Scope(m, fam, who)|
    decreases |q|
  {
    if q == [] {
      assert Scope(m, fam, who) == {};
    } else {
      ListsHead(m, q);
      ScopeOfHead(m, q, fam, who);
      CountIsScope(m - {q[0].0}, q[1..], fam, who);
    }
  }

  /** The first fitting binding of the queue is the oldest entry of the scope, and without the
      one the queue lists the map without the other. */
  lemma {:induction false} FirstIsOldest(m: map<Ip, Entry>, q: Queue, fam: Family, who: Option<Mac>, victim: Ip)
    requires Lists(m, q) && IsOldest(m, Scope(m, fam, who), victim)
    ensures Lists(m - {victim}, WithoutFirst(q, fam == Fam4, who))
    decreases |q|
  {
    assert victim in m && Holds(q, victim);
    ListsHead(m, q);
    ScopeOfHead(m, q, fam, who);
    var h, rest := q[0], m - {q[0].0};
    if Fits(h, fam == Fam4, who) {
      assert h.0 in Scope(m, fam, who);
      assert victim == h.0;
    } else {
      assert Scope(rest, fam, who) == Scope(m, fam, who);
      FirstIsOldest(rest, q[1..], fam, who, victim);
      assert (m - {victim}) - {h.0} == rest - {victim};
      ListsCons(m - {victim}, h, WithoutFirst(q[1..], fam == Fam4, who));
    }
  }

  lemma EvictIsRoom(m: map<Ip, Entry>, q: Queue, fam: Family, who: Option<Mac>, limit: nat)
    requires Lists(m, q)
    ensures Lists(Evict(m, fam, who, limit).0, Room(q, fam == Fam4, who, limit))
  {
    CountIsScope(m, q, fam, who);
    var victim := Oldest(m, fam, who);
    if victim.Some? {
      FirstIsOldest(m, q, fam, who, victim.value);
    } else {
      NothingFits(q, fam == Fam4, who);
    }
  }

  lemma {:induction false} NothingFits(q: Queue, v4: bool, who: Option<Mac>)
    requires Count(q, v4, who) == 0
    ensures WithoutFirst(q, v4, who) == q
  {
    if q != [] {
      NothingFits(q[1..], v4, who);
      assert [q[0]] + q[1..] == q;
    }
  }

  lemma AppendLists(m: map<Ip, Entry>, q: Queue, ip: Ip, e: Entry)
    requires Lists(m, q) && ip !in m && forall x | x in m :: m[x].createat < e.createat
    ensures Lists(m[ip := e], q + [(ip, e.mac)])
  {
    var r := q + [(ip, e.mac)];
    forall x | x in m[ip := e] ensures Holds(r, x) {
      if x == ip {
        assert r[|q|].0 == ip;
      } else {
        var i :| 0 <= i < |q| && q[i].0 == x;
        assert r[i].0 == x;
      }
    }
  }

  lemma ReboundLists(m: map<Ip, Entry>, q: Queue, ip: Ip, e: Entry)
    requires Lists(m, q) && ip in m && e.createat == m[ip].createat
    ensures Lists(m[ip := e], Rebound(q, ip, e.mac))
  {
    assert forall x | x in m :: m[ip := e][x] == if x == ip then e else m[x];
    SameOrder(m, q, m[ip := e], Rebound(q, ip, e.mac));
  }

  lemma SameOrder(m: map<Ip, Entry>, q: Queue, n: map<Ip, Entry>, r: Queue)
    requires Lists(m, q) && n.Keys == m.Keys && |r| == |q|
    requires forall x | x in m :: n[x].createat == m[x].createat
    requires forall i | 0 <= i < |q| :: r[i].0 == q[i].0 && n[q[i].0].mac == r[i].1
    ensures Lists(n, r)
  {
    forall x | x in n ensures Holds(r, x) {
      assert x in m.Keys && Holds(q, x);
      var i :| 0 <= i < |q| && q[i].0 == x;
      assert r[i].0 == x;
    }
  }

  lemma {:induction false} WithoutLists(m: map<Ip, Entry>, q: Queue, ip: Ip)
    requires Lists(m, q)
    ensures Lists(m - {ip}, Without(q, ip))
    decreases |q|
  {
    if q == [] {
      assert m - {ip} == m;
    } else {
      ListsHead(m, q);
      WithoutLists(m - {q[0].0}, q[1..], ip);
      WithoutHead(q, ip);
      WithoutCons(m, q[0], ip, Without(q[1..], ip));
    }
  }

  lemma WithoutCons(m: map<Ip, Entry>, h: (Ip, Mac), ip: Ip, t: Queue)
    requires h.0 in m && m[h.0].mac == h.1 && Lists((m - {h.0}) - {ip}, t)
    requires forall x | x in m && x != h.0 :: m[h.0].createat < m[x].createat
    ensures Lists(m - {ip}, if h.0 == ip then t else [h] + t)
  {
    if h.0 == ip {
      assert (m - {h.0}) - {ip} == m - {ip};
    } else {
      assert (m - {ip}) - {h.0} == (m - {h.0}) - {ip};
      ListsCons(m - {ip}, h, t);
    }
  }

  lemma WithoutHead(q: Queue, ip: Ip)
    requires q != []
    ensures Without(q, ip) == if q[0].0 == ip then Without(q[1..], ip) else [q[0]] + Without(q[1..], ip)
  {
    assert [] + Without(q[1..], ip) == Without(q[1..], ip);
  }

  lemma HoldsIff(m: map<Ip, Entry>, q: Queue, ip: Ip)
    requires Lists(m, q)
    ensures Holds(q, ip) <==> ip in m
  {
  }

  lemma LearnedIsQueued(cap: Caps, s: Store, q: Queue, ip: Ip, mac: Mac, now: nat)
    requires Ordered(s) && Lists(s.entries, q)
    ensures Lists(Learned(cap, s, ip, mac, now).0.entries, Queued(cap, q, ip, mac))
  {
    HoldsIff(s.entries, q, ip);
    if ip in s.entries {
      ReboundLists(s.entries, q, ip, s.entries[ip].(mac := mac, lastCtrl := now));
    } else {
      AdmittedIsQueued(cap, s.entries, q, ip, Entry(mac, s.seqNo + 1, now));
    }
  }

  lemma AdmittedIsQueued(cap: Caps, m: map<Ip, Entry>, q: Queue, ip: Ip, e: Entry)
    requires Lists(m, q) && ip !in m && forall x | x in m :: m[x].createat < e.createat
    ensures var fam := FamilyOf(ip);
            var m1 := Evict(m, fam, Some(e.mac), cap.PerMac(fam)).0;
            var m2 := Evict(m1, fam, None, cap.Global(fam)).0;
            Lists(m2[ip := e], Queued(cap, q, ip, e.mac))
  {
    var fam := FamilyOf(ip);
    var m1 := Evict(m, fam, Some(e.mac), cap.PerMac(fam)).0;
    EvictIsRoom(m, q, fam, Some(e.mac), cap.PerMac(fam));
    var q1 := Room(q, fam == Fam4, Some(e.mac), cap.PerMac(fam));
    EvictIsRoom(m1, q1, fam, None, cap.Global(fam));
    var m2 := Evict(m1, fam, None, cap.Global(fam)).0;
    AppendLists(m2, Room(q1, fam == Fam4, None, cap.Global(fam)), ip, e);
    HoldsIff(m, q, ip);
  }

  /** After every run the entries are those of the queue, with its macs, and their ages are in
      its order. */
  lemma {:induction false} RunIsQueue(cap: Caps, ops: seq<Op>)
    ensures Lists(Run(cap, ops).entries, QueueRun(cap, ops))
  {
    if ops != [] {
      var init := ops[..|ops| - 1];
      var s, q := Run(cap, init), QueueRun(cap, init);
      RunIsQueue(cap, init);
      RunsStayReached(cap, init);
      match ops[|ops| - 1]
      case Learn(ip, mac, now) => LearnedIsQueued(cap, s, q, ip, mac, now);
      case Remove(ip) => WithoutLists(s.entries, q, ip);
    }
  }

  // ---- told by the run itself ----

  /** The index of the operation that last admitted the address. */
  ghost function AdmittedAt(cap: Caps, ops: seq<Op>, ip: Ip): int {
    if ops == [] then -1
    else
      var init := ops[..|ops| - 1];
      if ip !in Run(cap, init).entries && ip in Run(cap, ops).entries then |ops| - 1 else AdmittedAt(cap, init, ip)
  }

  lemma {:induction false} AdmittedEarlier(cap: Caps, ops: seq<Op>, ip: Ip)
    ensures AdmittedAt(cap, ops, ip) < |ops|
  {
    if ops != [] {
      AdmittedEarlier(cap, ops[..|ops| - 1], ip);
    }
  }

  /** A step leaves the age of every entry that stays, and a newcomer is younger than all. */
  lemma StepAges(cap: Caps, s: Store, op: Op)
    requires Ordered(s)
    ensures var t := Apply(cap, s, op);
            && (forall x | x in s.entries && x in t.entries :: t.entries[x].createat == s.entries[x].createat)
            && (forall x, y | x in t.entries && x !in s.entries && y in t.entries && y in s.entries ::
                  t.entries[y].createat < t.entries[x].createat)
            && (forall x, y | x in t.entries && x !in s.entries && y in t.entries && y !in s.entries :: x == y)
  {
  }

  /** Over every run the ages order the entries as their admissions do: a learn of a present
      address never moves it. */
  lemma {:induction false} AgesAreAdmissions(cap: Caps, ops: seq<Op>, a: Ip, b: Ip)
    requires a in Run(cap, ops).entries && b in Run(cap, ops).entries
    ensures Run(cap, ops).entries[a].createat < Run(cap, ops).entries[b].createat
       <==> AdmittedAt(cap, ops, a) < AdmittedAt(cap, ops, b)
    decreases |ops|
  {
    var init := ops[..|ops| - 1];
    var s := Run(cap, init);
    RunsStayReached(cap, init);
    StepAges(cap, s, ops[|ops| - 1]);
    AdmittedEarlier(cap, init, a);
    AdmittedEarlier(cap, init, b);
    if a in s.entries && b in s.entries {
      AgesAreAdmissions(cap, init, a, b);
    }
  }

  /** So the victim of a scope is the member admitted first. */
  lemma VictimWasAdmittedFirst(cap: Caps, ops: seq<Op>, fam: Family, who: Option<Mac>, other: Ip)
    requires other in Scope(Run(cap, ops).entries, fam, who)
    ensures var victim := Oldest(Run(cap, ops).entries, fam, who);
            victim.Some? && (other != victim.value ==> AdmittedAt(cap, ops, victim.value) < AdmittedAt(cap, ops, other))
  {
    var m := Run(cap, ops).entries;
    var victim := Oldest(m, fam, who).value;
    RunsStayReached(cap, ops);
    AgesAreAdmissions(cap, ops, victim, other);
  }

  /** The last operation that named the address in a learn. */
  function LastLearn(ops: seq<Op>, ip: Ip): Option<Op> {
    if ops == [] then None
    else
      var op := ops[|ops| - 1];
      if op.Learn? && op.ip == ip then Some(op) else LastLearn(ops[..|ops| - 1], ip)
  }

  /** Every entry has the mac and the time of the last learn of its address. */
  lemma {:induction false} EntriesAreLastLearned(cap: Caps, ops: seq<Op>, ip: Ip)
    requires ip in Run(cap, ops).entries
    ensures var last, e := LastLearn(ops, ip), Run(cap, ops).entries[ip];
            last.Some? && last.value.Learn? && e.mac == last.value.mac && e.lastCtrl == last.value.now
  {
    var init := ops[..|ops| - 1];
    var s, op := Run(cap, init), ops[|ops| - 1];
    if !(op.Learn? && op.ip == ip) {
      assert ip in s.entries && Run(cap, ops).entries[ip] == s.entries[ip];
      EntriesAreLastLearned(cap, init, ip);
    }
  }

  /** And the address just learned is there, with what was learned of it. */
  lemma LearnedIsThere(cap: Caps, s: Store, ip: Ip, mac: Mac, now: nat)
    ensures var t := Learned(cap, s, ip, mac, now).0;
            ip in t.entries && t.entries[ip].mac == mac && t.entries[ip].lastCtrl == now
  {
  }
}
