/**
 The entry store (src/state.rs): admission caps, first-in-first-out eviction and the list of
 addresses each learn changed.

 `Learned` and `Evict` are the store's meaning as functions of a value; the class `Entries`
 performs them step by step and is proved against them. The lemmas state what every run keeps.
 */
module State {
  import opened Types

  datatype Caps = Caps(v4PerMac: nat, v6PerMac: nat, v4Global: nat, v6Global: nat) {
    function PerMac(fam: Family): nat {
      if fam == Fam4 then v4PerMac else v6PerMac
    }

    function Global(fam: Family): nat {
      if fam == Fam4 then v4Global else v6Global
    }
  }

  datatype Entry = Entry(mac: Mac, createat: nat, lastCtrl: nat)

  datatype Store = Store(entries: map<Ip, Entry>, seqNo: nat)

  const EMPTY := Store(map[], 0)

  /** The entries of a family, restricted to one mac when `who` names one. */
  function Scope(m: map<Ip, Entry>, fam: Family, who: Option<Mac>): set<Ip> {
    set ip | ip in m && FamilyOf(ip) == fam && (who.Some? ==> m[ip].mac == who.value)
  }

  function Binding(s: Store, ip: Ip): Option<Mac> {
    if ip in s.entries then Some(s.entries[ip].mac) else None
  }

  ghost predicate IsOldest(m: map<Ip, Entry>, scope: set<Ip>, ip: Ip) {
    && ip in scope
    && scope <= m.Keys
    && forall other | other in scope :: m[ip].createat <= m[other].createat
  }

  /** Sequence numbers were handed out once each. */
  ghost predicate Ordered(s: Store) {
    && (forall ip | ip in s.entries :: s.entries[ip].createat <= s.seqNo)
    && (forall a, b | a in s.entries && b in s.entries && a != b ::
          s.entries[a].createat != s.entries[b].createat)
  }

  /** What every reachable store satisfies. */
  ghost predicate Reached(cap: Caps, s: Store) {
    && Ordered(s)
    && forall fam :: |Scope(s.entries, fam, None)| <= Max(1, cap.Global(fam))
  }

  // ---- the store's meaning ----

  ghost function Oldest(m: map<Ip, Entry>, fam: Family, who: Option<Mac>): (v: Option<Ip>)
    ensures v.None? <==> Scope(m, fam, who) == {}
    ensures v.Some? ==> IsOldest(m, Scope(m, fam, who), v.value)
  {
    var scope := Scope(m, fam, who);
    if scope == {} then None
    else
      OldestExists(m, scope);
      var ip :| IsOldest(m, scope, ip);
      Some(ip)
  }

  /** One cap check of learn: evict the oldest of the scope if it is full. */
  ghost function Evict(m: map<Ip, Entry>, fam: Family, who: Option<Mac>, cap: nat): (map<Ip, Entry>, seq<Ip>) {
    var victim := Oldest(m, fam, who);
    if |Scope(m, fam, who)| >= cap && victim.Some? then (m - {victim.value}, [victim.value]) else (m, [])
  }

  /** The store after learn(ip, mac), and the addresses to reconcile. */
  ghost function Learned(cap: Caps, s: Store, ip: Ip, mac: Mac, now: nat): (Store, seq<Ip>) {
    if ip in s.entries then
      var e := s.entries[ip];
      (s.(entries := s.entries[ip := e.(mac := mac, lastCtrl := now)]), if e.mac == mac then [] else [ip])
    else
      var fam := FamilyOf(ip);
      var (m1, v1) := Evict(s.entries, fam, Some(mac), cap.PerMac(fam));
      var (m2, v2) := Evict(m1, fam, None, cap.Global(fam));
      (Store(m2[ip := Entry(mac, s.seqNo + 1, now)], s.seqNo + 1), v1 + v2 + [ip])
  }

  function Removed(s: Store, ip: Ip): Store {
    s.(entries := s.entries - {ip})
  }

  lemma {:induction false} OldestExists(m: map<Ip, Entry>, scope: set<Ip>)
    requires scope != {} && scope <= m.Keys
    ensures exists ip :: IsOldest(m, scope, ip)
    decreases |scope|
  {
    var x :| x in scope;
    if scope == {x} {
      assert IsOldest(m, scope, x);
    } else {
      OldestExists(m, scope - {x});
      var y :| IsOldest(m, scope - {x}, y);
      assert IsOldest(m, scope, if m[x].createat < m[y].createat then x else y);
    }
  }

  // ---- the store as the program keeps it ----

  class Entries {
    const cap: Caps
    var entries: map<Ip, Entry>
    var seqNo: nat

    function Value(): Store
      reads this
    {
      Store(entries, seqNo)
    }

    constructor (cap: Caps)
      ensures Value() == EMPTY && this.cap == cap
    {
      this.cap, entries, seqNo := cap, map[], 0;
    }

    /** The scan for the smallest createat, in whatever order the keys come. */
    method EvictOldest(fam: Family, who: Option<Mac>) returns (victim: Option<Ip>)
      requires Ordered(Value())
      modifies this`entries
      ensures victim == Oldest(old(entries), fam, who)
      ensures entries == if victim.Some? then old(entries) - {victim.value} else old(entries)
    {
      var todo := Scope(entries, fam, who);
      ghost var scope := todo;
      victim := None;
      while todo != {}
        invariant todo <= scope
        invariant victim.None? ==> todo == scope
        invariant victim.Some? ==> IsOldest(entries, scope - todo, victim.value)
        invariant entries == old(entries)
        decreases todo
      {
        var ip :| ip in todo;
        if victim.None? || entries[ip].createat < entries[victim.value].createat {
          victim := Some(ip);
        }
        todo := todo - {ip};
      }
      assert scope - todo == scope;
      if victim.Some? {
        entries := entries - {victim.value};
      }
    }

    /** One cap check: evict only when the scope is full. */
    method MakeRoom(fam: Family, who: Option<Mac>, limit: nat) returns (victims: seq<Ip>)
      requires Ordered(Value())
      modifies this`entries
      ensures (entries, victims) == Evict(old(entries), fam, who, limit)
      ensures Ordered(Value()) && entries.Keys <= old(entries).Keys
    {
      victims := [];
      if |Scope(entries, fam, who)| >= limit {
        var v := EvictOldest(fam, who);
        if v.Some? {
          victims := [v.value];
        }
      }
    }

    /** learn(): refresh, rebind, or admit with eviction. */
    method Learn(ip: Ip, mac: Mac, now: nat) returns (changed: seq<Ip>)
      requires Ordered(Value())
      modifies this`entries, this`seqNo
      ensures (Value(), changed) == old(Learned(cap, Value(), ip, mac, now))
      ensures Ordered(Value())
    {
      if ip in entries {
        var e := entries[ip];
        entries := entries[ip := e.(mac := mac, lastCtrl := now)];
        changed := if e.mac == mac then [] else [ip];
        return;
      }
      var fam := FamilyOf(ip);
      var v1 := MakeRoom(fam, Some(mac), cap.PerMac(fam));
      var v2 := MakeRoom(fam, None, cap.Global(fam));
      seqNo := seqNo + 1;
      entries := entries[ip := Entry(mac, seqNo, now)];
      changed := v1 + v2 + [ip];
    }

    method Remove(ip: Ip) returns (existed: bool)
      modifies this`entries
      ensures Value() == old(Removed(Value(), ip))
      ensures existed <==> ip in old(entries)
    {
      existed := ip in entries;
      entries := entries - {ip};
    }
  }

  lemma LearnKeepsOrder(cap: Caps, s: Store, ip: Ip, mac: Mac, now: nat)
    requires Ordered(s)
    ensures Ordered(Learned(cap, s, ip, mac, now).0)
  {
  }

  // ---- what one step keeps ----

  lemma ScopeWithout(m: map<Ip, Entry>, ip: Ip, fam: Family, who: Option<Mac>)
    ensures Scope(m - {ip}, fam, who) == Scope(m, fam, who) - {ip}
  {
  }

  lemma ScopeWith(m: map<Ip, Entry>, ip: Ip, e: Entry, fam: Family, who: Option<Mac>)
    requires ip !in m
    ensures Scope(m[ip := e], fam, who)
         == Scope(m, fam, who)
            + if FamilyOf(ip) == fam && (who.Some? ==> e.mac == who.value) then {ip} else {}
  {
  }

  /** A cap check leaves room for one more in its scope, unless the cap is zero. */
  lemma EvictMakesRoom(m: map<Ip, Entry>, fam: Family, who: Option<Mac>, cap: nat)
    requires |Scope(m, fam, who)| <= Max(1, cap)
    ensures |Scope(Evict(m, fam, who, cap).0, fam, who)| + 1 <= Max(1, cap)
  {
    var victim := Oldest(m, fam, who);
    if victim.Some? {
      ScopeWithout(m, victim.value, fam, who);
    }
  }

  /** A cap check never grows any scope. */
  lemma EvictShrinks(m: map<Ip, Entry>, fam: Family, who: Option<Mac>, cap: nat, fam': Family, who': Option<Mac>)
    ensures Scope(Evict(m, fam, who, cap).0, fam', who') <= Scope(m, fam', who')
    ensures |Scope(Evict(m, fam, who, cap).0, fam', who')| <= |Scope(m, fam', who')|
  {
    var victim := Oldest(m, fam, who);
    if victim.Some? {
      ScopeWithout(m, victim.value, fam', who');
      assert Scope(m - {victim.value}, fam', who') <= Scope(m, fam', who');
      Smaller(Scope(m - {victim.value}, fam', who'), Scope(m, fam', who'));
    }
  }

  lemma Smaller(a: set<Ip>, b: set<Ip>)
    requires a <= b
    ensures |a| <= |b|
  {
    assert b == a + (b - a);
  }

  lemma ScopeGrows(m: map<Ip, Entry>, ip: Ip, e: Entry, fam: Family, who: Option<Mac>)
    requires ip !in m
    ensures |Scope(m[ip := e], fam, who)|
         <= |Scope(m, fam, who)| + if FamilyOf(ip) == fam && (who.Some? ==> e.mac == who.value) then 1 else 0
  {
    ScopeWith(m, ip, e, fam, who);
  }

  /** An admission, taken apart: two cap checks, neither growing any scope, then one entry. */
  lemma Admission(cap: Caps, s: Store, ip: Ip, m: Mac, now: nat, fam: Family, who: Option<Mac>)
      returns (m1: map<Ip, Entry>, m2: map<Ip, Entry>)
    requires ip !in s.entries
    ensures var f := FamilyOf(ip);
            && m1 == Evict(s.entries, f, Some(m), cap.PerMac(f)).0 && m2 == Evict(m1, f, None, cap.Global(f)).0
            && |Scope(m2, fam, who)| <= |Scope(m1, fam, who)| <= |Scope(s.entries, fam, who)|
            && |Scope(Learned(cap, s, ip, m, now).0.entries, fam, who)|
               <= |Scope(m2, fam, who)| + if f == fam && (who.Some? ==> m == who.value) then 1 else 0
  {
    var f := FamilyOf(ip);
    m1 := Evict(s.entries, f, Some(m), cap.PerMac(f)).0;
    m2 := Evict(m1, f, None, cap.Global(f)).0;
    assert ip !in m1 && ip !in m2;
    EvictShrinks(s.entries, f, Some(m), cap.PerMac(f), fam, who);
    EvictShrinks(m1, f, None, cap.Global(f), fam, who);
    ScopeGrows(m2, ip, Entry(m, s.seqNo + 1, now), fam, who);
    assert Learned(cap, s, ip, m, now).0.entries == m2[ip := Entry(m, s.seqNo + 1, now)];
  }

  lemma AdmissionKeepsGlobalCap(cap: Caps, s: Store, ip: Ip, mac: Mac, now: nat, fam: Family)
    requires ip !in s.entries
    requires |Scope(s.entries, fam, None)| <= Max(1, cap.Global(fam))
    ensures |Scope(Learned(cap, s, ip, mac, now).0.entries, fam, None)| <= Max(1, cap.Global(fam))
  {
    var m1, m2 := Admission(cap, s, ip, mac, now, fam, None);
    if fam == FamilyOf(ip) {
      EvictMakesRoom(m1, fam, None, cap.Global(fam));
    }
  }

  lemma LearnKeepsReached(cap: Caps, s: Store, ip: Ip, mac: Mac, now: nat)
    requires Reached(cap, s)
    ensures Reached(cap, Learned(cap, s, ip, mac, now).0)
  {
    LearnKeepsOrder(cap, s, ip, mac, now);
    var after := Learned(cap, s, ip, mac, now).0;
    forall fam ensures |Scope(after.entries, fam, None)| <= Max(1, cap.Global(fam)) {
      if ip in s.entries {
        assert Scope(after.entries, fam, None) == Scope(s.entries, fam, None);
      } else {
        AdmissionKeepsGlobalCap(cap, s, ip, mac, now, fam);
      }
    }
  }

  // ---- main results ----

  /** The victim does not depend on the order the hash map is walked in, and is strictly
      older than every other entry of its scope. */
  lemma VictimIsUnique(s: Store, fam: Family, who: Option<Mac>, ip: Ip)
    requires Ordered(s)
    requires IsOldest(s.entries, Scope(s.entries, fam, who), ip)
    ensures Oldest(s.entries, fam, who) == Some(ip)
    ensures forall other | other in Scope(s.entries, fam, who) && other != ip ::
              s.entries[ip].createat < s.entries[other].createat
  {
  }

  /** Guest isolation: a mac at its cap pays for a new address with its own oldest entry of
      that family; every other entry is untouched. */
  lemma GuestIsolation(cap: Caps, s: Store, ip: Ip, mac: Mac, now: nat) returns (victim: Ip)
    requires Reached(cap, s)
    requires ip !in s.entries
    requires |Scope(s.entries, FamilyOf(ip), Some(mac))| >= Max(1, cap.PerMac(FamilyOf(ip)))
    ensures IsOldest(s.entries, Scope(s.entries, FamilyOf(ip), Some(mac)), victim)
    ensures Learned(cap, s, ip, mac, now)
         == (Store((s.entries - {victim})[ip := Entry(mac, s.seqNo + 1, now)], s.seqNo + 1), [victim, ip])
  {
    var fam := FamilyOf(ip);
    victim := Oldest(s.entries, fam, Some(mac)).value;
    var m1 := s.entries - {victim};
    ScopeWithout(s.entries, victim, fam, None);
    assert victim in Scope(s.entries, fam, None);
    assert Evict(m1, fam, None, cap.Global(fam)) == (m1, []);
    assert [victim] + [] + [ip] == [victim, ip];
  }

  /** One learn never has two victims. */
  lemma AtMostOneVictim(cap: Caps, s: Store, ip: Ip, mac: Mac, now: nat)
    requires Reached(cap, s)
    ensures |Learned(cap, s, ip, mac, now).1| <= 2
  {
    var fam := FamilyOf(ip);
    if ip !in s.entries && |Scope(s.entries, fam, Some(mac))| >= Max(1, cap.PerMac(fam)) {
      var _ := GuestIsolation(cap, s, ip, mac, now);
    }
  }

  /** The reported list holds exactly the addresses whose binding differs, each once. */
  lemma ChangedIsTheDiff(cap: Caps, s: Store, ip: Ip, mac: Mac, now: nat)
    ensures var (after, changed) := Learned(cap, s, ip, mac, now);
            && (forall x :: x in changed <==> Binding(s, x) != Binding(after, x))
            && (forall i, j | 0 <= i < j < |changed| :: changed[i] != changed[j])
  {
    if ip !in s.entries {
      var fam := FamilyOf(ip);
      var (m1, v1) := Evict(s.entries, fam, Some(mac), cap.PerMac(fam));
      var (m2, v2) := Evict(m1, fam, None, cap.Global(fam));
      assert Learned(cap, s, ip, mac, now).1 == v1 + v2 + [ip];
      assert forall x :: x in v1 + v2 + [ip] <==> x in v1 || x in v2 || x == ip;
    }
  }

  // ---- whole runs ----

  datatype Op = Learn(ip: Ip, mac: Mac, now: nat) | Remove(gone: Ip)

  ghost function Apply(cap: Caps, s: Store, op: Op): Store {
    match op
    case Learn(ip, mac, now) => Learned(cap, s, ip, mac, now).0
    case Remove(ip) => Removed(s, ip)
  }

  ghost function Run(cap: Caps, ops: seq<Op>): Store {
    if ops == [] then EMPTY else Apply(cap, Run(cap, ops[..|ops| - 1]), ops[|ops| - 1])
  }

  lemma RemoveKeepsReached(cap: Caps, s: Store, ip: Ip)
    requires Reached(cap, s)
    ensures Reached(cap, Removed(s, ip))
  {
    forall fam ensures |Scope(Removed(s, ip).entries, fam, None)| <= Max(1, cap.Global(fam)) {
      ScopeWithout(s.entries, ip, fam, None);
      Smaller(Scope(Removed(s, ip).entries, fam, None), Scope(s.entries, fam, None));
    }
  }

  /** Every store a run can reach hands out distinct ages and respects the global caps. */
  lemma {:induction false} RunsStayReached(cap: Caps, ops: seq<Op>)
    ensures Reached(cap, Run(cap, ops))
  {
    if ops == [] {
      assert forall fam :: Scope(EMPTY.entries, fam, None) == {};
    } else {
      RunsStayReached(cap, ops[..|ops| - 1]);
      var s := Run(cap, ops[..|ops| - 1]);
      match ops[|ops| - 1]
      case Learn(ip, mac, now) => LearnKeepsReached(cap, s, ip, mac, now);
      case Remove(ip) => RemoveKeepsReached(cap, s, ip);
    }
  }

  /** An existing address of family `fam` changes hands to `mac`; no cap is checked then. */
  predicate IsMove(s: Store, op: Op, fam: Family, mac: Mac) {
    && op.Learn?
    && op.mac == mac
    && FamilyOf(op.ip) == fam
    && op.ip in s.entries
    && s.entries[op.ip].mac != mac
  }

  ghost function Moves(cap: Caps, ops: seq<Op>, fam: Family, mac: Mac): nat {
    if ops == [] then 0
    else
      var init := ops[..|ops| - 1];
      Moves(cap, init, fam, mac) + if IsMove(Run(cap, init), ops[|ops| - 1], fam, mac) then 1 else 0
  }

  /** How one operation can change a mac's count: a move adds at most one, anything else
      leaves it below the cap or no larger than it was. */
  lemma CountAfter(cap: Caps, s: Store, op: Op, fam: Family, mac: Mac)
    requires Reached(cap, s)
    ensures var before, after := |Scope(s.entries, fam, Some(mac))|, |Scope(Apply(cap, s, op).entries, fam, Some(mac))|;
            if IsMove(s, op, fam, mac) then after == before + 1
            else after <= Max(before, Max(1, cap.PerMac(fam)))
  {
    var who := Some(mac);
    var after := Scope(Apply(cap, s, op).entries, fam, who);
    match op
    case Remove(ip) =>
      ScopeWithout(s.entries, ip, fam, who);
      Smaller(after, Scope(s.entries, fam, who));
    case Learn(ip, m, now) =>
      if IsMove(s, op, fam, mac) {
        assert after == Scope(s.entries, fam, who) + {ip};
      } else if ip in s.entries {
        Smaller(after, Scope(s.entries, fam, who));
      } else {
        AdmissionCount(cap, s, ip, m, now, fam, mac);
      }
  }

  /** A fresh admission at or above the cap never raises the mac's count. */
  lemma AdmissionCount(cap: Caps, s: Store, ip: Ip, m: Mac, now: nat, fam: Family, mac: Mac)
    requires ip !in s.entries
    ensures var before := |Scope(s.entries, fam, Some(mac))|;
            |Scope(Learned(cap, s, ip, m, now).0.entries, fam, Some(mac))| <= Max(before, Max(1, cap.PerMac(fam)))
  {
    var m1, m2 := Admission(cap, s, ip, m, now, fam, Some(mac));
    if fam == FamilyOf(ip) && m == mac && |Scope(s.entries, fam, Some(mac))| >= cap.PerMac(fam) {
      EvictFromFull(s.entries, fam, Some(mac), cap.PerMac(fam));
    }
  }

  lemma EvictFromFull(m: map<Ip, Entry>, fam: Family, who: Option<Mac>, cap: nat)
    requires |Scope(m, fam, who)| >= cap
    ensures |Scope(Evict(m, fam, who, cap).0, fam, who)| <= Max(0, |Scope(m, fam, who)| - 1)
  {
    var victim := Oldest(m, fam, who);
    if victim.Some? {
      ScopeWithout(m, victim.value, fam, who);
    }
  }

  /** Over a whole run a mac holds at most its cap plus what was moved to it. */
  lemma {:induction false} PerMacBound(cap: Caps, ops: seq<Op>, fam: Family, mac: Mac)
    ensures |Scope(Run(cap, ops).entries, fam, Some(mac))| <= Max(1, cap.PerMac(fam)) + Moves(cap, ops, fam, mac)
  {
    if ops == [] {
      assert Scope(EMPTY.entries, fam, Some(mac)) == {};
    } else {
      var init := ops[..|ops| - 1];
      PerMacBound(cap, init, fam, mac);
      RunsStayReached(cap, init);
      CountAfter(cap, Run(cap, init), ops[|ops| - 1], fam, mac);
    }
  }
}
