/**
 The nf_tables virtual machine, as far as pbridge's rules use it: sixty-four bytes of
 registers, expressions that load, compare, look up, write and decide, rules that stop at the
 first mismatch, and chains that try rule after rule (src/backend/nft/wire.rs:198-320).
 */
module NftMachine {
  import opened Types
  import opened Bytes
  import opened Checksum
  import opened Datapath

  const REG_1 := 1
  const REG_2 := 2
  const REG_3 := 3
  const REG32_01 := 9

  datatype MetaKey = MetaProtocol | MetaL4proto | MetaPkttype

  datatype Base = LinkHeader | NetworkHeader | TransportHeader

  datatype SetName = Ip2mac(fam: Family) | Valid(fam: Family) | Host(fam: Family) | Seen(fam: Family)

  datatype Expr =
    | MetaLoad(key: MetaKey, dreg: nat)
    | Cmp(sreg: nat, equal: bool, value: seq<byte>)
    | PayloadLoad(base: Base, off: nat, len: nat, dreg: nat)
    | PayloadSet(base: Base, off: nat, len: nat, sreg: nat, csum: Option<nat>)
    | Immediate(dreg: nat, value: seq<byte>)
    | Lookup(name: SetName, sreg: nat, mapTo: Option<nat>)
    | LookupInv(name: SetName, sreg: nat)
    | DynsetUpdate(name: SetName, sreg: nat)
    | Log(prefix: char)
    | FwdTo(sreg: nat)
    | DupTo(sreg: nat)
    | Decide(verdict: Verdict)
    | Jump

  type Rule = seq<Expr>

  /** The sets a lookup consults, and the packet type the driver assigned. */
  datatype Env = Env(t: Tables, valid: set<(Ip, Mac)>, pkt: PktType)

  datatype Status = Running | Mismatch | Jumping | Done(v: Verdict)

  datatype Copy = Copy(prefix: char, frame: Frame)

  type Regs = r: seq<byte> | |r| == 64 witness Zeros(64)

  datatype Machine = Machine(
    frame: Frame,
    regs: Regs,
    status: Status,
    dups: seq<Clone>,
    logs: seq<Copy>,
    marks: seq<Ip>)

  /** Classic registers are 16 bytes, the 32-bit ones alias them. */
  function RegOff(r: nat): nat {
    if 1 <= r <= 4 then 16 * (r - 1) else if 8 <= r < 24 then 4 * (r - 8) else 64
  }

  /** A register write clears the rest of its last 32-bit word. */
  function Padded(v: seq<byte>): seq<byte> {
    v + Zeros((4 - |v| % 4) % 4)
  }

  function Written(regs: Regs, r: nat, v: seq<byte>): Regs {
    Store(regs, RegOff(r), Padded(v))
  }

  function Reg(regs: Regs, r: nat, n: nat): (v: seq<byte>)
    ensures |v| == n
  {
    Peek(regs, RegOff(r), n)
  }

  function PktCode(p: PktType): byte {
    match p
    case PktHost => 0
    case PktBroadcast => 1
    case PktMulticast => 2
    case PktOtherHost => 3
  }

  /** The transport protocol and header of an IP frame whose network header is all there. */
  function L4(f: Frame): Option<(byte, nat)> {
    if EthType(f) == ETH_IP4 && |f| >= 34 then Some((f[23], 34))
    else if EthType(f) == ETH_IP6 && |f| >= 54 then Some((f[20], 54))
    else None
  }

  function Start(f: Frame, base: Base): Option<nat> {
    match base
    case LinkHeader => Some(0)
    case NetworkHeader => Some(14)
    case TransportHeader => if L4(f).Some? then Some(L4(f).value.1) else None
  }

  function KeyIp(fam: Family, regs: Regs, sreg: nat): Ip {
    if fam == Fam4 then V4(Reg(regs, sreg, 4)) else V6(Reg(regs, sreg, 16))
  }

  /** Membership; a concatenated key is the address, the mac and its two padding bytes. */
  predicate Member(env: Env, name: SetName, regs: Regs, sreg: nat) {
    match name
    case Ip2mac(fam) => KeyIp(fam, regs, sreg) in env.t.ip2mac
    case Host(fam) => KeyIp(fam, regs, sreg) in env.t.host
    case Seen(_) => false
    case Valid(fam) =>
      var n := if fam == Fam4 then 4 else 16;
      var key := Reg(regs, sreg, n + 8);
      key[n + 6..] == [0, 0] && (KeyIp(fam, regs, sreg), key[n..n + 6]) in env.valid
  }

  /** payload_set's fix of an inet checksum; a zero result is stored as all ones. */
  function Mangled(c: nat, from: seq<byte>, to: seq<byte>): (r: nat)
    requires c <= ALL_ONES
    ensures r <= ALL_ONES
  {
    WordSumBound(from);
    var x := (ALL_ONES - c) + (65535 * Words(from) - WordSum(from)) + WordSum(to);
    if Fold(x) == ALL_ONES then ALL_ONES else ALL_ONES - Fold(x)
  }

  function PayloadWrite(f: Frame, at: nat, v: seq<byte>, csumAt: Option<nat>): Option<Frame> {
    if !Fits(f, at, |v|) || (csumAt.Some? && !Fits(f, csumAt.value, 2)) then None
    else
      var g := if csumAt.None? then f
               else
                 var c := csumAt.value;
                 Store(f, c, Be16(Mangled(Num16(f[c..c + 2]), f[at..at + |v|], v)));
      Some(Store(g, at, v))
  }

  /** Write register bytes into the frame; the checksum offset counts from the same header. */
  function ExecSet(m: Machine, start: Option<nat>, off: nat, v: seq<byte>, csum: Option<nat>): Machine {
    if start.None? then m.(status := Mismatch)
    else
      var csumAt := if csum.Some? then Some(start.value + csum.value) else None;
      var g := PayloadWrite(m.frame, start.value + off, v, csumAt);
      if g.Some? then m.(frame := g.value) else m.(status := Mismatch)
  }

  /** One expression on a running machine. */
  function Exec(env: Env, e: Expr, m: Machine): Machine {
    match e
    case MetaLoad(MetaProtocol, r) => m.(regs := Written(m.regs, r, Be16(EthType(m.frame))))
    case MetaLoad(MetaPkttype, r) => m.(regs := Written(m.regs, r, [PktCode(env.pkt)]))
    case MetaLoad(MetaL4proto, r) =>
      if L4(m.frame).Some? then m.(regs := Written(m.regs, r, [L4(m.frame).value.0])) else m.(status := Mismatch)
    case Cmp(r, equal, v) => if (Reg(m.regs, r, |v|) == v) == equal then m else m.(status := Mismatch)
    case PayloadLoad(base, off, len, r) =>
      var start := Start(m.frame, base);
      if start.Some? && Fits(m.frame, start.value + off, len)
      then m.(regs := Written(m.regs, r, m.frame[start.value + off..start.value + off + len]))
      else m.(status := Mismatch)
    case PayloadSet(base, off, len, r, csum) => ExecSet(m, Start(m.frame, base), off, Reg(m.regs, r, len), csum)
    case Immediate(r, v) => m.(regs := Written(m.regs, r, v))
    case Lookup(name, r, mapTo) =>
      if !Member(env, name, m.regs, r) then m.(status := Mismatch)
      else if mapTo.None? || !name.Ip2mac? then m
      else m.(regs := Written(m.regs, mapTo.value, env.t.ip2mac[KeyIp(name.fam, m.regs, r)]))
    case LookupInv(name, r) => if Member(env, name, m.regs, r) then m.(status := Mismatch) else m
    case DynsetUpdate(name, r) => m.(marks := m.marks + [KeyIp(name.fam, m.regs, r)])
    case Log(prefix) => m.(logs := m.logs + [Copy(prefix, m.frame)])
    case FwdTo(r) => m.(status := Done(Redirect(NumLe32(Reg(m.regs, r, 4)))))
    case DupTo(r) => m.(dups := m.dups + [Clone(NumLe32(Reg(m.regs, r, 4)), m.frame)])
    case Decide(v) => m.(status := Done(v))
    case Jump => m.(status := Jumping)
  }

  function Run(env: Env, rule: Rule, m: Machine): Machine
    decreases |rule|
  {
    if rule == [] || m.status != Running then m else Run(env, rule[1..], Exec(env, rule[0], m))
  }

  /** Rule after rule until one decides; `sub` is the chain a jump enters and returns from. */
  function Chain(env: Env, rules: seq<Rule>, i: nat, sub: seq<Rule>, m: Machine): Machine
    requires i <= |rules|
    decreases |sub| + |rules| - i
  {
    if i == |rules| then m
    else
      var r := Run(env, rules[i], m);
      if r.status.Done? then r
      else
        var s := if r.status.Jumping? then Chain(env, sub, 0, [], r.(status := Running)) else r.(status := Running);
        if s.status.Done? then s else Chain(env, rules, i + 1, sub, s)
  }

  function Boot(f: Frame): Machine {
    Machine(f, Zeros(64), Running, [], [], [])
  }

  /** Falling off a base chain accepts. */
  function Final(m: Machine): Verdict {
    if m.status.Done? then m.status.v else Accept
  }

  // ---- how rules compose ----

  lemma {:induction false} RunAppend(env: Env, a: Rule, b: Rule, m: Machine)
    ensures Run(env, a + b, m) == Run(env, b, Run(env, a, m))
    decreases |a|
  {
    if a == [] {
      assert a + b == b;
    } else if m.status == Running {
      RunAppend(env, a[1..], b, Exec(env, a[0], m));
      assert (a + b)[1..] == a[1..] + b;
    }
  }

  lemma Run1(env: Env, a: Expr, m: Machine)
    requires m.status == Running
    ensures Run(env, [a], m) == Exec(env, a, m)
  {
  }

  lemma Run2(env: Env, a: Expr, b: Expr, m: Machine)
    requires m.status == Running
    ensures Run(env, [a, b], m) == if Exec(env, a, m).status == Running then Exec(env, b, Exec(env, a, m)) else Exec(env, a, m)
  {
    assert [a] + [b] == [a, b];
    RunAppend(env, [a], [b], m);
    Run1(env, a, m);
    if Exec(env, a, m).status == Running {
      Run1(env, b, Exec(env, a, m));
    }
  }

  lemma Stopped(env: Env, rule: Rule, m: Machine)
    requires m.status != Running
    ensures Run(env, rule, m) == m
  {
  }

  /** Only registers and status may differ. */
  predicate SameEffects(m: Machine, n: Machine) {
    n == m.(regs := n.regs, status := n.status)
  }

  /** A block used as a condition: it goes on exactly when `cond` holds, spoils nothing but
      registers, and leaves the third one alone. */
  predicate Tested(m: Machine, n: Machine, cond: bool) {
    && SameEffects(m, n)
    && n.status == (if cond then Running else Mismatch)
    && n.regs[32..48] == m.regs[32..48]
  }

  lemma WrittenReg(regs: Regs, r: nat, v: seq<byte>)
    requires (r == REG_1 && |v| <= 16) || (r == REG_3 && |v| <= 16)
    ensures Reg(Written(regs, r, v), r, |v|) == v
    ensures r == REG_1 ==> Written(regs, r, v)[32..48] == regs[32..48]
  {
    var p := Padded(v);
    StoredThere(regs, RegOff(r), p);
    assert Written(regs, r, v)[RegOff(r)..RegOff(r) + |p|][..|v|] == v;
    assert Written(regs, r, v)[RegOff(r)..RegOff(r) + |v|] == v;
  }

  function LoadOk(f: Frame, base: Base, off: nat, len: nat): bool {
    Start(f, base).Some? && Fits(f, Start(f, base).value + off, len)
  }

  function Loaded(f: Frame, base: Base, off: nat, len: nat): seq<byte>
    requires LoadOk(f, base, off, len)
  {
    f[Start(f, base).value + off..Start(f, base).value + off + len]
  }

  lemma LoadCmp(env: Env, base: Base, off: nat, len: nat, equal: bool, v: seq<byte>, m: Machine)
    requires m.status == Running && len == |v| <= 16
    ensures Tested(m, Run(env, [PayloadLoad(base, off, len, REG_1), Cmp(REG_1, equal, v)], m),
                   LoadOk(m.frame, base, off, len) && (Loaded(m.frame, base, off, len) == v) == equal)
  {
    Run2(env, PayloadLoad(base, off, len, REG_1), Cmp(REG_1, equal, v), m);
    if LoadOk(m.frame, base, off, len) {
      LoadsReg(env, base, off, len, m);
    }
  }

  lemma LoadsReg(env: Env, base: Base, off: nat, len: nat, m: Machine)
    requires LoadOk(m.frame, base, off, len) && len <= 16
    ensures var n := Exec(env, PayloadLoad(base, off, len, REG_1), m);
            && n == m.(regs := n.regs)
            && Reg(n.regs, REG_1, len) == Loaded(m.frame, base, off, len)
            && n.regs[32..48] == m.regs[32..48]
  {
    WrittenReg(m.regs, REG_1, Loaded(m.frame, base, off, len));
  }

  lemma SetExec(env: Env, e: Expr, start: nat, v: seq<byte>, m: Machine)
    requires e.PayloadSet? && Start(m.frame, e.base) == Some(start) && Reg(m.regs, e.sreg, e.len) == v
    ensures Exec(env, e, m) == ExecSet(m, Some(start), e.off, v, e.csum)
  {
  }
}
