/**
 What the kernel path does to a frame, as functions: the meaning both engines are compared
 with. Offsets count from the start of the Ethernet header; IPv4 options, IPv6 extension
 headers and VLAN tags are outside the fixed-offset layout.
 */
module Datapath {
  import opened Types
  import opened Bytes
  import opened Checksum

  const ETH_IP4 := 0x0800
  const ETH_ARP := 0x0806
  const ETH_IP6 := 0x86dd

  const BROADCAST: Mac := [0xff, 0xff, 0xff, 0xff, 0xff, 0xff]

  datatype Conf = Conf(hostmac: Mac, brmac: Option<Mac>, up0: nat, fwd0: nat)

  datatype Tables = Tables(host: set<Ip>, ip2mac: map<Ip, Mac>)

  datatype PktType = PktHost | PktBroadcast | PktMulticast | PktOtherHost

  datatype Verdict = Accept | Drop | Redirect(ifx: nat)

  /** At least an Ethernet header. */
  type Frame = f: seq<byte> | |f| >= 14 witness Zeros(14)

  datatype Clone = Clone(ifx: nat, frame: Frame)

  datatype Outcome = Outcome(verdict: Verdict, frame: Frame, clones: seq<Clone>)

  function EthType(f: Frame): nat {
    Num16(f[12..14])
  }

  function Dst(f: Frame): Mac {
    f[0..6]
  }

  function Src(f: Frame): Mac {
    f[6..12]
  }

  /** How bpf_skb_load_bytes fills its buffer: zeros when the range is not in the frame. */
  function Peek(f: seq<byte>, off: nat, n: nat): (b: seq<byte>)
    ensures |b| == n
  {
    if Fits(f, off, n) then f[off..off + n] else Zeros(n)
  }

  // ---- inbound ----

  /** The address a frame is for: IP destination or ARP target. */
  function DestIp(f: Frame): Option<Ip> {
    if EthType(f) == ETH_IP4 && Fits(f, 30, 4) then Some(V4(f[30..34]))
    else if EthType(f) == ETH_IP6 && Fits(f, 38, 16) then Some(V6(f[38..54]))
    else if EthType(f) == ETH_ARP && Fits(f, 38, 4) then Some(V4(f[38..42]))
    else None
  }

  /** Addressed to a guest: the frame as the guest should see it. */
  function Demuxed(f: Frame, mac: Mac): Frame {
    Store(if EthType(f) == ETH_ARP then Store(f, 32, mac) else f, 0, mac)
  }

  /** The address the eBPF program looks up: a frame too short for it leaves a cleared buffer. */
  function PeekedDest(f: Frame): Option<Ip> {
    if EthType(f) == ETH_IP4 then Some(V4(Peek(f, 30, 4)))
    else if EthType(f) == ETH_IP6 then Some(V6(Peek(f, 38, 16)))
    else if EthType(f) == ETH_ARP then Some(V4(Peek(f, 38, 4)))
    else None
  }

  /** The inbound rows, in order: reflected frames die, the host keeps what is its own, group
      frames are shared with the guests, and frames for a guest are handed to it. */
  function Inbound(conf: Conf, t: Tables, f: Frame, pkt: PktType, direct: bool): Outcome {
    InboundTo(conf, t, f, pkt, direct, DestIp(f))
  }

  /** The same for a frame taken to be for `dest`. */
  function InboundTo(conf: Conf, t: Tables, f: Frame, pkt: PktType, direct: bool, dest: Option<Ip>): Outcome {
    var addressed := Dst(f) == conf.hostmac;
    if Src(f) == conf.hostmac then Outcome(Drop, f, [])
    else if dest.Some? && dest.value in t.host && (addressed || EthType(f) == ETH_ARP) then Outcome(Accept, f, [])
    else if !direct && (pkt == PktBroadcast || pkt == PktMulticast) then Outcome(Accept, f, [Clone(conf.fwd0, f)])
    else if addressed && dest.Some? && dest.value in t.ip2mac then
      Outcome(if direct then Accept else Redirect(conf.fwd0), Demuxed(f, t.ip2mac[dest.value]), [])
    else Outcome(Accept, f, [])
  }

  /** An IP or ARP frame too short for its destination, with the all-zero address in a table:
      the lookup decides what it should not. A host address hides a group frame from the guests;
      a guest's takes a frame addressed to HOSTMAC away, or renames it. */
  predicate Misled(conf: Conf, t: Tables, f: Frame, pkt: PktType, direct: bool) {
    && DestIp(f).None? && PeekedDest(f).Some? && Src(f) != conf.hostmac
    && var zero, group := PeekedDest(f).value, !direct && (pkt == PktBroadcast || pkt == PktMulticast);
       if zero in t.host && (Dst(f) == conf.hostmac || EthType(f) == ETH_ARP) then group
       else
         && !group && Dst(f) == conf.hostmac && zero in t.ip2mac
         && (direct ==> Demuxed(f, t.ip2mac[zero]) != f)
  }

  lemma PeekedDestIs(f: Frame)
    ensures DestIp(f).Some? ==> PeekedDest(f) == DestIp(f)
    ensures DestIp(f).None? && PeekedDest(f).Some? ==> PeekedDest(f).value in {V4(Zeros(4)), V6(Zeros(16))}
  {
  }

  /** Looking up a cleared buffer changes the outcome exactly then. */
  lemma PeekedIff(conf: Conf, t: Tables, f: Frame, pkt: PktType, direct: bool)
    ensures InboundTo(conf, t, f, pkt, direct, PeekedDest(f)) == Inbound(conf, t, f, pkt, direct)
       <==> !Misled(conf, t, f, pkt, direct)
  {
    PeekedDestIs(f);
  }

  // ---- outbound ----

  /** Update the checksum field at `at` by a difference of covered words. */
  function CsumAt(f: seq<byte>, at: nat, diff: nat): (r: seq<byte>)
    ensures |r| == |f|
  {
    if Fits(f, at, 2) then Store(f, at, Be16(Replaced(Num16(f[at..at + 2]), diff))) else f
  }

  const CSUM := 56

  predicate HasOption(f: seq<byte>, off: nat, want: byte, hostmac: Mac) {
    Fits(f, off, 8) && f[off] == want && f[off + 2..off + 8] != hostmac
  }

  /** nd_rewrite: HOSTMAC into the link-layer option at `off`, checksum adjusted. */
  function NdRewritten(f: seq<byte>, off: nat, want: byte, hostmac: Mac): (r: seq<byte>)
    ensures |r| == |f|
  {
    if !HasOption(f, off, want, hostmac) then f
    else
      var newopt := f[off..off + 2] + hostmac;
      Store(CsumAt(f, CSUM, CsumDiff(f[off..off + 8], newopt)), off + 2, hostmac)
  }

  function Normalized(f: seq<byte>, hostmac: Mac): seq<byte> {
    Store(f, 6, hostmac)
  }

  predicate IsDhcp(f: Frame) {
    EthType(f) == ETH_IP4 && Peek(f, 23, 1) == [17] && Peek(f, 34, 2) == Be16(68) && Peek(f, 36, 2) == Be16(67)
  }

  function Icmp6Type(f: Frame): byte {
    if EthType(f) == ETH_IP6 && Peek(f, 20, 1) == [58] then Peek(f, 54, 1)[0] else 0
  }

  function Src6(f: Frame): Ip {
    V6(Peek(f, 22, 16))
  }

  function Target6(f: Frame): Ip {
    V6(Peek(f, 62, 16))
  }

  function Src4(f: Frame): Ip {
    V4(Peek(f, 26, 4))
  }

  function Spa(f: Frame): Ip {
    V4(Peek(f, 28, 4))
  }

  const UNSPEC6 := V6(Zeros(16))

  /** The neighbour-discovery payload as it may leave: HOSTMAC in place of the guest's mac. */
  function NdOut(f: Frame, hostmac: Mac): Frame {
    var t := Icmp6Type(f);
    if t == 135 && Src6(f) != UNSPEC6 then NdRewritten(f, 78, 1, hostmac)
    else if t == 136 then NdRewritten(f, 78, 2, hostmac)
    else if t == 133 && Src6(f) != UNSPEC6 then NdRewritten(f, 62, 1, hostmac)
    else f
  }

  /** The payload edits of each protocol: DHCP asks for broadcast replies and drops its
      checksum, ARP and neighbour discovery name HOSTMAC. */
  function PayloadOut(f: Frame, hostmac: Mac): Frame {
    if EthType(f) == ETH_IP4 then
      if IsDhcp(f) then Store(Store(f, 52, [0x80, 0]), 40, [0, 0]) else f
    else if EthType(f) == ETH_ARP then Store(f, 22, hostmac)
    else if EthType(f) == ETH_IP6 then NdOut(f, hostmac)
    else f
  }

  predicate IsIpOrArp(f: Frame) {
    EthType(f) == ETH_IP4 || EthType(f) == ETH_ARP || EthType(f) == ETH_IP6
  }

  /** The frame that leaves, when it is not dropped; other ethertypes pass as they are. */
  function OutFrame(f: Frame, hostmac: Mac): Frame {
    if IsIpOrArp(f) then Normalized(PayloadOut(f, hostmac), hostmac) else f
  }

  /** Frames that claim to be ours are stopped: in fwd mode always, in direct mode when they
      came in through another port. */
  predicate Refused(conf: Conf, f: Frame, direct: bool, ingress: nat) {
    if Src(f) == conf.hostmac then !direct || ingress != 0
    else !direct && conf.brmac == Some(Src(f))
  }

  /** The outbound rows: what claims to be ours is stopped or, the host's own, passed; the rest
      leaves as it may. */
  function Outbound(conf: Conf, f: Frame, direct: bool, ingress: nat): Outcome {
    if Refused(conf, f, direct, ingress) then Outcome(Drop, f, [])
    else if Src(f) == conf.hostmac then Outcome(Accept, f, [])
    else Outcome(if direct then Accept else Redirect(conf.up0), OutFrame(f, conf.hostmac), [])
  }

  predicate Known(t: Tables, ip: Ip, mac: Mac) {
    ip in t.ip2mac && t.ip2mac[ip] == mac
  }

  /** The binding a frame teaches, if any, and the address it proves alive. */
  function Teaches(t: Tables, f: Frame): (Option<Ip>, Option<Ip>) {
    if EthType(f) == ETH_IP4 then
      if IsDhcp(f) then (None, None)
      else if Known(t, Src4(f), Src(f)) then (None, Some(Src4(f)))
      else (Some(Src4(f)), None)
    else if EthType(f) == ETH_ARP then (Some(Spa(f)), Some(Spa(f)))
    else if EthType(f) == ETH_IP6 then
      var ty := Icmp6Type(f);
      if ty == 135 then
        var ip := if Src6(f) == UNSPEC6 then Target6(f) else Src6(f);
        (Some(ip), Some(ip))
      else if ty == 136 then (Some(Target6(f)), Some(Target6(f)))
      else if ty == 133 then
        if Src6(f) == UNSPEC6 then (None, None) else (Some(Src6(f)), Some(Src6(f)))
      else if Known(t, Src6(f), Src(f)) then (None, Some(Src6(f)))
      else if Src6(f) == UNSPEC6 then (None, None)
      else (Some(Src6(f)), None)
    else (None, None)
  }

  // ---- up0 egress: the guard and silent-guest discovery ----

  predicate DiscoversArp(t: Tables, f: Frame) {
    && EthType(f) == ETH_ARP
    && Dst(f) == BROADCAST
    && Peek(f, 20, 2) == Be16(1)
    && Spa(f) != V4(Zeros(4))
    && Spa(f) !in t.ip2mac
  }

  predicate DiscoversNs(t: Tables, f: Frame) {
    && EthType(f) == ETH_IP6
    && Peek(f, 20, 1) == [58]
    && f[0] == 0x33 && f[1] == 0x33
    && Peek(f, 54, 1) == [135]
    && Src6(f) != UNSPEC6
    && Src6(f) !in t.ip2mac
    && Fits(f, 78, 4) && f[78] == 1
  }

  function FirstOption(f: seq<byte>): (o: seq<byte>)
    requires Fits(f, 78, 4)
    ensures |o| == 4
  {
    f[78..82]
  }

  function Neutral(o: seq<byte>): (n: seq<byte>)
    requires |o| == 4
    ensures |n| == 4
  {
    [200] + o[1..]
  }

  /** The solicitation made anonymous: source ::, first option of unassigned type. */
  function Anonymous(f: seq<byte>): (r: seq<byte>)
    requires Fits(f, 78, 4)
    ensures |r| == |f|
  {
    var o := FirstOption(f);
    var f1 := CsumAt(f, CSUM, CsumDiff(f[22..38], Zeros(16)));
    var f2 := CsumAt(f1, CSUM, CsumDiff(o, Neutral(o)));
    Store(Store(f2, 22, Zeros(16)), 78, [200])
  }

  /** The edits taken back: source `src`, option `o`. */
  function Named(f: seq<byte>, src: seq<byte>, o: seq<byte>): (r: seq<byte>)
    requires Fits(f, 78, 4) && |src| == 16 && |o| == 4
    ensures |r| == |f|
  {
    var f1 := CsumAt(f, CSUM, CsumDiff(Zeros(16), src));
    var f2 := CsumAt(f1, CSUM, CsumDiff(Neutral(o), o));
    Store(Store(f2, 22, src), 78, [o[0]])
  }

  function Guarded(conf: Conf, t: Tables, f: Frame): Outcome {
    var g := if Src(f) != conf.hostmac then Normalized(f, conf.hostmac) else f;
    if DiscoversArp(t, g) then
      var anon := Store(g, 28, Zeros(4));
      Outcome(Accept, Store(anon, 28, Spa(g).o4), [Clone(conf.fwd0, anon)])
    else if DiscoversNs(t, g) then
      var anon := Anonymous(g);
      Outcome(Accept, Named(anon, g[22..38], FirstOption(g)), [Clone(conf.fwd0, anon)])
    else Outcome(Accept, g, [])
  }
}
