/**
 Control plane and datapath together: the frames of a run meet the tables the syncer has
 installed by then. Which answers keep a proxied guest alive, when a frame sent again after
 being learned is echoed to the guests, and that no lookup finds a cleared buffer.
 */
module EndToEnd {
  import opened Types
  import opened Bytes
  import opened Topology
  import opened Core
  import opened CoreInvariant
  import opened CoreRuns
  import opened Aging
  import B = Backend
  import D = Datapath
  import E = GuardEquivalence
  import K = NftMarks
  import L = NftLearning
  import M = NftMachine
  import N = NdEquivalence
  import O = NftOutChain
  import P = Packet
  import R = NftRules
  import Z = ZeroKeys

  type Frame = D.Frame

  // ---- the tables a frame meets ----

  function TablesOf(be: Engine): D.Tables {
    D.Tables(be.Hosts(), be.Table())
  }

  function EnvOf(be: Engine, pkt: D.PktType): M.Env {
    M.Env(TablesOf(be), if be.OnNft? then be.n.k.valid else B.Pairs(be.Table()), pkt)
  }

  function ConfOf(s: State): D.Conf {
    D.Conf(s.be.Hostmac(), s.be.Brmac(), s.snap.up0Index, if s.snap.fwd0Index.Some? then s.snap.fwd0Index.value else 0)
  }

  lemma PairsKnown(m: map<Ip, Mac>, ip: Ip, mac: Mac)
    ensures (ip, mac) in B.Pairs(m) <==> ip in m && m[ip] == mac
  {
  }

  /** In every state of a run nft's pairs are those of its table, as the comparison of the
      engines assumes. */
  lemma TablesInStep(s: State, pkt: D.PktType)
    requires Inv(s)
    ensures L.ValidInStep(EnvOf(s.be, pkt))
  {
    var env := EnvOf(s.be, pkt);
    forall ip, mac: Mac ensures (ip, mac) in env.valid <==> D.Known(env.t, ip, mac) {
      PairsKnown(env.t.ip2mac, ip, mac);
    }
  }

  /** After every run during which no interface shows the all-zero address, the eBPF program's
      inbound outcome is that of the rows for every frame, however short. */
  lemma RunsAreNotMisled(s: State, evs: seq<Event>, f: Frame, pkt: D.PktType, direct: bool)
    requires IsInitial(s) && LegalRun(s, evs) && Z.CleanWorld(s.w) && Z.CleanEvents(evs) && Run(s, evs).initialized
    ensures var t := Run(s, evs);
            D.InboundTo(ConfOf(t), TablesOf(t.be), f, pkt, direct, D.PeekedDest(f))
            == D.Inbound(ConfOf(t), TablesOf(t.be), f, pkt, direct)
  {
    var t := Run(s, evs);
    Z.TablesHoldNoZeroKeys(s, evs);
    D.PeekedDestIs(f);
    forall ip | Z.IsZero(ip) ensures ip !in t.be.Hosts() && ip !in t.be.Table() {
      assert ip !in t.be.Hosts() + t.be.Table().Keys;
    }
    D.PeekedIff(ConfOf(t), TablesOf(t.be), f, pkt, direct);
  }

  // ---- which answers are marks ----

  function Chained(s: State, f: Frame, pkt: D.PktType): M.Machine {
    var rules := if s.cfg.IsFwd() then R.OutRulesFwd(s.be.Hostmac(), s.be.Brmac(), s.snap.up0Index)
                 else R.OutRulesDirect(s.be.Hostmac());
    M.Chain(EnvOf(s.be, pkt), rules, 0, R.NdOutRules(s.be.Hostmac()), M.Boot(f))
  }

  /** The addresses the running engine marks for a frame from the guests. */
  function MarkedFor(s: State, f: Frame, pkt: D.PktType): seq<Ip> {
    if !s.initialized then []
    else if s.be.OnEbpf? then K.MarkedOn(ConfOf(s), TablesOf(s.be), f, !s.cfg.IsFwd())
    else Chained(s, f, pkt).marks
  }

  lemma NftMarksFor(s: State, f: Frame, pkt: D.PktType)
    requires s.initialized && s.be.OnNft?
    ensures MarkedFor(s, f, pkt) == if O.HeldBack(ConfOf(s), f, !s.cfg.IsFwd()) then []
                                    else O.SeenIn(EnvOf(s.be, pkt), s.be.Hostmac(), f)
  {
    if s.cfg.IsFwd() {
      O.FwdEffect(ConfOf(s), EnvOf(s.be, pkt), f);
    } else {
      O.DirectEffect(ConfOf(s), EnvOf(s.be, pkt), f);
    }
  }

  /** An ARP frame that names the guest as its sender. */
  predicate ArpFrom(f: Frame, g: Ip) {
    D.EthType(f) == D.ETH_ARP && Fits(f, 28, 4) && D.Spa(f) == g
  }

  /** An advertisement of the guest. */
  predicate Advertises(f: Frame, g: Ip) {
    D.Icmp6Type(f) == 136 && Fits(f, 62, 16) && D.Target6(f) == g
  }

  /** Every ARP frame from the guest marks it, on either engine and in either mode. */
  lemma ArpMarks(s: State, f: Frame, pkt: D.PktType, g: Ip)
    requires s.initialized && ArpFrom(f, g) && !O.HeldBack(ConfOf(s), f, !s.cfg.IsFwd())
    ensures g in MarkedFor(s, f, pkt)
  {
    if s.be.OnNft? {
      NftMarksFor(s, f, pkt);
    }
  }

  /** An advertisement marks its target on eBPF always, on nft exactly when the target is also
      its source and the frame is taken up or its source known. */
  lemma AdvertisementMarksIff(s: State, f: Frame, pkt: D.PktType, g: Ip)
    requires Inv(s) && s.initialized && Advertises(f, g) && !O.HeldBack(ConfOf(s), f, !s.cfg.IsFwd())
    ensures g in MarkedFor(s, f, pkt)
       <==> || s.be.OnEbpf?
            || (D.Src6(f) == g && (N.NdMatches(f, R.Na, s.be.Hostmac()) || D.Known(TablesOf(s.be), g, D.Src(f))))
  {
    if s.be.OnNft? {
      var env := EnvOf(s.be, pkt);
      NftMarksFor(s, f, pkt);
      TablesInStep(s, pkt);
      K.KnownIsValid6(env, f);
      L.SameType(f);
      assert f[20] == 58 && f[54] == 136;
    }
  }

  /** An answer of the guest to a probe: from its mac, ARP in its name or an advertisement sent
      from the address it advertises. */
  predicate Answers(s: State, f: Frame, g: Ip) {
    && D.Known(TablesOf(s.be), g, D.Src(f)) && !O.HeldBack(ConfOf(s), f, !s.cfg.IsFwd())
    && (ArpFrom(f, g) || (Advertises(f, g) && D.Src6(f) == g))
  }

  lemma AnswerMarks(s: State, f: Frame, pkt: D.PktType, g: Ip)
    requires Inv(s) && s.initialized && Answers(s, f, g)
    ensures g in MarkedFor(s, f, pkt)
  {
    if ArpFrom(f, g) {
      ArpMarks(s, f, pkt, g);
    } else {
      AdvertisementMarksIff(s, f, pkt, g);
    }
  }

  // ---- an answering guest is kept ----

  /** What happens in a run: an event of the syncer, or a frame from the guests. */
  datatype Input = Ev(ev: Event) | Sent(f: Frame, pkt: D.PktType, now: nat)

  function Marking(ips: seq<Ip>, now: nat): seq<Event> {
    if ips == [] then [] else [Mark(ips[0], now)] + Marking(ips[1..], now)
  }

  /** The events an input amounts to: a frame marks what the engine marks for it. */
  function EventsOf(s: State, x: Input): seq<Event> {
    match x
    case Ev(ev) => [ev]
    case Sent(f, pkt, now) => Marking(MarkedFor(s, f, pkt), now)
  }

  ghost function RunInputs(s: State, xs: seq<Input>): State
    decreases |xs|
  {
    if xs == [] then s else RunInputs(Run(s, EventsOf(s, xs[0])), xs[1..])
  }

  ghost predicate LegalInputs(s: State, xs: seq<Input>)
    decreases |xs|
  {
    xs == [] || (LegalRun(s, EventsOf(s, xs[0])) && LegalInputs(Run(s, EventsOf(s, xs[0])), xs[1..]))
  }

  /** The guest owes no answer any more once it has sent one. */
  function Awaited(g: Ip, s: State, w: Watch, x: Input): Watch {
    match x
    case Ev(ev) => Watched(g, s, w, ev)
    case Sent(f, _, now) => Watch(w.tickAt, w.pending && !Answers(s, f, g), now)
  }

  ghost predicate InputBehaved(g: Ip, s: State, w: Watch, x: Input) {
    match x
    case Ev(ev) => Behaved(g, s, w, ev)
    case Sent(_, _, now) => w.now <= now
  }

  ghost predicate InputsBehaved(g: Ip, s: State, w: Watch, xs: seq<Input>)
    decreases |xs|
  {
    xs == []
    || (InputBehaved(g, s, w, xs[0]) && InputsBehaved(g, Run(s, EventsOf(s, xs[0])), Awaited(g, s, w, xs[0]), xs[1..]))
  }

  lemma RunOne(s: State, ev: Event)
    ensures Run(s, [ev]) == Step(s, ev) && (LegalRun(s, [ev]) <==> Legal(s, ev))
  {
    assert [ev][1..] == [];
    assert Run(Step(s, ev), []) == Step(s, ev) && LegalRun(Step(s, ev), []);
  }

  /** Marks keep a kept guest, and one of them pays what it owes. */
  lemma {:induction false} MarkingKeeps(g: Ip, s: State, w: Watch, ips: seq<Ip>, now: nat)
    requires Kept(g, s, w) && w.now <= now
    ensures Kept(g, Run(s, Marking(ips, now)), Watch(w.tickAt, w.pending && g !in ips, now))
    decreases |ips|
  {
    if ips != [] {
      var ev := Mark(ips[0], now);
      var t := Step(s, ev);
      StepKeeps(g, s, w, ev);
      MarkingKeeps(g, t, Watched(g, s, w, ev), ips[1..], now);
      assert Marking(ips, now)[1..] == Marking(ips[1..], now);
      assert Run(s, Marking(ips, now)) == Run(t, Marking(ips[1..], now));
    }
  }

  lemma OwingIsWeaker(g: Ip, s: State, w: Watch, v: Watch)
    requires Kept(g, s, w) && v.tickAt == w.tickAt && v.now == w.now && (w.pending ==> v.pending)
    ensures Kept(g, s, v)
  {
  }

  lemma InputKeeps(g: Ip, s: State, w: Watch, x: Input)
    requires Kept(g, s, w) && LegalRun(s, EventsOf(s, x)) && InputBehaved(g, s, w, x)
    ensures Kept(g, Run(s, EventsOf(s, x)), Awaited(g, s, w, x))
  {
    match x
    case Ev(ev) =>
      RunOne(s, ev);
      StepKeeps(g, s, w, ev);
    case Sent(f, pkt, now) =>
      var ips := MarkedFor(s, f, pkt);
      ProxiedIsWanted(g, s);
      if Answers(s, f, g) {
        AnswerMarks(s, f, pkt, g);
      }
      MarkingKeeps(g, s, w, ips, now);
      OwingIsWeaker(g, Run(s, Marking(ips, now)), Watch(w.tickAt, w.pending && g !in ips, now), Awaited(g, s, w, x));
  }

  lemma {:induction false} InputsKeep(g: Ip, s: State, w: Watch, xs: seq<Input>)
    requires Kept(g, s, w) && LegalInputs(s, xs) && InputsBehaved(g, s, w, xs)
    ensures var t := RunInputs(s, xs); Inv(t) && Paced(t) && g in t.proxied
    decreases |xs|
  {
    if xs != [] {
      InputKeeps(g, s, w, xs[0]);
      InputsKeep(g, Run(s, EventsOf(s, xs[0])), Awaited(g, s, w, xs[0]), xs[1..]);
    }
  }

  /** In every run, frames included, on either engine: a proxied guest that answers, from its mac
      and in its own name, between each probe tick that does not refresh it and the next flush,
      is never aged out. */
  lemma AnsweringGuestIsKept(s: State, pre: seq<Event>, xs: seq<Input>, g: Ip, t: nat)
    requires IsInitial(s) && LegalRun(s, pre) && g in Run(s, pre).proxied && LegalInputs(Run(s, pre), xs)
    requires InputsBehaved(g, Run(s, pre), Watch(t, Run(s, pre).agingTick % 2 == 1, t), xs)
    ensures var d := RunInputs(Run(s, pre), xs); g in d.proxied && g in d.store.entries
  {
    var d := Run(s, pre);
    InitialInv(s);
    RunKeepsInv(s, pre);
    RunPaced(s, pre);
    ProxiedIsWanted(g, d);
    InputsKeep(g, d, Watch(t, d.agingTick % 2 == 1, t), xs);
    ProxiedIsWanted(g, RunInputs(d, xs));
  }

  // ---- learned before it is sent again ----

  /** A copied packet's reinjection, byte for byte: header, option and all but the checksum are
      those of the copy. */
  lemma ReinjectedBytes(c: Frame, hostmac: Mac)
    ensures var w := N.Reinjected(c, hostmac);
            && |w| == |c| && D.Src(w) == hostmac && D.Dst(w) == D.Dst(c) && D.EthType(w) == D.EthType(c)
            && forall i | 14 <= i < |c| && i != 56 && i != 57 :: w[i] == c[i]
  {
    var l3 := c[14..];
    if P.Complete(l3) {
      P.FixedTouchesField(l3);
    }
    var m := if P.Complete(l3) then P.Fixed(l3) else l3;
    var w := N.Reinjected(c, hostmac);
    assert w == D.Dst(c) + hostmac + Be16(D.EthType(c)) + m;
    assert w[12..14] == Be16(D.EthType(c)) && w[6..12] == hostmac && w[0..6] == D.Dst(c);
    assert forall i | 14 <= i < |c| :: w[i] == m[i - 14] && c[i] == l3[i - 14];
  }

  /** The syncer would install the binding: the address can be learned, and neither it nor the
      mac is the host's. */
  predicate Installs(s: State, ip: Ip, mac: Mac) {
    s.initialized && IsLearnable(ip) && ip !in s.snap.HostIpSet() && Some(mac) != s.snap.hostmac
  }

  lemma LearnInstallsIff(s: State, ip: Ip, mac: Mac, now: nat)
    requires Inv(s) && OnlyLearnable(s)
    ensures ip in DoLearn(s, ip, mac, now).be.Table() <==> Installs(s, ip, mac)
  {
    var t := DoLearn(s, ip, mac, now);
    StepKeepsInv(s, Learn(ip, mac, now));
    StepOnlyLearnable(s, Learn(ip, mac, now));
    LearnFrame(s, ip, mac, now);
    InvFollows(t);
    if IsLearnable(ip) {
      assert ip in t.store.entries && t.store.entries[ip].mac == mac;
    }
  }

  lemma PeekOne(f: Frame, i: nat)
    requires i < |f|
    ensures D.Peek(f, i, 1) == [f[i]]
  {
    assert f[i..i + 1] == [f[i]];
  }

  /** What the guard does with neighbour discovery that nft took up and userspace sends again. */
  lemma ResentDiscovers(t: D.Tables, f: Frame, kind: R.NdKind, hostmac: Mac)
    requires N.NdMatches(f, kind, hostmac)
    ensures var w := N.Reinjected(Store(f, N.OptAt(kind) + 2, hostmac), hostmac);
            && !D.DiscoversArp(t, w)
            && (D.DiscoversNs(t, w) <==> kind == R.Ns && f[0] == 0x33 && f[1] == 0x33 && D.Src6(f) !in t.ip2mac)
  {
    var c: Frame := Store(f, N.OptAt(kind) + 2, hostmac);
    var w := N.Reinjected(c, hostmac);
    ReinjectedBytes(c, hostmac);
    assert D.EthType(c) == D.EthType(f) by { StoredElsewhere(f, N.OptAt(kind) + 2, hostmac, 12, 2); }
    assert w[20] == 58 && w[54] == kind.Code();
    assert D.Dst(w)[0] == w[0] && D.Dst(w)[1] == w[1] && D.Dst(c)[0] == f[0] && D.Dst(c)[1] == f[1];
    assert w[22..38] == f[22..38];
    assert D.Src6(w) == D.Src6(f) == V6(f[22..38]);
    PeekOne(w, 20);
    PeekOne(w, 54);
    if kind == R.Ns {
      assert w[78] == c[78] == 1;
      assert D.Src6(f) != D.UNSPEC6;
    }
  }

  /** Userspace learns from a solicitation's copy the solicitation's source. */
  lemma CopyTeachesSource(f: Frame, hostmac: Mac)
    requires N.NdMatches(f, R.Ns, hostmac)
    ensures var c: Frame := Store(f, N.OptAt(R.Ns) + 2, hostmac);
            P.ClassifyLearn(D.EthType(c), c[14..]) == Some(D.Src6(f)) && D.Src(c) == D.Src(f)
  {
    var c: Frame := Store(f, N.OptAt(R.Ns) + 2, hostmac);
    L.SameClass(f, c, R.Ns, hostmac);
    StoredElsewhere(f, N.OptAt(R.Ns) + 2, hostmac, 12, 2);
    StoredElsewhere(f, N.OptAt(R.Ns) + 2, hostmac, 6, 6);
    L.AnySlice(f, 8, 16);
    assert P.MessageType(f[14..]) == Some(135);
  }

  /** The state after a copy was learned from. */
  ghost function AfterCopy(s: State, c: Frame, now: nat): State {
    var ip := P.ClassifyLearn(D.EthType(c), c[14..]);
    if ip.Some? then Step(s, Learn(ip.value, D.Src(c), now)) else s
  }

  lemma SentGuard(conf: D.Conf, t: D.Tables, w: Frame)
    requires D.Src(w) == conf.hostmac
    ensures D.Guarded(conf, t, w).clones == [] <==> !D.DiscoversArp(t, w) && !D.DiscoversNs(t, w)
  {
  }

  lemma SourceInstalledIff(s: State, f: Frame, hostmac: Mac, now: nat)
    requires Inv(s) && OnlyLearnable(s) && N.NdMatches(f, R.Ns, hostmac)
    ensures D.Src6(f) in AfterCopy(s, Store(f, N.OptAt(R.Ns) + 2, hostmac), now).be.Table()
       <==> Installs(s, D.Src6(f), D.Src(f))
  {
    CopyTeachesSource(f, hostmac);
    LearnInstallsIff(s, D.Src6(f), D.Src(f), now);
  }

  lemma ResentClones(conf: D.Conf, t: D.Tables, f: Frame, kind: R.NdKind)
    requires N.NdMatches(f, kind, conf.hostmac)
    ensures D.Guarded(conf, t, N.Reinjected(Store(f, N.OptAt(kind) + 2, conf.hostmac), conf.hostmac)).clones == []
       <==> !(kind == R.Ns && f[0] == 0x33 && f[1] == 0x33) || D.Src6(f) in t.ip2mac
  {
    var c: Frame := Store(f, N.OptAt(kind) + 2, conf.hostmac);
    ReinjectedBytes(c, conf.hostmac);
    SentGuard(conf, t, N.Reinjected(c, conf.hostmac));
    ResentDiscovers(t, f, kind, conf.hostmac);
  }

  /** After any run: neighbour discovery that nft took up is learned from and then sent again.
      The guard on up0 does not echo it to the guests exactly when it is no multicast
      solicitation or the syncer installs the binding just learned. */
  lemma NoEchoIff(s0: State, evs: seq<Event>, f: Frame, kind: R.NdKind, hostmac: Mac, now: nat)
    requires IsInitial(s0) && LegalRun(s0, evs) && Run(s0, evs).initialized && Run(s0, evs).snap.hostmac == Some(hostmac)
    requires N.NdMatches(f, kind, hostmac)
    ensures var s, c: Frame := Run(s0, evs), Store(f, N.OptAt(kind) + 2, hostmac);
            var t := AfterCopy(s, c, now);
            D.Guarded(ConfOf(t), TablesOf(t.be), N.Reinjected(c, hostmac)).clones == []
            <==> !(kind == R.Ns && f[0] == 0x33 && f[1] == 0x33) || Installs(s, D.Src6(f), D.Src(f))
  {
    var s, c: Frame := Run(s0, evs), Store(f, N.OptAt(kind) + 2, hostmac);
    InitialInv(s0);
    RunKeepsInv(s0, evs);
    RunOnlyLearnable(s0, evs);
    EchoIff(s, f, kind, hostmac, c, AfterCopy(s, c, now), now);
  }

  lemma EchoIff(s: State, f: Frame, kind: R.NdKind, hostmac: Mac, c: Frame, t: State, now: nat)
    requires Inv(s) && OnlyLearnable(s) && s.initialized && s.snap.hostmac == Some(hostmac)
    requires N.NdMatches(f, kind, hostmac) && c == Store(f, N.OptAt(kind) + 2, hostmac) && t == AfterCopy(s, c, now)
    ensures D.Guarded(ConfOf(t), TablesOf(t.be), N.Reinjected(c, hostmac)).clones == []
            <==> !(kind == R.Ns && f[0] == 0x33 && f[1] == 0x33) || Installs(s, D.Src6(f), D.Src(f))
  {
    CopyKeepsHostmac(s, c, now, hostmac);
    ResentClones(ConfOf(t), TablesOf(t.be), f, kind);
    if kind == R.Ns {
      SourceInstalledIff(s, f, hostmac, now);
    }
  }

  lemma CopyKeepsHostmac(s: State, c: Frame, now: nat, hostmac: Mac)
    requires Inv(s) && s.initialized && s.snap.hostmac == Some(hostmac)
    ensures AfterCopy(s, c, now).be.Hostmac() == hostmac
  {
    var ip := P.ClassifyLearn(D.EthType(c), c[14..]);
    if ip.Some? {
      StepKeepsInv(s, Learn(ip.value, D.Src(c), now));
      LearnFrame(s, ip.value, D.Src(c), now);
    }
  }

  /** So with nft's guard rules, which are the ones in place where frames are sent again. */
  lemma NftNoEchoIff(s0: State, evs: seq<Event>, f: Frame, kind: R.NdKind, hostmac: Mac, now: nat, pkt: D.PktType)
    requires IsInitial(s0) && LegalRun(s0, evs) && Run(s0, evs).initialized && Run(s0, evs).snap.hostmac == Some(hostmac)
    requires N.NdMatches(f, kind, hostmac)
    requires ConfOf(AfterCopy(Run(s0, evs), Store(f, N.OptAt(kind) + 2, hostmac), now)).fwd0 < 0x1_0000_0000
    ensures var s, c: Frame := Run(s0, evs), Store(f, N.OptAt(kind) + 2, hostmac);
            var t := AfterCopy(s, c, now);
            M.Chain(EnvOf(t.be, pkt), R.GuardRulesFwd(hostmac, ConfOf(t).fwd0), 0, [],
                    M.Boot(N.Reinjected(c, hostmac))).dups == []
            <==> !(kind == R.Ns && f[0] == 0x33 && f[1] == 0x33) || Installs(s, D.Src6(f), D.Src(f))
  {
    var s, c: Frame := Run(s0, evs), Store(f, N.OptAt(kind) + 2, hostmac);
    var t := AfterCopy(s, c, now);
    NoEchoIff(s0, evs, f, kind, hostmac, now);
    InitialInv(s0);
    RunKeepsInv(s0, evs);
    CopyKeepsHostmac(s, c, now, hostmac);
    SameEcho(ConfOf(t), EnvOf(t.be, pkt), f, kind, c);
  }

  lemma SameEcho(conf: D.Conf, env: M.Env, f: Frame, kind: R.NdKind, c: Frame)
    requires N.NdMatches(f, kind, conf.hostmac) && c == Store(f, N.OptAt(kind) + 2, conf.hostmac) && conf.fwd0 < 0x1_0000_0000
    ensures var w := N.Reinjected(c, conf.hostmac);
            M.Chain(env, R.GuardRulesFwd(conf.hostmac, conf.fwd0), 0, [], M.Boot(w)).dups == []
            <==> D.Guarded(conf, env.t, w).clones == []
  {
    var w := N.Reinjected(c, conf.hostmac);
    ReinjectedBytes(c, conf.hostmac);
    assert w[54] == c[54] == kind.Code();
    NotCut(env.t, f, kind, w, conf.hostmac);
    E.GuardsAgreeIff(conf, env, w);
  }

  lemma NotCut(t: D.Tables, f: Frame, kind: R.NdKind, w: Frame, hostmac: Mac)
    requires N.NdMatches(f, kind, hostmac) && |w| == |f| && |w| >= 55 && w[54] == kind.Code()
    ensures !E.CutOption(t, D.Normalized(w, hostmac))
  {
    var g: Frame := D.Normalized(w, hostmac);
    assert g[54] == w[54];
    if |g| < 82 {
      assert kind == R.Rs;
    }
  }
}
