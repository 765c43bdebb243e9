/**
 What the kernel path guarantees of the frames it lets out: no guest mac leaks, discovery
 clones are anonymous and leave the wire frame as it was, and every in-kernel rewrite keeps
 the ICMPv6 checksum valid.
 */
module DatapathProperties {
  import opened Types
  import opened Bytes
  import opened Checksum
  import opened Packet
  import opened Datapath

  // ---- no source leak ----

  /** The first option is the link-layer address this kind of message announces. */
  predicate Announces(f: Frame, off: nat) {
    && Fits(f, off, 8)
    && (|| (off == 78 && Icmp6Type(f) == 135 && Src6(f) != UNSPEC6 && f[78] == 1)
        || (off == 78 && Icmp6Type(f) == 136 && f[78] == 2)
        || (off == 62 && Icmp6Type(f) == 133 && Src6(f) != UNSPEC6 && f[62] == 1))
  }

  lemma RewrittenAnnouncesHost(f: seq<byte>, off: nat, want: byte, hostmac: Mac)
    requires Fits(f, off, 8) && f[off] == want && CSUM + 2 <= off
    ensures NdRewritten(f, off, want, hostmac)[off + 2..off + 8] == hostmac
    ensures forall i | 0 <= i < |f| && (i < CSUM || CSUM + 2 <= i < off + 2 || off + 8 <= i) ::
              NdRewritten(f, off, want, hostmac)[i] == f[i]
  {
    if HasOption(f, off, want, hostmac) {
      var newopt := f[off..off + 2] + hostmac;
      StoredThere(CsumAt(f, CSUM, CsumDiff(f[off..off + 8], newopt)), off + 2, hostmac);
    }
  }

  lemma PayloadOutKeepsHeader(f: Frame, hostmac: Mac)
    ensures |PayloadOut(f, hostmac)| == |f|
    ensures PayloadOut(f, hostmac)[..14] == f[..14]
  {
  }

  lemma NormalizedHeader(f: Frame, h: Frame, hostmac: Mac)
    requires |h| == |f| && h[..14] == f[..14]
    ensures var g: Frame := Normalized(h, hostmac);
            Src(g) == hostmac && Dst(g) == Dst(f) && EthType(g) == EthType(f)
  {
    assert h[..14][0..6] == f[..14][0..6] && h[..14][12..14] == f[..14][12..14];
    StoredThere(h, 6, hostmac);
    StoredElsewhere(h, 6, hostmac, 0, 6);
    StoredElsewhere(h, 6, hostmac, 12, 2);
  }

  lemma OptionOut(f: Frame, hostmac: Mac, off: nat)
    requires Announces(f, off)
    ensures OutFrame(f, hostmac)[off + 2..off + 8] == hostmac
  {
    RewrittenAnnouncesHost(f, off, f[off], hostmac);
    assert PayloadOut(f, hostmac) == NdRewritten(f, off, f[off], hostmac);
    StoredElsewhere(PayloadOut(f, hostmac), 6, hostmac, off + 2, 6);
  }

  /** Every IPv4, ARP or IPv6 frame that leaves carries HOSTMAC and no guest mac: as source, as
      ARP sender, and in the address option of neighbour discovery. */
  lemma NoSourceLeak(f: Frame, hostmac: Mac)
    requires IsIpOrArp(f)
    ensures var g := OutFrame(f, hostmac);
            && Src(g) == hostmac && Dst(g) == Dst(f) && EthType(g) == EthType(f)
            && (EthType(f) == ETH_ARP && Fits(f, 22, 6) ==> g[22..28] == hostmac)
            && (forall off: nat | Announces(f, off) :: g[off + 2..off + 8] == hostmac)
  {
    forall off: nat | Announces(f, off) ensures OutFrame(f, hostmac)[off + 2..off + 8] == hostmac {
      OptionOut(f, hostmac, off);
    }
    if EthType(f) == ETH_ARP && Fits(f, 22, 6) {
      StoredThere(f, 22, hostmac);
      StoredElsewhere(Store(f, 22, hostmac), 6, hostmac, 22, 6);
    }
    PayloadOutKeepsHeader(f, hostmac);
    NormalizedHeader(f, PayloadOut(f, hostmac), hostmac);
  }

  // ---- incremental rewrites keep a valid checksum ----

  /** Overwrite covered bytes of a packet and adjust its checksum field for them. */
  function Patched(l3: seq<byte>, off: nat, v: seq<byte>): seq<byte>
    requires Fits(l3, off, |v|)
  {
    Store(CsumAt(l3, 42, CsumDiff(l3[off..off + |v|], v)), off, v)
  }

  /** Both stores of a patch: the total moves by the field and by the words. */
  lemma PatchedTotal(l3: seq<byte>, i: nat, v: seq<byte>, words: nat)
    requires Complete(l3) && PayloadLen(l3) >= 4
    requires |v| == 2 * words && 8 + 2 * i + |v| <= 40 + PayloadLen(l3)
    requires 8 + 2 * i + |v| <= 42 || 18 <= i
    ensures var off := 8 + 2 * i;
            var from, c, p := l3[off..off + |v|], Num16(l3[42..44]), Patched(l3, off, v);
            && Complete(p) && PayloadLen(p) == PayloadLen(l3)
            && Total(p) + c + WordSum(from) == Total(l3) + Replaced(c, CsumDiff(from, v)) + WordSum(v)
  {
    var off := 8 + 2 * i;
    var from := l3[off..off + |v|];
    var c := Replaced(Num16(l3[42..44]), CsumDiff(from, v));
    var mid := Store(l3, 42, Be16(c));
    FieldStore(l3, Be16(c));
    StoredElsewhere(l3, 42, Be16(c), off, |v|);
    SecondStore(mid, i, v, words, from);
    assert Patched(l3, off, v) == Store(mid, off, v);
    assert Num16(Be16(c)) == c;
  }

  lemma SecondStore(mid: seq<byte>, i: nat, v: seq<byte>, words: nat, from: seq<byte>)
    requires Complete(mid) && |v| == 2 * words && 8 + 2 * i + |v| <= 40 + PayloadLen(mid)
    requires mid[8 + 2 * i..8 + 2 * i + |v|] == from
    ensures var p := Store(mid, 8 + 2 * i, v);
            Complete(p) && PayloadLen(p) == PayloadLen(mid) && Total(p) + WordSum(from) == Total(mid) + WordSum(v)
  {
    TotalStore(mid, i, v, words);
  }

  lemma FieldStore(l3: seq<byte>, field: seq<byte>)
    requires Complete(l3) && PayloadLen(l3) >= 4 && |field| == 2
    ensures var g := Store(l3, 42, field);
            && Complete(g) && PayloadLen(g) == PayloadLen(l3)
            && Total(g) + Num16(l3[42..44]) == Total(l3) + Num16(field)
  {
    TotalStore(l3, 17, field, 1);
    WordOf(l3[42..44]);
    WordOf(field);
  }

  /** A packet that verified still does after an even-aligned patch of its message or
      addresses. */
  lemma PatchVerifies(l3: seq<byte>, i: nat, v: seq<byte>, words: nat)
    requires Verifies(l3) && PayloadLen(l3) >= 4
    requires |v| == 2 * words && 8 + 2 * i + |v| <= 40 + PayloadLen(l3)
    requires 8 + 2 * i + |v| <= 42 || 18 <= i
    ensures Verifies(Patched(l3, 8 + 2 * i, v))
    ensures PayloadLen(Patched(l3, 8 + 2 * i, v)) == PayloadLen(l3)
  {
    var off := 8 + 2 * i;
    PatchedTotal(l3, i, v, words);
    var k := ReplacedBalances(Num16(l3[42..44]), l3[off..off + |v|], v, words);
    Conserved(Total(l3), Total(Patched(l3, off, v)), k);
  }

  lemma Conserved(t: nat, u: nat, k: int)
    requires Fold(t) == ALL_ONES && u == t + 65535 * k && u > 0
    ensures Fold(u) == ALL_ONES
  {
    FoldUnique(u, ALL_ONES, Wraps(t) + k);
  }

  lemma L3Store(f: seq<byte>, off: nat, v: seq<byte>)
    requires 14 <= off && |f| >= 14
    ensures Store(f, off, v)[14..] == Store(f[14..], off - 14, v)
  {
  }

  lemma L3Csum(f: Frame, diff: nat)
    ensures CsumAt(f, CSUM, diff)[14..] == CsumAt(f[14..], 42, diff)
  {
    if Fits(f, CSUM, 2) {
      assert f[CSUM..CSUM + 2] == f[14..][42..44];
    }
  }

  /** The rewritten solicitation is the original with its option patched. */
  lemma RewriteIsPatch(f: Frame, off: nat, want: byte, hostmac: Mac)
    requires HasOption(f, off, want, hostmac) && CSUM + 2 <= off
    ensures NdRewritten(f, off, want, hostmac)[14..] == Patched(f[14..], off - 14, f[off..off + 2] + hostmac)
  {
    var newopt := f[off..off + 2] + hostmac;
    var diff := CsumDiff(f[off..off + 8], newopt);
    var mid := CsumAt(f, CSUM, diff);
    L3Csum(f, diff);
    L3Slice(f, off, 8);
    assert mid[off..off + 2] == f[off..off + 2] by { CsumKeeps(f, diff, off, 2); }
    OptionStore(mid, off, f[off..off + 2], hostmac);
  }

  lemma CsumKeeps(f: seq<byte>, diff: nat, at: nat, n: nat)
    requires at + n <= |f| && (at + n <= CSUM || CSUM + 2 <= at)
    ensures CsumAt(f, CSUM, diff)[at..at + n] == f[at..at + n]
  {
    if Fits(f, CSUM, 2) {
      StoredElsewhere(f, CSUM, Be16(Replaced(Num16(f[CSUM..CSUM + 2]), diff)), at, n);
    }
  }

  lemma L3Slice(f: seq<byte>, at: nat, n: nat)
    requires 14 <= at && at + n <= |f|
    ensures f[14..][at - 14..at - 14 + n] == f[at..at + n]
  {
    assert f[14..|f|] == f[14..];
    SliceOfSlice(f, 14, |f|, at - 14, n);
  }

  lemma OptionStore(mid: seq<byte>, off: nat, head: seq<byte>, hostmac: Mac)
    requires 14 <= off && Fits(mid, off, 8) && |head| == 2 && mid[off..off + 2] == head
    ensures Store(mid, off + 2, hostmac)[14..] == Store(mid[14..], off - 14, head + hostmac)
  {
    L3Store(mid, off + 2, hostmac);
    L3Slice(mid, off, 2);
    SameOption(mid[14..], off - 14, head, hostmac);
  }

  lemma SameOption(l3: seq<byte>, at: nat, head: seq<byte>, hostmac: Mac)
    requires Fits(l3, at, 8) && |head| == 2 && l3[at..at + 2] == head
    ensures Store(l3, at + 2, hostmac) == Store(l3, at, head + hostmac)
  {
    assert l3[at] == l3[at..at + 2][0] && l3[at + 1] == l3[at..at + 2][1];
  }

  // ---- discovery ----

  /** The wire frame of an ARP discovery is the normalized original; the clone differs from it
      only in the sender address, which is 0.0.0.0. */
  lemma ArpDiscovery(conf: Conf, t: Tables, f: Frame)
    requires DiscoversArp(t, Normalized(f, conf.hostmac))
    ensures var o := Guarded(conf, t, f);
            && o.frame == Normalized(f, conf.hostmac)
            && o.clones == [Clone(conf.fwd0, Store(o.frame, 28, Zeros(4)))]
            && o.clones[0].frame[28..32] == Zeros(4)
  {
    var g := NormalizedGuard(conf, f);
    var anon := Store(g, 28, Zeros(4));
    assert Store(anon, 28, g[28..32]) == g;
    StoredThere(g, 28, Zeros(4));
  }

  /** Normalizing a frame that already carries HOSTMAC changes nothing. */
  lemma NormalizedGuard(conf: Conf, f: Frame) returns (g: Frame)
    ensures g == Normalized(f, conf.hostmac) == if Src(f) != conf.hostmac then Normalized(f, conf.hostmac) else f
    ensures Src(g) == conf.hostmac
  {
    g := Normalized(f, conf.hostmac);
    StoredThere(f, 6, conf.hostmac);
  }

  function Field(f: seq<byte>): (c: nat)
    requires Fits(f, CSUM, 2)
    ensures c <= ALL_ONES
  {
    Num16(f[CSUM..CSUM + 2])
  }

  lemma FieldAfterCsum(f: seq<byte>, diff: nat)
    requires Fits(f, CSUM, 2)
    ensures CsumAt(f, CSUM, diff) == Store(f, CSUM, Be16(Replaced(Field(f), diff)))
    ensures Field(CsumAt(f, CSUM, diff)) == Replaced(Field(f), diff)
  {
    StoredThere(f, CSUM, Be16(Replaced(Field(f), diff)));
  }

  /** Two updates, then the same two undone: the field comes back, all ones as zero. */
  lemma UndoneUpdates(c: nat, s: seq<byte>, z: seq<byte>, o: seq<byte>, n: seq<byte>)
    requires c <= ALL_ONES && |s| == |z| == 16 && |o| == |n| == 4 && CsumDiff(n, o) > 0
    ensures var c2 := Replaced(Replaced(c, CsumDiff(s, z)), CsumDiff(o, n));
            Replaced(Replaced(c2, CsumDiff(z, s)), CsumDiff(n, o)) == if c == ALL_ONES then 0 else c
  {
    var c1 := Replaced(c, CsumDiff(s, z));
    var c2 := Replaced(c1, CsumDiff(o, n));
    var c3 := Replaced(c2, CsumDiff(z, s));
    var k1 := ReplacedBalances(c, s, z, 8);
    var k2 := ReplacedBalances(c1, o, n, 2);
    var k3 := ReplacedBalances(c2, z, s, 8);
    var k4 := ReplacedBalances(c3, n, o, 2);
    BackAgain(c, Replaced(c3, CsumDiff(n, o)), k1 + k2 + k3 + k4);
  }

  lemma BackAgain(c: nat, d: nat, k: int)
    requires c <= ALL_ONES && d < ALL_ONES && d == c + 65535 * k
    ensures d == if c == ALL_ONES then 0 else c
  {
  }

  lemma FourUpdates(c: nat, s: seq<byte>, o: seq<byte>)
    requires c <= ALL_ONES && |s| == 16 && |o| == 4 && o[0] == 1
    ensures var z, n := Zeros(16), Neutral(o);
            var c2 := Replaced(Replaced(c, CsumDiff(s, z)), CsumDiff(o, n));
            Replaced(Replaced(c2, CsumDiff(z, s)), CsumDiff(n, o)) == if c == ALL_ONES then 0 else c
  {
    assert WordSum(o) > 0;
    UndoneUpdates(c, s, Zeros(16), o, Neutral(o));
  }

  /** Anonymizing and naming again moves nothing but the checksum field. */
  lemma NamedAgain(g: seq<byte>)
    requires Fits(g, 78, 4)
    ensures var back := Named(Anonymous(g), g[22..38], FirstOption(g));
            back == Store(g, CSUM, Be16(Field(back)))
  {
    var back := Named(Anonymous(g), g[22..38], FirstOption(g));
    AnonymousElsewhere(g);
    NamedElsewhere(Anonymous(g), g[22..38], FirstOption(g));
    SameButField(back, g);
  }

  lemma SameButField(a: seq<byte>, b: seq<byte>)
    requires |a| == |b| && Fits(a, CSUM, 2)
    requires forall i | 0 <= i < |a| && !(CSUM <= i < CSUM + 2) :: a[i] == b[i]
    ensures a == Store(b, CSUM, Be16(Field(a)))
  {
    assert a[CSUM..CSUM + 2] == [a[CSUM], a[CSUM + 1]];
  }

  /** After the undo the wire frame is the normalized original byte for byte, except that a
      checksum of 0xffff comes back as the other zero. */
  lemma NsDiscoveryRestores(conf: Conf, t: Tables, f: Frame)
    requires DiscoversNs(t, Normalized(f, conf.hostmac))
    ensures var o, g := Guarded(conf, t, f), Normalized(f, conf.hostmac);
            o.frame == if Field(g) == ALL_ONES then Store(g, CSUM, [0, 0]) else g
  {
    var g := NormalizedGuard(conf, f);
    NamedRestores(g);
  }

  lemma NamedRestores(g: seq<byte>)
    requires Fits(g, 78, 4) && g[78] == 1
    ensures Named(Anonymous(g), g[22..38], FirstOption(g)) == if Field(g) == ALL_ONES then Store(g, CSUM, [0, 0]) else g
  {
    var back := Named(Anonymous(g), g[22..38], FirstOption(g));
    assert Field(back) == if Field(g) == ALL_ONES then 0 else Field(g) by {
      AnonymousField(g);
      NamedField(Anonymous(g), g[22..38], FirstOption(g));
      FourUpdates(Field(g), g[22..38], FirstOption(g));
    }
    NamedAgain(g);
    SameButField(g, g);
  }

  lemma AnonymousField(f: seq<byte>)
    requires Fits(f, 78, 4)
    ensures Field(Anonymous(f))
         == Replaced(Replaced(Field(f), CsumDiff(f[22..38], Zeros(16))), CsumDiff(FirstOption(f), Neutral(FirstOption(f))))
  {
    var d1, d2 := CsumDiff(f[22..38], Zeros(16)), CsumDiff(FirstOption(f), Neutral(FirstOption(f)));
    FieldAfterCsum(f, d1);
    FieldAfterCsum(CsumAt(f, CSUM, d1), d2);
    var f2 := CsumAt(CsumAt(f, CSUM, d1), CSUM, d2);
    StoredElsewhere(f2, 22, Zeros(16), CSUM, 2);
    StoredElsewhere(Store(f2, 22, Zeros(16)), 78, [200], CSUM, 2);
  }

  lemma NamedField(f: seq<byte>, s: seq<byte>, o: seq<byte>)
    requires Fits(f, 78, 4) && |s| == 16 && |o| == 4
    ensures Field(Named(f, s, o)) == Replaced(Replaced(Field(f), CsumDiff(Zeros(16), s)), CsumDiff(Neutral(o), o))
  {
    var d1, d2 := CsumDiff(Zeros(16), s), CsumDiff(Neutral(o), o);
    FieldAfterCsum(f, d1);
    FieldAfterCsum(CsumAt(f, CSUM, d1), d2);
    var f2 := CsumAt(CsumAt(f, CSUM, d1), CSUM, d2);
    StoredElsewhere(f2, 22, s, CSUM, 2);
    StoredElsewhere(Store(f2, 22, s), 78, [o[0]], CSUM, 2);
  }

  /** The clone is the frame with source :: and the option type 200; only those bytes and the
      checksum differ. */
  lemma AnonymousElsewhere(f: seq<byte>)
    requires Fits(f, 78, 4)
    ensures Anonymous(f)[22..38] == Zeros(16) && Anonymous(f)[78] == 200
    ensures forall i | 0 <= i < |f| && !(22 <= i < 38) && !(CSUM <= i < CSUM + 2) && i != 78 :: Anonymous(f)[i] == f[i]
  {
  }

  lemma NamedElsewhere(f: seq<byte>, s: seq<byte>, o: seq<byte>)
    requires Fits(f, 78, 4) && |s| == 16 && |o| == 4
    ensures forall i | 22 <= i < 38 :: Named(f, s, o)[i] == s[i - 22]
    ensures Named(f, s, o)[78] == o[0]
    ensures forall i | 0 <= i < |f| && !(22 <= i < 38) && !(CSUM <= i < CSUM + 2) && i != 78 :: Named(f, s, o)[i] == f[i]
  {
  }

  /** Anonymizing is two patches of the packet: the source, then the option's first word. */
  lemma AnonymousIsPatched(f: Frame)
    requires Fits(f, 78, 4)
    ensures Anonymous(f)[14..]
         == Patched(Patched(f[14..], 8, Zeros(16)), 64, Neutral(FirstOption(f)))
  {
    var l3, o := f[14..], FirstOption(f);
    var p1 := Patched(l3, 8, Zeros(16));
    var p2 := Patched(p1, 64, Neutral(o));
    PatchedField(l3, 8, Zeros(16));
    L3Slice(f, 22, 16);
    L3Slice(f, 78, 4);
    L3Slice(f, CSUM, 2);
    PatchedSlice(l3, 8, Zeros(16), 64, 4);
    AnonymousElsewhere(f);
    AnonymousField(f);
    PatchedField(p1, 64, Neutral(o));
    SameL3(Anonymous(f), p2);
  }

  lemma PatchedSlice(l3: seq<byte>, off: nat, v: seq<byte>, at: nat, n: nat)
    requires Fits(l3, off, |v|) && |l3| >= 44 && at + n <= |l3|
    requires (at + n <= 42 || 44 <= at) && (at + n <= off || off + |v| <= at)
    ensures Patched(l3, off, v)[at..at + n] == l3[at..at + n]
  {
    var field := Be16(Replaced(Num16(l3[42..44]), CsumDiff(l3[off..off + |v|], v)));
    StoredElsewhere(l3, 42, field, at, n);
    StoredElsewhere(Store(l3, 42, field), off, v, at, n);
  }

  lemma SameL3(f: Frame, l3: seq<byte>)
    requires |f| == 14 + |l3| && |l3| >= 44
    requires forall i | 0 <= i < |l3| && !(42 <= i < 44) :: f[14 + i] == l3[i]
    requires Field(f) == Num16(l3[42..44])
    ensures f[14..] == l3
  {
    assert f[CSUM..CSUM + 2] == [f[CSUM], f[CSUM + 1]];
    assert l3[42..44] == [l3[42], l3[43]];
  }

  lemma PatchedField(l3: seq<byte>, off: nat, v: seq<byte>)
    requires Fits(l3, off, |v|) && |l3| >= 44 && (off + |v| <= 42 || 44 <= off)
    ensures |Patched(l3, off, v)| == |l3|
    ensures Num16(Patched(l3, off, v)[42..44]) == Replaced(Num16(l3[42..44]), CsumDiff(l3[off..off + |v|], v))
  {
    var diff := CsumDiff(l3[off..off + |v|], v);
    StoredThere(l3, 42, Be16(Replaced(Num16(l3[42..44]), diff)));
    StoredElsewhere(CsumAt(l3, 42, diff), off, v, 42, 2);
  }

  /** Every neighbour-solicitation clone is anonymous: source ::, the option's type unknown. */
  lemma NsCloneIsAnonymous(conf: Conf, t: Tables, f: Frame)
    requires DiscoversNs(t, Normalized(f, conf.hostmac))
    ensures var o := Guarded(conf, t, f);
            && |o.clones| == 1 && o.clones[0].ifx == conf.fwd0
            && o.clones[0].frame[22..38] == Zeros(16)
            && o.clones[0].frame[78] == 200
            && (forall i | 0 <= i < |f| && !(6 <= i < 12) && !(22 <= i < 38) && !(CSUM <= i < CSUM + 2) && i != 78 ::
                  o.clones[0].frame[i] == f[i])
  {
    var g := NormalizedGuard(conf, f);
    AnonymousElsewhere(g);
  }

  /** Behind the guard every frame on the wire carries HOSTMAC, whatever its ethertype. Nothing
      that is not a host's own broadcast request or multicast solicitation is cloned: not an
      address probe, not a learned guest's frame. */
  lemma OnlyHostSolicitationsCloned(conf: Conf, t: Tables, f: Frame)
    ensures var o := Guarded(conf, t, f);
            && o.verdict == Accept
            && Src(o.frame) == conf.hostmac
            && (o.clones != [] ==> if EthType(f) == ETH_ARP
                                   then Spa(f) != V4(Zeros(4)) && Spa(f) !in t.ip2mac && Dst(f) == BROADCAST
                                   else EthType(f) == ETH_IP6 && Src6(f) != UNSPEC6 && Src6(f) !in t.ip2mac)
  {
    var g := NormalizedGuard(conf, f);
    NormalizedHeader(f, f, conf.hostmac);
    assert Peek(g, 28, 4) == Peek(f, 28, 4) && Peek(g, 22, 16) == Peek(f, 22, 16);
    if DiscoversArp(t, g) {
      ArpDiscovery(conf, t, f);
    } else if DiscoversNs(t, g) {
      NsDiscoveryRestores(conf, t, f);
      StoredElsewhere(g, CSUM, [0, 0], 6, 6);
    }
  }

  // ---- what is cloned, on the bytes ----

  /** A broadcast ARP request with a sender address that is nobody's guest. */
  predicate AsksByArp(t: Tables, f: Frame) {
    && |f| >= 32 && f[0..6] == [255, 255, 255, 255, 255, 255] && f[12..14] == [0x08, 0x06] && f[20..22] == [0, 1]
    && f[28..32] != [0, 0, 0, 0] && V4(f[28..32]) !in t.ip2mac
  }

  /** A multicast neighbour solicitation with a source that is nobody's guest and a source option. */
  predicate AsksByNs(t: Tables, f: Frame) {
    && |f| >= 82 && f[0] == 0x33 && f[1] == 0x33 && f[12..14] == [0x86, 0xdd] && f[20] == 58 && f[54] == 135 && f[78] == 1
    && f[22..38] != Zeros(16) && V6(f[22..38]) !in t.ip2mac
  }

  lemma AsksArpIff(t: Tables, f: Frame)
    ensures DiscoversArp(t, f) <==> AsksByArp(t, f)
  {
    assert Be16(1) == [0, 1] && Zeros(4) == [0, 0, 0, 0] && f[12..14] == [f[12], f[13]];
    assert Zeros(2)[1] == 0 && Be16(1)[1] == 1;
  }

  lemma AsksNsIff(t: Tables, f: Frame)
    ensures DiscoversNs(t, f) <==> AsksByNs(t, f)
  {
    assert f[12..14] == [f[12], f[13]];
    if |f| >= 82 {
      assert f[20..21] == [f[20]] && f[54..55] == [f[54]];
    }
  }

  /** The guard clones exactly those frames, once each, to the guests' port. */
  lemma ClonesIff(conf: Conf, t: Tables, f: Frame)
    ensures var o := Guarded(conf, t, f);
            if AsksByArp(t, f) || AsksByNs(t, f) then |o.clones| == 1 && o.clones[0].ifx == conf.fwd0 else o.clones == []
  {
    var g := NormalizedGuard(conf, f);
    AsksArpIff(t, g);
    AsksNsIff(t, g);
    NamedKeepsAsking(conf, t, f, g);
  }

  lemma NamedKeepsAsking(conf: Conf, t: Tables, f: Frame, g: Frame)
    requires g == Store(f, 6, conf.hostmac)
    ensures AsksByArp(t, g) <==> AsksByArp(t, f)
    ensures AsksByNs(t, g) <==> AsksByNs(t, f)
  {
    assert g[0..6] == f[0..6] && g[12..14] == f[12..14];
    if |f| >= 32 {
      assert g[20..22] == f[20..22] && g[28..32] == f[28..32];
    }
    if |f| >= 82 {
      assert g[22..38] == f[22..38];
    }
  }
}
