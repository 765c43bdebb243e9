/**
 How far the agreement of the two neighbour-discovery paths reaches: an option may lie partly
 or wholly behind the payload length, where the checksum does not cover it. eBPF adjusts the
 field for the whole option (bpf/pbridge.bpf.c:106-117), userspace sums what the length says
 (src/packet.rs:116-161); they agree exactly when the uncovered words do not matter.
 */
module NdCoverage {
  import opened Types
  import opened Bytes
  import opened Checksum
  import opened Packet
  import opened Datapath
  import opened DatapathProperties
  import opened NftMachine
  import opened NftRules
  import opened NdEquivalence
  import opened NftOutChain

  /** How many of `n` bytes at `at` of the covered range lie inside it. */
  function Inside(size: nat, at: nat, n: nat): (k: nat)
    ensures k <= n && at + k <= Max(size, at) && (k < n ==> size <= at + k)
  {
    if size <= at then 0 else if size - at < n then size - at else n
  }

  /** Overwriting words up to the end of the range, a last odd byte included. */
  lemma StoreToEnd(w: seq<byte>, x: seq<byte>, i: nat, v: seq<byte>)
    requires |x| == |w| == 2 * i + |v|
    requires x == w[..2 * i] + v
    ensures WordSum(x) + WordSum(w[2 * i..]) == WordSum(w) + WordSum(v)
  {
    var a := w[..2 * i];
    assert w == a + w[2 * i..];
    WordSumAppend(a, i, w[2 * i..]);
    WordSumAppend(a, i, v);
  }

  /** The same as a statement about the packet. */
  lemma TotalOverEnd(l3: seq<byte>, i: nat, v: seq<byte>, words: nat)
    requires Complete(l3) && |v| == 2 * words > 0 && 8 + 2 * i + |v| <= |l3|
    ensures var off, g := 8 + 2 * i, Store(l3, 8 + 2 * i, v);
            var k := Inside(32 + PayloadLen(l3), 2 * i, |v|);
            && Complete(g) && PayloadLen(g) == PayloadLen(l3)
            && Total(g) + WordSum(l3[off..off + k]) == Total(l3) + WordSum(v[..k])
  {
    var k := Inside(32 + PayloadLen(l3), 2 * i, |v|);
    if k == |v| {
      assert v[..k] == v;
      TotalStore(l3, i, v, words);
    } else {
      TotalCut(l3, i, v, k);
    }
  }

  lemma TotalCut(l3: seq<byte>, i: nat, v: seq<byte>, k: nat)
    requires Complete(l3) && 8 + 2 * i + |v| <= |l3| && k == Inside(32 + PayloadLen(l3), 2 * i, |v|) < |v|
    ensures var off, g := 8 + 2 * i, Store(l3, 8 + 2 * i, v);
            && Complete(g) && PayloadLen(g) == PayloadLen(l3)
            && Total(g) + WordSum(l3[off..off + k]) == Total(l3) + WordSum(v[..k])
  {
    var g := Store(l3, 8 + 2 * i, v);
    CoveredOverEnd(l3, 2 * i, v, k);
    if k > 0 {
      StoreToEnd(Covered(l3), Covered(g), i, v[..k]);
      TotalMoves(l3, g, WordSum(Covered(l3)[2 * i..]), WordSum(v[..k]));
    } else {
      TotalMoves(l3, g, 0, 0);
    }
  }

  lemma CoveredOverEnd(l3: seq<byte>, at: nat, v: seq<byte>, k: nat)
    requires Complete(l3) && 8 + at + |v| <= |l3| && k == Inside(32 + PayloadLen(l3), at, |v|) < |v|
    ensures var g := Store(l3, 8 + at, v);
            && Complete(g) && PayloadLen(g) == PayloadLen(l3)
            && (k == 0 ==> Covered(g) == Covered(l3) && l3[8 + at..8 + at + k] == [])
            && (k > 0 ==> at + k == |Covered(l3)| && Covered(g) == Covered(l3)[..at] + v[..k]
                          && Covered(l3)[at..] == l3[8 + at..8 + at + k])
  {
    var g, hi := Store(l3, 8 + at, v), 40 + PayloadLen(l3);
    assert PayloadLen(g) == PayloadLen(l3) by { StoredElsewhere(l3, 8 + at, v, 4, 2); }
    assert Complete(g) && Covered(g) == g[8..hi] && Covered(l3) == l3[8..hi];
    if k > 0 {
      RangeCut(l3, at, v, k, hi);
    } else {
      RangeKept(l3, at, v, hi);
    }
  }

  lemma RangeKept(l3: seq<byte>, at: nat, v: seq<byte>, hi: nat)
    requires 8 + at + |v| <= |l3| && 8 <= hi <= 8 + at
    ensures Store(l3, 8 + at, v)[8..hi] == l3[8..hi]
  {
    StoredElsewhere(l3, 8 + at, v, 8, hi - 8);
  }

  lemma RangeCut(l3: seq<byte>, at: nat, v: seq<byte>, k: nat, hi: nat)
    requires 8 + at + |v| <= |l3| && k < |v| && hi == 8 + at + k
    ensures Store(l3, 8 + at, v)[8..hi] == l3[8..hi][..at] + v[..k] && l3[8..hi][at..] == l3[8 + at..8 + at + k]
  {
    var g := Store(l3, 8 + at, v);
    StoredElsewhere(l3, 8 + at, v, 8, at);
    StoredThere(l3, 8 + at, v);
    SliceOfSlice(g, 8 + at, 8 + at + |v|, 0, k);
    SliceOfSlice(l3, 8, hi, at, k);
    assert g[8..hi] == g[8..8 + at] + g[8 + at..hi];
  }

  /** The option before and after, and how much of it the checksum covers. */
  function OldOption(f: Frame, kind: NdKind): (o: seq<byte>)
    requires Fits(f, OptAt(kind), 8)
    ensures |o| == 8
  {
    f[OptAt(kind)..OptAt(kind) + 8]
  }

  function NewOption(f: Frame, kind: NdKind, hostmac: Mac): (o: seq<byte>)
    requires Fits(f, OptAt(kind), 8)
    ensures |o| == 8
  {
    f[OptAt(kind)..OptAt(kind) + 2] + hostmac
  }

  function CoveredBytes(f: Frame, kind: NdKind): (k: nat)
    requires |f| >= 20
    ensures k <= 8
  {
    Inside(32 + PayloadLen(f[14..]), OptAt(kind) - 22, 8)
  }

  /** With `k` bytes covered, the uncovered words weigh the same before and after. */
  predicate Weighs(was: seq<byte>, now: seq<byte>, k: nat)
    requires k <= |was| == |now|
  {
    (WordSum(was) + WordSum(now[..k])) % 65535 == (WordSum(now) + WordSum(was[..k])) % 65535
  }

  predicate Balanced(f: Frame, kind: NdKind, hostmac: Mac)
    requires Fits(f, OptAt(kind), 8)
  {
    Weighs(OldOption(f, kind), NewOption(f, kind, hostmac), CoveredBytes(f, kind))
  }

  lemma CoveredIsBalanced(f: Frame, kind: NdKind, hostmac: Mac)
    requires Fits(f, OptAt(kind), 8) && OptionCovered(f, kind)
    ensures Balanced(f, kind, hostmac)
  {
    assert OldOption(f, kind)[..8] == OldOption(f, kind) && NewOption(f, kind, hostmac)[..8] == NewOption(f, kind, hostmac);
  }

  /** Totals that differ by `d` and a multiple of 65535. */
  lemma StillOnes(t: nat, u: nat, a: nat, b: nat, k: int)
    requires Fold(t) == ALL_ONES && u > 0 && u + b == t + a + 65535 * k
    ensures Fold(u) == ALL_ONES <==> a % 65535 == b % 65535
  {
    var q := Wraps(t) + 1 + k;
    assert u == 65535 * q + (a - b);
    if Fold(u) == ALL_ONES {
      assert a == b + 65535 * (Wraps(u) + 1 - q);
      SameMod(a, b, Wraps(u) + 1 - q);
    } else if a % 65535 == b % 65535 {
      var d := a / 65535 - b / 65535;
      assert a - b == 65535 * d;
      FoldUnique(u, ALL_ONES, q + d - 1);
    }
  }

  lemma SameMod(a: nat, b: nat, k: int)
    requires a == b + 65535 * k
    ensures a % 65535 == b % 65535
  {
  }

  lemma PatchedOverEnd(l3: seq<byte>, i: nat, v: seq<byte>, words: nat)
    requires Complete(l3) && PayloadLen(l3) >= 4 && 18 <= i
    requires |v| == 2 * words > 0 && 8 + 2 * i + |v| <= |l3|
    ensures var off := 8 + 2 * i;
            var from, c, p := l3[off..off + |v|], Num16(l3[42..44]), Patched(l3, off, v);
            var k := Inside(32 + PayloadLen(l3), 2 * i, |v|);
            && Complete(p) && PayloadLen(p) == PayloadLen(l3)
            && Total(p) + c + WordSum(from[..k]) == Total(l3) + Replaced(c, CsumDiff(from, v)) + WordSum(v[..k])
  {
    var off := 8 + 2 * i;
    var from := l3[off..off + |v|];
    var c := Replaced(Num16(l3[42..44]), CsumDiff(from, v));
    var mid := Store(l3, 42, Be16(c));
    FieldStore(l3, Be16(c));
    assert mid[off..off + |v|] == from by { StoredElsewhere(l3, 42, Be16(c), off, |v|); }
    SecondOverEnd(mid, i, v, words, from);
    assert Patched(l3, off, v) == Store(mid, off, v);
    assert Num16(Be16(c)) == c;
  }

  lemma SecondOverEnd(mid: seq<byte>, i: nat, v: seq<byte>, words: nat, from: seq<byte>)
    requires Complete(mid) && |v| == 2 * words > 0 && 8 + 2 * i + |v| <= |mid|
    requires mid[8 + 2 * i..8 + 2 * i + |v|] == from
    ensures var p, k := Store(mid, 8 + 2 * i, v), Inside(32 + PayloadLen(mid), 2 * i, |v|);
            && Complete(p) && PayloadLen(p) == PayloadLen(mid)
            && Total(p) + WordSum(from[..k]) == Total(mid) + WordSum(v[..k])
  {
    var k := Inside(32 + PayloadLen(mid), 2 * i, |v|);
    TotalOverEnd(mid, i, v, words);
    assert mid[8 + 2 * i..8 + 2 * i + k] == from[..k] by {
      SliceOfSlice(mid, 8 + 2 * i, 8 + 2 * i + |v|, 0, k);
    }
  }

  /** A patched packet still verifies exactly when what the checksum does not cover weighs the
      same before and after. */
  lemma PatchVerifiesIff(l3: seq<byte>, i: nat, v: seq<byte>, words: nat, from: seq<byte>, k: nat)
    requires Verifies(l3) && PayloadLen(l3) >= 4 && 18 <= i
    requires |v| == 2 * words > 0 && 8 + 2 * i + |v| <= |l3|
    requires from == l3[8 + 2 * i..8 + 2 * i + |v|] && k == Inside(32 + PayloadLen(l3), 2 * i, |v|)
    ensures Verifies(Patched(l3, 8 + 2 * i, v)) <==> Weighs(from, v, k)
  {
    PatchedOverEnd(l3, i, v, words);
    var j := ReplacedBalances(Num16(l3[42..44]), from, v, words);
    StillOnes(Total(l3), Total(Patched(l3, 8 + 2 * i, v)), WordSum(from) + WordSum(v[..k]), WordSum(v) + WordSum(from[..k]), j);
  }

  lemma EbpfVerifiesIff(f: Frame, kind: NdKind, hostmac: Mac)
    requires NdMatches(f, kind, hostmac) && Verifies(f[14..]) && PayloadLen(f[14..]) >= 4
    ensures Verifies(OutFrame(f, hostmac)[14..]) <==> Balanced(f, kind, hostmac)
  {
    assert OutFrame(f, hostmac)[14..] == Patched(f[14..], OptAt(kind) - 14, NewOption(f, kind, hostmac)) by {
      EbpfNdPatched(f, kind, hostmac);
    }
    PatchedVerifiesIff(f, kind, hostmac);
  }

  lemma PatchedVerifiesIff(f: Frame, kind: NdKind, hostmac: Mac)
    requires Fits(f, OptAt(kind), 8) && Verifies(f[14..]) && PayloadLen(f[14..]) >= 4
    ensures Verifies(Patched(f[14..], OptAt(kind) - 14, NewOption(f, kind, hostmac))) <==> Balanced(f, kind, hostmac)
  {
    var l3, was, now, k := f[14..], OldOption(f, kind), NewOption(f, kind, hostmac), CoveredBytes(f, kind);
    L3Slice(f, OptAt(kind), 8);
    PatchVerifiesIff(l3, if kind == Rs then 20 else 28, now, 4, was, k);
  }

  // ---- the userspace side, wherever the option lies ----

  lemma RenamedComplete(f: Frame, kind: NdKind, hostmac: Mac)
    requires NdMatches(f, kind, hostmac) && Complete(f[14..])
    ensures Complete(Renamed(f, kind, hostmac)) && PayloadLen(Renamed(f, kind, hostmac)) == PayloadLen(f[14..])
  {
    StoredElsewhere(f[14..], OptAt(kind) - 12, hostmac, 4, 2);
  }

  lemma ReinjectedIsFixed(f: Frame, kind: NdKind, hostmac: Mac)
    requires NdMatches(f, kind, hostmac) && Complete(f[14..])
    ensures Complete(Renamed(f, kind, hostmac))
    ensures Reinjected(Store(f, OptAt(kind) + 2, hostmac), hostmac)[14..] == Fixed(Renamed(f, kind, hostmac))
  {
    RenamedComplete(f, kind, hostmac);
    L3Store(f, OptAt(kind) + 2, hostmac);
  }

  lemma ReinjectedAgrees(f: Frame, kind: NdKind, hostmac: Mac)
    requires NdMatches(f, kind, hostmac) && Complete(f[14..]) && PayloadLen(f[14..]) >= 4
    ensures var n := Reinjected(Store(f, OptAt(kind) + 2, hostmac), hostmac);
            AgreesWith(n, Renamed(f, kind, hostmac)) && Verifies(n[14..])
  {
    ReinjectedIsFixed(f, kind, hostmac);
    RenamedComplete(f, kind, hostmac);
    FixedTouchesField(Renamed(f, kind, hostmac));
    FixedVerifies(Renamed(f, kind, hostmac));
  }

  /** A checksum equal in one's complement verifies the same packet. */
  lemma OnesEqualVerifies(a: seq<byte>, b: seq<byte>)
    requires Verifies(a) && PayloadLen(a) >= 4 && |b| == |a| && b == Store(a, 42, b[42..44])
    requires OnesEqual(Num16(a[42..44]), Num16(b[42..44]))
    ensures Verifies(b)
  {
    FieldStore(a, b[42..44]);
    var x, y := Num16(a[42..44]), Num16(b[42..44]);
    Conserved(Total(a), Total(b), if x == y then 0 else if x == 0 then 1 else -1);
  }

  lemma WireFields(e: Frame, n: Frame)
    requires SameOnWire(e, n) && Verifies(n[14..]) && PayloadLen(n[14..]) >= 4
    ensures Verifies(e[14..])
  {
    L3Slice(e, CSUM, 2);
    L3Slice(n, CSUM, 2);
    L3Store(e, CSUM, n[CSUM..CSUM + 2]);
    StoreBack(e[14..], n[14..], n[CSUM..CSUM + 2]);
    OnesEqualVerifies(n[14..], e[14..]);
  }

  lemma StoreBack(x: seq<byte>, y: seq<byte>, v: seq<byte>)
    requires |x| >= 44 && |v| == 2 && y == Store(x, 42, v)
    ensures x == Store(y, 42, x[42..44])
  {
  }

  /** For every valid neighbour-discovery frame with a foreign first option, wherever its payload
      ends: the two paths put the same frame on the wire exactly when the option's uncovered
      words weigh the same before and after, in particular when there are none. */
  lemma NdPathsAgreeIff(f: Frame, kind: NdKind, hostmac: Mac)
    requires NdMatches(f, kind, hostmac) && Verifies(f[14..]) && PayloadLen(f[14..]) >= 4
    ensures SameOnWire(OutFrame(f, hostmac), Reinjected(Store(f, OptAt(kind) + 2, hostmac), hostmac))
       <==> Balanced(f, kind, hostmac)
  {
    var e, n := OutFrame(f, hostmac), Reinjected(Store(f, OptAt(kind) + 2, hostmac), hostmac);
    assert Verifies(e[14..]) <==> Balanced(f, kind, hostmac) by { EbpfVerifiesIff(f, kind, hostmac); }
    assert AgreesWith(e, Renamed(f, kind, hostmac)) by { EbpfPayload(f, kind, hostmac); }
    assert AgreesWith(n, Renamed(f, kind, hostmac)) && Verifies(n[14..]) by { ReinjectedAgrees(f, kind, hostmac); }
    assert PayloadLen(e[14..]) >= 4 && PayloadLen(n[14..]) >= 4 by { SameLength(f, kind, hostmac, e); SameLength(f, kind, hostmac, n); }
    if Balanced(f, kind, hostmac) {
      SameHeaders(f, kind, hostmac);
      JoinFrames(e, n, Renamed(f, kind, hostmac));
    } else if SameOnWire(e, n) {
      WireFields(e, n);
    }
  }

  /** With the option inside the message, in particular, both paths send the same valid frame. */
  lemma NdPathsAgree(f: Frame, kind: NdKind, hostmac: Mac)
    requires NdMatches(f, kind, hostmac) && OptionCovered(f, kind) && Verifies(f[14..])
    ensures var e, n := OutFrame(f, hostmac), Reinjected(Store(f, OptAt(kind) + 2, hostmac), hostmac);
            SameOnWire(e, n) && Verifies(e[14..]) && Verifies(n[14..])
  {
    CoveredIsBalanced(f, kind, hostmac);
    NdPathsAgreeIff(f, kind, hostmac);
    EbpfVerifiesIff(f, kind, hostmac);
    ReinjectedAgrees(f, kind, hostmac);
  }

  lemma HandedOverBalanced(m: Machine, f: Frame, kind: NdKind, hostmac: Mac)
    requires NdMatches(f, kind, hostmac) && Verifies(f[14..]) && PayloadLen(f[14..]) >= 4
    requires TakenUp(Boot(f), m, Store(f, OptAt(kind) + 2, hostmac))
    ensures HandedOver(m, f, hostmac) <==> Balanced(f, kind, hostmac)
  {
    HandedOverIff(m, f, kind, hostmac);
    NdPathsAgreeIff(f, kind, hostmac);
  }

  /** End to end in fwd mode, through the whole outbound chain: nft drops the frame, copies it
      once, and what userspace sends for the copy is what eBPF lets out, exactly for a balanced
      option. */
  lemma NdEnginesAgreeFwd(env: Env, hostmac: Mac, brmac: Option<Mac>, up0: nat, kind: NdKind, f: Frame)
    requires NdMatches(f, kind, hostmac) && Verifies(f[14..]) && PayloadLen(f[14..]) >= 4
    requires Src(f) != hostmac && Some(Src(f)) != brmac
    ensures HandedOver(Chain(env, OutRulesFwd(hostmac, brmac, up0), 0, NdOutRules(hostmac), Boot(f)), f, hostmac)
       <==> Balanced(f, kind, hostmac)
  {
    var m := Chain(env, OutRulesFwd(hostmac, brmac, up0), 0, NdOutRules(hostmac), Boot(f));
    assert TakenUp(Boot(f), m, Store(f, OptAt(kind) + 2, hostmac)) by {
      FwdEffect(Conf(hostmac, brmac, up0, 0), env, f);
      OnlyKind(f, kind, hostmac);
    }
    HandedOverBalanced(m, f, kind, hostmac);
  }

  /** The same in direct mode. */
  lemma NdEnginesAgreeDirect(env: Env, hostmac: Mac, kind: NdKind, f: Frame)
    requires NdMatches(f, kind, hostmac) && Verifies(f[14..]) && PayloadLen(f[14..]) >= 4
    requires Src(f) != hostmac
    ensures HandedOver(Chain(env, OutRulesDirect(hostmac), 0, NdOutRules(hostmac), Boot(f)), f, hostmac)
       <==> Balanced(f, kind, hostmac)
  {
    var m := Chain(env, OutRulesDirect(hostmac), 0, NdOutRules(hostmac), Boot(f));
    assert TakenUp(Boot(f), m, Store(f, OptAt(kind) + 2, hostmac)) by {
      DirectEffect(Conf(hostmac, None, 0, 0), env, f);
      OnlyKind(f, kind, hostmac);
    }
    HandedOverBalanced(m, f, kind, hostmac);
  }

  lemma SameLength(f: Frame, kind: NdKind, hostmac: Mac, e: Frame)
    requires NdMatches(f, kind, hostmac) && AgreesWith(e, Renamed(f, kind, hostmac)) && |f| >= 58
    ensures PayloadLen(e[14..]) == PayloadLen(f[14..])
  {
    var l3, x := f[14..], e[14..];
    StoredElsewhere(l3, OptAt(kind) - 12, hostmac, 4, 2);
    assert x[4..6] == Renamed(f, kind, hostmac)[4..6] by {
      assert x[4] == Renamed(f, kind, hostmac)[4] && x[5] == Renamed(f, kind, hostmac)[5];
    }
  }

  // ---- the discovery clone ----

  /** Changing the type byte from 1 to 200 matters unless the checksum covers it. */
  lemma TypeByteWeighs(o: seq<byte>, k: nat)
    requires |o| == 4 && o[0] == 1 && k <= 4
    ensures Weighs(o, Neutral(o), k) <==> k > 0
  {
    var n := Neutral(o);
    assert n[2..] == o[2..];
    assert WordSum(n) == WordSum(o) + 199 * 256;
    if k == 1 {
      assert o[..1] == [1] && n[..1] == [200];
    } else if k > 1 {
      assert o[..k][2..] == n[..k][2..];
      assert WordSum(n[..k]) == WordSum(o[..k]) + 199 * 256;
    } else {
      assert o[..0] == [] && n[..0] == [];
      NotSameMod(WordSum(o));
    }
  }

  lemma NotSameMod(a: nat)
    ensures a % 65535 != (a + 199 * 256) % 65535
  {
  }

  lemma AnonymousVerifiesIff(g: Frame)
    requires Fits(g, 78, 4) && g[78] == 1 && Verifies(g[14..]) && PayloadLen(g[14..]) >= 4
    ensures Verifies(Anonymous(g)[14..]) <==> PayloadLen(g[14..]) >= 25
  {
    var l3, o := g[14..], FirstOption(g);
    var p1 := Patched(l3, 8, Zeros(16));
    assert Verifies(p1) && PayloadLen(p1) == PayloadLen(l3) by { PatchVerifies(l3, 0, Zeros(16), 8); }
    assert |p1| == |l3| by { PatchedField(l3, 8, Zeros(16)); }
    assert p1[64..68] == o by {
      L3Slice(g, 78, 4);
      PatchedSlice(l3, 8, Zeros(16), 64, 4);
    }
    NeutralizedIff(p1, o);
    AnonymousIsPatched(g);
  }

  lemma NeutralizedIff(p: seq<byte>, o: seq<byte>)
    requires Verifies(p) && PayloadLen(p) >= 4 && |p| >= 68 && |o| == 4 && o[0] == 1 && p[64..68] == o
    ensures Verifies(Patched(p, 64, Neutral(o))) <==> PayloadLen(p) >= 25
  {
    var k := Inside(32 + PayloadLen(p), 56, 4);
    PatchVerifiesIff(p, 28, Neutral(o), 2, o, k);
    TypeByteWeighs(o, k);
  }

  /** The clone of a valid solicitation is valid exactly when its payload reaches the type byte
      of the option that is neutralized. */
  lemma NsCloneValidIff(conf: Conf, t: Tables, f: Frame)
    requires DiscoversNs(t, Normalized(f, conf.hostmac)) && Verifies(f[14..]) && PayloadLen(f[14..]) >= 4
    ensures var o := Guarded(conf, t, f);
            |o.clones| == 1 && (Verifies(o.clones[0].frame[14..]) <==> PayloadLen(f[14..]) >= 25)
  {
    var g := NormalizedGuard(conf, f);
    assert g[14..] == f[14..];
    AnonymousVerifiesIff(g);
  }
}
