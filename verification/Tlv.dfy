/**
 Netlink attributes: type-length-value records padded to four bytes, written by `nla` and read
 back by `parse_attrs` (src/backend/nft/wire.rs:152-196, 584-597). Integers are in host order,
 little-endian here.
 */
module Tlv {
  import opened Types

  const NLA_F_NESTED := 0x8000
  const LARGEST := 65531

  type U16 = n: nat | n < 0x1_0000

  datatype Attr = Attr(typ: U16, payload: seq<byte>)

  function Le16(n: U16): (v: seq<byte>)
    ensures |v| == 2
  {
    [n % 256, n / 256]
  }

  function NumLe16(v: seq<byte>): U16
    requires |v| == 2
  {
    v[0] as int + 256 * v[1] as int
  }

  function Align4(n: nat): (r: nat)
    ensures n <= r < n + 4 && r % 4 == 0
  {
    (n + 3) / 4 * 4
  }

  // ---- writing ----

  /** Length and type, the length cut to sixteen bits. */
  function Header(typ: U16, n: nat): (h: seq<byte>)
    ensures |h| == 4
  {
    Le16((4 + n) % 0x1_0000) + Le16(typ)
  }

  function Nla(typ: U16, payload: seq<byte>): (v: seq<byte>)
    ensures |v| == Align4(4 + |payload|)
  {
    Header(typ, |payload|) + payload + Zeros(Align4(4 + |payload|) - (4 + |payload|))
  }

  /** `nla`: append, then push zeros up to the alignment. */
  method EncodeAttr(typ: U16, payload: seq<byte>) returns (v: seq<byte>)
    ensures v == Nla(typ, payload)
  {
    v := Header(typ, |payload|) + payload;
    ghost var raw := v;
    while |v| % 4 != 0
      invariant |raw| <= |v| <= Align4(|raw|)
      invariant v == raw + Zeros(|v| - |raw|)
      decreases Align4(|raw|) - |v|
    {
      v := v + [0];
    }
  }

  /** `nla_nested` sets the top bit of the type. */
  function NestedType(typ: U16): U16 {
    if typ < NLA_F_NESTED then typ + NLA_F_NESTED else typ
  }

  function Nested(typ: U16, inner: seq<byte>): seq<byte> {
    Nla(NestedType(typ), inner)
  }

  function Cat(parts: seq<seq<byte>>): seq<byte> {
    if parts == [] then [] else parts[0] + Cat(parts[1..])
  }

  /** `cat`: one append after another. */
  method Concat(parts: seq<seq<byte>>) returns (v: seq<byte>)
    ensures v == Cat(parts)
  {
    v := [];
    for i := 0 to |parts|
      invariant v + Cat(parts[i..]) == Cat(parts)
    {
      assert v + Cat(parts[i..]) == (v + parts[i]) + Cat(parts[i + 1..]) by {
        assert parts[i..][1..] == parts[i + 1..];
      }
      v := v + parts[i];
    }
  }

  function Encoded(attrs: seq<Attr>): seq<byte> {
    if attrs == [] then [] else Nla(attrs[0].typ, attrs[0].payload) + Encoded(attrs[1..])
  }

  // ---- reading ----

  function LenAt(buf: seq<byte>, i: nat): nat
    requires i + 4 <= |buf|
  {
    NumLe16(buf[i..i + 2])
  }

  function TypeAt(buf: seq<byte>, i: nat): U16
    requires i + 4 <= |buf|
  {
    NumLe16(buf[i + 2..i + 4]) % 0x4000
  }

  predicate Readable(buf: seq<byte>, i: nat) {
    i + 4 <= |buf| && LenAt(buf, i) >= 4 && i + LenAt(buf, i) <= |buf|
  }

  function ParsedFrom(buf: seq<byte>, i: nat): seq<Attr>
    decreases |buf| - i
  {
    if !Readable(buf, i) then []
    else [Attr(TypeAt(buf, i), buf[i + 4..i + LenAt(buf, i)])] + ParsedFrom(buf, i + Align4(LenAt(buf, i)))
  }

  function Parsed(buf: seq<byte>): seq<Attr> {
    ParsedFrom(buf, 0)
  }

  lemma ParseStep(buf: seq<byte>, i: nat, out: seq<Attr>, attr: Attr)
    requires Readable(buf, i) && attr == Attr(TypeAt(buf, i), buf[i + 4..i + LenAt(buf, i)])
    ensures (out + [attr]) + ParsedFrom(buf, i + Align4(LenAt(buf, i))) == out + ParsedFrom(buf, i)
  {
    var rest := ParsedFrom(buf, i + Align4(LenAt(buf, i)));
    assert (out + [attr]) + rest == out + ([attr] + rest);
  }

  /** `parse_attrs`: stops at the first record that is too short or runs over the end. */
  method ParseAttrs(buf: seq<byte>) returns (out: seq<Attr>)
    ensures out == Parsed(buf)
  {
    out := [];
    var i := 0;
    while i + 4 <= |buf|
      invariant out + ParsedFrom(buf, i) == Parsed(buf)
      decreases |buf| - i
    {
      var len := NumLe16(buf[i..i + 2]);
      var typ := NumLe16(buf[i + 2..i + 4]) % 0x4000;
      if len < 4 || i + len > |buf| {
        break;
      }
      var attr := Attr(typ, buf[i + 4..i + len]);
      ParseStep(buf, i, out, attr);
      out := out + [attr];
      i := i + Align4(len);
    }
  }

  // ---- the round trip ----

  predicate Sized(attrs: seq<Attr>) {
    forall a | a in attrs :: |a.payload| <= LARGEST
  }

  /** What a reader is told: the types without their two flag bits. */
  function Stripped(attrs: seq<Attr>): (r: seq<Attr>)
    ensures |r| == |attrs|
    ensures forall k | 0 <= k < |attrs| :: r[k] == Attr(attrs[k].typ % 0x4000, attrs[k].payload)
  {
    if attrs == [] then [] else [Attr(attrs[0].typ % 0x4000, attrs[0].payload)] + Stripped(attrs[1..])
  }

  lemma Le16RoundTrip(n: U16)
    ensures NumLe16(Le16(n)) == n
  {
  }

  lemma HeaderRead(buf: seq<byte>, i: nat, typ: U16, n: nat)
    requires i + 4 <= |buf| && buf[i..i + 4] == Header(typ, n)
    ensures LenAt(buf, i) == (4 + n) % 0x1_0000 && TypeAt(buf, i) == typ % 0x4000
  {
    assert buf[i..i + 2] == buf[i..i + 4][..2] == Le16((4 + n) % 0x1_0000);
    assert buf[i + 2..i + 4] == buf[i..i + 4][2..] == Le16(typ);
    Le16RoundTrip((4 + n) % 0x1_0000);
    Le16RoundTrip(typ);
  }

  /** Where the pieces of the first attribute lie in what is left of the buffer. */
  lemma FirstAttr(buf: seq<byte>, i: nat, a: Attr, rest: seq<byte>)
    requires i <= |buf| && buf[i..] == Nla(a.typ, a.payload) + rest
    ensures var n := |a.payload|;
            && i + Align4(4 + n) <= |buf|
            && buf[i..i + 4] == Header(a.typ, n)
            && buf[i + 4..i + 4 + n] == a.payload
            && buf[i + Align4(4 + n)..] == rest
  {
    var n, s := |a.payload|, buf[i..];
    assert s[..4] == Header(a.typ, n);
    assert s[4..4 + n] == a.payload;
    assert s[Align4(4 + n)..] == rest;
  }

  /** A whole attribute is read as it was written. */
  lemma ReadBack(buf: seq<byte>, i: nat, a: Attr, j: nat)
    requires |a.payload| <= LARGEST && i + 4 + |a.payload| <= |buf| && j == i + Align4(4 + |a.payload|)
    requires buf[i..i + 4] == Header(a.typ, |a.payload|) && buf[i + 4..i + 4 + |a.payload|] == a.payload
    ensures ParsedFrom(buf, i) == [Attr(a.typ % 0x4000, a.payload)] + ParsedFrom(buf, j)
  {
    HeaderRead(buf, i, a.typ, |a.payload|);
    assert LenAt(buf, i) == 4 + |a.payload|;
  }

  lemma StrippedFirst(attrs: seq<Attr>)
    requires attrs != []
    ensures Stripped(attrs) == [Attr(attrs[0].typ % 0x4000, attrs[0].payload)] + Stripped(attrs[1..])
  {
  }

  lemma {:induction false} ParsedEncoding(buf: seq<byte>, i: nat, attrs: seq<Attr>)
    requires i <= |buf| && buf[i..] == Encoded(attrs) && Sized(attrs)
    ensures ParsedFrom(buf, i) == Stripped(attrs)
    decreases |attrs|
  {
    if attrs != [] {
      var a := attrs[0];
      var j := i + Align4(4 + |a.payload|);
      FirstAttr(buf, i, a, Encoded(attrs[1..]));
      ReadBack(buf, i, a, j);
      ParsedEncoding(buf, j, attrs[1..]);
      StrippedFirst(attrs);
    }
  }

  /** Every list of attributes comes back, in order, types stripped of their flags. */
  lemma RoundTrip(attrs: seq<Attr>)
    requires Sized(attrs)
    ensures Parsed(Encoded(attrs)) == Stripped(attrs)
  {
    assert Encoded(attrs)[0..] == Encoded(attrs);
    ParsedEncoding(Encoded(attrs), 0, attrs);
  }

  lemma EncodedOne(a: Attr)
    ensures Encoded([a]) == Nla(a.typ, a.payload)
  {
    assert Encoded([a]) == Nla(a.typ, a.payload) + [];
  }

  /** The size bound is exact: a larger payload never comes back. */
  lemma RoundTripIff(a: Attr)
    ensures Parsed(Nla(a.typ, a.payload)) == [Attr(a.typ % 0x4000, a.payload)] <==> |a.payload| <= LARGEST
  {
    var buf, n := Nla(a.typ, a.payload), |a.payload|;
    EncodedOne(a);
    if n <= LARGEST {
      RoundTrip([a]);
    } else {
      assert buf[0..] == Nla(a.typ, a.payload) + [];
      FirstAttr(buf, 0, a, []);
      HeaderRead(buf, 0, a.typ, n);
      assert Readable(buf, 0) ==> |ParsedFrom(buf, 0)[0].payload| < n;
    }
  }

  /** A record that runs over the end is not read. */
  lemma CutOff(cut: seq<byte>, i: nat, a: Attr)
    requires |a.payload| <= LARGEST && |cut| < i + 4 + |a.payload|
    requires i + 4 <= |cut| ==> cut[i..i + 4] == Header(a.typ, |a.payload|)
    ensures ParsedFrom(cut, i) == []
  {
    if i + 4 <= |cut| {
      HeaderRead(cut, i, a.typ, |a.payload|);
    }
  }

  lemma PrefixSize(attrs: seq<Attr>, k: nat)
    requires k < |attrs|
    ensures |Encoded(attrs[..k + 1])| == Align4(4 + |attrs[0].payload|) + |Encoded(attrs[1..][..k])|
  {
    assert attrs[..k + 1][1..] == attrs[1..][..k];
  }

  /** The first k attributes, and no more, are read from position i of the cut buffer. */
  ghost predicate Survive(cut: seq<byte>, i: nat, attrs: seq<Attr>, k: nat) {
    && k <= |attrs| && ParsedFrom(cut, i) == Stripped(attrs)[..k]
    && (k < |attrs| ==> |cut| < i + |Encoded(attrs[..k])| + 4 + |attrs[k].payload|)
  }

  lemma OneMoreSurvives(cut: seq<byte>, i: nat, j: nat, attrs: seq<Attr>, k: nat)
    requires attrs != [] && j == i + Align4(4 + |attrs[0].payload|)
    requires ParsedFrom(cut, i) == [Attr(attrs[0].typ % 0x4000, attrs[0].payload)] + ParsedFrom(cut, j)
    requires Survive(cut, j, attrs[1..], k)
    ensures Survive(cut, i, attrs, k + 1)
  {
    StrippedFirst(attrs);
    assert Stripped(attrs)[..k + 1] == [Stripped(attrs)[0]] + Stripped(attrs[1..])[..k];
    PrefixSize(attrs, k);
  }

  lemma NoneSurvives(cut: seq<byte>, i: nat, attrs: seq<Attr>)
    requires attrs == [] ==> |cut| <= i
    requires attrs != [] ==> |attrs[0].payload| <= LARGEST && |cut| < i + 4 + |attrs[0].payload|
    requires attrs != [] && i + 4 <= |cut| ==> cut[i..i + 4] == Header(attrs[0].typ, |attrs[0].payload|)
    ensures Survive(cut, i, attrs, 0)
  {
    if attrs != [] {
      CutOff(cut, i, attrs[0]);
    }
  }

  lemma FirstAttrCut(buf: seq<byte>, i: nat, cut: seq<byte>, a: Attr, rest: seq<byte>)
    requires i <= |buf| && buf[i..] == Nla(a.typ, a.payload) + rest
    requires |cut| <= |buf| && cut == buf[..|cut|]
    ensures i + 4 <= |cut| ==> cut[i..i + 4] == Header(a.typ, |a.payload|)
    ensures i + 4 + |a.payload| <= |cut| ==> cut[i + 4..i + 4 + |a.payload|] == a.payload
  {
    FirstAttr(buf, i, a, rest);
  }

  /** A first attribute that ends inside the cut is read back, and the rest lies behind it. */
  lemma FirstReads(buf: seq<byte>, i: nat, cut: seq<byte>, a: Attr, rest: seq<byte>, j: nat)
    requires i <= |buf| && buf[i..] == Nla(a.typ, a.payload) + rest && |a.payload| <= LARGEST
    requires |cut| <= |buf| && cut == buf[..|cut|] && i + 4 + |a.payload| <= |cut| && j == i + Align4(4 + |a.payload|)
    ensures j <= |buf| && buf[j..] == rest
    ensures ParsedFrom(cut, i) == [Attr(a.typ % 0x4000, a.payload)] + ParsedFrom(cut, j)
  {
    FirstAttr(buf, i, a, rest);
    FirstAttrCut(buf, i, cut, a, rest);
    ReadBack(cut, i, a, j);
  }

  /** A buffer cut anywhere yields a prefix of the attributes, never a damaged one. */
  lemma {:induction false} CutParses(buf: seq<byte>, i: nat, cut: seq<byte>, attrs: seq<Attr>) returns (k: nat)
    requires i <= |buf| && buf[i..] == Encoded(attrs) && Sized(attrs)
    requires |cut| <= |buf| && cut == buf[..|cut|]
    ensures Survive(cut, i, attrs, k)
    decreases |attrs|
  {
    if attrs == [] {
      NoneSurvives(cut, i, attrs);
      k := 0;
    } else {
      var a, rest := attrs[0], Encoded(attrs[1..]);
      if i + 4 + |a.payload| <= |cut| {
        var j := i + Align4(4 + |a.payload|);
        FirstReads(buf, i, cut, a, rest, j);
        var k1 := CutParses(buf, j, cut, attrs[1..]);
        OneMoreSurvives(cut, i, j, attrs, k1);
        k := k1 + 1;
      } else {
        FirstAttrCut(buf, i, cut, a, rest);
        NoneSurvives(cut, i, attrs);
        k := 0;
      }
    }
  }

  /** Exactly the attributes that end inside the cut survive. */
  lemma TruncationIsPrefix(attrs: seq<Attr>, n: nat) returns (k: nat)
    requires Sized(attrs) && n <= |Encoded(attrs)|
    ensures k <= |attrs| && Parsed(Encoded(attrs)[..n]) == Stripped(attrs)[..k]
    ensures k < |attrs| ==> n < |Encoded(attrs[..k])| + 4 + |attrs[k].payload|
  {
    var buf := Encoded(attrs);
    assert buf[0..] == buf;
    k := CutParses(buf, 0, buf[..n], attrs);
  }

  lemma {:induction false} EncodedAppend(a: seq<Attr>, b: seq<Attr>)
    ensures Encoded(a + b) == Encoded(a) + Encoded(b)
  {
    if a == [] {
      assert a + b == b;
    } else {
      assert (a + b)[1..] == a[1..] + b;
      EncodedAppend(a[1..], b);
    }
  }

  lemma {:induction false} StrippedAppend(a: seq<Attr>, b: seq<Attr>)
    ensures Stripped(a + b) == Stripped(a) + Stripped(b)
  {
    if a == [] {
      assert a + b == b;
    } else {
      assert (a + b)[1..] == a[1..] + b;
      StrippedAppend(a[1..], b);
    }
  }
}
