/**
 The set-element messages read back whole: data and timeout beside the key
 (src/backend/nft/mod.rs:896-919), and instances of the wire format byte for byte, as the kernel
 defines it.
 */
module WireReading {
  import opened Types
  import opened Tlv
  import opened SetDump
  import opened NetlinkDump

  // ---- what an element carries ----

  /** Attributes of a sized list are read back, so a path into it can be followed one by one. */
  lemma FoundInEncoded(attrs: seq<Attr>, path: seq<U16>)
    requires Sized(attrs) && path != []
    ensures Found(Encoded(attrs), path) == FoundIn(Stripped(attrs), path)
  {
    RoundTrip(attrs);
  }

  function DataAttr(data: Option<seq<byte>>): Option<Attr> {
    if data.Some? then Some(Attr(NestedType(ELEM_DATA), Nla(DATA_VALUE, data.value))) else None
  }

  function TimeoutAttr(timeout: Option<nat>): Option<Attr> {
    if timeout.Some? then Some(Attr(ELEM_TIMEOUT, Be64(timeout.value))) else None
  }

  lemma OptFound(o: Option<Attr>, path: seq<U16>)
    requires path != []
    ensures FoundIn(Stripped(OptAttr(o)), path)
         == if o.Some? && o.value.typ % 0x4000 == path[0] then Found(o.value.payload, path[1..]) else []
  {
    if o.Some? {
      var a := Attr(o.value.typ % 0x4000, o.value.payload);
      assert Stripped([o.value]) == [a];
      assert FoundIn([a], path) == (if a.typ == path[0] then Found(a.payload, path[1..]) else []) + FoundIn([a][1..], path);
    }
  }

  lemma ElemRead(key: seq<byte>, data: Option<seq<byte>>, timeout: Option<nat>, path: seq<U16>)
    requires |key| <= LARGEST && |SetelemElem(key, data, timeout)| <= LARGEST && path != [] && path[0] != ELEM_KEY
    ensures Found(SetelemElem(key, data, timeout), path)
         == FoundIn(Stripped(OptAttr(DataAttr(data))), path) + FoundIn(Stripped(OptAttr(TimeoutAttr(timeout))), path)
  {
    var e, d, t := SetelemAsElem(key, data, timeout), OptAttr(DataAttr(data)), OptAttr(TimeoutAttr(timeout));
    var k := Attr(NestedType(ELEM_KEY), Nla(DATA_VALUE, key));
    SetelemIsElem(key, data, timeout);
    SetelemElemOk(key, data, timeout);
    assert ElemAttrs(e) == [k] + (d + t);
    FoundInEncoded(ElemAttrs(e), path);
    StrippedAppend([k], d + t);
    StrippedAppend(d, t);
    NestedStrips(ELEM_KEY);
    FoundAppend(Stripped([k]), Stripped(d) + Stripped(t), path);
    FoundAppend(Stripped(d), Stripped(t), path);
    OptFound(Some(k), path);
  }

  lemma OneValue(value: seq<byte>)
    requires |value| <= LARGEST
    ensures Found(Nla(DATA_VALUE, value), [DATA_VALUE]) == [value]
  {
    var a := Attr(DATA_VALUE, value);
    EncodedOne(a);
    FoundInEncoded([a], [DATA_VALUE]);
    assert Stripped([a]) == [a];
    FoundOne(a, [DATA_VALUE]);
  }

  /** The element holds its data and its timeout, each when there is one. */
  lemma ElemHolds(key: seq<byte>, data: Option<seq<byte>>, timeout: Option<nat>)
    requires |key| <= LARGEST && |SetelemElem(key, data, timeout)| <= LARGEST
    ensures Found(SetelemElem(key, data, timeout), [2, 1]) == if data.Some? then [data.value] else []
    ensures Found(SetelemElem(key, data, timeout), [4]) == if timeout.Some? then [Be64(timeout.value)] else []
  {
    NestedStrips(ELEM_DATA);
    ElemRead(key, data, timeout, [2, 1]);
    ElemRead(key, data, timeout, [4]);
    OptFound(DataAttr(data), [2, 1]);
    OptFound(TimeoutAttr(timeout), [2, 1]);
    OptFound(DataAttr(data), [4]);
    OptFound(TimeoutAttr(timeout), [4]);
    assert [2, 1][1..] == [DATA_VALUE];
    if data.Some? {
      OneValue(data.value);
    }
  }

  // ---- through the whole message ----

  lemma ListRead(name: seq<byte>, elem: seq<byte>, path: seq<U16>)
    requires |name| < LARGEST && |Nested(LIST_ELEM, elem)| <= LARGEST && path != []
    ensures Found(Cat([NlaStr(ELEM_LIST_TABLE, TABLE), NlaStr(ELEM_LIST_SET, name),
                       Nested(ELEM_LIST_ELEMENTS, Nested(LIST_ELEM, elem))]), [3, 1] + path) == Found(elem, path)
  {
    var x, y := Attr(ELEM_LIST_TABLE, TABLE + [0]), Attr(ELEM_LIST_SET, name + [0]);
    var list := Attr(NestedType(ELEM_LIST_ELEMENTS), Nested(LIST_ELEM, elem));
    var whole := [3, 1] + path;
    CatThree(NlaStr(ELEM_LIST_TABLE, TABLE), NlaStr(ELEM_LIST_SET, name), Nla(list.typ, list.payload));
    EncodedThree(x, y, list);
    FoundInEncoded([x, y, list], whole);
    NestedStrips(ELEM_LIST_ELEMENTS);
    assert whole[1..] == [1] + path;
    ThreeFound(x, y, list, whole);
    InnerRead(elem, path);
  }

  lemma InnerRead(elem: seq<byte>, path: seq<U16>)
    requires |Nested(LIST_ELEM, elem)| <= LARGEST
    ensures Found(Nested(LIST_ELEM, elem), [1] + path) == Found(elem, path)
  {
    var inner, tail := Attr(NestedType(LIST_ELEM), elem), [1] + path;
    NestedStrips(LIST_ELEM);
    assert tail[1..] == path;
    EncodedOne(inner);
    FoundInEncoded([inner], tail);
    OptFound(Some(inner), tail);
  }

  lemma ThreeFound(x: Attr, y: Attr, z: Attr, path: seq<U16>)
    requires path != [] && x.typ % 0x4000 != path[0] && y.typ % 0x4000 != path[0] && z.typ % 0x4000 == path[0]
    ensures FoundIn(Stripped([x, y, z]), path) == Found(z.payload, path[1..])
  {
    assert [x, y, z] == [x] + ([y] + [z]);
    StrippedAppend([x], [y] + [z]);
    StrippedAppend([y], [z]);
    FoundAppend(Stripped([x]), Stripped([y]) + Stripped([z]), path);
    FoundAppend(Stripped([y]), Stripped([z]), path);
    OptFound(Some(x), path);
    OptFound(Some(y), path);
    OptFound(Some(z), path);
  }

  /** Of the attributes `setelem_msg` builds, the kernel reads key, data and timeout back. */
  lemma SetelemReadsBack(name: seq<byte>, key: seq<byte>, data: Option<seq<byte>>, timeout: Option<nat>)
    requires |name| < LARGEST && |key| <= LARGEST
    requires |Nested(LIST_ELEM, SetelemElem(key, data, timeout))| <= LARGEST
    ensures var v := SetelemAttrs(name, key, data, timeout);
            && Found(v, [3, 1, 1, 1]) == [key]
            && Found(v, [3, 1, 2, 1]) == (if data.Some? then [data.value] else [])
            && Found(v, [3, 1, 4]) == (if timeout.Some? then [Be64(timeout.value)] else [])
  {
    var elem := SetelemElem(key, data, timeout);
    SetelemRoundTrip(name, key, data, timeout);
    assert KEY_PATH == [3, 1, 1, 1];
    ElemHolds(key, data, timeout);
    ListRead(name, elem, [2, 1]);
    ListRead(name, elem, [4]);
    assert [3, 1] + [2, 1] == [3, 1, 2, 1] && [3, 1] + [4] == [3, 1, 4];
  }

  // ---- the timeout as a number ----

  function NumBe32(v: seq<byte>): nat
    requires |v| == 4
  {
    ((v[0] as int * 256 + v[1] as int) * 256 + v[2] as int) * 256 + v[3] as int
  }

  lemma Octets32(n: nat)
    requires n < 0x1_0000_0000
    ensures NumBe32([n / 0x100_0000, n / 0x1_0000 % 256, n / 256 % 256, n % 256]) == n
  {
    assert n / 256 / 256 == n / 0x1_0000 && n / 0x1_0000 / 256 == n / 0x100_0000;
  }

  /** The high and the low half of Be64, most significant octet first. */
  lemma Be64IsBigEndian(n: nat)
    requires n < 0x1_0000_0000_0000_0000
    ensures NumBe32(Be64(n)[..4]) * 0x1_0000_0000 + NumBe32(Be64(n)[4..]) == n
  {
    var hi, lo := n / 0x1_0000_0000, n % 0x1_0000_0000;
    assert hi < 0x1_0000_0000;
    Octets32(hi);
    Octets32(lo);
    HighOctets(n, hi);
    LowOctets(n, lo);
  }

  lemma HighOctets(n: nat, hi: nat)
    requires n < 0x1_0000_0000_0000_0000 && hi == n / 0x1_0000_0000
    ensures Be64(n)[..4] == [hi / 0x100_0000, hi / 0x1_0000 % 256, hi / 256 % 256, hi % 256]
  {
    assert n / 0x100_0000_0000_0000 == hi / 0x100_0000;
    assert n / 0x1_0000_0000_0000 == hi / 0x1_0000;
    assert n / 0x100_0000_0000 == hi / 256;
  }

  lemma SameLowOctet(hi: nat, x: nat)
    ensures (hi * 256 + x) % 256 == x % 256
  {
  }

  lemma LowOctets(n: nat, lo: nat)
    requires lo == n % 0x1_0000_0000
    ensures Be64(n)[4..] == [lo / 0x100_0000, lo / 0x1_0000 % 256, lo / 256 % 256, lo % 256]
  {
    var hi := n / 0x1_0000_0000;
    assert n / 0x100_0000 % 256 == lo / 0x100_0000 by {
      assert n / 0x100_0000 == hi * 256 + lo / 0x100_0000;
      SameLowOctet(hi, lo / 0x100_0000);
    }
    assert n / 0x1_0000 % 256 == lo / 0x1_0000 % 256 by {
      assert n / 0x1_0000 == (hi * 256) * 256 + lo / 0x1_0000;
      SameLowOctet(hi * 256, lo / 0x1_0000);
    }
    assert n / 256 % 256 == lo / 256 % 256 by {
      assert n / 256 == (hi * 0x1_0000) * 256 + lo / 256;
      SameLowOctet(hi * 0x1_0000, lo / 256);
    }
    assert n % 256 == lo % 256 by {
      assert n == (hi * 0x100_0000) * 256 + lo;
      SameLowOctet(hi * 0x100_0000, lo);
    }
  }

  // ---- byte for byte ----

  const SEEN4: seq<byte> := [115, 101, 101, 110, 52]
  const KEY4: seq<byte> := [10, 0, 0, 5]

  /** Table pbridge, set seen4, one element 10.0.0.5 that lives sixty seconds. */
  const SEEN4_ATTRS: seq<byte> :=
    [12, 0, 1, 0, 112, 98, 114, 105, 100, 103, 101, 0]
    + [10, 0, 2, 0, 115, 101, 101, 110, 52, 0, 0, 0]
    + [32, 0, 3, 128, 28, 0, 1, 128]
    + [12, 0, 1, 128, 8, 0, 1, 0, 10, 0, 0, 5]
    + [12, 0, 4, 0, 0, 0, 0, 0, 0, 0, 234, 96]

  lemma SmallNla(typ: U16, payload: seq<byte>, pad: seq<byte>)
    requires |payload| < 252 && |pad| < 4 && (4 + |payload| + |pad|) % 4 == 0 && pad == Zeros(|pad|)
    ensures Nla(typ, payload) == [4 + |payload|, 0, typ % 256, typ / 256] + payload + pad
  {
    assert Align4(4 + |payload|) == 4 + |payload| + |pad|;
  }

  lemma Seen4Elem()
    ensures SetelemElem(KEY4, None, Some(60000))
         == [12, 0, 1, 128, 8, 0, 1, 0, 10, 0, 0, 5] + [12, 0, 4, 0, 0, 0, 0, 0, 0, 0, 234, 96]
  {
    SmallNla(4, Be64(60000), []);
    SmallNla(1, KEY4, []);
    SmallNla(0x8001, Nla(1, KEY4), []);
    assert Be64(60000) == [0, 0, 0, 0, 0, 0, 234, 96];
    assert Nla(1, KEY4) == [8, 0, 1, 0, 10, 0, 0, 5];
  }

  lemma Seen4List(elem: seq<byte>)
    requires |elem| == 24
    ensures Nested(ELEM_LIST_ELEMENTS, Nested(LIST_ELEM, elem)) == [32, 0, 3, 128, 28, 0, 1, 128] + elem
  {
    SmallNla(0x8001, elem, []);
    SmallNla(0x8003, Nla(0x8001, elem), []);
  }

  lemma Seen4Names()
    ensures NlaStr(ELEM_LIST_TABLE, TABLE) == [12, 0, 1, 0, 112, 98, 114, 105, 100, 103, 101, 0]
    ensures NlaStr(ELEM_LIST_SET, SEEN4) == [10, 0, 2, 0, 115, 101, 101, 110, 52, 0, 0, 0]
  {
    SmallNla(1, TABLE + [0], []);
    SmallNla(2, SEEN4 + [0], [0, 0]);
  }

  /** What `setelem_msg` writes for it. */
  lemma Seen4OnTheWire()
    ensures SetelemAttrs(SEEN4, KEY4, None, Some(60000)) == SEEN4_ATTRS
  {
    var elem := SetelemElem(KEY4, None, Some(60000));
    Seen4Elem();
    Seen4List(elem);
    Seen4Names();
    var a, b, c := NlaStr(ELEM_LIST_TABLE, TABLE), NlaStr(ELEM_LIST_SET, SEEN4), Nested(ELEM_LIST_ELEMENTS, Nested(LIST_ELEM, elem));
    CatThree(a, b, c);
    assert a + b + c == SEEN4_ATTRS;
  }

  // ---- a dump of it ----

  /** A NEWSETELEM message with 56 bytes of attributes, then NLMSG_DONE: types 0x0a0c and 3. */
  function DumpOf(attrs: seq<byte>): seq<byte> {
    ([76, 0, 0, 0, 0x0c, 0x0a, 2, 0, 1, 0, 0, 0, 0, 0, 0, 0, 5, 0, 0, 0] + attrs)
    + [20, 0, 0, 0, 3, 0, 2, 0, 1, 0, 0, 0, 0, 0, 0, 0, 0, 0, 0, 0]
  }

  lemma SmallMessage(h: Head, attrs: seq<byte>)
    requires |attrs| < 200 && |attrs| % 4 == 0 && h.number < 256
    ensures Message(h, attrs)
         == [20 + |attrs|, 0, 0, 0, h.typ % 256, h.typ / 256, h.flags % 256, h.flags / 256, h.number, 0, 0, 0, 0, 0, 0, 0,
             h.family, 0, h.resId / 256, h.resId % 256] + attrs
  {
    assert Align4(20 + |attrs|) == 20 + |attrs|;
    assert Zeros(0) == [];
  }

  lemma DumpIsMessages(attrs: seq<byte>)
    requires |attrs| == 56
    ensures DumpOf(attrs) == Message(Head(0x0a0c, 2, 1, 5, 0), attrs) + Message(Head(3, 2, 1, 0, 0), [])
  {
    assert Message(Head(0x0a0c, 2, 1, 5, 0), attrs)
        == [76, 0, 0, 0, 0x0c, 0x0a, 2, 0, 1, 0, 0, 0, 0, 0, 0, 0, 5, 0, 0, 0] + attrs by {
      SmallMessage(Head(0x0a0c, 2, 1, 5, 0), attrs);
    }
    assert Message(Head(3, 2, 1, 0, 0), []) == [20, 0, 0, 0, 3, 0, 2, 0, 1, 0, 0, 0, 0, 0, 0, 0, 0, 0, 0, 0] by {
      SmallMessage(Head(3, 2, 1, 0, 0), []);
    }
  }

  lemma DumpBodies(attrs: seq<byte>)
    requires |attrs| == 56
    ensures Dumped([Recv(DumpOf(attrs), |DumpOf(attrs)|)], []) == Whole([attrs])
  {
    var recvs, h, done := [Recv(DumpOf(attrs), |DumpOf(attrs)|)], Head(0x0a0c, 2, 1, 5, 0), Head(3, 2, 1, 0, 0);
    var part := Part(Message(h, attrs), attrs);
    DumpIsMessages(attrs);
    assert Framed(part, h);
    assert Stream([part]) == part.bytes by { assert Stream([part]) == part.bytes + Stream([part][1..]); }
    assert Datagram(recvs[0]) == Stream([part]) + (Message(done, []) + []);
    assert Delivers(recvs, []);
    DumpIsComplete(recvs, [], [part], done, [], []);
    assert Bodies([part]) == [attrs] + Bodies([part][1..]);
    assert AllBodies([]) + Bodies([part]) == [attrs];
  }

  /** From the datagram to the address. */
  lemma DumpReadsSeen4()
    ensures KeysOfDump(Dumped([Recv(DumpOf(SEEN4_ATTRS), |DumpOf(SEEN4_ATTRS)|)], [])) == Whole([KEY4])
  {
    DumpBodies(SEEN4_ATTRS);
    assert Found(SEEN4_ATTRS, KEY_PATH) == [KEY4] by {
      Seen4OnTheWire();
      Seen4List(SetelemElem(KEY4, None, Some(60000)));
      SetelemRoundTrip(SEEN4, KEY4, None, Some(60000));
    }
    KeysOfLast([], SEEN4_ATTRS);
    assert [] + [SEEN4_ATTRS] == [SEEN4_ATTRS];
    assert KeysIn([]) + [KEY4] == [KEY4];
  }

  /** Length and type of the first message of a datagram. */
  lemma HeadIs(r: Recv, len: byte, lo: byte, hi: byte)
    requires Filled(r) && r.n >= 16 && r.rbuf[0] == len && r.rbuf[1] == r.rbuf[2] == r.rbuf[3] == 0
    requires r.rbuf[4] == lo && r.rbuf[5] == hi
    ensures MsgLen(r, 0) == len && MsgType(r, 0) == lo + 256 * hi
  {
  }

  /** A message of type 2 with a code other than zero is an error. */
  lemma ErrorIsReported()
    ensures var bytes := [20, 0, 0, 0, 2, 0, 0, 0, 1, 0, 0, 0, 0, 0, 0, 0, 255, 255, 255, 255];
            Dumped([Recv(bytes, 20)], []) == NlError([255, 255, 255, 255])
  {
    var bytes := [20, 0, 0, 0, 2, 0, 0, 0, 1, 0, 0, 0, 0, 0, 0, 0, 255, 255, 255, 255];
    var r := Recv(bytes, 20);
    HeadIs(r, 20, 2, 0);
    assert bytes[16..20] == [255, 255, 255, 255];
    assert Zeros(4)[0] == 0;
    assert LookAt(r, 0) == Failure;
  }

  /** An acknowledgement, type 2 with code zero, ends the dump with what was found. */
  lemma AckEnds(found: seq<seq<byte>>)
    ensures var bytes := [20, 0, 0, 0, 2, 0, 0, 0, 1, 0, 0, 0, 0, 0, 0, 0, 0, 0, 0, 0];
            Dumped([Recv(bytes, 20)], found) == Whole(found)
  {
    var bytes := [20, 0, 0, 0, 2, 0, 0, 0, 1, 0, 0, 0, 0, 0, 0, 0, 0, 0, 0, 0];
    var r := Recv(bytes, 20);
    HeadIs(r, 20, 2, 0);
    assert bytes[16..20] == Zeros(4);
    assert LookAt(r, 0) == Failure;
  }

  /** A message of another type without room for its nfgenmsg ends the program. */
  lemma RuntCrashes(found: seq<seq<byte>>)
    ensures var bytes := [16, 0, 0, 0, 0x0c, 0x0a, 0, 0, 1, 0, 0, 0, 0, 0, 0, 0];
            Dumped([Recv(bytes, 16)], found) == Crash
  {
    var bytes := [16, 0, 0, 0, 0x0c, 0x0a, 0, 0, 1, 0, 0, 0, 0, 0, 0, 0];
    var r := Recv(bytes, 16);
    HeadIs(r, 16, 0x0c, 0x0a);
    assert LookAt(r, 0) == Runt;
  }

  /** A message that claims more, or less, than there can be ends its datagram, not the dump. */
  lemma BadLengthIsSkipped(len: byte, more: seq<Recv>, found: seq<seq<byte>>)
    requires (len < 16 || len > 20) && forall r | r in more :: Filled(r)
    ensures var r := Recv([len, 0, 0, 0, 3, 0, 0, 0, 1, 0, 0, 0, 0, 0, 0, 0, 0, 0, 0, 0], 20);
            Filled(r) && Dumped([r] + more, found) == Dumped(more, found)
  {
    var r := Recv([len, 0, 0, 0, 3, 0, 0, 0, 1, 0, 0, 0, 0, 0, 0, 0, 0, 0, 0, 0], 20);
    HeadIs(r, len, 3, 0);
    assert LookAt(r, 0) == Nothing;
    DumpedOn([r] + more, found, found);
    assert ([r] + more)[1..] == more;
  }
}
