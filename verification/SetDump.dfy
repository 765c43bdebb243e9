/**
 Set elements on the wire: what `setelem_msg` writes and what `dump_set_elems` reads back
 (src/backend/nft/mod.rs:896-919, src/backend/nft/wire.rs:322-346, 527-570, 599-619).
 */
module SetDump {
  import opened Types
  import opened Tlv

  const ELEM_LIST_TABLE: U16 := 1
  const ELEM_LIST_SET: U16 := 2
  const ELEM_LIST_ELEMENTS: U16 := 3
  const LIST_ELEM: U16 := 1
  const ELEM_KEY: U16 := 1
  const ELEM_DATA: U16 := 2
  const ELEM_TIMEOUT: U16 := 4
  const DATA_VALUE: U16 := 1

  const KEY_PATH: seq<U16> := [ELEM_LIST_ELEMENTS, LIST_ELEM, ELEM_KEY, DATA_VALUE]

  // ---- reading keys ----

  /** Everything that lies under a path of attribute types, in the order of the buffer. */
  function Found(buf: seq<byte>, path: seq<U16>): seq<seq<byte>>
    decreases |path|, 1, 0
  {
    if path == [] then [buf] else FoundIn(Parsed(buf), path)
  }

  function FoundIn(attrs: seq<Attr>, path: seq<U16>): seq<seq<byte>>
    requires path != []
    decreases |path|, 0, |attrs|
  {
    if attrs == [] then []
    else (if attrs[0].typ == path[0] then Found(attrs[0].payload, path[1..]) else []) + FoundIn(attrs[1..], path)
  }

  /** One turn of any of the four loops. */
  lemma Turn(attrs: seq<Attr>, i: nat, path: seq<U16>)
    requires path != [] && i < |attrs|
    ensures FoundIn(attrs[i..], path)
         == (if attrs[i].typ == path[0] then Found(attrs[i].payload, path[1..]) else []) + FoundIn(attrs[i + 1..], path)
  {
    assert attrs[i..][1..] == attrs[i + 1..];
  }

  method CollectValues(kv: seq<byte>, keys: seq<seq<byte>>) returns (out: seq<seq<byte>>)
    ensures out == keys + Found(kv, KEY_PATH[3..])
  {
    out := keys;
    var attrs := ParseAttrs(kv);
    for i := 0 to |attrs|
      invariant out + FoundIn(attrs[i..], KEY_PATH[3..]) == keys + FoundIn(attrs, KEY_PATH[3..])
    {
      Turn(attrs, i, KEY_PATH[3..]);
      if attrs[i].typ == DATA_VALUE {
        out := out + [attrs[i].payload];
      }
    }
  }

  /** The four nested loops of `parse_setelem_keys`, the innermost one above. */
  method ParseSetelemKeys(body: seq<byte>, keys: seq<seq<byte>>) returns (out: seq<seq<byte>>)
    ensures out == keys + Found(body, KEY_PATH)
  {
    out := keys;
    var lists := ParseAttrs(body);
    for i := 0 to |lists|
      invariant out + FoundIn(lists[i..], KEY_PATH) == keys + FoundIn(lists, KEY_PATH)
    {
      Turn(lists, i, KEY_PATH);
      if lists[i].typ == ELEM_LIST_ELEMENTS {
        out := CollectElems(lists[i].payload, out);
      }
    }
  }

  method CollectElems(list: seq<byte>, keys: seq<seq<byte>>) returns (out: seq<seq<byte>>)
    ensures out == keys + Found(list, KEY_PATH[1..])
  {
    out := keys;
    var elems := ParseAttrs(list);
    for i := 0 to |elems|
      invariant out + FoundIn(elems[i..], KEY_PATH[1..]) == keys + FoundIn(elems, KEY_PATH[1..])
    {
      Turn(elems, i, KEY_PATH[1..]);
      if elems[i].typ == LIST_ELEM {
        out := CollectKeys(elems[i].payload, out);
      }
    }
  }

  method CollectKeys(elem: seq<byte>, keys: seq<seq<byte>>) returns (out: seq<seq<byte>>)
    ensures out == keys + Found(elem, KEY_PATH[2..])
  {
    out := keys;
    var parts := ParseAttrs(elem);
    for i := 0 to |parts|
      invariant out + FoundIn(parts[i..], KEY_PATH[2..]) == keys + FoundIn(parts, KEY_PATH[2..])
    {
      Turn(parts, i, KEY_PATH[2..]);
      if parts[i].typ == ELEM_KEY {
        out := CollectValues(parts[i].payload, out);
      }
    }
  }

  // ---- writing elements ----

  /** An element: its key, and whatever other attributes it carries. */
  datatype Elem = Elem(key: seq<byte>, rest: seq<Attr>)

  function ElemAttrs(e: Elem): seq<Attr> {
    [Attr(NestedType(ELEM_KEY), Nla(DATA_VALUE, e.key))] + e.rest
  }

  predicate NoneOf(attrs: seq<Attr>, typ: U16) {
    forall a | a in attrs :: a.typ % 0x4000 != typ
  }

  predicate ElemOk(e: Elem) {
    && Sized(ElemAttrs(e)) && |e.key| <= LARGEST && NoneOf(e.rest, ELEM_KEY)
    && |Encoded(ElemAttrs(e))| <= LARGEST
  }

  function ListAttrs(es: seq<Elem>): seq<Attr> {
    if es == [] then [] else [Attr(NestedType(LIST_ELEM), Encoded(ElemAttrs(es[0])))] + ListAttrs(es[1..])
  }

  function KeysOf(es: seq<Elem>): seq<seq<byte>> {
    if es == [] then [] else [es[0].key] + KeysOf(es[1..])
  }

  predicate ListOk(es: seq<Elem>) {
    (forall e | e in es :: ElemOk(e)) && |Encoded(ListAttrs(es))| <= LARGEST
  }

  /** A message body: an element list between attributes of other types. */
  datatype Body = Body(before: seq<Attr>, elems: seq<Elem>, after: seq<Attr>)

  function BodyAttrs(b: Body): seq<Attr> {
    b.before + [Attr(NestedType(ELEM_LIST_ELEMENTS), Encoded(ListAttrs(b.elems)))] + b.after
  }

  predicate BodyOk(b: Body) {
    && ListOk(b.elems) && Sized(b.before) && Sized(b.after)
    && NoneOf(b.before, ELEM_LIST_ELEMENTS) && NoneOf(b.after, ELEM_LIST_ELEMENTS)
  }

  lemma {:induction false} FoundAppend(a: seq<Attr>, b: seq<Attr>, path: seq<U16>)
    requires path != []
    ensures FoundIn(a + b, path) == FoundIn(a, path) + FoundIn(b, path)
    decreases |a|
  {
    if a == [] {
      assert a + b == b;
    } else {
      assert (a + b)[1..] == a[1..] + b;
      FoundAppend(a[1..], b, path);
    }
  }

  lemma {:induction false} NothingFound(attrs: seq<Attr>, path: seq<U16>)
    requires path != [] && NoneOf(attrs, path[0])
    ensures FoundIn(Stripped(attrs), path) == []
    decreases |attrs|
  {
    if attrs != [] {
      StrippedFirst(attrs);
      NothingFound(attrs[1..], path);
    }
  }

  lemma FoundOne(a: Attr, path: seq<U16>)
    requires path != [] && a.typ == path[0]
    ensures FoundIn([a], path) == Found(a.payload, path[1..])
  {
    assert FoundIn([a], path) == Found(a.payload, path[1..]) + FoundIn([a][1..], path);
  }

  lemma KeyFound(key: seq<byte>)
    requires |key| <= LARGEST
    ensures Found(Nla(DATA_VALUE, key), KEY_PATH[3..]) == [key]
  {
    var a := Attr(DATA_VALUE, key);
    EncodedOne(a);
    RoundTrip([a]);
    assert Stripped([a]) == [a];
    FoundOne(a, KEY_PATH[3..]);
    assert KEY_PATH[3..][1..] == [];
  }

  lemma NestedStrips(typ: U16)
    requires typ < 0x4000
    ensures NestedType(typ) % 0x4000 == typ
  {
  }

  lemma ElemFound(e: Elem)
    requires ElemOk(e)
    ensures Found(Encoded(ElemAttrs(e)), KEY_PATH[2..]) == [e.key]
  {
    var path, k := KEY_PATH[2..], Attr(NestedType(ELEM_KEY), Nla(DATA_VALUE, e.key));
    RoundTrip(ElemAttrs(e));
    StrippedAppend([k], e.rest);
    NestedStrips(ELEM_KEY);
    var s := Attr(ELEM_KEY, k.payload);
    assert Stripped([k]) == [s];
    FoundAppend([s], Stripped(e.rest), path);
    FoundOne(s, path);
    assert path[1..] == KEY_PATH[3..];
    KeyFound(e.key);
    NothingFound(e.rest, path);
  }

  lemma {:induction false} ListFound(es: seq<Elem>)
    requires forall e | e in es :: ElemOk(e)
    ensures FoundIn(Stripped(ListAttrs(es)), KEY_PATH[1..]) == KeysOf(es)
    ensures Sized(ListAttrs(es))
  {
    if es != [] {
      var path, a := KEY_PATH[1..], ListAttrs(es)[0];
      ListFound(es[1..]);
      StrippedFirst(ListAttrs(es));
      assert ListAttrs(es)[1..] == ListAttrs(es[1..]);
      NestedStrips(LIST_ELEM);
      ElemFound(es[0]);
      var s := Attr(LIST_ELEM, a.payload);
      FoundAppend([s], Stripped(ListAttrs(es[1..])), path);
      FoundOne(s, path);
      assert path[1..] == KEY_PATH[2..];
    }
  }

  /** The keys of any message body come back in order, whatever else the elements and the
      message carry. */
  lemma BodyKeys(b: Body)
    requires BodyOk(b)
    ensures Found(Encoded(BodyAttrs(b)), KEY_PATH) == KeysOf(b.elems)
  {
    var list := Attr(NestedType(ELEM_LIST_ELEMENTS), Encoded(ListAttrs(b.elems)));
    var s := Attr(ELEM_LIST_ELEMENTS, list.payload);
    RoundTrip(BodyAttrs(b));
    StrippedAppend(b.before + [list], b.after);
    StrippedAppend(b.before, [list]);
    NestedStrips(ELEM_LIST_ELEMENTS);
    assert Stripped([list]) == [s];
    FoundAppend(Stripped(b.before) + [s], Stripped(b.after), KEY_PATH);
    FoundAppend(Stripped(b.before), [s], KEY_PATH);
    NothingFound(b.before, KEY_PATH);
    NothingFound(b.after, KEY_PATH);
    FoundOne(s, KEY_PATH);
    ListFound(b.elems);
    RoundTrip(ListAttrs(b.elems));
  }

  // ---- what setelem_msg writes ----

  const TABLE: seq<byte> := [112, 98, 114, 105, 100, 103, 101]

  function Be64(n: nat): (v: seq<byte>)
    ensures |v| == 8
  {
    [n / 0x100_0000_0000_0000 % 256, n / 0x1_0000_0000_0000 % 256, n / 0x100_0000_0000 % 256, n / 0x1_0000_0000 % 256,
     n / 0x100_0000 % 256, n / 0x1_0000 % 256, n / 256 % 256, n % 256]
  }

  function NlaStr(typ: U16, s: seq<byte>): seq<byte> {
    Nla(typ, s + [0])
  }

  function SetelemElem(key: seq<byte>, data: Option<seq<byte>>, timeout: Option<nat>): seq<byte> {
    Nested(ELEM_KEY, Nla(DATA_VALUE, key))
      + (if data.Some? then Nested(ELEM_DATA, Nla(DATA_VALUE, data.value)) else [])
      + (if timeout.Some? then Nla(ELEM_TIMEOUT, Be64(timeout.value)) else [])
  }

  function SetelemAttrs(name: seq<byte>, key: seq<byte>, data: Option<seq<byte>>, timeout: Option<nat>): seq<byte> {
    Cat([NlaStr(ELEM_LIST_TABLE, TABLE), NlaStr(ELEM_LIST_SET, name),
         Nested(ELEM_LIST_ELEMENTS, Nested(LIST_ELEM, SetelemElem(key, data, timeout)))])
  }

  function OptAttr(o: Option<Attr>): seq<Attr> {
    if o.Some? then [o.value] else []
  }

  lemma EncodedOpt(o: Option<Attr>)
    ensures Encoded(OptAttr(o)) == if o.Some? then Nla(o.value.typ, o.value.payload) else []
  {
    if o.Some? {
      EncodedOne(o.value);
    }
  }

  function SetelemAsElem(key: seq<byte>, data: Option<seq<byte>>, timeout: Option<nat>): Elem {
    Elem(key,
         OptAttr(if data.Some? then Some(Attr(NestedType(ELEM_DATA), Nla(DATA_VALUE, data.value))) else None)
           + OptAttr(if timeout.Some? then Some(Attr(ELEM_TIMEOUT, Be64(timeout.value))) else None))
  }

  lemma SetelemIsElem(key: seq<byte>, data: Option<seq<byte>>, timeout: Option<nat>)
    ensures SetelemElem(key, data, timeout) == Encoded(ElemAttrs(SetelemAsElem(key, data, timeout)))
  {
    var k := Attr(NestedType(ELEM_KEY), Nla(DATA_VALUE, key));
    var d := if data.Some? then Some(Attr(NestedType(ELEM_DATA), Nla(DATA_VALUE, data.value))) else None;
    var t := if timeout.Some? then Some(Attr(ELEM_TIMEOUT, Be64(timeout.value))) else None;
    EncodedOne(k);
    EncodedOpt(d);
    EncodedOpt(t);
    EncodedAppend(OptAttr(d), OptAttr(t));
    EncodedAppend([k], OptAttr(d) + OptAttr(t));
  }

  function SetelemBody(name: seq<byte>, e: Elem): Body {
    Body([Attr(ELEM_LIST_TABLE, TABLE + [0]), Attr(ELEM_LIST_SET, name + [0])], [e], [])
  }

  lemma CatThree(a: seq<byte>, b: seq<byte>, c: seq<byte>)
    ensures Cat([a, b, c]) == a + b + c
  {
    assert [a, b, c][1..] == [b, c];
    assert Cat([c]) == c + Cat([]);
    assert Cat([b, c]) == b + Cat([c]);
  }

  lemma EncodedThree(x: Attr, y: Attr, z: Attr)
    ensures Encoded([x, y, z]) == Nla(x.typ, x.payload) + Nla(y.typ, y.payload) + Nla(z.typ, z.payload)
  {
    assert [x, y, z] == [x] + ([y] + [z]);
    EncodedOne(x);
    EncodedOne(y);
    EncodedOne(z);
    EncodedAppend([y], [z]);
    EncodedAppend([x], [y] + [z]);
  }

  lemma SetelemIsBody(name: seq<byte>, key: seq<byte>, data: Option<seq<byte>>, timeout: Option<nat>)
    ensures SetelemAttrs(name, key, data, timeout)
         == Encoded(BodyAttrs(SetelemBody(name, SetelemAsElem(key, data, timeout))))
  {
    var e := SetelemAsElem(key, data, timeout);
    var x, y := Attr(ELEM_LIST_TABLE, TABLE + [0]), Attr(ELEM_LIST_SET, name + [0]);
    var inner := Attr(NestedType(LIST_ELEM), SetelemElem(key, data, timeout));
    var list := Attr(NestedType(ELEM_LIST_ELEMENTS), Nla(inner.typ, inner.payload));
    assert BodyAttrs(SetelemBody(name, e)) == [x, y, list] by {
      SetelemIsElem(key, data, timeout);
      assert ListAttrs([e]) == [inner];
      EncodedOne(inner);
    }
    EncodedThree(x, y, list);
    CatThree(NlaStr(ELEM_LIST_TABLE, TABLE), NlaStr(ELEM_LIST_SET, name), Nla(list.typ, list.payload));
  }

  /** Reading the attributes `setelem_msg` builds gives exactly the key, whatever the data and
      the timeout. */
  lemma SetelemRoundTrip(name: seq<byte>, key: seq<byte>, data: Option<seq<byte>>, timeout: Option<nat>)
    requires |name| < LARGEST && |key| <= LARGEST
    requires |Nested(LIST_ELEM, SetelemElem(key, data, timeout))| <= LARGEST
    ensures Found(SetelemAttrs(name, key, data, timeout), KEY_PATH) == [key]
  {
    var e := SetelemAsElem(key, data, timeout);
    var b := SetelemBody(name, e);
    SetelemIsElem(key, data, timeout);
    SetelemIsBody(name, key, data, timeout);
    assert ElemOk(e) by { SetelemElemOk(key, data, timeout); }
    assert ListAttrs([e]) == [Attr(NestedType(LIST_ELEM), Encoded(ElemAttrs(e)))];
    EncodedOne(ListAttrs([e])[0]);
    assert BodyOk(b);
    BodyKeys(b);
    assert KeysOf([e]) == [key];
  }

  lemma OptOk(o: Option<Attr>, typ: U16)
    requires o.Some? ==> |o.value.payload| <= LARGEST && o.value.typ % 0x4000 != typ
    ensures Sized(OptAttr(o)) && NoneOf(OptAttr(o), typ)
  {
  }

  lemma PartsFit(e: Elem)
    requires |Encoded(ElemAttrs(e))| <= LARGEST && |e.key| <= LARGEST && Sized(e.rest) && NoneOf(e.rest, ELEM_KEY)
    ensures ElemOk(e)
  {
    assert |Encoded(ElemAttrs(e))| >= |Nla(ElemAttrs(e)[0].typ, ElemAttrs(e)[0].payload)|;
  }

  lemma SetelemElemOk(key: seq<byte>, data: Option<seq<byte>>, timeout: Option<nat>)
    requires |key| <= LARGEST && |SetelemElem(key, data, timeout)| <= LARGEST
    ensures ElemOk(SetelemAsElem(key, data, timeout))
  {
    var d := if data.Some? then Some(Attr(NestedType(ELEM_DATA), Nla(DATA_VALUE, data.value))) else None;
    var t := if timeout.Some? then Some(Attr(ELEM_TIMEOUT, Be64(timeout.value))) else None;
    assert SetelemAsElem(key, data, timeout) == Elem(key, OptAttr(d) + OptAttr(t));
    SetelemIsElem(key, data, timeout);
    NestedStrips(ELEM_DATA);
    assert d.Some? ==> |d.value.payload| <= LARGEST;
    OptOk(d, ELEM_KEY);
    OptOk(t, ELEM_KEY);
    PartsFit(Elem(key, OptAttr(d) + OptAttr(t)));
  }
}
