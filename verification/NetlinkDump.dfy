/**
 Netlink messages and the receive loop of `dump_set_elems`
 (src/backend/nft/wire.rs:322-346, 539-570): the keys of a whole dump, over any number of
 datagrams, or an error, never a part of them.
 */
module NetlinkDump {
  import opened Types
  import opened Bytes
  import opened Tlv
  import opened SetDump

  const NLMSG_ERROR: U16 := 2
  const NLMSG_DONE: U16 := 3

  // ---- framing ----

  datatype Head = Head(typ: U16, flags: U16, number: nat, family: byte, resId: U16)

  function Nlmsg(h: Head, total: nat): (v: seq<byte>)
    ensures |v| == 16
  {
    Le32(total) + Le16(h.typ) + Le16(h.flags) + Le32(h.number) + Le32(0)
  }

  /** `nl_msg`: header, nfgenmsg, attributes, padding. */
  function Message(h: Head, attrs: seq<byte>): (v: seq<byte>)
    ensures |v| == Align4(20 + |attrs|)
  {
    Nlmsg(h, 20 + |attrs|) + ([h.family, 0] + Be16(h.resId)) + attrs + Zeros(Align4(20 + |attrs|) - (20 + |attrs|))
  }

  method BuildMessage(h: Head, attrs: seq<byte>) returns (v: seq<byte>)
    ensures v == Message(h, attrs)
  {
    var body := [h.family, 0] + Be16(h.resId) + attrs;
    v := Nlmsg(h, 16 + |body|) + body;
    ghost var raw := v;
    assert raw == Nlmsg(h, 20 + |attrs|) + ([h.family, 0] + Be16(h.resId)) + attrs;
    while |v| % 4 != 0
      invariant |raw| <= |v| <= Align4(|raw|)
      invariant v == raw + Zeros(|v| - |raw|)
      decreases Align4(|raw|) - |v|
    {
      v := v + [0];
    }
  }

  // ---- the receive loop ----

  /** A datagram: the receive buffer and how much of it was filled. */
  datatype Recv = Recv(rbuf: seq<byte>, n: nat)

  predicate Filled(r: Recv) {
    r.n <= |r.rbuf|
  }

  /** How a dump ends; `found` is what was gathered from the message bodies. */
  datatype Dump<T> =
    | Whole(found: T)
    | NlError(code: seq<byte>)
    | RecvError
    | Crash

  /** Where the inner loop leaves off: wanting another datagram, or done. */
  datatype Scanned<T> = More(found: T) | End(dump: Dump<T>)

  function MsgLen(r: Recv, off: nat): nat
    requires Filled(r) && off + 16 <= r.n
  {
    NumLe32(r.rbuf[off..off + 4])
  }

  function MsgType(r: Recv, off: nat): U16
    requires Filled(r) && off + 16 <= r.n
  {
    NumLe16(r.rbuf[off + 4..off + 6])
  }

  /** What stands at an offset of a datagram. */
  datatype Look = Nothing | Closing | Failure | Runt | Carrying(mlen: nat)

  function LookAt(r: Recv, off: nat): (l: Look)
    requires Filled(r)
    ensures l.Carrying? ==> 20 <= l.mlen && off + l.mlen <= r.n
  {
    if off + 16 > r.n then Nothing
    else if MsgLen(r, off) < 16 || off + MsgLen(r, off) > r.n then Nothing
    else if MsgType(r, off) == NLMSG_DONE then Closing
    else if MsgType(r, off) == NLMSG_ERROR then Failure
    else if MsgLen(r, off) < 20 then Runt
    else Carrying(MsgLen(r, off))
  }

  /** An error message ends the dump; code 0 is an acknowledgement. */
  function ErrorEnd<T>(r: Recv, off: nat, found: T): Dump<T> {
    if off + 20 > |r.rbuf| then Crash
    else if r.rbuf[off + 16..off + 20] != Zeros(4) then NlError(r.rbuf[off + 16..off + 20])
    else Whole(found)
  }

  function StopAt<T>(r: Recv, off: nat, found: T): Scanned<T>
    requires Filled(r) && !LookAt(r, off).Carrying?
  {
    match LookAt(r, off)
    case Nothing => More(found)
    case Closing => End(Whole(found))
    case Failure => End(ErrorEnd(r, off, found))
    case Runt => End(Crash)
  }

  /** The bodies of the messages from an offset on. */
  function Scan(r: Recv, off: nat, bodies: seq<seq<byte>>): Scanned<seq<seq<byte>>>
    requires Filled(r)
    decreases r.n - off
  {
    var look := LookAt(r, off);
    if look.Carrying? then Scan(r, off + Align4(look.mlen), bodies + [r.rbuf[off + 20..off + look.mlen]])
    else StopAt(r, off, bodies)
  }

  function Dumped(recvs: seq<Recv>, bodies: seq<seq<byte>>): Dump<seq<seq<byte>>>
    requires forall r | r in recvs :: Filled(r)
  {
    if recvs == [] then RecvError
    else
      match Scan(recvs[0], 0, bodies)
      case More(found) => Dumped(recvs[1..], found)
      case End(d) => d
  }

  // ---- the loop as the program runs it ----

  /** The keys in a list of message bodies. */
  function KeysIn(bodies: seq<seq<byte>>): seq<seq<byte>> {
    if bodies == [] then [] else KeysIn(bodies[..|bodies| - 1]) + Found(bodies[|bodies| - 1], KEY_PATH)
  }

  function KeysOfDump(d: Dump<seq<seq<byte>>>): Dump<seq<seq<byte>>> {
    match d
    case Whole(bodies) => Whole(KeysIn(bodies))
    case NlError(code) => NlError(code)
    case RecvError => RecvError
    case Crash => Crash
  }

  function KeysOfScan(s: Scanned<seq<seq<byte>>>): Scanned<seq<seq<byte>>> {
    match s
    case More(bodies) => More(KeysIn(bodies))
    case End(d) => End(KeysOfDump(d))
  }

  lemma StopKeys(r: Recv, off: nat, bodies: seq<seq<byte>>)
    requires Filled(r) && !LookAt(r, off).Carrying?
    ensures KeysOfScan(StopAt(r, off, bodies)) == StopAt(r, off, KeysIn(bodies))
  {
  }

  lemma ScanOn(r: Recv, off: nat, mlen: nat, bodies: seq<seq<byte>>, seen: seq<seq<byte>>, next: nat)
    requires Filled(r) && LookAt(r, off) == Carrying(mlen) && next == off + Align4(mlen)
    requires seen == bodies + [r.rbuf[off + 20..off + mlen]]
    ensures Scan(r, off, bodies) == Scan(r, next, seen)
  {
  }

  lemma KeysOfLast(bodies: seq<seq<byte>>, last: seq<byte>)
    ensures KeysIn(bodies + [last]) == KeysIn(bodies) + Found(last, KEY_PATH)
  {
    assert (bodies + [last])[..|bodies|] == bodies;
  }

  /** One turn of the inner loop. */
  method TakeMessage(r: Recv, off: nat, keys: seq<seq<byte>>, ghost bodies: seq<seq<byte>>)
      returns (next: nat, more: seq<seq<byte>>, ghost seen: seq<seq<byte>>)
    requires Filled(r) && LookAt(r, off).Carrying? && keys == KeysIn(bodies)
    ensures off < next && off < r.n && more == KeysIn(seen)
    ensures Scan(r, off, bodies) == Scan(r, next, seen)
  {
    var mlen := LookAt(r, off).mlen;
    var body := r.rbuf[off + 20..off + mlen];
    more := ParseSetelemKeys(body, keys);
    seen := bodies + [body];
    next := off + Align4(mlen);
    assert more == KeysIn(seen) by { KeysOfLast(bodies, body); }
    ScanOn(r, off, mlen, bodies, seen, next);
  }

  /** The inner loop: one message after another. */
  method ScanDatagram(r: Recv, keys: seq<seq<byte>>, ghost bodies: seq<seq<byte>>) returns (s: Scanned<seq<seq<byte>>>)
    requires Filled(r) && keys == KeysIn(bodies)
    ensures s == KeysOfScan(Scan(r, 0, bodies))
  {
    var off, out := 0, keys;
    ghost var seen := bodies;
    while LookAt(r, off).Carrying?
      invariant out == KeysIn(seen) && Scan(r, off, seen) == Scan(r, 0, bodies)
      decreases r.n - off
    {
      off, out, seen := TakeMessage(r, off, out, seen);
    }
    StopKeys(r, off, seen);
    s := StopAt(r, off, out);
  }

  /** `dump_set_elems`; the datagrams are what the socket delivers before it fails, if it does. */
  method DumpSetElems(recvs: seq<Recv>) returns (d: Dump<seq<seq<byte>>>)
    requires forall r | r in recvs :: Filled(r)
    ensures d == KeysOfDump(Dumped(recvs, []))
  {
    var out, i := [], 0;
    ghost var bodies: seq<seq<byte>> := [];
    while i < |recvs|
      invariant 0 <= i <= |recvs| && out == KeysIn(bodies)
      invariant Dumped(recvs[i..], bodies) == Dumped(recvs, [])
    {
      var s := ScanDatagram(recvs[i], out, bodies);
      assert recvs[i..][1..] == recvs[i + 1..];
      match s {
        case End(e) => return e;
        case More(keys) =>
          out := keys;
          bodies := Scan(recvs[i], 0, bodies).found;
      }
      i := i + 1;
    }
    return RecvError;
  }

  // ---- what the kernel sends ----

  /** One message and the attributes it carries. */
  datatype Part = Part(bytes: seq<byte>, attrs: seq<byte>)

  predicate Framed(p: Part, h: Head) {
    && h.typ != NLMSG_DONE && h.typ != NLMSG_ERROR && |p.attrs| <= 0x1_0000
    && p.bytes == Message(h, p.attrs)
  }

  ghost predicate PartOk(p: Part) {
    exists h :: Framed(p, h)
  }

  function Stream(parts: seq<Part>): seq<byte> {
    if parts == [] then [] else parts[0].bytes + Stream(parts[1..])
  }

  function Bodies(parts: seq<Part>): seq<seq<byte>> {
    if parts == [] then [] else [parts[0].attrs] + Bodies(parts[1..])
  }

  /** The filled part of a datagram. */
  function Datagram(r: Recv): seq<byte>
    requires Filled(r)
  {
    r.rbuf[..r.n]
  }

  lemma HeadRead(r: Recv, off: nat, h: Head, total: nat)
    requires Filled(r) && off + 16 <= r.n && total < 0x1_0000_0000
    requires r.rbuf[off..off + 16] == Nlmsg(h, total)
    ensures MsgLen(r, off) == total && MsgType(r, off) == h.typ
  {
    var v := Nlmsg(h, total);
    assert v[0..4] == Le32(total) && v[4..6] == Le16(h.typ);
    SliceOfSlice(r.rbuf, off, off + 16, 0, 4);
    SliceOfSlice(r.rbuf, off, off + 16, 4, 2);
    Le32RoundTrip(total);
    Le16RoundTrip(h.typ);
  }

  lemma MessageParts(h: Head, attrs: seq<byte>, rest: seq<byte>)
    ensures var v, size := Message(h, attrs) + rest, Align4(20 + |attrs|);
            && v[0..16] == Nlmsg(h, 20 + |attrs|) && v[20..20 + |attrs|] == attrs
            && v[size..size + |rest|] == rest
  {
    var head, gen, pad := Nlmsg(h, 20 + |attrs|), [h.family, 0] + Be16(h.resId), Zeros(Align4(20 + |attrs|) - (20 + |attrs|));
    assert Message(h, attrs) == head + gen + attrs + pad;
  }

  /** Where the pieces of the first message lie. */
  lemma FirstMessage(r: Recv, off: nat, h: Head, attrs: seq<byte>, rest: seq<byte>)
    requires Filled(r) && off <= r.n && r.rbuf[off..r.n] == Message(h, attrs) + rest
    ensures off + Align4(20 + |attrs|) <= r.n
    ensures r.rbuf[off..off + 16] == Nlmsg(h, 20 + |attrs|)
    ensures r.rbuf[off + 20..off + 20 + |attrs|] == attrs
    ensures r.rbuf[off + Align4(20 + |attrs|)..r.n] == rest
  {
    var n, size := |attrs|, Align4(20 + |attrs|);
    MessageParts(h, attrs, rest);
    SliceOfSlice(r.rbuf, off, r.n, 0, 16);
    SliceOfSlice(r.rbuf, off, r.n, 20, n);
    SliceOfSlice(r.rbuf, off, r.n, size, |rest|);
  }

  lemma LooksLike(r: Recv, off: nat, h: Head, attrs: seq<byte>, rest: seq<byte>)
    requires Filled(r) && off <= r.n && r.rbuf[off..r.n] == Message(h, attrs) + rest && |attrs| <= 0x1_0000
    ensures LookAt(r, off) == if h.typ == NLMSG_DONE then Closing
                              else if h.typ == NLMSG_ERROR then Failure else Carrying(20 + |attrs|)
  {
    FirstMessage(r, off, h, attrs, rest);
    HeadRead(r, off, h, 20 + |attrs|);
  }

  /** What a part looks like where it stands. */
  predicate Shows(r: Recv, off: nat, p: Part, rest: seq<byte>)
    requires Filled(r)
  {
    && |p.bytes| == Align4(20 + |p.attrs|) && off + |p.bytes| <= r.n
    && LookAt(r, off) == Carrying(20 + |p.attrs|)
    && r.rbuf[off + 20..off + 20 + |p.attrs|] == p.attrs
    && r.rbuf[off + |p.bytes|..r.n] == rest
  }

  lemma PartShows(r: Recv, off: nat, p: Part, rest: seq<byte>)
    requires Filled(r) && off <= r.n && PartOk(p) && r.rbuf[off..r.n] == p.bytes + rest
    ensures Shows(r, off, p, rest)
  {
    var h :| Framed(p, h);
    LooksLike(r, off, h, p.attrs, rest);
    FirstMessage(r, off, h, p.attrs, rest);
  }

  lemma ScanOne(r: Recv, off: nat, p: Part, rest: seq<byte>, bodies: seq<seq<byte>>, seen: seq<seq<byte>>, next: nat)
    requires Filled(r) && Shows(r, off, p, rest) && seen == bodies + [p.attrs] && next == off + |p.bytes|
    ensures Scan(r, off, bodies) == Scan(r, next, seen)
  {
    ScanOn(r, off, 20 + |p.attrs|, bodies, seen, next);
  }

  lemma Assoc<T>(a: seq<T>, b: seq<T>, c: seq<T>)
    ensures (a + b) + c == a + (b + c)
  {
  }

  predicate StandsAt(buf: seq<byte>, off: nat, p: Part, rest: seq<byte>) {
    off <= |buf| && buf[off..] == p.bytes + rest
  }

  ghost predicate SteppedOver(buf: seq<byte>, scan: (nat, seq<seq<byte>>) -> Scanned<seq<seq<byte>>>, off: nat, p: Part,
                              rest: seq<byte>, bodies: seq<seq<byte>>)
  {
    && off + |p.bytes| <= |buf| && buf[off + |p.bytes|..] == rest
    && scan(off, bodies) == scan(off + |p.bytes|, bodies + [p.attrs])
  }

  /** Wherever the part stands in the buffer, the scan steps over it and takes its body. */
  ghost predicate StepsOver(buf: seq<byte>, scan: (nat, seq<seq<byte>>) -> Scanned<seq<seq<byte>>>, p: Part) {
    forall off: nat, rest, bodies :: StandsAt(buf, off, p, rest) ==> SteppedOver(buf, scan, off, p, rest, bodies)
  }

  /** A scan that steps over each part steps over a stream of them. */
  lemma {:induction false} Walk(buf: seq<byte>, scan: (nat, seq<seq<byte>>) -> Scanned<seq<seq<byte>>>, off: nat,
                                parts: seq<Part>, rest: seq<byte>, bodies: seq<seq<byte>>) returns (next: nat)
    requires off <= |buf| && buf[off..] == Stream(parts) + rest
    requires forall p | p in parts :: StepsOver(buf, scan, p)
    ensures next <= |buf| && buf[next..] == rest
    ensures scan(off, bodies) == scan(next, bodies + Bodies(parts))
    decreases |parts|
  {
    if parts == [] {
      assert bodies + Bodies(parts) == bodies;
      assert Stream(parts) + rest == rest;
      next := off;
    } else {
      var p, later := parts[0], Stream(parts[1..]) + rest;
      Assoc(p.bytes, Stream(parts[1..]), rest);
      Assoc(bodies, [p.attrs], Bodies(parts[1..]));
      assert StepsOver(buf, scan, p);
      assert StandsAt(buf, off, p, later);
      assert SteppedOver(buf, scan, off, p, later, bodies);
      next := Walk(buf, scan, off + |p.bytes|, parts[1..], rest, bodies + [p.attrs]);
    }
  }

  function ScanOf(r: Recv): (nat, seq<seq<byte>>) -> Scanned<seq<seq<byte>>>
    requires Filled(r)
  {
    (off: nat, bodies: seq<seq<byte>>) => Scan(r, off, bodies)
  }

  lemma ScanStepsAt(r: Recv, off: nat, p: Part, rest: seq<byte>, bodies: seq<seq<byte>>)
    requires Filled(r) && Shows(r, off, p, rest)
    ensures SteppedOver(Datagram(r), ScanOf(r), off, p, rest, bodies)
  {
    ScanOne(r, off, p, rest, bodies, bodies + [p.attrs], off + |p.bytes|);
    assert r.rbuf[off + |p.bytes|..r.n] == Datagram(r)[off + |p.bytes|..];
  }

  lemma StandingShows(r: Recv, off: nat, p: Part, rest: seq<byte>)
    requires Filled(r) && PartOk(p) && StandsAt(Datagram(r), off, p, rest)
    ensures Shows(r, off, p, rest)
  {
    assert r.rbuf[off..r.n] == Datagram(r)[off..];
    PartShows(r, off, p, rest);
  }

  lemma ScanSteps(r: Recv, p: Part)
    requires Filled(r) && PartOk(p)
    ensures StepsOver(Datagram(r), ScanOf(r), p)
  {
    forall off: nat, rest, bodies | StandsAt(Datagram(r), off, p, rest)
      ensures SteppedOver(Datagram(r), ScanOf(r), off, p, rest, bodies)
    {
      StandingShows(r, off, p, rest);
      ScanStepsAt(r, off, p, rest, bodies);
    }
  }

  lemma ScanParts(r: Recv, parts: seq<Part>, rest: seq<byte>, bodies: seq<seq<byte>>) returns (next: nat)
    requires Filled(r) && (forall p | p in parts :: PartOk(p))
    requires Datagram(r) == Stream(parts) + rest
    ensures next <= r.n && r.rbuf[next..r.n] == rest
    ensures Scan(r, 0, bodies) == Scan(r, next, bodies + Bodies(parts))
  {
    var buf, scan := Datagram(r), ScanOf(r);
    forall p | p in parts ensures StepsOver(buf, scan, p) {
      ScanSteps(r, p);
    }
    assert buf[0..] == buf;
    next := Walk(buf, scan, 0, parts, rest, bodies);
    assert r.rbuf[next..r.n] == buf[next..];
  }

  lemma FullDatagram(r: Recv, parts: seq<Part>, bodies: seq<seq<byte>>)
    requires Filled(r) && (forall p | p in parts :: PartOk(p)) && Datagram(r) == Stream(parts)
    ensures Scan(r, 0, bodies) == More(bodies + Bodies(parts))
  {
    assert Stream(parts) + [] == Stream(parts);
    var next := ScanParts(r, parts, [], bodies);
    assert next == r.n;
  }

  lemma LastDatagram(r: Recv, parts: seq<Part>, done: Head, attrs: seq<byte>, rest: seq<byte>, bodies: seq<seq<byte>>)
    requires Filled(r) && (forall p | p in parts :: PartOk(p)) && done.typ == NLMSG_DONE && |attrs| <= 0x1_0000
    requires Datagram(r) == Stream(parts) + (Message(done, attrs) + rest)
    ensures Scan(r, 0, bodies) == End(Whole(bodies + Bodies(parts)))
  {
    var next := ScanParts(r, parts, Message(done, attrs) + rest, bodies);
    LooksLike(r, next, done, attrs, rest);
  }

  function AllBodies(batches: seq<seq<Part>>): seq<seq<byte>> {
    if batches == [] then [] else Bodies(batches[0]) + AllBodies(batches[1..])
  }

  ghost predicate Delivered(r: Recv, batch: seq<Part>) {
    Filled(r) && (forall p | p in batch :: PartOk(p)) && Datagram(r) == Stream(batch)
  }

  /** The first datagrams carry the batches, whole messages each. */
  ghost predicate Delivers(recvs: seq<Recv>, batches: seq<seq<Part>>) {
    && |batches| <= |recvs|
    && (forall r | r in recvs :: Filled(r))
    && forall i | 0 <= i < |batches| :: Delivered(recvs[i], batches[i])
  }

  lemma DumpedOn(recvs: seq<Recv>, bodies: seq<seq<byte>>, more: seq<seq<byte>>)
    requires recvs != [] && (forall r | r in recvs :: Filled(r)) && Scan(recvs[0], 0, bodies) == More(more)
    ensures Dumped(recvs, bodies) == Dumped(recvs[1..], more)
  {
  }

  lemma DeliversRest(recvs: seq<Recv>, batches: seq<seq<Part>>)
    requires Delivers(recvs, batches) && batches != []
    ensures Delivers(recvs[1..], batches[1..])
    ensures recvs[1..][|batches[1..]|..] == recvs[|batches|..]
  {
  }

  lemma {:induction false} DumpedBatches(recvs: seq<Recv>, batches: seq<seq<Part>>, bodies: seq<seq<byte>>)
    requires Delivers(recvs, batches)
    ensures Dumped(recvs, bodies) == Dumped(recvs[|batches|..], bodies + AllBodies(batches))
    decreases |batches|
  {
    if batches == [] {
      assert bodies + [] == bodies;
      assert recvs[0..] == recvs;
    } else {
      var more := bodies + Bodies(batches[0]);
      assert Delivered(recvs[0], batches[0]);
      FullDatagram(recvs[0], batches[0], bodies);
      DumpedOn(recvs, bodies, more);
      DeliversRest(recvs, batches);
      DumpedBatches(recvs[1..], batches[1..], more);
      Assoc(bodies, Bodies(batches[0]), AllBodies(batches[1..]));
    }
  }

  /** A dump spread over any datagrams and closed by NLMSG_DONE gives every body, in order. */
  lemma DumpIsComplete(recvs: seq<Recv>, batches: seq<seq<Part>>, last: seq<Part>, done: Head, attrs: seq<byte>, rest: seq<byte>)
    requires Delivers(recvs, batches) && |batches| < |recvs|
    requires (forall p | p in last :: PartOk(p)) && done.typ == NLMSG_DONE && |attrs| <= 0x1_0000
    requires Datagram(recvs[|batches|]) == Stream(last) + (Message(done, attrs) + rest)
    ensures Dumped(recvs, []) == Whole(AllBodies(batches) + Bodies(last))
  {
    DumpedBatches(recvs, batches, []);
    assert [] + AllBodies(batches) == AllBodies(batches);
    LastDatagram(recvs[|batches|], last, done, attrs, rest, AllBodies(batches));
  }

  /** A socket that fails before NLMSG_DONE yields an error, not the keys so far. */
  lemma NoPartialDump(recvs: seq<Recv>, batches: seq<seq<Part>>)
    requires Delivers(recvs, batches) && |batches| == |recvs|
    ensures Dumped(recvs, []) == RecvError
  {
    DumpedBatches(recvs, batches, []);
  }

  // ---- and the keys ----

  function Encodings(bodies: seq<Body>): seq<seq<byte>> {
    if bodies == [] then [] else Encodings(bodies[..|bodies| - 1]) + [Encoded(BodyAttrs(bodies[|bodies| - 1]))]
  }

  function AllElems(bodies: seq<Body>): seq<Elem> {
    if bodies == [] then [] else AllElems(bodies[..|bodies| - 1]) + bodies[|bodies| - 1].elems
  }

  lemma {:induction false} KeysAppend(a: seq<Elem>, b: seq<Elem>)
    ensures KeysOf(a + b) == KeysOf(a) + KeysOf(b)
  {
    if a == [] {
      assert a + b == b;
    } else {
      assert (a + b)[1..] == a[1..] + b;
      KeysAppend(a[1..], b);
    }
  }

  /** Read together, the dumped bodies give the keys of all elements, in order. */
  lemma {:induction false} KeysOfBodies(bodies: seq<Body>)
    requires forall b | b in bodies :: BodyOk(b)
    ensures KeysIn(Encodings(bodies)) == KeysOf(AllElems(bodies))
    decreases |bodies|
  {
    if bodies != [] {
      var front, last := bodies[..|bodies| - 1], bodies[|bodies| - 1];
      KeysOfBodies(front);
      BodyKeys(last);
      KeysOfLast(Encodings(front), Encoded(BodyAttrs(last)));
      KeysAppend(AllElems(front), last.elems);
    }
  }

  /** End to end: whatever elements the kernel reports, in whatever messages and datagrams, the
      dump returns exactly their keys, in order. */
  lemma DumpReturnsTheKeys(recvs: seq<Recv>, batches: seq<seq<Part>>, last: seq<Part>, done: Head, attrs: seq<byte>,
                           rest: seq<byte>, bodies: seq<Body>)
    requires Delivers(recvs, batches) && |batches| < |recvs|
    requires (forall p | p in last :: PartOk(p)) && done.typ == NLMSG_DONE && |attrs| <= 0x1_0000
    requires Datagram(recvs[|batches|]) == Stream(last) + (Message(done, attrs) + rest)
    requires (forall b | b in bodies :: BodyOk(b)) && AllBodies(batches) + Bodies(last) == Encodings(bodies)
    ensures KeysOfDump(Dumped(recvs, [])) == Whole(KeysOf(AllElems(bodies)))
  {
    DumpIsComplete(recvs, batches, last, done, attrs, rest);
    KeysOfBodies(bodies);
  }
}
