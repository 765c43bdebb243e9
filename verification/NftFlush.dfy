/**
 `flush` of the nft backend (src/backend/nft/mod.rs:461-478): the keys dumped from seen4 and
 seen6, cut to addresses, are the addresses whose mark has not expired.
 */
module NftFlush {
  import opened Types
  import opened Backend
  import opened SetDump
  import opened NetlinkDump

  /** The address in a dumped key; a key too short for its family is skipped. */
  function Cut(fam: Family, key: seq<byte>): (ip: Option<Ip>)
    ensures ip.Some? ==> FamilyOf(ip.value) == fam && Octets(ip.value) <= key
  {
    match fam
    case Fam4 => if |key| >= 4 then Some(V4(key[..4])) else None
    case Fam6 => if |key| >= 16 then Some(V6(key[..16])) else None
  }

  function Octets(ip: Ip): seq<byte> {
    match ip
    case V4(o) => o
    case V6(o) => o
  }

  function CutAll(fam: Family, keys: seq<seq<byte>>): seq<Ip> {
    if keys == [] then []
    else
      var first := Cut(fam, keys[0]);
      (if first.Some? then [first.value] else []) + CutAll(fam, keys[1..])
  }

  /** One turn of the loop: what it pushes is what the rest of the keys loses. */
  lemma CutStep(fam: Family, keys: seq<seq<byte>>, i: nat, was: seq<Ip>, alive: seq<Ip>)
    requires i < |keys|
    requires alive == match Cut(fam, keys[i]) case Some(ip) => was + [ip] case None => was
    ensures alive + CutAll(fam, keys[i + 1..]) == was + CutAll(fam, keys[i..])
  {
    var rest := CutAll(fam, keys[i + 1..]);
    assert keys[i..][1..] == keys[i + 1..];
    match Cut(fam, keys[i])
    case Some(ip) => Assoc(was, [ip], rest);
    case None => assert [] + rest == rest;
  }

  method CutKeys(fam: Family, keys: seq<seq<byte>>) returns (alive: seq<Ip>)
    ensures alive == CutAll(fam, keys)
  {
    alive := [];
    for i := 0 to |keys|
      invariant alive + CutAll(fam, keys[i..]) == CutAll(fam, keys)
    {
      var ip := Cut(fam, keys[i]);
      ghost var was := alive;
      if ip.Some? {
        alive := alive + [ip.value];
      }
      CutStep(fam, keys, i, was, alive);
    }
  }

  /** The report of a flush: nothing unless both dumps are whole. */
  function Report(d4: Dump<seq<seq<byte>>>, d6: Dump<seq<seq<byte>>>): Option<seq<Ip>> {
    if d4.Whole? && d6.Whole? then Some(CutAll(Fam4, d4.found) + CutAll(Fam6, d6.found)) else None
  }

  // ---- what the kernel lists ----

  /** One element per mark of a family; a key may be padded beyond the address. */
  predicate Keyed(elems: seq<Elem>, marks: seq<Ip>, fam: Family) {
    |elems| == |marks| && forall i | 0 <= i < |marks| :: FamilyOf(marks[i]) == fam && Octets(marks[i]) <= elems[i].key
  }

  /** The elements stand for the marks of a family that have not expired. */
  predicate Lists(elems: seq<Elem>, marks: seq<Ip>, k: NftKernel, fam: Family, now: nat) {
    Keyed(elems, marks, fam) && ToSet(marks) == set ip | ip in k.seen && Unexpired(k, ip, now) && FamilyOf(ip) == fam
  }

  /** Datagrams that carry the elements in whole messages, closed by NLMSG_DONE. */
  ghost predicate Carries(recvs: seq<Recv>, elems: seq<Elem>, batches: seq<seq<Part>>, last: seq<Part>, done: Head,
                          attrs: seq<byte>, rest: seq<byte>, bodies: seq<Body>)
  {
    && Delivers(recvs, batches) && |batches| < |recvs|
    && (forall p | p in last :: PartOk(p)) && done.typ == NLMSG_DONE && |attrs| <= 0x1_0000
    && Datagram(recvs[|batches|]) == Stream(last) + (Message(done, attrs) + rest)
    && (forall b | b in bodies :: BodyOk(b)) && AllBodies(batches) + Bodies(last) == Encodings(bodies)
    && AllElems(bodies) == elems
  }

  ghost predicate DumpOf(recvs: seq<Recv>, elems: seq<Elem>) {
    && (forall r | r in recvs :: Filled(r))
    && exists batches, last, done, attrs, rest, bodies :: Carries(recvs, elems, batches, last, done, attrs, rest, bodies)
  }

  lemma DumpOfKeys(recvs: seq<Recv>, elems: seq<Elem>)
    requires DumpOf(recvs, elems)
    ensures KeysOfDump(Dumped(recvs, [])) == Whole(KeysOf(elems))
  {
    var batches, last, done, attrs, rest, bodies :| Carries(recvs, elems, batches, last, done, attrs, rest, bodies);
    DumpReturnsTheKeys(recvs, batches, last, done, attrs, rest, bodies);
  }

  // ---- the cut keys are the marks ----

  lemma CutIsMark(ip: Ip, key: seq<byte>)
    requires Octets(ip) <= key
    ensures Cut(FamilyOf(ip), key) == Some(ip)
  {
    assert key[..|Octets(ip)|] == Octets(ip);
  }

  lemma {:induction false} CutGivesMarks(elems: seq<Elem>, marks: seq<Ip>, fam: Family)
    requires Keyed(elems, marks, fam)
    ensures CutAll(fam, KeysOf(elems)) == marks
  {
    if elems != [] {
      CutIsMark(marks[0], elems[0].key);
      CutGivesMarks(elems[1..], marks[1..], fam);
      assert KeysOf(elems)[1..] == KeysOf(elems[1..]);
    }
  }

  /** End to end: from the datagrams of the two dumps to the marks that have not expired. */
  lemma FlushReportsTheAlive(n: Nft, recvs4: seq<Recv>, recvs6: seq<Recv>, elems4: seq<Elem>, elems6: seq<Elem>,
                             marks4: seq<Ip>, marks6: seq<Ip>, now: nat)
    requires DumpOf(recvs4, elems4) && DumpOf(recvs6, elems6)
    requires Lists(elems4, marks4, n.k, Fam4, now) && Lists(elems6, marks6, n.k, Fam6, now)
    ensures Report(KeysOfDump(Dumped(recvs4, [])), KeysOfDump(Dumped(recvs6, []))) == Some(marks4 + marks6)
    ensures ToSet(marks4 + marks6) == NftAlive(n, now)
  {
    DumpOfKeys(recvs4, elems4);
    DumpOfKeys(recvs6, elems6);
    CutGivesMarks(elems4, marks4, Fam4);
    CutGivesMarks(elems6, marks6, Fam6);
    assert ToSet(marks4 + marks6) == ToSet(marks4) + ToSet(marks6);
  }
}
