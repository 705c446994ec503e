/** The serialized form of a macaroon and the parser that reads it back. */
module MacaroonWire {
  import opened Options
  import opened FlatFile
  import opened Base64
  import opened Base64Proofs
  import opened Packet
  import opened Macaroon

  const BRACE: Byte := 123  // '{' announces the JSON form

  // ------------------------------------------------------------------- serializing

  function CaveatBytes(cs: seq<Caveat>): Bytes {
    if cs == [] then [] else cs[0].cid + cs[0].vid + cs[0].cl + CaveatBytes(cs[1..])
  }

  function Wire(m: Macaroon): Bytes { m.location + m.identifier + CaveatBytes(m.caveats) + m.signature }

  /** macaroon_serialize_size_hint. */
  function SizeHint(m: Macaroon): nat { (|Wire(m)| + 2) / 3 * 4 + 1 }

  /** The hint is the length of the padded text and its terminating zero, which is enough. */
  lemma HintSuffices(m: Macaroon)
    ensures SizeHint(m) == (|Text(Wire(m))| + 3) / 4 * 4 + 1 && Need(|Wire(m)|) <= SizeHint(m)
  {
    TextLength(Wire(m));
  }

  // ----------------------------------------------------------------- deserializing

  /** What counting the packets to the end comes to. A packet that states size zero is counted for
      ever. */
  datatype Walk = Broken | Stuck | Packets(n: nat)

  function Count(data: Bytes): Walk {
    if data == [] then Packets(0)
    else
      var sz := ParsePacket(data);
      if sz.None? then Broken
      else if sz.value == 0 then Stuck
      else
        var rest := Count(data[sz.value..]);
        if rest.Packets? then Packets(1 + rest.n) else rest
  }

  /** The caveat loop: where it stopped and what it collected. */
  datatype Body = Stopped(rest: Bytes, caveats: seq<Caveat>) | Refused | RanOut

  const NO_CAVEAT: Caveat := Caveat([], [], [])

  /** The caveats so far, counting the open one if it has an identifier. */
  function Close(done: seq<Caveat>, cur: Caveat): seq<Caveat> {
    if cur.cid != [] then done + [cur] else done
  }

  function ReadCaveats(rest: Bytes, done: seq<Caveat>, cur: Caveat): Body
    decreases |rest|
  {
    var sz := ParsePacket(rest);
    if sz.None? then RanOut
    else
      var p := rest[..sz.value];
      var kv := ParseKv(p);
      if kv.None? then Stopped(rest, Close(done, cur))
      else if kv.value.key == CID then
        if cur.cid != [] then ReadCaveats(rest[sz.value..], done + [cur], Caveat(p, [], []))
        else ReadCaveats(rest[sz.value..], done, cur.(cid := p))
      else if kv.value.key == VID then
        if cur.vid != [] then Refused else ReadCaveats(rest[sz.value..], done, cur.(vid := p))
      else if kv.value.key == CL then
        if cur.cl != [] then Refused else ReadCaveats(rest[sz.value..], done, cur.(cl := p))
      else Stopped(rest, Close(done, cur))
  }

  /** The packet at the front, if it carries this field. */
  function Front(key: Bytes, data: Bytes): (r: Option<Bytes>)
    ensures r.Some? ==> |r.value| <= |data|
  {
    var sz := ParsePacket(data);
    if sz.None? || Field(key, data[..sz.value]).None? then None else Some(data[..sz.value])
  }

  function ParseMacaroon(data: Bytes): Result<Macaroon> {
    if data == [] then Err(Invalid)
    else if data[0] == BRACE then Err(NoJson)
    else
      match Count(data)
      case Broken => Err(Invalid)
      case Stuck => Err(NeverReturns)
      case Packets(n) =>
        if n < 3 then Err(Invalid) else ParseFields(data)
  }

  function ParseFields(data: Bytes): Result<Macaroon> {
    var loc := Front(LOCATION, data);
    if loc.None? then Err(Invalid)
    else
      var rest := data[|loc.value|..];
      var id := Front(IDENTIFIER, rest);
      if id.None? then Err(Invalid)
      else
        match ReadCaveats(rest[|id.value|..], [], NO_CAVEAT)
        case Refused => Err(Invalid)
        case RanOut => Err(ReadsPastEnd)
        case Stopped(tail, caveats) =>
          var sig := Front(SIGNATURE, tail);
          if sig.None? || ParseSignature(sig.value).None? then Err(Invalid)
          else Ok(Macaroon(loc.value, id.value, caveats, sig.value))
  }

  /** macaroon_deserialize, built without JSON support. */
  function Deserialize(s: Bytes): Result<Macaroon> {
    var data := Pton(s, |s|);
    if data.None? then Err(Invalid) else ParseMacaroon(data.value)
  }

  // -------------------------------------------------------------------- round trip

  lemma FrontOf(key: Bytes, p: Bytes, val: Bytes, rest: Bytes)
    requires IsField(p, key, val) && SPACE !in key
    ensures Front(key, p + rest) == Some(p) && (p + rest)[|p|..] == rest
    ensures ParsePacket(p + rest) == Some(|p|) && (p + rest)[..|p|] == p
    ensures ParseKv(p) == Some(KeyValue(key, val))
  {
    KvAtFront(key, val, rest);
    KvParses(key, val);
  }

  lemma CountPacket(key: Bytes, p: Bytes, val: Bytes, rest: Bytes)
    requires IsField(p, key, val) && Count(rest).Packets?
    ensures Count(p + rest) == Packets(1 + Count(rest).n)
  {
    KvAtFront(key, val, rest);
  }

  lemma CaveatBytesCons(cs: seq<Caveat>, rest: Bytes)
    requires cs != []
    ensures CaveatBytes(cs) + rest
         == cs[0].cid + (cs[0].vid + (cs[0].cl + (CaveatBytes(cs[1..]) + rest)))
  {
    var cid, vid, cl, others := cs[0].cid, cs[0].vid, cs[0].cl, CaveatBytes(cs[1..]);
    Regroup(cid, vid, cl + (others + rest));
    Regroup(cid + vid, cl, others + rest);
    Regroup(cid + vid + cl, others, rest);
  }

  lemma {:induction false} CountCaveats(cs: seq<Caveat>, rest: Bytes)
    requires (forall v :: v in cs ==> CaveatOk(v)) && Count(rest).Packets?
    ensures Count(CaveatBytes(cs) + rest).Packets? && Count(CaveatBytes(cs) + rest).n >= Count(rest).n
    decreases |cs|
  {
    if cs == [] {
      assert CaveatBytes(cs) + rest == rest;
    } else {
      var v, more := cs[0], CaveatBytes(cs[1..]) + rest;
      assert v in cs;
      CountCaveats(cs[1..], rest);
      CaveatBytesCons(cs, rest);
      CountCaveat(v, more);
    }
  }

  lemma CountCaveat(v: Caveat, rest: Bytes)
    requires CaveatOk(v) && Count(rest).Packets?
    ensures var all := Count(v.cid + (v.vid + (v.cl + rest)));
            all.Packets? && all.n > Count(rest).n
  {
    var x :| IsField(v.cid, CID, x);
    if v.vid == [] && v.cl == [] {
      assert v.vid + (v.cl + rest) == rest;
      CountPacket(CID, v.cid, x, rest);
    } else {
      var y :| IsField(v.vid, VID, y);
      var z :| IsField(v.cl, CL, z);
      CountPacket(CL, v.cl, z, rest);
      CountPacket(VID, v.vid, y, v.cl + rest);
      CountPacket(CID, v.cid, x, v.vid + (v.cl + rest));
    }
  }

  /** Reading one caveat's packets closes the caveat before it and leaves this one open. */
  lemma ReadCaveat(v: Caveat, rest: Bytes, done: seq<Caveat>, cur: Caveat)
    requires CaveatOk(v) && (cur == NO_CAVEAT || cur.cid != [])
    ensures ReadCaveats(v.cid + (v.vid + (v.cl + rest)), done, cur) == ReadCaveats(rest, Close(done, cur), v)
  {
    var x :| IsField(v.cid, CID, x);
    FrontOf(CID, v.cid, x, v.vid + (v.cl + rest));
    var started := Caveat(v.cid, [], []);
    assert ReadCaveats(v.cid + (v.vid + (v.cl + rest)), done, cur)
        == ReadCaveats(v.vid + (v.cl + rest), Close(done, cur), started);
    if v.vid == [] && v.cl == [] {
      assert v.vid + (v.cl + rest) == rest && started == v;
    } else {
      ReadKeyAndLocation(v, rest, Close(done, cur));
    }
  }

  lemma ReadKeyAndLocation(v: Caveat, rest: Bytes, done: seq<Caveat>)
    requires (exists y :: IsField(v.vid, VID, y)) && exists z :: IsField(v.cl, CL, z)
    ensures ReadCaveats(v.vid + (v.cl + rest), done, Caveat(v.cid, [], [])) == ReadCaveats(rest, done, v)
  {
    var y :| IsField(v.vid, VID, y);
    var z :| IsField(v.cl, CL, z);
    FrontOf(VID, v.vid, y, v.cl + rest);
    FrontOf(CL, v.cl, z, rest);
    var sealed := Caveat(v.cid, v.vid, []);
    assert ReadCaveats(v.vid + (v.cl + rest), done, Caveat(v.cid, [], [])) == ReadCaveats(v.cl + rest, done, sealed);
    assert sealed.(cl := v.cl) == v;
  }

  lemma {:induction false} ReadAllCaveats(cs: seq<Caveat>, sig: Bytes, sigVal: Bytes,
                                          done: seq<Caveat>, cur: Caveat)
    requires (forall v :: v in cs ==> CaveatOk(v)) && (cur == NO_CAVEAT || cur.cid != [])
    requires IsField(sig, SIGNATURE, sigVal)
    ensures ReadCaveats(CaveatBytes(cs) + sig, done, cur) == Stopped(sig, Close(done, cur) + cs)
    decreases |cs|
  {
    if cs == [] {
      StopsAtSignature(sig, sigVal, done, cur);
    } else {
      CaveatBytesCons(cs, sig);
      ReadCaveat(cs[0], CaveatBytes(cs[1..]) + sig, done, cur);
      CaveatHasId(cs[0]);
      ReadAllCaveats(cs[1..], sig, sigVal, Close(done, cur), cs[0]);
      JoinCaveats(Close(done, cur), cs);
    }
  }

  lemma JoinCaveats(done: seq<Caveat>, cs: seq<Caveat>)
    requires cs != []
    ensures done + [cs[0]] + cs[1..] == done + cs
  {
  }

  lemma StopsAtSignature(sig: Bytes, sigVal: Bytes, done: seq<Caveat>, cur: Caveat)
    requires IsField(sig, SIGNATURE, sigVal)
    ensures ReadCaveats(CaveatBytes([]) + sig, done, cur) == Stopped(sig, Close(done, cur) + [])
    ensures Front(SIGNATURE, sig) == Some(sig)
  {
    FrontOf(SIGNATURE, sig, sigVal, []);
    assert sig + [] == sig && CaveatBytes([]) + sig == sig;
    assert Close(done, cur) + [] == Close(done, cur);
  }

  lemma CaveatHasId(v: Caveat)
    requires CaveatOk(v)
    ensures v.cid != []
  {
    var x :| IsField(v.cid, CID, x);
    assert |v.cid| > 0;
  }

  lemma WireShape(m: Macaroon)
    ensures Wire(m) == m.location + (m.identifier + (CaveatBytes(m.caveats) + m.signature))
  {
    Regroup(m.location, m.identifier, CaveatBytes(m.caveats) + m.signature);
    Regroup(m.location + m.identifier, CaveatBytes(m.caveats), m.signature);
  }

  lemma TailRead(m: Macaroon)
    requires WellFormed(m)
    ensures ReadCaveats(CaveatBytes(m.caveats) + m.signature, [], NO_CAVEAT) == Stopped(m.signature, m.caveats)
    ensures Front(SIGNATURE, m.signature) == Some(m.signature) && ParseSignature(m.signature).Some?
  {
    var s :| |s| == HASH_BYTES && IsField(m.signature, SIGNATURE, s);
    ReadAllCaveats(m.caveats, m.signature, s, [], NO_CAVEAT);
    assert [] + m.caveats == m.caveats;
    StopsAtSignature(m.signature, s, [], NO_CAVEAT);
    FieldOf(m.signature, SIGNATURE, s);
  }

  lemma FieldsRead(m: Macaroon)
    requires WellFormed(m)
    ensures ParseFields(Wire(m)) == Ok(m)
  {
    var tail := CaveatBytes(m.caveats) + m.signature;
    WireShape(m);
    TailRead(m);
    HeadRead(m, tail);
  }

  lemma HeadRead(m: Macaroon, tail: Bytes)
    requires WellFormed(m)
    ensures var data := m.location + (m.identifier + tail);
            Front(LOCATION, data) == Some(m.location) &&
            data[|m.location|..] == m.identifier + tail &&
            Front(IDENTIFIER, m.identifier + tail) == Some(m.identifier) &&
            (m.identifier + tail)[|m.identifier|..] == tail
  {
    var l :| IsField(m.location, LOCATION, l);
    var i :| IsField(m.identifier, IDENTIFIER, i);
    FrontOf(LOCATION, m.location, l, m.identifier + tail);
    FrontOf(IDENTIFIER, m.identifier, i, tail);
  }

  /** The wire form starts with a hex digit, so it is never taken for JSON. */
  lemma NotJson(m: Macaroon)
    requires WellFormed(m)
    ensures Wire(m) != [] && Wire(m)[0] != BRACE
  {
    var l :| IsField(m.location, LOCATION, l);
    HeaderShifts(|m.location|);
    assert Wire(m)[0] == m.location[0] == Header(|m.location|)[0];
  }

  lemma WireCounts(m: Macaroon)
    requires WellFormed(m)
    ensures Count(Wire(m)).Packets? && Count(Wire(m)).n >= 3
  {
    var l :| IsField(m.location, LOCATION, l);
    var i :| IsField(m.identifier, IDENTIFIER, i);
    var s :| IsField(m.signature, SIGNATURE, s);
    var tail := CaveatBytes(m.caveats) + m.signature;
    WireShape(m);
    CountPacket(SIGNATURE, m.signature, s, []);
    assert m.signature + [] == m.signature;
    CountCaveats(m.caveats, m.signature);
    CountPacket(IDENTIFIER, m.identifier, i, tail);
    CountPacket(LOCATION, m.location, l, m.identifier + tail);
  }

  /** A well-formed macaroon comes back from its serialized text, packet for packet. */
  lemma SerializeRoundTrip(m: Macaroon)
    requires WellFormed(m)
    ensures Deserialize(Text(Wire(m))) == Ok(m)
  {
    TextLength(Wire(m));
    TextRoundTrip(Wire(m), |Text(Wire(m))|);
    WireParses(m);
  }

  lemma WireParses(m: Macaroon)
    requires WellFormed(m)
    ensures ParseMacaroon(Wire(m)) == Ok(m)
  {
    WireCounts(m);
    NotJson(m);
    FieldsRead(m);
  }

  /** ... and so does everything that can be built. */
  lemma BuiltRoundTrip(c: Crypto, location: Bytes, key: Bytes, id: Bytes, specs: seq<CaveatSpec>)
    requires Works(c) && Short(location) && Short(id) && forall s :: s in specs ==> SpecOk(s)
    requires Build(c, location, key, id, specs).Ok?
    ensures var m := Build(c, location, key, id, specs).value;
            Deserialize(Text(Wire(m))) == Ok(m)
  {
    BuiltIsWellFormed(c, location, key, id, specs);
    SerializeRoundTrip(Build(c, location, key, id, specs).value);
  }
}
