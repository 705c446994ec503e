/** macaroon_serialize and macaroon_deserialize as loops over buffers. */
module MacaroonCodec {
  import opened FlatFile
  import opened Base64
  import opened Base64Codec
  import opened Packet
  import opened Macaroon
  import opened MacaroonWire

  lemma {:induction false} CaveatBytesSnoc(cs: seq<Caveat>, i: nat)
    requires i < |cs|
    ensures CaveatBytes(cs[..i + 1]) == CaveatBytes(cs[..i]) + cs[i].cid + cs[i].vid + cs[i].cl
  {
    if i == 0 {
      assert cs[..1][1..] == [];
    } else {
      assert cs[..i + 1][1..] == cs[1..][..i] && cs[..i][1..] == cs[1..][..i - 1];
      CaveatBytesSnoc(cs[1..], i - 1);
      assert cs[1..][..i - 1 + 1] == cs[1..][..i];
    }
  }

  /** macaroon_serialize: fails exactly below the size hint, else leaves the text, zero-terminated. */
  method Serialize(m: Macaroon, data: array<Byte>) returns (rc: int)
    modifies data
    ensures rc == 0 || rc == -1
    ensures rc == -1 <==> data.Length < SizeHint(m)
    ensures rc == 0 ==> |Text(Wire(m))| < data.Length
    ensures rc == 0 ==> data[..|Text(Wire(m))|] == Text(Wire(m)) && data[|Text(Wire(m))|] == 0
  {
    if data.Length < SizeHint(m) {
      return -1;
    }
    var tmp := m.location + m.identifier;
    var i := 0;
    assert m.caveats[..0] == [];
    while i < |m.caveats|
      invariant 0 <= i <= |m.caveats|
      invariant tmp == m.location + m.identifier + CaveatBytes(m.caveats[..i])
    {
      CaveatBytesSnoc(m.caveats, i);
      tmp := tmp + m.caveats[i].cid + m.caveats[i].vid + m.caveats[i].cl;
      i := i + 1;
    }
    assert m.caveats[..i] == m.caveats;
    tmp := tmp + m.signature;
    HintSuffices(m);
    var n := Ntop(tmp, data);
    rc := 0;
  }

  /** Counts the packets to the end of the data. */
  method CountPackets(data: Bytes) returns (w: Walk)
    ensures w == Count(data)
  {
    var rptr, n := 0, 0;
    assert data[0..] == data;
    while rptr < |data|
      invariant 0 <= rptr <= |data| && 0 <= n
      invariant Count(data) == (if Count(data[rptr..]).Packets? then Packets(n + Count(data[rptr..]).n)
                                else Count(data[rptr..]))
      decreases |data| - rptr
    {
      var sz := ReadPacketSize(data[rptr..]);
      if sz.None? {
        return Broken;
      }
      if sz.value == 0 {
        return Stuck;
      }
      assert data[rptr..][sz.value..] == data[rptr + sz.value..];
      rptr, n := rptr + sz.value, n + 1;
    }
    assert data[rptr..] == [];
    w := Packets(n);
  }

  /** The caveat loop. */
  method CollectCaveats(rest: Bytes) returns (b: Body)
    ensures b == ReadCaveats(rest, [], NO_CAVEAT)
  {
    var r, done, cur := rest, [], NO_CAVEAT;
    while true
      invariant ReadCaveats(rest, [], NO_CAVEAT) == ReadCaveats(r, done, cur)
      decreases |r|
    {
      var sz := ReadPacketSize(r);
      if sz.None? {
        return RanOut;
      }
      var p := r[..sz.value];
      var kv := ParseKv(p);
      if kv.None? {
        break;
      }
      if kv.value.key == CID {
        if cur.cid != [] {
          done, cur := done + [cur], NO_CAVEAT;
        }
        cur := cur.(cid := p);
      } else if kv.value.key == VID {
        if cur.vid != [] {
          return Refused;
        }
        cur := cur.(vid := p);
      } else if kv.value.key == CL {
        if cur.cl != [] {
          return Refused;
        }
        cur := cur.(cl := p);
      } else {
        break;
      }
      r := r[sz.value..];
    }
    if cur.cid != [] {
      done := done + [cur];
    }
    b := Stopped(r, done);
  }

  /** macaroon_deserialize of a zero-free string. */
  method DeserializeText(s: Bytes) returns (r: Result<Macaroon>)
    requires forall i :: 0 <= i < |s| ==> s[i] != 0
    ensures r == Deserialize(s)
  {
    var target := new Byte[|s|];
    var size := PtonInto(s, target);
    if size <= 0 {
      return Err(Invalid);
    }
    var data := target[..size];
    if data[0] == BRACE {
      return Err(NoJson);
    }
    var w := CountPackets(data);
    if w.Stuck? {
      return Err(NeverReturns);
    }
    if w.Broken? || w.n < 3 {
      return Err(Invalid);
    }
    var loc := Front(LOCATION, data);
    if loc.None? {
      return Err(Invalid);
    }
    var rest := data[|loc.value|..];
    var id := Front(IDENTIFIER, rest);
    if id.None? {
      return Err(Invalid);
    }
    var body := CollectCaveats(rest[|id.value|..]);
    if body.Refused? {
      return Err(Invalid);
    }
    if body.RanOut? {
      return Err(ReadsPastEnd);
    }
    var sig := Front(SIGNATURE, body.rest);
    if sig.None? || ParseSignature(sig.value).None? {
      return Err(Invalid);
    }
    r := Ok(Macaroon(loc.value, id.value, body.caveats, sig.value));
  }
}
