/** Exactly which bytes the parser takes for a macaroon, and for which. */
module MacaroonText {
  import opened Options
  import opened FlatFile
  import opened Base64
  import opened Packet
  import opened Macaroon
  import opened MacaroonWire

  // ------------------------------------------------------------------ parts of caveats

  predicate Has(p: Bytes, key: Bytes) { ParseKv(p).Some? && ParseKv(p).value.key == key }

  predicate IsPart(p: Bytes) { Has(p, CID) || Has(p, VID) || Has(p, CL) }

  predicate AreParts(ps: seq<Bytes>) { forall i :: 0 <= i < |ps| ==> IsPart(ps[i]) }

  function Flat(ps: seq<Bytes>): Bytes { if ps == [] then [] else ps[0] + Flat(ps[1..]) }

  /** Those of the packets that have this key. */
  function Those(ps: seq<Bytes>, key: Bytes): seq<Bytes> {
    if ps == [] then []
    else Those(ps[..|ps| - 1], key) + if Has(ps[|ps| - 1], key) then [ps[|ps| - 1]] else []
  }

  /** At most one sealed key and one location. */
  predicate Single(ps: seq<Bytes>) { |Those(ps, VID)| <= 1 && |Those(ps, CL)| <= 1 }

  function Only(ps: seq<Bytes>): Bytes { if ps == [] then [] else ps[0] }

  function Made(cid: Bytes, own: seq<Bytes>): Caveat { Caveat(cid, Only(Those(own, VID)), Only(Those(own, CL))) }

  /** One past the last caveat identifier, or 0 if there is none. */
  function Identified(ps: seq<Bytes>): (n: nat)
    ensures n <= |ps|
  {
    if ps == [] then 0 else if Has(ps[|ps| - 1], CID) then |ps| else Identified(ps[..|ps| - 1])
  }

  /** The caveats before the last, the identifier of the last, and the other packets that are its. */
  datatype Shape = Shape(before: Option<seq<Caveat>>, cid: Bytes, own: seq<Bytes>)

  /** A caveat is an identifier with the sealed key and the location behind it, in any order; those in front of the
      first identifier are its, too. */
  function ShapeOf(ps: seq<Bytes>): Shape
    decreases |ps|, 0
  {
    var n := Identified(ps);
    if n == 0 then Shape(Some([]), [], ps)
    else if Identified(ps[..n - 1]) == 0 then Shape(Some([]), ps[n - 1], ps[..n - 1] + ps[n..])
    else Shape(Grouped(ps[..n - 1]), ps[n - 1], ps[n..])
  }

  predicate Refusable(sh: Shape) { sh.before.None? || !Single(sh.own) }

  /** Two sealed keys or two locations in a caveat are refused; without any identifier, they are dropped. */
  function Grouped(ps: seq<Bytes>): Option<seq<Caveat>>
    decreases |ps|, 1
  {
    var sh := ShapeOf(ps);
    if Refusable(sh) then None
    else Some(sh.before.value + if sh.cid == [] then [] else [Made(sh.cid, sh.own)])
  }

  // ----------------------------------------------------------------------- the loop

  datatype Open = Open(done: seq<Caveat>, cur: Caveat)

  /** One turn of the caveat loop. */
  function Turn(o: Option<Open>, p: Bytes): Option<Open> {
    if o.None? then None
    else
      var done, cur := o.value.done, o.value.cur;
      if Has(p, CID) then
        if cur.cid != [] then Some(Open(done + [cur], Caveat(p, [], []))) else Some(Open(done, cur.(cid := p)))
      else if Has(p, VID) then (if cur.vid != [] then None else Some(Open(done, cur.(vid := p))))
      else if cur.cl != [] then None
      else Some(Open(done, cur.(cl := p)))
  }

  function Turns(ps: seq<Bytes>): Option<Open> {
    if ps == [] then Some(Open([], NO_CAVEAT)) else Turn(Turns(ps[..|ps| - 1]), ps[|ps| - 1])
  }

  lemma ThoseSnoc(ps: seq<Bytes>, p: Bytes, key: Bytes)
    ensures Those(ps + [p], key) == Those(ps, key) + if Has(p, key) then [p] else []
  {
    assert (ps + [p])[..|ps|] == ps;
  }

  lemma PartIsSomething(p: Bytes)
    requires ParseKv(p).Some?
    ensures p != []
  {
  }

  /** What the loop holds is what the packets so far amount to. */
  ghost predicate Agrees(ps: seq<Bytes>) {
    var sh := ShapeOf(ps);
    Turns(ps) == if Refusable(sh) then None else Some(Open(sh.before.value, Made(sh.cid, sh.own)))
  }

  lemma {:induction false} ThoseHave(ps: seq<Bytes>, key: Bytes)
    ensures forall i :: 0 <= i < |Those(ps, key)| ==> Has(Those(ps, key)[i], key)
  {
    if ps != [] { ThoseHave(ps[..|ps| - 1], key); }
  }

  lemma OnlyIsSomething(ps: seq<Bytes>, key: Bytes)
    ensures Only(Those(ps, key)) == [] <==> Those(ps, key) == []
  {
    ThoseHave(ps, key);
    if Those(ps, key) != [] { PartIsSomething(Those(ps, key)[0]); }
  }

  lemma Keys()
    ensures CID != VID && CID != CL && VID != CL
  {
    assert CID[0] != VID[0] && |CL| != |CID|;
  }

  /** One more packet that is no identifier. */
  lemma MadeSnoc(cid: Bytes, own: seq<Bytes>, p: Bytes)
    requires IsPart(p) && !Has(p, CID)
    ensures !Single(own) ==> !Single(own + [p])
    ensures Single(own) && Has(p, VID) ==>
              && (Single(own + [p]) <==> Made(cid, own).vid == [])
              && (Single(own + [p]) ==> Made(cid, own + [p]) == Made(cid, own).(vid := p))
    ensures Single(own) && !Has(p, VID) ==>
              && (Single(own + [p]) <==> Made(cid, own).cl == [])
              && (Single(own + [p]) ==> Made(cid, own + [p]) == Made(cid, own).(cl := p))
  {
    Keys();
    ThoseSnoc(own, p, VID);
    ThoseSnoc(own, p, CL);
    OnlyIsSomething(own, VID);
    OnlyIsSomething(own, CL);
  }

  lemma IdentifiedSnoc(ps: seq<Bytes>, p: Bytes)
    ensures Identified(ps + [p]) == if Has(p, CID) then |ps| + 1 else Identified(ps)
  {
    assert (ps + [p])[..|ps|] == ps;
  }

  lemma {:induction false} IdentifiedHas(ps: seq<Bytes>)
    ensures Identified(ps) > 0 ==> Has(ps[Identified(ps) - 1], CID)
  {
    if ps != [] { IdentifiedHas(ps[..|ps| - 1]); }
  }

  lemma ShapeId(ps: seq<Bytes>)
    ensures ShapeOf(ps).cid == [] <==> Identified(ps) == 0
  {
    IdentifiedHas(ps);
    if Identified(ps) > 0 { PartIsSomething(ps[Identified(ps) - 1]); }
  }

  lemma ShapeWithId(ps: seq<Bytes>, p: Bytes)
    requires Has(p, CID)
    ensures ShapeOf(ps + [p]) == if Identified(ps) == 0 then Shape(Some([]), p, ps) else Shape(Grouped(ps), p, [])
  {
    var all := ps + [p];
    IdentifiedSnoc(ps, p);
    assert all[..|ps|] == ps && all[|ps| + 1..] == [] && ps + [] == ps;
  }

  lemma ShapeWithout(ps: seq<Bytes>, p: Bytes)
    requires !Has(p, CID)
    ensures ShapeOf(ps + [p]) == ShapeOf(ps).(own := ShapeOf(ps).own + [p])
  {
    var all, n := ps + [p], Identified(ps);
    IdentifiedSnoc(ps, p);
    if n > 0 {
      assert all[..n - 1] == ps[..n - 1] && all[n - 1] == ps[n - 1] && all[n..] == ps[n..] + [p];
      Regroup(ps[..n - 1], ps[n..], [p]);
    }
  }

  lemma TurnsSnoc(ps: seq<Bytes>, p: Bytes)
    ensures Turns(ps + [p]) == Turn(Turns(ps), p)
  {
    assert (ps + [p])[..|ps|] == ps;
  }

  lemma AgreesWithId(ps: seq<Bytes>, p: Bytes)
    requires Agrees(ps) && Has(p, CID)
    ensures Agrees(ps + [p])
  {
    ShapeWithId(ps, p);
    TurnsSnoc(ps, p);
    ShapeId(ps);
    assert Those([], VID) == [] && Those([], CL) == [];
  }

  lemma AgreesWithout(ps: seq<Bytes>, p: Bytes)
    requires Agrees(ps) && IsPart(p) && !Has(p, CID)
    ensures Agrees(ps + [p])
  {
    ShapeWithout(ps, p);
    TurnsSnoc(ps, p);
    MadeSnoc(ShapeOf(ps).cid, ShapeOf(ps).own, p);
  }

  /** The loop groups the packets as described. */
  lemma {:induction false} LoopGroups(ps: seq<Bytes>)
    requires AreParts(ps)
    ensures Agrees(ps)
  {
    if ps == [] {
      assert Those([], VID) == [] && Those([], CL) == [];
    } else {
      var front, p := ps[..|ps| - 1], ps[|ps| - 1];
      FrontAndLast(ps);
      LoopGroups(front);
      if Has(p, CID) { AgreesWithId(front, p); } else { AgreesWithout(front, p); }
    }
  }

  // ------------------------------------------------------------------ over the bytes

  function RunFrom(ps: seq<Bytes>, o: Option<Open>): Option<Open>
    decreases ps
  {
    if ps == [] then o else RunFrom(ps[1..], Turn(o, ps[0]))
  }

  lemma {:induction false} RunSnoc(ps: seq<Bytes>, p: Bytes, o: Option<Open>)
    ensures RunFrom(ps + [p], o) == Turn(RunFrom(ps, o), p)
    decreases ps
  {
    if ps == [] {
      assert ps + [p] == [p] && [p][1..] == [];
    } else {
      assert (ps + [p])[0] == ps[0] && (ps + [p])[1..] == ps[1..] + [p];
      RunSnoc(ps[1..], p, Turn(o, ps[0]));
    }
  }

  lemma {:induction false} RunIsTurns(ps: seq<Bytes>)
    ensures RunFrom(ps, Some(Open([], NO_CAVEAT))) == Turns(ps)
  {
    if ps != [] {
      FrontAndLast(ps);
      RunIsTurns(ps[..|ps| - 1]);
      RunSnoc(ps[..|ps| - 1], ps[|ps| - 1], Some(Open([], NO_CAVEAT)));
    }
  }

  lemma {:induction false} RunRefused(ps: seq<Bytes>)
    ensures RunFrom(ps, None).None?
  {
    if ps != [] { RunRefused(ps[1..]); }
  }

  lemma PacketAtFront(p: Bytes, rest: Bytes)
    requires ParseKv(p).Some?
    ensures ParsePacket(p + rest) == Some(|p|) && (p + rest)[..|p|] == p && (p + rest)[|p|..] == rest
    ensures |p| > 0
  {
    ParsedIsKv(p);
    KvAtFront(ParseKv(p).value.key, ParseKv(p).value.val, rest);
  }

  /** The loop over the bytes takes one turn for each packet. */
  lemma ReadTurn(p: Bytes, rest: Bytes, done: seq<Caveat>, cur: Caveat)
    requires IsPart(p)
    ensures ReadCaveats(p + rest, done, cur) ==
            var o := Turn(Some(Open(done, cur)), p);
            if o.None? then Refused else ReadCaveats(rest, o.value.done, o.value.cur)
  {
    Keys();
    PacketAtFront(p, rest);
  }

  lemma {:induction false} ReadRuns(ps: seq<Bytes>, rest: Bytes, done: seq<Caveat>, cur: Caveat)
    requires AreParts(ps)
    ensures ReadCaveats(Flat(ps) + rest, done, cur) ==
            var o := RunFrom(ps, Some(Open(done, cur)));
            if o.None? then Refused else ReadCaveats(rest, o.value.done, o.value.cur)
    decreases ps
  {
    if ps == [] {
      assert Flat(ps) + rest == rest;
    } else {
      var more := Flat(ps[1..]) + rest;
      Regroup(ps[0], Flat(ps[1..]), rest);
      ReadTurn(ps[0], more, done, cur);
      var o := Turn(Some(Open(done, cur)), ps[0]);
      if o.None? { RunRefused(ps[1..]); } else { ReadRuns(ps[1..], rest, o.value.done, o.value.cur); }
    }
  }

  lemma NotAPart(p: Bytes)
    requires Has(p, SIGNATURE)
    ensures !IsPart(p)
  {
    assert |SIGNATURE| != |CID| && |SIGNATURE| != |VID| && |SIGNATURE| != |CL|;
  }

  lemma StopsThere(sig: Bytes, tail: Bytes, done: seq<Caveat>, cur: Caveat)
    requires Has(sig, SIGNATURE)
    ensures ReadCaveats(sig + tail, done, cur) == Stopped(sig + tail, Close(done, cur))
  {
    PacketAtFront(sig, tail);
    NotAPart(sig);
  }

  /** The packets the loop took. */
  lemma {:induction false} ReadParts(data: Bytes, done: seq<Caveat>, cur: Caveat) returns (ps: seq<Bytes>)
    requires ReadCaveats(data, done, cur).Stopped?
    ensures AreParts(ps) && data == Flat(ps) + ReadCaveats(data, done, cur).rest
    decreases |data|
  {
    var n := ParsePacket(data).value;
    var p := data[..n];
    if !IsPart(p) {
      ps := [];
      assert Flat([]) + data == data;
    } else {
      TakeDrop(data, n);
      ReadTurn(p, data[n..], done, cur);
      PacketAtFront(p, data[n..]);
      var o := Turn(Some(Open(done, cur)), p).value;
      var rest := ReadParts(data[n..], o.done, o.cur);
      ps := [p] + rest;
      assert ps[1..] == rest;
      Regroup(p, Flat(rest), ReadCaveats(data, done, cur).rest);
    }
  }

  // ----------------------------------------------------------------------- exactness

  /** Location, identifier, the packets of the caveats, signature, and whatever follows. */
  ghost predicate IsText(data: Bytes, m: Macaroon, ps: seq<Bytes>, tail: Bytes) {
    && data == m.location + (m.identifier + (Flat(ps) + (m.signature + tail)))
    && Has(m.location, LOCATION) && Has(m.identifier, IDENTIFIER)
    && Has(m.signature, SIGNATURE) && |ParseKv(m.signature).value.val| == HASH_BYTES
    && AreParts(ps) && Grouped(ps) == Some(m.caveats)
  }

  lemma FrontIs(key: Bytes, p: Bytes, rest: Bytes)
    requires Has(p, key)
    ensures Front(key, p + rest) == Some(p) && (p + rest)[|p|..] == rest
  {
    PacketAtFront(p, rest);
  }

  lemma FrontHas(key: Bytes, data: Bytes)
    requires Front(key, data).Some?
    ensures var p := Front(key, data).value; Has(p, key) && data == p + data[|p|..]
  {
  }

  lemma RunGroups(ps: seq<Bytes>)
    requires AreParts(ps)
    ensures var o := RunFrom(ps, Some(Open([], NO_CAVEAT)));
            if Grouped(ps).None? then o.None? else o.Some? && Close(o.value.done, o.value.cur) == Grouped(ps).value
  {
    LoopGroups(ps);
    RunIsTurns(ps);
    var sh := ShapeOf(ps);
    if sh.cid == [] && sh.before.Some? { assert sh.before.value + [] == sh.before.value; }
  }

  lemma CaveatsRead(ps: seq<Bytes>, sig: Bytes, tail: Bytes, at: Bytes)
    requires AreParts(ps) && Has(sig, SIGNATURE) && at == sig + tail
    ensures ReadCaveats(Flat(ps) + at, [], NO_CAVEAT) ==
            if Grouped(ps).None? then Refused else Stopped(at, Grouped(ps).value)
  {
    RunGroups(ps);
    ReadRuns(ps, at, [], NO_CAVEAT);
    var o := RunFrom(ps, Some(Open([], NO_CAVEAT)));
    if o.Some? { StopsThere(sig, tail, o.value.done, o.value.cur); }
  }

  lemma FieldsFrom(loc: Bytes, id: Bytes, body: Bytes, at: Bytes, cs: seq<Caveat>, sig: Bytes)
    requires Has(loc, LOCATION) && Has(id, IDENTIFIER) && ReadCaveats(body, [], NO_CAVEAT) == Stopped(at, cs)
    requires Front(SIGNATURE, at) == Some(sig) && ParseSignature(sig).Some?
    ensures ParseFields(loc + (id + body)) == Ok(Macaroon(loc, id, cs, sig))
  {
    FrontIs(LOCATION, loc, id + body);
    FrontIs(IDENTIFIER, id, body);
  }

  lemma TextIsParsed(data: Bytes, m: Macaroon, ps: seq<Bytes>, tail: Bytes)
    requires IsText(data, m, ps, tail)
    ensures ParseFields(data) == Ok(m)
  {
    var at := m.signature + tail;
    CaveatsRead(ps, m.signature, tail, at);
    FrontIs(SIGNATURE, m.signature, tail);
    FieldsFrom(m.location, m.identifier, Flat(ps) + at, at, m.caveats, m.signature);
  }

  lemma ParsedIsText(data: Bytes) returns (ps: seq<Bytes>, tail: Bytes)
    requires ParseFields(data).Ok?
    ensures IsText(data, ParseFields(data).value, ps, tail)
  {
    var m := ParseFields(data).value;
    FrontHas(LOCATION, data);
    var rest := data[|m.location|..];
    FrontHas(IDENTIFIER, rest);
    var body := rest[|m.identifier|..];
    ps := ReadParts(body, [], NO_CAVEAT);
    var at := ReadCaveats(body, [], NO_CAVEAT).rest;
    FrontHas(SIGNATURE, at);
    tail := at[|m.signature|..];
    CaveatsRead(ps, m.signature, tail, at);
  }

  lemma CountedBehind(p: Bytes, rest: Bytes)
    requires ParseKv(p).Some?
    ensures Count(p + rest).Packets? <==> Count(rest).Packets?
    ensures Count(p + rest).Packets? ==> Count(p + rest).n == 1 + Count(rest).n
  {
    PacketAtFront(p, rest);
  }

  lemma {:induction false} CountedParts(ps: seq<Bytes>, rest: Bytes)
    requires AreParts(ps)
    ensures Count(Flat(ps) + rest).Packets? <==> Count(rest).Packets?
    ensures Count(rest).Packets? ==> Count(Flat(ps) + rest).n == |ps| + Count(rest).n
    decreases ps
  {
    if ps == [] {
      assert Flat(ps) + rest == rest;
    } else {
      Regroup(ps[0], Flat(ps[1..]), rest);
      CountedBehind(ps[0], Flat(ps[1..]) + rest);
      CountedParts(ps[1..], rest);
    }
  }

  lemma CountedText(data: Bytes, m: Macaroon, ps: seq<Bytes>, tail: Bytes)
    requires IsText(data, m, ps, tail)
    ensures Count(data).Packets? <==> Count(tail).Packets?
    ensures Count(tail).Packets? ==> Count(data).n == |ps| + 3 + Count(tail).n
  {
    var at := m.signature + tail;
    CountedBehind(m.signature, tail);
    CountedParts(ps, at);
    CountedBehind(m.identifier, Flat(ps) + at);
    CountedBehind(m.location, m.identifier + (Flat(ps) + at));
  }

  lemma StartsWithDigit(data: Bytes, p: Bytes, rest: Bytes)
    requires ParseKv(p).Some? && data == p + rest
    ensures data != [] && data[0] != BRACE
  {
    PacketAtFront(p, rest);
    HeaderShifts(|p|);
    assert data[0] == p[0] == p[..PREFIX][0] == Header(|p|)[0];
  }

  lemma TextIsTaken(data: Bytes, m: Macaroon, ps: seq<Bytes>, tail: Bytes)
    requires IsText(data, m, ps, tail) && Count(tail).Packets?
    ensures ParseMacaroon(data) == Ok(m)
  {
    TextIsParsed(data, m, ps, tail);
    CountedText(data, m, ps, tail);
    StartsWithDigit(data, m.location, m.identifier + (Flat(ps) + (m.signature + tail)));
  }

  lemma TakenIsText(data: Bytes) returns (ps: seq<Bytes>, tail: Bytes)
    requires ParseMacaroon(data).Ok?
    ensures IsText(data, ParseMacaroon(data).value, ps, tail) && Count(tail).Packets?
  {
    ps, tail := ParsedIsText(data);
    CountedText(data, ParseFields(data).value, ps, tail);
  }

  /** Bytes are taken for a macaroon exactly if they are its packets, and whatever follows can be counted. */
  lemma ParsedExactly(data: Bytes, m: Macaroon)
    ensures ParseMacaroon(data) == Ok(m) <==>
            exists ps, tail :: IsText(data, m, ps, tail) && Count(tail).Packets?
  {
    if ParseMacaroon(data) == Ok(m) { var ps, tail := TakenIsText(data); }
    if ps, tail :| IsText(data, m, ps, tail) && Count(tail).Packets? { TextIsTaken(data, m, ps, tail); }
  }

  /** ... and a text exactly if that is what it reads as. */
  lemma DeserializedExactly(s: Bytes, m: Macaroon)
    ensures Deserialize(s) == Ok(m) <==>
            Pton(s, |s|).Some? &&
            exists ps, tail :: IsText(Pton(s, |s|).value, m, ps, tail) && Count(tail).Packets?
  {
    if Pton(s, |s|).Some? { ParsedExactly(Pton(s, |s|).value, m); }
  }
}
