/** The alphanumeric ("base62") form of authorization tokens, and tokens as a whole. */
module Token {
  import opened Options
  import opened FlatFile
  import opened Base64
  import opened Base64Codec
  import opened Base64Proofs
  import opened Packet
  import opened Macaroon
  import opened MacaroonWire
  import opened MacaroonCodec
  import opened Verifier
  import Attenuation

  const ZERO: Byte := 48

  /** The second character of the two-character code: '0' "00", '_' "01", '-' "02", '/' "03", '+' "04",
      '=' "05". */
  function Code(c: Byte): Option<Byte> {
    if c == 48 then Some(48) else if c == 95 then Some(49) else if c == 45 then Some(50)
    else if c == 47 then Some(51) else if c == 43 then Some(52) else if c == 61 then Some(53) else None
  }

  function Uncode(d: Byte): Option<Byte> {
    if d == 48 then Some(48) else if d == 49 then Some(95) else if d == 50 then Some(45)
    else if d == 51 then Some(47) else if d == 52 then Some(43) else if d == 53 then Some(61) else None
  }

  lemma CodeExactly(c: Byte, d: Byte)
    ensures Code(c) == Some(d) <==> Uncode(d) == Some(c)
  {
  }

  function EncodeOne(c: Byte): Bytes { if Code(c).None? then [c] else [ZERO, Code(c).value] }

  function Encode62(s: Bytes): Bytes { if s == [] then [] else EncodeOne(s[0]) + Encode62(s[1..]) }

  function Decode62(t: Bytes): Option<Bytes> {
    if t == [] then Some([])
    else if t[0] == ZERO then
      if |t| < 2 || Uncode(t[1]).None? then None
      else
        var rest := Decode62(t[2..]);
        if rest.None? then None else Some([Uncode(t[1]).value] + rest.value)
    else
      var rest := Decode62(t[1..]);
      if rest.None? then None else Some([t[0]] + rest.value)
  }

  /** "0_-/+=" becomes "000102030405". */
  lemma CodedText()
    ensures Encode62([48, 95, 45, 47, 43, 61]) == [48, 48, 48, 49, 48, 50, 48, 51, 48, 52, 48, 53]
  {
    assert Encode62([61]) == [48, 53] + Encode62([]);
    assert Encode62([43, 61]) == [48, 52] + Encode62([61]);
    assert Encode62([47, 43, 61]) == [48, 51] + Encode62([43, 61]);
    assert Encode62([45, 47, 43, 61]) == [48, 50] + Encode62([47, 43, 61]);
    assert Encode62([95, 45, 47, 43, 61]) == [48, 49] + Encode62([45, 47, 43, 61]);
  }

  // ------------------------------------------------------------------------- loops

  method Encode(s: Bytes) returns (t: Bytes)
    ensures t == Encode62(s)
  {
    t := [];
    for i := 0 to |s|
      invariant t + Encode62(s[i..]) == Encode62(s)
    {
      EncodeStep(s, i, t);
      t := t + EncodeOne(s[i]);
    }
    assert t + Encode62([]) == t;
  }

  lemma EncodeStep(s: Bytes, i: nat, t: Bytes)
    requires i < |s|
    ensures t + Encode62(s[i..]) == t + EncodeOne(s[i]) + Encode62(s[i + 1..])
  {
    assert s[i..][0] == s[i] && s[i..][1..] == s[i + 1..];
    Regroup(t, EncodeOne(s[i]), Encode62(s[i + 1..]));
  }

  /** What is decoded so far, in front of what is still to come. */
  function Prepend(done: Bytes, rest: Option<Bytes>): Option<Bytes> {
    if rest.None? then None else Some(done + rest.value)
  }

  lemma DecodeStep(t: Bytes, i: nat, done: Bytes)
    requires i < |t|
    ensures t[i] != ZERO ==>
              Prepend(done, Decode62(t[i..])) == Prepend(done + [t[i]], Decode62(t[i + 1..]))
    ensures t[i] == ZERO && i + 1 < |t| && Uncode(t[i + 1]).Some? ==>
              Prepend(done, Decode62(t[i..])) == Prepend(done + [Uncode(t[i + 1]).value], Decode62(t[i + 2..]))
    ensures t[i] == ZERO && (i + 1 == |t| || Uncode(t[i + 1]).None?) ==> Decode62(t[i..]).None?
  {
    assert t[i..][0] == t[i] && t[i..][1..] == t[i + 1..];
    if t[i] != ZERO {
      PrependMore(done, [t[i]], Decode62(t[i + 1..]));
    } else if i + 1 < |t| {
      assert t[i..][1] == t[i + 1] && t[i..][2..] == t[i + 2..];
      if Uncode(t[i + 1]).Some? { PrependMore(done, [Uncode(t[i + 1]).value], Decode62(t[i + 2..])); }
    }
  }

  lemma PrependMore(a: Bytes, b: Bytes, rest: Option<Bytes>)
    ensures Prepend(a, Prepend(b, rest)) == Prepend(a + b, rest)
  {
    if rest.Some? { Regroup(a, b, rest.value); }
  }

  lemma PrependNothing(rest: Option<Bytes>)
    ensures Prepend([], rest) == rest
  {
    if rest.Some? { assert [] + rest.value == rest.value; }
  }

  method Decode(t: Bytes) returns (r: Option<Bytes>)
    ensures r == Decode62(t)
  {
    var s, i := [], 0;
    assert t[0..] == t;
    PrependNothing(Decode62(t));
    while i < |t|
      invariant 0 <= i <= |t|
      invariant Decode62(t) == Prepend(s, Decode62(t[i..]))
    {
      DecodeStep(t, i, s);
      if t[i] == ZERO {
        i := i + 1;
        if i == |t| || Uncode(t[i]).None? {
          return None;
        }
        s := s + [Uncode(t[i]).value];
      } else {
        s := s + [t[i]];
      }
      i := i + 1;
    }
    assert t[i..] == [] && s + [] == s;
    r := Some(s);
  }

  // -------------------------------------------------------------------- properties

  lemma DecodeOne(c: Byte, t: Bytes)
    ensures Decode62(EncodeOne(c) + t) == Prepend([c], Decode62(t))
  {
    var e := EncodeOne(c) + t;
    if Code(c).None? {
      assert e[0] == c && e[1..] == t;
    } else {
      CodeExactly(c, Code(c).value);
      assert e[0] == ZERO && e[1] == Code(c).value && e[2..] == t;
    }
  }

  /** Decoding undoes encoding, for every string. */
  lemma {:induction false} Base62RoundTrip(s: Bytes)
    ensures Decode62(Encode62(s)) == Some(s)
  {
    if s != [] {
      Base62RoundTrip(s[1..]);
      DecodeOne(s[0], Encode62(s[1..]));
      assert [s[0]] + s[1..] == s;
    }
  }

  /** No character outside a code is one that encoding would have replaced. */
  predicate Canonical(t: Bytes) {
    if t == [] then true
    else if t[0] == ZERO then |t| >= 2 && Uncode(t[1]).Some? && Canonical(t[2..])
    else Code(t[0]).None? && Canonical(t[1..])
  }

  lemma {:induction false} EncodedIsCanonical(s: Bytes)
    ensures Canonical(Encode62(s))
  {
    if s != [] {
      EncodedIsCanonical(s[1..]);
      var t := Encode62(s);
      if Code(s[0]).None? {
        assert t[0] == s[0] && t[1..] == Encode62(s[1..]);
      } else {
        CodeExactly(s[0], Code(s[0]).value);
        assert t[0] == ZERO && t[1] == Code(s[0]).value && t[2..] == Encode62(s[1..]);
      }
    }
  }

  lemma {:induction false} CanonicalIsEncoded(t: Bytes)
    requires Canonical(t)
    ensures Decode62(t).Some? && Encode62(Decode62(t).value) == t
  {
    if t != [] {
      var n := if t[0] == ZERO then 2 else 1;
      CanonicalIsEncoded(t[n..]);
      var s := Decode62(t).value;
      if t[0] == ZERO { CodeExactly(s[0], t[1]); }
      assert s[1..] == Decode62(t[n..]).value && EncodeOne(s[0]) == t[..n];
      assert t[..n] + t[n..] == t;
    }
  }

  /** Encoding undoes decoding exactly on canonical tokens; "_", say, is decoded but not canonical. */
  lemma ReencodesExactly(t: Bytes)
    ensures Decode62(t).Some? && Encode62(Decode62(t).value) == t <==> Canonical(t)
    ensures Decode62([95]) == Some([95]) && !Canonical([95])
  {
    assert [95 as Byte][1..] == [];
    assert Decode62([]) == Some([]);
    assert [95 as Byte] + [] == [95 as Byte];
    if Canonical(t) {
      CanonicalIsEncoded(t);
    } else if Decode62(t).Some? {
      EncodedIsCanonical(Decode62(t).value);
    }
  }

  predicate IsAlphanumeric(c: Byte) { 48 <= c <= 57 || 65 <= c <= 90 || 97 <= c <= 122 }

  predicate AllAlphanumeric(s: Bytes) { forall i :: 0 <= i < |s| ==> IsAlphanumeric(s[i]) }

  predicate Encodable(s: Bytes) { forall i :: 0 <= i < |s| ==> IsAlphanumeric(s[i]) || Code(s[i]).Some? }

  /** The encoded form is alphanumeric exactly when all else in the string is covered by the codes. */
  lemma {:induction false} AlphabetExactly(s: Bytes)
    ensures AllAlphanumeric(Encode62(s)) <==> Encodable(s)
  {
    if s != [] {
      AlphabetExactly(s[1..]);
      assert Encodable(s) <==> (IsAlphanumeric(s[0]) || Code(s[0]).Some?) && Encodable(s[1..]) by {
        assert s == [s[0]] + s[1..];
      }
      ConcatAlphanumeric(EncodeOne(s[0]), Encode62(s[1..]));
    }
  }

  lemma ConcatAlphanumeric(a: Bytes, b: Bytes)
    ensures AllAlphanumeric(a + b) <==> AllAlphanumeric(a) && AllAlphanumeric(b)
  {
    if AllAlphanumeric(a + b) {
      forall i | 0 <= i < |a| ensures IsAlphanumeric(a[i]) { assert a[i] == (a + b)[i]; }
      forall i | 0 <= i < |b| ensures IsAlphanumeric(b[i]) { assert b[i] == (a + b)[|a| + i]; }
    }
  }

  // ------------------------------------------------------------------------ tokens

  /** What a token handler hands out for a macaroon. */
  function TokenOf(m: Macaroon): Bytes { Encode62(Text(Wire(m))) }

  /** The failures that are exceptions, rather than a hang or a read past the end. */
  predicate Thrown(e: Error) { e != NeverReturns && e != ReadsPastEnd }

  /** TokenHandler::deserialize: base62 first, and on any exception the token as it stands. */
  function ReadToken(token: Bytes): Result<Macaroon> {
    var decoded := Decode62(token);
    if decoded.None? then Deserialize(token)
    else
      var m := Deserialize(decoded.value);
      if m.Err? && Thrown(m.error) then Deserialize(token) else m
  }

  method ParseToken(token: Bytes) returns (r: Result<Macaroon>)
    requires ZeroFree(token)
    ensures r == ReadToken(token)
  {
    var decoded := Decode(token);
    if decoded.Some? {
      DecodedZeroFree(token);
      r := DeserializeText(decoded.value);
      if r.Ok? || !Thrown(r.error) {
        return;
      }
    }
    r := DeserializeText(token);
  }

  /** A C string's characters. */
  predicate ZeroFree(s: Bytes) { forall i :: 0 <= i < |s| ==> s[i] != 0 }

  lemma {:induction false} DecodedZeroFree(t: Bytes)
    requires ZeroFree(t) && Decode62(t).Some?
    ensures ZeroFree(Decode62(t).value)
  {
    if t != [] { DecodedZeroFree(t[if t[0] == ZERO then 2 else 1..]); }
  }

  lemma {:induction false} TextIsEncodable(x: seq<Sextet>)
    ensures Encodable(Spell(x))
  {
    if x != [] { TextIsEncodable(x[1..]); }
  }

  /** A token handed out is alphanumeric and is read back as the macaroon it was made from. */
  lemma TokenRoundTrip(m: Macaroon)
    requires WellFormed(m)
    ensures AllAlphanumeric(TokenOf(m)) && ReadToken(TokenOf(m)) == Ok(m)
  {
    TextIsEncodable(Base64.Encode(Wire(m)));
    AlphabetExactly(Text(Wire(m)));
    Base62RoundTrip(Text(Wire(m)));
    SerializeRoundTrip(m);
  }

  // --------------------------------------------------------------- plain base64

  /** A '0' that starts a code and is followed by no code character spoils the whole. */
  lemma {:induction false} BadCode(t: Bytes, p: nat)
    requires p + 1 < |t| && t[p] == ZERO && Uncode(t[p + 1]).None? && (p == 0 || t[p - 1] != ZERO)
    ensures Decode62(t).None?
  {
    if p > 0 {
      var n := if t[0] == ZERO then 2 else 1;
      BadCode(t[n..], p - n);
    }
  }

  /** Where letter j of a text stands, when it is a '0' behind another letter and before an 'a'. */
  lemma {:induction false} FindZeroA(t: Bytes, j: nat) returns (p: nat)
    requires j + 1 < |Letters(t)| && Letters(t)[j] == ZERO && Letters(t)[j + 1] == 97
    requires j > 0 ==> Letters(t)[j - 1] != ZERO
    ensures p + 1 < |t| && t[p] == ZERO && Uncode(t[p + 1]).None? && (p == 0 || t[p - 1] != ZERO)
    ensures p == 0 ==> j == 0
  {
    if IsSpace(t[0]) {
      p := FindZeroA(t[1..], j);
      p := p + 1;
    } else if j > 0 {
      assert forall i :: 0 < i < |Letters(t)| ==> Letters(t)[i] == Letters(t[1..])[i - 1];
      p := FindZeroA(t[1..], j - 1);
      p := p + 1;
    } else {
      p := 0;
      assert Letters(t[1..])[0] == Letters(t)[1];
    }
  }

  /** The letters of "cat" and "ion" at bytes 6 to 11. */
  lemma CationLetters(x: Bytes)
    requires |x| >= 12 && x[6..12] == [99, 97, 116, 105, 111, 110]
    ensures |Text(x)| >= 16 && Text(x)[10] == 70 && Text(x)[11] == ZERO && Text(x)[12] == 97
  {
    assert x[0..] == x;
    TextOfThree(x, 0);
    TextOfThree(x, 3);
    TextOfThree(x, 6);
    TextOfThree(x, 9);
    assert x[6] == x[6..12][0] && x[7] == x[6..12][1] && x[8] == x[6..12][2];
    assert x[9] == x[6..12][3] && x[10] == x[6..12][4] && x[11] == x[6..12][5];
    CationFour();
    FourthGroup(FourLetters(x[0], x[1], x[2]), FourLetters(x[3], x[4], x[5]), FourLetters(x[6], x[7], x[8]),
                FourLetters(x[9], x[10], x[11]), Text(x[12..]));
  }

  lemma CationFour()
    ensures FourLetters(99, 97, 116) == [89, 50, 70, 48] && FourLetters(105, 111, 110) == [97, 87, 57, 117]
  {
  }

  lemma FourthGroup(a: Bytes, b: Bytes, c: Bytes, d: Bytes, rest: Bytes)
    requires |a| == |b| == |c| == |d| == 4
    ensures var t := a + (b + (c + (d + rest)));
            |t| >= 16 && t[10] == c[2] && t[11] == c[3] && t[12] == d[0]
  {
  }

  lemma ParsedHasLocation(data: Bytes)
    requires ParseMacaroon(data).Ok?
    ensures Front(LOCATION, data).Some?
  {
  }

  lemma FrontIsField(key: Bytes, data: Bytes)
    requires Front(key, data).Some?
    ensures var p := Front(key, data).value;
            Field(key, p).Some? && IsField(p, key, Field(key, p).value) && p == data[..|p|]
  {
    ParsedIsKv(Front(key, data).value);
  }

  /** What parses as a macaroon has "location" behind its first four bytes. */
  lemma LocationFirst(data: Bytes)
    requires ParseMacaroon(data).Ok?
    ensures |data| >= 12 && data[6..12] == [99, 97, 116, 105, 111, 110]
  {
    ParsedHasLocation(data);
    FrontIsField(LOCATION, data);
    var p := Front(LOCATION, data).value;
    LocationKey(p, Field(LOCATION, p).value);
    SameSlice(data, |p|);
  }

  lemma SameSlice(data: Bytes, n: nat)
    requires 12 <= n <= |data|
    ensures data[..n][6..12] == data[6..12]
  {
  }

  lemma LocationKey(p: Bytes, val: Bytes)
    requires IsField(p, LOCATION, val)
    ensures |p| >= 14 && p[6..12] == [99, 97, 116, 105, 111, 110]
  {
    assert p[4..12] == LOCATION;
    assert p[6..12] == p[4..12][2..];
  }

  /** No text is readable both ways: what is a macaroon in base64 is no base62. */
  lemma PlainIsNotBase62(t: Bytes)
    requires Deserialize(t).Ok?
    ensures Decode62(t).None? && ReadToken(t) == Deserialize(t)
  {
    var data := Pton(t, |t|).value;
    LocationFirst(data);
    PtonExactly(t, |t|, data);
    CationLetters(data);
    var p := FindZeroA(t, 11);
    BadCode(t, p);
  }

  /** A token saved in plain base64 is read back as its macaroon. */
  lemma SavedTokenRoundTrip(m: Macaroon)
    requires WellFormed(m)
    ensures ReadToken(Text(Wire(m))) == Ok(m)
  {
    SerializeRoundTrip(m);
    PlainIsNotBase62(Text(Wire(m)));
  }

  // ------------------------------------------------------------------- restriction

  /** restrictMacaroon with the predicate "time < ..." already spelled. */
  ghost function Restrict(c: Crypto, m: Macaroon, pred: Bytes): Result<Macaroon>
    requires Works(c) && Short(pred)
  {
    AddFirstParty(c, m, pred)
  }

  /** A restricted macaroon is the old one with one more caveat, which reads as the predicate, under the signature
      that leads to; and it verifies only where the predicate is satisfied. */
  lemma RestrictExactly(c: Crypto, m: Macaroon, pred: Bytes)
    requires Works(c) && Short(pred) && ParseSignature(m.signature).Some?
    ensures Restrict(c, m, pred).Ok? <==> |m.caveats| < MAX_CAVEATS
    ensures Restrict(c, m, pred).Ok? ==>
              var a := Restrict(c, m, pred).value;
              && a.location == m.location
              && Attenuation.Extends(m, a, First(Some(pred)), c.hmac(ParseSignature(m.signature).value, pred))
  {
    if |m.caveats| < MAX_CAVEATS { Attenuation.FirstPartyParses(c, m, pred, ParseSignature(m.signature).value); }
  }

  lemma RestrictionBinds(c: Crypto, v: Verifier, m: Macaroon, pred: Bytes, key: Bytes, ms: seq<Macaroon>)
    requires Works(c) && Short(pred) && Restrict(c, m, pred).Ok?
    requires Verify(c, v, Restrict(c, m, pred).value, key, ms)
    ensures Satisfied(v, pred)
  {
    Attenuation.AddedIsNeeded(c, v, m, pred, key, ms);
  }

  /** The restricted token of anything that can be built comes back as that same restricted macaroon. */
  lemma RestrictedTokenRoundTrip(c: Crypto, location: Bytes, key: Bytes, id: Bytes, specs: seq<CaveatSpec>,
                                 pred: Bytes)
    requires Works(c) && Short(location) && Short(id) && Short(pred) && forall s :: s in specs ==> SpecOk(s)
    requires Build(c, location, key, id, specs).Ok?
    requires Restrict(c, Build(c, location, key, id, specs).value, pred).Ok?
    ensures var m := Restrict(c, Build(c, location, key, id, specs).value, pred).value;
            AllAlphanumeric(TokenOf(m)) && ReadToken(TokenOf(m)) == Ok(m)
  {
    BuiltIsWellFormed(c, location, key, id, specs);
    var m := Build(c, location, key, id, specs).value;
    AttenuateOk(c, m, FirstParty(pred));
    TokenRoundTrip(Restrict(c, m, pred).value);
  }
}
