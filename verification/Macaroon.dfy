/** Macaroons: a chain of keyed hashes over an identifier and its caveats, held as packets. */
module Macaroon {
  import opened Options
  import opened FlatFile
  import opened Packet

  const MAX_STRLEN: nat := 32768
  const MAX_CAVEATS: nat := 65536
  const HASH_BYTES: nat := 32
  const NONCE_BYTES: nat := 24
  const BOX_OVERHEAD: nat := 16
  const VID_BYTES: nat := 72

  /** Hashing and secret-key encryption stay uninterpreted. */
  datatype Crypto = Crypto(hmac: (Bytes, Bytes) -> Bytes,
                           seal: (Bytes, Bytes, Bytes) -> Bytes,
                           open: (Bytes, Bytes, Bytes) -> Option<Bytes>)

  /** All that is known of them: sizes, and that opening undoes sealing. */
  ghost predicate Works(c: Crypto) {
    && (forall k, d :: |c.hmac(k, d)| == HASH_BYTES)
    && (forall k, n, p :: |c.seal(k, n, p)| == |p| + BOX_OVERHEAD)
    && (forall k, n, p :: c.open(k, n, c.seal(k, n, p)) == Some(p))
  }

  /** A toy that meets it: a constant hash, and sixteen zeros for a seal. */
  function ToyCrypto(): Crypto {
    Crypto((k, d) => Zeros(HASH_BYTES), (k, n, p) => p + Zeros(BOX_OVERHEAD),
           (k, n, b: Bytes) => if |b| < BOX_OVERHEAD then None else Some(b[..|b| - BOX_OVERHEAD]))
  }

  lemma SomeCryptoWorks()
    ensures Works(ToyCrypto())
  {
    var c := ToyCrypto();
    forall k, n, p ensures c.open(k, n, c.seal(k, n, p)) == Some(p) {
      assert (p + Zeros(BOX_OVERHEAD))[..|p|] == p;
    }
  }

  /** Packets; an absent one is empty. */
  datatype Caveat = Caveat(cid: Bytes, vid: Bytes, cl: Bytes)

  datatype Macaroon = Macaroon(location: Bytes, identifier: Bytes, caveats: seq<Caveat>, signature: Bytes)

  datatype Result<T> = Ok(value: T) | Err(error: Error)

  datatype Error = TooManyCaveats | Invalid | BufTooSmall | NoJson | NeverReturns | ReadsPastEnd

  /** What a caller asks for when attenuating a macaroon. */
  datatype CaveatSpec =
    | FirstParty(predicate_: Bytes)
    | ThirdParty(location: Bytes, key: Bytes, id: Bytes, nonce: Bytes)

  predicate Short(s: Bytes) { |s| < MAX_STRLEN }

  // ----------------------------------------------------------------- the hash chain

  /** "macaroons-key-generator" and its terminating zero, padded to 32 bytes. */
  const KEY_GENERATOR: Bytes :=
    [109, 97, 99, 97, 114, 111, 111, 110, 115, 45, 107, 101, 121, 45, 103, 101, 110, 101, 114, 97, 116,
     111, 114, 0, 0, 0, 0, 0, 0, 0, 0, 0]

  function DerivedKey(c: Crypto, key: Bytes): Bytes { c.hmac(KEY_GENERATOR, key) }

  function Hash2(c: Crypto, key: Bytes, a: Bytes, b: Bytes): Bytes {
    c.hmac(key, c.hmac(key, a) + c.hmac(key, b))
  }

  /** How a discharge is tied to the root macaroon of a request. */
  function Bind(c: Crypto, root: Bytes, sig: Bytes): Bytes { Hash2(c, Zeros(HASH_BYTES), root, sig) }

  // ------------------------------------------------------------------ construction

  function SignaturePacket(sig: Bytes): Bytes
    requires |sig| == HASH_BYTES
  {
    Kv(SIGNATURE, sig)
  }

  /** The signature's 32 bytes, if the packet is one. */
  function ParseSignature(p: Bytes): (r: Option<Bytes>)
    ensures r.Some? ==> |r.value| == HASH_BYTES
  {
    var sig := Field(SIGNATURE, p);
    if sig.None? || |sig.value| != HASH_BYTES then None else sig
  }

  function CreateRaw(c: Crypto, location: Bytes, key: Bytes, id: Bytes): Macaroon
    requires Short(location) && Short(id) && |key| == HASH_BYTES && |c.hmac(key, id)| == HASH_BYTES
  {
    Macaroon(Kv(LOCATION, location), Kv(IDENTIFIER, id), [], SignaturePacket(c.hmac(key, id)))
  }

  function AddFirstParty(c: Crypto, m: Macaroon, pred: Bytes): Result<Macaroon>
    requires Short(pred) && forall k, d :: |c.hmac(k, d)| == HASH_BYTES
  {
    var sig := ParseSignature(m.signature);
    if |m.caveats| + 1 > MAX_CAVEATS then Err(TooManyCaveats)
    else if sig.None? then Err(Invalid)
    else Ok(m.(caveats := m.caveats + [Caveat(Kv(CID, pred), [], [])],
               signature := SignaturePacket(c.hmac(sig.value, pred))))
  }

  /** The caveat key travels sealed under the signature so far, behind its nonce. */
  function SealedKey(c: Crypto, sig: Bytes, nonce: Bytes, key: Bytes): Bytes {
    nonce + c.seal(sig, nonce, key)
  }

  function AddThirdPartyRaw(c: Crypto, m: Macaroon, location: Bytes, key: Bytes, id: Bytes, nonce: Bytes)
    : Result<Macaroon>
    requires Works(c) && Short(location) && Short(id) && |key| == HASH_BYTES && |nonce| == NONCE_BYTES
  {
    var sig := ParseSignature(m.signature);
    if |m.caveats| + 1 > MAX_CAVEATS then Err(TooManyCaveats)
    else if sig.None? then Err(Invalid)
    else
      var vid := SealedKey(c, sig.value, nonce, key);
      Ok(m.(caveats := m.caveats + [Caveat(Kv(CID, id), Kv(VID, vid), Kv(CL, location))],
            signature := SignaturePacket(Hash2(c, sig.value, vid, id))))
  }

  ghost predicate SpecOk(s: CaveatSpec) {
    match s
    case FirstParty(pred) => Short(pred)
    case ThirdParty(loc, key, id, nonce) => Short(loc) && Short(id) && |nonce| == NONCE_BYTES
  }

  /** macaroon_add_first_party_caveat or macaroon_add_third_party_caveat. */
  ghost function Attenuate(c: Crypto, m: Macaroon, s: CaveatSpec): Result<Macaroon>
    requires Works(c) && SpecOk(s)
  {
    match s
    case FirstParty(pred) => AddFirstParty(c, m, pred)
    case ThirdParty(loc, key, id, nonce) => AddThirdPartyRaw(c, m, loc, DerivedKey(c, key), id, nonce)
  }

  /** macaroon_create, then one caveat after another. */
  ghost function Build(c: Crypto, location: Bytes, key: Bytes, id: Bytes, specs: seq<CaveatSpec>)
    : Result<Macaroon>
    requires Works(c) && Short(location) && Short(id) && forall s :: s in specs ==> SpecOk(s)
  {
    if specs == [] then Ok(CreateRaw(c, location, DerivedKey(c, key), id))
    else
      var n := |specs| - 1;
      assert specs[n] in specs;
      var m := Build(c, location, key, id, specs[..n]);
      if m.Err? then m else Attenuate(c, m.value, specs[n])
  }

  // --------------------------------------------------------------------- well-formed

  /** Made of exactly this field with this value. */
  predicate IsField(p: Bytes, key: Bytes, val: Bytes) {
    PREFIX + 2 + |key| + |val| <= MAX_SIZE && p == Kv(key, val)
  }

  ghost predicate CaveatOk(v: Caveat) {
    (exists x :: IsField(v.cid, CID, x)) &&
    ((v.vid == [] && v.cl == []) ||
     ((exists y :: |y| == VID_BYTES && IsField(v.vid, VID, y)) && exists z :: IsField(v.cl, CL, z)))
  }

  ghost predicate WellFormed(m: Macaroon) {
    && (exists x :: IsField(m.location, LOCATION, x))
    && (exists x :: IsField(m.identifier, IDENTIFIER, x))
    && (exists x :: |x| == HASH_BYTES && IsField(m.signature, SIGNATURE, x))
    && forall v :: v in m.caveats ==> CaveatOk(v)
  }

  lemma FieldOf(p: Bytes, key: Bytes, val: Bytes)
    requires IsField(p, key, val) && SPACE !in key
    ensures Field(key, p) == Some(val) && |p| == PREFIX + 2 + |key| + |val|
  {
    KvParses(key, val);
  }

  lemma ExtendedOk(m: Macaroon, v: Caveat, sig: Bytes)
    requires WellFormed(m) && CaveatOk(v) && |sig| == HASH_BYTES
    ensures WellFormed(m.(caveats := m.caveats + [v], signature := SignaturePacket(sig)))
  {
    assert IsField(SignaturePacket(sig), SIGNATURE, sig);
  }

  lemma FirstPartyOk(pred: Bytes)
    requires Short(pred)
    ensures CaveatOk(Caveat(Kv(CID, pred), [], []))
  {
    assert IsField(Kv(CID, pred), CID, pred);
  }

  lemma ThirdPartyOk(id: Bytes, vid: Bytes, loc: Bytes)
    requires Short(id) && |vid| == VID_BYTES && Short(loc)
    ensures CaveatOk(Caveat(Kv(CID, id), Kv(VID, vid), Kv(CL, loc)))
  {
    assert IsField(Kv(CID, id), CID, id) && IsField(Kv(VID, vid), VID, vid) && IsField(Kv(CL, loc), CL, loc);
  }

  lemma AttenuateOk(c: Crypto, m: Macaroon, s: CaveatSpec)
    requires Works(c) && SpecOk(s) && WellFormed(m) && Attenuate(c, m, s).Ok?
    ensures WellFormed(Attenuate(c, m, s).value)
  {
    var sig := ParseSignature(m.signature).value;
    match s
    case FirstParty(pred) =>
      FirstPartyOk(pred);
      ExtendedOk(m, Caveat(Kv(CID, pred), [], []), c.hmac(sig, pred));
    case ThirdParty(loc, key, id, nonce) =>
      var vid := SealedKey(c, sig, nonce, DerivedKey(c, key));
      ThirdPartyOk(id, vid, loc);
      ExtendedOk(m, Caveat(Kv(CID, id), Kv(VID, vid), Kv(CL, loc)), Hash2(c, sig, vid, id));
  }

  /** Every macaroon that can be built is well-formed. */
  lemma {:induction false} BuiltIsWellFormed(c: Crypto, location: Bytes, key: Bytes, id: Bytes,
                                             specs: seq<CaveatSpec>)
    requires Works(c) && Short(location) && Short(id) && forall s :: s in specs ==> SpecOk(s)
    requires Build(c, location, key, id, specs).Ok?
    ensures WellFormed(Build(c, location, key, id, specs).value)
  {
    if specs == [] {
      var m := Build(c, location, key, id, specs).value;
      assert IsField(m.location, LOCATION, location) && IsField(m.identifier, IDENTIFIER, id);
      assert IsField(m.signature, SIGNATURE, c.hmac(DerivedKey(c, key), id));
    } else {
      var n := |specs| - 1;
      assert specs[n] in specs;
      BuiltIsWellFormed(c, location, key, id, specs[..n]);
      AttenuateOk(c, Build(c, location, key, id, specs[..n]).value, specs[n]);
    }
  }
}
