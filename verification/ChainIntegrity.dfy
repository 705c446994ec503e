/** What the signature of a macaroon vouches for. */
module ChainIntegrity {
  import opened Options
  import opened FlatFile
  import opened Packet
  import opened Macaroon
  import opened Verifier

  /** A key and the bytes hashed under it. */
  type Hashing = (Bytes, Bytes)

  function Hash(c: Crypto, x: Hashing): Bytes { c.hmac(x.0, x.1) }

  predicate Readable(cl: Clause) { cl.cid.Some? && (cl.Third? ==> cl.vid.Some?) }

  predicate AllReadable(cs: seq<Clause>) { forall i :: 0 <= i < |cs| ==> Readable(cs[i]) }

  /** What is hashed for a caveat under the signature in front of it: its predicate, or the hashes of its vid and
      its identifier. */
  function Link(c: Crypto, sig: Bytes, cl: Clause): Bytes
    requires Readable(cl)
  {
    match cl
    case First(cid) => cid.value
    case Third(cid, vid) => c.hmac(sig, vid.value) + c.hmac(sig, cid.value)
  }

  /** The hashings that lead to the signature: of the identifier, then of one caveat after another. */
  function Links(c: Crypto, key: Bytes, id: Bytes, cs: seq<Clause>): (ls: seq<Hashing>)
    requires AllReadable(cs)
    ensures |ls| == |cs| + 1
  {
    if cs == [] then [(key, id)]
    else
      var n := |cs| - 1;
      var front := Links(c, key, id, cs[..n]);
      var sig := Hash(c, front[n]);
      front + [(sig, Link(c, sig, cs[n]))]
  }

  /** The signature of an identifier and caveats under a key. */
  function Tip(c: Crypto, key: Bytes, id: Bytes, cs: seq<Clause>): Bytes
    requires AllReadable(cs)
  {
    Hash(c, Links(c, key, id, cs)[|cs|])
  }

  // -------------------------------------------------------------- what verifying shows

  /** A discharge's signature, hashed together with the root's. */
  function Tied(c: Crypto, root: Bytes, sig: Bytes): Bytes {
    c.hmac(Zeros(HASH_BYTES), c.hmac(Zeros(HASH_BYTES), root) + c.hmac(Zeros(HASH_BYTES), sig))
  }

  lemma {:induction false} CheckedIsTip(c: Crypto, v: Verifier, cs: seq<Clause>, n: nat, key: Bytes, id: Bytes,
                                        root: Option<Bytes>, ms: seq<Parsed>, path: seq<nat>)
    requires n <= |cs| && |path| <= |ms|
    requires CheckCaveats(c, v, cs, n, c.hmac(key, id), root, ms, path).Some?
    ensures AllReadable(cs[..n])
    ensures CheckCaveats(c, v, cs, n, c.hmac(key, id), root, ms, path).value == Tip(c, key, id, cs[..n])
    decreases n
  {
    if n > 0 {
      CheckedIsTip(c, v, cs, n - 1, key, id, root, ms, path);
      assert cs[..n][..n - 1] == cs[..n - 1];
    }
  }

  /** What a macaroon carries when its signature is in order: that of its own identifier and caveats under the
      key, for a discharge hashed together with the root's. */
  predicate Signed(c: Crypto, m: Parsed, key: Bytes, root: Option<Bytes>) {
    && m.id.Some? && AllReadable(m.caveats)
    && var sig := Tip(c, key, m.id.value, m.caveats);
       if root.None? then m.sig == Some(sig)
       else m.sig == Some(Tied(c, root.value, sig))
  }

  /** On every path and for every pool, that is what verifies. */
  lemma VerifiedIsSigned(c: Crypto, v: Verifier, m: Parsed, root: Option<Bytes>, key: Bytes, ms: seq<Parsed>,
                         path: seq<nat>)
    requires Verifies(c, v, m, root, key, ms, path)
    ensures Signed(c, m, key, if path == [] then None else root) && (path != [] ==> root.Some?)
  {
    CheckedIsTip(c, v, m.caveats, |m.caveats|, key, m.id.value, root, ms, path);
    assert m.caveats[..|m.caveats|] == m.caveats;
  }

  /** A root macaroon is signed under the hash of the caller's key. */
  lemma RootIsSigned(c: Crypto, v: Verifier, m: Macaroon, key: Bytes, ms: seq<Macaroon>)
    requires Verify(c, v, m, key, ms)
    ensures Signed(c, Parse(m), c.hmac(KEY_GENERATOR, key), None)
  {
    VerifiedIsSigned(c, v, Parse(m), ParseSignature(m.signature), c.hmac(KEY_GENERATOR, key), ParseAll(ms), []);
  }

  /** Of two macaroons that differ only in their signature, at most one verifies, on any path. */
  lemma OneSignature(c: Crypto, v: Verifier, m: Parsed, other: Option<Bytes>, root: Option<Bytes>, key: Bytes,
                     ms: seq<Parsed>, path: seq<nat>)
    requires Verifies(c, v, m, root, key, ms, path) && Verifies(c, v, m.(sig := other), root, key, ms, path)
    ensures other == m.sig
  {
    VerifiedIsSigned(c, v, m, root, key, ms, path);
    VerifiedIsSigned(c, v, m.(sig := other), root, key, ms, path);
  }

  lemma FieldDetermines(key: Bytes, p: Bytes, q: Bytes)
    requires Field(key, p).Some? && Field(key, p) == Field(key, q)
    ensures p == q
  {
    ParsedIsKv(p);
    ParsedIsKv(q);
  }

  /** ... whatever verifiers and pools they are given. */
  lemma OneSignaturePacket(c: Crypto, v: Verifier, m: Macaroon, key: Bytes, ms: seq<Macaroon>,
                           w: Verifier, signature: Bytes, ns: seq<Macaroon>)
    requires Verify(c, v, m, key, ms) && Verify(c, w, m.(signature := signature), key, ns)
    ensures signature == m.signature
  {
    var other := m.(signature := signature);
    VerifiedIsSigned(c, v, Parse(m), ParseSignature(m.signature), DerivedKey(c, key), ParseAll(ms), []);
    VerifiedIsSigned(c, w, Parse(other), ParseSignature(signature), DerivedKey(c, key), ParseAll(ns), []);
    assert Parse(other).caveats == Parse(m).caveats;
    FieldDetermines(SIGNATURE, signature, m.signature);
  }

  // -------------------------------------------------------------- chains of hashings

  predicate IsChain(c: Crypto, ls: seq<Hashing>) {
    ls != [] && forall i :: 0 < i < |ls| ==> ls[i].0 == Hash(c, ls[i - 1])
  }

  lemma {:induction false} LinksChain(c: Crypto, key: Bytes, id: Bytes, cs: seq<Clause>)
    requires AllReadable(cs)
    ensures IsChain(c, Links(c, key, id, cs)) && Links(c, key, id, cs)[0] == (key, id)
    decreases |cs|
  {
    if cs != [] { LinksChain(c, key, id, cs[..|cs| - 1]); }
  }

  /** No two of these hashings come to the same. */
  ghost predicate NoCollision(c: Crypto, xs: set<Hashing>) {
    forall x, y :: x in xs && y in xs && Hash(c, x) == Hash(c, y) ==> x == y
  }

  function Elements(ls: seq<Hashing>): (xs: set<Hashing>)
    ensures forall x :: x in xs <==> x in ls
  {
    set x | x in ls
  }

  /** Chains with the same last hash: the shorter is the end of the longer. */
  lemma {:induction false} ShorterIsEnd(c: Crypto, a: seq<Hashing>, b: seq<Hashing>, xs: set<Hashing>)
    requires IsChain(c, a) && IsChain(c, b) && |b| <= |a| && NoCollision(c, xs)
    requires Elements(a) <= xs && Elements(b) <= xs && Hash(c, a[|a| - 1]) == Hash(c, b[|b| - 1])
    ensures a[|a| - |b|..] == b
    decreases |b|
  {
    var x, y := a[|a| - 1], b[|b| - 1];
    assert x in Elements(a) && y in Elements(b);
    assert x == y;
    if |b| > 1 {
      var a', b' := a[..|a| - 1], b[..|b| - 1];
      assert a'[|a'| - 1] == a[|a| - 2] && b'[|b'| - 1] == b[|b| - 2];
      ShorterIsEnd(c, a', b', xs);
      assert a[|a| - |b|..] == a'[|a'| - |b'|..] + [x];
    }
  }

  lemma {:induction false} LinkAt(c: Crypto, key: Bytes, id: Bytes, cs: seq<Clause>, i: nat)
    requires AllReadable(cs) && i < |cs|
    ensures var x := Links(c, key, id, cs)[i + 1]; x.1 == Link(c, x.0, cs[i])
    decreases |cs|
  {
    if i < |cs| - 1 { LinkAt(c, key, id, cs[..|cs| - 1], i); }
  }

  // ----------------------------------------------------------- what cannot be changed

  /** The signature in front of caveat i. */
  function SigAt(c: Crypto, key: Bytes, id: Bytes, cs: seq<Clause>, i: nat): Bytes
    requires AllReadable(cs) && i < |cs|
  {
    Links(c, key, id, cs)[i + 1].0
  }

  /** From the key a caller holds: it is hashed first. */
  function FromKey(c: Crypto, key: Bytes, id: Bytes, cs: seq<Clause>): seq<Hashing>
    requires AllReadable(cs)
  {
    [(KEY_GENERATOR, key)] + Links(c, c.hmac(KEY_GENERATOR, key), id, cs)
  }

  lemma FromKeyChain(c: Crypto, key: Bytes, id: Bytes, cs: seq<Clause>)
    requires AllReadable(cs)
    ensures IsChain(c, FromKey(c, key, id, cs)) && |FromKey(c, key, id, cs)| == |cs| + 2
  {
    LinksChain(c, c.hmac(KEY_GENERATOR, key), id, cs);
  }

  function InnerVids(c: Crypto, key: Bytes, id: Bytes, cs: seq<Clause>): set<Hashing>
    requires AllReadable(cs)
  {
    set i | 0 <= i < |cs| && cs[i].Third? :: (SigAt(c, key, id, cs, i), cs[i].vid.value)
  }

  function InnerIds(c: Crypto, key: Bytes, id: Bytes, cs: seq<Clause>): set<Hashing>
    requires AllReadable(cs)
  {
    set i | 0 <= i < |cs| && cs[i].Third? :: (SigAt(c, key, id, cs, i), cs[i].cid.value)
  }

  /** All that is hashed to compute a signature from the caller's key. */
  function Hashed(c: Crypto, key: Bytes, id: Bytes, cs: seq<Clause>): set<Hashing>
    requires AllReadable(cs)
  {
    var derived := c.hmac(KEY_GENERATOR, key);
    Elements(FromKey(c, key, id, cs)) + InnerVids(c, derived, id, cs) + InnerIds(c, derived, id, cs)
  }

  /** ... of this macaroon, as far as its packets can be read. */
  function HashedFor(c: Crypto, key: Bytes, m: Parsed): set<Hashing> {
    if m.id.Some? && AllReadable(m.caveats) then Hashed(c, key, m.id.value, m.caveats) else {}
  }

  /** The hash does what it is trusted to do, as far as these go: no collision, and none of them yields the
      constant under which keys are derived. */
  ghost predicate Trusted(c: Crypto, xs: set<Hashing>) {
    NoCollision(c, xs) && forall x :: x in xs ==> Hash(c, x) != KEY_GENERATOR
  }

  /** A toy hash of one bit, good enough for a macaroon without caveats. */
  function OneBit(): Crypto {
    ToyCrypto().(hmac := (k, d) => [if k == KEY_GENERATOR then 1 else 2] + Zeros(HASH_BYTES - 1))
  }

  lemma TrustIsPossible(key: Bytes, id: Bytes)
    ensures Works(OneBit()) && Trusted(OneBit(), Hashed(OneBit(), key, id, []))
  {
    SomeCryptoWorks();
    var c := OneBit();
    var d := c.hmac(KEY_GENERATOR, key);
    assert d[0] == 1 && KEY_GENERATOR[0] == 109;
    assert FromKey(c, key, id, []) == [(KEY_GENERATOR, key), (d, id)];
    forall x | x in Hashed(c, key, id, []) ensures x == (KEY_GENERATOR, key) || x == (d, id) {}
    assert c.hmac(d, id)[0] == 2;
  }

  /** Equal last hashes, equal chains: they begin at the constant and never come back to it. */
  lemma SameChain(c: Crypto, a: seq<Hashing>, b: seq<Hashing>, xs: set<Hashing>)
    requires IsChain(c, a) && IsChain(c, b) && Trusted(c, xs) && Elements(a) <= xs && Elements(b) <= xs
    requires a[0].0 == KEY_GENERATOR == b[0].0 && Hash(c, a[|a| - 1]) == Hash(c, b[|b| - 1])
    ensures a == b
  {
    if |b| <= |a| {
      EndIsAll(c, a, b, xs);
    } else {
      EndIsAll(c, b, a, xs);
    }
  }

  lemma EndIsAll(c: Crypto, a: seq<Hashing>, b: seq<Hashing>, xs: set<Hashing>)
    requires IsChain(c, a) && IsChain(c, b) && Trusted(c, xs) && Elements(a) <= xs && Elements(b) <= xs
    requires |b| <= |a| && b[0].0 == KEY_GENERATOR && Hash(c, a[|a| - 1]) == Hash(c, b[|b| - 1])
    ensures a == b
  {
    forall i | 0 < i < |a| ensures a[i].0 != KEY_GENERATOR { assert a[i - 1] in Elements(a); }
    ShorterIsEnd(c, a, b, xs);
    assert a[|a| - |b|] == a[|a| - |b|..][0];
    assert |a| == |b| && a[0..] == a;
  }

  /** A first-party caveat whose predicate is what is hashed for the third-party one. */
  predicate PassesFor(c: Crypto, sig: Bytes, first: Clause, third: Clause) {
    && first.First? && third.Third? && third.cid.Some? && third.vid.Some?
    && first.cid == Some(c.hmac(sig, third.vid.value) + c.hmac(sig, third.cid.value))
  }

  predicate SameCaveat(c: Crypto, sig: Bytes, a: Clause, b: Clause) {
    a == b || PassesFor(c, sig, a, b) || PassesFor(c, sig, b, a)
  }

  lemma SameLink(c: Crypto, sig: Bytes, a: Clause, b: Clause, xs: set<Hashing>)
    requires Works(c) && NoCollision(c, xs) && Readable(a) && Readable(b) && Link(c, sig, a) == Link(c, sig, b)
    requires a.Third? ==> (sig, a.vid.value) in xs && (sig, a.cid.value) in xs
    requires b.Third? ==> (sig, b.vid.value) in xs && (sig, b.cid.value) in xs
    ensures SameCaveat(c, sig, a, b)
  {
    if a.Third? && b.Third? {
      var l, r := Link(c, sig, a), Link(c, sig, b);
      assert c.hmac(sig, a.vid.value) == l[..HASH_BYTES] == r[..HASH_BYTES] == c.hmac(sig, b.vid.value);
      assert c.hmac(sig, a.cid.value) == l[HASH_BYTES..] == r[HASH_BYTES..] == c.hmac(sig, b.cid.value);
      assert Hash(c, (sig, a.vid.value)) == Hash(c, (sig, b.vid.value));
      assert Hash(c, (sig, a.cid.value)) == Hash(c, (sig, b.cid.value));
    }
  }

  lemma InnerHashed(c: Crypto, key: Bytes, id: Bytes, cs: seq<Clause>, i: nat)
    requires AllReadable(cs) && i < |cs| && cs[i].Third?
    ensures var sig := SigAt(c, c.hmac(KEY_GENERATOR, key), id, cs, i);
            (sig, cs[i].vid.value) in Hashed(c, key, id, cs) && (sig, cs[i].cid.value) in Hashed(c, key, id, cs)
  {
    var derived := c.hmac(KEY_GENERATOR, key);
    assert (SigAt(c, derived, id, cs, i), cs[i].vid.value) in InnerVids(c, derived, id, cs);
    assert (SigAt(c, derived, id, cs, i), cs[i].cid.value) in InnerIds(c, derived, id, cs);
  }

  lemma SameStart(c: Crypto, key: Bytes, id: Bytes, cs: seq<Clause>, key': Bytes, id': Bytes, cs': seq<Clause>)
    requires AllReadable(cs) && AllReadable(cs')
    requires Trusted(c, Hashed(c, key, id, cs) + Hashed(c, key', id', cs'))
    requires Tip(c, c.hmac(KEY_GENERATOR, key), id, cs) == Tip(c, c.hmac(KEY_GENERATOR, key'), id', cs')
    ensures key == key' && id == id' && |cs| == |cs'|
    ensures Links(c, c.hmac(KEY_GENERATOR, key), id, cs) == Links(c, c.hmac(KEY_GENERATOR, key'), id', cs')
  {
    var a, b := FromKey(c, key, id, cs), FromKey(c, key', id', cs');
    FromKeyChain(c, key, id, cs);
    FromKeyChain(c, key', id', cs');
    LinksChain(c, c.hmac(KEY_GENERATOR, key), id, cs);
    LinksChain(c, c.hmac(KEY_GENERATOR, key'), id', cs');
    SameChain(c, a, b, Hashed(c, key, id, cs) + Hashed(c, key', id', cs'));
    assert a[0] == b[0] && a[1..] == b[1..];
    assert a[1] == (c.hmac(KEY_GENERATOR, key), id) && b[1] == (c.hmac(KEY_GENERATOR, key'), id');
  }

  /** Equal signatures come from the same key, the same identifier, and the same caveats, but for a first-party
      caveat that passes for a third-party one. */
  lemma SameTip(c: Crypto, key: Bytes, id: Bytes, cs: seq<Clause>, key': Bytes, id': Bytes, cs': seq<Clause>)
    requires Works(c) && AllReadable(cs) && AllReadable(cs')
    requires Trusted(c, Hashed(c, key, id, cs) + Hashed(c, key', id', cs'))
    requires Tip(c, c.hmac(KEY_GENERATOR, key), id, cs) == Tip(c, c.hmac(KEY_GENERATOR, key'), id', cs')
    ensures key == key' && id == id' && |cs| == |cs'|
    ensures forall i :: 0 <= i < |cs| ==>
              SameCaveat(c, SigAt(c, c.hmac(KEY_GENERATOR, key), id, cs, i), cs[i], cs'[i])
  {
    var xs := Hashed(c, key, id, cs) + Hashed(c, key', id', cs');
    var derived := c.hmac(KEY_GENERATOR, key);
    SameStart(c, key, id, cs, key', id', cs');
    forall i | 0 <= i < |cs| ensures SameCaveat(c, SigAt(c, derived, id, cs, i), cs[i], cs'[i]) {
      LinkAt(c, derived, id, cs, i);
      LinkAt(c, derived, id', cs', i);
      if cs[i].Third? { InnerHashed(c, key, id, cs, i); }
      if cs'[i].Third? { InnerHashed(c, key', id', cs', i); }
      SameLink(c, SigAt(c, derived, id, cs, i), cs[i], cs'[i], xs);
    }
  }

  ghost predicate SameMacaroon(c: Crypto, m: Parsed, n: Parsed, key: Bytes)
    requires m.id.Some? && AllReadable(m.caveats)
  {
    && m.id == n.id && |m.caveats| == |n.caveats|
    && forall i :: 0 <= i < |m.caveats| ==>
         SameCaveat(c, SigAt(c, c.hmac(KEY_GENERATOR, key), m.id.value, m.caveats, i), m.caveats[i], n.caveats[i])
  }

  /** Two macaroons with the same signature that both verify, under whatever keys, verifiers and pools: the keys
      and the identifiers are equal, and so are the caveats, but for the case above. So a key or an identifier
      exchanged, and a caveat dropped, added, moved or changed, is refused. */
  lemma TamperingIsRefused(c: Crypto, v: Verifier, m: Macaroon, key: Bytes, ms: seq<Macaroon>,
                           w: Verifier, n: Macaroon, key': Bytes, ns: seq<Macaroon>)
    requires Works(c) && Verify(c, v, m, key, ms) && Verify(c, w, n, key', ns) && m.signature == n.signature
    requires Trusted(c, HashedFor(c, key, Parse(m)) + HashedFor(c, key', Parse(n)))
    ensures key == key' && n.identifier == m.identifier
    ensures Parse(m).id.Some? && AllReadable(Parse(m).caveats) && SameMacaroon(c, Parse(m), Parse(n), key)
  {
    RootIsSigned(c, v, m, key, ms);
    RootIsSigned(c, w, n, key', ns);
    SameTip(c, key, Parse(m).id.value, Parse(m).caveats, key', Parse(n).id.value, Parse(n).caveats);
    FieldDetermines(IDENTIFIER, n.identifier, m.identifier);
  }

  /** Every caveat of a macaroon that verifies holds, under the signature in front of it: its predicate is
      satisfied, or every discharge has a readable identifier, the last with the caveat's is not in use on the way
      there, and verifies under the key the vid opens to. */
  lemma {:induction false} CaveatHolds(c: Crypto, v: Verifier, m: Parsed, root: Option<Bytes>, key: Bytes,
                                       ms: seq<Parsed>, path: seq<nat>, i: nat)
    requires Verifies(c, v, m, root, key, ms, path) && i < |m.caveats|
    ensures m.id.Some? && AllReadable(m.caveats)
    ensures var sig, cid := SigAt(c, key, m.id.value, m.caveats, i), m.caveats[i].cid.value;
            if m.caveats[i].First? then Satisfied(v, cid)
            else
              && (forall j :: 0 <= j < |ms| ==> ms[j].id.Some?)
              && (forall t :: 0 <= t < |path| && path[t] < |ms| ==> ms[path[t]].id != Some(cid))
              && exists k :: 0 <= k < |ms| && ms[k].id == Some(cid) &&
                             (forall j :: k < j < |ms| ==> ms[j].id != Some(cid)) &&
                             Discharges(c, v, ms, root, sig, m.caveats[i].vid, path, k)
  {
    VerifiedIsSigned(c, v, m, root, key, ms, path);
    HeldAt(c, v, m.caveats, |m.caveats|, i, key, m.id.value, root, ms, path);
    SigAtIsTip(c, key, m.id.value, m.caveats, i);
    if m.caveats[i].Third? {
      var k := LastMatch(ms, m.caveats[i].cid.value, |ms|);
      assert Discharges(c, v, ms, root, SigAt(c, key, m.id.value, m.caveats, i), m.caveats[i].vid, path, k);
    }
  }

  /** This discharge verifies, under the key sealed in the vid behind its nonce. */
  predicate Discharges(c: Crypto, v: Verifier, ms: seq<Parsed>, root: Option<Bytes>, sig: Bytes, vid: Option<Bytes>,
                       path: seq<nat>, k: nat)
  {
    && k < |ms| && vid.Some? && |vid.value| == VID_BYTES
    && var key := c.open(sig, vid.value[..NONCE_BYTES], vid.value[NONCE_BYTES..]);
       key.Some? && Verifies(c, v, ms[k], root, key.value, ms, path + [k])
  }

  lemma {:induction false} HeldAt(c: Crypto, v: Verifier, cs: seq<Clause>, n: nat, i: nat, key: Bytes, id: Bytes,
                                  root: Option<Bytes>, ms: seq<Parsed>, path: seq<nat>)
    requires i < n <= |cs| && |path| <= |ms| && CheckCaveats(c, v, cs, n, c.hmac(key, id), root, ms, path).Some?
    ensures AllReadable(cs[..i]) && ClauseHolds(c, v, cs[i], Tip(c, key, id, cs[..i]), root, ms, path)
    decreases n
  {
    if i < n - 1 {
      HeldAt(c, v, cs, n - 1, i, key, id, root, ms, path);
    } else {
      CheckedIsTip(c, v, cs, i, key, id, root, ms, path);
    }
  }

  // -------------------------------------------------------- what a discharge is bound to

  function TiedHashed(c: Crypto, root: Bytes, sig: Bytes): set<Hashing> {
    var z := Zeros(HASH_BYTES);
    {(z, root), (z, sig), (z, c.hmac(z, root) + c.hmac(z, sig))}
  }

  lemma SameTie(c: Crypto, root: Bytes, sig: Bytes, root': Bytes, sig': Bytes)
    requires Works(c) && NoCollision(c, TiedHashed(c, root, sig) + TiedHashed(c, root', sig'))
    requires Tied(c, root, sig) == Tied(c, root', sig')
    ensures root == root' && sig == sig'
  {
    var z := Zeros(HASH_BYTES);
    var l, r := c.hmac(z, root) + c.hmac(z, sig), c.hmac(z, root') + c.hmac(z, sig');
    assert Hash(c, (z, l)) == Hash(c, (z, r));
    assert (z, l) == (z, r);
    assert c.hmac(z, root) == l[..HASH_BYTES] == r[..HASH_BYTES] == c.hmac(z, root');
    assert c.hmac(z, sig) == l[HASH_BYTES..] == r[HASH_BYTES..] == c.hmac(z, sig');
    assert Hash(c, (z, root)) == Hash(c, (z, root')) && Hash(c, (z, sig)) == Hash(c, (z, sig'));
  }

  /** All that is hashed to compute a discharge's signature from the key its caveat holds. */
  function DischargeHashed(c: Crypto, root: Bytes, key: Bytes, d: Parsed): set<Hashing> {
    if d.id.Some? && AllReadable(d.caveats) then
      Elements(Links(c, key, d.id.value, d.caveats)) + TiedHashed(c, root, Tip(c, key, d.id.value, d.caveats))
    else {}
  }

  lemma Fewer(c: Crypto, xs: set<Hashing>, ys: set<Hashing>)
    requires NoCollision(c, xs) && ys <= xs
    ensures NoCollision(c, ys)
  {
  }

  /** A discharge verifies for one root and under one key only, wherever it is used. */
  lemma BoundToOneRoot(c: Crypto, v: Verifier, d: Parsed, root: Bytes, key: Bytes, ms: seq<Parsed>, path: seq<nat>,
                       w: Verifier, root': Bytes, key': Bytes, ns: seq<Parsed>, path': seq<nat>)
    requires Works(c) && path != [] && path' != []
    requires Verifies(c, v, d, Some(root), key, ms, path) && Verifies(c, w, d, Some(root'), key', ns, path')
    requires NoCollision(c, DischargeHashed(c, root, key, d) + DischargeHashed(c, root', key', d))
    ensures root == root' && key == key'
  {
    VerifiedIsSigned(c, v, d, Some(root), key, ms, path);
    VerifiedIsSigned(c, w, d, Some(root'), key', ns, path');
    var id, cs, xs := d.id.value, d.caveats, DischargeHashed(c, root, key, d) + DischargeHashed(c, root', key', d);
    var sig, sig' := Tip(c, key, id, cs), Tip(c, key', id, cs);
    Fewer(c, xs, TiedHashed(c, root, sig) + TiedHashed(c, root', sig'));
    SameTie(c, root, sig, root', sig');
    LinksChain(c, key, id, cs);
    LinksChain(c, key', id, cs);
    ShorterIsEnd(c, Links(c, key, id, cs), Links(c, key', id, cs), xs);
    assert Links(c, key, id, cs)[0..] == Links(c, key, id, cs);
  }

  // ------------------------------------------------------------------- what can be

  lemma {:induction false} ExchangedCheck(c: Crypto, v: Verifier, cs: seq<Clause>, i: nat, pred: Bytes, n: nat,
                                          sig: Bytes, root: Option<Bytes>, ms: seq<Parsed>, path: seq<nat>)
    requires i < |cs| && n <= |cs| && |path| <= |ms| && CheckCaveats(c, v, cs, n, sig, root, ms, path).Some?
    requires i < n ==> var before := CheckCaveats(c, v, cs, i, sig, root, ms, path);
                       before.Some? && PassesFor(c, before.value, First(Some(pred)), cs[i])
    ensures CheckCaveats(c, v, cs[i := First(Some(pred))], n, sig, root, ms, path)
         == if i < n && !Satisfied(v, pred) then None else CheckCaveats(c, v, cs, n, sig, root, ms, path)
    decreases n
  {
    if n > 0 { ExchangedCheck(c, v, cs, i, pred, n - 1, sig, root, ms, path); }
  }

  lemma {:induction false} CheckedUpTo(c: Crypto, v: Verifier, cs: seq<Clause>, i: nat, n: nat,
                                       sig: Bytes, root: Option<Bytes>, ms: seq<Parsed>, path: seq<nat>)
    requires i <= n <= |cs| && |path| <= |ms| && CheckCaveats(c, v, cs, n, sig, root, ms, path).Some?
    ensures CheckCaveats(c, v, cs, i, sig, root, ms, path).Some?
    decreases n
  {
    if i < n { CheckedUpTo(c, v, cs, i, n - 1, sig, root, ms, path); }
  }

  /** The exception is real: in a macaroon that verifies, a third-party caveat can be exchanged for a first-party
      one under the same signature, and it still verifies exactly if that predicate is satisfied. */
  lemma ExchangedExactly(c: Crypto, v: Verifier, m: Parsed, i: nat, pred: Bytes, root: Option<Bytes>, key: Bytes,
                         ms: seq<Parsed>, path: seq<nat>)
    requires Verifies(c, v, m, root, key, ms, path) && i < |m.caveats| && AllReadable(m.caveats)
    requires PassesFor(c, SigAt(c, key, m.id.value, m.caveats, i), First(Some(pred)), m.caveats[i])
    ensures Verifies(c, v, m.(caveats := m.caveats[i := First(Some(pred))]), root, key, ms, path)
        <==> Satisfied(v, pred)
  {
    var sig := c.hmac(key, m.id.value);
    CheckedUpTo(c, v, m.caveats, i, |m.caveats|, sig, root, ms, path);
    CheckedIsTip(c, v, m.caveats, i, key, m.id.value, root, ms, path);
    SigAtIsTip(c, key, m.id.value, m.caveats, i);
    ExchangedCheck(c, v, m.caveats, i, pred, |m.caveats|, sig, root, ms, path);
  }

  lemma {:induction false} SigAtIsTip(c: Crypto, key: Bytes, id: Bytes, cs: seq<Clause>, i: nat)
    requires AllReadable(cs) && i < |cs|
    ensures SigAt(c, key, id, cs, i) == Tip(c, key, id, cs[..i])
    decreases |cs|
  {
    if i < |cs| - 1 {
      assert cs[..|cs| - 1][..i] == cs[..i];
      SigAtIsTip(c, key, id, cs[..|cs| - 1], i);
    }
  }
}
