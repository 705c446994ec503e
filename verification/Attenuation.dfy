/** Macaroons as their issuers make them and as requests prepare them: the verifier accepts one exactly
    when its caveats, discharged or satisfied, allow it. */
module Attenuation {
  import opened Options
  import opened FlatFile
  import opened Packet
  import opened Macaroon
  import opened Verifier
  import opened VerifierProofs

  /** A macaroon by what its issuer put into it. */
  datatype Issue = Issue(location: Bytes, key: Bytes, id: Bytes, specs: seq<CaveatSpec>)

  ghost predicate IssueOk(i: Issue) {
    Short(i.location) && Short(i.id) && |i.specs| <= MAX_CAVEATS && forall s :: s in i.specs ==> SpecOk(s)
  }

  // -------------------------------------------------------------- what parsing finds

  /** The caveat's fields, added behind this signature. */
  function ClauseOf(c: Crypto, sig: Bytes, s: CaveatSpec): Clause {
    match s
    case FirstParty(pred) => First(Some(pred))
    case ThirdParty(_, key, id, nonce) => Third(Some(id), Some(SealedKey(c, sig, nonce, DerivedKey(c, key))))
  }

  function StepSig(c: Crypto, sig: Bytes, s: CaveatSpec): Bytes {
    match s
    case FirstParty(pred) => c.hmac(sig, pred)
    case ThirdParty(_, key, id, nonce) => Hash2(c, sig, SealedKey(c, sig, nonce, DerivedKey(c, key)), id)
  }

  /** The signature after n caveats. */
  function ChainSig(c: Crypto, i: Issue, n: nat): Bytes
    requires n <= |i.specs|
  {
    if n == 0 then c.hmac(DerivedKey(c, i.key), i.id) else StepSig(c, ChainSig(c, i, n - 1), i.specs[n - 1])
  }

  ghost function Front(i: Issue, n: nat): Issue
    requires n <= |i.specs|
  {
    i.(specs := i.specs[..n])
  }

  /** The first n caveats' fields. */
  function Clauses(c: Crypto, i: Issue, n: nat): (cs: seq<Clause>)
    requires n <= |i.specs|
    ensures |cs| == n
  {
    if n == 0 then [] else Clauses(c, i, n - 1) + [ClauseOf(c, ChainSig(c, i, n - 1), i.specs[n - 1])]
  }

  /** The fields of the macaroon the issuer makes. */
  function Fields(c: Crypto, i: Issue): Parsed {
    Parsed(Some(i.id), Clauses(c, i, |i.specs|), Some(ChainSig(c, i, |i.specs|)))
  }

  /** Earlier signatures and clauses do not depend on later caveats. */
  lemma {:induction false} FrontAgrees(c: Crypto, i: Issue, n: nat, k: nat)
    requires k <= n <= |i.specs|
    ensures ChainSig(c, Front(i, n), k) == ChainSig(c, i, k) && Clauses(c, Front(i, n), k) == Clauses(c, i, k)
    decreases k
  {
    if k > 0 { FrontAgrees(c, i, n, k - 1); }
  }

  lemma {:induction false} ClauseAt(c: Crypto, i: Issue, n: nat, k: nat)
    requires k < n <= |i.specs|
    ensures Clauses(c, i, n)[k] == ClauseOf(c, ChainSig(c, i, k), i.specs[k])
    decreases n
  {
    if k < n - 1 { ClauseAt(c, i, n - 1, k); }
  }

  /** Checking a caveat's fields moves on to the signature its issuer computed. */
  lemma NextSigOfClause(c: Crypto, sig: Bytes, s: CaveatSpec)
    ensures NextSig(c, sig, ClauseOf(c, sig, s)) == Some(StepSig(c, sig, s))
  {
  }

  lemma FieldOfKv(key: Bytes, val: Bytes)
    requires PREFIX + 2 + |key| + |val| <= MAX_SIZE && SPACE !in key
    ensures Field(key, Kv(key, val)) == Some(val)
  {
    KvParses(key, val);
  }

  lemma SignatureParses(sig: Bytes)
    requires |sig| == HASH_BYTES
    ensures ParseSignature(SignaturePacket(sig)) == Some(sig)
  {
    FieldOfKv(SIGNATURE, sig);
  }

  /** a is m with one more caveat, which reads as this clause and leads to this signature. */
  predicate Extends(m: Macaroon, a: Macaroon, cl: Clause, sig: Bytes) {
    && a.identifier == m.identifier && ParseSignature(a.signature) == Some(sig)
    && |a.caveats| == |m.caveats| + 1 && a.caveats[..|m.caveats|] == m.caveats
    && ParseCaveat(a.caveats[|m.caveats|]) == cl
  }

  lemma FirstPartyParses(c: Crypto, m: Macaroon, pred: Bytes, sig: Bytes)
    requires Works(c) && Short(pred) && |m.caveats| < MAX_CAVEATS && ParseSignature(m.signature) == Some(sig)
    ensures AddFirstParty(c, m, pred).Ok?
    ensures Extends(m, AddFirstParty(c, m, pred).value, First(Some(pred)), c.hmac(sig, pred))
  {
    FieldOfKv(CID, pred);
    SignatureParses(c.hmac(sig, pred));
  }

  lemma ThirdPartyParses(c: Crypto, m: Macaroon, loc: Bytes, key: Bytes, id: Bytes, nonce: Bytes, sig: Bytes)
    requires Works(c) && Short(loc) && Short(id) && |key| == HASH_BYTES && |nonce| == NONCE_BYTES
    requires |m.caveats| < MAX_CAVEATS && ParseSignature(m.signature) == Some(sig)
    ensures AddThirdPartyRaw(c, m, loc, key, id, nonce).Ok?
    ensures var vid := SealedKey(c, sig, nonce, key);
            Extends(m, AddThirdPartyRaw(c, m, loc, key, id, nonce).value, Third(Some(id), Some(vid)),
                    Hash2(c, sig, vid, id))
  {
    var vid := SealedKey(c, sig, nonce, key);
    FieldOfKv(CID, id);
    FieldOfKv(VID, vid);
    SignatureParses(Hash2(c, sig, vid, id));
  }

  lemma AttenuateParses(c: Crypto, m: Macaroon, s: CaveatSpec, sig: Bytes)
    requires Works(c) && SpecOk(s) && |m.caveats| < MAX_CAVEATS && ParseSignature(m.signature) == Some(sig)
    ensures Attenuate(c, m, s).Ok?
    ensures Extends(m, Attenuate(c, m, s).value, ClauseOf(c, sig, s), StepSig(c, sig, s))
  {
    match s
    case FirstParty(pred) => FirstPartyParses(c, m, pred, sig);
    case ThirdParty(loc, key, id, nonce) => ThirdPartyParses(c, m, loc, DerivedKey(c, key), id, nonce, sig);
  }

  lemma ParsedSnoc(m: Macaroon, a: Macaroon)
    requires |a.caveats| == |m.caveats| + 1 && a.caveats[..|m.caveats|] == m.caveats
    ensures Parse(a).caveats == Parse(m).caveats + [ParseCaveat(a.caveats[|m.caveats|])]
  {
    var l, r := Parse(a).caveats, Parse(m).caveats + [ParseCaveat(a.caveats[|m.caveats|])];
    forall k | 0 <= k < |l| ensures l[k] == r[k] {
      if k < |m.caveats| { assert a.caveats[k] == a.caveats[..|m.caveats|][k]; }
    }
  }

  lemma IssuedStep(c: Crypto, i: Issue, m: Macaroon, a: Macaroon)
    requires i.specs != [] && |m.caveats| == |i.specs| - 1
    requires Parse(m) == Fields(c, Front(i, |i.specs| - 1))
    requires var n := |i.specs| - 1;
             Extends(m, a, ClauseOf(c, ChainSig(c, i, n), i.specs[n]), ChainSig(c, i, n + 1))
    ensures |a.caveats| == |i.specs| && Parse(a) == Fields(c, i)
  {
    FrontAgrees(c, i, |i.specs| - 1, |i.specs| - 1);
    ParsedSnoc(m, a);
  }

  lemma AttenuatedParses(c: Crypto, i: Issue, m: Macaroon)
    requires Works(c) && i.specs != [] && SpecOk(i.specs[|i.specs| - 1]) && |i.specs| <= MAX_CAVEATS
    requires |m.caveats| == |i.specs| - 1 && Parse(m) == Fields(c, Front(i, |i.specs| - 1))
    ensures var a := Attenuate(c, m, i.specs[|i.specs| - 1]);
            a.Ok? && |a.value.caveats| == |i.specs| && Parse(a.value) == Fields(c, i)
  {
    var n := |i.specs| - 1;
    FrontAgrees(c, i, n, n);
    AttenuateParses(c, m, i.specs[n], ChainSig(c, i, n));
    IssuedStep(c, i, m, Attenuate(c, m, i.specs[n]).value);
  }

  lemma CreatedParses(c: Crypto, i: Issue)
    requires Works(c) && IssueOk(i) && i.specs == []
    ensures var m := CreateRaw(c, i.location, DerivedKey(c, i.key), i.id); m.caveats == [] && Parse(m) == Fields(c, i)
  {
    FieldOfKv(IDENTIFIER, i.id);
    SignatureParses(c.hmac(DerivedKey(c, i.key), i.id));
  }

  ghost function BuildOf(c: Crypto, i: Issue): Result<Macaroon>
    requires Works(c) && IssueOk(i)
  {
    Build(c, i.location, i.key, i.id, i.specs)
  }

  /** The macaroon came out, and reads as what was put in. */
  ghost predicate ReadsBack(c: Crypto, i: Issue, r: Result<Macaroon>) {
    r.Ok? && |r.value.caveats| == |i.specs| && Parse(r.value) == Fields(c, i)
  }

  lemma BuildSteps(c: Crypto, i: Issue)
    requires Works(c) && IssueOk(i) && i.specs != []
    ensures var n := |i.specs| - 1; var before := BuildOf(c, Front(i, n));
            && SpecOk(i.specs[n])
            && BuildOf(c, i) == if before.Err? then before else Attenuate(c, before.value, i.specs[n])
  {
    assert i.specs[|i.specs| - 1] in i.specs;
  }

  lemma ReadsBackMore(c: Crypto, i: Issue, before: Result<Macaroon>, after: Result<Macaroon>)
    requires Works(c) && i.specs != [] && SpecOk(i.specs[|i.specs| - 1]) && |i.specs| <= MAX_CAVEATS
    requires ReadsBack(c, Front(i, |i.specs| - 1), before)
    requires after == Attenuate(c, before.value, i.specs[|i.specs| - 1])
    ensures ReadsBack(c, i, after)
  {
    AttenuatedParses(c, i, before.value);
  }

  /** Issuing succeeds, and the verifier reads back what was put in. */
  lemma {:induction false} IssuedParses(c: Crypto, i: Issue)
    requires Works(c) && IssueOk(i)
    ensures ReadsBack(c, i, BuildOf(c, i))
    decreases |i.specs|
  {
    if i.specs == [] {
      CreatedParses(c, i);
    } else {
      var f := Front(i, |i.specs| - 1);
      IssuedParses(c, f);
      BuildSteps(c, i);
      ReadsBackMore(c, i, BuildOf(c, f), BuildOf(c, i));
    }
  }

  // ----------------------------------------------------------------------- requests

  ghost function Issued(c: Crypto, i: Issue): Macaroon
    requires Works(c) && IssueOk(i)
  {
    IssuedParses(c, i);
    BuildOf(c, i).value
  }

  /** macaroon_prepare_for_request. */
  ghost function Prepare(c: Crypto, root: Macaroon, d: Macaroon): Result<Macaroon>
    requires Works(c)
  {
    var r := ParseSignature(root.signature);
    var s := ParseSignature(d.signature);
    if r.None? || s.None? then Err(Invalid)
    else Ok(d.(signature := SignaturePacket(Bind(c, r.value, s.value))))
  }

  /** Preparing binds the signature and touches nothing else. */
  lemma PreparedParses(c: Crypto, root: Macaroon, d: Macaroon)
    requires Works(c) && ParseSignature(root.signature).Some? && ParseSignature(d.signature).Some?
    ensures Prepare(c, root, d).Ok?
    ensures Parse(Prepare(c, root, d).value) ==
            Parse(d).(sig := Some(Bind(c, ParseSignature(root.signature).value, ParseSignature(d.signature).value)))
  {
    SignatureParses(Bind(c, ParseSignature(root.signature).value, ParseSignature(d.signature).value));
  }

  /** The discharges a request for this root carries. */
  ghost function Discharges(c: Crypto, r: Issue, issues: seq<Issue>): (ms: seq<Macaroon>)
    requires Works(c) && IssueOk(r) && forall i :: i in issues ==> IssueOk(i)
    ensures |ms| == |issues|
  {
    if issues == [] then []
    else
      var d := issues[|issues| - 1];
      IssuedParses(c, r);
      IssuedParses(c, d);
      Discharges(c, r, issues[..|issues| - 1]) + [Prepare(c, Issued(c, r), Issued(c, d)).value]
  }

  /** A discharge's fields, bound to a root signature. */
  function Bound(c: Crypto, rootSig: Bytes, i: Issue): Parsed {
    Fields(c, i).(sig := Some(Bind(c, rootSig, ChainSig(c, i, |i.specs|))))
  }

  function Pool(c: Crypto, rootSig: Bytes, issues: seq<Issue>): seq<Parsed> {
    seq(|issues|, j requires 0 <= j < |issues| => Bound(c, rootSig, issues[j]))
  }

  lemma PreparedIssue(c: Crypto, r: Issue, d: Issue)
    requires Works(c) && IssueOk(r) && IssueOk(d)
    ensures Prepare(c, Issued(c, r), Issued(c, d)).Ok?
    ensures Parse(Prepare(c, Issued(c, r), Issued(c, d)).value) == Bound(c, ChainSig(c, r, |r.specs|), d)
  {
    IssuedParses(c, r);
    IssuedParses(c, d);
    PreparedParses(c, Issued(c, r), Issued(c, d));
  }

  lemma ParseAllSnoc(ms: seq<Macaroon>, m: Macaroon)
    ensures ParseAll(ms + [m]) == ParseAll(ms) + [Parse(m)]
  {
  }

  lemma PoolSnoc(c: Crypto, rootSig: Bytes, issues: seq<Issue>)
    requires issues != []
    ensures var n := |issues| - 1;
            Pool(c, rootSig, issues) == Pool(c, rootSig, issues[..n]) + [Bound(c, rootSig, issues[n])]
  {
  }

  lemma {:induction false} DischargesParse(c: Crypto, r: Issue, issues: seq<Issue>)
    requires Works(c) && IssueOk(r) && forall i :: i in issues ==> IssueOk(i)
    ensures ParseAll(Discharges(c, r, issues)) == Pool(c, ChainSig(c, r, |r.specs|), issues)
  {
    if issues != [] {
      var n := |issues| - 1;
      DischargesParse(c, r, issues[..n]);
      PreparedIssue(c, r, issues[n]);
      ParseAllSnoc(Discharges(c, r, issues[..n]), Prepare(c, Issued(c, r), Issued(c, issues[n])).value);
      PoolSnoc(c, ChainSig(c, r, |r.specs|), issues);
    }
  }

  // ------------------------------------------------------------------ what is allowed

  /** The last of the first n issues with this identifier, or |issues| if there is none. */
  function LastIssue(issues: seq<Issue>, id: Bytes, n: nat): (k: nat)
    requires n <= |issues|
    ensures k < n ==> issues[k].id == id
    ensures k < n || k == |issues|
    ensures forall j :: 0 <= j < n && issues[j].id == id ==> j <= k < n
  {
    if n == 0 then |issues| else if issues[n - 1].id == id then n - 1 else LastIssue(issues, id, n - 1)
  }

  /** No discharge on the path has this identifier. */
  predicate Free(issues: seq<Issue>, id: Bytes, path: seq<nat>) {
    forall t :: 0 <= t < |path| && path[t] < |issues| ==> issues[path[t]].id != id
  }

  /** What the caveats allow, without any cryptography: every predicate is satisfied, and every third party's
      caveat is settled by the last discharge with its identifier, none with it being in use on the path. */
  ghost predicate Allowed(v: Verifier, specs: seq<CaveatSpec>, issues: seq<Issue>, path: seq<nat>)
    decreases |issues| + 1 - |path|, 1
  {
    |path| <= |issues| && forall k :: 0 <= k < |specs| ==> Settled(v, specs[k], issues, path)
  }

  ghost predicate Settled(v: Verifier, s: CaveatSpec, issues: seq<Issue>, path: seq<nat>)
    requires |path| <= |issues|
    decreases |issues| + 1 - |path|, 0
  {
    match s
    case FirstParty(pred) => Satisfied(v, pred)
    case ThirdParty(_, _, id, _) =>
      var k := LastIssue(issues, id, |issues|);
      Free(issues, id, path) && k < |issues| && Allowed(v, issues[k].specs, issues, path + [k])
  }

  ghost predicate SettledUpTo(v: Verifier, specs: seq<CaveatSpec>, n: nat, issues: seq<Issue>, path: seq<nat>)
    requires n <= |specs| && |path| <= |issues|
    decreases n
  {
    n == 0 || (SettledUpTo(v, specs, n - 1, issues, path) && Settled(v, specs[n - 1], issues, path))
  }

  lemma {:induction false} SettledUpToAll(v: Verifier, specs: seq<CaveatSpec>, n: nat, issues: seq<Issue>,
                                          path: seq<nat>)
    requires n <= |specs| && |path| <= |issues|
    ensures SettledUpTo(v, specs, n, issues, path) <==>
            forall k :: 0 <= k < n ==> Settled(v, specs[k], issues, path)
    decreases n
  {
    if n > 0 { SettledUpToAll(v, specs, n - 1, issues, path); }
  }

  /** The third party issues its discharges under the key the caveat carries. */
  ghost predicate KeyShared(s: CaveatSpec, issues: seq<Issue>) {
    s.ThirdParty? ==> forall j :: 0 <= j < |issues| && issues[j].id == s.id ==> issues[j].key == s.key
  }

  ghost predicate KeysShared(specs: seq<CaveatSpec>, issues: seq<Issue>) {
    forall k :: 0 <= k < |specs| ==> KeyShared(specs[k], issues)
  }

  /** Keys are shared throughout; identifiers may repeat. */
  ghost predicate Honest(issues: seq<Issue>) {
    forall j :: 0 <= j < |issues| ==> IssueOk(issues[j]) && KeysShared(issues[j].specs, issues)
  }

  /** The sealed key opens to what was sealed. */
  lemma KeyOpens(c: Crypto, sig: Bytes, nonce: Bytes, key: Bytes)
    requires Works(c) && |nonce| == NONCE_BYTES && |key| == HASH_BYTES
    ensures OpenKey(c, sig, Some(nonce + c.seal(sig, nonce, key))) == Some(key)
    ensures SealedKey(c, sig, nonce, key) == nonce + c.seal(sig, nonce, key)
  {
    var vid := SealedKey(c, sig, nonce, key);
    assert vid[..NONCE_BYTES] == nonce && vid[NONCE_BYTES..] == c.seal(sig, nonce, key);
  }

  /** The verifier's search over the pool is the search over the issues. */
  lemma PoolSearch(c: Crypto, rootSig: Bytes, issues: seq<Issue>, id: Bytes, path: seq<nat>)
    ensures var ms := Pool(c, rootSig, issues);
            && IdsParse(ms) && LastMatch(ms, id, |ms|) == LastIssue(issues, id, |issues|)
            && (Cycles(ms, id, path) <==> !Free(issues, id, path))
  {
    var ms := Pool(c, rootSig, issues);
    assert forall j :: 0 <= j < |ms| ==> ms[j].id == Some(issues[j].id);
  }

  /** The verifier and the crypto-free reading agree on a macaroon: the root, or a discharge on a path. */
  lemma {:induction false} VerifiedIffAllowed(c: Crypto, v: Verifier, i: Issue, rootSig: Bytes,
                                              issues: seq<Issue>, path: seq<nat>)
    requires Works(c) && IssueOk(i) && Honest(issues) && KeysShared(i.specs, issues)
    requires path == [] ==> rootSig == ChainSig(c, i, |i.specs|)
    ensures Verifies(c, v, if path == [] then Fields(c, i) else Bound(c, rootSig, i), Some(rootSig),
                     DerivedKey(c, i.key), Pool(c, rootSig, issues), path)
        <==> Allowed(v, i.specs, issues, path)
    decreases |issues| + 1 - |path|, 2, 0
  {
    if |path| <= |issues| {
      var ms := Pool(c, rootSig, issues);
      forall k | 0 <= k < |i.specs| ensures Agree(c, v, i, k, Some(rootSig), ms, path, issues) {
        assert i.specs[k] in i.specs;
        HoldsIffSettled(c, v, i.specs[k], ChainSig(c, i, k), rootSig, issues, path);
      }
      CheckedIffSettled(c, v, i, |i.specs|, Some(rootSig), ms, path, issues);
      SettledUpToAll(v, i.specs, |i.specs|, issues, path);
    }
  }

  lemma CheckStep(c: Crypto, v: Verifier, i: Issue, n: nat, root: Option<Bytes>, ms: seq<Parsed>,
                  path: seq<nat>, front: bool, last: bool)
    requires 0 < n <= |i.specs| && |path| <= |ms|
    requires CheckCaveats(c, v, Clauses(c, i, |i.specs|), n - 1, ChainSig(c, i, 0), root, ms, path)
          == if front then Some(ChainSig(c, i, n - 1)) else None
    requires var sig := ChainSig(c, i, n - 1);
             ClauseHolds(c, v, ClauseOf(c, sig, i.specs[n - 1]), sig, root, ms, path) <==> last
    ensures CheckCaveats(c, v, Clauses(c, i, |i.specs|), n, ChainSig(c, i, 0), root, ms, path)
         == if front && last then Some(ChainSig(c, i, n)) else None
  {
    ClauseAt(c, i, |i.specs|, n - 1);
    NextSigOfClause(c, ChainSig(c, i, n - 1), i.specs[n - 1]);
  }

  /** On caveat k, the verifier and the crypto-free reading agree. */
  ghost predicate Agree(c: Crypto, v: Verifier, i: Issue, k: nat, root: Option<Bytes>, ms: seq<Parsed>,
                        path: seq<nat>, issues: seq<Issue>)
    requires k < |i.specs| && |path| <= |ms| && |path| <= |issues|
  {
    var sig := ChainSig(c, i, k);
    ClauseHolds(c, v, ClauseOf(c, sig, i.specs[k]), sig, root, ms, path) <==> Settled(v, i.specs[k], issues, path)
  }

  lemma {:induction false} CheckedIffSettled(c: Crypto, v: Verifier, i: Issue, n: nat, root: Option<Bytes>,
                                             ms: seq<Parsed>, path: seq<nat>, issues: seq<Issue>)
    requires n <= |i.specs| && |path| <= |ms| && |path| <= |issues|
    requires forall k :: 0 <= k < n ==> Agree(c, v, i, k, root, ms, path, issues)
    ensures CheckCaveats(c, v, Clauses(c, i, |i.specs|), n, ChainSig(c, i, 0), root, ms, path)
         == if SettledUpTo(v, i.specs, n, issues, path) then Some(ChainSig(c, i, n)) else None
    decreases n
  {
    if n > 0 {
      CheckedIffSettled(c, v, i, n - 1, root, ms, path, issues);
      assert Agree(c, v, i, n - 1, root, ms, path, issues);
      CheckStep(c, v, i, n, root, ms, path, SettledUpTo(v, i.specs, n - 1, issues, path),
                Settled(v, i.specs[n - 1], issues, path));
    }
  }

  lemma {:induction false} HoldsIffSettled(c: Crypto, v: Verifier, s: CaveatSpec, sig: Bytes, rootSig: Bytes,
                                           issues: seq<Issue>, path: seq<nat>)
    requires Works(c) && SpecOk(s) && Honest(issues) && KeyShared(s, issues) && |path| <= |issues|
    ensures ClauseHolds(c, v, ClauseOf(c, sig, s), sig, Some(rootSig), Pool(c, rootSig, issues), path)
        <==> Settled(v, s, issues, path)
    decreases |issues| + 1 - |path|, 0, 1
  {
    if s.ThirdParty? {
      HoldsIffDischarged(c, v, s, sig, rootSig, issues, path);
      var k := LastIssue(issues, s.id, |issues|);
      if k < |issues| { VerifiedIffAllowed(c, v, issues[k], rootSig, issues, path + [k]); }
    }
  }

  /** The last discharge with the caveat's identifier is reached, under its own key. */
  lemma HoldsIffDischarged(c: Crypto, v: Verifier, s: CaveatSpec, sig: Bytes, rootSig: Bytes,
                           issues: seq<Issue>, path: seq<nat>)
    requires Works(c) && SpecOk(s) && s.ThirdParty? && KeyShared(s, issues) && |path| <= |issues|
    ensures var ms := Pool(c, rootSig, issues); var k := LastIssue(issues, s.id, |issues|);
            ClauseHolds(c, v, ClauseOf(c, sig, s), sig, Some(rootSig), ms, path)
            <==> Free(issues, s.id, path) && k < |issues|
                 && Verifies(c, v, ms[k], Some(rootSig), DerivedKey(c, issues[k].key), ms, path + [k])
  {
    PoolSearch(c, rootSig, issues, s.id, path);
    KeyOpens(c, sig, s.nonce, DerivedKey(c, s.key));
  }

  // ------------------------------------------------------------------------ theorems

  lemma HonestOk(issues: seq<Issue>)
    requires Honest(issues)
    ensures forall i :: i in issues ==> IssueOk(i)
  {
  }

  /** A request is authorised exactly when the root's caveats allow it, whatever discharges it carries. */
  lemma AuthorisedExactly(c: Crypto, v: Verifier, r: Issue, issues: seq<Issue>)
    requires Works(c) && IssueOk(r) && Honest(issues) && KeysShared(r.specs, issues)
    ensures (forall i :: i in issues ==> IssueOk(i)) &&
            (Verify(c, v, Issued(c, r), r.key, Discharges(c, r, issues)) <==> Allowed(v, r.specs, issues, []))
  {
    HonestOk(issues);
    IssuedParses(c, r);
    DischargesParse(c, r, issues);
    VerifiedIffAllowed(c, v, r, ChainSig(c, r, |r.specs|), issues, []);
  }

  predicate AllFirst(i: Issue) { forall k :: 0 <= k < |i.specs| ==> i.specs[k].FirstParty? }

  predicate SatisfiedUpTo(v: Verifier, i: Issue, n: nat)
    requires n <= |i.specs| && AllFirst(i)
  {
    forall k :: 0 <= k < n ==> Satisfied(v, i.specs[k].predicate_)
  }

  lemma {:induction false} FirstChecked(c: Crypto, v: Verifier, i: Issue, n: nat, root: Option<Bytes>,
                                        ms: seq<Parsed>)
    requires AllFirst(i) && n <= |i.specs|
    ensures CheckCaveats(c, v, Clauses(c, i, |i.specs|), n, ChainSig(c, i, 0), root, ms, [])
         == if SatisfiedUpTo(v, i, n) then Some(ChainSig(c, i, n)) else None
    decreases n
  {
    if n > 0 {
      FirstChecked(c, v, i, n - 1, root, ms);
      CheckStep(c, v, i, n, root, ms, [], SatisfiedUpTo(v, i, n - 1), Satisfied(v, i.specs[n - 1].predicate_));
    }
  }

  /** Without third-party caveats, whatever discharges come along: verified exactly when every predicate is
      satisfied. */
  lemma FirstPartyExactly(c: Crypto, v: Verifier, r: Issue, ms: seq<Macaroon>)
    requires Works(c) && IssueOk(r) && AllFirst(r)
    ensures Verify(c, v, Issued(c, r), r.key, ms)
        <==> forall k :: 0 <= k < |r.specs| ==>
               var pred := r.specs[k].predicate_;
               pred in v.exact || exists i :: 0 <= i < |v.general| && v.general[i](pred)
  {
    IssuedParses(c, r);
    FirstChecked(c, v, r, |r.specs|, Some(ChainSig(c, r, |r.specs|)), ParseAll(ms));
  }

  lemma LastIsNeeded(c: Crypto, v: Verifier, m: Parsed, root: Option<Bytes>, key: Bytes, ms: seq<Parsed>,
                     path: seq<nat>, front: seq<Clause>, pred: Bytes)
    requires Verifies(c, v, m, root, key, ms, path) && m.caveats == front + [First(Some(pred))]
    ensures Satisfied(v, pred)
  {
    var n := |front|;
    assert m.caveats[n] == First(Some(pred)) && |m.caveats| == n + 1;
    assert CheckCaveats(c, v, m.caveats, n + 1, c.hmac(key, m.id.value), root, ms, path).Some?;
  }

  /** A macaroon with a first-party caveat added, whoever made it, verifies only where its predicate is satisfied. */
  lemma AddedIsNeeded(c: Crypto, v: Verifier, m: Macaroon, pred: Bytes, key: Bytes, ms: seq<Macaroon>)
    requires Works(c) && Short(pred) && AddFirstParty(c, m, pred).Ok?
    requires Verify(c, v, AddFirstParty(c, m, pred).value, key, ms)
    ensures pred in v.exact || exists i :: 0 <= i < |v.general| && v.general[i](pred)
  {
    var a := AddFirstParty(c, m, pred).value;
    var sig := ParseSignature(m.signature).value;
    FirstPartyParses(c, m, pred, sig);
    ParsedSnoc(m, a);
    LastIsNeeded(c, v, Parse(a), ParseSignature(a.signature), DerivedKey(c, key), ParseAll(ms), [],
                 Parse(m).caveats, pred);
  }

  /** Attenuating never authorises what was not authorised before. */
  lemma AttenuationNarrows(c: Crypto, v: Verifier, r: Issue, s: CaveatSpec, issues: seq<Issue>)
    requires Works(c) && IssueOk(r) && IssueOk(r.(specs := r.specs + [s])) && Honest(issues)
    requires KeysShared(r.specs + [s], issues) && forall i :: i in issues ==> IssueOk(i)
    requires var a := r.(specs := r.specs + [s]); Verify(c, v, Issued(c, a), r.key, Discharges(c, a, issues))
    ensures Verify(c, v, Issued(c, r), r.key, Discharges(c, r, issues))
  {
    var a := r.(specs := r.specs + [s]);
    AuthorisedExactly(c, v, a, issues);
    forall k | 0 <= k < |r.specs| ensures r.specs[k] == a.specs[k] {}
    AuthorisedExactly(c, v, r, issues);
  }

  // ------------------------------------------------------------ distinct identifiers

  predicate Distinct(issues: seq<Issue>) { forall i, j :: 0 <= i < j < |issues| ==> issues[i].id != issues[j].id }

  /** With distinct identifiers: every predicate is satisfied, and every third party's caveat has some discharge
      still unused whose own caveats allow it. */
  ghost predicate Granted(v: Verifier, specs: seq<CaveatSpec>, issues: seq<Issue>, unused: set<nat>)
    decreases unused, 1
  {
    forall k :: 0 <= k < |specs| ==> Met(v, specs[k], issues, unused)
  }

  ghost predicate Met(v: Verifier, s: CaveatSpec, issues: seq<Issue>, unused: set<nat>)
    decreases unused, 0
  {
    match s
    case FirstParty(pred) => Satisfied(v, pred)
    case ThirdParty(_, _, id, _) =>
      exists j :: 0 <= j < |issues| && j in unused && issues[j].id == id
                  && Granted(v, issues[j].specs, issues, unused - {j})
  }

  ghost function Unused(path: seq<nat>, n: nat): set<nat> { Below(n) - Used(path) }

  lemma UnusedSnoc(path: seq<nat>, n: nat, k: nat)
    ensures Unused(path + [k], n) == Unused(path, n) - {k}
  {
    assert (path + [k])[..|path|] == path;
  }

  lemma {:induction false} AllowedIffGranted(v: Verifier, specs: seq<CaveatSpec>, issues: seq<Issue>,
                                             path: seq<nat>)
    requires Distinct(issues) && IsPath(path, |issues|)
    ensures Allowed(v, specs, issues, path) <==> Granted(v, specs, issues, Unused(path, |issues|))
    decreases |issues| + 1 - |path|, 1
  {
    PathIsShort(path, |issues|);
    forall k | 0 <= k < |specs|
      ensures Settled(v, specs[k], issues, path) <==> Met(v, specs[k], issues, Unused(path, |issues|))
    {
      SettledIffMet(v, specs[k], issues, path);
    }
  }

  lemma {:induction false} SettledIffMet(v: Verifier, s: CaveatSpec, issues: seq<Issue>, path: seq<nat>)
    requires Distinct(issues) && IsPath(path, |issues|) && |path| <= |issues|
    ensures Settled(v, s, issues, path) <==> Met(v, s, issues, Unused(path, |issues|))
    decreases |issues| + 1 - |path|, 0
  {
    if s.ThirdParty? {
      var k := LastIssue(issues, s.id, |issues|);
      OnlyIssue(issues, s.id, path);
      if k < |issues| && k !in path {
        UnusedSnoc(path, |issues|, k);
        AllowedIffGranted(v, issues[k].specs, issues, path + [k]);
      }
    }
  }

  /** At most one issue has the identifier, so it is the last, and free exactly when not on the path. */
  lemma OnlyIssue(issues: seq<Issue>, id: Bytes, path: seq<nat>)
    requires Distinct(issues) && IsPath(path, |issues|)
    ensures var k := LastIssue(issues, id, |issues|);
            && (forall j :: 0 <= j < |issues| && issues[j].id == id ==> j == k)
            && (k < |issues| ==> (Free(issues, id, path) <==> k !in path))
  {
  }

  /** With distinct identifiers, the verifier and the order-free reading agree too. */
  lemma VerifiedIffGranted(c: Crypto, v: Verifier, i: Issue, rootSig: Bytes, issues: seq<Issue>, path: seq<nat>)
    requires Works(c) && IssueOk(i) && Honest(issues) && Distinct(issues) && KeysShared(i.specs, issues)
    requires IsPath(path, |issues|) && (path == [] ==> rootSig == ChainSig(c, i, |i.specs|))
    ensures Verifies(c, v, if path == [] then Fields(c, i) else Bound(c, rootSig, i), Some(rootSig),
                     DerivedKey(c, i.key), Pool(c, rootSig, issues), path)
        <==> Granted(v, i.specs, issues, Unused(path, |issues|))
  {
    VerifiedIffAllowed(c, v, i, rootSig, issues, path);
    AllowedIffGranted(v, i.specs, issues, path);
  }

  /** ... so a request is authorised exactly when some choice of unused discharges grants it. */
  lemma AuthorisedWhenDistinct(c: Crypto, v: Verifier, r: Issue, issues: seq<Issue>)
    requires Works(c) && IssueOk(r) && Honest(issues) && Distinct(issues) && KeysShared(r.specs, issues)
    ensures (forall i :: i in issues ==> IssueOk(i)) &&
            (Verify(c, v, Issued(c, r), r.key, Discharges(c, r, issues))
             <==> Granted(v, r.specs, issues, Below(|issues|)))
  {
    AuthorisedExactly(c, v, r, issues);
    AllowedIffGranted(v, r.specs, issues, []);
    assert Unused([], |issues|) == Below(|issues|);
  }

  // ------------------------------------------------------------- equal identifiers

  /** A root whose one caveat asks for a discharge that two issues, one without caveats and one with this
      predicate, could give. */
  ghost predicate Asks(r: Issue, d: Issue, e: Issue, pred: Bytes) {
    && IssueOk(r) && IssueOk(d) && IssueOk(e) && |r.specs| == 1 && r.specs[0].ThirdParty?
    && d.specs == [] && e.specs == [FirstParty(pred)]
    && d.id == e.id == r.specs[0].id && d.key == e.key == r.specs[0].key
  }

  lemma GoodCertified(c: Crypto, v: Verifier, rootSig: Bytes, d: Issue, ms: seq<Parsed>)
    requires d.specs == [] && |ms| == 2
    ensures Certifies(Proof([]), AnyFree, c, v, Bound(c, rootSig, d), Some(rootSig), DerivedKey(c, d.key), ms, [0])
  {
  }

  lemma GoodIsEnough(c: Crypto, v: Verifier, r: Issue, d: Issue, e: Issue, pred: Bytes)
    requires Works(c) && Asks(r, d, e, pred)
    ensures IsProof(Proof([Discharged(0, Proof([]))]), AnyFree, c, v, Fields(c, r), Some(ChainSig(c, r, 1)),
                    DerivedKey(c, r.key), Pool(c, ChainSig(c, r, 1), [d, e]))
  {
    assert r.specs[0] in r.specs;
    KeyOpens(c, ChainSig(c, r, 0), r.specs[0].nonce, DerivedKey(c, d.key));
    ClauseAt(c, r, 1, 0);
    NextSigOfClause(c, ChainSig(c, r, 0), r.specs[0]);
    GoodCertified(c, v, ChainSig(c, r, 1), d, Pool(c, ChainSig(c, r, 1), [d, e]));
  }

  lemma LastRefuses(v: Verifier, r: Issue, d: Issue, e: Issue, pred: Bytes)
    requires Asks(r, d, e, pred) && !Satisfied(v, pred)
    ensures !Allowed(v, r.specs, [d, e], [])
  {
    assert LastIssue([d, e], r.specs[0].id, 2) == 1;
    assert !Settled(v, e.specs[0], [d, e], [1]);
    assert !Allowed(v, e.specs, [d, e], [1]);
    assert [] + [1] == [1];
    assert !Settled(v, r.specs[0], [d, e], []);
  }

  lemma TwoOk(r: Issue, d: Issue, e: Issue, pred: Bytes)
    requires Asks(r, d, e, pred)
    ensures (forall i :: i in [d, e] ==> IssueOk(i)) && Honest([d, e]) && KeysShared(r.specs, [d, e])
  {
  }

  lemma FirstWouldDo(c: Crypto, v: Verifier, r: Issue, d: Issue, e: Issue, pred: Bytes)
    requires Works(c) && Asks(r, d, e, pred) && forall i :: i in [d, e] ==> IssueOk(i)
    ensures var m := Issued(c, r);
            IsProof(Proof([Discharged(0, Proof([]))]), AnyFree, c, v, Parse(m), ParseSignature(m.signature),
                    DerivedKey(c, r.key), ParseAll(Discharges(c, r, [d, e])))
  {
    IssuedParses(c, r);
    DischargesParse(c, r, [d, e]);
    GoodIsEnough(c, v, r, d, e, pred);
  }

  /** Completeness needs the rule: of two discharges issued and prepared under one identifier the first would do,
      and a proof tree over it exists, but the verifier takes the last, whose predicate fails, and refuses. */
  lemma EqualIdsExample(c: Crypto, v: Verifier, r: Issue, d: Issue, e: Issue, pred: Bytes) returns (pf: Proof)
    requires Works(c) && Asks(r, d, e, pred) && !Satisfied(v, pred)
    ensures forall i :: i in [d, e] ==> IssueOk(i)
    ensures var m := Issued(c, r);
            IsProof(pf, AnyFree, c, v, Parse(m), ParseSignature(m.signature), DerivedKey(c, r.key),
                    ParseAll(Discharges(c, r, [d, e])))
    ensures !Verify(c, v, Issued(c, r), r.key, Discharges(c, r, [d, e]))
  {
    pf := Proof([Discharged(0, Proof([]))]);
    TwoOk(r, d, e, pred);
    FirstWouldDo(c, v, r, d, e, pred);
    LastRefuses(v, r, d, e, pred);
    AuthorisedExactly(c, v, r, [d, e]);
  }
}
