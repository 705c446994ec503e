/** The macaroon verifier over a root macaroon and a pool of discharges, as a function of the path of
    discharges in use, and the proof trees that justify its verdicts. */
module Verifier {
  import opened Options
  import opened FlatFile
  import opened Packet
  import opened Macaroon

  /** Predicates satisfied outright, and general checks. */
  datatype Verifier = Verifier(exact: seq<Bytes>, general: seq<Bytes -> bool>)

  predicate Satisfied(v: Verifier, pred: Bytes) {
    pred in v.exact || exists i :: 0 <= i < |v.general| && v.general[i](pred)
  }

  // ----------------------------------------------------------------- parsed packets

  /** A macaroon as the verifier reads it: the fields of its packets, where they parse. */
  datatype Parsed = Parsed(id: Option<Bytes>, caveats: seq<Clause>, sig: Option<Bytes>)
  datatype Clause = First(cid: Option<Bytes>) | Third(cid: Option<Bytes>, vid: Option<Bytes>)

  function ParseCaveat(cav: Caveat): Clause {
    if cav.vid == [] then First(Field(CID, cav.cid)) else Third(Field(CID, cav.cid), Field(VID, cav.vid))
  }

  function Parse(m: Macaroon): Parsed {
    Parsed(Field(IDENTIFIER, m.identifier),
           seq(|m.caveats|, i requires 0 <= i < |m.caveats| => ParseCaveat(m.caveats[i])),
           ParseSignature(m.signature))
  }

  function ParseAll(ms: seq<Macaroon>): seq<Parsed> {
    seq(|ms|, i requires 0 <= i < |ms| => Parse(ms[i]))
  }

  // ------------------------------------------------------------------ the function

  /** The signature after a caveat, if its packets parse. */
  function NextSig(c: Crypto, sig: Bytes, cl: Clause): Option<Bytes> {
    if cl.cid.None? then None
    else if cl.First? then Some(c.hmac(sig, cl.cid.value))
    else if cl.vid.None? then None
    else Some(Hash2(c, sig, cl.vid.value, cl.cid.value))
  }

  /** The caveat key, opened under the signature so far. */
  function OpenKey(c: Crypto, sig: Bytes, vid: Option<Bytes>): Option<Bytes> {
    if vid.None? || |vid.value| != VID_BYTES then None
    else c.open(sig, vid.value[..NONCE_BYTES], vid.value[NONCE_BYTES..])
  }

  /** The last of the first n discharges with this identifier, or |ms| if there is none. */
  function LastMatch(ms: seq<Parsed>, cid: Bytes, n: nat): (k: nat)
    requires n <= |ms|
    ensures k < n ==> ms[k].id == Some(cid)
    ensures k < n || k == |ms|
    ensures forall j :: 0 <= j < n && ms[j].id == Some(cid) ==> j <= k < n
  {
    if n == 0 then |ms| else if ms[n - 1].id == Some(cid) then n - 1 else LastMatch(ms, cid, n - 1)
  }

  predicate IdsParse(ms: seq<Parsed>) { forall j :: 0 <= j < |ms| ==> ms[j].id.Some? }

  /** Some discharge with this identifier is already in use on the path. */
  predicate Cycles(ms: seq<Parsed>, cid: Bytes, path: seq<nat>) {
    exists t :: 0 <= t < |path| && path[t] < |ms| && ms[path[t]].id == Some(cid)
  }

  /** macaroon_verify_inner: path holds the discharges from the root down to m, whose signature the
      discharges are bound to. */
  predicate Verifies(c: Crypto, v: Verifier, m: Parsed, root: Option<Bytes>, key: Bytes,
                     ms: seq<Parsed>, path: seq<nat>)
    decreases |ms| + 1 - |path|, 2, 0
  {
    && |path| <= |ms| && m.id.Some?
    && var sig := CheckCaveats(c, v, m.caveats, |m.caveats|, c.hmac(key, m.id.value), root, ms, path);
       sig.Some? && SignatureFits(c, m.sig, root, sig.value, path)
  }

  /** The computed signature, bound to the root for a discharge, is the one carried. */
  predicate SignatureFits(c: Crypto, carried: Option<Bytes>, root: Option<Bytes>, sig: Bytes, path: seq<nat>) {
    if path == [] then carried == Some(sig)
    else root.Some? && carried == Some(Bind(c, root.value, sig))
  }

  /** The caveat loop: the signature behind the first n caveats, if all of them hold. */
  function CheckCaveats(c: Crypto, v: Verifier, cs: seq<Clause>, n: nat, sig: Bytes, root: Option<Bytes>,
                        ms: seq<Parsed>, path: seq<nat>): Option<Bytes>
    requires n <= |cs| && |path| <= |ms|
    decreases |ms| + 1 - |path|, 1, n
  {
    if n == 0 then Some(sig)
    else
      var prev := CheckCaveats(c, v, cs, n - 1, sig, root, ms, path);
      if prev.None? || !ClauseHolds(c, v, cs[n - 1], prev.value, root, ms, path) then None
      else NextSig(c, prev.value, cs[n - 1])
  }

  /** macaroon_verify_inner_1st and macaroon_verify_inner_3rd. */
  predicate ClauseHolds(c: Crypto, v: Verifier, cl: Clause, sig: Bytes, root: Option<Bytes>,
                        ms: seq<Parsed>, path: seq<nat>)
    requires |path| <= |ms|
    decreases |ms| + 1 - |path|, 0, 0
  {
    if cl.First? then cl.cid.Some? && Satisfied(v, cl.cid.value)
    else
      && cl.cid.Some? && IdsParse(ms) && !Cycles(ms, cl.cid.value, path)
      && var k := LastMatch(ms, cl.cid.value, |ms|);
         var key := OpenKey(c, sig, cl.vid);
         k < |ms| && key.Some? && Verifies(c, v, ms[k], root, key.value, ms, path + [k])
  }

  /** macaroon_verify. */
  predicate Verify(c: Crypto, v: Verifier, m: Macaroon, key: Bytes, ms: seq<Macaroon>) {
    Verifies(c, v, Parse(m), ParseSignature(m.signature), DerivedKey(c, key), ParseAll(ms), [])
  }

  // ------------------------------------------------------------------- proof trees

  /** Why each caveat holds: by a satisfied predicate, or by a discharge and the reasons for it. */
  datatype Proof = Proof(steps: seq<Step>)
  datatype Step = Local | Discharged(index: nat, proof: Proof)

  /** The signature in front of caveat i, if all packets up to there parse. */
  function SigBefore(c: Crypto, sig: Bytes, cs: seq<Clause>, i: nat): Option<Bytes>
    requires i <= |cs|
    decreases i
  {
    if i == 0 then Some(sig)
    else
      var prev := SigBefore(c, sig, cs, i - 1);
      if prev.None? then None else NextSig(c, prev.value, cs[i - 1])
  }

  /** Which discharges may stand for a caveat: any with its identifier that is not in use further up, or the
      last with its identifier, provided none with it is in use. */
  datatype Rule = AnyFree | LastFree

  predicate MayStand(rule: Rule, ms: seq<Parsed>, cid: Bytes, path: seq<nat>, k: nat) {
    k < |ms| &&
    match rule
    case AnyFree => ms[k].id == Some(cid) && k !in path
    case LastFree => IdsParse(ms) && k == LastMatch(ms, cid, |ms|) && !Cycles(ms, cid, path)
  }

  /** Every predicate is satisfied; every third-party caveat has a discharge that may stand for it, certified
      under the key its vid opens to; and the signature is the right one, bound to the root for discharges. */
  ghost predicate Certifies(pf: Proof, rule: Rule, c: Crypto, v: Verifier, m: Parsed, root: Option<Bytes>,
                            key: Bytes, ms: seq<Parsed>, path: seq<nat>)
    decreases pf
  {
    && m.id.Some? && |pf.steps| == |m.caveats|
    && StepsHold(pf.steps, |pf.steps|, rule, c, v, m.caveats, c.hmac(key, m.id.value), root, ms, path)
    && var sig := SigBefore(c, c.hmac(key, m.id.value), m.caveats, |m.caveats|);
       sig.Some? && SignatureFits(c, m.sig, root, sig.value, path)
  }

  /** The first n steps hold, each in front of its own signature. */
  ghost predicate StepsHold(steps: seq<Step>, n: nat, rule: Rule, c: Crypto, v: Verifier, cs: seq<Clause>,
                            sig: Bytes, root: Option<Bytes>, ms: seq<Parsed>, path: seq<nat>)
    requires n <= |steps| == |cs|
    decreases steps, n
  {
    n == 0 ||
    (StepsHold(steps, n - 1, rule, c, v, cs, sig, root, ms, path)
     && StepHolds(steps[n - 1], rule, c, v, cs[n - 1], SigBefore(c, sig, cs, n - 1), root, ms, path))
  }

  ghost predicate StepHolds(st: Step, rule: Rule, c: Crypto, v: Verifier, cl: Clause, sig: Option<Bytes>,
                            root: Option<Bytes>, ms: seq<Parsed>, path: seq<nat>)
    decreases st
  {
    if cl.First? then st.Local? && cl.cid.Some? && Satisfied(v, cl.cid.value)
    else
      && st.Discharged? && sig.Some? && cl.cid.Some? && MayStand(rule, ms, cl.cid.value, path, st.index)
      && OpenKey(c, sig.value, cl.vid).Some?
      && Certifies(st.proof, rule, c, v, ms[st.index], root, OpenKey(c, sig.value, cl.vid).value, ms,
                   path + [st.index])
  }
}
