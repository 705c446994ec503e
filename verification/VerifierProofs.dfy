/** The verifier accepts exactly what a proof tree with the last free discharges certifies, and, when no two
    discharges share an identifier, exactly what any proof tree does. */
module VerifierProofs {
  import opened Options
  import opened FlatFile
  import opened Macaroon
  import opened Verifier

  // ---------------------------------------------------------------------- soundness

  /** Whatever is accepted is certified by some proof tree. */
  lemma {:induction false} AcceptedIsCertified(c: Crypto, v: Verifier, m: Parsed, root: Option<Bytes>,
                                               key: Bytes, ms: seq<Parsed>, path: seq<nat>)
    returns (pf: Proof)
    requires Verifies(c, v, m, root, key, ms, path)
    ensures Certifies(pf, LastFree, c, v, m, root, key, ms, path)
    decreases |ms| + 1 - |path|, 2, 0
  {
    var steps := CaveatsCertified(c, v, m.caveats, |m.caveats|, c.hmac(key, m.id.value), root, ms, path);
    assert m.caveats[..|m.caveats|] == m.caveats;
    pf := Proof(steps);
  }

  lemma {:induction false} CaveatsCertified(c: Crypto, v: Verifier, cs: seq<Clause>, n: nat, sig: Bytes,
                                            root: Option<Bytes>, ms: seq<Parsed>, path: seq<nat>)
    returns (steps: seq<Step>)
    requires n <= |cs| && |path| <= |ms|
    requires CheckCaveats(c, v, cs, n, sig, root, ms, path).Some?
    ensures CheckCaveats(c, v, cs, n, sig, root, ms, path) == SigBefore(c, sig, cs, n)
    ensures |steps| == n && StepsHold(steps, n, LastFree, c, v, cs[..n], sig, root, ms, path)
    decreases |ms| + 1 - |path|, 1, n
  {
    if n == 0 { return []; }
    var front := CaveatsCertified(c, v, cs, n - 1, sig, root, ms, path);
    var last := ClauseCertified(c, v, cs[n - 1], SigBefore(c, sig, cs, n - 1).value, root, ms, path);
    steps := front + [last];
    SigBeforeFront(c, sig, cs, n, n - 1);
    StepsExtend(front, last, n - 1, c, v, cs, n, sig, root, ms, path);
  }

  lemma {:induction false} SigBeforeFront(c: Crypto, sig: Bytes, cs: seq<Clause>, n: nat, i: nat)
    requires i <= n <= |cs|
    ensures SigBefore(c, sig, cs[..n], i) == SigBefore(c, sig, cs, i)
    decreases i
  {
    if i > 0 { SigBeforeFront(c, sig, cs, n, i - 1); }
  }

  lemma {:induction false} StepsExtend(front: seq<Step>, last: Step, i: nat, c: Crypto, v: Verifier,
                                       cs: seq<Clause>, n: nat, sig: Bytes, root: Option<Bytes>,
                                       ms: seq<Parsed>, path: seq<nat>)
    requires 0 < n <= |cs| && i <= |front| == n - 1
    requires StepsHold(front, i, LastFree, c, v, cs[..n - 1], sig, root, ms, path)
    ensures StepsHold(front + [last], i, LastFree, c, v, cs[..n], sig, root, ms, path)
    decreases i
  {
    if i > 0 {
      StepsExtend(front, last, i - 1, c, v, cs, n, sig, root, ms, path);
      SigBeforeFront(c, sig, cs, n, i - 1);
      SigBeforeFront(c, sig, cs, n - 1, i - 1);
    }
  }

  lemma {:induction false} ClauseCertified(c: Crypto, v: Verifier, cl: Clause, sig: Bytes, root: Option<Bytes>,
                                           ms: seq<Parsed>, path: seq<nat>)
    returns (st: Step)
    requires |path| <= |ms| && ClauseHolds(c, v, cl, sig, root, ms, path)
    ensures StepHolds(st, LastFree, c, v, cl, Some(sig), root, ms, path)
    decreases |ms| + 1 - |path|, 0, 0
  {
    if cl.First? { return Local; }
    var k := LastMatch(ms, cl.cid.value, |ms|);
    var pf := AcceptedIsCertified(c, v, ms[k], root, OpenKey(c, sig, cl.vid).value, ms, path + [k]);
    st := Discharged(k, pf);
  }

  // ------------------------------------------------------------------- completeness

  predicate IdsDistinct(ms: seq<Parsed>) {
    forall i, j :: 0 <= i < j < |ms| ==> ms[i].id != ms[j].id
  }

  /** A path into a pool of n that repeats nothing. */
  predicate IsPath(path: seq<nat>, n: nat) {
    (forall s, t :: 0 <= s < t < |path| ==> path[s] != path[t]) && forall t :: 0 <= t < |path| ==> path[t] < n
  }

  function Below(n: nat): (s: set<nat>)
    ensures |s| == n && forall i: nat :: i in s <==> i < n
  {
    if n == 0 then {} else Below(n - 1) + {n - 1}
  }

  function Used(path: seq<nat>): (s: set<nat>)
    ensures forall i :: i in s <==> i in path
  {
    if path == [] then {} else Used(path[..|path| - 1]) + {path[|path| - 1]}
  }

  lemma {:induction false} UsedSize(path: seq<nat>, n: nat)
    requires IsPath(path, n)
    ensures |Used(path)| == |path|
  {
    if path != [] { UsedSize(path[..|path| - 1], n); }
  }

  lemma {:induction false} SubsetSize(a: set<nat>, b: set<nat>)
    requires a <= b
    ensures |a| <= |b|
  {
    if a != {} {
      var x :| x in a;
      SubsetSize(a - {x}, b - {x});
    }
  }

  /** A path that repeats nothing is no longer than the pool. */
  lemma PathIsShort(path: seq<nat>, n: nat)
    requires IsPath(path, n)
    ensures |path| <= n
  {
    UsedSize(path, n);
    SubsetSize(Used(path), Below(n));
  }

  /** A free discharge extends the path without repeating anything. */
  lemma FreeExtends(rule: Rule, ms: seq<Parsed>, cid: Bytes, path: seq<nat>, k: nat)
    requires IsPath(path, |ms|) && MayStand(rule, ms, cid, path, k)
    ensures IsPath(path + [k], |ms|) && MayStand(AnyFree, ms, cid, path, k)
  {
  }

  /** A proof tree with the last free discharges is accepted, whatever the pool. */
  lemma {:induction false} CertifiedIsAccepted(pf: Proof, c: Crypto, v: Verifier, m: Parsed,
                                               root: Option<Bytes>, key: Bytes, ms: seq<Parsed>, path: seq<nat>)
    requires IsPath(path, |ms|) && Certifies(pf, LastFree, c, v, m, root, key, ms, path)
    ensures Verifies(c, v, m, root, key, ms, path)
    decreases pf, 1
  {
    PathIsShort(path, |ms|);
    CertifiedCaveats(pf.steps, |m.caveats|, c, v, m.caveats, c.hmac(key, m.id.value), root, ms, path);
  }

  lemma {:induction false} CertifiedCaveats(steps: seq<Step>, n: nat, c: Crypto, v: Verifier, cs: seq<Clause>,
                                            sig: Bytes, root: Option<Bytes>, ms: seq<Parsed>, path: seq<nat>)
    requires IsPath(path, |ms|) && |path| <= |ms|
    requires n <= |cs| == |steps| && SigBefore(c, sig, cs, n).Some?
    requires StepsHold(steps, n, LastFree, c, v, cs, sig, root, ms, path)
    ensures CheckCaveats(c, v, cs, n, sig, root, ms, path) == SigBefore(c, sig, cs, n)
    decreases steps, n
  {
    if n > 0 {
      var before := SigBefore(c, sig, cs, n - 1);
      CertifiedCaveats(steps, n - 1, c, v, cs, sig, root, ms, path);
      CertifiedStep(steps[n - 1], c, v, cs[n - 1], before.value, root, ms, path);
      OneMore(c, v, cs, n, sig, before.value, root, ms, path);
    }
  }

  lemma OneMore(c: Crypto, v: Verifier, cs: seq<Clause>, n: nat, sig: Bytes, before: Bytes, root: Option<Bytes>,
                ms: seq<Parsed>, path: seq<nat>)
    requires 0 < n <= |cs| && |path| <= |ms| && ClauseHolds(c, v, cs[n - 1], before, root, ms, path)
    requires CheckCaveats(c, v, cs, n - 1, sig, root, ms, path) == Some(before)
    ensures CheckCaveats(c, v, cs, n, sig, root, ms, path) == NextSig(c, before, cs[n - 1])
  {
  }

  lemma {:induction false} CertifiedStep(st: Step, c: Crypto, v: Verifier, cl: Clause, sig: Bytes,
                                         root: Option<Bytes>, ms: seq<Parsed>, path: seq<nat>)
    requires IsPath(path, |ms|) && |path| <= |ms|
    requires StepHolds(st, LastFree, c, v, cl, Some(sig), root, ms, path)
    ensures ClauseHolds(c, v, cl, sig, root, ms, path)
    decreases st
  {
    if cl.Third? {
      FreeExtends(LastFree, ms, cl.cid.value, path, st.index);
      CertifiedIsAccepted(st.proof, c, v, ms[st.index], root, OpenKey(c, sig, cl.vid).value, ms,
                          path + [st.index]);
    }
  }

  ghost predicate IsProof(pf: Proof, rule: Rule, c: Crypto, v: Verifier, m: Parsed, root: Option<Bytes>,
                          key: Bytes, ms: seq<Parsed>)
  {
    Certifies(pf, rule, c, v, m, root, key, ms, [])
  }

  /** For every pool of discharges, a macaroon is accepted exactly when a proof tree that takes the last free
      discharge for each caveat certifies it. */
  lemma AcceptedExactly(c: Crypto, v: Verifier, m: Parsed, root: Option<Bytes>, key: Bytes, ms: seq<Parsed>)
    ensures Verifies(c, v, m, root, key, ms, []) <==> exists pf :: IsProof(pf, LastFree, c, v, m, root, key, ms)
  {
    if Verifies(c, v, m, root, key, ms, []) {
      var pf := AcceptedIsCertified(c, v, m, root, key, ms, []);
      assert IsProof(pf, LastFree, c, v, m, root, key, ms);
    } else if exists pf :: IsProof(pf, LastFree, c, v, m, root, key, ms) {
      var pf :| IsProof(pf, LastFree, c, v, m, root, key, ms);
      CertifiedIsAccepted(pf, c, v, m, root, key, ms, []);
    }
  }

  // ------------------------------------------------------------ distinct identifiers

  lemma OnlyMatch(ms: seq<Parsed>, k: nat, path: seq<nat>)
    requires IdsParse(ms) && IdsDistinct(ms) && IsPath(path, |ms|) && k < |ms| && k !in path
    ensures LastMatch(ms, ms[k].id.value, |ms|) == k && !Cycles(ms, ms[k].id.value, path)
  {
  }

  /** From one rule to the other: always to the looser one, and to the stricter one when identifiers are
      distinct. */
  predicate Follows(rule: Rule, other: Rule, ms: seq<Parsed>) {
    other.AnyFree? || rule == other || (IdsParse(ms) && IdsDistinct(ms))
  }

  lemma MayStandToo(rule: Rule, other: Rule, ms: seq<Parsed>, cid: Bytes, path: seq<nat>, k: nat)
    requires Follows(rule, other, ms) && IsPath(path, |ms|) && MayStand(rule, ms, cid, path, k)
    ensures MayStand(other, ms, cid, path, k)
  {
    FreeExtends(rule, ms, cid, path, k);
    if other.LastFree? && rule.AnyFree? { OnlyMatch(ms, k, path); }
  }

  lemma {:induction false} CertifiesToo(pf: Proof, rule: Rule, other: Rule, c: Crypto, v: Verifier, m: Parsed,
                                        root: Option<Bytes>, key: Bytes, ms: seq<Parsed>, path: seq<nat>)
    requires Follows(rule, other, ms) && IsPath(path, |ms|)
    requires Certifies(pf, rule, c, v, m, root, key, ms, path)
    ensures Certifies(pf, other, c, v, m, root, key, ms, path)
    decreases pf, 1
  {
    StepsHoldToo(pf.steps, |pf.steps|, rule, other, c, v, m.caveats, c.hmac(key, m.id.value), root, ms, path);
  }

  lemma {:induction false} StepsHoldToo(steps: seq<Step>, n: nat, rule: Rule, other: Rule, c: Crypto, v: Verifier,
                                        cs: seq<Clause>, sig: Bytes, root: Option<Bytes>, ms: seq<Parsed>,
                                        path: seq<nat>)
    requires Follows(rule, other, ms) && IsPath(path, |ms|) && n <= |steps| == |cs|
    requires StepsHold(steps, n, rule, c, v, cs, sig, root, ms, path)
    ensures StepsHold(steps, n, other, c, v, cs, sig, root, ms, path)
    decreases steps, n
  {
    if n > 0 {
      StepsHoldToo(steps, n - 1, rule, other, c, v, cs, sig, root, ms, path);
      StepHoldsToo(steps[n - 1], rule, other, c, v, cs[n - 1], SigBefore(c, sig, cs, n - 1), root, ms, path);
    }
  }

  lemma {:induction false} StepHoldsToo(st: Step, rule: Rule, other: Rule, c: Crypto, v: Verifier, cl: Clause,
                                        sig: Option<Bytes>, root: Option<Bytes>, ms: seq<Parsed>, path: seq<nat>)
    requires Follows(rule, other, ms) && IsPath(path, |ms|) && StepHolds(st, rule, c, v, cl, sig, root, ms, path)
    ensures StepHolds(st, other, c, v, cl, sig, root, ms, path)
    decreases st
  {
    if cl.Third? {
      FreeExtends(rule, ms, cl.cid.value, path, st.index);
      MayStandToo(rule, other, ms, cl.cid.value, path, st.index);
      CertifiesToo(st.proof, rule, other, c, v, ms[st.index], root, OpenKey(c, sig.value, cl.vid).value, ms,
                   path + [st.index]);
    }
  }

  /** Soundness in the looser terms: every caveat of an accepted macaroon is satisfied or discharged under the
      key it carries, by a discharge with its identifier that is not in use further up. */
  lemma AcceptedHasProof(c: Crypto, v: Verifier, m: Parsed, root: Option<Bytes>, key: Bytes, ms: seq<Parsed>)
    requires Verifies(c, v, m, root, key, ms, [])
    ensures exists pf :: IsProof(pf, AnyFree, c, v, m, root, key, ms)
  {
    var pf := AcceptedIsCertified(c, v, m, root, key, ms, []);
    CertifiesToo(pf, LastFree, AnyFree, c, v, m, root, key, ms, []);
    assert IsProof(pf, AnyFree, c, v, m, root, key, ms);
  }

  /** With distinct identifiers, any proof tree will do. */
  lemma AcceptedWhenDistinct(c: Crypto, v: Verifier, m: Parsed, root: Option<Bytes>, key: Bytes, ms: seq<Parsed>)
    requires IdsParse(ms) && IdsDistinct(ms)
    ensures Verifies(c, v, m, root, key, ms, []) <==> exists pf :: IsProof(pf, AnyFree, c, v, m, root, key, ms)
  {
    if Verifies(c, v, m, root, key, ms, []) {
      AcceptedHasProof(c, v, m, root, key, ms);
    } else if exists pf :: IsProof(pf, AnyFree, c, v, m, root, key, ms) {
      var pf :| IsProof(pf, AnyFree, c, v, m, root, key, ms);
      CertifiesToo(pf, AnyFree, LastFree, c, v, m, root, key, ms, []);
      CertifiedIsAccepted(pf, c, v, m, root, key, ms, []);
    }
  }
}
