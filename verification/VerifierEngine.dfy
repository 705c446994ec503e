/** macaroon_verify as it runs: failure flags are gathered rather than returned early, and the path of
    discharges in use lives in one shared array. Packets are parsed before the run starts. */
module VerifierEngine {
  import opened Options
  import opened FlatFile
  import opened Macaroon
  import opened Verifier

  function OrEmpty(b: Option<Bytes>): Bytes { if b.Some? then b.value else [] }

  /** macaroon_verify_inner_1st. */
  method CheckFirstParty(v: Verifier, cid: Option<Bytes>) returns (fail: bool)
    ensures !fail <==> cid.Some? && Satisfied(v, cid.value)
  {
    var pred := OrEmpty(cid);
    var found := false;
    for i := 0 to |v.exact|
      invariant found <==> exists j :: 0 <= j < i && v.exact[j] == pred
    {
      found := found || v.exact[i] == pred;
    }
    ghost var exact := found;
    for i := 0 to |v.general|
      invariant found <==> exact || exists j :: 0 <= j < i && v.general[j](pred)
    {
      found := found || v.general[i](pred);
    }
    fail := cid.None? || !found;
  }

  /** The array's prefix names discharges of the pool. */
  ghost predicate IsTree(tree: array<nat>, idx: nat, n: nat)
    reads tree
  {
    tree.Length == n + 1 && idx <= n + 1 && forall t :: 0 <= t < idx ==> tree[t] < n
  }

  /** The entry just chosen is already on the path. */
  method OnPath(tree: array<nat>, idx: nat) returns (hit: bool)
    requires idx < tree.Length
    ensures hit <==> tree[idx] in tree[..idx]
  {
    hit := false;
    for t := 0 to idx
      invariant hit <==> exists u :: 0 <= u < t && tree[u] == tree[idx]
    {
      hit := hit || tree[t] == tree[idx];
    }
  }

  /** What the search over the first n discharges has established. */
  ghost predicate Searched(ms: seq<Parsed>, cid: Option<Bytes>, path: seq<nat>, n: nat, at: nat, fail: bool)
    requires n <= |ms|
  {
    && (at < n || at == |ms|)
    && (fail ==> cid.None? || !IdsParse(ms) || Cycles(ms, cid.value, path))
    && (!fail ==> cid.Some? && at == LastMatch(ms, cid.value, n)
                  && forall j :: 0 <= j < n ==> ms[j].id.Some? && (ms[j].id == cid ==> j !in path))
  }

  lemma SearchStep(ms: seq<Parsed>, cid: Option<Bytes>, path: seq<nat>, n: nat, at: nat, next: nat,
                   fail: bool, after: bool)
    requires n < |ms| && Searched(ms, cid, path, n, at, fail) && forall t :: 0 <= t < |path| ==> path[t] < |ms|
    requires next == if OrEmpty(ms[n].id) == OrEmpty(cid) then n else at
    requires after == (fail || ms[n].id.None? || next in path)
    ensures Searched(ms, cid, path, n + 1, next, after)
  {
    if after && !fail && ms[n].id.Some? {
      var t :| 0 <= t < |path| && path[t] == next;
      assert ms[path[t]].id == cid;
    }
  }

  /** What the search leaves to be checked of a third-party caveat. */
  lemma ThirdPartyVerdict(c: Crypto, v: Verifier, cl: Clause, sig: Bytes, root: Option<Bytes>, ms: seq<Parsed>,
                          path: seq<nat>, at: nat, fail: bool)
    requires cl.Third? && |path| <= |ms| && forall t :: 0 <= t < |path| ==> path[t] < |ms|
    requires Searched(ms, cl.cid, path, |ms|, at, fail)
    ensures ClauseHolds(c, v, cl, sig, root, ms, path) <==>
            !fail && at < |ms| && OpenKey(c, sig, cl.vid).Some?
            && Verifies(c, v, ms[at], root, OpenKey(c, sig, cl.vid).value, ms, path + [at])
  {
    assert !fail <==> cl.cid.Some? && IdsParse(ms) && !Cycles(ms, cl.cid.value, path);
  }

  /** Finds the discharge for a caveat: the last with its identifier, failing if any of them is in use. */
  method FindDischarge(cid: Option<Bytes>, ms: seq<Parsed>, tree: array<nat>, idx: nat) returns (fail: bool)
    requires IsTree(tree, idx, |ms|) && idx <= |ms|
    modifies tree
    ensures tree[..idx] == old(tree[..idx]) && tree[idx] <= |ms|
    ensures Searched(ms, cid, tree[..idx], |ms|, tree[idx], fail)
  {
    ghost var path := tree[..idx];
    fail := cid.None?;
    tree[idx] := |ms|;
    for n := 0 to |ms|
      invariant tree[..idx] == path && tree[idx] <= |ms|
      invariant Searched(ms, cid, path, n, tree[idx], fail)
    {
      ghost var at, before := tree[idx], fail;
      if OrEmpty(ms[n].id) == OrEmpty(cid) {
        tree[idx] := n;
      }
      var hit := OnPath(tree, idx);
      fail := fail || ms[n].id.None? || hit;
      SearchStep(ms, cid, path, n, at, tree[idx], before, fail);
    }
  }

  /** macaroon_verify_inner_3rd. A vid of the wrong size, an assertion failure there, is a failure here. */
  method CheckThirdParty(c: Crypto, v: Verifier, cl: Clause, sig: Bytes, root: Option<Bytes>, ms: seq<Parsed>,
                         tree: array<nat>, idx: nat) returns (fail: bool)
    requires IsTree(tree, idx, |ms|) && idx <= |ms| && cl.Third?
    modifies tree
    ensures tree[..idx] == old(tree[..idx])
    ensures !fail <==> ClauseHolds(c, v, cl, sig, root, ms, tree[..idx])
    decreases |ms| + 1 - idx, 0
  {
    fail := FindDischarge(cl.cid, ms, tree, idx);
    ghost var path := tree[..idx];
    ThirdPartyVerdict(c, v, cl, sig, root, ms, path, tree[idx], fail);
    if tree[idx] == |ms| {
      return true;
    }
    if cl.vid.Some? && |cl.vid.value| != VID_BYTES {
      return true;
    }
    var key := OpenKey(c, sig, cl.vid);
    assert tree[..idx + 1] == path + [tree[idx]];
    var rest := CheckMacaroon(c, v, ms[tree[idx]], root, if key.Some? then key.value else Zeros(HASH_BYTES),
                              ms, tree, idx + 1);
    assert tree[..idx] == tree[..idx + 1][..idx] == path;
    fail := fail || key.None? || rest;
  }

  /** One caveat: whether it fails, and the signature behind it. */
  method CheckCaveat(c: Crypto, v: Verifier, cl: Clause, sig: Bytes, root: Option<Bytes>, ms: seq<Parsed>,
                     tree: array<nat>, idx: nat) returns (fail: bool, next: Bytes)
    requires IsTree(tree, idx, |ms|) && idx <= |ms|
    modifies tree
    ensures tree[..idx] == old(tree[..idx])
    ensures !fail <==> ClauseHolds(c, v, cl, sig, root, ms, tree[..idx]) && NextSig(c, sig, cl).Some?
    ensures !fail ==> NextSig(c, sig, cl) == Some(next)
    decreases |ms| + 1 - idx, 1
  {
    if cl.First? {
      fail := CheckFirstParty(v, cl.cid);
      next := c.hmac(sig, OrEmpty(cl.cid));
    } else {
      fail := CheckThirdParty(c, v, cl, sig, root, ms, tree, idx);
      next := Hash2(c, sig, OrEmpty(cl.vid), OrEmpty(cl.cid));
      fail := fail || cl.vid.None?;
    }
    fail := fail || cl.cid.None?;
  }

  /** The caveat loop of macaroon_verify_inner. */
  method CheckAll(c: Crypto, v: Verifier, cs: seq<Clause>, start: Bytes, root: Option<Bytes>, ms: seq<Parsed>,
                  tree: array<nat>, idx: nat) returns (fail: bool, sig: Bytes)
    requires IsTree(tree, idx, |ms|) && idx <= |ms|
    modifies tree
    ensures tree[..idx] == old(tree[..idx])
    ensures CheckCaveats(c, v, cs, |cs|, start, root, ms, tree[..idx]) == if fail then None else Some(sig)
    decreases |ms| + 1 - idx, 2
  {
    ghost var path := tree[..idx];
    fail, sig := false, start;
    for n := 0 to |cs|
      invariant tree[..idx] == path
      invariant CheckCaveats(c, v, cs, n, start, root, ms, path) == if fail then None else Some(sig)
    {
      assert forall t :: 0 <= t < idx ==> tree[t] == path[t];
      var bad, next := CheckCaveat(c, v, cs[n], sig, root, ms, tree, idx);
      fail, sig := fail || bad, next;
    }
  }

  /** macaroon_verify_inner. */
  method CheckMacaroon(c: Crypto, v: Verifier, m: Parsed, root: Option<Bytes>, key: Bytes, ms: seq<Parsed>,
                       tree: array<nat>, idx: nat) returns (fail: bool)
    requires IsTree(tree, idx, |ms|)
    modifies tree
    ensures tree[..idx] == old(tree[..idx])
    ensures !fail <==> Verifies(c, v, m, root, key, ms, tree[..idx])
    decreases |ms| + 1 - idx, 3
  {
    if idx > |ms| {
      return true;
    }
    var bad, sig := CheckAll(c, v, m.caveats, c.hmac(key, OrEmpty(m.id)), root, ms, tree, idx);
    fail := m.id.None? || bad;
    if idx > 0 {
      sig := Bind(c, OrEmpty(root), sig);
      fail := fail || root.None?;
    }
    fail := fail || m.sig != Some(sig);
  }

  /** macaroon_verify: authorised exactly when the functional verifier says so. */
  method Authorise(c: Crypto, v: Verifier, m: Macaroon, key: Bytes, ms: seq<Macaroon>) returns (ok: bool)
    ensures ok <==> Verify(c, v, m, key, ms)
  {
    var tree := new nat[|ms| + 1];
    for i := 0 to |ms| + 1
      invariant forall t :: 0 <= t < i ==> tree[t] == |ms|
    {
      tree[i] := |ms|;
    }
    var fail := CheckMacaroon(c, v, Parse(m), Parse(m).sig, DerivedKey(c, key), ParseAll(ms), tree, 0);
    ok := !fail;
  }
}
