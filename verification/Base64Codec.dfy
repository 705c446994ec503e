/** The two base64 routines as they work on a caller's buffer. */
module Base64Codec {
  import opened Options
  import opened FlatFile
  import opened Base64
  import opened Base64Proofs

  // --------------------------------------------------------------------- b64_ntop

  function FourLetters(a: Byte, b: Byte, c: Byte): Bytes {
    [Letter(a / 4), Letter(a % 4 * 16 + b / 16), Letter(b % 16 * 4 + c / 64), Letter(c % 64)]
  }

  lemma TextOfThree(x: Bytes, pos: nat)
    requires pos + 3 <= |x|
    ensures Text(x[pos..]) == FourLetters(x[pos], x[pos + 1], x[pos + 2]) + Text(x[pos + 3..])
  {
    assert x[pos..][3..] == x[pos + 3..];
  }

  lemma TextOfRest(x: Bytes, pos: nat)
    requires pos <= |x| < pos + 3
    ensures |x| == pos + 1 ==> Text(x[pos..]) == FourLetters(x[pos], 0, 0)[..2]
    ensures |x| == pos + 2 ==> Text(x[pos..]) == FourLetters(x[pos], x[pos + 1], 0)[..3]
    ensures |x| == pos ==> Text(x[pos..]) == []
  {
  }

  method Put(target: array<Byte>, at: nat, letters: Bytes)
    requires at + |letters| <= target.Length
    modifies target
    ensures target[..at + |letters|] == old(target[..at]) + letters
  {
    var j := 0;
    while j < |letters|
      invariant 0 <= j <= |letters|
      invariant target[..at + j] == old(target[..at]) + letters[..j]
    {
      target[at + j] := letters[j];
      assert target[..at + j + 1] == target[..at + j] + [letters[j]];
      j := j + 1;
    }
  }

  lemma TripleDone(src: Bytes, pos: nat, done: Bytes)
    requires pos + 3 <= |src| && done + Text(src[pos..]) == Text(src)
    ensures (done + FourLetters(src[pos], src[pos + 1], src[pos + 2])) + Text(src[pos + 3..]) == Text(src)
  {
    TextOfThree(src, pos);
  }

  method PutTriple(src: Bytes, target: array<Byte>, pos: nat, datalength: nat) returns (pos': nat, datalength': nat)
    requires pos + 3 <= |src| && datalength + 4 <= target.Length
    requires target[..datalength] + Text(src[pos..]) == Text(src)
    modifies target
    ensures pos' == pos + 3 && datalength' == datalength + 4
    ensures target[..datalength'] + Text(src[pos'..]) == Text(src)
  {
    TripleDone(src, pos, target[..datalength]);
    Put(target, datalength, FourLetters(src[pos], src[pos + 1], src[pos + 2]));
    pos', datalength' := pos + 3, datalength + 4;
  }

  /** The loop over whole triples. */
  method PutTriples(src: Bytes, target: array<Byte>) returns (ok: bool, g: nat)
    modifies target
    ensures ok <==> |src| / 3 * 4 <= target.Length
    ensures ok ==> g == |src| / 3 && target[..4 * g] + Text(src[3 * g..]) == Text(src)
  {
    g := 0;
    var datalength, pos := 0, 0;
    assert src[0..] == src;
    while 2 < |src| - pos
      invariant pos == 3 * g <= |src| && datalength == 4 * g <= target.Length
      invariant target[..datalength] + Text(src[pos..]) == Text(src)
    {
      if datalength + 4 > target.Length {
        return false, g;
      }
      pos, datalength := PutTriple(src, target, pos, datalength);
      g := g + 1;
    }
    ok := true;
  }

  /** b64_ntop: the text and its terminating zero, or -1 exactly when the target is too small. */
  method Ntop(src: Bytes, target: array<Byte>) returns (rc: int)
    modifies target
    ensures rc == -1 <==> target.Length < Need(|src|)
    ensures rc != -1 ==> rc == |Text(src)| && rc < target.Length
    ensures rc != -1 ==> target[..rc] == Text(src) && target[rc] == 0
  {
    var ok, g := PutTriples(src, target);
    if !ok {
      return -1;
    }
    var datalength, pos := 4 * g, 3 * g;
    var left := |src| - pos;
    TextOfRest(src, pos);
    if left != 0 {
      if datalength + 4 > target.Length {
        return -1;
      }
      var letters := if left == 1 then FourLetters(src[pos], 0, 0)[..2]
                     else FourLetters(src[pos], src[pos + 1], 0)[..3];
      Put(target, datalength, letters);
      datalength := datalength + |letters|;
    }
    assert target[..datalength] == Text(src);
    if datalength >= target.Length {
      return -1;
    }
    target[datalength] := 0;
    assert target[..datalength] == Text(src);
    rc := datalength;
  }

  // --------------------------------------------------------------------- b64_pton

  /** The reader's state, as the code holds it in the target buffer. */
  ghost predicate Holds(target: array<Byte>, state: nat, tarindex: nat, r: Reader)
    reads target
  {
    && r.Reading? && tarindex <= target.Length && r.state == state < 4
    && r.out == target[..tarindex]
    && (state != 0 ==> r.carry == if tarindex < target.Length then target[tarindex] else 0)
  }

  /** One group or-ed into the buffer in place. */
  method Accept(target: array<Byte>, state: nat, tarindex: nat, v: Sextet, ghost r: Reader)
    returns (ok: bool, state': nat, tarindex': nat)
    requires Holds(target, state, tarindex, r)
    modifies target
    ensures ok <==> Feed(r, v, target.Length).Reading?
    ensures ok ==> Holds(target, state', tarindex', Feed(r, v, target.Length))
  {
    ok, state', tarindex' := true, state, tarindex;
    if tarindex >= target.Length {
      return false, state, tarindex;
    }
    if state == 0 {
      target[tarindex] := v * 4;
      state' := 1;
    } else if state == 1 || state == 2 {
      var high, next := if state == 1 then v / 16 else v / 4, if state == 1 then v % 16 * 16 else v % 4 * 64;
      target[tarindex] := OrBytes(target[tarindex], high);
      if tarindex + 1 < target.Length {
        target[tarindex + 1] := next;
      } else if next != 0 {
        return false, state, tarindex;
      }
      assert target[..tarindex + 1] == r.out + [OrBytes(r.carry, high)];
      state', tarindex' := state + 1, tarindex + 1;
    } else {
      target[tarindex] := OrBytes(target[tarindex], v);
      assert target[..tarindex + 1] == r.out + [OrBytes(r.carry, v)];
      state', tarindex' := 0, tarindex + 1;
    }
  }

  /** Reading on from a state. */
  function PtonFrom(r: Reader, s: Bytes, n: nat): Option<Bytes> {
    var q := Groups(s);
    if q.None? then None else Finish(FeedAll(r, q.value, n), n)
  }

  lemma PtonStep(r: Reader, s: Bytes, n: nat)
    requires s != []
    ensures IsSpace(s[0]) ==> PtonFrom(r, s, n) == PtonFrom(r, s[1..], n)
    ensures s[0] == PAD ==> PtonFrom(r, s, n) == if IsTail(s[1..]) then Finish(r, n) else None
    ensures !IsSpace(s[0]) && s[0] != PAD ==>
              PtonFrom(r, s, n) == if Value(Fold(s[0])).None? then None
                                   else PtonFrom(Feed(r, Value(Fold(s[0])).value, n), s[1..], n)
  {
    if !IsSpace(s[0]) && s[0] != PAD && Groups(s).Some? {
      assert Groups(s).value[1..] == Groups(s[1..]).value;
    }
  }

  lemma PtonFailed(s: Bytes, n: nat)
    ensures PtonFrom(Failed, s, n) == None
  {
    if Groups(s).Some? { FeedFailed(Groups(s).value, n); }
  }

  /** What may follow a '='. */
  method SkipTail(src: Bytes, i: nat) returns (ok: bool)
    requires i <= |src|
    ensures ok <==> IsTail(src[i..])
  {
    var k := i;
    while k < |src|
      invariant i <= k <= |src|
      invariant forall j :: i <= j < k ==> src[j] == PAD || IsSpace(src[j])
    {
      if !IsSpace(src[k]) && src[k] != PAD {
        assert src[i..][k - i] == src[k];
        return false;
      }
      k := k + 1;
    }
    ok := true;
  }

  /** b64_pton on a zero-free string: the bytes in the target, or -1 exactly when Pton has none. */
  method PtonInto(src: Bytes, target: array<Byte>) returns (rc: int)
    requires forall i :: 0 <= i < |src| ==> src[i] != 0
    modifies target
    ensures rc == -1 <==> Pton(src, target.Length).None?
    ensures rc != -1 ==> 0 <= rc <= target.Length && Pton(src, target.Length) == Some(target[..rc])
  {
    var state, tarindex, i := 0, 0, 0;
    ghost var n, r := target.Length, Reading(0, [], 0);
    assert src[0..] == src;
    while i < |src| && src[i] != PAD
      invariant 0 <= i <= |src| && target.Length == n
      invariant 0 <= tarindex && 0 <= state && Holds(target, state, tarindex, r)
      invariant Pton(src, n) == PtonFrom(r, src[i..], n)
    {
      PtonStep(r, src[i..], n);
      assert src[i..][1..] == src[i + 1..];
      if !IsSpace(src[i]) {
        var v := Value(Fold(src[i]));
        if v.None? {
          return -1;
        }
        var ok;
        PtonFailed(src[i + 1..], n);
        ghost var was := r;
        r := Feed(r, v.value, n);
        ok, state, tarindex := Accept(target, state, tarindex, v.value, was);
        if !ok {
          return -1;
        }
      }
      i := i + 1;
    }
    if i < |src| {
      PtonStep(r, src[i..], n);
      assert src[i..][1..] == src[i + 1..];
      var ok := SkipTail(src, i + 1);
      if !ok {
        return -1;
      }
    } else {
      assert src[i..] == [];
    }
    assert Pton(src, n) == Finish(r, n);
    if tarindex < target.Length && target[tarindex] != 0 && state != 0 {
      return -1;
    }
    rc := tarindex;
  }
}
