/** What base64 texts stand for, and what makes no difference to their reader. */
module Base64Text {
  import opened FlatFile
  import opened Base64

  // ------------------------------------------------------- what the reader tolerates

  /** White space anywhere, in any text, makes no difference. */
  lemma {:induction false} SpaceIsIgnored(s: Bytes, i: nat, c: Byte)
    requires i <= |s| && c in [9, 10, 11, 12, 13, 32]
    ensures Groups(s[..i] + [c] + s[i..]) == Groups(s)
    decreases i
  {
    var t := s[..i] + [c] + s[i..];
    if i == 0 {
      assert t[1..] == s;
    } else {
      assert t[0] == s[0] && t[1..] == s[1..][..i - 1] + [c] + s[1..][i - 1..];
      SpaceIsIgnored(s[1..], i - 1, c);
      if s[0] == PAD { SpaceInTail(s[1..], i - 1, c); }
    }
  }

  lemma SpaceInTail(s: Bytes, i: nat, c: Byte)
    requires i <= |s| && c in [9, 10, 11, 12, 13, 32]
    ensures IsTail(s[..i] + [c] + s[i..]) <==> IsTail(s)
  {
    var t := s[..i] + [c] + s[i..];
    assert (forall k :: 0 <= k < i ==> t[k] == s[k]) && forall k :: i <= k < |s| ==> s[k] == t[k + 1];
    assert forall k :: i < k < |t| ==> t[k] == s[k - 1];
  }

  /** Neither does '+' for '-', or '/' for '_', anywhere. */
  lemma {:induction false} AlphabetIsIgnored(s: Bytes, i: nat)
    requires i < |s|
    ensures s[i] == 45 ==> Groups(s[i := 43]) == Groups(s)
    ensures s[i] == 95 ==> Groups(s[i := 47]) == Groups(s)
    decreases i
  {
    if i == 0 {
      assert s[0 := 43][1..] == s[1..] && s[0 := 47][1..] == s[1..];
    } else {
      AlphabetIsIgnored(s[1..], i - 1);
      assert s[i := 43][1..] == s[1..][i - 1 := 43] && s[i := 47][1..] == s[1..][i - 1 := 47];
      if s[0] == PAD && (s[i] == 45 || s[i] == 95) { NoTail(s[1..], i - 1); }
    }
  }

  lemma NoTail(s: Bytes, i: nat)
    requires i < |s| && (s[i] == 45 || s[i] == 95)
    ensures !IsTail(s) && !IsTail(s[i := 43]) && !IsTail(s[i := 47])
  {
    assert s[i := 43][i] == 43 && s[i := 47][i] == 47;
  }

  /** Nor padding behind the letters. */
  lemma {:induction false} PaddingIsIgnored(s: Bytes, pad: Bytes)
    requires 61 !in s && forall i :: 0 <= i < |pad| ==> pad[i] == 61
    ensures Groups(s + pad) == Groups(s)
    decreases s
  {
    if s == [] {
      assert s + pad == pad;
    } else {
      assert (s + pad)[0] == s[0] && (s + pad)[1..] == s[1..] + pad;
      PaddingIsIgnored(s[1..], pad);
    }
  }

  /** So none of this makes a difference to what is read. */
  lemma ReaderTolerates(s: Bytes, i: nat, c: Byte, n: nat)
    requires i <= |s|
    ensures c in [9, 10, 11, 12, 13, 32] ==> Pton(s[..i] + [c] + s[i..], n) == Pton(s, n)
    ensures i < |s| && s[i] == 45 ==> Pton(s[i := 43], n) == Pton(s, n)
    ensures i < |s| && s[i] == 95 ==> Pton(s[i := 47], n) == Pton(s, n)
    ensures 61 !in s ==> Pton(s + [61], n) == Pton(s, n) && Pton(s + [61, 61], n) == Pton(s, n)
  {
    if c in [9, 10, 11, 12, 13, 32] { SpaceIsIgnored(s, i, c); }
    if i < |s| { AlphabetIsIgnored(s, i); }
    if 61 !in s {
      PaddingIsIgnored(s, [61]);
      PaddingIsIgnored(s, [61, 61]);
    }
  }

  // ------------------------------------------------------- what the letters stand for

  lemma TextOfTriple(a: Byte, b: Byte, c: Byte)
    ensures Text([a, b, c]) == [Letter(a / 4), Letter(a % 4 * 16 + b / 16), Letter(b % 16 * 4 + c / 64), Letter(c % 64)]
  {
    assert [a, b, c][3..] == [] && Encode([]) == [];
  }

  /** "ABCD", "abcd", "0123" and "-_-_". */
  lemma KnownTexts()
    ensures Text([0, 16, 131]) == [65, 66, 67, 68] && Text([105, 183, 29]) == [97, 98, 99, 100]
    ensures Text([211, 93, 183]) == [48, 49, 50, 51] && Text([251, 255, 191]) == [45, 95, 45, 95]
  {
    TextOfTriple(0, 16, 131);
    TextOfTriple(105, 183, 29);
    TextOfTriple(211, 93, 183);
    TextOfTriple(251, 255, 191);
  }

  function SixBits(high: int, low: int): int { high * 64 + low }

  function EightBits(high: int, low: int): int { high * 256 + low }

  lemma OneNumber(a: Byte, b: Byte, c: Byte)
    ensures SixBits(a / 4, a % 4 * 16) == EightBits(0, a) * 16
    ensures SixBits(SixBits(a / 4, a % 4 * 16 + b / 16), b % 16 * 4) == EightBits(a, b) * 4
    ensures SixBits(SixBits(SixBits(a / 4, a % 4 * 16 + b / 16), b % 16 * 4 + c / 64), c % 64)
         == EightBits(EightBits(a, b), c)
  {
  }

  /** Four groups are the number three bytes make; at the end, two or three are that of one or two bytes, with four
      or two bits put behind it. */
  predicate SameNumber(q: seq<Sextet>, x: Bytes) {
    || (|x| == 1 && |q| == 2 && SixBits(q[0], q[1]) == EightBits(0, x[0]) * 16)
    || (|x| == 2 && |q| == 3 && SixBits(SixBits(q[0], q[1]), q[2]) == EightBits(x[0], x[1]) * 4)
    || (|x| == 3 && |q| == 4
        && SixBits(SixBits(SixBits(q[0], q[1]), q[2]), q[3]) == EightBits(EightBits(x[0], x[1]), x[2]))
  }

  /** ... throughout. */
  predicate AreNumbers(q: seq<Sextet>, x: Bytes)
    decreases x
  {
    if |x| == 0 then q == []
    else if |x| <= 3 then SameNumber(q, x)
    else |q| >= 4 && SameNumber(q[..4], x[..3]) && AreNumbers(q[4..], x[3..])
  }

  lemma TripleFirst(x: Bytes)
    requires |x| > 3
    ensures |Encode(x)| >= 4 && Encode(x)[4..] == Encode(x[3..]) && SameNumber(Encode(x)[..4], x[..3])
  {
    OneNumber(x[0], x[1], x[2]);
  }

  lemma {:induction false} TextIsNumbers(x: Bytes)
    ensures AreNumbers(Encode(x), x) && Text(x) == Spell(Encode(x))
  {
    if |x| > 3 {
      TripleFirst(x);
      TextIsNumbers(x[3..]);
    } else if |x| == 3 {
      OneNumber(x[0], x[1], x[2]);
      assert x[3..] == [] && Encode(x[3..]) == [];
    } else if |x| == 2 {
      OneNumber(x[0], x[1], 0);
    } else if |x| == 1 {
      OneNumber(x[0], 0, 0);
    }
  }
}
