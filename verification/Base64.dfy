/** The URL-safe base64 text form of byte strings (RFC 1521 section 5.2 grouping, RFC 4648 section 5
    alphabet, no padding written), and the tolerant reader that undoes it. */
module Base64 {
  import opened Options
  import opened FlatFile

  /** A six-bit group. */
  type Sextet = x: int | 0 <= x < 64

  // -------------------------------------------------------------------- alphabet

  const PAD: Byte := 61  // '='

  /** ABCDEFGHIJKLMNOPQRSTUVWXYZabcdefghijklmnopqrstuvwxyz0123456789-_ */
  function Letter(v: Sextet): Byte {
    if v < 26 then 65 + v
    else if v < 52 then 97 + (v - 26)
    else if v < 62 then 48 + (v - 52)
    else if v == 62 then 45
    else 95
  }

  /** The reader also takes '+' for '-' and '/' for '_'. */
  function Fold(c: Byte): Byte { if c == 43 then 45 else if c == 47 then 95 else c }

  function Value(c: Byte): Option<Sextet> {
    if 65 <= c <= 90 then Some(c - 65)
    else if 97 <= c <= 122 then Some(c - 97 + 26)
    else if 48 <= c <= 57 then Some(c - 48 + 52)
    else if c == 45 then Some(62)
    else if c == 95 then Some(63)
    else None
  }

  predicate IsSpace(c: Byte) { c == 32 || 9 <= c <= 13 }

  lemma ValueOfLetter(v: Sextet)
    ensures Value(Fold(Letter(v))) == Some(v)
    ensures !IsSpace(Letter(v)) && Letter(v) != PAD && Letter(v) != 0 && Fold(Letter(v)) == Letter(v)
  {
  }

  lemma LetterOfValue(c: Byte)
    requires Value(c).Some?
    ensures Letter(Value(c).value) == c
  {
  }

  // ----------------------------------------------------------------- bitwise 'or'

  function BitOr(a: nat, b: nat): nat
    decreases a + b
  {
    if a == 0 && b == 0 then 0 else 2 * BitOr(a / 2, b / 2) + (if a % 2 == 1 || b % 2 == 1 then 1 else 0)
  }

  lemma {:induction false} OrZero(a: nat)
    ensures BitOr(a, 0) == a
  {
    if a > 0 { OrZero(a / 2); }
  }

  lemma {:induction false} OrBelow(a: nat, b: nat, k: nat)
    requires a < Pow2(k) && b < Pow2(k)
    ensures BitOr(a, b) < Pow2(k)
    decreases k
  {
    if k > 0 { OrBelow(a / 2, b / 2, k - 1); }
  }

  /** C's `|` on unsigned char. */
  function OrBytes(a: Byte, b: Byte): Byte {
    assert Pow2(8) == 16 * Pow2(4) && Pow2(4) == 16;
    OrBelow(a, b, 8);
    BitOr(a, b)
  }

  function Pow2(k: nat): nat { if k == 0 then 1 else 2 * Pow2(k - 1) }

  /** Or-ing bits below a multiple of 2^k adds them. */
  lemma {:induction false} OrDisjoint(a: nat, b: nat, k: nat)
    requires b < Pow2(k)
    ensures BitOr(a * Pow2(k), b) == a * Pow2(k) + b
    decreases k
  {
    if k == 0 {
      OrZero(a);
    } else {
      var h := a * Pow2(k - 1);
      assert a * Pow2(k) == 2 * h;
      OrDisjoint(a, b / 2, k - 1);
    }
  }

  lemma OrSums(a: nat, b: nat)
    ensures b < 4 ==> BitOr(a * 4, b) == a * 4 + b
    ensures b < 16 ==> BitOr(a * 16, b) == a * 16 + b
    ensures b < 64 ==> BitOr(a * 64, b) == a * 64 + b
  {
    assert Pow2(2) == 4 && Pow2(4) == 16;
    assert Pow2(6) == 4 * Pow2(4);
    if b < 4 { OrDisjoint(a, b, 2); }
    if b < 16 { OrDisjoint(a, b, 4); }
    if b < 64 { OrDisjoint(a, b, 6); }
  }

  // --------------------------------------------------------------------- encoding

  /** Three bytes become four groups; one or two left over become two or three. */
  function Encode(x: Bytes): seq<Sextet> {
    if |x| == 0 then []
    else if |x| == 1 then [x[0] / 4, x[0] % 4 * 16]
    else if |x| == 2 then [x[0] / 4, x[0] % 4 * 16 + x[1] / 16, x[1] % 16 * 4]
    else [x[0] / 4, x[0] % 4 * 16 + x[1] / 16, x[1] % 16 * 4 + x[2] / 64, x[2] % 64] + Encode(x[3..])
  }

  function Spell(q: seq<Sextet>): (s: Bytes)
    ensures |s| == |q| && forall i :: 0 <= i < |q| ==> s[i] == Letter(q[i])
  {
    seq(|q|, i requires 0 <= i < |q| => Letter(q[i]))
  }

  /** The text b64_ntop writes. */
  function Text(x: Bytes): Bytes { Spell(Encode(x)) }

  /** The target size below which b64_ntop fails, the terminating zero included. */
  function Need(n: nat): nat { n / 3 * 4 + (if n % 3 == 0 then 1 else 4) }

  // --------------------------------------------------------------------- decoding

  /** The reader between two characters: bytes complete, bits of the next one, position in the group. */
  datatype Reader = Failed | Reading(state: nat, out: Bytes, carry: Byte)

  /** Room for n bytes in all. A group whose leftover bits do not fit must have none set. */
  function Feed(r: Reader, v: Sextet, n: nat): Reader {
    if r.Failed? || |r.out| >= n then Failed
    else if r.state == 0 then Reading(1, r.out, v * 4)
    else if r.state == 1 then Carry(2, r.out, OrBytes(r.carry, v / 16), v % 16 * 16, n)
    else if r.state == 2 then Carry(3, r.out, OrBytes(r.carry, v / 4), v % 4 * 64, n)
    else Reading(0, r.out + [OrBytes(r.carry, v)], 0)
  }

  function Carry(state: nat, out: Bytes, b: Byte, next: Byte, n: nat): Reader {
    if |out| + 1 < n || next == 0 then Reading(state, out + [b], next) else Failed
  }

  function FeedAll(r: Reader, q: seq<Sextet>, n: nat): Reader
    decreases q
  {
    if q == [] then r else FeedAll(Feed(r, q[0], n), q[1..], n)
  }

  /** Leftover bits must be zero. */
  function Finish(r: Reader, n: nat): Option<Bytes> {
    if r.Failed? || (r.state != 0 && |r.out| < n && r.carry != 0) then None else Some(r.out)
  }

  function Decode(q: seq<Sextet>, n: nat): Option<Bytes> { Finish(FeedAll(Reading(0, [], 0), q, n), n) }

  predicate IsTail(s: Bytes) { forall i :: 0 <= i < |s| ==> s[i] == PAD || IsSpace(s[i]) }

  /** The groups a text spells: spaces skipped anywhere, everything from the first '=' on must be
      padding or space. */
  function Groups(s: Bytes): Option<seq<Sextet>> {
    if s == [] then Some([])
    else if IsSpace(s[0]) then Groups(s[1..])
    else if s[0] == PAD then (if IsTail(s[1..]) then Some([]) else None)
    else
      var v, rest := Value(Fold(s[0])), Groups(s[1..]);
      if v.None? || rest.None? then None else Some([v.value] + rest.value)
  }

  /** b64_pton with a target of n bytes. */
  function Pton(s: Bytes, n: nat): Option<Bytes> {
    var q := Groups(s);
    if q.None? then None else Decode(q.value, n)
  }
}
