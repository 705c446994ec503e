/** Length-prefixed key-value packets: four hex digits of total size, key, space, value, newline. */
module Packet {
  import opened Options
  import opened FlatFile
  import opened Base64

  const PREFIX: nat := 4
  const MAX_SIZE: nat := 65535
  const SPACE: Byte := 32
  const NEWLINE: Byte := 10

  // The field names, in ASCII.
  const LOCATION: Bytes := [108, 111, 99, 97, 116, 105, 111, 110]
  const IDENTIFIER: Bytes := [105, 100, 101, 110, 116, 105, 102, 105, 101, 114]
  const SIGNATURE: Bytes := [115, 105, 103, 110, 97, 116, 117, 114, 101]
  const CID: Bytes := [99, 105, 100]
  const VID: Bytes := [118, 105, 100]
  const CL: Bytes := [99, 108]

  // ---------------------------------------------------------------------- header

  function HexDigit(d: nat): Byte
    requires d < 16
  {
    if d < 10 then 48 + d else 87 + d
  }

  /** The last k hex digits of n. */
  function Digits(n: nat, k: nat): (h: Bytes)
    ensures |h| == k
    decreases k
  {
    if k == 0 then [] else Digits(n / 16, k - 1) + [HexDigit(n % 16)]
  }

  /** packet_header. */
  function Header(sz: nat): (h: Bytes)
    requires sz <= MAX_SIZE
    ensures |h| == PREFIX
  {
    Digits(sz, PREFIX)
  }

  /** strchr over the digit string, which also finds its terminating zero, at index 16. */
  function HexValue(c: Byte): Option<nat> {
    if 48 <= c <= 57 then Some(c - 48)
    else if 97 <= c <= 102 then Some(c - 87)
    else if c == 0 then Some(16)
    else None
  }

  function HexNumber(digits: Bytes): Option<nat> {
    if digits == [] then Some(0)
    else
      var high, low := HexNumber(digits[..|digits| - 1]), HexValue(digits[|digits| - 1]);
      if high.None? || low.None? then None else Some(BitOr(high.value * 16, low.value))
  }

  /** The size of the packet at the front, if its header is readable and it lies within the data. */
  function ParsePacket(data: Bytes): (r: Option<nat>)
    ensures r.Some? ==> r.value <= |data|
  {
    if |data| < PREFIX then None
    else
      var sz := HexNumber(data[..PREFIX]);
      if sz.None? || |data| < sz.value then None else sz
  }

  /** parse_packet's digit loop. */
  method ReadPacketSize(data: Bytes) returns (r: Option<nat>)
    ensures r == ParsePacket(data)
  {
    if |data| < PREFIX {
      return None;
    }
    var sz, i := 0, 0;
    while i < PREFIX
      invariant 0 <= i <= PREFIX && 0 <= sz && HexNumber(data[..i]) == Some(sz)
    {
      var digit := HexValue(data[i]);
      HexStops(data, i, PREFIX);
      if digit.None? {
        return None;
      }
      sz := BitOr(sz * 16, digit.value);
      i := i + 1;
    }
    r := if |data| < sz then None else Some(sz);
  }

  /** A bad digit spoils every longer number. */
  lemma {:induction false} HexStops(data: Bytes, i: nat, n: nat)
    requires i < n <= |data|
    ensures HexValue(data[i]).None? ==> HexNumber(data[..n]).None?
    ensures data[..i + 1][..i] == data[..i] && data[..i + 1][i] == data[i]
  {
    if i + 1 < n {
      HexStops(data, i, n - 1);
      assert data[..n][..n - 1] == data[..n - 1];
    }
  }

  lemma HexSnoc(h: Bytes, n: nat, d: nat)
    requires d < 16 && HexNumber(h) == Some(n)
    ensures HexNumber(h + [HexDigit(d)]) == Some(n * 16 + d)
  {
    var s := h + [HexDigit(d)];
    assert s[..|s| - 1] == h;
    OrSums(n, d);
  }

  function Power16(k: nat): nat { if k == 0 then 1 else 16 * Power16(k - 1) }

  lemma {:induction false} DigitsRoundTrip(n: nat, k: nat)
    requires n < Power16(k)
    ensures HexNumber(Digits(n, k)) == Some(n)
    decreases k
  {
    if k > 0 {
      DigitsRoundTrip(n / 16, k - 1);
      HexSnoc(Digits(n / 16, k - 1), n / 16, n % 16);
    }
  }

  /** Reading a header gives back the size it was made from. */
  lemma HeaderRoundTrip(sz: nat)
    requires sz <= MAX_SIZE
    ensures HexNumber(Header(sz)) == Some(sz)
  {
    assert Power16(2) == 256;
    assert Power16(4) == 65536;
    DigitsRoundTrip(sz, PREFIX);
  }

  lemma HexDigitOf(c: Byte)
    requires HexValue(c).Some? && c != 0
    ensures HexValue(c).value < 16 && HexDigit(HexValue(c).value) == c
  {
  }

  /** Without zero bytes, hex digits are those of the number they spell. */
  lemma {:induction false} DigitsOfNumber(h: Bytes, n: nat)
    requires HexNumber(h) == Some(n) && 0 !in h
    ensures h == Digits(n, |h|)
  {
    if h != [] {
      var k := |h| - 1;
      var high, low := HexNumber(h[..k]).value, HexValue(h[k]).value;
      HexDigitOf(h[k]);
      OrSums(high, low);
      Quotient(high, low);
      DigitsOfNumber(h[..k], high);
      FrontAndLast(h);
    }
  }

  lemma Quotient(high: nat, low: nat)
    requires low < 16
    ensures (high * 16 + low) / 16 == high && (high * 16 + low) % 16 == low
  {
  }

  lemma {:induction false} DigitsNotZero(n: nat, k: nat)
    ensures 0 !in Digits(n, k)
    decreases k
  {
    if k > 0 { DigitsNotZero(n / 16, k - 1); }
  }

  /** A header that reads as a size is the one written for it exactly when it holds no zero byte. */
  lemma HeaderExactly(h: Bytes, sz: nat)
    requires |h| == PREFIX && sz <= MAX_SIZE && HexNumber(h) == Some(sz)
    ensures h == Header(sz) <==> 0 !in h
  {
    DigitsNotZero(sz, PREFIX);
    if 0 !in h { DigitsOfNumber(h, sz); }
  }

  /** "000" and a zero byte read as sixteen, which is written "0010". */
  lemma ZeroByteReads()
    ensures HexNumber([48, 48, 48, 0]) == Some(16) && Header(16) != [48, 48, 48, 0]
  {
    var h: Bytes := [48, 48, 48, 0];
    assert h[..3] == [48, 48, 48] && h[..3][..2] == [48, 48] && h[..3][..2][..1] == [48];
    assert HexNumber([]) == Some(0);
    OrZero(0);
    assert HexNumber(h[..3][..2][..1]) == Some(0);
    assert HexNumber(h[..3][..2]) == Some(0);
    assert HexNumber(h[..3]) == Some(0);
    assert BitOr(0, 16) == 16 by { assert BitOr(0, 4) == 4; }
    DigitsNotZero(16, PREFIX);
    assert h[3] == 0;
  }

  lemma TwoDigits(n: nat)
    ensures Digits(n, 2) == [HexDigit(n / 16 % 16), HexDigit(n % 16)]
  {
    assert Digits(n / 16, 1) == Digits(n / 16 / 16, 0) + [HexDigit(n / 16 % 16)];
  }

  // "0123456789abcdef"
  const HEX: Bytes := [48, 49, 50, 51, 52, 53, 54, 55, 56, 57, 97, 98, 99, 100, 101, 102]

  lemma HexIs(d: nat)
    requires d < 16
    ensures HexDigit(d) == HEX[d]
  {
    if d < 8 { assert HEX[d] == HEX[..8][d]; } else { assert HEX[d] == HEX[8..][d - 8]; }
  }

  lemma HeaderShifts(sz: nat)
    requires sz <= MAX_SIZE
    ensures Header(sz) ==
            [HexDigit(sz / 4096 % 16), HexDigit(sz / 256 % 16), HexDigit(sz / 16 % 16), HexDigit(sz % 16)]
  {
    TwoDigits(sz / 256);
    Shifts(sz);
    assert Digits(sz / 16, 3) == Digits(sz / 256, 2) + [HexDigit(sz / 16 % 16)];
  }

  /** The digits are those of the size shifted down by twelve, eight, four and no bits. */
  lemma HeaderDigits(sz: nat)
    requires sz <= MAX_SIZE
    ensures Header(sz) == [HEX[sz / 4096 % 16], HEX[sz / 256 % 16], HEX[sz / 16 % 16], HEX[sz % 16]]
  {
    HeaderShifts(sz);
    HexIs(sz / 4096 % 16);
    HexIs(sz / 256 % 16);
    HexIs(sz / 16 % 16);
    HexIs(sz % 16);
  }

  lemma Shifts(n: nat)
    ensures n / 16 / 16 == n / 256 && n / 256 / 16 == n / 4096
  {
  }

  // ------------------------------------------------------------------- key, value

  datatype KeyValue = KeyValue(key: Bytes, val: Bytes)

  /** create_kv_packet. */
  function Kv(key: Bytes, val: Bytes): (p: Bytes)
    requires PREFIX + 2 + |key| + |val| <= MAX_SIZE
    ensures |p| == PREFIX + 2 + |key| + |val|
  {
    Header(PREFIX + 2 + |key| + |val|) + key + [SPACE] + val + [NEWLINE]
  }

  /** The bytes before the first space, if there is one. */
  function BeforeSpace(s: Bytes): (r: Option<Bytes>)
    ensures r.Some? ==> |r.value| < |s| && r.value == s[..|r.value|] && s[|r.value|] == SPACE
    ensures r.Some? ==> SPACE !in r.value
    ensures r.None? <==> SPACE !in s
  {
    if s == [] then None
    else if s[0] == SPACE then Some([])
    else
      var rest := BeforeSpace(s[1..]);
      if rest.None? then None else Some([s[0]] + rest.value)
  }

  /** parse_kv_packet. */
  function ParseKv(p: Bytes): Option<KeyValue> {
    if |p| > MAX_SIZE || |p| < PREFIX + 2 || p[..PREFIX] != Header(|p|) || p[|p| - 1] != NEWLINE then None
    else
      var key := BeforeSpace(p[PREFIX..]);
      if key.None? then None
      else Some(KeyValue(key.value, p[PREFIX + |key.value| + 1..|p| - 1]))
  }

  lemma {:induction false} BeforeSpaceOf(k: Bytes, rest: Bytes)
    requires SPACE !in k
    ensures BeforeSpace(k + [SPACE] + rest) == Some(k)
  {
    if k != [] {
      var s := k + [SPACE] + rest;
      assert s[1..] == k[1..] + [SPACE] + rest;
      BeforeSpaceOf(k[1..], rest);
      assert [k[0]] + k[1..] == k;
    }
  }

  /** The pieces of a packet. */
  lemma KvPieces(p: Bytes, h: Bytes, k: Bytes, v: Bytes)
    requires |h| == PREFIX && p == h + k + [SPACE] + v + [NEWLINE]
    ensures |p| == PREFIX + 2 + |k| + |v| && p[..PREFIX] == h && p[|p| - 1] == NEWLINE
    ensures p[PREFIX..] == k + [SPACE] + (v + [NEWLINE])
    ensures p[PREFIX + |k| + 1..|p| - 1] == v
  {
  }

  lemma KeyOfKv(p: Bytes, h: Bytes, k: Bytes, v: Bytes)
    requires |h| == PREFIX && p == h + k + [SPACE] + v + [NEWLINE] && SPACE !in k
    ensures BeforeSpace(p[PREFIX..]) == Some(k)
  {
    KvPieces(p, h, k, v);
    BeforeSpaceOf(k, v + [NEWLINE]);
  }

  lemma ParsesAs(p: Bytes, h: Bytes, k: Bytes, v: Bytes)
    requires |h| == PREFIX && p == h + k + [SPACE] + v + [NEWLINE] && SPACE !in k
    requires |p| <= MAX_SIZE && h == Header(|p|)
    ensures ParseKv(p) == Some(KeyValue(k, v))
  {
    KvPieces(p, h, k, v);
    KeyOfKv(p, h, k, v);
  }

  lemma KvParses(k: Bytes, v: Bytes)
    requires PREFIX + 2 + |k| + |v| <= MAX_SIZE && SPACE !in k
    ensures ParseKv(Kv(k, v)) == Some(KeyValue(k, v))
  {
    ParsesAs(Kv(k, v), Header(PREFIX + 2 + |k| + |v|), k, v);
  }

  lemma Tail(p: Bytes, a: nat, k: nat)
    requires a + k < |p|
    ensures p[a..][..k] == p[a..a + k] && p[a..][k] == p[a + k]
  {
  }

  lemma Pieces(p: Bytes, a: nat, b: nat)
    requires a <= b && b + 1 < |p|
    ensures p == p[..a] + p[a..b] + [p[b]] + p[b + 1..|p| - 1] + [p[|p| - 1]]
  {
  }

  lemma KvOfPieces(p: Bytes, b: nat)
    requires PREFIX <= b && b + 1 < |p| <= MAX_SIZE
    requires p[..PREFIX] == Header(|p|) && p[b] == SPACE && p[|p| - 1] == NEWLINE
    ensures p == Kv(p[PREFIX..b], p[b + 1..|p| - 1])
  {
    Pieces(p, PREFIX, b);
  }

  lemma ParsedIsKv(p: Bytes)
    requires ParseKv(p).Some?
    ensures |p| <= MAX_SIZE
    ensures var kv := ParseKv(p).value;
            SPACE !in kv.key && PREFIX + 2 + |kv.key| + |kv.val| == |p| && p == Kv(kv.key, kv.val)
  {
    var k := |BeforeSpace(p[PREFIX..]).value|;
    Tail(p, PREFIX, k);
    KvOfPieces(p, PREFIX + k);
  }

  lemma IsKv(p: Bytes, k: Bytes, v: Bytes)
    ensures PREFIX + 2 + |k| + |v| <= MAX_SIZE && p == Kv(k, v) <==>
            |p| == PREFIX + 2 + |k| + |v| <= MAX_SIZE && p == Header(|p|) + k + [SPACE] + v + [NEWLINE]
  {
  }

  /** A packet parses to a key and a value exactly when it is header, key, space, value and newline. */
  lemma KvExactly(p: Bytes, k: Bytes, v: Bytes)
    ensures ParseKv(p) == Some(KeyValue(k, v)) <==>
            SPACE !in k && |p| == PREFIX + 2 + |k| + |v| <= MAX_SIZE &&
            p == Header(|p|) + k + [SPACE] + v + [NEWLINE]
  {
    IsKv(p, k, v);
    if ParseKv(p) == Some(KeyValue(k, v)) {
      ParsedIsKv(p);
    } else if SPACE !in k && PREFIX + 2 + |k| + |v| <= MAX_SIZE {
      KvParses(k, v);
    }
  }

  /** A packet is found again at the front of whatever follows it. */
  lemma KvAtFront(k: Bytes, v: Bytes, rest: Bytes)
    requires PREFIX + 2 + |k| + |v| <= MAX_SIZE
    ensures var p := Kv(k, v);
            ParsePacket(p + rest) == Some(|p|) && (p + rest)[..|p|] == p && (p + rest)[|p|..] == rest
  {
    var p := Kv(k, v);
    assert (p + rest)[..PREFIX] == Header(|p|);
    HeaderRoundTrip(|p|);
  }

  /** The value of a packet with the expected key. */
  function Field(key: Bytes, p: Bytes): Option<Bytes> {
    var kv := ParseKv(p);
    if kv.None? || kv.value.key != key then None else Some(kv.value.val)
  }
}
