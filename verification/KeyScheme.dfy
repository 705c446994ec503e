/** How an object id becomes a storage key: six decimal digits of MAX_OBJECT_ID minus the id, so that
    the lexicographically first key of a file belongs to its highest block. The subtraction is done in
    64-bit unsigned arithmetic. */
module KeyScheme {
  import opened Options

  const MAX_OBJECT_ID: nat := 999999
  const MAX_OBJECT_ID_DIGITS: nat := 6
  const TWO64: nat := 0x1_0000_0000_0000_0000

  // ---------------------------------------------------------------- decimal text

  function DigitChar(d: nat): (c: char)
    requires d < 10
    ensures '0' <= c <= '9' && c as int == '0' as int + d
  {
    ('0' as int + d) as char
  }

  function Decimal(n: nat): string {
    if n < 10 then [DigitChar(n)] else Decimal(n / 10) + [DigitChar(n % 10)]
  }

  predicate AllDigits(s: string) { forall i :: 0 <= i < |s| ==> '0' <= s[i] <= '9' }

  function ParseDecimal(s: string): nat
    requires AllDigits(s)
  {
    if s == [] then 0
    else ParseDecimal(s[..|s| - 1]) * 10 + (s[|s| - 1] as int - '0' as int)
  }

  function ZeroChars(n: nat): (z: string)
    ensures |z| == n && forall i :: 0 <= i < n ==> z[i] == '0'
  {
    seq(n, _ => '0')
  }

  /** setfill('0') and setw(6). */
  function Padded(n: nat): string {
    var d := Decimal(n);
    if |d| >= MAX_OBJECT_ID_DIGITS then d else ZeroChars(MAX_OBJECT_ID_DIGITS - |d|) + d
  }

  /** Lexicographic order of keys, as the storage lists them. */
  predicate LexLess(a: string, b: string) {
    b != [] && (a == [] || a[0] < b[0] || (a[0] == b[0] && LexLess(a[1..], b[1..])))
  }

  // ------------------------------------------------------------------------ keys

  /** Leading slashes go, one slash is added; a prefix of slashes alone is refused. */
  function AdjustPrefix(p: string): (r: Option<string>)
    ensures r.Some? ==> |r.value| >= 2 && r.value[0] != '/' && r.value[|r.value| - 1] == '/'
    ensures r.None? <==> forall i :: 0 <= i < |p| ==> p[i] == '/'
  {
    if p == [] then None
    else if p[0] != '/' then Some(p + "/")
    else AdjustPrefix(p[1..])
  }

  /** MAX_OBJECT_ID - x in 64-bit unsigned arithmetic. */
  function Mirror(x: nat): (r: nat)
    ensures x <= MAX_OBJECT_ID ==> r == MAX_OBJECT_ID - x
    ensures r < TWO64
  {
    (MAX_OBJECT_ID - x) % TWO64
  }

  function Suffix(id: nat): string { Padded(Mirror(id)) }

  function GetKey(p: string, id: nat): Option<string> {
    match AdjustPrefix(p)
    case None => None
    case Some(adj) => Some(adj + Suffix(id))
  }

  /** The text after the last slash, or all of it. */
  function AfterLastSlash(key: string): string {
    if key == [] || key[|key| - 1] == '/' then []
    else AfterLastSlash(key[..|key| - 1]) + [key[|key| - 1]]
  }

  /** Keys not ending in a number that fits 64 bits have no object id. */
  function GetObjectId(key: string): Option<nat> {
    var s := AfterLastSlash(key);
    if s == [] || !AllDigits(s) || ParseDecimal(s) >= TWO64 then None
    else Some(Mirror(ParseDecimal(s)))
  }

  // ---------------------------------------------------------------------- lemmas

  lemma {:induction false} DecimalDigits(n: nat)
    ensures AllDigits(Decimal(n)) && |Decimal(n)| > 0
    ensures ParseDecimal(Decimal(n)) == n
    ensures n > 0 ==> Decimal(n)[0] > '0'
  {
    if n >= 10 {
      DecimalDigits(n / 10);
      assert Decimal(n)[..|Decimal(n)| - 1] == Decimal(n / 10);
    }
  }

  lemma {:induction false} DecimalLength(n: nat, k: nat, pow: nat)
    requires k >= 1 && n < pow && pow == Ten(k)
    ensures |Decimal(n)| <= k
  {
    if n >= 10 {
      DecimalLength(n / 10, k - 1, Ten(k - 1));
    }
  }

  function Ten(k: nat): nat { if k == 0 then 1 else 10 * Ten(k - 1) }

  lemma {:induction false} ParseAfterZeros(z: string, s: string)
    requires (forall i :: 0 <= i < |z| ==> z[i] == '0') && AllDigits(s)
    ensures AllDigits(z + s) && ParseDecimal(z + s) == ParseDecimal(s)
  {
    if s != [] {
      ParseAfterZeros(z, s[..|s| - 1]);
      assert (z + s)[..|z + s| - 1] == z + s[..|s| - 1];
    } else if z != [] {
      ParseAfterZeros(z[..|z| - 1], s);
      assert (z + s)[..|z + s| - 1] == z[..|z| - 1] + s;
    }
  }

  lemma PaddedDigits(n: nat)
    ensures AllDigits(Padded(n)) && |Padded(n)| >= 6
    ensures ParseDecimal(Padded(n)) == n
    ensures n <= MAX_OBJECT_ID ==> |Padded(n)| == 6
  {
    DecimalDigits(n);
    if |Decimal(n)| < 6 {
      ParseAfterZeros(ZeroChars(6 - |Decimal(n)|), Decimal(n));
    }
    if n <= MAX_OBJECT_ID {
      assert Ten(6) == 10 * (10 * (10 * (10 * (10 * (10 * Ten(0))))));
      DecimalLength(n, 6, 1000000);
    }
  }

  lemma MirrorTwice(x: nat)
    requires x < TWO64
    ensures Mirror(Mirror(x)) == x
  {
    if x > MAX_OBJECT_ID {
      assert Mirror(x) == MAX_OBJECT_ID - x + TWO64;
    }
  }

  lemma {:induction false} AfterSlashOf(a: string, s: string)
    requires a != [] && a[|a| - 1] == '/' && AllDigits(s)
    ensures AfterLastSlash(a + s) == s
  {
    if s == [] {
      assert a + s == a;
    } else {
      AfterSlashOf(a, s[..|s| - 1]);
      assert (a + s)[..|a + s| - 1] == a + s[..|s| - 1];
      assert s == s[..|s| - 1] + [s[|s| - 1]];
    }
  }

  /** The id comes back out of its key, for every 64-bit id. */
  lemma KeyRoundTrip(p: string, id: nat)
    requires AdjustPrefix(p).Some? && id < TWO64
    ensures GetObjectId(GetKey(p, id).value) == Some(id)
  {
    PaddedDigits(Mirror(id));
    MirrorTwice(id);
    AfterSlashOf(AdjustPrefix(p).value, Suffix(id));
  }

  /** r is the path p from its first character that is no slash on. */
  predicate IsTrimmed(p: string, r: string) {
    && |r| <= |p| && p[|p| - |r|..] == r && (r != [] ==> r[0] != '/')
    && forall i :: 0 <= i < |p| - |r| ==> p[i] == '/'
  }

  function Trimmed(p: string): (r: string)
    ensures IsTrimmed(p, r)
  {
    if p == [] || p[0] != '/' then p else Trimmed(p[1..])
  }

  lemma OneTrimming(p: string, r: string)
    requires IsTrimmed(p, r)
    ensures r == Trimmed(p)
  {
    var t := Trimmed(p);
    assert (r != [] ==> p[|p| - |r|] == r[0]) && (t != [] ==> p[|p| - |t|] == t[0]);
  }

  /** Everything from the first character on that is no slash is kept, and a slash put behind it. */
  lemma {:induction false} AdjustedExactly(p: string)
    ensures AdjustPrefix(p) == if Trimmed(p) == [] then None else Some(Trimmed(p) + "/")
    decreases p
  {
    if p != [] && p[0] == '/' { AdjustedExactly(p[1..]); }
  }

  /** Two paths name the same file exactly when they agree behind their leading slashes. */
  lemma SameFileExactly(p: string, q: string)
    ensures AdjustPrefix(p) == AdjustPrefix(q) <==> Trimmed(p) == Trimmed(q)
  {
    AdjustedExactly(p);
    AdjustedExactly(q);
    var a, b := Trimmed(p), Trimmed(q);
    if a + "/" == b + "/" { assert a == (a + "/")[..|a|] == (b + "/")[..|b|] == b; }
  }

  lemma EqualKeys(p: string, i: nat, q: string, j: nat)
    requires AdjustPrefix(p).Some? && AdjustPrefix(q).Some? && i < TWO64 && j < TWO64
    requires GetKey(p, i) == GetKey(q, j)
    ensures AdjustPrefix(p) == AdjustPrefix(q) && i == j
  {
    KeyRoundTrip(p, i);
    KeyRoundTrip(q, j);
    var key, a, b := GetKey(p, i).value, AdjustPrefix(p).value, AdjustPrefix(q).value;
    assert a == key[..|key| - |Suffix(i)|] == b;
  }

  /** Keys are equal exactly for the same block of the same file. */
  lemma KeyInjective(p: string, i: nat, q: string, j: nat)
    requires Trimmed(p) != [] && i < TWO64 && j < TWO64
    ensures GetKey(p, i) == GetKey(q, j) <==> Trimmed(p) == Trimmed(q) && i == j
  {
    SameFileExactly(p, q);
    AdjustedExactly(p);
    AdjustedExactly(q);
    if GetKey(p, i) == GetKey(q, j) { EqualKeys(p, i, q, j); }
  }

  // ----------------------------------------------------------------------- order

  lemma {:induction false} LexCommonPrefix(p: string, a: string, b: string)
    ensures LexLess(p + a, p + b) == LexLess(a, b)
  {
    if p == [] {
      assert p + a == a && p + b == b;
    } else {
      assert (p + a)[1..] == p[1..] + a && (p + b)[1..] == p[1..] + b;
      LexCommonPrefix(p[1..], a, b);
    }
  }

  lemma {:induction false} LexSnoc(a: string, b: string, x: char, y: char)
    requires |a| == |b|
    ensures LexLess(a + [x], b + [y]) <==> LexLess(a, b) || (a == b && x < y)
  {
    if a == [] {
      assert (a + [x])[1..] == [] && (b + [y])[1..] == [];
    } else {
      assert (a + [x])[1..] == a[1..] + [x] && (b + [y])[1..] == b[1..] + [y];
      LexSnoc(a[1..], b[1..], x, y);
      assert a == b <==> a[0] == b[0] && a[1..] == b[1..];
    }
  }

  /** Numbers of equal width sort as their values. */
  lemma {:induction false} LexIsNumeric(a: string, b: string)
    requires |a| == |b| && AllDigits(a) && AllDigits(b)
    ensures LexLess(a, b) <==> ParseDecimal(a) < ParseDecimal(b)
    ensures ParseDecimal(a) == ParseDecimal(b) ==> a == b
  {
    if a != [] {
      var n := |a| - 1;
      assert a == a[..n] + [a[n]] && b == b[..n] + [b[n]];
      LexIsNumeric(a[..n], b[..n]);
      LexSnoc(a[..n], b[..n], a[n], b[n]);
    }
  }

  /** Within the six digits, a later block has a lexicographically smaller key. */
  lemma KeysDecrease(adj: string, i: nat, j: nat)
    requires i <= MAX_OBJECT_ID && j <= MAX_OBJECT_ID
    ensures LexLess(adj + Suffix(j), adj + Suffix(i)) <==> i < j
  {
    PaddedDigits(Mirror(i));
    PaddedDigits(Mirror(j));
    LexCommonPrefix(adj, Suffix(j), Suffix(i));
    LexIsNumeric(Suffix(j), Suffix(i));
  }

  ghost predicate OrderedUpTo(adj: string, n: nat) {
    forall i, j :: 0 <= i < j <= n ==> LexLess(adj + Suffix(j), adj + Suffix(i))
  }

  /** The order holds for all ids up to n exactly when n is at most MAX_OBJECT_ID: one id further the
      subtraction wraps and the new key sorts behind block 999999. */
  lemma OrderExactlyUpToMax(adj: string, n: nat)
    requires n < TWO64
    ensures OrderedUpTo(adj, n) <==> n <= MAX_OBJECT_ID
  {
    if n <= MAX_OBJECT_ID {
      forall i, j | 0 <= i < j <= n ensures LexLess(adj + Suffix(j), adj + Suffix(i)) {
        KeysDecrease(adj, i, j);
      }
    } else {
      var i, j := MAX_OBJECT_ID, MAX_OBJECT_ID + 1;
      assert Mirror(j) == TWO64 - 1;
      DecimalDigits(TWO64 - 1);
      assert Suffix(j)[0] > '0' by { PaddedDigits(TWO64 - 1); LongDecimal(TWO64 - 1); }
      assert Mirror(i) == 0 && Suffix(i)[0] == '0';
      LexCommonPrefix(adj, Suffix(j), Suffix(i));
      assert !LexLess(adj + Suffix(j), adj + Suffix(i));
    }
  }

  lemma LongDecimal(n: nat)
    requires n > MAX_OBJECT_ID
    ensures Padded(n) == Decimal(n)
  {
    DecimalDigits(n);
    if |Decimal(n)| < 6 {
      DigitsBound(Decimal(n));
      assert Ten(5) == 10 * (10 * (10 * (10 * (10 * Ten(0)))));
      TenMono(|Decimal(n)|, 5);
    }
  }

  lemma {:induction false} DigitsBound(s: string)
    requires AllDigits(s)
    ensures ParseDecimal(s) < Ten(|s|)
  {
    if s != [] {
      DigitsBound(s[..|s| - 1]);
    }
  }

  lemma {:induction false} TenMono(a: nat, b: nat)
    requires a <= b
    ensures Ten(a) <= Ten(b)
  {
    if a < b { TenMono(a, b - 1); }
  }
}
