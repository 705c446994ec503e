/** Plain POSIX-style files: a finite byte sequence with positional write, truncate and read.
    Every storage stack of the client is compared with this reference. */
module FlatFile {
  type Byte = x: int | 0 <= x < 256
  type Bytes = seq<Byte>

  /** One positional write. */
  datatype Chunk = Chunk(offset: nat, data: Bytes)

  function Min(a: int, b: int): int { if a <= b then a else b }

  function Max(a: int, b: int): int { if a <= b then b else a }

  function Zeros(n: nat): (z: Bytes)
    ensures |z| == n && forall i :: 0 <= i < n ==> z[i] == 0
  {
    seq(n, _ => 0)
  }

  function ZeroExtend(f: Bytes, n: nat): (g: Bytes)
    ensures |g| == Max(|f|, n) && f <= g
    ensures forall i :: |f| <= i < |g| ==> g[i] == 0
  {
    if n <= |f| then f else f + Zeros(n - |f|)
  }

  /** A write of no bytes changes nothing; otherwise the gap up to `off` reads as zeros. */
  function Write(f: Bytes, off: nat, d: Bytes): (g: Bytes)
    ensures d == [] ==> g == f
    ensures d != [] ==> |g| == Max(|f|, off + |d|)
    ensures forall i :: 0 <= i < |g| ==> g[i] == WrittenAt(f, off, d, i)
  {
    if d == [] then f else seq(Max(|f|, off + |d|), (i: nat) => WrittenAt(f, off, d, i))
  }

  /** The byte a write leaves at position i. */
  function WrittenAt(f: Bytes, off: nat, d: Bytes, i: nat): Byte {
    if off <= i < off + |d| then d[i - off] else if i < |f| then f[i] else 0
  }

  function Truncate(f: Bytes, n: nat): (g: Bytes)
    ensures |g| == n
    ensures forall i :: 0 <= i < n ==> g[i] == if i < |f| then f[i] else 0
  {
    if n <= |f| then f[..n] else ZeroExtend(f, n)
  }

  /** The at most n bytes stored at `off`. */
  function Read(f: Bytes, off: nat, n: nat): (r: Bytes)
    ensures off >= |f| ==> r == []
    ensures off < |f| ==> |r| == Min(n, |f| - off) && r == f[off..off + |r|]
  {
    if off >= |f| then [] else f[off..off + Min(n, |f| - off)]
  }

  function Apply(f: Bytes, c: Chunk): Bytes { Write(f, c.offset, c.data) }

  function ApplyAll(f: Bytes, cs: seq<Chunk>): Bytes
    decreases cs
  {
    if cs == [] then f else ApplyAll(Apply(f, cs[0]), cs[1..])
  }

  function Total(cs: seq<Chunk>): nat {
    if cs == [] then 0 else |cs[0].data| + Total(cs[1..])
  }

  /** Two back-to-back writes are one longer write. */
  lemma WriteConcat(f: Bytes, off: nat, a: Bytes, b: Bytes)
    ensures Write(Write(f, off, a), off + |a|, b) == Write(f, off, a + b)
  {
    if a == [] {
      assert a + b == b;
    } else if b == [] {
      assert a + b == a;
    } else {
      var l, r := Write(Write(f, off, a), off + |a|, b), Write(f, off, a + b);
      assert forall i :: 0 <= i < |r| ==> l[i] == r[i];
    }
  }

  /** A write is the write of its first n bytes, then of the others behind them. */
  lemma WriteSplit(f: Bytes, off: nat, d: Bytes, n: nat, mid: nat)
    requires n <= |d| && mid == off + n
    ensures Write(Write(f, off, d[..n]), mid, d[n..]) == Write(f, off, d)
  {
    TakeDrop(d, n);
    WriteConcat(f, off, d[..n], d[n..]);
  }

  lemma TakeDrop<T>(s: seq<T>, n: nat)
    requires n <= |s|
    ensures s[..n] + s[n..] == s
  {
  }

  lemma Regroup<T>(a: seq<T>, b: seq<T>, c: seq<T>)
    ensures a + (b + c) == a + b + c
  {
  }

  lemma FrontAndLast<T>(s: seq<T>)
    requires s != []
    ensures s[..|s| - 1] + [s[|s| - 1]] == s
  {
  }

  lemma WholeSlice(d: Bytes, n: nat)
    requires n == |d|
    ensures d[..n] == d && d[n..] == []
  {
  }

  lemma {:induction false} ApplyAllConcat(f: Bytes, a: seq<Chunk>, b: seq<Chunk>)
    ensures ApplyAll(f, a + b) == ApplyAll(ApplyAll(f, a), b)
    decreases a
  {
    if a == [] {
      assert a + b == b;
    } else {
      assert (a + b)[1..] == a[1..] + b;
      ApplyAllConcat(Apply(f, a[0]), a[1..], b);
    }
  }

  lemma {:induction false} TotalConcat(a: seq<Chunk>, b: seq<Chunk>)
    ensures Total(a + b) == Total(a) + Total(b)
  {
    if a == [] {
      assert a + b == b;
    } else {
      assert (a + b)[1..] == a[1..] + b;
      TotalConcat(a[1..], b);
    }
  }

  /** Chunks without bytes do nothing. */
  lemma {:induction false} ApplyNothing(f: Bytes, cs: seq<Chunk>)
    requires Total(cs) == 0
    ensures ApplyAll(f, cs) == f
  {
    if cs != [] {
      ApplyNothing(f, cs[1..]);
    }
  }
}
