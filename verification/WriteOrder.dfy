/** When the order of positional writes matters. */
module WriteOrder {
  import opened FlatFile

  predicate Covers(c: Chunk, p: nat) { c.offset <= p < c.offset + |c.data| }

  /** No byte is written by both. */
  predicate Apart(a: Chunk, b: Chunk) {
    a.data == [] || b.data == [] || a.offset + |a.data| <= b.offset || b.offset + |b.data| <= a.offset
  }

  predicate ApartFrom(c: Chunk, cs: seq<Chunk>) { forall a :: a in cs ==> Apart(a, c) }

  predicate AllApart(cs: seq<Chunk>, ds: seq<Chunk>) { forall d :: d in ds ==> ApartFrom(d, cs) }

  lemma Commute(f: Bytes, a: Chunk, b: Chunk)
    requires Apart(a, b)
    ensures Apply(Apply(f, a), b) == Apply(Apply(f, b), a)
  {
    var l, r := Apply(Apply(f, a), b), Apply(Apply(f, b), a);
    assert |l| == |r|;
    forall i | 0 <= i < |l| ensures l[i] == r[i] {}
  }

  /** A write that overlaps none of those before it may as well come first. */
  lemma {:induction false} ComesFirst(f: Bytes, cs: seq<Chunk>, c: Chunk)
    requires ApartFrom(c, cs)
    ensures ApplyAll(f, cs + [c]) == ApplyAll(Apply(f, c), cs)
    decreases cs
  {
    if cs == [] {
      assert [c][1..] == [];
    } else {
      assert (cs + [c])[1..] == cs[1..] + [c];
      ComesFirst(Apply(f, cs[0]), cs[1..], c);
      Commute(f, cs[0], c);
    }
  }

  lemma MovedForward(f: Bytes, cs: seq<Chunk>, c: Chunk, tail: seq<Chunk>)
    requires ApartFrom(c, cs)
    ensures ApplyAll(f, cs + ([c] + tail)) == ApplyAll(Apply(f, c), cs + tail)
  {
    ComesFirst(f, cs, c);
    Regroup(cs, [c], tail);
    ApplyAllConcat(f, cs + [c], tail);
    ApplyAllConcat(Apply(f, c), cs, tail);
  }

  lemma MovedForwardBefore(f: Bytes, cs: seq<Chunk>, c: Chunk, rest: seq<Chunk>, last: seq<Chunk>)
    requires ApartFrom(c, cs)
    ensures ApplyAll(f, cs + ([c] + rest) + last) == ApplyAll(Apply(f, c), cs + rest + last)
  {
    Regroup(cs, [c] + rest, last);
    Regroup([c], rest, last);
    Regroup(cs, rest, last);
    MovedForward(f, cs, c, rest + last);
  }

  // -------------------------------------------------------------------- interleavings

  /** m takes from cs and ds, each in its own order. */
  predicate Merges(cs: seq<Chunk>, ds: seq<Chunk>, m: seq<Chunk>)
    decreases m
  {
    if m == [] then cs == [] && ds == []
    else
      || (cs != [] && m[0] == cs[0] && Merges(cs[1..], ds, m[1..]))
      || (ds != [] && m[0] == ds[0] && Merges(cs, ds[1..], m[1..]))
  }

  lemma {:induction false} MergesAfter(cs: seq<Chunk>, ds: seq<Chunk>)
    ensures Merges(cs, ds, ds + cs)
    decreases |cs| + |ds|
  {
    if ds != [] {
      assert (ds + cs)[1..] == ds[1..] + cs;
      MergesAfter(cs, ds[1..]);
    } else if cs != [] {
      assert ds + cs == cs && [] + cs[1..] == cs[1..];
      MergesAfter(cs[1..], ds);
    }
  }

  /** When nothing overlaps, every interleaving leaves the same file. */
  lemma {:induction false} MergeIsConcat(f: Bytes, cs: seq<Chunk>, ds: seq<Chunk>, m: seq<Chunk>)
    requires AllApart(cs, ds) && Merges(cs, ds, m)
    ensures ApplyAll(f, m) == ApplyAll(f, cs + ds)
    decreases m
  {
    if m == [] {
      assert cs + ds == [];
    } else if cs != [] && m[0] == cs[0] && Merges(cs[1..], ds, m[1..]) {
      assert (cs + ds)[1..] == cs[1..] + ds;
      MergeIsConcat(Apply(f, m[0]), cs[1..], ds, m[1..]);
    } else {
      MergeIsConcat(Apply(f, m[0]), cs, ds[1..], m[1..]);
      TakenFirst(f, cs, ds);
    }
  }

  lemma TakenFirst(f: Bytes, cs: seq<Chunk>, ds: seq<Chunk>)
    requires ds != [] && AllApart(cs, ds)
    ensures ApplyAll(Apply(f, ds[0]), cs + ds[1..]) == ApplyAll(f, cs + ds)
  {
    assert [ds[0]] + ds[1..] == ds;
    MovedForward(f, cs, ds[0], ds[1..]);
  }

  // ----------------------------------------------------------------------- exactness

  /** Writes to the same places, of other bytes perhaps. */
  predicate SameRanges(cs: seq<Chunk>, other: seq<Chunk>) {
    |cs| == |other| &&
    forall i :: 0 <= i < |cs| ==> other[i].offset == cs[i].offset && |other[i].data| == |cs[i].data|
  }

  predicate LeavesTheSame(f: Bytes, cs: seq<Chunk>, ds: seq<Chunk>, m: seq<Chunk>) {
    Merges(cs, ds, m) ==> ApplyAll(f, m) == ApplyAll(f, cs + ds)
  }

  /** Whatever bytes are written there, and whatever the file, every interleaving leaves the same. */
  ghost predicate OrderIsIrrelevant(cs: seq<Chunk>, ds: seq<Chunk>) {
    forall f: Bytes, us: seq<Chunk>, vs: seq<Chunk>, m: seq<Chunk> ::
      SameRanges(cs, us) && SameRanges(ds, vs) ==> LeavesTheSame(f, us, vs, m)
  }

  predicate AllBytes(cs: seq<Chunk>, b: Byte) {
    forall c :: c in cs ==> forall j :: 0 <= j < |c.data| ==> c.data[j] == b
  }

  predicate CoversAny(cs: seq<Chunk>, p: nat) { exists c :: c in cs && Covers(c, p) }

  function Painted(cs: seq<Chunk>, b: Byte): (r: seq<Chunk>)
    ensures SameRanges(cs, r) && AllBytes(r, b)
  {
    seq(|cs|, i requires 0 <= i < |cs| => Chunk(cs[i].offset, seq(|cs[i].data|, _ => b)))
  }

  lemma CoversSame(cs: seq<Chunk>, other: seq<Chunk>, p: nat)
    requires SameRanges(cs, other)
    ensures CoversAny(cs, p) ==> CoversAny(other, p)
  {
    if c :| c in cs && Covers(c, p) {
      var i :| 0 <= i < |cs| && cs[i] == c;
      assert other[i] in other && Covers(other[i], p);
    }
  }

  /** Painting over a position shows. */
  lemma {:induction false} PaintShows(f: Bytes, cs: seq<Chunk>, b: Byte, p: nat)
    requires AllBytes(cs, b) && ((p < |f| && f[p] == b) || CoversAny(cs, p))
    ensures p < |ApplyAll(f, cs)| && ApplyAll(f, cs)[p] == b
    decreases cs
  {
    if cs != [] {
      assert cs[0] in cs;
      if CoversAny(cs, p) && !Covers(cs[0], p) {
        var c :| c in cs && Covers(c, p);
        assert c in cs[1..];
      }
      PaintShows(Apply(f, cs[0]), cs[1..], b, p);
    }
  }

  /** ... and writes elsewhere leave it alone. */
  lemma {:induction false} PaintStays(f: Bytes, cs: seq<Chunk>, p: nat)
    requires !CoversAny(cs, p) && p < |f|
    ensures p < |ApplyAll(f, cs)| && ApplyAll(f, cs)[p] == f[p]
    decreases cs
  {
    if cs != [] {
      assert cs[0] in cs;
      PaintStays(Apply(f, cs[0]), cs[1..], p);
    }
  }

  lemma OverlapShows(us: seq<Chunk>, vs: seq<Chunk>, p: nat)
    requires AllBytes(us, 0) && AllBytes(vs, 1) && CoversAny(us, p) && CoversAny(vs, p)
    ensures ApplyAll([], vs + us) != ApplyAll([], us + vs)
  {
    ApplyAllConcat([], vs, us);
    ApplyAllConcat([], us, vs);
    PaintShows(ApplyAll([], vs), us, 0, p);
    PaintShows(ApplyAll([], us), vs, 1, p);
  }

  lemma Overlap(cs: seq<Chunk>, ds: seq<Chunk>) returns (p: nat)
    requires !AllApart(cs, ds)
    ensures CoversAny(cs, p) && CoversAny(ds, p)
  {
    var d :| d in ds && !ApartFrom(d, cs);
    var c :| c in cs && !Apart(c, d);
    p := Max(c.offset, d.offset);
    assert Covers(c, p) && Covers(d, p);
  }

  lemma ApartIsEnough(cs: seq<Chunk>, ds: seq<Chunk>, us: seq<Chunk>, vs: seq<Chunk>)
    requires AllApart(cs, ds) && SameRanges(cs, us) && SameRanges(ds, vs)
    ensures AllApart(us, vs)
  {
    forall a, b | a in us && b in vs ensures Apart(a, b) {
      var i :| 0 <= i < |us| && us[i] == a;
      var j :| 0 <= j < |vs| && vs[j] == b;
      assert ds[j] in ds && cs[i] in cs;
    }
  }

  /** The order between two sequences of writes is irrelevant, for all bytes written there, exactly when no
      write of the one overlaps a write of the other. */
  lemma OrderExactly(cs: seq<Chunk>, ds: seq<Chunk>)
    ensures OrderIsIrrelevant(cs, ds) <==> AllApart(cs, ds)
  {
    if AllApart(cs, ds) {
      forall f: Bytes, us: seq<Chunk>, vs: seq<Chunk>, m: seq<Chunk> | SameRanges(cs, us) && SameRanges(ds, vs)
        ensures LeavesTheSame(f, us, vs, m)
      {
        ApartIsEnough(cs, ds, us, vs);
        if Merges(us, vs, m) { MergeIsConcat(f, us, vs, m); }
      }
    } else {
      var p := Overlap(cs, ds);
      CoversSame(cs, Painted(cs, 0), p);
      CoversSame(ds, Painted(ds, 1), p);
      OverlapShows(Painted(cs, 0), Painted(ds, 1), p);
      MergesAfter(Painted(cs, 0), Painted(ds, 1));
      assert !LeavesTheSame([], Painted(cs, 0), Painted(ds, 1), Painted(ds, 1) + Painted(cs, 0));
    }
  }
}
