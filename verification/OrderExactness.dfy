/** Exactly when the order in which outstanding multiwrites are served is irrelevant. */
module OrderExactness {
  import opened FlatFile
  import opened WriteOrder
  import opened BufferModel
  import opened BufferProofs
  import opened BufferOrder

  predicate OnlyApplies(es: seq<Event>) { forall e :: e in es ==> e.StorageApply? }

  predicate Drained(s: State) { forall fl :: fl in s.flights ==> Done(fl) }

  predicate SameFlights(fls: seq<Flight>, other: seq<Flight>) {
    |fls| == |other| &&
    forall i :: 0 <= i < |fls| ==>
      other[i] == fls[i].(chunks := other[i].chunks) && SameRanges(fls[i].chunks, other[i].chunks)
  }

  /** A state with the same writes outstanding, but for their bytes and the file. */
  predicate SameOutstanding(s: State, t: State) {
    t == s.(file := t.file, flights := t.flights) && SameFlights(s.flights, t.flights)
  }

  /** This order of the storage leaves what it should. */
  predicate EndsRight(t: State, es: seq<Event>) {
    Legal(t, es) && OnlyApplies(es) && Drained(Final(t, es)) ==>
      Final(t, es).file == ApplyAll(t.file, Remaining(t.flights))
  }

  /** Whatever bytes are written, in whatever order the storage takes them. */
  ghost predicate OrderIsSafe(s: State) { forall t, es :: SameOutstanding(s, t) ==> EndsRight(t, es) }

  lemma LeftShape(fl: Flight, other: Flight)
    requires other == fl.(chunks := other.chunks) && SameRanges(fl.chunks, other.chunks)
    ensures SameRanges(Left(fl), Left(other))
  {
  }

  lemma SeparateShape(fls: seq<Flight>, other: seq<Flight>)
    requires SameFlights(fls, other) && Separate(fls)
    ensures Separate(other)
  {
    forall i, j | 0 <= i < j < |fls| ensures AllApart(Left(other[i]), Left(other[j])) {
      LeftShape(fls[i], other[i]);
      LeftShape(fls[j], other[j]);
      ApartIsEnough(Left(fls[i]), Left(fls[j]), Left(other[i]), Left(other[j]));
    }
  }

  /** What is outstanding at last leaves the same, whichever multiwrite comes next. */
  lemma {:induction false} AppliesShow(s: State, es: seq<Event>)
    requires Legal(s, es) && OnlyApplies(es) && Separate(s.flights)
    ensures ApplyAll(Final(s, es).file, Remaining(Final(s, es).flights)) == ApplyAll(s.file, Remaining(s.flights))
    decreases es
  {
    if es != [] {
      assert es[0] in es;
      SeparateIsUnhindered(s, es[0].index);
      OvertakesHarmlessly(s, es[0].index);
      SeparateStep(s, es[0]);
      AppliesShow(Next(s, es[0]), es[1..]);
    }
  }

  lemma OvertakesHarmlessly(s: State, i: nat)
    requires CanStep(s, StorageApply(i)) && Unhindered(s, i)
    ensures var t := Next(s, StorageApply(i));
            ApplyAll(t.file, Remaining(t.flights)) == ApplyAll(s.file, Remaining(s.flights))
  {
    var rest := RemainingApply(s.flights, i);
    MovedForward(s.file, Remaining(s.flights[..i]), NextWrite(s, i), rest);
  }

  lemma SeparateEndsRight(t: State, es: seq<Event>)
    requires Separate(t.flights)
    ensures EndsRight(t, es)
  {
    if Legal(t, es) && OnlyApplies(es) && Drained(Final(t, es)) {
      AppliesShow(t, es);
      RemainingOfDone(Final(t, es).flights);
    }
  }

  // ------------------------------------------- and what goes wrong when it is not

  predicate Sane(fls: seq<Flight>) { forall fl :: fl in fls ==> fl.applied <= |fl.chunks| }

  /** All flights from the k-th on, served in order. */
  predicate ServesAll(s: State, k: nat, t: State) {
    && k <= |s.flights| == |t.flights| && t.flights[..k] == s.flights[..k]
    && (forall j :: k <= j < |t.flights| ==> Done(t.flights[j]))
    && t.file == ApplyAll(s.file, Remaining(s.flights[k..]))
  }

  lemma ServedOthers(s: State, k: nat, t: State)
    requires Serves(s, k, t) && Sane(s.flights)
    ensures Sane(t.flights) && t.flights[..k] == s.flights[..k] && t.flights[k + 1..] == s.flights[k + 1..]
    ensures Done(t.flights[k])
  {
    forall fl | fl in t.flights ensures fl.applied <= |fl.chunks| {
      var j :| 0 <= j < |t.flights| && t.flights[j] == fl;
      assert s.flights[j] in s.flights;
    }
  }

  lemma RemainingFrom(fls: seq<Flight>, k: nat)
    requires k < |fls|
    ensures Remaining(fls[k..]) == Left(fls[k]) + Remaining(fls[k + 1..])
  {
    assert fls[k..][1..] == fls[k + 1..];
  }

  lemma ServesOneMore(s: State, k: nat, t: State, u: State)
    requires Serves(s, k, t) && Sane(s.flights) && ServesAll(t, k + 1, u)
    ensures ServesAll(s, k, u)
  {
    ServedOthers(s, k, t);
    RemainingFrom(s.flights, k);
    ApplyAllConcat(s.file, Left(s.flights[k]), Remaining(s.flights[k + 1..]));
    assert u.flights[..k] == u.flights[..k + 1][..k] == t.flights[..k];
    assert u.flights[k] == u.flights[..k + 1][k] == t.flights[k];
  }

  lemma {:induction false} ServeAll(s: State, k: nat) returns (es: seq<Event>)
    requires k <= |s.flights| && Sane(s.flights)
    ensures Legal(s, es) && OnlyApplies(es) && ServesAll(s, k, Final(s, es))
    decreases |s.flights| - k
  {
    if k == |s.flights| {
      es := [];
    } else {
      assert s.flights[k] in s.flights;
      var a := ServeFlight(s, k);
      var t := Final(s, a);
      ServedOthers(s, k, t);
      var b := ServeAll(t, k + 1);
      LegalConcat(s, a, b);
      ServesOneMore(s, k, t, Final(t, b));
      es := a + b;
    }
  }

  /** One multiwrite first, then all others in order. */
  lemma OneFirst(s: State, j: nat) returns (es: seq<Event>)
    requires j < |s.flights| && Sane(s.flights)
    ensures Legal(s, es) && OnlyApplies(es) && Drained(Final(s, es))
    ensures Final(s, es).file
         == ApplyAll(ApplyAll(s.file, Left(s.flights[j])), Remaining(s.flights[j := Finished(s.flights[j])]))
  {
    assert s.flights[j] in s.flights;
    var a := ServeFlight(s, j);
    var t := Final(s, a);
    ServedOthers(s, j, t);
    var b := ServeAll(t, 0);
    LegalConcat(s, a, b);
    assert t.flights[0..] == t.flights;
    es := a + b;
  }

  // ------------------------------------------------------- telling the bytes apart

  /** One multiwrite writes ones, the others zeros. */
  function Marked(fls: seq<Flight>, j: nat): (r: seq<Flight>)
    ensures SameFlights(fls, r)
  {
    seq(|fls|, i requires 0 <= i < |fls| =>
          fls[i].(chunks := Painted(fls[i].chunks, if i == j then 1 else 0)))
  }

  lemma LeftBytes(fl: Flight, b: Byte)
    requires AllBytes(fl.chunks, b)
    ensures AllBytes(Left(fl), b)
  {
  }

  lemma RemainingBytes(fls: seq<Flight>, b: Byte)
    requires forall i :: 0 <= i < |fls| ==> AllBytes(Left(fls[i]), b)
    ensures AllBytes(Remaining(fls), b)
  {
    forall c | c in Remaining(fls) ensures forall j :: 0 <= j < |c.data| ==> c.data[j] == b {
      var i := RemainsOf(fls, c);
    }
  }

  lemma OthersAreZeros(fls: seq<Flight>, j: nat)
    requires j < |fls|
    ensures var p := Marked(fls, j); AllBytes(Remaining(p[j := Finished(p[j])]), 0) && AllBytes(Left(p[j]), 1)
  {
    var p := Marked(fls, j);
    var q := p[j := Finished(p[j])];
    forall i | 0 <= i < |q| ensures AllBytes(Left(q[i]), 0) {
      if i != j { LeftBytes(p[i], 0); }
    }
    RemainingBytes(q, 0);
    LeftBytes(p[j], 1);
  }

  lemma CoveredRemains(fls: seq<Flight>, i: nat, p: nat)
    requires i < |fls| && CoversAny(Left(fls[i]), p)
    ensures CoversAny(Remaining(fls), p)
  {
    var c :| c in Left(fls[i]) && Covers(c, p);
    LeftRemains(fls, i, c);
  }

  lemma UncoveredRemains(fls: seq<Flight>, p: nat)
    requires forall i :: 0 <= i < |fls| ==> !CoversAny(Left(fls[i]), p)
    ensures !CoversAny(Remaining(fls), p)
  {
    if c :| c in Remaining(fls) && Covers(c, p) {
      var i := RemainsOf(fls, c);
    }
  }

  lemma {:induction false} RemainingConcat(a: seq<Flight>, b: seq<Flight>)
    ensures Remaining(a + b) == Remaining(a) + Remaining(b)
  {
    if a == [] {
      assert a + b == b;
    } else {
      assert (a + b)[1..] == a[1..] + b;
      RemainingConcat(a[1..], b);
      Regroup(Left(a[0]), Remaining(a[1..]), Remaining(b));
    }
  }

  lemma RemainingAround(fls: seq<Flight>, j: nat)
    requires j < |fls|
    ensures Remaining(fls) == Remaining(fls[..j]) + (Left(fls[j]) + Remaining(fls[j + 1..]))
  {
    TakeDrop(fls, j);
    RemainingConcat(fls[..j], fls[j..]);
    RemainingFrom(fls, j);
  }

  /** Served in order, the last multiwrite to cover a position has its say there. */
  lemma InOrderShows(fls: seq<Flight>, j: nat, p: nat)
    requires j < |fls| && AllBytes(Left(fls[j]), 1) && CoversAny(Left(fls[j]), p)
    requires forall i :: j < i < |fls| ==> !CoversAny(Left(fls[i]), p)
    ensures var f := ApplyAll([], Remaining(fls)); p < |f| && f[p] == 1
  {
    var a, b, c := Remaining(fls[..j]), Left(fls[j]), Remaining(fls[j + 1..]);
    RemainingAround(fls, j);
    ApplyAllConcat([], a, b + c);
    ApplyAllConcat(ApplyAll([], a), b, c);
    PaintShows(ApplyAll([], a), b, 1, p);
    UncoveredRemains(fls[j + 1..], p);
    PaintStays(ApplyAll(ApplyAll([], a), b), c, p);
  }

  lemma {:induction false} LastToCover(fls: seq<Flight>, p: nat, i: nat) returns (j: nat)
    requires i < |fls| && CoversAny(Left(fls[i]), p)
    ensures i <= j < |fls| && CoversAny(Left(fls[j]), p)
    ensures forall k :: j < k < |fls| ==> !CoversAny(Left(fls[k]), p)
    decreases |fls| - i
  {
    if k :| i < k < |fls| && CoversAny(Left(fls[k]), p) { j := LastToCover(fls, p, k); } else { j := i; }
  }

  lemma MarkedCovers(fls: seq<Flight>, j: nat, i: nat, p: nat)
    requires i < |fls|
    ensures CoversAny(Left(Marked(fls, j)[i]), p) <==> CoversAny(Left(fls[i]), p)
  {
    LeftShape(fls[i], Marked(fls, j)[i]);
    CoversSame(Left(fls[i]), Left(Marked(fls, j)[i]), p);
    CoversSame(Left(Marked(fls, j)[i]), Left(fls[i]), p);
  }

  lemma MarkedSane(fls: seq<Flight>, j: nat)
    requires Sane(fls)
    ensures Sane(Marked(fls, j))
  {
    var p := Marked(fls, j);
    forall fl | fl in p ensures fl.applied <= |fl.chunks| {
      var i :| 0 <= i < |p| && p[i] == fl;
      assert fls[i] in fls;
    }
  }

  /** Served first, it has not. */
  lemma OvertakenShows(fls: seq<Flight>, i: nat, j: nat, p: nat)
    requires i < j < |fls| && CoversAny(Left(fls[i]), p)
    ensures var m := Marked(fls, j);
            var f := ApplyAll(ApplyAll([], Left(m[j])), Remaining(m[j := Finished(m[j])]));
            p < |f| && f[p] == 0
  {
    var m := Marked(fls, j);
    OthersAreZeros(fls, j);
    MarkedCovers(fls, j, i, p);
    CoveredRemains(m[j := Finished(m[j])], i, p);
    PaintShows(ApplyAll([], Left(m[j])), Remaining(m[j := Finished(m[j])]), 0, p);
  }

  lemma MarkedInOrder(fls: seq<Flight>, j: nat, p: nat)
    requires j < |fls| && CoversAny(Left(fls[j]), p)
    requires forall k :: j < k < |fls| ==> !CoversAny(Left(fls[k]), p)
    ensures var f := ApplyAll([], Remaining(Marked(fls, j))); p < |f| && f[p] == 1
  {
    OthersAreZeros(fls, j);
    forall k | j <= k < |fls| ensures CoversAny(Left(Marked(fls, j)[k]), p) <==> CoversAny(Left(fls[k]), p) {
      MarkedCovers(fls, j, k, p);
    }
    InOrderShows(Marked(fls, j), j, p);
  }

  /** Overlapping multiwrites go wrong for some bytes, in some order. */
  lemma CarelessEndsWrong(s: State) returns (t: State, es: seq<Event>)
    requires Sane(s.flights) && !Separate(s.flights)
    ensures SameOutstanding(s, t) && !EndsRight(t, es)
  {
    var i, k :| 0 <= i < k < |s.flights| && !AllApart(Left(s.flights[i]), Left(s.flights[k]));
    var p := Overlap(Left(s.flights[i]), Left(s.flights[k]));
    var j := LastToCover(s.flights, p, k);
    t := s.(file := [], flights := Marked(s.flights, j));
    MarkedSane(s.flights, j);
    es := OneFirst(t, j);
    OvertakenShows(s.flights, i, j, p);
    MarkedInOrder(s.flights, j, p);
  }

  /** The order in which outstanding multiwrites are served is irrelevant, for all bytes they write, exactly when
      no two of them overlap in what they have left. */
  lemma OrderSafeExactly(s: State)
    requires Sane(s.flights)
    ensures OrderIsSafe(s) <==> Separate(s.flights)
  {
    if Separate(s.flights) {
      forall t, es | SameOutstanding(s, t) ensures EndsRight(t, es) {
        SeparateShape(s.flights, t.flights);
        SeparateEndsRight(t, es);
      }
    } else {
      var t, es := CarelessEndsWrong(s);
    }
  }

  lemma SeparateFront(fls: seq<Flight>, fl: Flight)
    requires Separate(fls + [fl])
    ensures Separate(fls) && AllApart(Remaining(fls), Left(fl))
  {
    var all := fls + [fl];
    forall i, j | 0 <= i < j < |fls| ensures AllApart(Left(fls[i]), Left(fls[j])) {
      assert AllApart(Left(all[i]), Left(all[j]));
    }
    forall c, d | c in Remaining(fls) && d in Left(fl) ensures Apart(c, d) {
      var i := RemainsOf(fls, c);
      assert AllApart(Left(all[i]), Left(all[|fls|]));
      assert ApartFrom(d, Left(all[i]));
    }
  }

  lemma SeparateExactly(s: State)
    requires s.bufferedSize > 0
    ensures Separate(Push(s).flights) <==> Separate(s.flights) && AllApart(Remaining(s.flights), s.buffers)
  {
    var fl := Flight(s.buffers, 0, false, s.bufferedSize);
    assert Left(fl) == s.buffers;
    if Separate(Push(s).flights) { SeparateFront(s.flights, fl); }
    if Separate(s.flights) && AllApart(Remaining(s.flights), s.buffers) { SeparateAppend(s.flights, fl); }
  }

  lemma SanePush(s: State)
    requires Sane(s.flights)
    ensures Sane(Push(s).flights)
  {
  }

  lemma SafeExactly(s: State, separate: bool)
    requires Sane(s.flights) && (separate <==> Separate(s.flights))
    ensures OrderIsSafe(s) <==> separate
  {
    OrderSafeExactly(s);
  }

  /** A push keeps the order irrelevant exactly when it is careful. */
  lemma PushExactly(s: State)
    requires Sane(s.flights) && s.bufferedSize > 0
    ensures OrderIsSafe(Push(s)) <==> OrderIsSafe(s) && AllApart(Remaining(s.flights), s.buffers)
  {
    var before, after := Separate(s.flights), Separate(Push(s).flights);
    SeparateExactly(s);
    SanePush(s);
    SafeExactly(s, before);
    SafeExactly(Push(s), after);
  }
}
