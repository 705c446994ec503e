/** Outstanding multiwrites overtake each other: each is a chain of writes of its own. When that is harmless. */
module BufferOrder {
  import opened FlatFile
  import opened WriteOrder
  import opened BufferModel
  import opened BufferProofs
  import opened Multiwrite

  // ----------------------------------------------------------- runs, put together

  lemma {:induction false} LegalConcat(s: State, a: seq<Event>, b: seq<Event>)
    requires Legal(s, a) && Legal(Final(s, a), b)
    ensures Legal(s, a + b) && Final(s, a + b) == Final(Final(s, a), b)
    decreases a
  {
    if a == [] {
      assert a + b == b;
    } else {
      assert (a + b)[1..] == a[1..] + b;
      LegalConcat(Next(s, a[0]), a[1..], b);
    }
  }

  lemma LegalStep(s: State, e: Event, es: seq<Event>)
    requires Enabled(s, e) && Legal(Next(s, e), es)
    ensures Legal(s, [e] + es) && Final(s, [e] + es) == Final(Next(s, e), es)
  {
    assert ([e] + es)[1..] == es;
  }

  // ------------------------------------------------------- a storage that keeps the order

  /** The storage takes nothing of a multiwrite before the earlier ones are done. */
  predicate InIssueOrder(s: State, es: seq<Event>)
    requires Legal(s, es)
    decreases es
  {
    es == [] ||
    ((es[0].StorageApply? ==> forall j :: 0 <= j < es[0].index ==> Done(s.flights[j])) &&
     InIssueOrder(Next(s, es[0]), es[1..]))
  }

  lemma {:induction false} IssueOrderIsHarmless(s: State, es: seq<Event>)
    requires Legal(s, es) && InIssueOrder(s, es)
    ensures Harmless(s, es)
    decreases es
  {
    if es != [] {
      if es[0].StorageApply? { RemainingOfDone(s.flights[..es[0].index]); }
      IssueOrderIsHarmless(Next(s, es[0]), es[1..]);
    }
  }

  // ----------------------------------------------------------------- careful pushes

  /** The buffers this step hands to the storage. */
  function Pushed(s: State, e: Event): seq<Chunk> {
    match e
    case WriteCall(off, d, t) =>
      if Buffered(s, off, d).bufferedSize > t then Buffered(s, off, d).buffers else []
    case FlushCall => if s.bufferedSize > 0 then s.buffers else []
    case SyncCall(_) => if s.bufferedSize > 0 then s.buffers else []
    case ScheduledPush => if s.bufferedSize > 0 then s.buffers else []
    case _ => []
  }

  /** Nothing is pushed that overlaps what an outstanding multiwrite has left. */
  predicate Careful(s: State, es: seq<Event>)
    requires Legal(s, es)
    decreases es
  {
    es == [] || (AllApart(Remaining(s.flights), Pushed(s, es[0])) && Careful(Next(s, es[0]), es[1..]))
  }

  predicate Separate(fls: seq<Flight>) {
    forall i, j :: 0 <= i < j < |fls| ==> AllApart(Left(fls[i]), Left(fls[j]))
  }

  lemma InEither<T>(a: seq<T>, b: seq<T>, x: T)
    ensures x in a + b <==> x in a || x in b
  {
  }

  lemma {:induction false} LeftRemains(fls: seq<Flight>, i: nat, c: Chunk)
    requires i < |fls| && c in Left(fls[i])
    ensures c in Remaining(fls)
  {
    if i > 0 { LeftRemains(fls[1..], i - 1, c); }
    InEither(Left(fls[0]), Remaining(fls[1..]), c);
  }

  lemma {:induction false} RemainsOf(fls: seq<Flight>, c: Chunk) returns (i: nat)
    requires c in Remaining(fls)
    ensures i < |fls| && c in Left(fls[i])
  {
    InEither(Left(fls[0]), Remaining(fls[1..]), c);
    if c in Left(fls[0]) {
      i := 0;
    } else {
      i := RemainsOf(fls[1..], c);
      i := i + 1;
    }
  }

  lemma SeparateIsUnhindered(s: State, i: nat)
    requires Separate(s.flights) && CanStep(s, StorageApply(i))
    ensures Unhindered(s, i)
  {
    var c := NextWrite(s, i);
    assert Left(s.flights[i])[0] == c;
    forall a | a in Remaining(s.flights[..i]) ensures Apart(a, c) {
      var j := RemainsOf(s.flights[..i], a);
      assert AllApart(Left(s.flights[j]), Left(s.flights[i]));
      assert s.flights[..i][j] == s.flights[j] && c in Left(s.flights[i]);
      assert ApartFrom(c, Left(s.flights[j]));
    }
  }

  lemma SeparateAppend(fls: seq<Flight>, fl: Flight)
    requires Separate(fls) && AllApart(Remaining(fls), Left(fl))
    ensures Separate(fls + [fl])
  {
    var all := fls + [fl];
    forall i, j | 0 <= i < j < |all| ensures AllApart(Left(all[i]), Left(all[j])) {
      if j == |fls| { ApartOfRemaining(fls, i, Left(fl)); }
    }
  }

  lemma ApartOfRemaining(fls: seq<Flight>, i: nat, cs: seq<Chunk>)
    requires i < |fls| && AllApart(Remaining(fls), cs)
    ensures AllApart(Left(fls[i]), cs)
  {
    forall c | c in Left(fls[i]) ensures c in Remaining(fls) { LeftRemains(fls, i, c); }
  }

  /** What is left of a multiwrite only shrinks. */
  lemma SeparateUpdate(fls: seq<Flight>, k: nat, fl: Flight)
    requires Separate(fls) && k < |fls| && forall c :: c in Left(fl) ==> c in Left(fls[k])
    ensures Separate(fls[k := fl])
  {
    var all := fls[k := fl];
    forall i, j | 0 <= i < j < |all| ensures AllApart(Left(all[i]), Left(all[j])) {
      assert AllApart(Left(fls[i]), Left(fls[j]));
    }
  }

  lemma SeparateRemove(fls: seq<Flight>, k: nat)
    requires Separate(fls) && k < |fls|
    ensures Separate(fls[..k] + fls[k + 1..])
  {
    var all := fls[..k] + fls[k + 1..];
    forall i, j | 0 <= i < j < |all| ensures AllApart(Left(all[i]), Left(all[j])) {
      assert all[i] == fls[if i < k then i else i + 1] && all[j] == fls[if j < k then j else j + 1];
    }
  }

  lemma SeparatePush(s: State)
    requires Separate(s.flights) && (s.bufferedSize > 0 ==> AllApart(Remaining(s.flights), s.buffers))
    ensures Separate(Push(s).flights)
  {
    if s.bufferedSize > 0 {
      var fl := Flight(s.buffers, 0, false, s.bufferedSize);
      assert Left(fl) == s.buffers;
      SeparateAppend(s.flights, fl);
    }
  }

  lemma SeparateStep(s: State, e: Event)
    requires CanStep(s, e) && Separate(s.flights) && AllApart(Remaining(s.flights), Pushed(s, e))
    ensures Separate(Next(s, e).flights)
  {
    match e
    case WriteCall(off, d, t) => if Buffered(s, off, d).bufferedSize > t { SeparatePush(Buffered(s, off, d)); }
    case FlushCall => SeparatePush(s);
    case SyncCall(_) => SeparatePush(s);
    case ScheduledPush => SeparatePush(s);
    case StorageApply(i) =>
      LeftOf(s.flights[i]);
      SeparateUpdate(s.flights, i, Advanced(s.flights[i]));
    case CallbackClear(i) => SeparateUpdate(s.flights, i, s.flights[i].(cleared := true));
    case CallbackConfirm(i) => SeparateRemove(s.flights, i);
    case _ =>
  }

  /** Then no order of the storage does harm. */
  lemma {:induction false} CarefulIsHarmless(s: State, es: seq<Event>)
    requires Legal(s, es) && Separate(s.flights) && Careful(s, es)
    ensures Harmless(s, es)
    decreases es
  {
    if es != [] {
      if es[0].StorageApply? { SeparateIsUnhindered(s, es[0].index); }
      SeparateStep(s, es[0]);
      CarefulIsHarmless(Next(s, es[0]), es[1..]);
    }
  }

  // ---------------------------------------------------- a flight is a chain of writes

  /** Every write is stored whole. */
  function AllStored(cs: seq<Chunk>): (answers: seq<Answer>)
    ensures Answers(cs, answers) && forall i :: 0 <= i < |cs| ==> Full(cs, answers, i)
  {
    seq(|cs|, i requires 0 <= i < |cs| => Answer(|cs[i].data|, false))
  }

  /** The next buffer of a flight is the one its chain of callbacks writes next, whatever other multiwrites have
      made of the file. */
  lemma FlightStepIsChain(s: State, i: nat, wroteSoFar: nat)
    requires CanStep(s, StorageApply(i))
    ensures var fl, t := s.flights[i], Next(s, StorageApply(i));
            var before := Chain(s.file, fl.chunks, AllStored(fl.chunks), fl.applied, wroteSoFar);
            if Done(t.flights[i]) then before.file == t.file && !before.failed
            else before == Chain(t.file, fl.chunks, AllStored(fl.chunks), t.flights[i].applied,
                                 wroteSoFar + |NextWrite(s, i).data|)
  {
    var c := NextWrite(s, i);
    assert c.data[..|c.data|] == c.data;
    assert Full(s.flights[i].chunks, AllStored(s.flights[i].chunks), s.flights[i].applied);
  }

  lemma FlightIsChain(f: Bytes, fl: Flight, wroteSoFar: nat)
    requires fl.applied < |fl.chunks|
    ensures Chain(f, fl.chunks, AllStored(fl.chunks), fl.applied, wroteSoFar).file == ApplyAll(f, Left(fl))
  {
    var k := |fl.chunks| - 1;
    var last := fl.chunks[k];
    ChainFrom(f, fl.chunks, AllStored(fl.chunks), fl.applied, wroteSoFar, k);
    assert last.data[..|last.data|] == last.data;
    assert fl.chunks[fl.applied..k] + [last] == Left(fl);
  }

  function Finished(fl: Flight): Flight { fl.(applied := |fl.chunks|) }

  /** A flight served without a break. */
  predicate Serves(s: State, i: nat, t: State) {
    && i < |s.flights| && t.flights == s.flights[i := Finished(s.flights[i])]
    && t.file == ApplyAll(s.file, Left(s.flights[i])) && t.buffers == s.buffers
  }

  lemma ServesStep(s: State, i: nat, t: State)
    requires CanStep(s, StorageApply(i)) && Serves(Next(s, StorageApply(i)), i, t)
    ensures Serves(s, i, t)
  {
    var n := Next(s, StorageApply(i));
    LeftOf(s.flights[i]);
    assert Left(s.flights[i])[1..] == Left(n.flights[i]);
    assert n.flights[i := Finished(n.flights[i])] == s.flights[i := Finished(s.flights[i])];
  }

  /** The storage can do that at any time. */
  lemma {:induction false} ServeFlight(s: State, i: nat) returns (es: seq<Event>)
    requires i < |s.flights| && s.flights[i].applied <= |s.flights[i].chunks|
    ensures Legal(s, es) && (forall e :: e in es ==> e == StorageApply(i)) && Serves(s, i, Final(s, es))
    decreases |s.flights[i].chunks| - s.flights[i].applied
  {
    if s.flights[i].applied == |s.flights[i].chunks| {
      es := [];
      assert s.flights[i := Finished(s.flights[i])] == s.flights;
    } else {
      var t := Next(s, StorageApply(i));
      var rest := ServeFlight(t, i);
      LegalStep(s, StorageApply(i), rest);
      ServesStep(s, i, Final(t, rest));
      es := [StorageApply(i)] + rest;
    }
  }

  /** ... and leaves what the multiwrite leaves. */
  lemma ServedIsMultiwrite(s: State, i: nat, t: State)
    requires Serves(s, i, t) && s.flights[i].chunks != [] && s.flights[i].applied == 0
    ensures t.file == Multiwrite.Multiwrite(s.file, s.flights[i].chunks, AllStored(s.flights[i].chunks)).file
  {
    FlightIsChain(s.file, s.flights[i], 0);
  }

  // ------------------------------------------------------------------- main results

  /** Read-your-writes in every interleaving, multiwrites overtaking each other included, as long as pushes are
      careful. */
  lemma CarefulReadsYourWrites(f: Bytes, es: seq<Event>, e: Event)
    requires Legal(Init(f), es) && Careful(Init(f), es) && e.ReadReturn? && Enabled(Final(Init(f), es), e)
    ensures var s := Final(Init(f), es);
            IsFreshReply(ApplyAll(f, Written(es)), s.op.request, ReadReply(s, e))
  {
    CarefulIsHarmless(Init(f), es);
    ReadYourWrites(f, es, e);
  }

  lemma CarefulSyncIsDurable(f: Bytes, es: seq<Event>)
    requires Legal(Init(f), es) && Careful(Init(f), es) && Enabled(Final(Init(f), es), SyncReturn)
    ensures Final(Init(f), es).file == ApplyAll(f, Written(es))
  {
    CarefulIsHarmless(Init(f), es);
    SyncIsDurable(f, es);
  }
}
