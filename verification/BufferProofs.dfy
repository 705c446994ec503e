/** Read-your-writes, durability and byte accounting of the buffering stack, over every run. */
module BufferProofs {
  import opened Options
  import opened FlatFile
  import opened BufferModel
  import opened WriteOrder

  // ------------------------------------------------------- coalescing of writes

  lemma ApplyAllSnoc(f: Bytes, cs: seq<Chunk>, c: Chunk)
    ensures ApplyAll(f, cs + [c]) == Write(ApplyAll(f, cs), c.offset, c.data)
    ensures Total(cs + [c]) == Total(cs) + |c.data|
  {
    ApplyAllConcat(f, cs, [c]);
    TotalConcat(cs, [c]);
    assert [c][1..] == [];
  }

  lemma JoinReplays(f: Bytes, cs: seq<Chunk>, last: Chunk, d: Bytes)
    ensures ApplyAll(f, cs + [Chunk(last.offset, last.data + d)])
         == ApplyAll(f, cs + [last] + [Chunk(last.offset + |last.data|, d)])
    ensures Total(cs + [Chunk(last.offset, last.data + d)]) == Total(cs + [last]) + |d|
  {
    ApplyAllSnoc(f, cs, last);
    ApplyAllSnoc(f, cs + [last], Chunk(last.offset + |last.data|, d));
    ApplyAllSnoc(f, cs, Chunk(last.offset, last.data + d));
    WriteConcat(ApplyAll(f, cs), last.offset, last.data, d);
  }

  lemma AcceptShape(cs: seq<Chunk>, last: Chunk, off: nat, d: Bytes)
    ensures Accept(cs + [last], off, d) ==
            if last.offset + |last.data| == off then cs + [Chunk(last.offset, last.data + d)]
            else cs + [last] + [Chunk(off, d)]
  {
    assert (cs + [last])[..|cs|] == cs;
  }

  /** Accepting a write replays like appending it. */
  lemma AcceptAppends(f: Bytes, bs: seq<Chunk>, off: nat, d: Bytes)
    ensures ApplyAll(f, Accept(bs, off, d)) == ApplyAll(f, bs + [Chunk(off, d)])
    ensures Total(Accept(bs, off, d)) == Total(bs + [Chunk(off, d)])
  {
    if bs != [] {
      var cs, last := bs[..|bs| - 1], bs[|bs| - 1];
      FrontAndLast(bs);
      AcceptShape(cs, last, off, d);
      if last.offset + |last.data| == off {
        JoinReplays(f, cs, last, d);
        ApplyAllSnoc(f, bs, Chunk(off, d));
      }
    }
  }

  /** Replaying the buffers after a write was accepted is replaying them, then writing. */
  lemma AcceptReplays(f: Bytes, bs: seq<Chunk>, off: nat, d: Bytes)
    ensures ApplyAll(f, Accept(bs, off, d)) == Write(ApplyAll(f, bs), off, d)
    ensures Total(Accept(bs, off, d)) == Total(bs) + |d|
  {
    AcceptAppends(f, bs, off, d);
    ApplyAllSnoc(f, bs, Chunk(off, d));
  }

  function AcceptAll(bs: seq<Chunk>, ws: seq<Chunk>): seq<Chunk>
    decreases ws
  {
    if ws == [] then bs else AcceptAll(Accept(bs, ws[0].offset, ws[0].data), ws[1..])
  }

  /** Whatever is written, replaying the coalesced buffers equals replaying the writes one by one. */
  lemma {:induction false} CoalescingKeepsMeaning(f: Bytes, bs: seq<Chunk>, ws: seq<Chunk>)
    ensures ApplyAll(f, AcceptAll(bs, ws)) == ApplyAll(ApplyAll(f, bs), ws)
    ensures Total(AcceptAll(bs, ws)) == Total(bs) + Total(ws)
    decreases ws
  {
    if ws != [] {
      AcceptReplays(f, bs, ws[0].offset, ws[0].data);
      CoalescingKeepsMeaning(f, Accept(bs, ws[0].offset, ws[0].data), ws[1..]);
    }
  }

  // ------------------------------------------------------------ flights in order

  /** The buffers the storage has still to apply, in issue order. */
  function Remaining(fls: seq<Flight>): seq<Chunk> {
    if fls == [] then [] else Left(fls[0]) + Remaining(fls[1..])
  }

  /** What the storage has yet to take of a multiwrite. */
  function Left(fl: Flight): seq<Chunk> { if fl.applied <= |fl.chunks| then fl.chunks[fl.applied..] else [] }

  function SizeSum(fls: seq<Flight>): nat {
    if fls == [] then 0 else fls[0].size + SizeSum(fls[1..])
  }

  predicate FlightOk(fl: Flight) {
    fl.applied <= |fl.chunks| && (fl.cleared ==> Done(fl)) &&
    fl.size == Total(fl.chunks) && fl.size > 0
  }

  predicate FlightsOk(fls: seq<Flight>) { forall fl :: fl in fls ==> FlightOk(fl) }

  lemma {:induction false} RemainingAppend(fls: seq<Flight>, fl: Flight)
    ensures Remaining(fls + [fl]) == Remaining(fls) + Left(fl)
    ensures SizeSum(fls + [fl]) == SizeSum(fls) + fl.size
  {
    if fls != [] {
      assert (fls + [fl])[1..] == fls[1..] + [fl];
      RemainingAppend(fls[1..], fl);
    }
  }

  function Advanced(fl: Flight): Flight { fl.(applied := fl.applied + 1) }

  lemma LeftOf(fl: Flight)
    requires fl.applied < |fl.chunks|
    ensures Left(fl) == [fl.chunks[fl.applied]] + Left(Advanced(fl))
  {
  }

  /** Applying the next buffer of a flight takes it out of what remains, behind what earlier flights have left. */
  lemma {:induction false} RemainingApply(fls: seq<Flight>, i: nat) returns (rest: seq<Chunk>)
    requires i < |fls| && fls[i].applied < |fls[i].chunks|
    ensures Remaining(fls) == Remaining(fls[..i]) + ([fls[i].chunks[fls[i].applied]] + rest)
    ensures Remaining(fls[i := Advanced(fls[i])]) == Remaining(fls[..i]) + rest
  {
    var next, c := fls[i := Advanced(fls[i])], fls[i].chunks[fls[i].applied];
    if i == 0 {
      rest := Left(next[0]) + Remaining(fls[1..]);
      assert next[1..] == fls[1..];
      LeftOf(fls[0]);
      Regroup([c], Left(next[0]), Remaining(fls[1..]));
    } else {
      rest := RemainingApply(fls[1..], i - 1);
      assert next[1..] == fls[1..][i - 1 := next[i]];
      assert fls[..i][1..] == fls[1..][..i - 1];
      Regroup(Left(fls[0]), Remaining(fls[1..][..i - 1]), [c] + rest);
      Regroup(Left(fls[0]), Remaining(fls[1..][..i - 1]), rest);
    }
  }

  lemma {:induction false} SizeSumSame(fls: seq<Flight>, i: nat, fl: Flight)
    requires i < |fls| && fl.size == fls[i].size
    ensures SizeSum(fls[i := fl]) == SizeSum(fls)
  {
    if i == 0 {
      assert fls[i := fl][1..] == fls[1..];
    } else {
      assert fls[i := fl][1..] == fls[1..][i - 1 := fl];
      SizeSumSame(fls[1..], i - 1, fl);
    }
  }

  /** A finished flight can leave the list unnoticed. */
  lemma {:induction false} RemainingRemove(fls: seq<Flight>, i: nat)
    requires i < |fls| && Done(fls[i])
    ensures Remaining(fls[..i] + fls[i + 1..]) == Remaining(fls)
    ensures SizeSum(fls[..i] + fls[i + 1..]) == SizeSum(fls) - fls[i].size
  {
    if i == 0 {
      assert fls[..0] + fls[1..] == fls[1..];
    } else {
      var rest := fls[..i] + fls[i + 1..];
      assert rest[1..] == fls[1..][..i - 1] + fls[1..][i..];
      RemainingRemove(fls[1..], i - 1);
      assert rest[0] == fls[0];
    }
  }

  lemma {:induction false} RemainingSame(fls: seq<Flight>, i: nat, fl: Flight)
    requires i < |fls| && Left(fl) == Left(fls[i])
    ensures Remaining(fls[i := fl]) == Remaining(fls)
  {
    if i == 0 {
      assert fls[i := fl][1..] == fls[1..];
    } else {
      assert fls[i := fl][1..] == fls[1..][i - 1 := fl];
      RemainingSame(fls[1..], i - 1, fl);
    }
  }

  lemma UpdatedOk(fls: seq<Flight>, i: nat, fl: Flight)
    requires FlightsOk(fls) && i < |fls| && FlightOk(fl)
    ensures FlightsOk(fls[i := fl]) && fl in fls[i := fl]
  {
    var next := fls[i := fl];
    forall x | x in next ensures FlightOk(x) {
      var k :| 0 <= k < |next| && next[k] == x;
      assert fls[k] in fls;
    }
    assert next[i] == fl;
  }

  lemma {:induction false} RemainingOfDone(fls: seq<Flight>)
    requires forall x :: x in fls ==> Done(x)
    ensures Remaining(fls) == []
  {
    if fls != [] {
      assert fls[0] in fls;
      RemainingOfDone(fls[1..]);
    }
  }

  // ------------------------------------------------------------------- invariant

  /** The file as the caller of the agent must see it: storage plus everything outstanding. */
  function Logical(s: State): Bytes { ApplyAll(s.file, Remaining(s.flights) + s.buffers) }

  /** A cached block that agrees with f. */
  predicate BlockOf(f: Bytes, off: nat, data: Bytes) {
    data == [] || (off + |data| <= |f| && f[off..off + |data|] == data)
  }

  /** Something will still make the next read drop what is cached. */
  predicate Stale(s: State) { Doomed(s) || s.bufferedSize > 0 }

  /** A completion callback has marked what is cached, or is yet to do so. */
  predicate Doomed(s: State) { s.cache.clear || exists fl :: fl in s.flights && !fl.cleared }

  predicate Disturbed(c: Cache) { c.pending.Some? && c.pending.value.InFlight? && c.pending.value.disturbed }

  predicate CacheOf(c: Cache, f: Bytes) {
    BlockOf(f, c.lastOffset, c.last) &&
    (c.pending.Some? && c.pending.value.Ready? ==> BlockOf(f, c.pendingOffset, c.pending.value.data))
  }

  predicate Inv(s: State) {
    && FlightsOk(s.flights)
    && s.bufferedSize == Total(s.buffers)
    && s.pendingConfirmation == SizeSum(s.flights)
    && (s.op.Syncing? ==> s.bufferedSize == 0)
    && (!Stale(s) ==> CacheOf(s.cache, Logical(s)))
    && (Disturbed(s.cache) ==> Doomed(s))
  }

  /** With nothing outstanding the storage file is the logical file. */
  lemma Settled(s: State)
    requires FlightsOk(s.flights) && s.bufferedSize == Total(s.buffers) == 0
    requires forall fl :: fl in s.flights ==> fl.cleared
    ensures Logical(s) == s.file
  {
    RemainingOfDone(s.flights);
    ApplyNothing(s.file, s.buffers);
    assert Remaining(s.flights) + s.buffers == s.buffers;
  }

  lemma FlightsWeigh(fls: seq<Flight>)
    requires FlightsOk(fls) && fls != []
    ensures SizeSum(fls) > 0
  {
    assert FlightOk(fls[0]);
  }

  lemma AppendedOk(fls: seq<Flight>, fl: Flight)
    requires FlightsOk(fls) && FlightOk(fl)
    ensures FlightsOk(fls + [fl]) && fl in fls + [fl]
  {
  }

  lemma PushKeeps(s: State)
    requires Inv(s)
    ensures Inv(Push(s)) && Logical(Push(s)) == Logical(s) && Push(s).bufferedSize == 0
  {
    if s.bufferedSize > 0 {
      var fl := Flight(s.buffers, 0, false, s.bufferedSize);
      AppendedOk(s.flights, fl);
      RemainingAppend(s.flights, fl);
      assert Remaining(s.flights + [fl]) + [] == Remaining(s.flights) + s.buffers;
    }
  }

  lemma WriteKeeps(s: State, off: nat, d: Bytes)
    requires Inv(s) && s.op.Idle?
    ensures Inv(Buffered(s, off, d))
    ensures Logical(Buffered(s, off, d)) == Write(Logical(s), off, d)
  {
    var b, r := Buffered(s, off, d), Remaining(s.flights);
    ApplyAllConcat(s.file, r, s.buffers);
    ApplyAllConcat(s.file, r, b.buffers);
    AcceptReplays(ApplyAll(s.file, r), s.buffers, off, d);
    if !Stale(b) {
      assert d == [];
    }
  }

  /** The buffer the storage takes overlaps nothing that earlier multiwrites have left. */
  predicate Unhindered(s: State, i: nat)
    requires CanStep(s, StorageApply(i))
  {
    ApartFrom(NextWrite(s, i), Remaining(s.flights[..i]))
  }

  /** Whichever multiwrite the storage serves next, the invariant is kept. */
  lemma ApplyKeeps(s: State, i: nat)
    requires Inv(s) && CanStep(s, StorageApply(i))
    ensures Inv(Next(s, StorageApply(i)))
  {
    assert s.flights[i] in s.flights;
    UpdatedOk(s.flights, i, Advanced(s.flights[i]));
    SizeSumSame(s.flights, i, Advanced(s.flights[i]));
  }

  /** ... and so is the visible file, if no older buffer is overtaken that overlaps this one. */
  lemma AnyOrderKeeps(s: State, i: nat)
    requires CanStep(s, StorageApply(i)) && Unhindered(s, i)
    ensures Logical(Next(s, StorageApply(i))) == Logical(s)
  {
    var rest := RemainingApply(s.flights, i);
    MovedForwardBefore(s.file, Remaining(s.flights[..i]), NextWrite(s, i), rest, s.buffers);
  }

  lemma ClearKeeps(s: State, i: nat)
    requires Inv(s) && Enabled(s, CallbackClear(i))
    ensures Inv(Next(s, CallbackClear(i))) && Logical(Next(s, CallbackClear(i))) == Logical(s)
  {
    var fl := s.flights[i].(cleared := true);
    assert s.flights[i] in s.flights;
    UpdatedOk(s.flights, i, fl);
    SizeSumSame(s.flights, i, fl);
    RemainingSame(s.flights, i, fl);
  }

  lemma RemovedFlights(fls: seq<Flight>, i: nat)
    requires FlightsOk(fls) && i < |fls| && fls[i].cleared
    ensures FlightsOk(fls[..i] + fls[i + 1..])
    ensures (exists fl :: fl in fls && !fl.cleared) ==> exists fl :: fl in fls[..i] + fls[i + 1..] && !fl.cleared
  {
    var rest := fls[..i] + fls[i + 1..];
    forall x | x in rest ensures FlightOk(x) { assert x in fls; }
    if fl :| fl in fls && !fl.cleared { assert fl != fls[i] && fl in rest; }
  }

  lemma FewerFlights(s: State, fls: seq<Flight>, pending: int)
    requires Inv(s) && FlightsOk(fls) && pending == SizeSum(fls) && Remaining(fls) == Remaining(s.flights)
    requires (exists fl :: fl in s.flights && !fl.cleared) ==> exists fl :: fl in fls && !fl.cleared
    ensures var t := s.(flights := fls, pendingConfirmation := pending); Inv(t) && Logical(t) == Logical(s)
  {
  }

  lemma ConfirmKeeps(s: State, i: nat)
    requires Inv(s) && Enabled(s, CallbackConfirm(i))
    ensures Inv(Next(s, CallbackConfirm(i))) && Logical(Next(s, CallbackConfirm(i))) == Logical(s)
    ensures s.flights[i].size <= s.pendingConfirmation
  {
    assert s.flights[i] in s.flights;
    RemainingRemove(s.flights, i);
    RemovedFlights(s.flights, i);
    FewerFlights(s, s.flights[..i] + s.flights[i + 1..], s.pendingConfirmation - s.flights[i].size);
  }

  lemma AnswerKeeps(s: State, data: Bytes)
    requires Inv(s) && Enabled(s, StorageAnswer(data))
    ensures Inv(Next(s, StorageAnswer(data))) && Logical(Next(s, StorageAnswer(data))) == Logical(s)
  {
    if !Stale(s) {
      Settled(s);
    }
  }

  /** A cache that agrees with the file, or is about to be dropped, answers from the file. */
  lemma CacheReadIsFresh(c: Cache, f: Bytes, off: nat, n: nat, env: ReadEnv)
    requires c.clear || CacheOf(c, f)
    requires IsReadResult(f, off, n, env.direct)
    requires NeedsPrefetch(Refresh(c, env.expired), off) ==>
               Refresh(c, env.expired).pending.value.Ready?
    ensures CacheOf(CacheRead(c, off, n, env).0, f)
    ensures IsReadResult(f, off, n, CacheRead(c, off, n, env).1)
  {
    var c1 := Refresh(c, env.expired);
    assert CacheOf(c1, f);
    if Hit(c1, off) {
      CopyIsFresh(c1, f, off, n);
    } else if NeedsPrefetch(c1, off) {
      var c2 := TakePrefetch(c1, env.ahead);
      if Hit(c2, off) { CopyIsFresh(c2, f, off, n); }
    }
  }

  lemma SliceOfSlice(f: Bytes, a: nat, data: Bytes, k: nat, m: nat)
    requires a + |data| <= |f| && f[a..a + |data|] == data && k + m <= |data|
    ensures data[k..k + m] == f[a + k..a + k + m]
  {
    var l, r := data[k..k + m], f[a + k..a + k + m];
    forall i | 0 <= i < m ensures l[i] == r[i] {
      assert data[k + i] == f[a..a + |data|][k + i];
    }
  }

  lemma CopyIsFresh(c: Cache, f: Bytes, off: nat, n: nat)
    requires BlockOf(f, c.lastOffset, c.last) && Hit(c, off)
    ensures IsReadResult(f, off, n, Copy(c, off, n))
  {
    var skip, m := off - c.lastOffset, |Copy(c, off, n)|;
    SliceOfSlice(f, c.lastOffset, c.last, skip, m);
    assert Copy(c, off, n) == f[off..off + m];
  }

  /** A read with nothing outstanding: the cache it leaves and the answer both agree with the file. */
  lemma ReadIsFresh(s: State, e: Event)
    requires Inv(s) && e.ReadReturn? && Enabled(s, e)
    ensures s.file == Logical(s) && s.flights == []
    ensures CacheOf(Next(s, e).cache, s.file)
    ensures IsReadResult(s.file, s.op.request.offset, s.op.request.size, ReadReply(s, e))
  {
    if s.flights != [] { FlightsWeigh(s.flights); }
    Settled(s);
    CacheReadIsFresh(s.cache, s.file, s.op.request.offset, s.op.request.size, e.env);
  }

  lemma ReadKeeps(s: State, e: Event)
    requires Inv(s) && e.ReadReturn? && Enabled(s, e)
    ensures Inv(Next(s, e)) && Logical(Next(s, e)) == Logical(s)
  {
    ReadIsFresh(s, e);
  }

  /** Every step keeps the invariant and the byte account, and shows exactly its own write, unless the storage
      takes a buffer before an older one that overlaps it. */
  lemma StepKeeps(s: State, e: Event)
    requires Inv(s) && Enabled(s, e)
    ensures Inv(Next(s, e))
    ensures (e.StorageApply? ==> Unhindered(s, e.index)) ==>
              Logical(Next(s, e)) == if e.WriteCall? then Write(Logical(s), e.offset, e.data) else Logical(s)
    ensures Next(s, e).pendingConfirmation + Next(s, e).bufferedSize
         == s.pendingConfirmation + s.bufferedSize
            + (if e.WriteCall? then |e.data| else 0)
            - (if e.CallbackConfirm? then s.flights[e.index].size else 0)
  {
    match e
    case WriteCall(off, d, t) =>
      WriteKeeps(s, off, d);
      PushKeeps(Buffered(s, off, d));
    case FlushCall => PushKeeps(s);
    case SyncCall(_) => PushKeeps(s);
    case Resume(_) =>
    case SyncReturn =>
    case ReadReturn(_) => ReadKeeps(s, e);
    case ScheduledPush => PushKeeps(s);
    case StorageApply(i) =>
      ApplyKeeps(s, i);
      if Unhindered(s, i) { AnyOrderKeeps(s, i); }
    case CallbackClear(i) => ClearKeeps(s, i);
    case CallbackConfirm(i) => ConfirmKeeps(s, i);
    case StorageAnswer(data) => AnswerKeeps(s, data);
  }

  // -------------------------------------------------------------------- theorems

  /** No buffer is taken before an older one that overlaps it. */
  predicate Harmless(s: State, es: seq<Event>)
    requires Legal(s, es)
    decreases es
  {
    es == [] ||
    ((es[0].StorageApply? ==> Unhindered(s, es[0].index)) && Harmless(Next(s, es[0]), es[1..]))
  }

  lemma StepLands(s: State, e: Event, es: seq<Event>)
    requires Enabled(s, e) && Legal(Next(s, e), es) && Legal(s, [e] + es)
    ensures ApplyAll(s.file, Landed(s, [e] + es)) == ApplyAll(Next(s, e).file, Landed(Next(s, e), es))
  {
    var all := [e] + es;
    assert all[1..] == es;
    if e.StorageApply? {
      assert Landed(s, all)[1..] == Landed(Next(s, e), es);
    } else {
      assert Landed(s, all) == Landed(Next(s, e), es);
    }
  }

  /** Every run leaves in the storage what landed there. */
  lemma {:induction false} RunLands(s: State, es: seq<Event>)
    requires Legal(s, es)
    ensures Final(s, es).file == ApplyAll(s.file, Landed(s, es))
    decreases es
  {
    if es != [] {
      assert [es[0]] + es[1..] == es;
      StepLands(s, es[0], es[1..]);
      RunLands(Next(s, es[0]), es[1..]);
    }
  }

  /** Every run keeps the invariant and loses no byte count. */
  lemma {:induction false} RunKeeps(s: State, es: seq<Event>)
    requires Inv(s) && Legal(s, es)
    ensures Inv(Final(s, es))
    ensures s.pendingConfirmation + s.bufferedSize + Total(Written(es))
         == Final(s, es).pendingConfirmation + Final(s, es).bufferedSize + Acknowledged(s, es)
    decreases es
  {
    if es != [] {
      StepKeeps(s, es[0]);
      RunKeeps(Next(s, es[0]), es[1..]);
      WrittenHead(es);
    }
  }

  lemma WrittenHead(es: seq<Event>)
    requires es != []
    ensures Written(es) == if es[0].WriteCall? then [Chunk(es[0].offset, es[0].data)] + Written(es[1..])
                           else Written(es[1..])
  {
  }

  /** A harmless run shows exactly the accepted writes. */
  lemma {:induction false} RunShows(s: State, es: seq<Event>)
    requires Inv(s) && Legal(s, es) && Harmless(s, es)
    ensures Inv(Final(s, es)) && Logical(Final(s, es)) == ApplyAll(Logical(s), Written(es))
    decreases es
  {
    if es != [] {
      StepKeeps(s, es[0]);
      RunShows(Next(s, es[0]), es[1..]);
      WrittenHead(es);
    }
  }

  lemma Opens(f: Bytes)
    ensures Inv(Init(f)) && Logical(Init(f)) == f
  {
    assert Remaining([]) + [] == [];
  }

  /** What every run from a freshly opened file reaches. */
  lemma Reached(f: Bytes, es: seq<Event>)
    requires Legal(Init(f), es)
    ensures Inv(Init(f)) && Inv(Final(Init(f), es))
    ensures Final(Init(f), es).file == ApplyAll(f, Landed(Init(f), es))
    ensures var s := Final(Init(f), es);
            Total(Written(es)) == Acknowledged(Init(f), es) + s.pendingConfirmation + s.bufferedSize
  {
    Opens(f);
    RunLands(Init(f), es);
    RunKeeps(Init(f), es);
  }

  /** Bytes accepted = bytes acknowledged + pending + buffered, and no confirmation underflows. */
  lemma Conservation(f: Bytes, es: seq<Event>, i: nat)
    requires Legal(Init(f), es)
    ensures var s := Final(Init(f), es);
            && Total(Written(es)) == Acknowledged(Init(f), es) + s.pendingConfirmation + s.bufferedSize
            && s.pendingConfirmation >= 0
            && (Enabled(s, CallbackConfirm(i)) ==> s.flights[i].size <= s.pendingConfirmation)
  {
    Reached(f, es);
    var s := Final(Init(f), es);
    if Enabled(s, CallbackConfirm(i)) {
      ConfirmKeeps(s, i);
    }
  }

  predicate IsFreshReply(file: Bytes, req: Request, reply: Bytes)
    requires req.ReadRequest?
  {
    reply <= Read(file, req.offset, req.size) && (reply == [] ==> req.size == 0 || req.offset >= |file|)
  }

  /** Whatever the interleaving, a read answers a prefix of what landed in the storage there, and nothing only
      when nothing was asked for or the file ends there; and everything pushed has landed. */
  lemma ReadsWhatLanded(f: Bytes, es: seq<Event>, e: Event)
    requires Legal(Init(f), es) && e.ReadReturn? && Enabled(Final(Init(f), es), e)
    ensures var s := Final(Init(f), es);
            s.flights == [] && IsFreshReply(ApplyAll(f, Landed(Init(f), es)), s.op.request, ReadReply(s, e))
  {
    Reached(f, es);
    ReadIsFresh(Final(Init(f), es), e);
  }

  /** Read-your-writes: in every harmless run, a read answers a prefix of what all earlier writes left there. */
  lemma ReadYourWrites(f: Bytes, es: seq<Event>, e: Event)
    requires Legal(Init(f), es) && e.ReadReturn? && Enabled(Final(Init(f), es), e)
    requires Harmless(Init(f), es)
    ensures var s := Final(Init(f), es);
            IsFreshReply(ApplyAll(f, Written(es)), s.op.request, ReadReply(s, e))
  {
    Opens(f);
    RunShows(Init(f), es);
    ReadIsFresh(Final(Init(f), es), e);
  }

  lemma SyncedFile(s: State)
    requires Inv(s) && Enabled(s, SyncReturn)
    ensures s.flights == [] && s.file == Logical(s)
  {
    if s.flights != [] { FlightsWeigh(s.flights); }
    Settled(s);
  }

  /** When fsync or release returns, nothing is outstanding, and the storage holds what landed there. */
  lemma SyncLeavesWhatLanded(f: Bytes, es: seq<Event>)
    requires Legal(Init(f), es) && Enabled(Final(Init(f), es), SyncReturn)
    ensures Final(Init(f), es).flights == []
    ensures Final(Init(f), es).file == ApplyAll(f, Landed(Init(f), es))
  {
    Reached(f, es);
    SyncedFile(Final(Init(f), es));
  }

  /** In every harmless run that is every accepted write. */
  lemma SyncIsDurable(f: Bytes, es: seq<Event>)
    requires Legal(Init(f), es) && Enabled(Final(Init(f), es), SyncReturn)
    requires Harmless(Init(f), es)
    ensures Final(Init(f), es).file == ApplyAll(f, Written(es))
  {
    Opens(f);
    RunShows(Init(f), es);
    SyncedFile(Final(Init(f), es));
  }
}
