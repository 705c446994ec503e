/** A history in which a newer write is overtaken by an older one, and lost. */
module OvertakenWrite {
  import opened FlatFile
  import opened BufferModel
  import opened BufferProofs
  import opened BufferOrder

  /** Two writes and a push, a third write over the second, and a push. */
  function TwoPushes(): seq<Event> {
    [WriteCall(0, [1], 9), WriteCall(8, [2], 9), ScheduledPush, WriteCall(8, [3], 9), ScheduledPush]
  }

  function FirstFlight(): Flight { Flight([Chunk(0, [1]), Chunk(8, [2])], 0, false, 2) }

  function SecondFlight(): Flight { Flight([Chunk(8, [3])], 0, false, 1) }

  function TwoOut(f: Bytes): State {
    Init(f).(flights := [FirstFlight(), SecondFlight()], pendingConfirmation := 3)
  }

  lemma TwoOutReached(f: Bytes)
    ensures Legal(Init(f), TwoPushes()) && Final(Init(f), TwoPushes()) == TwoOut(f)
  {
    var s0 := Init(f);
    var s1 := s0.(buffers := [Chunk(0, [1])], bufferedSize := 1);
    var s2 := s0.(buffers := [Chunk(0, [1]), Chunk(8, [2])], bufferedSize := 2);
    var s3 := s0.(flights := [FirstFlight()], pendingConfirmation := 2);
    var s4 := s3.(buffers := [Chunk(8, [3])], bufferedSize := 1);
    var es := TwoPushes();
    assert Next(s0, es[0]) == s1 && Next(s1, es[1]) == s2 && Next(s2, es[2]) == s3;
    assert Next(s3, es[3]) == s4 && Next(s4, es[4]) == TwoOut(f);
    LegalStep(s4, es[4], []);
    LegalStep(s3, es[3], [es[4]]);
    LegalStep(s2, es[2], [es[3], es[4]]);
    LegalStep(s1, es[1], [es[2], es[3], es[4]]);
    LegalStep(s0, es[0], [es[1], es[2], es[3], es[4]]);
  }

  /** The worker's queue: the first write, the only one of the second push, and then the write it continues. */
  function Overtaking(): seq<Event> { [StorageApply(0), StorageApply(1), StorageApply(0)] }

  function AllIn(f: Bytes): State {
    TwoOut(f).(file := ApplyAll(f, [Chunk(0, [1]), Chunk(8, [3]), Chunk(8, [2])]),
               flights := [Finished(FirstFlight()), Finished(SecondFlight())])
  }

  lemma OvertakingReached(f: Bytes)
    ensures Legal(TwoOut(f), Overtaking()) && Final(TwoOut(f), Overtaking()) == AllIn(f)
  {
    var s0 := TwoOut(f);
    var s1 := Next(s0, StorageApply(0));
    var s2 := Next(s1, StorageApply(1));
    ThreeWrites(f, Chunk(0, [1]), Chunk(8, [3]), Chunk(8, [2]));
    assert Next(s2, StorageApply(0)) == AllIn(f);
    LegalStep(s2, StorageApply(0), []);
    LegalStep(s1, StorageApply(1), [StorageApply(0)]);
    LegalStep(s0, StorageApply(0), [StorageApply(1), StorageApply(0)]);
  }

  function Confirming(r: Request): seq<Event> {
    [CallbackClear(0), CallbackConfirm(0), CallbackClear(0), CallbackConfirm(0), SyncCall(r)]
  }

  function Waited(f: Bytes, r: Request): State {
    State(AllIn(f).file, [], 0, [], 0, AllIn(f).cache.(clear := true), Syncing(r))
  }

  lemma ConfirmingReached(f: Bytes, r: Request)
    ensures Legal(AllIn(f), Confirming(r)) && Final(AllIn(f), Confirming(r)) == Waited(f, r)
  {
    var s0, es := AllIn(f), Confirming(r);
    var s1 := Next(s0, es[0]);
    var s2 := Next(s1, es[1]);
    var s3 := Next(s2, es[2]);
    var s4 := Next(s3, es[3]);
    assert Next(s4, es[4]) == Waited(f, r);
    LegalStep(s4, es[4], []);
    LegalStep(s3, es[3], [es[4]]);
    LegalStep(s2, es[2], [es[3], es[4]]);
    LegalStep(s1, es[1], [es[2], es[3], es[4]]);
    LegalStep(s0, es[0], [es[1], es[2], es[3], es[4]]);
  }

  function OvertakenRun(r: Request): seq<Event> { TwoPushes() + (Overtaking() + Confirming(r)) }

  lemma {:induction false} NothingWritten(es: seq<Event>)
    requires forall e :: e in es ==> !e.WriteCall?
    ensures Written(es) == []
  {
    if es != [] {
      WrittenHead(es);
      NothingWritten(es[1..]);
    }
  }

  lemma WrittenFirst(e: Event, es: seq<Event>)
    ensures Written([e] + es) == if e.WriteCall? then [Chunk(e.offset, e.data)] + Written(es) else Written(es)
  {
    WrittenHead([e] + es);
    assert ([e] + es)[1..] == es;
  }

  lemma {:induction false} WrittenBefore(es: seq<Event>, rest: seq<Event>)
    requires Written(rest) == []
    ensures Written(es + rest) == Written(es)
  {
    if es == [] {
      assert es + rest == rest;
    } else {
      assert (es + rest)[1..] == es[1..] + rest && (es + rest)[0] == es[0];
      WrittenHead(es + rest);
      WrittenHead(es);
      WrittenBefore(es[1..], rest);
    }
  }

  lemma PushedWrites()
    ensures Written(TwoPushes()) == [Chunk(0, [1]), Chunk(8, [2]), Chunk(8, [3])]
  {
    var es := TwoPushes();
    NothingWritten([es[4]]);
    WrittenFirst(es[3], [es[4]]);
    WrittenFirst(es[2], [es[3], es[4]]);
    WrittenFirst(es[1], [es[2], es[3], es[4]]);
    WrittenFirst(es[0], [es[1], es[2], es[3], es[4]]);
  }

  lemma OvertakenWrites(r: Request)
    ensures Written(OvertakenRun(r)) == [Chunk(0, [1]), Chunk(8, [2]), Chunk(8, [3])]
  {
    PushedWrites();
    NothingWritten(Overtaking() + Confirming(r));
    WrittenBefore(TwoPushes(), Overtaking() + Confirming(r));
  }

  lemma ThreeWrites(f: Bytes, a: Chunk, b: Chunk, c: Chunk)
    ensures ApplyAll(f, [a, b, c]) == Apply(Apply(Apply(f, a), b), c)
  {
    var g := Apply(f, a);
    assert [a, b, c][1..] == [b, c] && [b, c][1..] == [c] && [c][1..] == [];
    assert ApplyAll(g, [b, c]) == ApplyAll(Apply(g, b), [c]);
  }

  lemma OvertakenReached(f: Bytes, r: Request)
    ensures Legal(Init(f), OvertakenRun(r)) && Final(Init(f), OvertakenRun(r)) == Waited(f, r)
  {
    TwoOutReached(f);
    OvertakingReached(f);
    ConfirmingReached(f, r);
    LegalConcat(TwoOut(f), Overtaking(), Confirming(r));
    LegalConcat(Init(f), TwoPushes(), Overtaking() + Confirming(r));
  }

  /** Its last write gone, a history in which everything is confirmed: neither fsync nor a read notices. */
  lemma OvertakenExample(f: Bytes, r: Request)
    ensures Legal(Init(f), OvertakenRun(r))
    ensures var s, file := Final(Init(f), OvertakenRun(r)), ApplyAll(f, Written(OvertakenRun(r)));
            s.op == Syncing(r) && s.pendingConfirmation == 0 && |s.file| > 8 && |file| > 8
            && s.file[8] == 2 && file[8] == 3
  {
    OvertakenReached(f, r);
    OvertakenWrites(r);
    ThreeWrites(f, Chunk(0, [1]), Chunk(8, [3]), Chunk(8, [2]));
    ThreeWrites(f, Chunk(0, [1]), Chunk(8, [2]), Chunk(8, [3]));
  }

  /** The read that follows answers the older byte. */
  lemma OvertakenRead(f: Bytes, e: Event)
    requires e.ReadReturn? && Enabled(Waited(f, ReadRequest(8, 1)), e)
    ensures ReadReply(Waited(f, ReadRequest(8, 1)), e) == [2]
  {
    var r := ReadRequest(8, 1);
    OvertakenReached(f, r);
    OvertakenExample(f, r);
    Reached(f, OvertakenRun(r));
    ReadsWhatLanded(f, OvertakenRun(r), e);
  }
}
