/** How much a read answers and from where, and what a call holds back or hands to the storage. */
module BufferEffects {
  import opened Options
  import opened FlatFile
  import opened BufferModel
  import opened BufferProofs

  // --------------------------------------------------------------------------- reads

  /** The position lies in the block that starts at `at`. */
  predicate Within(at: nat, data: Bytes, off: nat) { at <= off < at + |data| }

  /** The at most n bytes of that block from there on. */
  function From(at: nat, data: Bytes, off: nat, n: nat): (r: Bytes)
    requires Within(at, data, off)
    ensures |r| == Min(n, at + |data| - off) && forall i :: 0 <= i < |r| ==> r[i] == data[off - at + i]
  {
    data[off - at..off - at + Min(n, at + |data| - off)]
  }

  /** The block held covers the position. */
  predicate InHeld(c: Cache, off: nat, expired: bool) { !c.clear && !expired && Within(c.lastOffset, c.last, off) }

  /** Or else the answered prefetch does. */
  predicate InPrefetch(c: Cache, off: nat, expired: bool) {
    && !c.clear && !expired && !Within(c.lastOffset, c.last, off)
    && c.pending.Some? && c.pending.value.Ready? && Within(c.pendingOffset, c.pending.value.data, off)
  }

  /** The prefetch, if the read has to wait for it, is answered. */
  predicate Answerable(c: Cache, off: nat, expired: bool) {
    NeedsPrefetch(Refresh(c, expired), off) ==> Refresh(c, expired).pending.value.Ready?
  }

  /** Whole answer and cache of a read: all the bytes asked for that the held block has, or else the prefetched one,
      which then is held and the bytes behind it prefetched; or else what the storage answers, which then is held
      and the bytes behind those asked for prefetched. A cleared or expired cache is not looked at. */
  lemma ReadAnswersExactly(c: Cache, off: nat, n: nat, env: ReadEnv)
    requires Answerable(c, off, env.expired)
    ensures CacheRead(c, off, n, env) ==
            if InHeld(c, off, env.expired) then (c, From(c.lastOffset, c.last, off, n))
            else if InPrefetch(c, off, env.expired) then
              var data := c.pending.value.data;
              (Cache(c.pendingOffset, data, c.pendingOffset + |data|, Some(InFlight(env.ahead, false)), false),
               From(c.pendingOffset, data, off, n))
            else
              (Cache(off, env.direct, off + n, Some(InFlight(env.directAhead, false)), false),
               env.direct[..Min(n, |env.direct|)])
  {
  }

  /** Reading on: after an answer in full from the storage, the next bytes come from the read-ahead. */
  lemma ReadsOn(c: Cache, off: nat, n: nat, env: ReadEnv, data: Bytes, k: nat, next: ReadEnv)
    requires Answerable(c, off, env.expired) && !InHeld(c, off, env.expired) && !InPrefetch(c, off, env.expired)
    requires |env.direct| == n && data != [] && !next.expired
    ensures var d := CacheRead(c, off, n, env).0.(pending := Some(Ready(data)));
            && Answerable(d, off + n, next.expired)
            && CacheRead(d, off + n, k, next).1 == data[..Min(k, |data|)]
  {
    ReadAnswersExactly(c, off, n, env);
    var d := CacheRead(c, off, n, env).0.(pending := Some(Ready(data)));
    ReadAnswersExactly(d, off + n, k, next);
  }

  /** ... and the bytes behind a block that came from the read-ahead do again. */
  lemma ReadsOnAhead(c: Cache, off: nat, n: nat, env: ReadEnv, data: Bytes, k: nat, next: ReadEnv)
    requires InPrefetch(c, off, env.expired) && data != [] && !next.expired
    ensures var end := c.pendingOffset + |c.pending.value.data|;
            Answerable(c, off, env.expired) &&
            var d := CacheRead(c, off, n, env).0.(pending := Some(Ready(data)));
            && Answerable(d, end, next.expired)
            && CacheRead(d, end, k, next).1 == data[..Min(k, |data|)]
  {
    ReadAnswersExactly(c, off, n, env);
    var d := CacheRead(c, off, n, env).0.(pending := Some(Ready(data)));
    ReadAnswersExactly(d, c.pendingOffset + |c.pending.value.data|, k, next);
  }

  /** How many bytes a read answers. */
  function AnswerSize(c: Cache, off: nat, n: nat, env: ReadEnv): nat {
    if InHeld(c, off, env.expired) then Min(n, c.lastOffset + |c.last| - off)
    else if InPrefetch(c, off, env.expired) then Min(n, c.pendingOffset + |c.pending.value.data| - off)
    else Min(n, |env.direct|)
  }

  lemma PrefixIsRead(f: Bytes, off: nat, n: nat, r: Bytes)
    requires r <= Read(f, off, n)
    ensures r == Read(f, off, |r|)
  {
    if off < |f| { assert Read(f, off, n)[..|r|] == f[off..off + |r|]; }
  }

  /** In every run, a read answers that many bytes of what landed; so all it asks for, if the block that answers
      has them, or the storage gave them. */
  lemma ReadIsFull(f: Bytes, es: seq<Event>, e: Event)
    requires Legal(Init(f), es) && e.ReadReturn? && Enabled(Final(Init(f), es), e)
    ensures var s := Final(Init(f), es);
            var off, n := s.op.request.offset, s.op.request.size;
            var file := ApplyAll(f, Landed(Init(f), es));
            && ReadReply(s, e) == Read(file, off, AnswerSize(s.cache, off, n, e.env))
            && |ReadReply(s, e)| == AnswerSize(s.cache, off, n, e.env)
  {
    var s := Final(Init(f), es);
    var off, n := s.op.request.offset, s.op.request.size;
    ReadsWhatLanded(f, es, e);
    ReadAnswersExactly(s.cache, off, n, e.env);
    PrefixIsRead(ApplyAll(f, Landed(Init(f), es)), off, n, ReadReply(s, e));
  }

  // -------------------------------------------------------------------------- pushes

  /** What a push leaves: the buffers gone as one multiwrite of exactly their bytes, if there are any. */
  predicate Pushes(s: State, t: State) {
    if s.bufferedSize == 0 then
      t.flights == s.flights && t.buffers == s.buffers && t.pendingConfirmation == s.pendingConfirmation
    else
      && t.flights == s.flights + [Flight(s.buffers, 0, false, s.bufferedSize)]
      && t.buffers == [] && t.pendingConfirmation == s.pendingConfirmation + s.bufferedSize
  }

  /** A write is held back until the buffered bytes exceed the threshold; then all of them go, this one included. */
  lemma WriteHoldsBack(s: State, off: nat, d: Bytes, threshold: nat)
    requires CanStep(s, WriteCall(off, d, threshold))
    ensures var t := Next(s, WriteCall(off, d, threshold)); var b := Buffered(s, off, d);
            && b.bufferedSize == s.bufferedSize + |d| && b.flights == s.flights
            && (forall f :: ApplyAll(f, b.buffers) == ApplyAll(f, s.buffers + [Chunk(off, d)]))
            && if s.bufferedSize + |d| <= threshold then t == b
               else Pushes(b, t) && t.bufferedSize == 0 && t.op == Backpressure(false)
  {
    forall f ensures ApplyAll(f, Buffered(s, off, d).buffers) == ApplyAll(f, s.buffers + [Chunk(off, d)]) {
      AcceptAppends(f, s.buffers, off, d);
    }
  }

  /** Flush, sync and the scheduled push hand everything over; the first two then wait, and a flush or an fsync
      leaves the cache cleared when it returns, for which it waits until little enough, or nothing, is pending. */
  lemma CallsPush(s: State, e: Event)
    requires CanStep(s, e)
    ensures e.FlushCall? || e.SyncCall? || e.ScheduledPush? ==> Pushes(s, Next(s, e)) && Next(s, e).bufferedSize == 0
    ensures e.FlushCall? ==> Next(s, e).op == Backpressure(true)
    ensures e.SyncCall? ==> Next(s, e).op == Syncing(e.request)
    ensures e.ScheduledPush? ==> Next(s, e).op == s.op
    ensures e.Resume? ==> s.pendingConfirmation <= e.confirmThreshold && Next(s, e).op == Idle
                          && (s.op == Backpressure(true) ==> Next(s, e).cache.clear)
    ensures e.SyncReturn? ==> s.pendingConfirmation == 0 && Next(s, e).op == Idle
                              && (s.op == Syncing(FsyncRequest) ==> Next(s, e).cache.clear)
  {
  }

  // ---------------------------------------------------------------------- coalescing

  /** No buffer continues the one before it. */
  predicate Coalesced(bs: seq<Chunk>) {
    forall i :: 0 < i < |bs| ==> bs[i].offset != bs[i - 1].offset + |bs[i - 1].data|
  }

  predicate AllCoalesced(s: State) {
    Coalesced(s.buffers) && forall i :: 0 <= i < |s.flights| ==> Coalesced(s.flights[i].chunks)
  }

  lemma AcceptCoalesces(bs: seq<Chunk>, off: nat, d: Bytes)
    requires Coalesced(bs)
    ensures Coalesced(Accept(bs, off, d))
    ensures |Accept(bs, off, d)| == |bs| + if bs != [] && off == bs[|bs| - 1].offset + |bs[|bs| - 1].data| then 0 else 1
  {
  }

  lemma StepCoalesces(s: State, e: Event)
    requires CanStep(s, e) && AllCoalesced(s)
    ensures AllCoalesced(Next(s, e))
  {
    if e.WriteCall? { AcceptCoalesces(s.buffers, e.offset, e.data); }
    if e.StorageApply? || e.CallbackClear? { assert Coalesced(s.flights[e.index].chunks); }
  }

  /** In every run, writes that continue each other are handed over as one buffer. */
  lemma {:induction false} RunCoalesces(s: State, es: seq<Event>)
    requires Legal(s, es) && AllCoalesced(s)
    ensures AllCoalesced(Final(s, es))
    decreases es
  {
    if es != [] {
      StepCoalesces(s, es[0]);
      RunCoalesces(Next(s, es[0]), es[1..]);
    }
  }
}
