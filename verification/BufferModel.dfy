/** The write-behind buffer and the read-ahead cache of one open file, as a step system.
    Agent calls (write, flush, read, fsync, release) interleave with the scheduled flush, the storage
    applying the buffers of each multiwrite in order, their completion callbacks (which run in two halves), and
    the storage answering the outstanding prefetch, which may have read a mixture of old and new bytes. */
module BufferModel {
  import opened Options
  import opened FlatFile

  // ---------------------------------------------------------------- read cache

  /** The outstanding read-ahead: requested with a size, perhaps overtaken by a write, later answered. */
  datatype Prefetch = InFlight(size: nat, disturbed: bool) | Ready(data: Bytes)

  datatype Cache = Cache(lastOffset: nat, last: Bytes,
                         pendingOffset: nat, pending: Option<Prefetch>,
                         clear: bool)

  /** What a read meets outside the cache: whether the five second lifetime has passed, the two
      read-ahead sizes it would ask for, and the storage's answer to a direct download. */
  datatype ReadEnv = ReadEnv(expired: bool, ahead: nat, directAhead: nat, direct: Bytes)

  /** The storage's read contract: some prefix of the bytes there, empty only if there are none. */
  predicate IsReadResult(f: Bytes, off: nat, n: nat, r: Bytes) {
    r <= Read(f, off, n) && (r == [] ==> Read(f, off, n) == [])
  }

  function Refresh(c: Cache, expired: bool): Cache {
    if c.clear || expired then c.(last := [], pending := None, clear := false) else c
  }

  /** The storage takes a write: the outstanding read-ahead may come out mixed. */
  function Disturb(c: Cache): Cache {
    if c.pending.Some? && c.pending.value.InFlight? then c.(pending := Some(c.pending.value.(disturbed := true)))
    else c
  }

  predicate Hit(c: Cache, off: nat) { c.lastOffset <= off < c.lastOffset + |c.last| }

  function Copy(c: Cache, off: nat, n: nat): Bytes
    requires c.lastOffset <= off
  {
    Read(c.last, off - c.lastOffset, n)
  }

  /** The read has to wait for the prefetch. */
  predicate NeedsPrefetch(c: Cache, off: nat) {
    !Hit(c, off) && c.pending.Some? && c.pendingOffset <= off
  }

  /** The answered prefetch becomes the cached block and the next one is issued behind it. */
  function TakePrefetch(c: Cache, ahead: nat): Cache
    requires c.pending.Some? && c.pending.value.Ready?
  {
    var data := c.pending.value.data;
    Cache(c.pendingOffset, data, c.pendingOffset + |data|, Some(InFlight(ahead, false)), c.clear)
  }

  /** The cache after a read and the bytes it answers. */
  function CacheRead(c: Cache, off: nat, n: nat, env: ReadEnv): (Cache, Bytes)
    requires NeedsPrefetch(Refresh(c, env.expired), off) ==>
               Refresh(c, env.expired).pending.value.Ready?
  {
    var c1 := Refresh(c, env.expired);
    if Hit(c1, off) then (c1, Copy(c1, off, n))
    else
      var c2 := if NeedsPrefetch(c1, off) then TakePrefetch(c1, env.ahead) else c1;
      if NeedsPrefetch(c1, off) && Hit(c2, off) then (c2, Copy(c2, off, n))
      else
        var c3 := Cache(off, env.direct, off + n, Some(InFlight(env.directAhead, false)), c2.clear);
        (c3, Read(env.direct, 0, n))
  }

  // -------------------------------------------------------------- write buffer

  /** A write joins the last buffer when it continues it, else opens a new one. */
  function Accept(bs: seq<Chunk>, off: nat, d: Bytes): seq<Chunk> {
    if bs == [] || bs[|bs| - 1].offset + |bs[|bs| - 1].data| != off then bs + [Chunk(off, d)]
    else bs[..|bs| - 1] + [Chunk(bs[|bs| - 1].offset, bs[|bs| - 1].data + d)]
  }

  /** An issued multiwrite: its buffers, how many the storage has applied, whether the first half of
      its completion callback (clearing the read cache) has run, and the bytes it will confirm. */
  datatype Flight = Flight(chunks: seq<Chunk>, applied: nat, cleared: bool, size: nat)

  predicate Done(fl: Flight) { fl.applied == |fl.chunks| }

  // -------------------------------------------------------------------- system

  datatype Request = ReadRequest(offset: nat, size: nat) | FsyncRequest | ReleaseRequest

  /** What the thread holding the context lock is doing. */
  datatype Op = Idle | Backpressure(thenClear: bool) | Syncing(request: Request)

  datatype State = State(file: Bytes, buffers: seq<Chunk>, bufferedSize: nat,
                         flights: seq<Flight>, pendingConfirmation: int,
                         cache: Cache, op: Op)

  datatype Event =
    | WriteCall(offset: nat, data: Bytes, flushThreshold: nat)
    | FlushCall
    | SyncCall(request: Request)
    | Resume(confirmThreshold: nat)
    | SyncReturn
    | ReadReturn(env: ReadEnv)
    | ScheduledPush
    | StorageApply(index: nat)
    | CallbackClear(index: nat)
    | CallbackConfirm(index: nat)
    | StorageAnswer(data: Bytes)

  function Init(f: Bytes): State {
    State(f, [], 0, [], 0, Cache(0, [], 0, None, false), Idle)
  }

  function Push(s: State): State {
    if s.bufferedSize == 0 then s
    else s.(buffers := [], bufferedSize := 0,
            flights := s.flights + [Flight(s.buffers, 0, false, s.bufferedSize)],
            pendingConfirmation := s.pendingConfirmation + s.bufferedSize)
  }

  function Buffered(s: State, off: nat, d: Bytes): State {
    s.(buffers := Accept(s.buffers, off, d), bufferedSize := s.bufferedSize + |d|)
  }

  /** The step can be taken, as far as this side of the storage goes. */
  predicate CanStep(s: State, e: Event) {
    match e
    case WriteCall(_, _, _) => s.op.Idle?
    case FlushCall => s.op.Idle?
    case SyncCall(_) => s.op.Idle?
    case Resume(t) => s.op.Backpressure? && s.pendingConfirmation <= t
    case SyncReturn => s.op.Syncing? && !s.op.request.ReadRequest? && s.pendingConfirmation == 0
    case ReadReturn(env) =>
      && s.op.Syncing? && s.op.request.ReadRequest? && s.pendingConfirmation == 0
      && var c := Refresh(s.cache, env.expired);
         (NeedsPrefetch(c, s.op.request.offset) ==> c.pending.value.Ready?)
    case ScheduledPush => true
    case StorageApply(i) => i < |s.flights| && s.flights[i].applied < |s.flights[i].chunks|
    case CallbackClear(i) => i < |s.flights| && Done(s.flights[i]) && !s.flights[i].cleared
    case CallbackConfirm(i) => i < |s.flights| && s.flights[i].cleared
    case StorageAnswer(data) => s.cache.pending.Some? && s.cache.pending.value.InFlight?
  }

  /** The storage, holding f, keeps its contract in it: a read that no write overlaps is answered from f. */
  predicate Answered(f: Bytes, s: State, e: Event)
    requires CanStep(s, e)
  {
    match e
    case ReadReturn(env) => IsReadResult(f, s.op.request.offset, s.op.request.size, env.direct)
    case StorageAnswer(data) =>
      || s.cache.pending.value.disturbed || (exists fl :: fl in s.flights && !Done(fl))
      || IsReadResult(f, s.cache.pendingOffset, s.cache.pending.value.size, data)
    case _ => true
  }

  predicate Enabled(s: State, e: Event) { CanStep(s, e) && Answered(s.file, s, e) }

  /** The buffer a multiwrite hands to the storage next. */
  function NextWrite(s: State, i: nat): Chunk
    requires CanStep(s, StorageApply(i))
  {
    s.flights[i].chunks[s.flights[i].applied]
  }

  function Next(s: State, e: Event): State
    requires CanStep(s, e)
  {
    match e
    case WriteCall(off, d, t) =>
      var b := Buffered(s, off, d);
      if b.bufferedSize > t then Push(b).(op := Backpressure(false)) else b
    case FlushCall => Push(s).(op := Backpressure(true))
    case SyncCall(r) => Push(s).(op := Syncing(r))
    case Resume(_) => s.(op := Idle, cache := s.cache.(clear := s.cache.clear || s.op.thenClear))
    case SyncReturn =>
      s.(op := Idle, cache := s.cache.(clear := s.cache.clear || s.op.request.FsyncRequest?))
    case ReadReturn(env) =>
      s.(op := Idle, cache := CacheRead(s.cache, s.op.request.offset, s.op.request.size, env).0)
    case ScheduledPush => Push(s)
    case StorageApply(i) =>
      var fl := s.flights[i];
      s.(file := Apply(s.file, NextWrite(s, i)),
         flights := s.flights[i := fl.(applied := fl.applied + 1)],
         cache := Disturb(s.cache))
    case CallbackClear(i) =>
      s.(cache := s.cache.(clear := true), flights := s.flights[i := s.flights[i].(cleared := true)])
    case CallbackConfirm(i) =>
      s.(flights := s.flights[..i] + s.flights[i + 1..],
         pendingConfirmation := s.pendingConfirmation - s.flights[i].size)
    case StorageAnswer(data) => s.(cache := s.cache.(pending := Some(Ready(data))))
  }

  /** The bytes handed to the caller of sh_read. */
  function ReadReply(s: State, e: Event): Bytes
    requires e.ReadReturn? && CanStep(s, e)
  {
    CacheRead(s.cache, s.op.request.offset, s.op.request.size, e.env).1
  }

  // ---------------------------------------------------------------------- runs

  predicate Legal(s: State, es: seq<Event>)
    decreases es
  {
    es == [] || (Enabled(s, es[0]) && Legal(Next(s, es[0]), es[1..]))
  }

  function Final(s: State, es: seq<Event>): State
    requires Legal(s, es)
    decreases es
  {
    if es == [] then s else Final(Next(s, es[0]), es[1..])
  }

  /** The writes the agent accepted, in order. */
  function Written(es: seq<Event>): seq<Chunk> {
    if es == [] then []
    else (if es[0].WriteCall? then [Chunk(es[0].offset, es[0].data)] else []) + Written(es[1..])
  }

  /** The buffers the storage took, in the order it took them. */
  function Landed(s: State, es: seq<Event>): seq<Chunk>
    requires Legal(s, es)
    decreases es
  {
    if es == [] then []
    else (if es[0].StorageApply? then [NextWrite(s, es[0].index)] else []) + Landed(Next(s, es[0]), es[1..])
  }

  /** Bytes whose confirmation the run delivered. */
  function Acknowledged(s: State, es: seq<Event>): nat
    requires Legal(s, es)
    decreases es
  {
    if es == [] then 0
    else (if es[0].CallbackConfirm? then s.flights[es[0].index].size else 0)
         + Acknowledged(Next(s, es[0]), es[1..])
  }
}
