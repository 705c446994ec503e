/** An open file of the buffering agent, kept in a key-value storage: the agent's storage is the block adapter.
    The adapter writes block by block, its reads may overlap its writes, and outstanding multiwrites overtake each
    other: the one worker takes a buffer of any of them next. */
module StorageStack {
  import opened Options
  import opened FlatFile
  import opened WriteOrder
  import opened BlockStore
  import opened KeyedObjects
  import opened KeyValueAdapter
  import opened BufferModel
  import opened BufferProofs
  import opened BufferOrder
  import opened OvertakenWrite
  import Multiwrite

  /** Where the file is kept, in blocks of which size, and whether the storage wipes what it does not have. */
  datatype Mount = Mount(adj: string, bs: nat, wipes: bool)

  function Limit(m: Mount): nat { 1000000 * m.bs }

  /** A write of the adapter under way: its buffer, and the loop's block, offset in it and place in the buffer. */
  datatype Writing = Writing(chunk: Chunk, id: nat, o: nat, k: nat)

  /** The agent, and the objects its storage has; agent.file is the file they ought to hold between writes. The
      worker is serving the multiwrite in this place of the outstanding ones. */
  datatype Stack = Stack(agent: State, objects: Objects, writing: Option<Writing>, serving: nat)

  datatype StackEvent = BeginWrite(index: nat) | BlockWritten | Agent(event: Event)

  predicate Sound(m: Mount, k: Stack) { Fits(m, k.objects, k.writing) }

  predicate Fits(m: Mount, objects: Objects, writing: Option<Writing>) {
    && ObjectsFit(objects, m.bs)
    && (writing.Some? ==> writing.value.o < m.bs && writing.value.k <= |writing.value.chunk.data|)
  }

  /** ash_read into the zero-filled buffer of the read cache, with no write in between. */
  ghost function AdapterRead(m: Mount, objects: Objects, off: nat, n: nat): Bytes
    requires m.bs > 0
  {
    ReadInto(BlocksOf(objects, m.adj), m.bs, m.wipes, Zeros(n), off)
  }

  /** What the step is told of the storage is what the adapter reads from the objects; a read that a write may
      have overlapped can bring anything. */
  ghost predicate Served(m: Mount, objects: Objects, s: State, e: Event)
    requires m.bs > 0 && CanStep(s, e)
  {
    match e
    case ReadReturn(env) => env.direct == AdapterRead(m, objects, s.op.request.offset, s.op.request.size)
    case StorageAnswer(data) =>
      || s.cache.pending.value.disturbed || (exists fl :: fl in s.flights && !Done(fl))
      || data == AdapterRead(m, objects, s.cache.pendingOffset, s.cache.pending.value.size)
    case _ => true
  }

  /** The worker begins a write when it is free, and completes it when the last block is stored. */
  ghost predicate StackEnabled(m: Mount, k: Stack, e: StackEvent) {
    && m.bs > 0
    && match e
       case BeginWrite(i) => k.writing.None? && CanStep(k.agent, StorageApply(i))
       case BlockWritten => k.writing.Some? && k.writing.value.k < |k.writing.value.chunk.data|
       case Agent(a) =>
         && CanStep(k.agent, a) && Served(m, k.objects, k.agent, a)
         && (a.StorageApply? ==> IsStored(k, a.index))
  }

  predicate IsStored(k: Stack, i: nat) {
    k.writing.Some? && k.serving == i && k.writing.value.k == |k.writing.value.chunk.data|
  }

  function Begun(m: Mount, c: Chunk): Writing
    requires m.bs > 0
  {
    Writing(c, Index(m.bs, c.offset), Within(m.bs, c.offset), 0)
  }

  function OneBlockOn(m: Mount, w: Writing): Writing
    requires w.o < m.bs && w.k < |w.chunk.data|
  {
    Writing(w.chunk, w.id + 1, 0, w.k + Min(m.bs - w.o, |w.chunk.data| - w.k))
  }

  /** The places of the outstanding multiwrites shift when one leaves. */
  function Shifted(serving: nat, e: Event): nat {
    if e.CallbackConfirm? && e.index < serving then serving - 1 else serving
  }

  ghost function StackNext(m: Mount, k: Stack, e: StackEvent): (t: Stack)
    requires StackEnabled(m, k, e) && Sound(m, k)
    ensures Sound(m, t)
  {
    match e
    case BeginWrite(i) => k.(writing := Some(Begun(m, NextWrite(k.agent, i))), serving := i)
    case BlockWritten =>
      var w := k.writing.value;
      k.(objects := PutChunk(k.objects, m.adj, m.bs, w.id, w.o, w.chunk.data[w.k..]),
         writing := Some(OneBlockOn(m, w)))
    case Agent(a) =>
      k.(agent := Next(k.agent, a), writing := if a.StorageApply? then None else k.writing,
         serving := Shifted(k.serving, a))
  }

  ghost predicate StackLegal(m: Mount, k: Stack, es: seq<StackEvent>)
    requires Sound(m, k)
    decreases es
  {
    es == [] || (StackEnabled(m, k, es[0]) && StackLegal(m, StackNext(m, k, es[0]), es[1..]))
  }

  ghost function StackFinal(m: Mount, k: Stack, es: seq<StackEvent>): (t: Stack)
    requires Sound(m, k) && StackLegal(m, k, es)
    ensures Sound(m, t)
    decreases es
  {
    if es == [] then k else StackFinal(m, StackNext(m, k, es[0]), es[1..])
  }

  /** What the agent sees of a history. */
  function AgentEvents(es: seq<StackEvent>): seq<Event> {
    if es == [] then [] else (if es[0].Agent? then [es[0].event] else []) + AgentEvents(es[1..])
  }

  // ------------------------------------------------------- what six digits can hold

  predicate InRange(limit: nat, cs: seq<Chunk>) {
    forall i :: 0 <= i < |cs| ==> cs[i].offset + |cs[i].data| <= limit
  }

  predicate FlightsInRange(limit: nat, fls: seq<Flight>) {
    forall j :: 0 <= j < |fls| ==> InRange(limit, fls[j].chunks)
  }

  predicate AgentInRange(limit: nat, s: State) { InRange(limit, s.buffers) && FlightsInRange(limit, s.flights) }

  predicate EventInRange(limit: nat, e: StackEvent) {
    e.Agent? && e.event.WriteCall? ==> e.event.offset + |e.event.data| <= limit
  }

  lemma PushInRange(limit: nat, s: State)
    requires AgentInRange(limit, s)
    ensures AgentInRange(limit, Push(s))
  {
  }

  lemma BufferedInRange(limit: nat, s: State, off: nat, d: Bytes)
    requires AgentInRange(limit, s) && off + |d| <= limit
    ensures AgentInRange(limit, Buffered(s, off, d))
  {
  }

  lemma StepInRange(limit: nat, s: State, e: Event)
    requires AgentInRange(limit, s) && CanStep(s, e) && EventInRange(limit, Agent(e))
    ensures AgentInRange(limit, Next(s, e))
  {
    match e
    case WriteCall(off, d, _) =>
      BufferedInRange(limit, s, off, d);
      PushInRange(limit, Buffered(s, off, d));
    case FlushCall => PushInRange(limit, s);
    case SyncCall(_) => PushInRange(limit, s);
    case ScheduledPush => PushInRange(limit, s);
    case StorageApply(i) => assert InRange(limit, s.flights[i].chunks);
    case CallbackClear(i) => assert InRange(limit, s.flights[i].chunks);
    case _ =>
  }

  // ------------------------------------------------------------------------ coupling

  /** The objects as the write under way is going to leave them. */
  function Finishing(m: Mount, objects: Objects, w: Writing): Objects
    requires ObjectsFit(objects, m.bs) && w.o < m.bs && w.k <= |w.chunk.data|
  {
    PutChunks(objects, m.adj, m.bs, w.id, w.o, w.chunk.data, w.k)
  }

  /** The objects hold the file, or will hold it with the write under way. */
  ghost predicate StoreOk(m: Mount, objects: Objects, writing: Option<Writing>, f: Bytes)
    requires Fits(m, objects, writing)
  {
    if writing.None? then Holds(objects, m.adj, m.bs, f)
    else Holds(Finishing(m, objects, writing.value), m.adj, m.bs, Apply(f, writing.value.chunk))
  }

  predicate AgentOk(m: Mount, s: State) { Inv(s) && AgentInRange(Limit(m), s) }

  /** The write under way is the next one of the multiwrite being served. */
  predicate Matches(k: Stack) {
    k.writing.Some? ==>
      CanStep(k.agent, StorageApply(k.serving)) && NextWrite(k.agent, k.serving) == k.writing.value.chunk
  }

  ghost predicate Coupled(m: Mount, k: Stack) {
    Sound(m, k) && StoreOk(m, k.objects, k.writing, k.agent.file) && AgentOk(m, k.agent) && Matches(k)
  }

  /** Without a write in between, the adapter reads the flat file. */
  lemma AdapterReadsFlat(m: Mount, objects: Objects, f: Bytes, off: nat, n: nat)
    requires Holds(objects, m.adj, m.bs, f)
    ensures AdapterRead(m, objects, off, n) == Read(f, off, n)
  {
    ReadExactly(BlocksOf(objects, m.adj), m.bs, m.wipes, Zeros(n), off);
  }

  lemma NothingUnderWay(k: Stack)
    requires Matches(k) && forall fl :: fl in k.agent.flights ==> Done(fl)
    ensures k.writing.None?
  {
    if k.serving < |k.agent.flights| { assert k.agent.flights[k.serving] in k.agent.flights; }
  }

  lemma NothingPending(k: Stack)
    requires Inv(k.agent) && Matches(k) && k.agent.pendingConfirmation == 0
    ensures k.writing.None?
  {
    if k.agent.flights != [] { FlightsWeigh(k.agent.flights); }
  }

  lemma NextWriteStays(s: State, i: nat, e: Event)
    requires Inv(s) && CanStep(s, e) && CanStep(s, StorageApply(i)) && !e.StorageApply?
    ensures CanStep(Next(s, e), StorageApply(Shifted(i, e)))
    ensures NextWrite(Next(s, e), Shifted(i, e)) == NextWrite(s, i)
  {
    if e.CallbackConfirm? { assert s.flights[e.index] in s.flights; }
  }

  /** So it keeps the contract the agent relies on. */
  lemma ServedIsAnswered(m: Mount, k: Stack, e: Event)
    requires Coupled(m, k) && StackEnabled(m, k, Agent(e))
    ensures Answered(k.agent.file, k.agent, e)
  {
    var s := k.agent;
    if e.ReadReturn? {
      NothingPending(k);
      AdapterReadsFlat(m, k.objects, s.file, s.op.request.offset, s.op.request.size);
    } else if e.StorageAnswer? && forall fl :: fl in s.flights ==> Done(fl) {
      NothingUnderWay(k);
      AdapterReadsFlat(m, k.objects, s.file, s.cache.pendingOffset, s.cache.pending.value.size);
    }
  }

  lemma BeginStores(m: Mount, objects: Objects, f: Bytes, c: Chunk)
    requires Holds(objects, m.adj, m.bs, f) && ObjectsFit(objects, m.bs) && c.offset + |c.data| <= Limit(m)
    ensures Holds(Finishing(m, objects, Begun(m, c)), m.adj, m.bs, Apply(f, c))
  {
    WriteRefinesFlat(objects, m.adj, m.bs, c.offset, c.data);
  }

  lemma BeginStep(m: Mount, k: Stack, i: nat)
    requires Coupled(m, k) && StackEnabled(m, k, BeginWrite(i))
    ensures Coupled(m, StackNext(m, k, BeginWrite(i)))
  {
    assert InRange(Limit(m), k.agent.flights[i].chunks);
    BeginStores(m, k.objects, k.agent.file, NextWrite(k.agent, i));
  }

  /** Storing a block leaves what finishing the write is going to leave. */
  lemma BlockStores(m: Mount, objects: Objects, w: Writing)
    requires ObjectsFit(objects, m.bs) && w.o < m.bs && w.k < |w.chunk.data|
    ensures var next := PutChunk(objects, m.adj, m.bs, w.id, w.o, w.chunk.data[w.k..]);
            && Finishing(m, next, OneBlockOn(m, w)) == Finishing(m, objects, w)
            && OthersKept(objects, next, m.adj)
  {
    KeyIsListed(m.adj, w.id);
  }

  lemma BlockStep(m: Mount, k: Stack)
    requires Coupled(m, k) && StackEnabled(m, k, BlockWritten)
    ensures Coupled(m, StackNext(m, k, BlockWritten))
    ensures OthersKept(k.objects, StackNext(m, k, BlockWritten).objects, m.adj)
  {
    BlockStores(m, k.objects, k.writing.value);
  }

  lemma WriteStored(m: Mount, objects: Objects, w: Writing, f: Bytes)
    requires Fits(m, objects, Some(w)) && StoreOk(m, objects, Some(w), f) && w.k == |w.chunk.data|
    ensures StoreOk(m, objects, None, Apply(f, w.chunk))
  {
  }

  lemma FileAfter(s: State, e: Event)
    requires CanStep(s, e)
    ensures Next(s, e).file == if e.StorageApply? then Apply(s.file, NextWrite(s, e.index)) else s.file
  {
  }

  lemma AgentStep(m: Mount, k: Stack, e: Event)
    requires Coupled(m, k) && StackEnabled(m, k, Agent(e)) && EventInRange(Limit(m), Agent(e))
    ensures Enabled(k.agent, e) && Coupled(m, StackNext(m, k, Agent(e)))
  {
    ServedIsAnswered(m, k, e);
    StepKeeps(k.agent, e);
    StepInRange(Limit(m), k.agent, e);
    FileAfter(k.agent, e);
    if e.StorageApply? {
      WriteStored(m, k.objects, k.writing.value, k.agent.file);
    } else if k.writing.Some? {
      NextWriteStays(k.agent, k.serving, e);
    }
  }

  /** Every step of the stack is a step of the agent over a flat file, or none; the objects go on holding that
      file, up to the write under way, and no other file changes. */
  lemma StackStep(m: Mount, k: Stack, e: StackEvent)
    requires Coupled(m, k) && StackEnabled(m, k, e) && EventInRange(Limit(m), e)
    ensures if e.Agent? then Enabled(k.agent, e.event) && StackNext(m, k, e).agent == Next(k.agent, e.event)
            else StackNext(m, k, e).agent == k.agent
    ensures Coupled(m, StackNext(m, k, e)) && OthersKept(k.objects, StackNext(m, k, e).objects, m.adj)
  {
    match e
    case BeginWrite(i) => BeginStep(m, k, i);
    case BlockWritten => BlockStep(m, k);
    case Agent(a) => AgentStep(m, k, a);
  }

  lemma AgentEventsHead(es: seq<StackEvent>)
    requires es != []
    ensures AgentEvents(es) == if es[0].Agent? then [es[0].event] + AgentEvents(es[1..]) else AgentEvents(es[1..])
  {
  }

  /** Every history of the stack is, for the agent, a history over a flat file. */
  lemma {:induction false} StackRun(m: Mount, k: Stack, es: seq<StackEvent>)
    requires Coupled(m, k) && StackLegal(m, k, es) && forall i :: 0 <= i < |es| ==> EventInRange(Limit(m), es[i])
    ensures Legal(k.agent, AgentEvents(es))
    ensures var t := StackFinal(m, k, es);
            t.agent == Final(k.agent, AgentEvents(es)) && Coupled(m, t) && OthersKept(k.objects, t.objects, m.adj)
    decreases es
  {
    if es != [] {
      StackStep(m, k, es[0]);
      StackRun(m, StackNext(m, k, es[0]), es[1..]);
      AgentEventsHead(es);
      if es[0].Agent? { LegalStep(k.agent, es[0].event, AgentEvents(es[1..])); }
    }
  }

  /** Nothing is pushed that overlaps what an outstanding multiwrite has left. */
  ghost predicate StackCareful(m: Mount, k: Stack, es: seq<StackEvent>)
    requires Sound(m, k) && StackLegal(m, k, es)
    decreases es
  {
    es == [] ||
    ((es[0].Agent? ==> AllApart(Remaining(k.agent.flights), Pushed(k.agent, es[0].event))) &&
     StackCareful(m, StackNext(m, k, es[0]), es[1..]))
  }

  lemma {:induction false} CarefulAgent(m: Mount, k: Stack, es: seq<StackEvent>)
    requires Sound(m, k) && StackLegal(m, k, es) && StackCareful(m, k, es) && Legal(k.agent, AgentEvents(es))
    ensures Careful(k.agent, AgentEvents(es))
    decreases es
  {
    if es != [] {
      AgentEventsHead(es);
      if es[0].Agent? { assert AgentEvents(es)[1..] == AgentEvents(es[1..]); }
      CarefulAgent(m, StackNext(m, k, es[0]), es[1..]);
    }
  }

  // ------------------------------------------------------------------- main results

  ghost function Opened(m: Mount, objects: Objects): Stack
    requires m.bs > 0
  {
    Stack(Init(FileAt(objects, m.adj, m.bs)), objects, None, 0)
  }

  ghost predicate StackReaches(m: Mount, objects: Objects, es: seq<StackEvent>) {
    && FileOk(objects, m.adj, m.bs) && ObjectsFit(objects, m.bs)
    && StackLegal(m, Opened(m, objects), es)
    && forall i :: 0 <= i < |es| ==> EventInRange(Limit(m), es[i])
  }

  lemma StackReached(m: Mount, objects: Objects, es: seq<StackEvent>)
    requires StackReaches(m, objects, es)
    ensures Legal(Init(FileAt(objects, m.adj, m.bs)), AgentEvents(es))
    ensures var t := StackFinal(m, Opened(m, objects), es);
            && t.agent == Final(Init(FileAt(objects, m.adj, m.bs)), AgentEvents(es))
            && Coupled(m, t) && OthersKept(objects, t.objects, m.adj)
  {
    StackRun(m, Opened(m, objects), es);
  }

  /** Down to the objects, and whatever overtakes what: a read answers a prefix of what landed. */
  lemma StackReadsWhatLanded(m: Mount, objects: Objects, es: seq<StackEvent>, e: Event)
    requires StackReaches(m, objects, es) && e.ReadReturn?
    requires StackEnabled(m, StackFinal(m, Opened(m, objects), es), Agent(e))
    ensures var f, s := FileAt(objects, m.adj, m.bs), StackFinal(m, Opened(m, objects), es).agent;
            Legal(Init(f), AgentEvents(es)) &&
            IsFreshReply(ApplyAll(f, Landed(Init(f), AgentEvents(es))), s.op.request, ReadReply(s, e))
  {
    StackReached(m, objects, es);
    ServedIsAnswered(m, StackFinal(m, Opened(m, objects), es), e);
    ReadsWhatLanded(FileAt(objects, m.adj, m.bs), AgentEvents(es), e);
  }

  /** Read-your-writes down to the objects: over buffers, cache, multiwrites and blocks, and with multiwrites
      overtaking each other, a read answers a prefix of what all earlier writes left there, and nothing only where
      there is nothing, as long as pushes are careful. */
  lemma StackReadsYourWrites(m: Mount, objects: Objects, es: seq<StackEvent>, e: Event)
    requires StackReaches(m, objects, es) && StackCareful(m, Opened(m, objects), es) && e.ReadReturn?
    requires StackEnabled(m, StackFinal(m, Opened(m, objects), es), Agent(e))
    ensures var s := StackFinal(m, Opened(m, objects), es).agent;
            var file := ApplyAll(FileAt(objects, m.adj, m.bs), Written(AgentEvents(es)));
            IsFreshReply(file, s.op.request, ReadReply(s, e))
  {
    StackReached(m, objects, es);
    CarefulAgent(m, Opened(m, objects), es);
    ServedIsAnswered(m, StackFinal(m, Opened(m, objects), es), e);
    CarefulReadsYourWrites(FileAt(objects, m.adj, m.bs), AgentEvents(es), e);
  }

  lemma DurableObjects(m: Mount, k: Stack)
    requires Coupled(m, k) && k.agent.pendingConfirmation == 0
    ensures Holds(k.objects, m.adj, m.bs, k.agent.file)
  {
    NothingPending(k);
  }

  /** When fsync or release returns, the objects hold every accepted write, and no other file has changed. */
  lemma StackSyncIsDurable(m: Mount, objects: Objects, es: seq<StackEvent>)
    requires StackReaches(m, objects, es) && StackCareful(m, Opened(m, objects), es)
    requires StackEnabled(m, StackFinal(m, Opened(m, objects), es), Agent(SyncReturn))
    ensures var after := StackFinal(m, Opened(m, objects), es).objects;
            && Holds(after, m.adj, m.bs, ApplyAll(FileAt(objects, m.adj, m.bs), Written(AgentEvents(es))))
            && OthersKept(objects, after, m.adj)
  {
    StackReached(m, objects, es);
    CarefulAgent(m, Opened(m, objects), es);
    DurableObjects(m, StackFinal(m, Opened(m, objects), es));
    CarefulSyncIsDurable(FileAt(objects, m.adj, m.bs), AgentEvents(es));
  }

  // ------------------------------------------------------------- what can go wrong

  lemma StackLegalStep(m: Mount, k: Stack, e: StackEvent, es: seq<StackEvent>)
    requires Sound(m, k) && StackEnabled(m, k, e) && StackLegal(m, StackNext(m, k, e), es)
    ensures StackLegal(m, k, [e] + es)
    ensures StackFinal(m, k, [e] + es) == StackFinal(m, StackNext(m, k, e), es)
    ensures AgentEvents([e] + es) == if e.Agent? then [e.event] + AgentEvents(es) else AgentEvents(es)
  {
    assert ([e] + es)[1..] == es;
    AgentEventsHead([e] + es);
  }

  /** The stack can take this step of the agent, and is then free again. */
  ghost predicate Takes(m: Mount, k: Stack, e: Event, es: seq<StackEvent>) {
    && Sound(m, k) && CanStep(k.agent, e) && StackLegal(m, k, es) && AgentEvents(es) == [e]
    && StackFinal(m, k, es).agent == Next(k.agent, e) && StackFinal(m, k, es).writing.None?
  }

  lemma {:induction false} FinishWrite(m: Mount, k: Stack) returns (es: seq<StackEvent>)
    requires m.bs > 0 && Sound(m, k) && k.writing.Some? && CanStep(k.agent, StorageApply(k.serving))
    ensures Takes(m, k, StorageApply(k.serving), es)
    decreases |k.writing.value.chunk.data| - k.writing.value.k
  {
    var w := k.writing.value;
    if w.k == |w.chunk.data| {
      StackLegalStep(m, k, Agent(StorageApply(k.serving)), []);
      es := [Agent(StorageApply(k.serving))];
    } else {
      var rest := FinishWrite(m, StackNext(m, k, BlockWritten));
      StackLegalStep(m, k, BlockWritten, rest);
      es := [BlockWritten] + rest;
    }
  }

  lemma TakeStep(m: Mount, k: Stack, e: Event) returns (es: seq<StackEvent>)
    requires m.bs > 0 && Sound(m, k) && k.writing.None? && CanStep(k.agent, e) && !e.ReadReturn? && !e.StorageAnswer?
    ensures Takes(m, k, e, es)
  {
    if e.StorageApply? {
      var rest := FinishWrite(m, StackNext(m, k, BeginWrite(e.index)));
      StackLegalStep(m, k, BeginWrite(e.index), rest);
      es := [BeginWrite(e.index)] + rest;
    } else {
      StackLegalStep(m, k, Agent(e), []);
      es := [Agent(e)];
    }
  }

  lemma {:induction false} StackLegalConcat(m: Mount, k: Stack, a: seq<StackEvent>, b: seq<StackEvent>)
    requires Sound(m, k) && StackLegal(m, k, a) && StackLegal(m, StackFinal(m, k, a), b)
    ensures StackLegal(m, k, a + b) && StackFinal(m, k, a + b) == StackFinal(m, StackFinal(m, k, a), b)
    decreases a
  {
    if a == [] {
      assert a + b == b;
    } else {
      assert (a + b)[0] == a[0] && (a + b)[1..] == a[1..] + b;
      StackLegalConcat(m, StackNext(m, k, a[0]), a[1..], b);
    }
  }

  lemma {:induction false} AgentEventsConcat(a: seq<StackEvent>, b: seq<StackEvent>)
    ensures AgentEvents(a + b) == AgentEvents(a) + AgentEvents(b)
  {
    if a == [] {
      assert a + b == b;
    } else {
      assert (a + b)[0] == a[0] && (a + b)[1..] == a[1..] + b;
      AgentEventsHead(a + b);
      AgentEventsHead(a);
      AgentEventsConcat(a[1..], b);
    }
  }

  predicate NoReads(es: seq<Event>) { forall e :: e in es ==> !e.ReadReturn? && !e.StorageAnswer? }

  /** Every history of the agent without reads, in whatever order its multiwrites are served, is one of the
      stack. */
  lemma {:induction false} StackFollows(m: Mount, k: Stack, es: seq<Event>) returns (ss: seq<StackEvent>)
    requires m.bs > 0 && Sound(m, k) && k.writing.None? && Legal(k.agent, es) && NoReads(es)
    ensures StackLegal(m, k, ss) && AgentEvents(ss) == es
    ensures StackFinal(m, k, ss).agent == Final(k.agent, es)
    decreases es
  {
    if es == [] {
      ss := [];
    } else {
      assert es[0] in es;
      var a := TakeStep(m, k, es[0]);
      var b := StackFollows(m, StackFinal(m, k, a), es[1..]);
      StackLegalConcat(m, k, a, b);
      AgentEventsConcat(a, b);
      ss := a + b;
    }
  }

  lemma {:induction false} InRangeIfWrites(limit: nat, ss: seq<StackEvent>)
    requires forall e :: e in AgentEvents(ss) ==> EventInRange(limit, Agent(e))
    ensures forall i :: 0 <= i < |ss| ==> EventInRange(limit, ss[i])
    decreases ss
  {
    if ss != [] {
      AgentEventsHead(ss);
      InRangeIfWrites(limit, ss[1..]);
      if ss[0].Agent? { assert AgentEvents(ss)[0] == ss[0].event; }
    }
  }

  /** Two multiwrites, the older one's last buffer stored after the newer one: everything is confirmed, and the
      objects have lost the newer write. */
  lemma StackOvertakenExample(m: Mount, objects: Objects, r: Request) returns (ss: seq<StackEvent>)
    requires FileOk(objects, m.adj, m.bs) && ObjectsFit(objects, m.bs)
    ensures StackReaches(m, objects, ss)
    ensures var k := StackFinal(m, Opened(m, objects), ss);
            var file := ApplyAll(FileAt(objects, m.adj, m.bs), Written(AgentEvents(ss)));
            && k.agent.op == Syncing(r) && k.agent.pendingConfirmation == 0
            && FileOk(k.objects, m.adj, m.bs) && |FileAt(k.objects, m.adj, m.bs)| > 8 && |file| > 8
            && FileAt(k.objects, m.adj, m.bs)[8] == 2 && file[8] == 3
  {
    var f := FileAt(objects, m.adj, m.bs);
    OvertakenExample(f, r);
    OvertakenQuiet(Limit(m), r);
    ss := StackFollows(m, Opened(m, objects), OvertakenRun(r));
    InRangeIfWrites(Limit(m), ss);
    StackReached(m, objects, ss);
    DurableObjects(m, StackFinal(m, Opened(m, objects), ss));
  }

  lemma OvertakenQuiet(limit: nat, r: Request)
    requires limit >= 9
    ensures NoReads(OvertakenRun(r)) && forall e :: e in OvertakenRun(r) ==> EventInRange(limit, Agent(e))
  {
  }

  // ---------------------------------------------------------------------- multiwrite

  /** The objects after the writes of a multiwrite that are all stored. */
  function WrittenAll(m: Mount, objects: Objects, cs: seq<Chunk>): Objects
    requires m.bs > 0 && ObjectsFit(objects, m.bs)
    decreases cs
  {
    if cs == [] then objects
    else WrittenAll(m, WrittenObjects(objects, m.adj, m.bs, cs[0].offset, cs[0].data), cs[1..])
  }

  lemma {:induction false} WritesFollow(m: Mount, objects: Objects, cs: seq<Chunk>)
    requires FileOk(objects, m.adj, m.bs) && ObjectsFit(objects, m.bs) && InRange(Limit(m), cs)
    ensures Holds(WrittenAll(m, objects, cs), m.adj, m.bs, ApplyAll(FileAt(objects, m.adj, m.bs), cs))
    decreases cs
  {
    if cs != [] {
      WriteRefinesFlat(objects, m.adj, m.bs, cs[0].offset, cs[0].data);
      WritesFollow(m, WrittenObjects(objects, m.adj, m.bs, cs[0].offset, cs[0].data), cs[1..]);
    }
  }

  /** A multiwrite over the adapter leaves the file the chain of flat writes leaves. */
  lemma MultiwriteOnObjects(m: Mount, objects: Objects, cs: seq<Chunk>, answers: seq<Multiwrite.Answer>)
    requires FileOk(objects, m.adj, m.bs) && ObjectsFit(objects, m.bs) && InRange(Limit(m), cs)
    requires cs != [] && Multiwrite.Answers(cs, answers)
    requires forall i :: 0 <= i < |cs| ==> Multiwrite.Full(cs, answers, i)
    ensures Holds(WrittenAll(m, objects, cs), m.adj, m.bs,
                  Multiwrite.Multiwrite(FileAt(objects, m.adj, m.bs), cs, answers).file)
  {
    WritesFollow(m, objects, cs);
    Multiwrite.FullMultiwrite(FileAt(objects, m.adj, m.bs), cs, answers);
  }
}
