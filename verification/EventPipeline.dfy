/** The event pipeline of one stream: counter and size aggregation over a buffer that exists while there are
    subscriptions. */
module EventPipeline {
  import opened Options
  import opened WriteEvents

  type Key = string
  type Buffer = map<Key, WriteEvent>

  /** The event buffer, None for the one that ignores events, and what its clear handler was given so far. */
  datatype Outlet = Outlet(buffer: Option<Buffer>, reports: seq<Buffer>)

  /** counter, size: since the last trigger. */
  datatype Pipe = Pipe(counter: nat, size: nat, counterLimits: multiset<nat>, sizeLimits: multiset<nat>,
                       subs: set<int>, out: Outlet)

  datatype Subscription = Subscription(id: int, counterLimit: Option<nat>, sizeLimit: Option<nat>, timed: bool)

  /** An unsubscribe handler: what it takes back, and whether the subscription was entered at all. */
  datatype Handler = Handler(id: int, counterLimit: Option<nat>, sizeLimit: Option<nat>, entered: bool,
                             serial: nat)

  const INITIAL: Pipe := Pipe(0, 0, multiset{}, multiset{}, {}, Outlet(None, []))

  /** The smallest limit is reached. */
  predicate Reached(limits: multiset<nat>, v: nat) { exists t :: t in limits && t <= v }

  ghost function Push(out: Outlet, k: Key, e: WriteEvent): Outlet {
    if out.buffer.None? then out
    else
      var b := out.buffer.value;
      Outlet(Some(b[k := if k in b then Aggregate(b[k], e) else e]), out.reports)
  }

  /** clear() on the buffer. */
  function Flush(out: Outlet): Outlet {
    if out.buffer.None? then out else Outlet(Some(map[]), out.reports + [out.buffer.value])
  }

  /** Replacing the buffer flushes the old one. */
  function Install(out: Outlet, b: Option<Buffer>): Outlet { Outlet(b, Flush(out).reports) }

  function Trigger(p: Pipe): Pipe { Pipe(0, 0, p.counterLimits, p.sizeLimits, p.subs, Flush(p.out)) }

  ghost function Process(p: Pipe, k: Key, e: WriteEvent): Pipe {
    var pushed := Push(p.out, k, e);
    if Reached(p.counterLimits, p.counter + e.counter) || Reached(p.sizeLimits, p.size + e.size) then
      Pipe(0, 0, p.counterLimits, p.sizeLimits, p.subs, Flush(pushed))
    else
      Pipe(p.counter + e.counter, p.size + e.size, p.counterLimits, p.sizeLimits, p.subs, pushed)
  }

  predicate Empty(sub: Subscription) { sub.counterLimit.None? && sub.sizeLimit.None? && !sub.timed }

  predicate Enters(p: Pipe, sub: Subscription) { !Empty(sub) && sub.id !in p.subs }

  function AddCounterLimit(p: Pipe, limit: Option<nat>): Pipe {
    if limit.None? then p
    else
      var limits := p.counterLimits + multiset{limit.value};
      if limit.value <= p.counter then Pipe(0, 0, limits, p.sizeLimits, p.subs, Flush(p.out))
      else Pipe(p.counter, p.size, limits, p.sizeLimits, p.subs, p.out)
  }

  function AddSizeLimit(p: Pipe, limit: Option<nat>): Pipe {
    if limit.None? then p
    else
      var limits := p.sizeLimits + multiset{limit.value};
      if limit.value <= p.size then Pipe(0, 0, p.counterLimits, limits, p.subs, Flush(p.out))
      else Pipe(p.counter, p.size, p.counterLimits, limits, p.subs, p.out)
  }

  function Enter(p: Pipe, sub: Subscription): Pipe {
    if !Enters(p, sub) then p
    else Pipe(p.counter, p.size, p.counterLimits, p.sizeLimits, p.subs + {sub.id},
              if p.subs == {} then Install(p.out, Some(map[])) else p.out)
  }

  function Subscribe(p: Pipe, sub: Subscription): Pipe {
    Enter(AddSizeLimit(AddCounterLimit(p, sub.counterLimit), sub.sizeLimit), sub)
  }

  function HandlerFor(p: Pipe, sub: Subscription, serial: nat): Handler {
    Handler(sub.id, sub.counterLimit, sub.sizeLimit, Enters(p, sub), serial)
  }

  function DropCounterLimit(p: Pipe, limit: Option<nat>): Pipe {
    if limit.None? then p
    else
      var limits := p.counterLimits - multiset{limit.value};
      Pipe(if limits == multiset{} then 0 else p.counter, p.size, limits, p.sizeLimits, p.subs, p.out)
  }

  function DropSizeLimit(p: Pipe, limit: Option<nat>): Pipe {
    if limit.None? then p
    else
      var limits := p.sizeLimits - multiset{limit.value};
      Pipe(p.counter, if limits == multiset{} then 0 else p.size, p.counterLimits, limits, p.subs, p.out)
  }

  function Depart(p: Pipe, h: Handler): Pipe {
    if !h.entered then p
    else
      var subs := p.subs - {h.id};
      Pipe(p.counter, p.size, p.counterLimits, p.sizeLimits, subs, if subs == {} then Install(p.out, None) else p.out)
  }

  /** Running an unsubscribe handler. */
  function Unsubscribe(p: Pipe, h: Handler): Pipe {
    Depart(DropSizeLimit(DropCounterLimit(p, h.counterLimit), h.sizeLimit), h)
  }

  datatype Action =
    | Processing(key: Key, event: WriteEvent) | Subscribing(sub: Subscription) | Unsubscribing(handler: Handler)
    | Triggering

  ghost function Next(p: Pipe, a: Action): Pipe {
    match a
    case Processing(k, e) => Process(p, k, e)
    case Subscribing(sub) => Subscribe(p, sub)
    case Unsubscribing(h) => Unsubscribe(p, h)
    case Triggering => Trigger(p)
  }

  ghost function Final(p: Pipe, as_: seq<Action>): Pipe
    decreases as_
  {
    if as_ == [] then p else Final(Next(p, as_[0]), as_[1..])
  }

  // ---------------------------------------------------------------------- thresholds

  /** Limits of at least one. */
  predicate SubOk(sub: Subscription) {
    (sub.counterLimit.Some? ==> sub.counterLimit.value >= 1) && (sub.sizeLimit.Some? ==> sub.sizeLimit.value >= 1)
  }

  predicate ActionOk(a: Action) { a.Subscribing? ==> SubOk(a.sub) }

  /** Both counts are below every live limit, and there is a buffer exactly while there are subscriptions. */
  ghost predicate Inv(p: Pipe) {
    && (forall t :: t in p.counterLimits ==> p.counter < t)
    && (forall t :: t in p.sizeLimits ==> p.size < t)
    && (p.out.buffer.Some? <==> p.subs != {})
  }

  lemma ProcessKeeps(p: Pipe, k: Key, e: WriteEvent)
    requires Inv(p)
    ensures Inv(Process(p, k, e))
  {
  }

  lemma AddCounterKeeps(p: Pipe, limit: Option<nat>)
    requires Inv(p) && (limit.Some? ==> limit.value >= 1)
    ensures Inv(AddCounterLimit(p, limit))
  {
  }

  lemma AddSizeKeeps(p: Pipe, limit: Option<nat>)
    requires Inv(p) && (limit.Some? ==> limit.value >= 1)
    ensures Inv(AddSizeLimit(p, limit))
  {
  }

  lemma SubscribeKeeps(p: Pipe, sub: Subscription)
    requires Inv(p) && SubOk(sub)
    ensures Inv(Subscribe(p, sub))
  {
    AddCounterKeeps(p, sub.counterLimit);
    AddSizeKeeps(AddCounterLimit(p, sub.counterLimit), sub.sizeLimit);
    EnterKeeps(AddSizeLimit(AddCounterLimit(p, sub.counterLimit), sub.sizeLimit), sub);
  }

  lemma CounterThreshold(p: Pipe, limit: Option<nat>)
    ensures var q := AddCounterLimit(p, limit);
            && (forall t :: t in p.counterLimits ==> t in q.counterLimits)
            && (limit.Some? ==> limit.value in q.counterLimits)
  {
  }

  lemma LaterLimits(p: Pipe, sub: Subscription)
    ensures forall t :: t in p.counterLimits ==> t in Enter(AddSizeLimit(p, sub.sizeLimit), sub).counterLimits
    ensures sub.sizeLimit.Some? ==> sub.sizeLimit.value in Enter(AddSizeLimit(p, sub.sizeLimit), sub).sizeLimits
  {
    assert Enter(AddSizeLimit(p, sub.sizeLimit), sub).counterLimits == p.counterLimits;
  }

  /** A subscription keeps the counts below every live threshold exactly when its own are at least one. */
  lemma ThresholdsExactly(p: Pipe, sub: Subscription)
    requires Inv(p)
    ensures Inv(Subscribe(p, sub)) <==> SubOk(sub)
  {
    if SubOk(sub) {
      SubscribeKeeps(p, sub);
    } else {
      CounterThreshold(p, sub.counterLimit);
      LaterLimits(AddCounterLimit(p, sub.counterLimit), sub);
    }
  }

  lemma EnterKeeps(p: Pipe, sub: Subscription)
    requires Inv(p)
    ensures Inv(Enter(p, sub))
  {
  }

  lemma DropCounterKeeps(p: Pipe, limit: Option<nat>)
    requires Inv(p)
    ensures Inv(DropCounterLimit(p, limit))
  {
  }

  lemma DropSizeKeeps(p: Pipe, limit: Option<nat>)
    requires Inv(p)
    ensures Inv(DropSizeLimit(p, limit))
  {
  }

  lemma DepartKeeps(p: Pipe, h: Handler)
    requires Inv(p)
    ensures Inv(Depart(p, h))
  {
  }

  lemma UnsubscribeKeeps(p: Pipe, h: Handler)
    requires Inv(p)
    ensures Inv(Unsubscribe(p, h))
  {
    DropCounterKeeps(p, h.counterLimit);
    DropSizeKeeps(DropCounterLimit(p, h.counterLimit), h.sizeLimit);
    DepartKeeps(DropSizeLimit(DropCounterLimit(p, h.counterLimit), h.sizeLimit), h);
  }

  lemma StepKeeps(p: Pipe, a: Action)
    requires Inv(p) && ActionOk(a)
    ensures Inv(Next(p, a))
  {
    match a
    case Processing(k, e) => ProcessKeeps(p, k, e);
    case Subscribing(sub) => SubscribeKeeps(p, sub);
    case Unsubscribing(h) => UnsubscribeKeeps(p, h);
    case Triggering =>
  }

  /** After every action of every history, the counts are below every live limit. */
  lemma {:induction false} RunKeeps(p: Pipe, as_: seq<Action>)
    requires Inv(p) && forall i :: 0 <= i < |as_| ==> ActionOk(as_[i])
    ensures Inv(Final(p, as_))
    decreases as_
  {
    if as_ != [] {
      StepKeeps(p, as_[0]);
      RunKeeps(Next(p, as_[0]), as_[1..]);
    }
  }

  // -------------------------------------------------------------------- conservation

  ghost function Entry(b: Buffer, k: Key): Option<WriteEvent> { if k in b then Some(b[k]) else None }

  /** All that was reported about a key, in order, as one event. */
  ghost function Reported(rs: seq<Buffer>, k: Key): Option<WriteEvent> {
    if rs == [] then None else Join(Reported(rs[..|rs| - 1], k), Entry(rs[|rs| - 1], k))
  }

  /** Reported and still buffered, as one event. */
  ghost function Known(out: Outlet, k: Key): Option<WriteEvent> {
    Join(Reported(out.reports, k), if out.buffer.None? then None else Entry(out.buffer.value, k))
  }

  lemma FlushKeepsKnown(out: Outlet, k: Key)
    ensures Known(Flush(out), k) == Known(out, k) && Known(Install(out, None), k) == Known(out, k)
    ensures Known(Install(out, Some(map[])), k) == Known(out, k)
  {
    if out.buffer.Some? {
      var rs := out.reports + [out.buffer.value];
      assert rs[..|rs| - 1] == out.reports;
    }
  }

  lemma PushAddsKnown(out: Outlet, k: Key, e: WriteEvent, j: Key)
    ensures Known(Push(out, k, e), j) == Join(Known(out, j), if out.buffer.Some? && j == k then Some(e) else None)
  {
    if out.buffer.Some? && j == k {
      JoinAssociates(Reported(out.reports, k), Entry(out.buffer.value, k), Some(e));
    }
  }

  lemma ProcessAddsKnown(p: Pipe, k: Key, e: WriteEvent, j: Key)
    ensures Known(Process(p, k, e).out, j)
         == Join(Known(p.out, j), if p.out.buffer.Some? && j == k then Some(e) else None)
  {
    PushAddsKnown(p.out, k, e, j);
    FlushKeepsKnown(Push(p.out, k, e), j);
  }

  lemma AddLimitKeepsKnown(p: Pipe, limit: Option<nat>, j: Key)
    ensures Known(AddCounterLimit(p, limit).out, j) == Known(p.out, j)
    ensures Known(AddSizeLimit(p, limit).out, j) == Known(p.out, j)
  {
    FlushKeepsKnown(p.out, j);
  }

  lemma EnterKeepsKnown(p: Pipe, sub: Subscription, j: Key)
    ensures Known(Enter(p, sub).out, j) == Known(p.out, j)
  {
    FlushKeepsKnown(p.out, j);
  }

  lemma SubscribeKeepsKnown(p: Pipe, sub: Subscription, j: Key)
    ensures Known(Subscribe(p, sub).out, j) == Known(p.out, j)
  {
    var q := AddCounterLimit(p, sub.counterLimit);
    AddLimitKeepsKnown(p, sub.counterLimit, j);
    AddLimitKeepsKnown(q, sub.sizeLimit, j);
    EnterKeepsKnown(AddSizeLimit(q, sub.sizeLimit), sub, j);
  }

  lemma DropLimitKeepsOut(p: Pipe, limit: Option<nat>)
    ensures DropCounterLimit(p, limit).out == p.out && DropSizeLimit(p, limit).out == p.out
  {
  }

  lemma DepartKeepsKnown(p: Pipe, h: Handler, j: Key)
    ensures Known(Depart(p, h).out, j) == Known(p.out, j)
  {
    FlushKeepsKnown(p.out, j);
  }

  lemma UnsubscribeKeepsKnown(p: Pipe, h: Handler, j: Key)
    ensures Known(Unsubscribe(p, h).out, j) == Known(p.out, j)
  {
    var q := DropCounterLimit(p, h.counterLimit);
    DropLimitKeepsOut(p, h.counterLimit);
    DropLimitKeepsOut(q, h.sizeLimit);
    DepartKeepsKnown(DropSizeLimit(q, h.sizeLimit), h, j);
  }

  /** The event an action brings in for a key, while there is a subscription. */
  function Accepted(p: Pipe, a: Action, k: Key): seq<WriteEvent> {
    if a.Processing? && a.key == k && p.subs != {} then [a.event] else []
  }

  lemma StepKnown(p: Pipe, a: Action, k: Key)
    requires Inv(p)
    ensures Known(Next(p, a).out, k) == Join(Known(p.out, k), Fold(Accepted(p, a, k)))
  {
    if Accepted(p, a, k) != [] { assert Fold([a.event]) == Join(Fold([a.event][..0]), Some(a.event)); }
    match a
    case Processing(j, e) => ProcessAddsKnown(p, j, e, k);
    case Subscribing(sub) => SubscribeKeepsKnown(p, sub, k);
    case Unsubscribing(h) => UnsubscribeKeepsKnown(p, h, k);
    case Triggering => FlushKeepsKnown(p.out, k);
  }

  ghost function AllAccepted(p: Pipe, as_: seq<Action>, k: Key): seq<WriteEvent>
    decreases as_
  {
    if as_ == [] then [] else Accepted(p, as_[0], k) + AllAccepted(Next(p, as_[0]), as_[1..], k)
  }

  /** Nothing is lost, repeated or reordered: what is reported and buffered about a key amounts to the
      aggregate of the events processed for it while subscriptions lived, flushes included. */
  lemma {:induction false} Conservation(p: Pipe, as_: seq<Action>, k: Key)
    requires Inv(p) && forall i :: 0 <= i < |as_| ==> ActionOk(as_[i])
    ensures Known(Final(p, as_).out, k) == Join(Known(p.out, k), Fold(AllAccepted(p, as_, k)))
    decreases as_
  {
    if as_ != [] {
      var rest := AllAccepted(Next(p, as_[0]), as_[1..], k);
      StepKnown(p, as_[0], k);
      StepKeeps(p, as_[0]);
      Conservation(Next(p, as_[0]), as_[1..], k);
      FoldConcat(Accepted(p, as_[0], k), rest);
      JoinAssociates(Known(p.out, k), Fold(Accepted(p, as_[0], k)), Fold(rest));
    }
  }

  /** From an idle stream: the reports on a file, with what is still buffered, count every accepted operation,
      and know its size exactly if it was truncated. */
  lemma FileIsReported(as_: seq<Action>, k: Key, ops: seq<Op>, size: nat)
    requires forall i :: 0 <= i < |as_| ==> ActionOk(as_[i])
    requires ops != [] && (forall i :: 0 <= i < |ops| ==> OpOk(ops[i]))
    requires AllAccepted(INITIAL, as_, k) == Events(ops)
    ensures Known(Final(INITIAL, as_).out, k).Some? && Reports(ops, size, Known(Final(INITIAL, as_).out, k).value)
  {
    Conservation(INITIAL, as_, k);
    FoldReports(ops, size);
  }
}
