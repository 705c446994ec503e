/** The worker's queue and the subscription registry around the event pipeline, as a state machine: posts and
    removals come from any thread at any time, the worker takes the queue in order. */
module EventSystem {
  import opened Options
  import opened WriteEvents
  import P = EventPipeline

  datatype Work =
    | Emit(key: P.Key, event: WriteEvent) | Subscribe(sub: P.Subscription) | Run(handler: P.Handler)
    | PeriodicTrigger

  /** live: handlers made and not yet run, by serial number; ran: those that ran. */
  datatype System = System(pipe: P.Pipe, queue: seq<Work>, registry: map<int, P.Handler>,
                           made: nat, live: set<nat>, ran: set<nat>)

  datatype Event = Post(work: Work) | Remove(id: int) | Turn

  const INITIAL: System := System(P.INITIAL, [], map[], 0, {}, {})

  /** Others post everything but handlers; those reach the queue through the registry. */
  predicate Enabled(s: System, e: Event) {
    match e
    case Post(w) => !w.Run? && (w.Subscribe? ==> P.SubOk(w.sub))
    case Remove(_) => true
    case Turn => s.queue != []
  }

  ghost function Next(s: System, e: Event): System {
    match e
    case Post(w) => s.(queue := s.queue + [w])
    case Remove(id) => RemoveSubscription(s, id)
    case Turn => if s.queue == [] then s else TakeTurn(s.(queue := s.queue[1..]), s.queue[0])
  }

  /** removeSubscription: the handler, if there is one, is posted and forgotten. */
  function RemoveSubscription(s: System, id: int): System {
    if id !in s.registry then s
    else s.(queue := s.queue + [Run(s.registry[id])], registry := s.registry - {id})
  }

  /** addUnsubscribeHandler: kept under the id, or run - that is, posted - at once if the id is taken. */
  function AddHandler(s: System, id: int, h: P.Handler): System {
    if id in s.registry then s.(queue := s.queue + [Run(h)]) else s.(registry := s.registry[id := h])
  }

  ghost function TakeTurn(s: System, w: Work): System {
    match w
    case Emit(k, e) => s.(pipe := P.Process(s.pipe, k, e))
    case Subscribe(sub) =>
      var h := P.HandlerFor(s.pipe, sub, s.made);
      AddHandler(s.(pipe := P.Subscribe(s.pipe, sub), made := s.made + 1, live := s.live + {s.made}), sub.id, h)
    case Run(h) =>
      s.(pipe := P.Unsubscribe(s.pipe, h), live := s.live - {h.serial}, ran := s.ran + {h.serial})
    case PeriodicTrigger => s.(pipe := P.Trigger(s.pipe))
  }

  // -------------------------------------------------------------------------- claims

  /** Something a handler is going to take back. */
  datatype Token = CounterLimit(limit: nat) | SizeLimit(limit: nat) | Entry(id: int) | Serial(number: nat)

  function Claims(h: P.Handler, t: Token): nat {
    if match t
       case CounterLimit(limit) => h.counterLimit == Some(limit)
       case SizeLimit(limit) => h.sizeLimit == Some(limit)
       case Entry(id) => h.entered && h.id == id
       case Serial(number) => h.serial == number
    then 1 else 0
  }

  function WorkClaims(w: Work, t: Token): nat { if w.Run? then Claims(w.handler, t) else 0 }

  function Queued(q: seq<Work>, t: Token): nat { if q == [] then 0 else WorkClaims(q[0], t) + Queued(q[1..], t) }

  ghost function Pick<T>(s: set<T>): (x: T)
    requires s != {}
    ensures x in s
  {
    var x :| x in s;
    x
  }

  ghost function Kept(m: map<int, P.Handler>, t: Token): nat
    decreases |m|
  {
    if m.Keys == {} then 0
    else
      var k := Pick(m.Keys);
      assert (m - {k}).Keys == m.Keys - {k};
      Claims(m[k], t) + Kept(m - {k}, t)
  }

  lemma {:induction false} QueuedSnoc(q: seq<Work>, w: Work, t: Token)
    ensures Queued(q + [w], t) == Queued(q, t) + WorkClaims(w, t)
  {
    if q == [] {
      assert [] + [w] == [w] && [w][1..] == [];
    } else {
      assert (q + [w])[1..] == q[1..] + [w];
      QueuedSnoc(q[1..], w, t);
    }
  }

  lemma {:induction false} KeptWithout(m: map<int, P.Handler>, k: int, t: Token)
    requires k in m
    ensures Kept(m, t) == Claims(m[k], t) + Kept(m - {k}, t)
    decreases |m|
  {
    var j := Pick(m.Keys);
    if j != k {
      assert (m - {j}).Keys == m.Keys - {j} && (m - {k}).Keys == m.Keys - {k};
      KeptWithout(m - {j}, k, t);
      KeptWithout(m - {k}, j, t);
      assert m - {j} - {k} == m - {k} - {j};
    }
  }

  lemma KeptWith(m: map<int, P.Handler>, k: int, h: P.Handler, t: Token)
    requires k !in m
    ensures Kept(m[k := h], t) == Claims(h, t) + Kept(m, t)
  {
    KeptWithout(m[k := h], k, t);
    assert m[k := h] - {k} == m;
  }

  /** How often the pipeline and the serial numbers hold something for handlers to take back. */
  function Owed(s: System, t: Token): nat {
    if t.Serial? then (if t.number in s.live then 1 else 0) else Holds(s.pipe, t)
  }

  /** The handlers in the registry and in the queue claim exactly what is owed, no more and no less. */
  ghost predicate Balanced(s: System) {
    forall t :: Owed(s, t) == Kept(s.registry, t) + Queued(s.queue, t)
  }

  ghost predicate Inv(s: System) {
    && P.Inv(s.pipe) && Balanced(s)
    && s.live !! s.ran && (forall i :: i in s.live || i in s.ran ==> i < s.made)
    && (forall id :: id in s.registry ==> s.registry[id].id == id)
    && (forall i :: 0 <= i < |s.queue| && s.queue[i].Subscribe? ==> P.SubOk(s.queue[i].sub))
  }

  lemma InitInv()
    ensures Inv(INITIAL)
  {
  }

  lemma PostKeeps(s: System, w: Work)
    requires Inv(s) && Enabled(s, Post(w))
    ensures Inv(Next(s, Post(w)))
  {
    forall t ensures Queued(s.queue + [w], t) == Queued(s.queue, t) { QueuedSnoc(s.queue, w, t); }
    assert Balanced(Next(s, Post(w)));
  }

  lemma RemoveKeeps(s: System, id: int)
    requires Inv(s)
    ensures Inv(RemoveSubscription(s, id))
  {
    if id in s.registry {
      var h := s.registry[id];
      forall t ensures Queued(s.queue + [Run(h)], t) + Kept(s.registry - {id}, t)
                    == Queued(s.queue, t) + Kept(s.registry, t) {
        QueuedSnoc(s.queue, Run(h), t);
        KeptWithout(s.registry, id, t);
      }
      assert Balanced(RemoveSubscription(s, id));
    }
  }

  /** A handler entered into the registry, or posted at once, claims what it claims either way. */
  lemma AddHandlerClaims(s: System, id: int, h: P.Handler, t: Token)
    ensures var r := AddHandler(s, id, h);
            Kept(r.registry, t) + Queued(r.queue, t) == Kept(s.registry, t) + Queued(s.queue, t) + Claims(h, t)
  {
    if id in s.registry { QueuedSnoc(s.queue, Run(h), t); } else { KeptWith(s.registry, id, h, t); }
  }

  /** What a pipeline holds for handlers to take back. */
  function Holds(p: P.Pipe, t: Token): nat {
    match t
    case CounterLimit(limit) => p.counterLimits[limit]
    case SizeLimit(limit) => p.sizeLimits[limit]
    case Entry(id) => if id in p.subs then 1 else 0
    case Serial(_) => 0
  }

  lemma AddCounterHolds(p: P.Pipe, limit: Option<nat>, t: Token)
    ensures Holds(P.AddCounterLimit(p, limit), t) ==
            Holds(p, t) + (if t.CounterLimit? && limit == Some(t.limit) then 1 else 0)
  {
  }

  lemma AddSizeHolds(p: P.Pipe, limit: Option<nat>, t: Token)
    ensures Holds(P.AddSizeLimit(p, limit), t) ==
            Holds(p, t) + (if t.SizeLimit? && limit == Some(t.limit) then 1 else 0)
  {
  }

  lemma EnterHolds(p: P.Pipe, sub: P.Subscription, t: Token)
    ensures Holds(P.Enter(p, sub), t) == Holds(p, t) + (if t.Entry? && P.Enters(p, sub) && t.id == sub.id then 1 else 0)
  {
  }

  /** Subscribing leaves in the pipeline exactly what the handler claims, on top of what was there. */
  lemma SubscribeHolds(p: P.Pipe, sub: P.Subscription, serial: nat, t: Token)
    requires !t.Serial?
    ensures Holds(P.Subscribe(p, sub), t) == Holds(p, t) + Claims(P.HandlerFor(p, sub, serial), t)
  {
    var q := P.AddCounterLimit(p, sub.counterLimit);
    var r := P.AddSizeLimit(q, sub.sizeLimit);
    AddCounterHolds(p, sub.counterLimit, t);
    AddSizeHolds(q, sub.sizeLimit, t);
    assert r.subs == p.subs;
    EnterHolds(r, sub, t);
  }

  lemma DropCounterHolds(p: P.Pipe, limit: Option<nat>, t: Token)
    requires limit.Some? ==> Holds(p, CounterLimit(limit.value)) > 0
    ensures Holds(P.DropCounterLimit(p, limit), t) ==
            Holds(p, t) - (if t.CounterLimit? && limit == Some(t.limit) then 1 else 0)
  {
  }

  lemma DropSizeHolds(p: P.Pipe, limit: Option<nat>, t: Token)
    requires limit.Some? ==> Holds(p, SizeLimit(limit.value)) > 0
    ensures Holds(P.DropSizeLimit(p, limit), t) ==
            Holds(p, t) - (if t.SizeLimit? && limit == Some(t.limit) then 1 else 0)
  {
  }

  lemma DepartHolds(p: P.Pipe, h: P.Handler, t: Token)
    requires h.entered ==> h.id in p.subs
    ensures Holds(P.Depart(p, h), t) == Holds(p, t) - (if t.Entry? && h.entered && t.id == h.id then 1 else 0)
  {
  }

  /** Everything the handler will look for is there. */
  predicate Finds(p: P.Pipe, h: P.Handler) {
    && (h.counterLimit.Some? ==> h.counterLimit.value in p.counterLimits)
    && (h.sizeLimit.Some? ==> h.sizeLimit.value in p.sizeLimits)
    && (h.entered ==> h.id in p.subs)
  }

  /** Running a handler takes back exactly what it claims. */
  lemma UnsubscribeHolds(p: P.Pipe, h: P.Handler, t: Token)
    requires Finds(p, h) && !t.Serial?
    ensures Holds(P.Unsubscribe(p, h), t) == Holds(p, t) - Claims(h, t)
  {
    var q := P.DropCounterLimit(p, h.counterLimit);
    var r := P.DropSizeLimit(q, h.sizeLimit);
    DropCounterHolds(p, h.counterLimit, t);
    DropCounterHolds(p, h.counterLimit, if h.sizeLimit.Some? then SizeLimit(h.sizeLimit.value) else t);
    DropSizeHolds(q, h.sizeLimit, t);
    assert r.subs == p.subs;
    DepartHolds(r, h, t);
  }

  // -------------------------------------------------------------------------- steps

  /** A handler about to run finds its limits and its subscription, and has not run before. */
  lemma HandlerFinds(s: System)
    requires Inv(s) && s.queue != [] && s.queue[0].Run?
    ensures var h := s.queue[0].handler; Finds(s.pipe, h) && h.serial in s.live && h.serial !in s.ran
  {
    var h := s.queue[0].handler;
    assert Owed(s, Serial(h.serial)) > 0;
    if h.counterLimit.Some? { assert Owed(s, CounterLimit(h.counterLimit.value)) > 0; }
    if h.sizeLimit.Some? { assert Owed(s, SizeLimit(h.sizeLimit.value)) > 0; }
    if h.entered { assert Owed(s, Entry(h.id)) > 0; }
  }

  lemma RunBalances(s: System, t: Token)
    requires Inv(s) && s.queue != [] && s.queue[0].Run?
    ensures var r := Next(s, Turn); Owed(r, t) == Kept(r.registry, t) + Queued(r.queue, t)
  {
    var h := s.queue[0].handler;
    HandlerFinds(s);
    assert Owed(s, t) == Kept(s.registry, t) + Queued(s.queue, t);
    if !t.Serial? { UnsubscribeHolds(s.pipe, h, t); }
  }

  lemma SubscribeOwes(s: System, q: System, sub: P.Subscription, t: Token)
    requires q.pipe == P.Subscribe(s.pipe, sub) && q.live == s.live + {s.made} && s.made !in s.live
    ensures Owed(q, t) == Owed(s, t) + Claims(P.HandlerFor(s.pipe, sub, s.made), t)
  {
    if !t.Serial? { SubscribeHolds(s.pipe, sub, s.made, t); }
  }

  /** The system while a subscription is made, before its handler is stored. */
  ghost function Subscribed(s: System, sub: P.Subscription): System {
    System(P.Subscribe(s.pipe, sub), s.queue, s.registry, s.made + 1, s.live + {s.made}, s.ran)
  }

  lemma SubscribeBalances(s: System, sub: P.Subscription, h: P.Handler, t: Token)
    requires Owed(s, t) == Kept(s.registry, t) + Queued(s.queue, t) && s.made !in s.live
    requires h == P.HandlerFor(s.pipe, sub, s.made)
    ensures var r := AddHandler(Subscribed(s, sub), sub.id, h); Owed(r, t) == Kept(r.registry, t) + Queued(r.queue, t)
  {
    var q := Subscribed(s, sub);
    SubscribeOwes(s, q, sub, t);
    AddHandlerClaims(q, sub.id, h, t);
  }

  lemma SubscribeTurnKeeps(s: System, sub: P.Subscription)
    requires Inv(s) && P.SubOk(sub)
    ensures Inv(TakeTurn(s, Subscribe(sub)))
  {
    var h := P.HandlerFor(s.pipe, sub, s.made);
    var r := AddHandler(Subscribed(s, sub), sub.id, h);
    P.SubscribeKeeps(s.pipe, sub);
    forall t ensures Owed(r, t) == Kept(r.registry, t) + Queued(r.queue, t) {
      SubscribeBalances(s, sub, h, t);
    }
    assert Balanced(r);
  }

  lemma RunTurnKeeps(s: System)
    requires Inv(s) && s.queue != [] && s.queue[0].Run?
    ensures Inv(Next(s, Turn))
  {
    var h := s.queue[0].handler;
    HandlerFinds(s);
    P.UnsubscribeKeeps(s.pipe, h);
    forall t ensures var r := Next(s, Turn); Owed(r, t) == Kept(r.registry, t) + Queued(r.queue, t) {
      RunBalances(s, t);
    }
    assert Balanced(Next(s, Turn));
  }

  lemma PoppedKeeps(s: System)
    requires Inv(s) && s.queue != [] && !s.queue[0].Run?
    ensures Inv(s.(queue := s.queue[1..]))
  {
    var r := s.(queue := s.queue[1..]);
    forall t ensures Owed(r, t) == Kept(r.registry, t) + Queued(r.queue, t) {
      assert Owed(s, t) == Kept(s.registry, t) + Queued(s.queue, t);
    }
    assert Balanced(r);
  }

  lemma ProcessBalances(s: System, p: P.Pipe)
    requires Inv(s) && P.Inv(p)
    requires p.counterLimits == s.pipe.counterLimits && p.sizeLimits == s.pipe.sizeLimits && p.subs == s.pipe.subs
    ensures Inv(s.(pipe := p))
  {
    forall t ensures Owed(s.(pipe := p), t) == Owed(s, t) {}
    assert Balanced(s.(pipe := p));
  }

  lemma TurnKeeps(s: System)
    requires Inv(s) && s.queue != []
    ensures Inv(Next(s, Turn))
  {
    var w := s.queue[0];
    if w.Run? {
      RunTurnKeeps(s);
    } else {
      var q := s.(queue := s.queue[1..]);
      PoppedKeeps(s);
      match w
      case Emit(k, e) =>
        P.ProcessKeeps(q.pipe, k, e);
        ProcessBalances(q, P.Process(q.pipe, k, e));
      case Subscribe(sub) => SubscribeTurnKeeps(q, sub);
      case PeriodicTrigger => ProcessBalances(q, P.Trigger(q.pipe));
    }
  }

  lemma StepKeeps(s: System, e: Event)
    requires Inv(s) && Enabled(s, e)
    ensures Inv(Next(s, e))
  {
    match e
    case Post(w) => PostKeeps(s, w);
    case Remove(id) => RemoveKeeps(s, id);
    case Turn => TurnKeeps(s);
  }

  // --------------------------------------------------------------------------- runs

  ghost predicate Legal(s: System, es: seq<Event>)
    decreases es
  {
    es == [] || (Enabled(s, es[0]) && Legal(Next(s, es[0]), es[1..]))
  }

  ghost function Final(s: System, es: seq<Event>): System
    decreases es
  {
    if es == [] then s else Final(Next(s, es[0]), es[1..])
  }

  /** Whatever is posted and removed, and in whatever order it interleaves with the worker, the counts stay
      below the live limits and the outstanding handlers claim exactly what is there. */
  lemma {:induction false} RunKeeps(s: System, es: seq<Event>)
    requires Inv(s) && Legal(s, es)
    ensures Inv(Final(s, es))
    decreases es
  {
    if es != [] {
      StepKeeps(s, es[0]);
      RunKeeps(Next(s, es[0]), es[1..]);
    }
  }

  /** How often the handler with this number runs. */
  ghost function Runs(s: System, es: seq<Event>, serial: nat): nat
    decreases es
  {
    if es == [] then 0
    else
      (if es[0] == Turn && s.queue != [] && s.queue[0].Run? && s.queue[0].handler.serial == serial then 1 else 0)
      + Runs(Next(s, es[0]), es[1..], serial)
  }

  /** Every handler runs at most once. */
  lemma {:induction false} RunsOnce(s: System, es: seq<Event>, serial: nat)
    requires Inv(s) && Legal(s, es)
    ensures Runs(s, es, serial) <= 1 && (serial in s.ran ==> Runs(s, es, serial) == 0)
    decreases es
  {
    if es != [] {
      StepKeeps(s, es[0]);
      RunsOnce(Next(s, es[0]), es[1..], serial);
      if es[0] == Turn && s.queue[0].Run? { HandlerFinds(s); }
      RanGrows(s, es[0], serial);
    }
  }

  lemma RanGrows(s: System, e: Event, serial: nat)
    ensures serial in s.ran ==> serial in Next(s, e).ran
  {
  }

  /** Every unsubscribe handler that comes to run, in any history, finds its limits and its subscription. */
  lemma EveryHandlerFinds(es: seq<Event>)
    requires Legal(INITIAL, es)
    ensures var s := Final(INITIAL, es);
            s.queue != [] && s.queue[0].Run? ==> Finds(s.pipe, s.queue[0].handler)
  {
    InitInv();
    RunKeeps(INITIAL, es);
    if Final(INITIAL, es).queue != [] && Final(INITIAL, es).queue[0].Run? { HandlerFinds(Final(INITIAL, es)); }
  }

  // -------------------------------------------------------------------- conservation

  /** What a piece of work does to the pipeline. */
  function ActionOf(w: Work): P.Action {
    match w
    case Emit(k, e) => P.Processing(k, e)
    case Subscribe(sub) => P.Subscribing(sub)
    case Run(h) => P.Unsubscribing(h)
    case PeriodicTrigger => P.Triggering
  }

  lemma TurnIsAction(s: System)
    requires s.queue != []
    ensures Next(s, Turn).pipe == P.Next(s.pipe, ActionOf(s.queue[0]))
  {
  }

  /** The events of a key the worker takes up while there is a subscription, in order. */
  ghost function TakenUp(s: System, es: seq<Event>, k: P.Key): seq<WriteEvent>
    decreases es
  {
    if es == [] then []
    else
      (if es[0] == Turn && s.queue != [] then P.Accepted(s.pipe, ActionOf(s.queue[0]), k) else [])
      + TakenUp(Next(s, es[0]), es[1..], k)
  }

  lemma StepKnown(s: System, e: Event, k: P.Key)
    requires Inv(s) && Enabled(s, e)
    ensures P.Known(Next(s, e).pipe.out, k) ==
            Join(P.Known(s.pipe.out, k),
                 Fold(if e == Turn then P.Accepted(s.pipe, ActionOf(s.queue[0]), k) else []))
  {
    if e == Turn {
      TurnIsAction(s);
      P.StepKnown(s.pipe, ActionOf(s.queue[0]), k);
    }
  }

  /** However posts, removals and the worker interleave, what is reported and buffered about a key grows by
      exactly the events taken up for it. */
  lemma {:induction false} Conservation(s: System, es: seq<Event>, k: P.Key)
    requires Inv(s) && Legal(s, es)
    ensures P.Known(Final(s, es).pipe.out, k) == Join(P.Known(s.pipe.out, k), Fold(TakenUp(s, es, k)))
    decreases es
  {
    if es != [] {
      var first := if es[0] == Turn then P.Accepted(s.pipe, ActionOf(s.queue[0]), k) else [];
      var rest := TakenUp(Next(s, es[0]), es[1..], k);
      StepKnown(s, es[0], k);
      StepKeeps(s, es[0]);
      Conservation(Next(s, es[0]), es[1..], k);
      FoldConcat(first, rest);
      JoinAssociates(P.Known(s.pipe.out, k), Fold(first), Fold(rest));
    }
  }

  // ----------------------------------------------------------- registry and pipeline

  lemma {:induction false} KeptWitness(m: map<int, P.Handler>, t: Token)
    requires Kept(m, t) > 0
    ensures exists k :: k in m && Claims(m[k], t) > 0
    decreases |m|
  {
    var k := Pick(m.Keys);
    if Claims(m[k], t) == 0 {
      assert (m - {k}).Keys == m.Keys - {k};
      KeptWitness(m - {k}, t);
    }
  }

  /** A handler that entered the pipeline under this id waits in the queue to run: the removal is on the way. */
  predicate Leaving(q: seq<Work>, id: int) {
    exists i :: 0 <= i < |q| && q[i].Run? && q[i].handler.entered && q[i].handler.id == id
  }

  lemma {:induction false} QueuedIffLeaving(q: seq<Work>, id: int)
    ensures Queued(q, Entry(id)) > 0 <==> Leaving(q, id)
  {
    if q != [] {
      QueuedIffLeaving(q[1..], id);
      assert forall i :: 0 < i < |q| ==> q[i] == q[1..][i - 1];
      if Leaving(q[1..], id) {
        var i :| 0 <= i < |q[1..]| && q[1..][i].Run? && q[1..][i].handler.entered && q[1..][i].handler.id == id;
        assert q[i + 1].Run?;
      }
    }
  }

  /** A subscription is in the pipeline exactly when the registry holds a handler that entered it, or one is on
      its way out. */
  lemma InPipeExactly(s: System, id: int)
    requires Inv(s)
    ensures id in s.pipe.subs <==> (id in s.registry && s.registry[id].entered) || Leaving(s.queue, id)
  {
    var t := Entry(id);
    assert Owed(s, t) == Kept(s.registry, t) + Queued(s.queue, t);
    QueuedIffLeaving(s.queue, id);
    if Kept(s.registry, t) > 0 { KeptWitness(s.registry, t); }
    if id in s.registry { KeptWithout(s.registry, id, t); }
  }

  /** The turn that makes a subscription not yet registered feeds it exactly when it is not empty and no
      earlier one under its id is on its way out. */
  lemma FedExactly(s: System)
    requires Inv(s) && s.queue != [] && s.queue[0].Subscribe? && s.queue[0].sub.id !in s.registry
    ensures var sub := s.queue[0].sub; var r := Next(s, Turn);
            && sub.id in r.registry
            && (r.registry[sub.id].entered <==> !P.Empty(sub) && !Leaving(s.queue, sub.id))
  {
    InPipeExactly(s, s.queue[0].sub.id);
  }

  /** What a caller can see to before subscribing: the subscription is not empty, its id is not registered, and
      neither a subscription nor a removal of it is queued. */
  predicate Disciplined(s: System, e: Event) {
    e.Post? && e.work.Subscribe? ==>
      && !P.Empty(e.work.sub) && e.work.sub.id !in s.registry && !Leaving(s.queue, e.work.sub.id)
      && forall i :: 0 <= i < |s.queue| && s.queue[i].Subscribe? ==> s.queue[i].sub.id != e.work.sub.id
  }

  /** All that is registered was entered; what is queued to be subscribed is not registered, not on its way
      out, and queued once. */
  ghost predicate Orderly(s: System) {
    && (forall id :: id in s.registry ==> s.registry[id].entered)
    && (forall i :: 0 <= i < |s.queue| && s.queue[i].Subscribe? ==>
          && !P.Empty(s.queue[i].sub) && s.queue[i].sub.id !in s.registry && !Leaving(s.queue, s.queue[i].sub.id))
    && (forall i, j :: 0 <= i < j < |s.queue| && s.queue[i].Subscribe? && s.queue[j].Subscribe? ==>
          s.queue[i].sub.id != s.queue[j].sub.id)
  }

  lemma LeavingMore(q: seq<Work>, w: Work, id: int)
    ensures Leaving(q + [w], id) <==> Leaving(q, id) || (w.Run? && w.handler.entered && w.handler.id == id)
  {
    assert (q + [w])[|q|] == w;
    assert forall i :: 0 <= i < |q| ==> (q + [w])[i] == q[i];
  }

  lemma LeavingLess(q: seq<Work>, id: int)
    requires q != [] && Leaving(q[1..], id)
    ensures Leaving(q, id)
  {
    var i :| 0 <= i < |q[1..]| && q[1..][i].Run? && q[1..][i].handler.entered && q[1..][i].handler.id == id;
    assert q[i + 1] == q[1..][i];
  }

  lemma PostOrderly(s: System, w: Work)
    requires Orderly(s) && Enabled(s, Post(w)) && Disciplined(s, Post(w))
    ensures Orderly(Next(s, Post(w)))
  {
    var q := s.queue + [w];
    assert forall i :: 0 <= i < |s.queue| ==> q[i] == s.queue[i];
    forall id ensures Leaving(q, id) <==> Leaving(s.queue, id) { LeavingMore(s.queue, w, id); }
  }

  lemma RemoveOrderly(s: System, id: int)
    requires Inv(s) && Orderly(s)
    ensures Orderly(Next(s, Remove(id)))
  {
    if id in s.registry {
      var w := Run(s.registry[id]);
      var q := s.queue + [w];
      assert forall i :: 0 <= i < |s.queue| ==> q[i] == s.queue[i];
      forall k ensures Leaving(q, k) <==> Leaving(s.queue, k) || k == id { LeavingMore(s.queue, w, k); }
    }
  }

  lemma PoppedOrderly(s: System)
    requires Orderly(s) && s.queue != []
    ensures Orderly(s.(queue := s.queue[1..]))
  {
    var q := s.queue[1..];
    assert forall i :: 0 <= i < |q| ==> q[i] == s.queue[i + 1];
    forall id ensures Leaving(q, id) ==> Leaving(s.queue, id) {
      if Leaving(q, id) { LeavingLess(s.queue, id); }
    }
  }

  lemma SubscribeOrderly(s: System)
    requires Inv(s) && Orderly(s) && s.queue != [] && s.queue[0].Subscribe?
    ensures Orderly(Next(s, Turn))
  {
    var sub := s.queue[0].sub;
    PoppedOrderly(s);
    FedExactly(s);
    var r := Next(s, Turn);
    assert r.queue == s.queue[1..];
    assert forall i :: 0 <= i < |r.queue| ==> r.queue[i] == s.queue[i + 1];
    assert forall id :: id in r.registry <==> id in s.registry || id == sub.id;
    assert forall id :: id in s.registry ==> r.registry[id] == s.registry[id];
  }

  lemma StepOrderly(s: System, e: Event)
    requires Inv(s) && Orderly(s) && Enabled(s, e) && Disciplined(s, e)
    ensures Orderly(Next(s, e))
  {
    match e
    case Post(w) => PostOrderly(s, w);
    case Remove(id) => RemoveOrderly(s, id);
    case Turn => if s.queue[0].Subscribe? { SubscribeOrderly(s); } else { PoppedOrderly(s); }
  }

  ghost predicate Obeyed(s: System, es: seq<Event>)
    decreases es
  {
    es == [] || (Disciplined(s, es[0]) && Obeyed(Next(s, es[0]), es[1..]))
  }

  lemma {:induction false} RunOrderly(s: System, es: seq<Event>)
    requires Inv(s) && Orderly(s) && Legal(s, es) && Obeyed(s, es)
    ensures Inv(Final(s, es)) && Orderly(Final(s, es))
    decreases es
  {
    if es != [] {
      StepKeeps(s, es[0]);
      StepOrderly(s, es[0]);
      RunOrderly(Next(s, es[0]), es[1..]);
    }
  }

  /** When subscribers keep to that, then in every state of every history exactly the registered subscriptions
      and those on their way out are fed; in an idle one, exactly the registered. */
  lemma RegisteredIsFed(es: seq<Event>, id: int)
    requires Legal(INITIAL, es) && Obeyed(INITIAL, es)
    ensures var s := Final(INITIAL, es);
            && (id in s.pipe.subs <==> id in s.registry || Leaving(s.queue, id))
            && (s.queue == [] ==> (id in s.pipe.subs <==> id in s.registry))
  {
    InitInv();
    RunOrderly(INITIAL, es);
    InPipeExactly(Final(INITIAL, es), id);
  }

  /** A subscription repeated while its removal is on the way is kept in the registry without entering the
      pipeline: nothing feeds it, and events go on being dropped. */
  lemma LostSubscription()
    ensures var sub := P.Subscription(1, None, None, true);
            var es := [Post(Subscribe(sub)), Turn, Post(Subscribe(sub)), Remove(1), Turn, Turn];
            && Legal(INITIAL, es)
            && var s := Final(INITIAL, es); 1 in s.registry && s.queue == [] && s.pipe.out.buffer.None?
  {
    var sub := P.Subscription(1, None, None, true);
    var s2 := Next(Next(INITIAL, Post(Subscribe(sub))), Turn);
    FirstEntered(sub);
    var s4 := Next(Next(s2, Post(Subscribe(sub))), Remove(1));
    Repeated(sub, s2, s4);
    Path([INITIAL, Next(INITIAL, Post(Subscribe(sub))), s2, Next(s2, Post(Subscribe(sub))), s4, Next(s4, Turn),
          Next(Next(s4, Turn), Turn)],
         [Post(Subscribe(sub)), Turn, Post(Subscribe(sub)), Remove(1), Turn, Turn]);
  }

  /** The first subscription enters the pipeline. */
  lemma FirstEntered(sub: P.Subscription)
    requires sub == P.Subscription(1, None, None, true)
    ensures var s1 := Next(INITIAL, Post(Subscribe(sub))); var s2 := Next(s1, Turn);
            && s1.queue != [] && s2.queue == [] && s2.pipe.subs == {1}
            && s2.registry == map[1 := P.Handler(1, None, None, true, 0)]
  {
    var s1 := Next(INITIAL, Post(Subscribe(sub)));
    assert s1.queue == [Subscribe(sub)];
  }

  /** Its repetition, taken before the removal, does not; the removal then ends the first. */
  lemma Repeated(sub: P.Subscription, s2: System, s4: System)
    requires sub == P.Subscription(1, None, None, true) && s2.queue == [] && s2.pipe.subs == {1}
    requires s2.registry == map[1 := P.Handler(1, None, None, true, 0)]
    requires s4 == Next(Next(s2, Post(Subscribe(sub))), Remove(1))
    ensures var s5 := Next(s4, Turn); var s6 := Next(s5, Turn);
            && s4.queue != [] && s5.queue != [] && s6.queue == [] && 1 in s6.registry
            && s6.pipe.out.buffer.None?
  {
    var h := P.Handler(1, None, None, true, 0);
    assert s4.queue == [Subscribe(sub), Run(h)] && 1 !in s4.registry;
    var s5 := Next(s4, Turn);
    assert s5.queue == [Run(h)] && 1 in s5.registry && s5.pipe.subs == {1};
    assert P.Unsubscribe(s5.pipe, h).subs == {};
  }

  /** Consecutive states reached by enabled events are a legal history. */
  lemma {:induction false} Path(ss: seq<System>, es: seq<Event>)
    requires |ss| == |es| + 1
    requires forall i :: 0 <= i < |es| ==> Enabled(ss[i], es[i]) && ss[i + 1] == Next(ss[i], es[i])
    ensures Legal(ss[0], es) && Final(ss[0], es) == ss[|es|]
    decreases es
  {
    if es != [] { Path(ss[1..], es[1..]); }
  }

  // ------------------------------------------------------------------ first in, first out

  /** The work an event puts into the queue: what is posted, the handler of a subscription removed, or that of one
      made under an id that is taken. */
  function Entering(s: System, e: Event): seq<Work> {
    match e
    case Post(w) => [w]
    case Remove(id) => if id in s.registry then [Run(s.registry[id])] else []
    case Turn =>
      if s.queue != [] && s.queue[0].Subscribe? && s.queue[0].sub.id in s.registry
      then [Run(P.HandlerFor(s.pipe, s.queue[0].sub, s.made))] else []
  }

  ghost function Entered(s: System, es: seq<Event>): seq<Work>
    decreases es
  {
    if es == [] then [] else Entering(s, es[0]) + Entered(Next(s, es[0]), es[1..])
  }

  /** The work the worker takes, turn by turn. */
  ghost function Taken(s: System, es: seq<Event>): seq<Work>
    decreases es
  {
    if es == [] then []
    else (if es[0].Turn? && s.queue != [] then [s.queue[0]] else []) + Taken(Next(s, es[0]), es[1..])
  }

  lemma QueueStep(s: System, e: Event)
    ensures s.queue + Entering(s, e)
         == (if e.Turn? && s.queue != [] then [s.queue[0]] else []) + Next(s, e).queue
  {
  }

  /** Over every history, the worker takes exactly what entered the queue, in that order, but for what is still in
      it. */
  lemma {:induction false} WorkInOrder(s: System, es: seq<Event>)
    ensures s.queue + Entered(s, es) == Taken(s, es) + Final(s, es).queue
    decreases es
  {
    if es != [] {
      var n := Next(s, es[0]);
      var now := if es[0].Turn? && s.queue != [] then [s.queue[0]] else [];
      QueueStep(s, es[0]);
      WorkInOrder(n, es[1..]);
      InOrder(s.queue, Entering(s, es[0]), Entered(n, es[1..]), now, n.queue, Taken(n, es[1..]),
              Final(n, es[1..]).queue);
    }
  }

  lemma InOrder<T>(q: seq<T>, a: seq<T>, b: seq<T>, now: seq<T>, r: seq<T>, later: seq<T>, left: seq<T>)
    requires q + a == now + r && r + b == later + left
    ensures q + (a + b) == now + later + left
  {
    assert q + (a + b) == q + a + b == now + (r + b) == now + (later + left);
  }
}
