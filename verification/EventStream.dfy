/** Write events and event streams as objects: aggregation in place, the layered stream, and the worker with
    its registry. */
module EventStream {
  import opened Options
  import opened WriteEvents
  import P = EventPipeline
  import S = EventSystem

  /** last(blocks) + 1, by going over the blocks. */
  method EndOf(b: Blocks) returns (e: nat)
    ensures e == End(b)
  {
    e := 0;
    var rest := b.Keys;
    while rest != {}
      invariant rest <= b.Keys
      invariant forall o :: o in b && o !in rest ==> o < e
      invariant e == 0 || e - 1 in b
      decreases |rest|
    {
      var o :| o in rest;
      if e < o + 1 {
        e := o + 1;
      }
      rest := rest - {o};
    }
    EndIs(b, e);
  }

  class WriteEventObject {
    var counter: nat
    var size: nat
    var fileSize: Option<nat>
    var blocks: Blocks

    function Value(): WriteEvent
      reads this
    {
      WriteEvent(counter, size, fileSize, blocks)
    }

    constructor (e: WriteEvent)
      ensures Value() == e
    {
      counter, size, fileSize, blocks := e.counter, e.size, e.fileSize, e.blocks;
    }

    /** Takes in a later event; one without a file size has blocks. */
    method Absorb(e: WriteEvent)
      requires e.fileSize.Some? || e.blocks != map[]
      modifies this
      ensures Value() == Aggregate(old(Value()), e)
    {
      counter := counter + e.counter;
      size := size + e.size;
      if e.fileSize.Some? {
        fileSize := e.fileSize;
      } else if fileSize.Some? {
        var end := EndOf(e.blocks);
        if fileSize.value < end {
          fileSize := Some(end);
        }
      }
      blocks := Merge(blocks, e.blocks);
    }

    /** The blocks of the message: a copy, clipped to the file. */
    method Serialize() returns (clipped: Blocks)
      ensures clipped == Emitted(Value())
    {
      clipped := blocks;
      if fileSize.Some? {
        clipped := map o | o in blocks && o < fileSize.value :: blocks[o];
      }
    }
  }

  /** An event as processed: one without a file size has blocks. */
  predicate EventOk(e: WriteEvent) { e.fileSize.Some? || e.blocks != map[] }

  /** The layers of a stream, one object by inheritance: counter and size aggregation, subscriptions, and the
      buffer. */
  class Stream {
    var counter: nat
    var size: nat
    var counterLimits: multiset<nat>
    var sizeLimits: multiset<nat>
    var subs: set<int>
    var buffer: Option<P.Buffer>
    var reports: seq<P.Buffer>

    function Out(): P.Outlet
      reads this
    {
      P.Outlet(buffer, reports)
    }

    function Value(): P.Pipe
      reads this
    {
      P.Pipe(counter, size, counterLimits, sizeLimits, subs, Out())
    }

    constructor ()
      ensures Value() == P.INITIAL
    {
      counter, size, counterLimits, sizeLimits, subs, buffer, reports := 0, 0, multiset{}, multiset{}, {}, None, [];
    }

    /** EventBuffer::push. */
    method Push(k: P.Key, e: WriteEvent)
      requires EventOk(e)
      modifies this`buffer
      ensures Out() == P.Push(old(Out()), k, e)
    {
      if buffer.Some? {
        if k in buffer.value {
          var event := new WriteEventObject(buffer.value[k]);
          event.Absorb(e);
          buffer := Some(buffer.value[k := event.Value()]);
        } else {
          buffer := Some(buffer.value[k := e]);
        }
      }
    }

    /** EventBuffer::clear: the handler gets everything, once. */
    method Clear()
      modifies this`buffer, this`reports
      ensures Out() == P.Flush(old(Out()))
    {
      if buffer.Some? {
        reports := reports + [buffer.value];
        buffer := Some(map[]);
      }
    }

    /** EventHandler::trigger, with the callbacks of both aggregators. */
    method Trigger()
      modifies this
      ensures Value() == P.Trigger(old(Value()))
    {
      Clear();
      size := 0;
      counter := 0;
    }

    method Process(k: P.Key, e: WriteEvent)
      requires EventOk(e)
      modifies this
      ensures Value() == P.Process(old(Value()), k, e)
    {
      counter := counter + e.counter;
      if P.Reached(counterLimits, counter) {
        Push(k, e);
        Trigger();
        return;
      }
      size := size + e.size;
      Push(k, e);
      if P.Reached(sizeLimits, size) {
        Trigger();
      }
    }

    /** EventHandler::setEventBuffer: the buffer going out of use clears itself. */
    method Install(b: Option<P.Buffer>)
      modifies this`buffer, this`reports
      ensures Out() == P.Install(old(Out()), b)
    {
      Clear();
      buffer := b;
    }

    method LimitCounter(limit: Option<nat>)
      modifies this
      ensures Value() == P.AddCounterLimit(old(Value()), limit)
    {
      if limit.Some? {
        counterLimits := counterLimits + multiset{limit.value};
        if limit.value <= counter {
          Trigger();
        }
      }
    }

    method LimitSize(limit: Option<nat>)
      modifies this
      ensures Value() == P.AddSizeLimit(old(Value()), limit)
    {
      if limit.Some? {
        sizeLimits := sizeLimits + multiset{limit.value};
        if limit.value <= size {
          Trigger();
        }
      }
    }

    /** SubscriptionHandler::subscribe. */
    method Enter(sub: P.Subscription) returns (entered: bool)
      modifies this
      ensures Value() == P.Enter(old(Value()), sub) && entered == P.Enters(old(Value()), sub)
    {
      entered := !P.Empty(sub) && sub.id !in subs;
      if entered {
        if subs == {} {
          Install(Some(map[]));
        }
        subs := subs + {sub.id};
      }
    }

    method Subscribe(sub: P.Subscription, serial: nat) returns (h: P.Handler)
      modifies this
      ensures Value() == P.Subscribe(old(Value()), sub) && h == P.HandlerFor(old(Value()), sub, serial)
    {
      LimitCounter(sub.counterLimit);
      LimitSize(sub.sizeLimit);
      var entered := Enter(sub);
      h := P.Handler(sub.id, sub.counterLimit, sub.sizeLimit, entered, serial);
    }

    method UnlimitCounter(limit: Option<nat>)
      requires limit.Some? ==> limit.value in counterLimits
      modifies this
      ensures Value() == P.DropCounterLimit(old(Value()), limit)
    {
      if limit.Some? {
        counterLimits := counterLimits - multiset{limit.value};
        if counterLimits == multiset{} {
          counter := 0;
        }
      }
    }

    method UnlimitSize(limit: Option<nat>)
      requires limit.Some? ==> limit.value in sizeLimits
      modifies this
      ensures Value() == P.DropSizeLimit(old(Value()), limit)
    {
      if limit.Some? {
        sizeLimits := sizeLimits - multiset{limit.value};
        if sizeLimits == multiset{} {
          size := 0;
        }
      }
    }

    method Depart(h: P.Handler)
      requires h.entered ==> h.id in subs
      modifies this
      ensures Value() == P.Depart(old(Value()), h)
    {
      if h.entered {
        subs := subs - {h.id};
        if subs == {} {
          Install(None);
        }
      }
    }

    /** The handler a subscription returned, which finds what it looks for. */
    method Unsubscribe(h: P.Handler)
      requires S.Finds(Value(), h)
      modifies this
      ensures Value() == P.Unsubscribe(old(Value()), h)
    {
      UnlimitCounter(h.counterLimit);
      UnlimitSize(h.sizeLimit);
      Depart(h);
    }
  }

  /** The worker thread's queue and the registry of unsubscribe handlers. */
  class Worker {
    const stream: Stream
    var queue: seq<S.Work>
    var registry: map<int, P.Handler>
    var made: nat
    ghost var live: set<nat>
    ghost var ran: set<nat>

    ghost function Value(): S.System
      reads this, stream
    {
      S.System(stream.Value(), queue, registry, made, live, ran)
    }

    /** Events in the queue are proper ones. */
    ghost predicate Valid()
      reads this, stream
    {
      S.Inv(Value()) && forall i :: 0 <= i < |queue| && queue[i].Emit? ==> EventOk(queue[i].event)
    }

    constructor ()
      ensures Valid() && Value() == S.INITIAL && fresh(stream)
    {
      stream := new Stream();
      queue, registry, made, live, ran := [], map[], 0, {}, {};
      new;
      S.InitInv();
    }

    /** asio::post, from any thread. */
    method Post(w: S.Work)
      requires Valid() && S.Enabled(Value(), S.Post(w)) && (w.Emit? ==> EventOk(w.event))
      modifies this
      ensures Valid() && Value() == S.Next(old(Value()), S.Post(w))
    {
      S.PostKeeps(Value(), w);
      queue := queue + [w];
    }

    /** SubscriptionRegistry::removeSubscription. */
    method RemoveSubscription(id: int) returns (found: bool)
      requires Valid()
      modifies this
      ensures Valid() && Value() == S.Next(old(Value()), S.Remove(id)) && found == (id in old(registry))
    {
      S.RemoveKeeps(Value(), id);
      found := id in registry;
      if found {
        queue := queue + [S.Run(registry[id])];
        registry := registry - {id};
      }
    }

    /** SubscriptionRegistry::addUnsubscribeHandler. */
    method AddUnsubscribeHandler(id: int, h: P.Handler)
      modifies this`queue, this`registry
      ensures Value() == S.AddHandler(old(Value()), id, h)
    {
      if id in registry {
        queue := queue + [S.Run(h)];
      } else {
        registry := registry[id := h];
      }
    }

    /** The worker takes the next piece of work. */
    method TakeTurn()
      requires Valid() && queue != []
      modifies this, stream
      ensures Valid() && Value() == S.Next(old(Value()), S.Turn)
    {
      S.TurnKeeps(Value());
      if queue[0].Run? {
        S.HandlerFinds(Value());
      }
      Perform();
    }

    method Register(sub: P.Subscription)
      modifies this, stream
      ensures Value() == S.TakeTurn(old(Value()), S.Subscribe(sub))
      ensures forall i :: 0 <= i < |queue| && queue[i].Emit? ==> queue[i] in old(queue)
    {
      var h := stream.Subscribe(sub, made);
      live := live + {made};
      made := made + 1;
      AddUnsubscribeHandler(sub.id, h);
    }

    method Retire(h: P.Handler)
      requires S.Finds(stream.Value(), h)
      modifies this, stream
      ensures Value() == S.TakeTurn(old(Value()), S.Run(h)) && queue == old(queue)
    {
      stream.Unsubscribe(h);
      live, ran := live - {h.serial}, ran + {h.serial};
    }

    method Perform()
      requires queue != [] && (queue[0].Run? ==> S.Finds(stream.Value(), queue[0].handler))
      requires queue[0].Emit? ==> EventOk(queue[0].event)
      modifies this, stream
      ensures Value() == S.Next(old(Value()), S.Turn)
      ensures forall i :: 0 <= i < |queue| && queue[i].Emit? ==> queue[i] in old(queue)
    {
      var w := queue[0];
      queue := queue[1..];
      match w
      case Emit(k, e) => stream.Process(k, e);
      case Subscribe(sub) => Register(sub);
      case Run(h) => Retire(h);
      case PeriodicTrigger => stream.Trigger();
    }
  }
}
