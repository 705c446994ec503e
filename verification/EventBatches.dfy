/** When exactly reports go out, and which events each of them holds. */
module EventBatches {
  import opened Options
  import opened WriteEvents
  import opened EventPipeline

  predicate Below(limits: multiset<nat>, v: nat) { forall t :: t in limits ==> v < t }

  /** The buffer with one more event in it. */
  ghost function Merged(b: Buffer, k: Key, e: WriteEvent): Buffer {
    b[k := if k in b then Aggregate(b[k], e) else e]
  }

  // ----------------------------------------------------------------------- one action

  /** An event is held back while both counts stay below every live limit; otherwise everything buffered goes out
      with it, and both counts start anew. */
  lemma ProcessExactly(p: Pipe, k: Key, e: WriteEvent)
    ensures var q := Process(p, k, e);
            && q.counterLimits == p.counterLimits && q.sizeLimits == p.sizeLimits && q.subs == p.subs
            && if Below(p.counterLimits, p.counter + e.counter) && Below(p.sizeLimits, p.size + e.size) then
                 && q.counter == p.counter + e.counter && q.size == p.size + e.size
                 && q.out.reports == p.out.reports
                 && q.out.buffer == if p.out.buffer.None? then None else Some(Merged(p.out.buffer.value, k, e))
               else
                 && q.counter == 0 && q.size == 0
                 && if p.out.buffer.None? then q.out == p.out
                    else q.out == Outlet(Some(map[]), p.out.reports + [Merged(p.out.buffer.value, k, e)])
  {
  }

  /** A periodic trigger sends out what is buffered. */
  lemma TriggerExactly(p: Pipe)
    ensures Next(p, Triggering) ==
            Pipe(0, 0, p.counterLimits, p.sizeLimits, p.subs,
                 if p.out.buffer.None? then p.out else Outlet(Some(map[]), p.out.reports + [p.out.buffer.value]))
  {
  }

  predicate AtMost(limit: Option<nat>, v: nat) { limit.Some? && limit.value <= v }

  function Single(limit: Option<nat>): multiset<nat> { if limit.None? then multiset{} else multiset{limit.value} }

  /** What is buffered goes out, if there is a reason and a buffer. */
  function SentOut(out: Outlet, reason: bool): Outlet {
    if reason && out.buffer.Some? then Outlet(Some(map[]), out.reports + [out.buffer.value]) else out
  }

  /** A new limit is entered, and whether it is reached already decides whether what is buffered goes out. */
  lemma AddCounterExactly(p: Pipe, limit: Option<nat>)
    ensures var q, now := AddCounterLimit(p, limit), AtMost(limit, p.counter);
            && q.counterLimits == p.counterLimits + Single(limit) && q.sizeLimits == p.sizeLimits
            && q.counter == (if now then 0 else p.counter) && q.size == (if now then 0 else p.size)
            && q.subs == p.subs && q.out == SentOut(p.out, now)
  {
    if limit.None? { assert p.counterLimits + multiset{} == p.counterLimits; }
  }

  lemma AddSizeExactly(p: Pipe, limit: Option<nat>)
    ensures var q, now := AddSizeLimit(p, limit), AtMost(limit, p.size);
            && q.sizeLimits == p.sizeLimits + Single(limit) && q.counterLimits == p.counterLimits
            && q.counter == (if now then 0 else p.counter) && q.size == (if now then 0 else p.size)
            && q.subs == p.subs && q.out == SentOut(p.out, now)
  {
    if limit.None? { assert p.sizeLimits + multiset{} == p.sizeLimits; }
  }

  lemma EnterExactly(p: Pipe, sub: Subscription)
    requires p.out.buffer.Some? <==> p.subs != {}
    ensures Enter(p, sub) ==
            p.(subs := if Empty(sub) then p.subs else p.subs + {sub.id},
               out := if p.subs == {} && !Empty(sub) then Outlet(Some(map[]), p.out.reports) else p.out)
  {
    if sub.id in p.subs { assert p.subs + {sub.id} == p.subs; }
  }

  /** Subscribing sends out what is buffered exactly if one of the new limits is already reached, and then both
      counts start anew; the first subscription to enter gets an empty buffer. */
  lemma SubscribeExactly(p: Pipe, sub: Subscription)
    requires Inv(p)
    ensures var c := AtMost(sub.counterLimit, p.counter);
            var s := AtMost(sub.sizeLimit, if c then 0 else p.size);
            var out := SentOut(SentOut(p.out, c), s);
            Subscribe(p, sub) ==
              Pipe(if c || s then 0 else p.counter, if c || s then 0 else p.size,
                   p.counterLimits + Single(sub.counterLimit), p.sizeLimits + Single(sub.sizeLimit),
                   if Empty(sub) then p.subs else p.subs + {sub.id},
                   if p.subs == {} && !Empty(sub) then Outlet(Some(map[]), p.out.reports) else out)
  {
    var q := AddCounterLimit(p, sub.counterLimit);
    AddCounterExactly(p, sub.counterLimit);
    AddSizeExactly(q, sub.sizeLimit);
    EnterExactly(AddSizeLimit(q, sub.sizeLimit), sub);
  }

  lemma DropExactly(p: Pipe, counterLimit: Option<nat>, sizeLimit: Option<nat>)
    ensures var q := DropSizeLimit(DropCounterLimit(p, counterLimit), sizeLimit);
            var cs, ss := p.counterLimits - Single(counterLimit), p.sizeLimits - Single(sizeLimit);
            q == p.(counterLimits := cs, sizeLimits := ss,
                    counter := if counterLimit.Some? && cs == multiset{} then 0 else p.counter,
                    size := if sizeLimit.Some? && ss == multiset{} then 0 else p.size)
  {
    if counterLimit.None? { assert p.counterLimits - multiset{} == p.counterLimits; }
    if sizeLimit.None? { assert p.sizeLimits - multiset{} == p.sizeLimits; }
  }

  lemma DepartExactly(p: Pipe, h: Handler)
    ensures var last := h.entered && p.subs - {h.id} == {};
            Depart(p, h) == p.(subs := if h.entered then p.subs - {h.id} else p.subs,
                               out := if last then Outlet(None, SentOut(p.out, true).reports) else p.out)
  {
  }

  /** An unsubscribe handler takes its limits back; a count starts anew exactly if its last limit goes; what is
      buffered goes out exactly if the handler is that of the last subscription, and the buffer with it. */
  lemma UnsubscribeExactly(p: Pipe, h: Handler)
    ensures var cs, ss := p.counterLimits - Single(h.counterLimit), p.sizeLimits - Single(h.sizeLimit);
            var last := h.entered && p.subs - {h.id} == {};
            Unsubscribe(p, h) ==
              Pipe(if h.counterLimit.Some? && cs == multiset{} then 0 else p.counter,
                   if h.sizeLimit.Some? && ss == multiset{} then 0 else p.size, cs, ss,
                   if h.entered then p.subs - {h.id} else p.subs,
                   if last then Outlet(None, SentOut(p.out, true).reports) else p.out)
  {
    DropExactly(p, h.counterLimit, h.sizeLimit);
    DepartExactly(DropSizeLimit(DropCounterLimit(p, h.counterLimit), h.sizeLimit), h);
  }

  // ---------------------------------------------------------------- runs of events

  datatype Item = Item(key: Key, event: WriteEvent)

  function Actions(es: seq<Item>): seq<Action> {
    seq(|es|, i requires 0 <= i < |es| => Processing(es[i].key, es[i].event))
  }

  function Count(es: seq<Item>): nat { if es == [] then 0 else es[0].event.counter + Count(es[1..]) }

  function Bytes(es: seq<Item>): nat { if es == [] then 0 else es[0].event.size + Bytes(es[1..]) }

  /** The buffer with all these events in it. */
  ghost function Taken(b: Buffer, es: seq<Item>): Buffer
    decreases es
  {
    if es == [] then b else Taken(Merged(b, es[0].key, es[0].event), es[1..])
  }

  /** The limits, and the counts so far. */
  datatype Meter = Meter(counter: nat, size: nat, counterLimits: multiset<nat>, sizeLimits: multiset<nat>)

  predicate Holds(m: Meter, es: seq<Item>) {
    Below(m.counterLimits, m.counter + Count(es)) && Below(m.sizeLimits, m.size + Bytes(es))
  }

  /** No limit is reached by any of them. */
  predicate StaysBelow(m: Meter, es: seq<Item>) { forall n :: 0 < n <= |es| ==> Holds(m, es[..n]) }

  /** A limit is reached by the last of them, and by none before. */
  predicate Completes(m: Meter, es: seq<Item>) {
    es != [] && !Holds(m, es) && forall n :: 0 < n < |es| ==> Holds(m, es[..n])
  }

  /** The events, cut wherever a limit is first reached. */
  predicate CutInto(m: Meter, es: seq<Item>, batches: seq<seq<Item>>, rest: seq<Item>)
    decreases batches
  {
    if batches == [] then es == rest && StaysBelow(m, rest)
    else
      && batches[0] <= es && Completes(m, batches[0])
      && CutInto(m.(counter := 0, size := 0), es[|batches[0]|..], batches[1..], rest)
  }

  ghost function BuffersOf(b: Buffer, batches: seq<seq<Item>>): seq<Buffer> {
    if batches == [] then [] else [Taken(b, batches[0])] + BuffersOf(map[], batches[1..])
  }

  function MeterOf(p: Pipe): Meter { Meter(p.counter, p.size, p.counterLimits, p.sizeLimits) }

  // ------------------------------------------------------------------- the batches

  lemma CountFront(e: Item, es: seq<Item>, n: nat)
    requires n <= |es|
    ensures ([e] + es)[..n + 1] == [e] + es[..n]
    ensures Count([e] + es[..n]) == e.event.counter + Count(es[..n])
    ensures Bytes([e] + es[..n]) == e.event.size + Bytes(es[..n])
  {
    assert ([e] + es[..n])[1..] == es[..n];
  }

  /** The counts after one more event. */
  function Advanced(m: Meter, e: WriteEvent): Meter { m.(counter := m.counter + e.counter, size := m.size + e.size) }

  lemma HoldsFront(m: Meter, e: Item, es: seq<Item>, n: nat)
    requires n <= |es|
    ensures Holds(m, ([e] + es)[..n + 1]) <==> Holds(Advanced(m, e.event), es[..n])
  {
    CountFront(e, es, n);
  }

  lemma StaysBelowCons(m: Meter, e: Item, es: seq<Item>)
    requires Holds(m, [e]) && StaysBelow(Advanced(m, e.event), es)
    ensures StaysBelow(m, [e] + es)
  {
    forall n | 0 < n <= |es| + 1 ensures Holds(m, ([e] + es)[..n]) {
      HoldsFront(m, e, es, n - 1);
      if n == 1 { assert ([e] + es)[..1] == [e]; }
    }
  }

  lemma CompletesCons(m: Meter, e: Item, es: seq<Item>)
    requires Holds(m, [e]) && Completes(Advanced(m, e.event), es)
    ensures Completes(m, [e] + es)
  {
    HoldsFront(m, e, es, |es|);
    assert ([e] + es)[..|es| + 1] == [e] + es && es[..|es|] == es;
    forall n | 0 < n < |es| + 1 ensures Holds(m, ([e] + es)[..n]) {
      HoldsFront(m, e, es, n - 1);
      if n == 1 { assert ([e] + es)[..1] == [e]; }
    }
  }

  lemma HoldsOne(m: Meter, e: Item)
    ensures Holds(m, [e]) <==>
            Below(m.counterLimits, m.counter + e.event.counter) && Below(m.sizeLimits, m.size + e.event.size)
  {
    CountFront(e, [], 0);
    assert [e] + [][..0] == [e];
  }

  /** The first event joins the first batch, or makes one of its own, or waits with the rest. */
  lemma CutCons(m: Meter, e: Item, es: seq<Item>, batches: seq<seq<Item>>, rest: seq<Item>)
    requires Holds(m, [e]) && CutInto(Advanced(m, e.event), es, batches, rest)
    ensures if batches == [] then CutInto(m, [e] + es, [], [e] + rest)
            else CutInto(m, [e] + es, [[e] + batches[0]] + batches[1..], rest)
  {
    if batches == [] {
      StaysBelowCons(m, e, es);
    } else {
      CompletesCons(m, e, batches[0]);
      var first := [e] + batches[0];
      assert ([first] + batches[1..])[1..] == batches[1..];
      assert ([e] + es)[|first|..] == es[|batches[0]|..];
      assert first <= [e] + es;
    }
  }

  lemma CutOff(m: Meter, e: Item, es: seq<Item>, batches: seq<seq<Item>>, rest: seq<Item>)
    requires !Holds(m, [e]) && CutInto(m.(counter := 0, size := 0), es, batches, rest)
    ensures CutInto(m, [e] + es, [[e]] + batches, rest)
  {
    assert ([[e]] + batches)[1..] == batches && ([e] + es)[1..] == es;
  }

  /** What a pipe with this meter and buffer has come to, after these batches and with this rest. */
  ghost predicate CameTo(p: Pipe, b: Buffer, batches: seq<seq<Item>>, rest: seq<Item>, q: Pipe) {
    && q.out.reports == p.out.reports + BuffersOf(b, batches)
    && q.out.buffer == Some(Taken(if batches == [] then b else map[], rest))
    && q.counter == (if batches == [] then p.counter else 0) + Count(rest)
    && q.size == (if batches == [] then p.size else 0) + Bytes(rest)
  }

  lemma FinalCons(p: Pipe, e: Item, es: seq<Item>)
    ensures Final(p, Actions([e] + es)) == Final(Process(p, e.key, e.event), Actions(es))
  {
    assert Actions([e] + es)[1..] == Actions(es);
  }

  lemma CameToCons(p: Pipe, b: Buffer, e: Item, p': Pipe, batches: seq<seq<Item>>, rest: seq<Item>, q: Pipe)
    requires p'.out.reports == p.out.reports && p'.counter == p.counter + e.event.counter
    requires p'.size == p.size + e.event.size && CameTo(p', Merged(b, e.key, e.event), batches, rest, q)
    ensures if batches == [] then CameTo(p, b, [], [e] + rest, q)
            else CameTo(p, b, [[e] + batches[0]] + batches[1..], rest, q)
  {
    if batches == [] {
      CountFront(e, rest, |rest|);
      assert rest[..|rest|] == rest && ([e] + rest)[1..] == rest;
    } else {
      var first := [e] + batches[0];
      assert first[1..] == batches[0] && ([first] + batches[1..])[1..] == batches[1..];
    }
  }

  lemma CameToOff(p: Pipe, b: Buffer, e: Item, p': Pipe, batches: seq<seq<Item>>, rest: seq<Item>, q: Pipe)
    requires p'.out.reports == p.out.reports + [Merged(b, e.key, e.event)] && p'.counter == 0 == p'.size
    requires CameTo(p', map[], batches, rest, q)
    ensures CameTo(p, b, [[e]] + batches, rest, q)
  {
    assert ([[e]] + batches)[1..] == batches && [e][1..] == [];
    assert Taken(b, [e]) == Merged(b, e.key, e.event);
  }

  /** Events alone, no subscription coming or going and no periodic trigger: each report holds the events up to
      the one that first reaches a limit, counted from the report before; the others wait in the buffer. */
  lemma {:induction false} ReportsExactly(p: Pipe, es: seq<Item>) returns (batches: seq<seq<Item>>, rest: seq<Item>)
    requires p.out.buffer.Some?
    ensures CutInto(MeterOf(p), es, batches, rest)
    ensures CameTo(p, p.out.buffer.value, batches, rest, Final(p, Actions(es)))
    decreases |es|
  {
    if es == [] { return [], []; }
    var e, b, m := es[0], p.out.buffer.value, MeterOf(p);
    var p' := Process(p, e.key, e.event);
    ProcessExactly(p, e.key, e.event);
    HoldsOne(m, e);
    var bs, r := ReportsExactly(p', es[1..]);
    FinalCons(p, e, es[1..]);
    assert [e] + es[1..] == es;
    var q := Final(p', Actions(es[1..]));
    if !Holds(m, [e]) {
      CutOff(m, e, es[1..], bs, r);
      CameToOff(p, b, e, p', bs, r, q);
      batches, rest := [[e]] + bs, r;
    } else {
      CutCons(m, e, es[1..], bs, r);
      CameToCons(p, b, e, p', bs, r, q);
      if bs == [] { batches, rest := [], [e] + r; } else { batches, rest := [[e] + bs[0]] + bs[1..], r; }
    }
  }

  lemma ShorterHolds(m: Meter, es: seq<Item>, a: seq<Item>, b: seq<Item>)
    requires a <= es && b <= es && a != [] && |a| < |b| && Completes(m, b)
    ensures Holds(m, a)
  {
    assert a == b[..|a|];
  }

  lemma FrontHolds(m: Meter, es: seq<Item>, a: seq<Item>)
    requires a <= es && a != [] && StaysBelow(m, es)
    ensures Holds(m, a)
  {
    assert a == es[..|a|];
  }

  /** There is only one way to cut. */
  lemma {:induction false} OneCut(m: Meter, es: seq<Item>, a: seq<seq<Item>>, x: seq<Item>, b: seq<seq<Item>>,
                                  y: seq<Item>)
    requires CutInto(m, es, a, x) && CutInto(m, es, b, y)
    ensures a == b && x == y
    decreases a
  {
    if a != [] && b != [] {
      if |a[0]| < |b[0]| {
        ShorterHolds(m, es, a[0], b[0]);
      } else if |b[0]| < |a[0]| {
        ShorterHolds(m, es, b[0], a[0]);
      } else {
        assert a[0] == es[..|a[0]|] == es[..|b[0]|] == b[0];
        OneCut(m.(counter := 0, size := 0), es[|a[0]|..], a[1..], x, b[1..], y);
        assert a == [a[0]] + a[1..] && b == [b[0]] + b[1..];
      }
    } else if a != [] {
      FrontHolds(m, es, a[0]);
    } else if b != [] {
      FrontHolds(m, es, b[0]);
    }
  }

  function About(es: seq<Item>, k: Key): seq<WriteEvent> {
    if es == [] then [] else (if es[0].key == k then [es[0].event] else []) + About(es[1..], k)
  }

  /** What a batch reports on a file is the aggregate of its events on it. */
  lemma {:induction false} BatchAmounts(b: Buffer, es: seq<Item>, k: Key)
    ensures Entry(Taken(b, es), k) == Join(Entry(b, k), Fold(About(es, k)))
    decreases es
  {
    if es != [] {
      var e := es[0];
      var here := if e.key == k then [e.event] else [];
      BatchAmounts(Merged(b, e.key, e.event), es[1..], k);
      FoldConcat(here, About(es[1..], k));
      if e.key == k { assert Fold([e.event]) == Join(Fold([e.event][..0]), Some(e.event)); }
      JoinAssociates(Entry(b, k), Fold(here), Fold(About(es[1..], k)));
    }
  }
}
