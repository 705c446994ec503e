/** Ageing, pinning, purging and pin counts over whole histories of the expiration wheel. */
module ExpirationRuns {
  import opened Options
  import opened ExpirationModel
  import opened ExpirationProofs

  // ---------------------------------------------------------------- every history

  predicate NoAssertFires(s: State, n: nat, es: seq<Event>)
    decreases es
  {
    es == [] || (Asserts(s, n, es[0]) && NoAssertFires(Next(s, n, es[0]), n, es[1..]))
  }

  /** Every legal history keeps the invariant and fires no assertion. */
  lemma {:induction false} RunKeeps(s: State, n: nat, es: seq<Event>)
    requires Inv(s, n) && Legal(s, n, es)
    ensures Inv(Final(s, n, es), n) && NoAssertFires(s, n, es)
    decreases es
  {
    if es != [] {
      StepKeeps(s, n, es[0]);
      AssertsHold(s, n, es[0]);
      RunKeeps(Next(s, n, es[0]), n, es[1..]);
    }
  }

  /** When a tick ends, no record names the bucket it detached. */
  lemma TickEndsClean(n: nat, es: seq<Event>)
    requires n > 0 && Legal(Init(n), n, es) && Enabled(Final(Init(n), n, es), EndTick)
    ensures var s := Final(Init(n), n, es);
            forall k :: k in s.details ==> s.details[k].bucket != Some(s.base - 1)
  {
    InitInv(n);
    RunKeeps(Init(n), n, es);
    EndTickKeeps(Final(Init(n), n, es), n);
  }

  // ------------------------------------------------------------------------ counts

  function Shifts(es: seq<Event>): nat
    decreases es
  {
    if es == [] then 0 else (if es[0] == Shift then 1 else 0) + Shifts(es[1..])
  }

  function PurgeCount(s: State, n: nat, es: seq<Event>, k: Key): nat
    decreases es
  {
    if es == [] then 0
    else (if Purges(s, es[0], k) then 1 else 0) + PurgeCount(Next(s, n, es[0]), n, es[1..], k)
  }

  function CacheCount(s: State, n: nat, es: seq<Event>, k: Key): nat
    decreases es
  {
    if es == [] then 0
    else (if Caches(s, es[0], k) then 1 else 0) + CacheCount(Next(s, n, es[0]), n, es[1..], k)
  }

  function AwayCount(s: State, n: nat, es: seq<Event>, k: Key): nat
    decreases es
  {
    if es == [] then 0
    else (if RenamesAway(s, es[0], k) then 1 else 0) + AwayCount(Next(s, n, es[0]), n, es[1..], k)
  }

  function Tracked(s: State, k: Key): nat { if k in s.details then 1 else 0 }

  lemma LifeStep(s: State, n: nat, e: Event, k: Key)
    requires Inv(s, n) && Enabled(s, e)
    ensures Tracked(s, k) + (if Caches(s, e, k) then 1 else 0)
         == Tracked(Next(s, n, e), k) + (if Purges(s, e, k) then 1 else 0) + (if RenamesAway(s, e, k) then 1 else 0)
  {
  }

  /** Each tracking period starts with one cache call and ends with one purge or one rename away: never
      both, never twice. */
  lemma {:induction false} LifeBalance(s: State, n: nat, es: seq<Event>, k: Key)
    requires Inv(s, n) && Legal(s, n, es)
    ensures Tracked(s, k) + CacheCount(s, n, es, k)
         == Tracked(Final(s, n, es), k) + PurgeCount(s, n, es, k) + AwayCount(s, n, es, k)
    decreases es
  {
    if es != [] {
      LifeStep(s, n, es[0], k);
      StepKeeps(s, n, es[0]);
      LifeBalance(Next(s, n, es[0]), n, es[1..], k);
    }
  }

  // ------------------------------------------------------------------------ ageing

  predicate Touches(e: Event, k: Key) {
    e == Mark(k) || e == Pin(k) || e == Unpin(k) || e == Expire(k) || (e.Rename? && (e.from == k || e.to == k))
  }

  predicate LeftAlone(es: seq<Event>, k: Key) { forall i :: 0 <= i < |es| ==> !Touches(es[i], k) }

  lemma AloneStep(s: State, n: nat, e: Event, k: Key)
    requires !Touches(e, k)
    ensures Next(s, n, e).base == s.base + (if e == Shift then 1 else 0)
    ensures Purges(s, e, k) ==> k !in Next(s, n, e).details
    ensures !Purges(s, e, k) ==>
              Of(Next(s, n, e), k) == Of(s, k) && (k in Next(s, n, e).details <==> k in s.details)
  {
  }

  lemma {:induction false} StaysGone(s: State, n: nat, es: seq<Event>, k: Key)
    requires k !in s.details && LeftAlone(es, k)
    ensures k !in Final(s, n, es).details && PurgeCount(s, n, es, k) == 0
    ensures Final(s, n, es).base == s.base + Shifts(es)
    decreases es
  {
    if es != [] {
      AloneStep(s, n, es[0], k);
      StaysGone(Next(s, n, es[0]), n, es[1..], k);
    }
  }

  /** A record left alone keeps its details until it is purged, which happens once at most. */
  lemma {:induction false} AloneRun(s: State, n: nat, es: seq<Event>, k: Key)
    requires Inv(s, n) && Legal(s, n, es) && k in s.details && LeftAlone(es, k)
    ensures var t := Final(s, n, es);
            && t.base == s.base + Shifts(es)
            && PurgeCount(s, n, es, k) == (if k in t.details then 0 else 1)
            && (k in t.details ==> t.details[k] == s.details[k])
            && (k !in t.details ==> s.details[k].bucket.Some? && s.details[k].bucket.value < t.base)
    decreases es
  {
    if es != [] {
      var next := Next(s, n, es[0]);
      AloneStep(s, n, es[0], k);
      StepKeeps(s, n, es[0]);
      if Purges(s, es[0], k) {
        StaysGone(next, n, es[1..], k);
      } else {
        AloneRun(next, n, es[1..], k);
      }
    }
  }

  /** A record in the bucket that is `age` ticks away from expiry, left alone, survives the first `age`
      shifts and is purged, once, by the tick after them. */
  lemma AgesExactly(s: State, n: nat, es: seq<Event>, k: Key, age: nat)
    requires Inv(s, n) && Legal(s, n, es) && LeftAlone(es, k)
    requires k in s.details && s.details[k].bucket == Some(s.base + age)
    ensures var t := Final(s, n, es);
            && (Shifts(es) <= age ==> k in t.details && PurgeCount(s, n, es, k) == 0)
            && (Shifts(es) > age && t.left.None? ==> k !in t.details && PurgeCount(s, n, es, k) == 1)
            && (Shifts(es) > age + 1 ==> k !in t.details && PurgeCount(s, n, es, k) == 1)
  {
    AloneRun(s, n, es, k);
    RunKeeps(s, n, es);
  }

  /** After a mark of an unpinned record, or its last unpin: purged by exactly the n-th tick. */
  lemma MarkedAgesExactly(s: State, n: nat, e: Event, es: seq<Event>, k: Key)
    requires Inv(s, n) && Enabled(s, e) && !Strands(s, e)
    requires (e == Mark(k) && Of(s, k).pinned == 0) || (e == Unpin(k) && Of(s, k).pinned == 1)
    requires Legal(Next(s, n, e), n, es) && LeftAlone(es, k)
    ensures var m := Next(s, n, e); var t := Final(m, n, es);
            && (Shifts(es) < n ==> k in t.details && PurgeCount(m, n, es, k) == 0)
            && (Shifts(es) >= n && t.left.None? ==> k !in t.details && PurgeCount(m, n, es, k) == 1)
  {
    StepKeeps(s, n, e);
    AgesExactly(Next(s, n, e), n, es, k, n - 1);
  }

  /** After an expire of an unpinned record: purged by the next tick. */
  lemma ExpiredAgesExactly(s: State, n: nat, es: seq<Event>, k: Key)
    requires Inv(s, n) && k in s.details && s.details[k].pinned == 0
    requires Legal(Next(s, n, Expire(k)), n, es) && LeftAlone(es, k)
    ensures var m := Next(s, n, Expire(k)); var t := Final(m, n, es);
            && (Shifts(es) == 0 ==> k in t.details && PurgeCount(m, n, es, k) == 0)
            && (Shifts(es) > 0 && t.left.None? ==> k !in t.details && PurgeCount(m, n, es, k) == 1)
  {
    StepKeeps(s, n, Expire(k));
    AgesExactly(Next(s, n, Expire(k)), n, es, k, 0);
  }

  /** A renamed record keeps its bucket and its pins; a tracked new key keeps its own bucket unless there are pins,
      which are added up; no other record changes. */
  lemma RenameRetains(s: State, n: nat, from: Key, to: Key, seen: bool)
    requires Inv(s, n) && from != to && from in s.details
    ensures var t := Next(s, n, Rename(from, to, seen));
            && from !in t.details && to in t.details
            && (to !in s.details ==> t.details[to] == s.details[from])
            && (to in s.details ==> t.details[to].pinned == s.details[to].pinned + s.details[from].pinned)
            && (to in s.details && t.details[to].pinned == 0 ==> t.details[to] == s.details[to])
            && forall k :: k != from && k != to ==> Of(t, k) == Of(s, k) && (k in t.details <==> k in s.details)
  {
  }

  /** A record `age` ticks away from expiry, renamed and then left alone under its new key, survives the first
      `age` shifts and is purged, once, by the tick after them. */
  lemma RenamedAgesExactly(s: State, n: nat, from: Key, to: Key, seen: bool, es: seq<Event>, age: nat)
    requires Inv(s, n) && from != to && from in s.details && to !in s.details
    requires s.details[from].bucket == Some(s.base + age)
    requires Legal(Next(s, n, Rename(from, to, seen)), n, es) && LeftAlone(es, to)
    ensures var m := Next(s, n, Rename(from, to, seen)); var t := Final(m, n, es);
            && (Shifts(es) <= age ==> to in t.details && PurgeCount(m, n, es, to) == 0)
            && (Shifts(es) > age && t.left.None? ==> to !in t.details && PurgeCount(m, n, es, to) == 1)
            && (Shifts(es) > age + 1 ==> to !in t.details && PurgeCount(m, n, es, to) == 1)
  {
    RenameRetains(s, n, from, to, seen);
    StepKeeps(s, n, Rename(from, to, seen));
    AgesExactly(Next(s, n, Rename(from, to, seen)), n, es, to, age);
  }

  // -------------------------------------------------------------- pins and windows

  function Unpins(es: seq<Event>, k: Key): nat
    decreases es
  {
    if es == [] then 0 else (if es[0] == Unpin(k) then 1 else 0) + Unpins(es[1..], k)
  }

  /** As long as a record has more pins than the history takes from it, it is not purged, whatever else happens
      under its key. */
  lemma {:induction false} PinnedIsSafe(s: State, n: nat, es: seq<Event>, k: Key)
    requires Inv(s, n) && Legal(s, n, es) && k in s.details && s.details[k].pinned > Unpins(es, k)
    requires forall i :: 0 <= i < |es| ==> !(es[i].Rename? && es[i].from == k)
    ensures var t := Final(s, n, es);
            && k in t.details && t.details[k].pinned >= s.details[k].pinned - Unpins(es, k)
            && PurgeCount(s, n, es, k) == 0
    decreases es
  {
    if es != [] {
      StepKeeps(s, n, es[0]);
      PinnedStep(s, n, es[0], k);
      PinnedIsSafe(Next(s, n, es[0]), n, es[1..], k);
    }
  }

  lemma PinnedStep(s: State, n: nat, e: Event, k: Key)
    requires Inv(s, n) && k in s.details && !(e.Rename? && e.from == k)
    requires s.details[k].pinned > (if e == Unpin(k) then 1 else 0)
    ensures !Purges(s, e, k) && k in Next(s, n, e).details
    ensures Next(s, n, e).details[k].pinned >= s.details[k].pinned - (if e == Unpin(k) then 1 else 0)
  {
  }

  /** No rename of the history puts this key into the bucket being swept. */
  predicate NeverDetained(s: State, n: nat, es: seq<Event>, k: Key)
    decreases es
  {
    es == [] || (!(Detains(s, es[0]) && es[0].to == k) && NeverDetained(Next(s, n, es[0]), n, es[1..], k))
  }

  /** A record that does not name the detached bucket - marked, pinned, unpinned or expired since the shift,
      or not tracked at all - is not purged before the next tick, even if the loop visits it. */
  lemma {:induction false} SparedByThisTick(s: State, n: nat, es: seq<Event>, k: Key)
    requires Inv(s, n) && Legal(s, n, es) && Of(s, k).bucket != Some(s.base - 1)
    requires NeverDetained(s, n, es, k) && forall i :: 0 <= i < |es| ==> es[i] != Shift
    ensures PurgeCount(s, n, es, k) == 0 && Final(s, n, es).base == s.base
    ensures Of(Final(s, n, es), k).bucket != Some(s.base - 1)
    decreases es
  {
    if es != [] {
      StepKeeps(s, n, es[0]);
      SparedStep(s, n, es[0], k);
      SparedByThisTick(Next(s, n, es[0]), n, es[1..], k);
    }
  }

  lemma SparedStep(s: State, n: nat, e: Event, k: Key)
    requires Inv(s, n) && e != Shift && Of(s, k).bucket != Some(s.base - 1) && !(Detains(s, e) && e.to == k)
    ensures !Purges(s, e, k) && Next(s, n, e).base == s.base
    ensures Of(Next(s, n, e), k).bucket != Some(s.base - 1)
  {
  }

  lemma OneStep(s: State, n: nat, e: Event, es: seq<Event>, k: Key)
    ensures Final(s, n, [e] + es) == Final(Next(s, n, e), n, es)
    ensures Legal(s, n, [e] + es) <==> Enabled(s, e) && !Strands(s, e) && Legal(Next(s, n, e), n, es)
    ensures PurgeCount(s, n, [e] + es, k) == (if Purges(s, e, k) then 1 else 0) + PurgeCount(Next(s, n, e), n, es, k)
  {
    assert ([e] + es)[1..] == es;
  }

  /** The loop fetches a key, the key is marked, and only then does the loop look it up: it stays. Without the
      mark it is purged. */
  lemma FetchedThenMarked(s: State, n: nat, k: Key)
    requires Inv(s, n) && s.left.Some? && k in s.left.value
    ensures Legal(s, n, [Mark(k)] + [Sweep(k)]) && PurgeCount(s, n, [Mark(k)] + [Sweep(k)], k) == 0
    ensures Legal(s, n, [Sweep(k)]) && PurgeCount(s, n, [Sweep(k)], k) == 1
  {
    var m := Next(s, n, Mark(k));
    OneStep(s, n, Mark(k), [Sweep(k)], k);
    OneStep(m, n, Sweep(k), [], k);
    OneStep(s, n, Sweep(k), [], k);
    assert [Sweep(k)] + [] == [Sweep(k)];
  }

  // -------------------------------------------------------------------- stranding

  predicate IsTickStep(e: Event) { e == Shift || e == EndTick || e.Sweep? }

  /** A record that names a bucket older than any a tick can detach is never purged by ticking. */
  lemma {:induction false} StrandedStays(s: State, n: nat, es: seq<Event>, k: Key)
    requires k in s.details && s.details[k].bucket.Some?
    requires s.details[k].bucket.value < s.base - (if s.left.Some? then 1 else 0)
    requires Legal(s, n, es) && forall i :: 0 <= i < |es| ==> IsTickStep(es[i])
    ensures k in Final(s, n, es).details && PurgeCount(s, n, es, k) == 0
    decreases es
  {
    if es != [] {
      StrandedStays(Next(s, n, es[0]), n, es[1..], k);
    }
  }

  /** The loop does not come to this key before it ends. */
  predicate NotVisited(es: seq<Event>, k: Key)
    decreases es
  {
    es == [] || es[0] == EndTick || (es[0] != Sweep(k) && NotVisited(es[1..], k))
  }

  lemma {:induction false} PassedOver(s: State, n: nat, es: seq<Event>, k: Key)
    requires s.left.Some? && k in s.details && s.details[k].bucket == Some(s.base - 1)
    requires Legal(s, n, es) && NotVisited(es, k) && forall i :: 0 <= i < |es| ==> IsTickStep(es[i])
    ensures k in Final(s, n, es).details && PurgeCount(s, n, es, k) == 0
    decreases es
  {
    if es != [] {
      var t := Next(s, n, es[0]);
      if es[0] == EndTick { StrandedStays(t, n, es[1..], k); } else { PassedOver(t, n, es[1..], k); }
    }
  }

  /** A key renamed behind the loop, which therefore does not come to it, survives the tick under way, whatever
      else that has to visit, and every later one. */
  lemma StrandedForever(s: State, n: nat, from: Key, to: Key, es: seq<Event>)
    requires Inv(s, n) && Detains(s, Rename(from, to, false))
    requires var t := Next(s, n, Rename(from, to, false)); Legal(t, n, es)
    requires NotVisited(es, to) && forall i :: 0 <= i < |es| ==> IsTickStep(es[i])
    ensures Asserts(s, n, Rename(from, to, false)) <==> !In(s, s.base - 1, to)
    ensures var t := Next(s, n, Rename(from, to, false));
            to in Final(t, n, es).details && PurgeCount(t, n, es, to) == 0
  {
    StrandedUnseen(s, n, from, to);
    PassedOver(Next(s, n, Rename(from, to, false)), n, es, to);
  }

  /** Two records are marked, the bucket is detached, and the loop has visited one of them. */
  function Halfway(a: Key, c: Key): State {
    Next(Next(Next(Next(Init(1), 1, Mark(a)), 1, Mark(c)), 1, Shift), 1, Sweep(c))
  }

  lemma MarkedTwo(a: Key, c: Key)
    requires a != c
    ensures var m := Next(Next(Init(1), 1, Mark(a)), 1, Mark(c));
            && Inv(m, 1) && m.base == 0 && m.left.None?
            && m.details == map[a := Details(0, Some(0)), c := Details(0, Some(0))]
  {
    InitInv(1);
    MarkKeeps(Init(1), 1, a);
    MarkKeeps(Next(Init(1), 1, Mark(a)), 1, c);
  }

  /** Such a state comes about, for any three keys. */
  lemma HalfwayIs(a: Key, b: Key, c: Key)
    requires a != b && b != c && c != a
    ensures var s := Halfway(a, c);
            && Inv(s, 1) && s.left == Some({a}) && Detains(s, Rename(a, b, false)) && !In(s, s.base - 1, b)
  {
    var m := Next(Next(Init(1), 1, Mark(a)), 1, Mark(c));
    MarkedTwo(a, c);
    assert !In(m, 0, b);
    var d := Next(m, 1, Shift);
    ShiftKeeps(m, 1);
    SweepKeeps(d, 1, c);
    var s := Next(d, 1, Sweep(c));
    assert s.details == map[a := Details(0, Some(0))];
    assert s.left.value == {a} by { assert forall k :: k in s.left.value <==> k == a; }
  }

  /** A history, then, after which a tracked, unpinned key is never purged, however often the wheel ticks. */
  lemma StrandedExample(a: Key, b: Key, c: Key, es: seq<Event>)
    requires a != b && b != c && c != a && forall i :: 0 <= i < |es| ==> IsTickStep(es[i])
    ensures var s := Halfway(a, c); var t := Next(s, 1, Rename(a, b, false)); var u := Next(t, 1, EndTick);
            && Asserts(s, 1, Rename(a, b, false)) && Enabled(t, EndTick)
            && (Legal(u, 1, es) ==> b in Final(u, 1, es).details && PurgeCount(u, 1, es, b) == 0)
  {
    HalfwayIs(a, b, c);
    var s := Halfway(a, c);
    var t := Next(s, 1, Rename(a, b, false));
    RenameAssertsExactly(s, 1, a, b, false);
    assert t.left == Some(s.left.value - {a});
    assert s.left.value - {a} == {};
    OneStep(t, 1, EndTick, es, b);
    if Legal(Next(t, 1, EndTick), 1, es) { StrandedForever(s, 1, a, b, [EndTick] + es); }
  }

  /** In the same place, renaming to the key just visited, which still lies in the bucket, trips the code's
      assertion. */
  lemma AssertionExample(a: Key, c: Key)
    requires a != c
    ensures var s := Halfway(a, c);
            Inv(s, 1) && Enabled(s, Rename(a, c, false)) && !Asserts(s, 1, Rename(a, c, false))
  {
    var m := Next(Next(Init(1), 1, Mark(a)), 1, Mark(c));
    MarkedTwo(a, c);
    assert In(m, 0, c);
    var d := Next(m, 1, Shift);
    ShiftKeeps(m, 1);
    SweepKeeps(d, 1, c);
    RenameAssertsExactly(Next(d, 1, Sweep(c)), 1, a, c, false);
  }

  // -------------------------------------------------------------------------- pins

  ghost function TotalPins(m: map<Key, Details>): nat
    decreases |m|
  {
    if m == map[] then 0
    else
      assert m.Keys != {};
      var k :| k in m;
      assert (m - {k}).Keys == m.Keys - {k};
      m[k].pinned + TotalPins(m - {k})
  }

  lemma {:induction false} PinsWithout(m: map<Key, Details>, k: Key)
    requires k in m
    ensures TotalPins(m) == m[k].pinned + TotalPins(m - {k})
    decreases |m|
  {
    var j :| j in m && TotalPins(m) == m[j].pinned + TotalPins(m - {j});
    if j != k {
      assert (m - {j}).Keys == m.Keys - {j} && (m - {k}).Keys == m.Keys - {k};
      PinsWithout(m - {j}, k);
      PinsWithout(m - {k}, j);
      assert m - {j} - {k} == m - {k} - {j};
    }
  }

  lemma PinsWith(m: map<Key, Details>, k: Key, d: Details)
    ensures TotalPins(m[k := d]) == TotalPins(m) - (if k in m then m[k].pinned else 0) + d.pinned
  {
    PinsWithout(m[k := d], k);
    if k in m { PinsWithout(m, k); }
    assert m[k := d] - {k} == m - {k};
    if k !in m { assert m - {k} == m; }
  }

  function PinChange(e: Event): int { if e.Pin? then 1 else if e.Unpin? then -1 else 0 }

  lemma RenamePins(s: State, from: Key, to: Key, seen: bool)
    requires from != to && from in s.details
    requires s.details[from].pinned > 0 || s.details[from].bucket.Some?
    ensures TotalPins(RenameTo(s, from, to, seen).details) == TotalPins(s.details)
  {
    var was := s.details[from];
    var moved := if to in s.details then Details(s.details[to].pinned + was.pinned,
                                                 if s.details[to].pinned + was.pinned > 0 then None
                                                 else s.details[to].bucket)
                 else Details(was.pinned, if was.pinned > 0 then None else was.bucket);
    PinsWith(s.details, to, moved);
    if to in s.details && moved.pinned == 0 { assert s.details[to := moved] == s.details; }
    PinsWithout(s.details[to := moved], from);
  }

  /** Pins are conserved: only pin and unpin change their total, rename included. */
  lemma StepPins(s: State, n: nat, e: Event)
    requires Inv(s, n) && Enabled(s, e)
    ensures TotalPins(Next(s, n, e).details) == TotalPins(s.details) + PinChange(e)
  {
    match e
    case Mark(k) => PinsWith(s.details, k, Next(s, n, e).details[k]);
    case Pin(k) => PinsWith(s.details, k, Details(Of(s, k).pinned + 1, None));
    case Unpin(k) => PinsWith(s.details, k, Next(s, n, e).details[k]);
    case Rename(from, to, seen) => if from != to && from in s.details { RenamePins(s, from, to, seen); }
    case Expire(k) => if k in s.details { PinsWith(s.details, k, Next(s, n, e).details[k]); }
    case Shift =>
    case Sweep(k) => if Purges(s, e, k) { PinsWithout(s.details, k); }
    case EndTick =>
  }

  function PinBalance(es: seq<Event>): int
    decreases es
  {
    if es == [] then 0 else PinChange(es[0]) + PinBalance(es[1..])
  }

  lemma {:induction false} PinsConserved(s: State, n: nat, es: seq<Event>)
    requires Inv(s, n) && Legal(s, n, es)
    ensures TotalPins(Final(s, n, es).details) == TotalPins(s.details) + PinBalance(es)
    decreases es
  {
    if es != [] {
      StepPins(s, n, es[0]);
      StepKeeps(s, n, es[0]);
      PinsConserved(Next(s, n, es[0]), n, es[1..]);
    }
  }
}
