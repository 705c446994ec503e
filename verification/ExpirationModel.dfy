/** The cache expiration wheel: records age through numbered buckets, pinned records sit in none, and a
    tick first detaches the oldest bucket and then visits its members one by one. */
module ExpirationModel {
  import opened Options

  type Key = string

  /** A record's pin count and the bucket it names. */
  datatype Details = Details(pinned: nat, bucket: Option<int>)

  /** Buckets base up to base + n - 1 make up the wheel, the oldest first; while a tick runs, bucket
      base - 1 is detached and `left` is what of it the loop has still to reach. Numbers stand for
      addresses: a new bucket is none of the earlier ones. */
  datatype State = State(details: map<Key, Details>, base: int, members: map<int, set<Key>>,
                         left: Option<set<Key>>)

  /** seen: the loop over the detached bucket, which runs over the live table, has not yet passed the place
      where the new key goes. */
  datatype Event =
    | Mark(key: Key) | Pin(key: Key) | Unpin(key: Key) | Rename(from: Key, to: Key, seen: bool)
    | Expire(key: Key) | Shift | Sweep(key: Key) | EndTick

  function EmptyBuckets(n: nat): (ms: map<int, set<Key>>)
    ensures forall b :: b in ms <==> 0 <= b < n
    ensures forall b :: b in ms ==> ms[b] == {}
  {
    if n == 0 then map[] else EmptyBuckets(n - 1)[n - 1 := {}]
  }

  function Init(n: nat): State { State(map[], 0, EmptyBuckets(n), None) }

  function Of(s: State, k: Key): Details { if k in s.details then s.details[k] else Details(0, None) }

  predicate In(s: State, b: int, k: Key) { b in s.members && k in s.members[b] }

  function Leave(ms: map<int, set<Key>>, b: Option<int>, k: Key): map<int, set<Key>> {
    if b.Some? && b.value in ms then ms[b.value := ms[b.value] - {k}] else ms
  }

  function Enter(ms: map<int, set<Key>>, b: int, k: Key): map<int, set<Key>> {
    if b in ms then ms[b := ms[b] + {k}] else ms
  }

  /** A record taken out of the detached bucket need not be reached any more. */
  function Spare(s: State, k: Key): Option<set<Key>> {
    if s.left.Some? && Of(s, k).bucket == Some(s.base - 1) then Some(s.left.value - {k}) else s.left
  }

  /** Put a record into a bucket, out of whichever it was in. */
  function Move(s: State, k: Key, b: int): State {
    State(s.details[k := Details(0, Some(b))], s.base, Enter(Leave(s.members, Of(s, k).bucket, k), b, k),
          Spare(s, k))
  }

  /** Put a record into no bucket, with this many pins. */
  function Hold(s: State, k: Key, pins: nat): State {
    State(s.details[k := Details(pins, None)], s.base, Leave(s.members, Of(s, k).bucket, k), Spare(s, k))
  }

  function Forget(s: State, k: Key): State {
    State(s.details - {k}, s.base, Leave(s.members, Of(s, k).bucket, k), Spare(s, k))
  }

  /** A key just put into the detached bucket ahead of the loop will be reached. */
  function Reach(s: State, k: Key, seen: bool): State {
    if seen && s.left.Some? && Of(s, k).bucket == Some(s.base - 1) then s.(left := Some(s.left.value + {k})) else s
  }

  /** The new key takes over the old one's pins, or its bucket. */
  function TakenOver(s: State, from: Key, to: Key, seen: bool): State {
    var was := Of(s, from);
    if to in s.details then
      if s.details[to].pinned + was.pinned > 0 then Hold(s, to, s.details[to].pinned + was.pinned) else s
    else if was.pinned > 0 then Hold(s, to, was.pinned)
    else if was.bucket.Some? then Reach(Move(s, to, was.bucket.value), to, seen)
    else s
  }

  function RenameTo(s: State, from: Key, to: Key, seen: bool): State {
    Forget(TakenOver(s, from, to, seen), from)
  }

  function Next(s: State, n: nat, e: Event): State {
    match e
    case Mark(k) =>
      if Of(s, k).pinned == 0 && Of(s, k).bucket != Some(s.base + n - 1) then Move(s, k, s.base + n - 1)
      else s.(details := s.details[k := Of(s, k)])
    case Pin(k) => Hold(s, k, Of(s, k).pinned + 1)
    case Unpin(k) =>
      if Of(s, k).pinned == 1 then Move(s, k, s.base + n - 1)
      else if Of(s, k).pinned > 1 then Hold(s, k, Of(s, k).pinned - 1)
      else s
    case Rename(from, to, seen) => if from == to || from !in s.details then s else RenameTo(s, from, to, seen)
    case Expire(k) =>
      if k !in s.details || s.details[k].pinned > 0 || s.details[k].bucket == Some(s.base) then s
      else Move(s, k, s.base)
    case Shift =>
      State(s.details, s.base + 1, s.members[s.base + n := {}],
            Some(if s.base in s.members then s.members[s.base] else {}))
    case Sweep(k) =>
      s.(details := if Purges(s, e, k) then s.details - {k} else s.details,
         left := if s.left.Some? then Some(s.left.value - {k}) else None)
    case EndTick => s.(members := s.members - {s.base - 1}, left := None)
  }

  /** The event calls purge for this key. */
  predicate Purges(s: State, e: Event, k: Key) {
    e == Sweep(k) && k in s.details && s.details[k].bucket == Some(s.base - 1)
  }

  /** The event calls cache for this key. */
  predicate Caches(s: State, e: Event, k: Key) {
    k !in s.details &&
    (e == Mark(k) || e == Pin(k) || (e.Rename? && e.to == k && e.from != k && e.from in s.details))
  }

  /** The event moves this key's record to another key. */
  predicate RenamesAway(s: State, e: Event, k: Key) {
    e.Rename? && e.from == k && e.to != k && k in s.details
  }

  /** Unpins match pins; ticks do not overlap; the loop may visit any key, one it fetched before the key was
      moved included, and ends when nothing is left to reach; it does not come back to a key still lying in
      the detached bucket from an earlier visit. */
  predicate Enabled(s: State, e: Event) {
    match e
    case Unpin(k) => k in s.details && s.details[k].pinned > 0
    case Rename(_, to, seen) => Detains(s, e) && seen ==> !In(s, s.base - 1, to)
    case Shift => s.left.None?
    case Sweep(k) => s.left.Some?
    case EndTick => s.left == Some({})
    case _ => true
  }

  /** The assertions of the code on this event. */
  predicate Asserts(s: State, n: nat, e: Event) {
    match e
    case Mark(k) =>
      Of(s, k).pinned == 0 && Of(s, k).bucket != Some(s.base + n - 1) ==> !In(s, s.base + n - 1, k)
    case Unpin(k) =>
      k in s.details && s.details[k].bucket.None? && (s.details[k].pinned == 1 ==> !In(s, s.base + n - 1, k))
    case Rename(from, to, _) =>
      from != to && from in s.details && to !in s.details && s.details[from].pinned == 0 ==>
        s.details[from].bucket.Some? && !In(s, s.details[from].bucket.value, to)
    case Expire(k) =>
      k in s.details && s.details[k].pinned == 0 ==>
        s.details[k].bucket.Some? && (s.details[k].bucket != Some(s.base) ==> !In(s, s.base, k))
    case _ => true
  }

  /** A rename inside a tick that puts a new key into the detached bucket. */
  predicate Detains(s: State, e: Event) {
    s.left.Some? && e.Rename? && e.from != e.to && e.from in s.details && e.to !in s.details
    && s.details[e.from].bucket == Some(s.base - 1)
  }

  /** ... behind the loop. */
  predicate Strands(s: State, e: Event) { Detains(s, e) && !e.seen }

  /** Every step of a history is enabled, and none strands a key. */
  predicate Legal(s: State, n: nat, es: seq<Event>)
    decreases es
  {
    es == [] || (Enabled(s, es[0]) && !Strands(s, es[0]) && Legal(Next(s, n, es[0]), n, es[1..]))
  }

  function Final(s: State, n: nat, es: seq<Event>): State
    decreases es
  {
    if es == [] then s else Final(Next(s, n, es[0]), n, es[1..])
  }
}
