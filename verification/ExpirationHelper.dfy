/** CacheExpirationHelper: the wheel as an object whose methods update it in place. */
module ExpirationHelper {
  import opened Options
  import opened ExpirationModel
  import opened ExpirationProofs

  class CacheExpirationHelper {
    const n: nat
    /** m_expDetails. */
    var details: map<Key, Details>
    /** m_buckets: the numbers of the buckets on the wheel, the next to expire first. */
    const buckets: array<int>
    var members: map<int, set<Key>>
    var left: Option<set<Key>>

    ghost predicate Wheel()
      reads this, buckets
    {
      n > 0 && buckets.Length == n && forall i :: 0 <= i < n ==> buckets[i] == buckets[0] + i
    }

    ghost function Value(): State
      requires Wheel()
      reads this, buckets
    {
      State(details, buckets[0], members, left)
    }

    ghost predicate Valid()
      reads this, buckets
    {
      Wheel() && Inv(Value(), n)
    }

    constructor (count: nat)
      requires count > 0
      ensures Valid() && n == count && Value() == Init(count) && fresh(buckets)
    {
      n := count;
      details := map[];
      buckets := new int[count](i => i);
      members := EmptyBuckets(count);
      left := None;
      new;
      InitInv(count);
    }

    /** bucket->erase: the record leaves the bucket it names. */
    method Erase(k: Key)
      requires Wheel() && k in details
      modifies this`members, this`left
      ensures members == Leave(old(members), details[k].bucket, k) && left == Spare(old(Value()), k)
    {
      var b := details[k].bucket;
      if b.Some? {
        if b.value in members {
          members := members[b.value := members[b.value] - {k}];
        }
        if left.Some? && b.value == buckets[0] - 1 {
          left := Some(left.value - {k});
        }
      }
    }

    /** Into this bucket, out of whichever the record was in. */
    method MoveTo(k: Key, b: int)
      requires Wheel() && b in members && !In(Value(), b, k)
      modifies this`details, this`members, this`left
      ensures Wheel() && Value() == Move(old(Value()), k, b)
    {
      if k in details {
        Erase(k);
      }
      details := details[k := Details(0, Some(b))];
      members := members[b := members[b] + {k}];
    }

    /** Into no bucket, with this many pins. */
    method HoldWith(k: Key, pins: nat)
      requires Wheel()
      modifies this`details, this`members, this`left
      ensures Wheel() && Value() == Hold(old(Value()), k, pins)
    {
      if k in details {
        Erase(k);
      }
      details := details[k := Details(pins, None)];
    }

    method Drop(k: Key)
      requires Wheel() && k in details
      modifies this`details, this`members, this`left
      ensures Wheel() && Value() == Forget(old(Value()), k)
    {
      Erase(k);
      details := details - {k};
    }

    method MarkInteresting(k: Key) returns (cached: bool)
      requires Valid()
      modifies this
      ensures Valid() && Value() == Next(old(Value()), n, Mark(k))
      ensures cached == Caches(old(Value()), Mark(k), k)
    {
      StepKeeps(Value(), n, Mark(k));
      AssertsHold(Value(), n, Mark(k));
      cached := Freshen(k);
    }

    method Freshen(k: Key) returns (cached: bool)
      requires Wheel() && buckets[n - 1] in members && Asserts(Value(), n, Mark(k))
      modifies this
      ensures Wheel() && Value() == Next(old(Value()), n, Mark(k)) && cached == (k !in old(details))
    {
      cached := k !in details;
      if k !in details || (details[k].pinned == 0 && details[k].bucket != Some(buckets[n - 1])) {
        MoveTo(k, buckets[n - 1]);
      } else {
        assert details == details[k := details[k]];
      }
    }

    method PinRecord(k: Key) returns (cached: bool)
      requires Valid()
      modifies this
      ensures Valid() && Value() == Next(old(Value()), n, Pin(k))
      ensures cached == Caches(old(Value()), Pin(k), k)
    {
      StepKeeps(Value(), n, Pin(k));
      cached := k !in details;
      HoldWith(k, (if k in details then details[k].pinned else 0) + 1);
    }

    method UnpinRecord(k: Key)
      requires Valid() && Enabled(Value(), Unpin(k))
      modifies this
      ensures Valid() && Value() == Next(old(Value()), n, Unpin(k))
    {
      StepKeeps(Value(), n, Unpin(k));
      AssertsHold(Value(), n, Unpin(k));
      if details[k].pinned == 1 {
        MoveTo(k, buckets[n - 1]);
      } else {
        HoldWith(k, details[k].pinned - 1);
      }
    }

    /** The new key takes over the old one's pins, or its bucket. */
    method TakeOver(from: Key, to: Key, seen: bool)
      requires Wheel() && from != to && from in details && Asserts(Value(), n, Rename(from, to, seen))
      requires details[from].bucket.Some? ==> details[from].bucket.value in members
      modifies this
      ensures Wheel() && Value() == RenameTo(old(Value()), from, to, seen)
    {
      var was := details[from];
      if to in details {
        if details[to].pinned + was.pinned > 0 {
          HoldWith(to, details[to].pinned + was.pinned);
        }
      } else if was.pinned == 0 {
        MoveTo(to, was.bucket.value);
        if seen && left.Some? && was.bucket.value == buckets[0] - 1 {
          left := Some(left.value + {to});
        }
      } else {
        HoldWith(to, was.pinned);
      }
      Drop(from);
    }

    /** A rename that trips no assertion; the wheel is in order afterwards exactly when it strands no key. */
    method RenameRecord(from: Key, to: Key, seen: bool) returns (cached: bool)
      requires Valid() && Enabled(Value(), Rename(from, to, seen)) && Asserts(Value(), n, Rename(from, to, seen))
      modifies this
      ensures Wheel() && Value() == Next(old(Value()), n, Rename(from, to, seen))
      ensures Valid() <==> !Strands(old(Value()), Rename(from, to, seen))
      ensures cached == Caches(old(Value()), Rename(from, to, seen), to)
    {
      StrandsExactly(Value(), n, from, to, seen);
      cached := false;
      if from != to && from in details {
        cached := to !in details;
        TakeOver(from, to, seen);
      }
    }

    method ExpireRecord(k: Key)
      requires Valid()
      modifies this
      ensures Valid() && Value() == Next(old(Value()), n, Expire(k))
    {
      StepKeeps(Value(), n, Expire(k));
      AssertsHold(Value(), n, Expire(k));
      if k in details && details[k].pinned == 0 && details[k].bucket != Some(buckets[0]) {
        MoveTo(k, buckets[0]);
      }
    }

    /** Detaches the oldest bucket and moves the others down. */
    method DetachOldest()
      requires Valid() && left.None?
      modifies this, buckets
      ensures Valid() && Value() == Next(old(Value()), n, Shift)
    {
      ShiftKeeps(Value(), n);
      var newest := buckets[0] + n;
      left := Some(members[buckets[0]]);
      for i := 0 to n - 1
        modifies buckets
        invariant forall j :: 0 <= j < n ==> buckets[j] == old(buckets[0]) + (if j < i then j + 1 else j)
      {
        buckets[i] := buckets[i + 1];
      }
      buckets[n - 1] := newest;
      members := members[newest := {}];
    }

    /** One turn of the loop over the detached bucket, for a key that may have been moved since it was
        fetched. */
    method Visit(k: Key) returns (purged: bool)
      requires Valid() && left.Some?
      modifies this
      ensures Valid() && Value() == Next(old(Value()), n, Sweep(k))
      ensures purged == Purges(old(Value()), Sweep(k), k)
    {
      SweepKeeps(Value(), n, k);
      purged := k in details && details[k].bucket == Some(buckets[0] - 1);
      if purged {
        details := details - {k};
      }
      left := Some(left.value - {k});
    }

    /** The end of the loop: the detached bucket goes. */
    method Release()
      requires Valid() && Enabled(Value(), EndTick)
      modifies this
      ensures Valid() && Value() == Next(old(Value()), n, EndTick)
      ensures forall k :: k in details ==> details[k].bucket != Some(buckets[0] - 1)
    {
      EndTickKeeps(Value(), n);
      members := members - {buckets[0] - 1};
      left := None;
    }

    /** A whole tick with nothing in between: what was in the oldest bucket is purged, each once, and
        nothing else. */
    method Tick() returns (purged: seq<Key>)
      requires Valid() && left.None?
      modifies this, buckets
      ensures Valid() && left.None? && buckets[0] == old(buckets[0]) + 1
      ensures forall k :: k in details <==> k in old(details) && old(details)[k].bucket != Some(old(buckets[0]))
      ensures forall k :: k in details ==> details[k] == old(details)[k]
      ensures forall k :: k in purged <==> k in old(details) && old(details)[k].bucket == Some(old(buckets[0]))
      ensures forall i, j :: 0 <= i < j < |purged| ==> purged[i] != purged[j]
    {
      ghost var before := Value();
      DetachOldest();
      purged := [];
      while left.value != {}
        invariant Valid() && left.Some? && Swept(before, purged)
        decreases |left.value|
      {
        var k :| k in left.value;
        purged := VisitNext(k, before, purged);
      }
      Release();
    }

    /** So far the tick has purged these records of the oldest bucket, each once, and changed no other. */
    ghost predicate Swept(before: State, purged: seq<Key>)
      reads this, buckets
    {
      && Wheel() && buckets[0] == before.base + 1
      && (forall k :: k in details <==> k in before.details && k !in purged)
      && (forall k :: k in details ==> details[k] == before.details[k])
      && (forall k :: k in purged ==> k in before.details && before.details[k].bucket == Some(before.base))
      && (forall i, j :: 0 <= i < j < |purged| ==> purged[i] != purged[j])
    }

    method VisitNext(k: Key, ghost before: State, purged: seq<Key>) returns (more: seq<Key>)
      requires Valid() && left.Some? && k in left.value && Swept(before, purged)
      modifies this
      ensures Valid() && left == Some(old(left).value - {k}) && Swept(before, more)
    {
      var hit := Visit(k);
      more := if hit then purged + [k] else purged;
    }
  }
}
