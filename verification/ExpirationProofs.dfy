/** What the expiration wheel guarantees over every history of calls, ticks taken apart into their steps. */
module ExpirationProofs {
  import opened Options
  import opened ExpirationModel

  predicate Live(s: State, n: nat, b: int) { s.base <= b < s.base + n }

  /** The bucket exists: on the wheel, or detached by the tick under way. */
  predicate Known(s: State, n: nat, b: int) { Live(s, n, b) || (s.left.Some? && b == s.base - 1) }

  /** A record with pins names no bucket; one without names a bucket that exists. */
  ghost predicate Placed(s: State, n: nat) {
    forall k :: k in s.details ==>
      if s.details[k].pinned > 0 then s.details[k].bucket.None?
      else s.details[k].bucket.Some? && Known(s, n, s.details[k].bucket.value)
  }

  /** Each bucket of the wheel holds exactly the records that name it. */
  ghost predicate Filed(s: State, n: nat) {
    forall b, k :: Live(s, n, b) ==> (In(s, b, k) <==> k in s.details && s.details[k].bucket == Some(b))
  }

  /** Still to be visited are exactly the records that name the detached bucket, and they are in it. */
  ghost predicate Doomed(s: State) {
    s.left.Some? ==>
      forall k :: (k in s.left.value <==> k in s.details && s.details[k].bucket == Some(s.base - 1))
                  && (k in s.left.value ==> In(s, s.base - 1, k))
  }

  ghost predicate Inv(s: State, n: nat) {
    && n > 0
    && (forall b :: b in s.members <==> Known(s, n, b))
    && Placed(s, n) && Filed(s, n) && Doomed(s)
  }

  lemma InitInv(n: nat)
    requires n > 0
    ensures Inv(Init(n), n)
  {
  }

  lemma MoveKeeps(s: State, n: nat, k: Key, b: int)
    requires Inv(s, n) && Live(s, n, b)
    ensures Inv(Move(s, k, b), n)
  {
  }

  lemma HoldKeeps(s: State, n: nat, k: Key, pins: nat)
    requires Inv(s, n) && pins > 0
    ensures Inv(Hold(s, k, pins), n)
  {
  }

  lemma ForgetKeeps(s: State, n: nat, k: Key)
    requires Inv(s, n)
    ensures Inv(Forget(s, k), n)
  {
  }

  lemma ShiftKeeps(s: State, n: nat)
    requires Inv(s, n) && s.left.None?
    ensures Inv(Next(s, n, Shift), n)
  {
  }

  lemma SweepKeeps(s: State, n: nat, k: Key)
    requires Inv(s, n) && s.left.Some?
    ensures Inv(Next(s, n, Sweep(k)), n)
  {
  }

  lemma EndTickKeeps(s: State, n: nat)
    requires Inv(s, n) && Enabled(s, EndTick)
    ensures Inv(Next(s, n, EndTick), n)
    ensures forall k :: k in s.details ==> s.details[k].bucket != Some(s.base - 1)
  {
  }

  lemma DetainKeeps(s: State, n: nat, k: Key)
    requires Inv(s, n) && s.left.Some? && k !in s.details
    ensures Inv(Reach(Move(s, k, s.base - 1), k, true), n)
  {
  }

  lemma InheritKeeps(s: State, n: nat, from: Key, to: Key, seen: bool)
    requires Inv(s, n) && from in s.details && s.details[from].pinned == 0 && to !in s.details
    requires s.details[from].bucket == Some(s.base - 1) ==> seen
    ensures Inv(Reach(Move(s, to, s.details[from].bucket.value), to, seen), n)
  {
    if s.details[from].bucket == Some(s.base - 1) {
      DetainKeeps(s, n, to);
    } else {
      MoveKeeps(s, n, to, s.details[from].bucket.value);
    }
  }

  /** What the new key becomes, before the old one goes. */
  lemma TakenOverKeeps(s: State, n: nat, from: Key, to: Key, seen: bool)
    requires Inv(s, n) && from != to && from in s.details && !Strands(s, Rename(from, to, seen))
    ensures Inv(TakenOver(s, from, to, seen), n)
  {
    var was := s.details[from];
    if to in s.details {
      var pins := s.details[to].pinned + was.pinned;
      if pins > 0 { HoldKeeps(s, n, to, pins); }
    } else if was.pinned > 0 {
      HoldKeeps(s, n, to, was.pinned);
    } else {
      InheritKeeps(s, n, from, to, seen);
    }
  }

  lemma RenameKeeps(s: State, n: nat, from: Key, to: Key, seen: bool)
    requires Inv(s, n) && from != to && from in s.details && !Strands(s, Rename(from, to, seen))
    ensures Inv(RenameTo(s, from, to, seen), n)
  {
    TakenOverKeeps(s, n, from, to, seen);
    ForgetKeeps(TakenOver(s, from, to, seen), n, from);
  }

  /** Every enabled event keeps the invariant, unless it strands a key. */
  lemma StepKeeps(s: State, n: nat, e: Event)
    requires Inv(s, n) && Enabled(s, e) && !Strands(s, e)
    ensures Inv(Next(s, n, e), n)
  {
    match e
    case Mark(k) => MarkKeeps(s, n, k);
    case Pin(k) => HoldKeeps(s, n, k, Of(s, k).pinned + 1);
    case Unpin(k) => UnpinKeeps(s, n, k);
    case Rename(from, to, seen) => if from != to && from in s.details { RenameKeeps(s, n, from, to, seen); }
    case Expire(k) => ExpireKeeps(s, n, k);
    case Shift => ShiftKeeps(s, n);
    case Sweep(k) => SweepKeeps(s, n, k);
    case EndTick => EndTickKeeps(s, n);
  }

  lemma UnpinKeeps(s: State, n: nat, k: Key)
    requires Inv(s, n) && Enabled(s, Unpin(k))
    ensures Inv(Next(s, n, Unpin(k)), n)
  {
    if s.details[k].pinned == 1 {
      MoveKeeps(s, n, k, s.base + n - 1);
    } else {
      HoldKeeps(s, n, k, s.details[k].pinned - 1);
    }
  }

  lemma ExpireKeeps(s: State, n: nat, k: Key)
    requires Inv(s, n)
    ensures Inv(Next(s, n, Expire(k)), n)
  {
    MoveKeeps(s, n, k, s.base);
  }

  lemma MarkKeeps(s: State, n: nat, k: Key)
    requires Inv(s, n)
    ensures Inv(Next(s, n, Mark(k)), n)
  {
    if Of(s, k).pinned == 0 && Of(s, k).bucket != Some(s.base + n - 1) {
      MoveKeeps(s, n, k, s.base + n - 1);
    } else {
      assert s.details[k := s.details[k]] == s.details;
      assert Next(s, n, Mark(k)) == s;
    }
  }

  /** ... and the code's assertions hold. */
  lemma AssertsHold(s: State, n: nat, e: Event)
    requires Inv(s, n) && Enabled(s, e) && !Strands(s, e)
    ensures Asserts(s, n, e)
  {
  }

  /** Of all renames, only one onto a key still lying in the bucket being swept trips an assertion. */
  lemma RenameAssertsExactly(s: State, n: nat, from: Key, to: Key, seen: bool)
    requires Inv(s, n)
    ensures Asserts(s, n, Rename(from, to, seen)) <==>
            !(Detains(s, Rename(from, to, seen)) && In(s, s.base - 1, to))
  {
  }

  /** A rename breaks the invariant exactly when it puts its new key into the bucket being swept behind the
      loop. */
  lemma StrandsExactly(s: State, n: nat, from: Key, to: Key, seen: bool)
    requires Inv(s, n) && Enabled(s, Rename(from, to, seen))
    ensures Inv(Next(s, n, Rename(from, to, seen)), n) <==> !(Detains(s, Rename(from, to, seen)) && !seen)
  {
    if Strands(s, Rename(from, to, seen)) {
      StrandedUnseen(s, n, from, to);
    } else {
      StepKeeps(s, n, Rename(from, to, seen));
    }
  }

  /** Then the new key names the detached bucket, and the loop has nothing to reach there for it. */
  lemma StrandedUnseen(s: State, n: nat, from: Key, to: Key)
    requires Inv(s, n) && Detains(s, Rename(from, to, false))
    ensures var t := Next(s, n, Rename(from, to, false));
            to in t.details && t.details[to].bucket == Some(t.base - 1) && t.left.Some? && to !in t.left.value
  {
  }

  /** Ahead of the loop, it joins what the tick will purge. */
  lemma DetainedSeen(s: State, n: nat, from: Key, to: Key)
    requires Inv(s, n) && Detains(s, Rename(from, to, true)) && Enabled(s, Rename(from, to, true))
    ensures var t := Next(s, n, Rename(from, to, true));
            t.left.Some? && to in t.left.value && !Enabled(t, EndTick) && Purges(t, Sweep(to), to)
  {
    StepKeeps(s, n, Rename(from, to, true));
  }
}
