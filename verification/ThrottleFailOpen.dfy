/**
  What a policy that fails open cannot hold to: runs of one like the sign-in policy, with a rule for
  a name at an address and one for the address, in which a table full of other addresses lets
  attempts through uncounted. All happens at one instant.
*/
module ThrottleFailOpen {
  import opened Counting
  import opened Schedules
  import opened Throttle
  import opened ThrottleLimits
  import opened ThrottleLocks
  import opened ThrottleWitnesses
  import opened Wrappers

  ghost predicate FailsOpen(p: Policy) {
    Sensible(p) && !p.failClosed && p.pair.Some? && |p.address| == 1 && p.capacity > 0
  }

  lemma TwoKeys(p: Policy, name: string, address: nat)
    requires p.pair.Some? && |p.address| == 1
    ensures KeysOf(p, Some(name), address) == [Pair(name, address), Address(address, 0)]
  {
    assert seq(Windows(p), (i: nat) => Address(address, i)) == [Address(address, 0)];
  }

  // The table fills up.

  /** `n` addresses after `address` have one attempt in flight each. */
  ghost predicate Filled(s: State, address: nat, n: nat) {
    && s.now == 0 && |s.counters| == n
    && (n > 0 ==>
          && Address(address + 1, 0) in s.counters && s.counters[Address(address + 1, 0)] == Counter(0, 1, 0, None)
          && 0 in s.attempts && s.attempts[0].keys == [(Address(address + 1, 0), true)])
    && (forall key :: key in s.counters ==> key.Address? && address < key.address <= address + n)
    && forall id :: id in s.attempts ==> id < n
  }

  lemma {:induction false} OneMoreFills(s: State, k: Key, address: nat, n: nat)
    requires Filled(s, address, n) && k == Address(address + n + 1, 0)
    ensures Filled(
              s.(counters := s.counters[k := Counter(0, 1, 0, None)],
                 attempts := s.attempts[n := Attempt(0, [(k, true)])]),
              address, n + 1)
  {
    var more := s.counters[k := Counter(0, 1, 0, None)];
    assert more.Keys == s.counters.Keys + {k};
    if n == 0 {
      assert s.counters == map[];
    }
  }

  lemma {:induction false} Fills(p: Policy, address: nat, n: nat) returns (s: State)
    requires FailsOpen(p) && n <= p.capacity
    ensures Reachable(p, s) && Filled(s, address, n)
  {
    Starts(p);
    s := INIT;
    if n > 0 {
      var before := Fills(p, address, n - 1);
      s := BeginsFirst(p, before, address + n, n - 1);
      OneMoreFills(before, Address(address + n, 0), address, n - 1);
    }
  }

  // While it is full.

  /** No room, and no counter for the address. */
  ghost predicate Full(p: Policy, s: State, address: nat) {
    s.now == 0 && |s.counters| == p.capacity && Address(address, 0) !in s.counters
  }

  lemma {:induction false} NoRoom(p: Policy, counters: Counters, key: Key)
    requires Sensible(p) && |counters| >= p.capacity && key !in counters
    ensures Opened(p, counters, key, 0).None?
  {
    forall k | k in counters ensures !Expired(counters[k], RuleOf(p, k), 0) {
      assert RuleOf(p, k).window > 0;
    }
    assert Unexpired(p, counters, 0) == counters;
  }

  lemma {:induction false} ReservesNone(p: Policy, counters: Counters, r: Reserved, key: Key)
    requires Sensible(p) && !p.failClosed && |counters| >= p.capacity && key !in counters
    ensures ReserveOne(p, Reservation(counters, r, false), key, 0) ==
            Reservation(counters, r + [(key, false)], false)
  {
    NoRoom(p, counters, key);
  }

  function Loose(name: string, address: nat): Attempt {
    Attempt(0, [(Pair(name, address), false), (Address(address, 0), false)])
  }

  function Held(name: string, address: nat): Attempt {
    Attempt(0, [(Pair(name, address), true), (Address(address, 0), false)])
  }

  /** An attempt is let through uncounted. */
  lemma {:induction false} BeginsLoose(p: Policy, s: State, name: string, address: nat, id: nat) returns (t: State)
    requires FailsOpen(p) && Reachable(p, s) && Full(p, s, address) && id !in s.attempts
    requires Pair(name, address) !in s.counters
    ensures Reachable(p, t) && t == s.(attempts := s.attempts[id := Loose(name, address)])
  {
    var k, l := Pair(name, address), Address(address, 0);
    TwoKeys(p, name, address);
    BeginsTwo(p, s, id, k, l);
    ReservesNone(p, s.counters, [], k);
    ReservesNone(p, s.counters, [] + [(k, false)], l);
    assert [] + [(k, false)] + [(l, false)] == [(k, false), (l, false)];
    t := Step(p, s, Begin(id, Some(name), address));
    Goes(p, s, Begin(id, Some(name), address));
  }

  /** Attempts `from` to `from + n` are in flight beside those of `s`, let through uncounted. */
  ghost predicate WithLoose(s: State, t: State, name: string, address: nat, from: nat, n: nat) {
    && t == s.(attempts := t.attempts)
    && (forall id: nat :: id in t.attempts <==> id in s.attempts || from <= id < from + n)
    && (forall id: nat :: id in s.attempts ==> t.attempts[id] == s.attempts[id])
    && (forall id: nat :: from <= id < from + n ==> t.attempts[id] == Loose(name, address))
  }

  lemma {:induction false} BeginManyLoose(p: Policy, s: State, name: string, address: nat, from: nat, n: nat)
    returns (t: State)
    requires FailsOpen(p) && Reachable(p, s) && Full(p, s, address) && Pair(name, address) !in s.counters
    requires forall id :: id in s.attempts ==> id < from
    ensures Reachable(p, t) && WithLoose(s, t, name, address, from, n)
  {
    t := s;
    if n > 0 {
      t := BeginManyLoose(p, s, name, address, from, n - 1);
      t := BeginsLoose(p, t, name, address, from + n - 1);
    }
  }

  /** One address gives its attempt up, and an attempt takes the one place for its name. */
  lemma {:induction false} FirstGivesUp(p: Policy, s: State, address: nat) returns (t: State)
    requires Reachable(p, s) && s.now == 0 && 0 in s.attempts
    requires s.attempts[0].keys == [(Address(address + 1, 0), true)]
    requires Address(address + 1, 0) in s.counters && s.counters[Address(address + 1, 0)] == Counter(0, 1, 0, None)
    ensures Reachable(p, t)
    ensures t == s.(counters := s.counters - {Address(address + 1, 0)}, attempts := s.attempts - {0})
    ensures |t.counters| == |s.counters| - 1
  {
    var k := Address(address + 1, 0);
    SettlesOne(p, s, 0, k, true, Refunded);
    t := Step(p, s, Settle(0, Refunded));
    Goes(p, s, Settle(0, Refunded));
    assert Tidied(Unreserved(s.counters, k, true), k) == s.counters - {k};
    assert (s.counters - {k}).Keys == s.counters.Keys - {k};
  }

  lemma {:induction false} TakesThePlace(p: Policy, counters: Counters, k: Key, l: Key)
    requires FailsOpen(p) && |counters| == p.capacity - 1 && k !in counters && l !in counters && k != l
    ensures
      var taken := counters[k := Counter(0, 1, 0, None)];
      && |taken| == p.capacity
      && ReserveOne(p, ReserveOne(p, Reservation(counters, [], false), k, 0), l, 0) ==
         Reservation(taken, [(k, true), (l, false)], false)
  {
    var taken := counters[k := Counter(0, 1, 0, None)];
    assert taken.Keys == counters.Keys + {k};
    ReservesNew(p, counters, [], k, 0);
    ReservesNone(p, taken, [] + [(k, true)], l);
    assert [] + [(k, true)] + [(l, false)] == [(k, true), (l, false)];
  }

  lemma {:induction false} BeginsHeld(p: Policy, s: State, name: string, address: nat, id: nat) returns (t: State)
    requires FailsOpen(p) && Reachable(p, s) && id !in s.attempts && s.now == 0 && |s.counters| == p.capacity - 1
    requires Pair(name, address) !in s.counters && Address(address, 0) !in s.counters
    ensures Reachable(p, t) && Full(p, t, address)
    ensures t == s.(counters := s.counters[Pair(name, address) := Counter(0, 1, 0, None)],
                    attempts := s.attempts[id := Held(name, address)])
  {
    var k, l := Pair(name, address), Address(address, 0);
    TwoKeys(p, name, address);
    BeginsTwo(p, s, id, k, l);
    TakesThePlace(p, s.counters, k, l);
    t := Step(p, s, Begin(id, Some(name), address));
    Goes(p, s, Begin(id, Some(name), address));
  }

  // Attempts that fail while it is full.

  lemma {:induction false} BeginsBeside(p: Policy, s: State, name: string, address: nat, id: nat) returns (t: State)
    requires FailsOpen(p) && Reachable(p, s) && Full(p, s, address) && id !in s.attempts
    requires Pair(name, address) in s.counters && Roomy(p, s.counters, Pair(name, address), 0)
    ensures
      var k := Pair(name, address);
      && Reachable(p, t)
      && t == s.(counters := s.counters[k := Reserving(s.counters[k], RuleOf(p, k), 0)],
                 attempts := s.attempts[id := Held(name, address)])
  {
    var k, l := Pair(name, address), Address(address, 0);
    TwoKeys(p, name, address);
    BeginsTwo(p, s, id, k, l);
    ReservesKnown(p, s.counters, [], k, 0);
    var more := s.counters[k := Reserving(s.counters[k], RuleOf(p, k), 0)];
    assert more.Keys == s.counters.Keys;
    ReservesNone(p, more, [] + [(k, true)], l);
    assert [] + [(k, true)] + [(l, false)] == [(k, true), (l, false)];
    t := Step(p, s, Begin(id, Some(name), address));
    Goes(p, s, Begin(id, Some(name), address));
  }

  lemma {:induction false} NotCounted(p: Policy, counters: Counters, log: seq<Entry>, key: Key)
    requires Sensible(p) && |counters| >= p.capacity && key !in counters
    ensures SettleOne(p, counters, log, 0, key, false, Failed, 0) == (counters, log)
  {
    NoRoom(p, counters, key);
  }

  lemma {:induction false} FailsHeldBeside(p: Policy, s: State, name: string, address: nat, id: nat)
    returns (t: State)
    requires FailsOpen(p) && Reachable(p, s) && Full(p, s, address) && Pair(name, address) in s.counters
    requires id in s.attempts && s.attempts[id] == Held(name, address)
    ensures
      var k := Pair(name, address);
      && Reachable(p, t)
      && t == s.(counters := s.counters[k := Failing(s.counters[k], RuleOf(p, k), 0)],
                 attempts := s.attempts - {id}, log := t.log)
  {
    var k, l := Pair(name, address), Address(address, 0);
    SettlesTwo(p, s, id, k, true, l, false, Failed);
    FailsHeld(p, s.counters, s.log, 0, k, 0);
    var d := Failing(s.counters[k], RuleOf(p, k), 0);
    var between := s.counters[k := d];
    assert between.Keys == s.counters.Keys;
    NotCounted(p, between, s.log + [Entry(k, 0, 0, d.since, true)], l);
    t := Step(p, s, Settle(id, Failed));
    Goes(p, s, Settle(id, Failed));
  }

  /** `n` attempts on the name begin and fail one after the other. */
  lemma {:induction false} FailManyHeld(p: Policy, s: State, name: string, address: nat, n: nat, id: nat)
    returns (t: State)
    requires FailsOpen(p) && Reachable(p, s) && Full(p, s, address) && Pair(name, address) in s.counters
    requires id !in s.attempts && s.counters[Pair(name, address)] == Counter(0, 1, 0, None)
    requires n < RuleOf(p, Pair(name, address)).limit
    ensures
      var k := Pair(name, address);
      && Reachable(p, t) && Full(p, t, address) && t.attempts == s.attempts
      && k in t.counters && t.counters[k] == Counter(n, 1, 0, None)
  {
    t := s;
    if n > 0 {
      var k := Pair(name, address);
      assert RuleOf(p, k).window > 0;
      var before := FailManyHeld(p, s, name, address, n - 1, id);
      var begun := BeginsBeside(p, before, name, address, id);
      assert begun.counters.Keys == before.counters.Keys;
      t := FailsHeldBeside(p, begun, name, address, id);
      assert t.counters.Keys == before.counters.Keys;
      assert t.attempts == before.attempts;
    }
  }

  lemma {:induction false} FailsUnheld(p: Policy, counters: Counters, log: seq<Entry>, k: Key)
    requires Sensible(p) && k in counters && counters[k].since == 0
    ensures SettleOne(p, counters, log, 0, k, false, Failed, 0) ==
            (counters[k := Failure(counters[k], RuleOf(p, k), 0)], log + [Entry(k, 0, 0, 0, false)])
  {
    assert RuleOf(p, k).window > 0;
    assert Opened(p, counters, k, 0).value == counters;
  }

  lemma {:induction false} FailsLoose(p: Policy, s: State, name: string, address: nat, id: nat) returns (t: State)
    requires FailsOpen(p) && Reachable(p, s) && Full(p, s, address) && Pair(name, address) in s.counters
    requires id in s.attempts && s.attempts[id] == Loose(name, address)
    requires s.counters[Pair(name, address)].since == 0
    ensures
      var k := Pair(name, address);
      && Reachable(p, t)
      && t == s.(counters := s.counters[k := Failure(s.counters[k], RuleOf(p, k), 0)],
                 attempts := s.attempts - {id}, log := t.log)
  {
    var k, l := Pair(name, address), Address(address, 0);
    SettlesTwo(p, s, id, k, false, l, false, Failed);
    FailsUnheld(p, s.counters, s.log, k);
    var d := Failure(s.counters[k], RuleOf(p, k), 0);
    var between := s.counters[k := d];
    assert between.Keys == s.counters.Keys;
    NotCounted(p, between, s.log + [Entry(k, 0, 0, 0, false)], l);
    t := Step(p, s, Settle(id, Failed));
    Goes(p, s, Settle(id, Failed));
  }

  /** Those let through uncounted fail, one after the other, and each is a failure the more. */
  lemma {:induction false} FailManyLoose(p: Policy, s: State, name: string, address: nat, from: nat, n: nat)
    returns (t: State)
    requires FailsOpen(p) && Reachable(p, s) && Full(p, s, address) && Pair(name, address) in s.counters && n > 0
    requires s.counters[Pair(name, address)] == Counter(RuleOf(p, Pair(name, address)).limit - 1, 1, 0, None)
    requires forall id: nat :: from <= id < from + n ==> id in s.attempts && s.attempts[id] == Loose(name, address)
    ensures
      var k := Pair(name, address);
      var rule := RuleOf(p, k);
      && Reachable(p, t) && Full(p, t, address)
      && (forall id :: id in s.attempts && !(from <= id < from + n) ==>
            id in t.attempts && t.attempts[id] == s.attempts[id])
      && k in t.counters && t.counters[k] == Counter(rule.limit - 1 + n, 1, 0, Some(rule.lock))
  {
    var before := s;
    if n > 1 {
      before := FailManyLoose(p, s, name, address, from, n - 1);
    }
    t := FailsLoose(p, before, name, address, from + n - 1);
    assert t.counters.Keys == before.counters.Keys;
  }

  // So the limit is passed.

  /** `n` attempts on the name were let through uncounted, and one more is held to it. */
  lemma {:induction false} OneHeldManyLoose(p: Policy, name: string, address: nat, n: nat) returns (t: State)
    requires FailsOpen(p)
    ensures
      var k, from := Pair(name, address), p.capacity;
      && Reachable(p, t) && Full(p, t, address)
      && k in t.counters && t.counters[k] == Counter(0, 1, 0, None)
      && (forall id: nat :: from <= id < from + n ==> id in t.attempts && t.attempts[id] == Loose(name, address))
      && from + n in t.attempts && t.attempts[from + n] == Held(name, address)
      && from + n + 1 !in t.attempts
  {
    var from := p.capacity;
    t := Fills(p, address, from);
    t := BeginManyLoose(p, t, name, address, from, n);
    t := FirstGivesUp(p, t, address);
    t := BeginsHeld(p, t, name, address, from + n);
  }

  /** As many fail as the limit allows beside the one held, and then all of those. */
  lemma {:induction false} LooseOnesFail(p: Policy, name: string, address: nat, n: nat) returns (t: State)
    requires FailsOpen(p) && n > 0
    ensures
      var k, id := Pair(name, address), p.capacity + n;
      && Reachable(p, t) && Full(p, t, address)
      && id in t.attempts && t.attempts[id] == Held(name, address)
      && k in t.counters
      && t.counters[k] == Counter(RuleOf(p, k).limit - 1 + n, 1, 0, Some(RuleOf(p, k).lock))
  {
    assert RuleOf(p, Pair(name, address)).limit > 0;
    t := OneHeldManyLoose(p, name, address, n);
    t := FailManyHeld(p, t, name, address, RuleOf(p, Pair(name, address)).limit - 1, p.capacity + n + 1);
    t := FailManyLoose(p, t, name, address, p.capacity, n);
  }

  lemma {:induction false} SuccessUnlocks(p: Policy, s: State, name: string, address: nat, id: nat)
    requires id in s.attempts && s.attempts[id] == Held(name, address)
    requires Pair(name, address) in s.counters && s.counters[Pair(name, address)].pending == 1
    requires Address(address, 0) !in s.counters
    ensures Pair(name, address) !in Step(p, s, Settle(id, Succeeded)).counters
  {
    SettlesTwo(p, s, id, Pair(name, address), true, Address(address, 0), false, Succeeded);
  }

  /** What is in flight on `k` and its failures pass the limit by `n` together. It is locked, and a
      success of the attempt `id` takes the lock away at once. */
  ghost predicate PassedBy(p: Policy, s: State, k: Key, id: nat, n: nat) {
    && k in s.counters
    && Count(s.attempts, Holds(k)) + s.counters[k].failures == RuleOf(p, k).limit + n
    && HasLock(s.counters, k, RuleOf(p, k).lock)
    && !LockIsFirm(s, k)
    && k !in Step(p, s, Settle(id, Succeeded)).counters
  }

  lemma {:induction false} PendingIsInFlight(p: Policy, s: State, k: Key)
    requires Sensible(p) && Reachable(p, s) && k in s.counters
    ensures Count(s.attempts, Holds(k)) == s.counters[k].pending
  {
    var schedule :| Run(Next(p), INIT, schedule) == s;
    EveryKeyIsOk(p, schedule, k);
  }

  lemma {:induction false} IsPassed(p: Policy, s: State, name: string, address: nat, id: nat, n: nat)
    requires Sensible(p) && Reachable(p, s) && id in s.attempts && s.attempts[id] == Held(name, address)
    requires Pair(name, address) in s.counters && Address(address, 0) !in s.counters && n > 0
    requires
      var rule := RuleOf(p, Pair(name, address));
      rule.limit > 0 && s.counters[Pair(name, address)] == Counter(rule.limit - 1 + n, 1, 0, Some(rule.lock))
    ensures PassedBy(p, s, Pair(name, address), id, n)
  {
    PendingIsInFlight(p, s, Pair(name, address));
    SuccessUnlocks(p, s, name, address, id);
    assert s.attempts[id].keys[0].0 == Pair(name, address);
  }

  /** Whatever the size of the table and the limits are, and for every `n`, in some run a name at an
      address passes its limit by `n`. */
  lemma {:induction false} UncountedAttemptsPassTheLimit(p: Policy, name: string, address: nat, n: nat)
    returns (schedule: seq<Action>)
    requires FailsOpen(p) && n > 0
    ensures PassedBy(p, Run(Next(p), INIT, schedule), Pair(name, address), p.capacity + n, n)
  {
    assert RuleOf(p, Pair(name, address)).limit > 0;
    var s := LooseOnesFail(p, name, address, n);
    IsPassed(p, s, name, address, p.capacity + n, n);
    schedule :| Run(Next(p), INIT, schedule) == s;
  }

  /** The shipped sign-in policy among them: its limit of five passed by any `n`. */
  lemma {:induction false} SignInsPassTheLimit(name: string, address: nat, n: nat) returns (schedule: seq<Action>)
    requires n > 0
    ensures PassedBy(SIGN_IN, Run(Next(SIGN_IN), INIT, schedule), Pair(name, address), CAPACITY + n, n)
  {
    PoliciesAreSensible();
    schedule := UncountedAttemptsPassTheLimit(SIGN_IN, name, address, n);
  }
}
