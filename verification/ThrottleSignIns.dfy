/** Sign-ins: how many for a name at an address and from an address there can be, with the limits
    written out, and when one is refused. */
module ThrottleSignIns {
  import opened Counting
  import opened Schedules
  import opened Throttle
  import opened ThrottleFailOpen
  import opened ThrottleLimits
  import opened ThrottleRuns
  import opened ThrottleSpans
  import opened Wrappers

  lemma SignInRules(name: string, address: nat)
    ensures Sensible(SIGN_IN)
    ensures KeysOf(SIGN_IN, Some(name), address) == [Pair(name, address), Address(address, 0)]
    ensures RuleOf(SIGN_IN, Pair(name, address)) == Rule(5, 15 * 60, 15 * 60)
    ensures RuleOf(SIGN_IN, Address(address, 0)) == Rule(10, 60, 60)
  {
    PoliciesAreSensible();
    TwoKeys(SIGN_IN, name, address);
  }

  /** However many are sent at once, at most five sign-ins for a name at an address and ten from an
      address are in flight. Where none of a key's went uncounted, they and the failures counted there
      are together no more than that, and of those let through from an address in any minute at most
      nineteen are not given back. A name at an address is locked from its fifth counted failure and an
      address from its tenth, the address for a minute from one of its failures. */
  lemma {:induction false} SignInsAreFew(schedule: seq<Action>, name: string, address: nat, lo: Instant)
    ensures
      var s, pair, from := Run(Next(SIGN_IN), INIT, schedule), Pair(name, address), Address(address, 0);
      && Count(s.attempts, Holds(pair)) <= 5 && Count(s.attempts, Holds(from)) <= 10
      && (AllCounted(SIGN_IN, schedule, pair) && pair in s.counters ==>
            Count(s.attempts, Holds(pair)) + s.counters[pair].failures <= 5)
      && (AllCounted(SIGN_IN, schedule, from) ==>
            && (from in s.counters ==> Count(s.attempts, Holds(from)) + s.counters[from].failures <= 10)
            && Kept(s, from, lo, lo + 60) <= 19)
      && (pair in s.counters ==> (s.counters[pair].lockedUntil.Some? <==> s.counters[pair].failures >= 5))
      && (from in s.counters ==>
            && (s.counters[from].lockedUntil.Some? <==> s.counters[from].failures >= 10)
            && (s.counters[from].lockedUntil.Some? ==>
                  exists e :: e in Entries(s.log, from) && s.counters[from].lockedUntil == Some(e.at + 60)))
  {
    var s, pair, from := Run(Next(SIGN_IN), INIT, schedule), Pair(name, address), Address(address, 0);
    SignInRules(name, address);
    BurstsAreBounded(SIGN_IN, schedule, pair);
    BurstsAreBounded(SIGN_IN, schedule, from);
    if AllCounted(SIGN_IN, schedule, pair) {
      CountedBurstsAreBounded(SIGN_IN, schedule, pair);
    }
    if AllCounted(SIGN_IN, schedule, from) {
      CountedBurstsAreBounded(SIGN_IN, schedule, from);
      LetThroughAreFew(SIGN_IN, schedule, from, lo, lo + 60);
    }
    if pair in s.counters {
      LockedExactlyAtTheLimit(SIGN_IN, schedule, pair);
    }
    if from in s.counters {
      LockedExactlyAtTheLimit(SIGN_IN, schedule, from);
    }
  }

  /** `k` holds a sign-in up: it is locked, or the attempts in flight on it and the failures of a window
      that has not passed fill its limit. */
  ghost predicate HeldUp(s: State, k: Key, limit: nat, window: nat) {
    && k in s.counters
    && var c := s.counters[k];
       || (c.lockedUntil.Some? && s.now < c.lockedUntil.value)
       || Count(s.attempts, Holds(k)) + (if s.now < c.since + window then c.failures else 0) >= limit
  }

  lemma {:induction false} MustWaitIff(schedule: seq<Action>, k: Key)
    requires k in Run(Next(SIGN_IN), INIT, schedule).counters
    ensures
      var s := Run(Next(SIGN_IN), INIT, schedule);
      MustWait(s.counters[k], RuleOf(SIGN_IN, k), s.now) <==>
      HeldUp(s, k, RuleOf(SIGN_IN, k).limit, RuleOf(SIGN_IN, k).window)
  {
    PoliciesAreSensible();
    EveryKeyIsOk(SIGN_IN, schedule, k);
  }

  lemma {:induction false} ReservesUnlessFull(counters: Counters, keys: seq<Key>, now: Instant)
    ensures !ReserveAll(SIGN_IN, counters, keys, now).full
  {
    if keys != [] {
      ReservesUnlessFull(counters, keys[..|keys| - 1], now);
    }
  }

  /** A sign-in is let through if and only if neither its name at the address nor the address holds it
      up: five in fifteen minutes, and ten in a minute. */
  lemma {:induction false} LetThroughIff(schedule: seq<Action>, id: nat, name: string, address: nat)
    requires id !in Run(Next(SIGN_IN), INIT, schedule).attempts
    ensures
      var s := Run(Next(SIGN_IN), INIT, schedule);
      id in Step(SIGN_IN, s, Begin(id, Some(name), address)).attempts <==>
      !HeldUp(s, Pair(name, address), 5, 15 * 60) && !HeldUp(s, Address(address, 0), 10, 60)
  {
    var s, pair, from := Run(Next(SIGN_IN), INIT, schedule), Pair(name, address), Address(address, 0);
    SignInRules(name, address);
    var keys := KeysOf(SIGN_IN, Some(name), address);
    assert keys[0] == pair && keys[1] == from;
    ReservesUnlessFull(s.counters, keys, s.now);
    if pair in s.counters {
      MustWaitIff(schedule, pair);
    }
    if from in s.counters {
      MustWaitIff(schedule, from);
    }
  }
}
