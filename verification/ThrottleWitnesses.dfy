/** Steps runs of the throttle are made of, and a run in which twice the limit's worth but one fit. */
module ThrottleWitnesses {
  import opened Schedules
  import opened Sorting
  import opened Throttle
  import opened ThrottleLimits
  import opened Wrappers

  // Runs.

  ghost predicate Reachable(p: Policy, s: State) {
    exists schedule :: Run(Next(p), INIT, schedule) == s
  }

  lemma {:induction false} Starts(p: Policy)
    ensures Reachable(p, INIT)
  {
    assert Run(Next(p), INIT, []) == INIT;
  }

  lemma {:induction false} Goes(p: Policy, s: State, a: Action)
    requires Reachable(p, s)
    ensures Reachable(p, Step(p, s, a))
  {
    var schedule :| Run(Next(p), INIT, schedule) == s;
    RunOne(Next(p), INIT, schedule, a);
  }

  lemma {:induction false} Waits(p: Policy, s: State, later: nat) returns (t: State)
    requires Reachable(p, s)
    ensures Reachable(p, t) && t == s.(now := s.now + later)
  {
    t := Step(p, s, Tick(later));
    Goes(p, s, Tick(later));
  }

  // Attempts held to one key, or to two.

  lemma {:induction false} BeginsOne(p: Policy, s: State, id: nat, k: Key)
    requires id !in s.attempts && Roomy(p, s.counters, k, s.now)
    ensures
      var r := ReserveOne(p, Reservation(s.counters, [], false), k, s.now);
      !r.full ==>
        BeginStep(p, s, id, [k]) ==
        s.(counters := r.counters, attempts := s.attempts[id := Attempt(s.now, r.reserved)])
  {
    var keys := [k];
    assert keys[..0] == [];
    assert ReserveAll(p, s.counters, keys[..0], s.now) == Reservation(s.counters, [], false);
  }

  lemma {:induction false} BeginsTwo(p: Policy, s: State, id: nat, k: Key, l: Key)
    requires id !in s.attempts && Roomy(p, s.counters, k, s.now) && Roomy(p, s.counters, l, s.now)
    ensures
      var r := ReserveOne(p, ReserveOne(p, Reservation(s.counters, [], false), k, s.now), l, s.now);
      !r.full ==>
        BeginStep(p, s, id, [k, l]) ==
        s.(counters := r.counters, attempts := s.attempts[id := Attempt(s.now, r.reserved)])
  {
    var one, two := [k], [k, l];
    assert one[..0] == [] && two[..1] == one;
    assert ReserveAll(p, s.counters, one[..0], s.now) == Reservation(s.counters, [], false);
    assert ReserveAll(p, s.counters, one, s.now) == ReserveOne(p, Reservation(s.counters, [], false), k, s.now);
  }

  lemma {:induction false} SettlesOne(p: Policy, s: State, id: nat, k: Key, reserved: bool, outcome: Outcome)
    requires id in s.attempts && s.attempts[id].keys == [(k, reserved)]
    ensures
      var (counters, log) := SettleOne(p, s.counters, s.log, s.attempts[id].begun, k, reserved, outcome, s.now);
      SettleStep(p, s, id, outcome) == State(s.now, counters, s.attempts - {id}, log)
  {
    var r := [(k, reserved)];
    assert r[..0] == [];
    assert SettleAll(p, s.counters, s.log, s.attempts[id].begun, r[..0], outcome, s.now) == (s.counters, s.log);
  }

  lemma {:induction false} SettlesTwo(
    p: Policy, s: State, id: nat, k: Key, kHeld: bool, l: Key, lHeld: bool, outcome: Outcome)
    requires id in s.attempts && s.attempts[id].keys == [(k, kHeld), (l, lHeld)]
    ensures
      var begun := s.attempts[id].begun;
      var (between, logged) := SettleOne(p, s.counters, s.log, begun, k, kHeld, outcome, s.now);
      var (counters, log) := SettleOne(p, between, logged, begun, l, lHeld, outcome, s.now);
      SettleStep(p, s, id, outcome) == State(s.now, counters, s.attempts - {id}, log)
  {
    var begun := s.attempts[id].begun;
    var one, two := [(k, kHeld)], [(k, kHeld), (l, lHeld)];
    assert one[..0] == [] && two[..1] == one;
    assert SettleAll(p, s.counters, s.log, begun, one[..0], outcome, s.now) == (s.counters, s.log);
    assert SettleAll(p, s.counters, s.log, begun, one, outcome, s.now) ==
           SettleOne(p, s.counters, s.log, begun, k, kHeld, outcome, s.now);
  }

  // What one key's counter goes through.

  /** Reserved once more, in its window or in one that begins now. */
  function Reserving(c: Counter, rule: Rule, now: Instant): Counter {
    var d := Restarted(c, rule, now);
    d.(pending := d.pending + 1)
  }

  lemma {:induction false} ReservesKnown(p: Policy, counters: Counters, r: Reserved, k: Key, now: Instant)
    requires k in counters
    ensures ReserveOne(p, Reservation(counters, r, false), k, now) ==
            Reservation(counters[k := Reserving(counters[k], RuleOf(p, k), now)], r + [(k, true)], false)
  {
    var ready := Opened(p, counters, k, now).value;
    assert ready == counters[k := Restarted(counters[k], RuleOf(p, k), now)];
    assert ready[k := Reserving(counters[k], RuleOf(p, k), now)] ==
           counters[k := Reserving(counters[k], RuleOf(p, k), now)];
  }

  lemma {:induction false} ReservesNew(p: Policy, counters: Counters, r: Reserved, k: Key, now: Instant)
    requires Sensible(p) && k !in counters && |counters| < p.capacity
    ensures ReserveOne(p, Reservation(counters, r, false), k, now) ==
            Reservation(counters[k := Counter(0, 1, now, None)], r + [(k, true)], false)
  {
    OpenedIsFreshOrRestarted(p, counters, k, now);
    assert Opened(p, counters, k, now).value[k := Counter(0, 1, now, None)] == counters[k := Counter(0, 1, now, None)];
  }

  /** A reservation given back, and a failure counted in the window or in one that begins with it. */
  function Failing(c: Counter, rule: Rule, now: Instant): Counter {
    Failure(Restarted(if c.pending > 0 then c.(pending := c.pending - 1) else c, rule, now), rule, now)
  }

  lemma {:induction false} FailsHeld(
    p: Policy, counters: Counters, log: seq<Entry>, begun: Instant, k: Key, now: Instant)
    requires k in counters
    ensures
      var d := Failing(counters[k], RuleOf(p, k), now);
      SettleOne(p, counters, log, begun, k, true, Failed, now) ==
      (counters[k := d], log + [Entry(k, begun, now, d.since, true)])
  {
    var given := Unreserved(counters, k, true);
    var c := Restarted(given[k], RuleOf(p, k), now);
    assert Opened(p, given, k, now) == Some(given[k := c]);
    assert given[k := c][k := Failure(c, RuleOf(p, k), now)] == counters[k := Failure(c, RuleOf(p, k), now)];
  }

  lemma {:induction false} GivesBackHeld(
    p: Policy, counters: Counters, log: seq<Entry>, begun: Instant, k: Key, now: Instant)
    requires k in counters && counters[k].pending > 0 && counters[k].failures > 0
    ensures SettleOne(p, counters, log, begun, k, true, Refunded, now) ==
            (counters[k := counters[k].(pending := counters[k].pending - 1)], log)
  {
  }

  // The failures of a span.

  /** Let through at `lo` or later, and failed before `hi`. */
  function Within(lo: Instant, hi: Instant): Entry -> bool {
    (e: Entry) => lo <= e.begun && e.at < hi && e.reserved
  }

  function FailedWithin(s: State, k: Key, lo: Instant, hi: Instant): nat {
    |Filter(Entries(s.log, k), Within(lo, hi))|
  }

  lemma {:induction false} OneMoreWithin(log: seq<Entry>, e: Entry, k: Key, lo: Instant, hi: Instant)
    ensures |Filter(Entries(log + [e], k), Within(lo, hi))| ==
            |Filter(Entries(log, k), Within(lo, hi))| + if e.key == k && Within(lo, hi)(e) then 1 else 0
  {
    EntriesOneMore(log, e, k);
    FilterJoined(Entries(log, k), [e], Within(lo, hi));
  }

  // An address under one rule.

  lemma OneKey(p: Policy, address: nat)
    requires |p.address| == 1
    ensures KeysOf(p, None, address) == [Address(address, 0)]
  {
    assert seq(Windows(p), (i: nat) => Address(address, i)) == [Address(address, 0)];
  }

  /** The counter as an attempt that begins and fails at once leaves it. */
  function FailedAtOnce(c: Counter, rule: Rule, now: Instant): Counter {
    Failure(Restarted(c, rule, now), rule, now)
  }

  lemma FailsAtOnce(c: Counter, rule: Rule, now: Instant)
    requires rule.window > 0
    ensures Failing(Reserving(c, rule, now), rule, now) == FailedAtOnce(c, rule, now)
  {
  }

  lemma {:induction false} BeginsKnown(p: Policy, s: State, address: nat, id: nat) returns (t: State)
    requires |p.address| == 1 && Reachable(p, s) && id !in s.attempts
    requires Address(address, 0) in s.counters && Roomy(p, s.counters, Address(address, 0), s.now)
    ensures
      var k := Address(address, 0);
      && Reachable(p, t)
      && t == s.(counters := s.counters[k := Reserving(s.counters[k], RuleOf(p, k), s.now)],
                 attempts := s.attempts[id := Attempt(s.now, [(k, true)])])
  {
    var k := Address(address, 0);
    OneKey(p, address);
    BeginsOne(p, s, id, k);
    ReservesKnown(p, s.counters, [], k, s.now);
    assert [] + [(k, true)] == [(k, true)];
    t := Step(p, s, Begin(id, None, address));
    Goes(p, s, Begin(id, None, address));
  }

  lemma {:induction false} FailsKnown(p: Policy, s: State, k: Key, id: nat) returns (t: State)
    requires Reachable(p, s) && id in s.attempts && s.attempts[id].keys == [(k, true)] && k in s.counters
    ensures
      var d := Failing(s.counters[k], RuleOf(p, k), s.now);
      && Reachable(p, t)
      && t == State(s.now, s.counters[k := d], s.attempts - {id},
                    s.log + [Entry(k, s.attempts[id].begun, s.now, d.since, true)])
  {
    SettlesOne(p, s, id, k, true, Failed);
    FailsHeld(p, s.counters, s.log, s.attempts[id].begun, k, s.now);
    t := Step(p, s, Settle(id, Failed));
    Goes(p, s, Settle(id, Failed));
  }

  lemma {:induction false} GivesBackKnown(p: Policy, s: State, k: Key, id: nat) returns (t: State)
    requires Reachable(p, s) && id in s.attempts && s.attempts[id].keys == [(k, true)]
    requires k in s.counters && s.counters[k].pending > 0 && s.counters[k].failures > 0
    ensures
      var c := s.counters[k];
      && Reachable(p, t)
      && t == s.(counters := s.counters[k := c.(pending := c.pending - 1)], attempts := s.attempts - {id})
  {
    SettlesOne(p, s, id, k, true, Refunded);
    GivesBackHeld(p, s.counters, s.log, s.attempts[id].begun, k, s.now);
    t := Step(p, s, Settle(id, Refunded));
    Goes(p, s, Settle(id, Refunded));
  }

  lemma {:induction false} BeginsAndFails(p: Policy, s: State, address: nat, id: nat) returns (t: State)
    requires Sensible(p) && |p.address| == 1 && Reachable(p, s) && id !in s.attempts
    requires Address(address, 0) in s.counters && Roomy(p, s.counters, Address(address, 0), s.now)
    ensures
      var k := Address(address, 0);
      var d := FailedAtOnce(s.counters[k], RuleOf(p, k), s.now);
      && Reachable(p, t)
      && t == s.(counters := s.counters[k := d], log := s.log + [Entry(k, s.now, s.now, d.since, true)])
  {
    var k := Address(address, 0);
    var u := BeginsKnown(p, s, address, id);
    t := FailsKnown(p, u, k, id);
    assert RuleOf(p, k).window > 0;
    FailsAtOnce(s.counters[k], RuleOf(p, k), s.now);
    var d := FailedAtOnce(s.counters[k], RuleOf(p, k), s.now);
    assert u.counters[k := d] == s.counters[k := d];
    assert u.attempts - {id} == s.attempts;
  }

  /** What `n` failures at once make of a counter that is in its window and short of the limit. */
  function FailedTimes(c: Counter, rule: Rule, now: Instant, n: nat): Counter {
    Counter(c.failures + n, c.pending, c.since, if c.failures + n >= rule.limit then Some(now + rule.lock) else None)
  }

  lemma FailedOnceMore(c: Counter, rule: Rule, now: Instant, n: nat)
    requires rule.window > 0 && Restarted(c, rule, now).lockedUntil.None?
    requires Restarted(c, rule, now).failures + Restarted(c, rule, now).pending + n <= rule.limit && n > 0
    ensures
      var once := FailedAtOnce(c, rule, now);
      && once == FailedTimes(Restarted(c, rule, now), rule, now, 1)
      && (n > 1 ==>
            && Restarted(once, rule, now) == once && once.lockedUntil.None?
            && FailedTimes(once, rule, now, n - 1) == FailedTimes(Restarted(c, rule, now), rule, now, n))
  {
  }

  /** `n` attempts begin and fail one after the other, at one instant of the span. */
  lemma {:induction false} FailInTurn(p: Policy, s: State, address: nat, n: nat, id: nat, lo: Instant, hi: Instant)
    returns (t: State)
    requires Sensible(p) && |p.address| == 1 && Reachable(p, s) && id !in s.attempts && lo <= s.now < hi
    requires Address(address, 0) in s.counters && n > 0
    requires
      var rule := RuleOf(p, Address(address, 0));
      var c := Restarted(s.counters[Address(address, 0)], rule, s.now);
      c.lockedUntil.None? && c.failures + c.pending + n <= rule.limit
    ensures
      var k := Address(address, 0);
      var rule := RuleOf(p, k);
      && Reachable(p, t) && t.now == s.now && t.attempts == s.attempts && k in t.counters
      && t.counters[k] == FailedTimes(Restarted(s.counters[k], rule, s.now), rule, s.now, n)
      && FailedWithin(t, k, lo, hi) == FailedWithin(s, k, lo, hi) + n
    decreases n
  {
    var k := Address(address, 0);
    var rule := RuleOf(p, k);
    assert rule.window > 0;
    FailedOnceMore(s.counters[k], rule, s.now, n);
    t := BeginsAndFails(p, s, address, id);
    OneMoreWithin(s.log, Entry(k, s.now, s.now, t.counters[k].since, true), k, lo, hi);
    if n > 1 {
      t := FailInTurn(p, t, address, n - 1, id, lo, hi);
    }
  }

  // Twice the limit's worth but one.

  lemma {:induction false} BeginsFirst(p: Policy, s: State, address: nat, id: nat) returns (t: State)
    requires Sensible(p) && |p.address| == 1 && Reachable(p, s) && id !in s.attempts
    requires Address(address, 0) !in s.counters && |s.counters| < p.capacity
    ensures
      var k := Address(address, 0);
      && Reachable(p, t)
      && t == s.(counters := s.counters[k := Counter(0, 1, s.now, None)],
                 attempts := s.attempts[id := Attempt(s.now, [(k, true)])])
  {
    var k := Address(address, 0);
    OneKey(p, address);
    BeginsOne(p, s, id, k);
    ReservesNew(p, s.counters, [], k, s.now);
    assert [] + [(k, true)] == [(k, true)];
    t := Step(p, s, Begin(id, None, address));
    Goes(p, s, Begin(id, None, address));
  }

  lemma NoneYet(s: State, k: Key, lo: Instant, hi: Instant)
    requires s.log == []
    ensures FailedWithin(s, k, lo, hi) == 0
  {
  }

  /** A window is about to end, short of the limit by one, which the attempt `id` in flight may be. */
  ghost predicate AboutToEnd(s: State, k: Key, rule: Rule, id: nat, begun: Instant) {
    && rule.limit > 1 && rule.window > 0
    && s.now == rule.window - 1 && k in s.counters
    && s.counters[k] == Counter(rule.limit - 1, 1, 0, None)
    && s.attempts == map[id := Attempt(begun, [(k, true)])]
    && FailedWithin(s, k, rule.window - 1, rule.window + 1) == rule.limit - 1
  }

  /** An attempt opens a window. */
  lemma {:induction false} Opens(p: Policy, address: nat, at: Instant) returns (s: State)
    requires Sensible(p) && |p.address| == 1 && p.capacity > 0
    ensures
      var k := Address(address, 0);
      && Reachable(p, s) && s.now == at && s.log == []
      && k in s.counters && s.counters[k] == Counter(0, 1, at, None)
      && s.attempts == map[0 := Attempt(at, [(k, true)])]
  {
    Starts(p);
    s := Waits(p, INIT, at);
    s := BeginsFirst(p, s, address, 0);
  }

  /** Just before the window ends, as many fail as the limit allows beside it. */
  lemma {:induction false} FirstWindow(p: Policy, address: nat) returns (s: State)
    requires Sensible(p) && |p.address| == 1 && p.capacity > 0 && RuleOf(p, Address(address, 0)).limit > 1
    ensures Reachable(p, s) && AboutToEnd(s, Address(address, 0), RuleOf(p, Address(address, 0)), 0, 0)
  {
    var k := Address(address, 0);
    var rule := RuleOf(p, k);
    assert rule.window > 0;
    s := Opens(p, address, 0);
    s := Waits(p, s, rule.window - 1);
    NoneYet(s, k, rule.window - 1, rule.window + 1);
    s := FailInTurn(p, s, address, rule.limit - 1, 2, rule.window - 1, rule.window + 1);
  }

  /** It is given back, and another takes its place. */
  lemma {:induction false} AnotherInItsPlace(p: Policy, s: State, address: nat) returns (t: State)
    requires Sensible(p) && |p.address| == 1 && Reachable(p, s)
    requires AboutToEnd(s, Address(address, 0), RuleOf(p, Address(address, 0)), 0, 0)
    ensures
      var rule := RuleOf(p, Address(address, 0));
      Reachable(p, t) && AboutToEnd(t, Address(address, 0), rule, 1, rule.window - 1)
  {
    t := GivesBackKnown(p, s, Address(address, 0), 0);
    t := BeginsKnown(p, t, address, 1);
  }

  /** In the next, the one in flight and as many again fail at once. */
  lemma {:induction false} SecondWindow(p: Policy, s: State, address: nat) returns (t: State)
    requires Sensible(p) && |p.address| == 1 && Reachable(p, s)
    requires
      var rule := RuleOf(p, Address(address, 0));
      AboutToEnd(s, Address(address, 0), rule, 1, rule.window - 1)
    ensures
      var k := Address(address, 0);
      var rule := RuleOf(p, k);
      Reachable(p, t) && FailedWithin(t, k, rule.window - 1, rule.window + 1) == 2 * rule.limit - 1
  {
    var k := Address(address, 0);
    var rule := RuleOf(p, k);
    var over := Waits(p, s, 1);
    var failed := FailInTurn(p, over, address, rule.limit - 1, 2, rule.window - 1, rule.window + 1);
    t := FailsKnown(p, failed, k, 1);
    OneMoreWithin(
      failed.log, Entry(k, rule.window - 1, rule.window, t.counters[k].since, true), k,
      rule.window - 1, rule.window + 1);
  }

  lemma {:induction false} OneFails(p: Policy, address: nat) returns (s: State)
    requires Sensible(p) && |p.address| == 1 && p.capacity > 0
    ensures
      var k := Address(address, 0);
      var rule := RuleOf(p, k);
      rule.window > 0 && Reachable(p, s) && FailedWithin(s, k, rule.window - 1, rule.window + 1) == 1
  {
    var k := Address(address, 0);
    var rule := RuleOf(p, k);
    assert rule.window > 0;
    var begun := Opens(p, address, rule.window - 1);
    NoneYet(begun, k, rule.window - 1, rule.window + 1);
    s := FailsKnown(p, begun, k, 0);
    OneMoreWithin(
      begun.log, Entry(k, rule.window - 1, rule.window - 1, s.counters[k].since, true), k,
      rule.window - 1, rule.window + 1);
  }

  /** For every policy with one rule for an address: twice the limit's worth of attempts but one begin
      and fail within two instants, the last of one window and the first of the next. */
  lemma {:induction false} TwiceLessOneFits(p: Policy, address: nat) returns (schedule: seq<Action>)
    requires Sensible(p) && |p.address| == 1 && p.capacity > 0
    ensures
      var k := Address(address, 0);
      var rule := RuleOf(p, k);
      rule.window > 0 &&
      FailedWithin(Run(Next(p), INIT, schedule), k, rule.window - 1, rule.window + 1) == 2 * rule.limit - 1
  {
    var k := Address(address, 0);
    var rule := RuleOf(p, k);
    assert rule.limit > 0 && rule.window > 0;
    var s: State;
    if rule.limit == 1 {
      s := OneFails(p, address);
    } else {
      s := FirstWindow(p, address);
      s := AnotherInItsPlace(p, s, address);
      s := SecondWindow(p, s, address);
    }
    schedule :| Run(Next(p), INIT, schedule) == s;
  }
}
