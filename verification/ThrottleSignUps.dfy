/**
  Sign-ups: how many from an address are let through and not given back in ten minutes and in a day,
  and runs in which as many are.
*/
module ThrottleSignUps {
  import opened Counting
  import opened Schedules
  import opened Sorting
  import opened Throttle
  import opened ThrottleHistory
  import opened ThrottleLimits
  import opened ThrottleRuns
  import opened ThrottleSpans
  import opened ThrottleWitnesses
  import opened Wrappers

  function Burst(address: nat): Key {
    Address(address, 0)
  }

  function Day(address: nat): Key {
    Address(address, 1)
  }

  lemma SignUpRules(address: nat)
    ensures Sensible(SIGN_UP) && Windows(SIGN_UP) == 2
    ensures RuleOf(SIGN_UP, Burst(address)) == SIGN_UP_BURST && RuleOf(SIGN_UP, Day(address)) == SIGN_UP_DAY
    ensures KeysOf(SIGN_UP, None, address) == [Burst(address), Day(address)]
  {
    PoliciesAreSensible();
    assert seq(Windows(SIGN_UP), (i: nat) => Address(address, i)) == [Burst(address), Day(address)];
  }

  // How many there can be.

  lemma {:induction false} TimesDecide(es: seq<Entry>, fs: seq<Entry>, lo: Instant, hi: Instant)
    requires Times(es) == Times(fs)
    ensures |Filter(es, BegunIn(lo, hi))| == |Filter(fs, BegunIn(lo, hi))|
  {
    assert |es| == |Times(es)| == |fs|;
    if es != [] {
      assert Times(es)[0] == Times(fs)[0];
      forall i | 0 <= i < |es| - 1 ensures Times(es[1..])[i] == Times(fs[1..])[i] {
        assert Times(es)[i + 1] == Times(fs)[i + 1];
      }
      TimesDecide(es[1..], fs[1..], lo, hi);
    }
  }

  lemma {:induction false} KeptAlike(s: State, k: Key, other: Key, lo: Instant, hi: Instant)
    requires Times(Entries(s.log, k)) == Times(Entries(s.log, other))
    requires forall id :: id in s.attempts ==>
               ((k, true) in s.attempts[id].keys <==> (other, true) in s.attempts[id].keys)
    ensures Kept(s, k, lo, hi) == Kept(s, other, lo, hi)
  {
    TimesDecide(Entries(s.log, k), Entries(s.log, other), lo, hi);
    CountAlike(s.attempts, HeldFrom(k, lo, hi), HeldFrom(other, lo, hi));
  }

  /** Whatever is sent, and however full the counters are: of the sign-ups from an address let through
      in any ten minutes, at most nine are not given back, and in any day at most thirty-nine.
      Both rules count the same sign-ups. */
  lemma {:induction false} SignUpsAreFew(schedule: seq<Action>, address: nat, lo: Instant)
    ensures
      var s := Run(Next(SIGN_UP), INIT, schedule);
      && Kept(s, Burst(address), lo, lo + 600) == Kept(s, Day(address), lo, lo + 600) <= 9
      && Kept(s, Burst(address), lo, lo + 86_400) == Kept(s, Day(address), lo, lo + 86_400) <= 39
  {
    var s, burst, day := Run(Next(SIGN_UP), INIT, schedule), Burst(address), Day(address);
    SignUpRules(address);
    ClosedIsCounted(SIGN_UP, schedule, burst);
    ClosedIsCounted(SIGN_UP, schedule, day);
    LetThroughAreFew(SIGN_UP, schedule, burst, lo, lo + 600);
    LetThroughAreFew(SIGN_UP, schedule, day, lo, lo + 86_400);
    RulesCountAlike(SIGN_UP, schedule, burst, day);
    KeptAlike(s, burst, day, lo, lo + 600);
    KeptAlike(s, burst, day, lo, lo + 86_400);
  }

  // As many as there can be.

  function SignUp(address: nat, begun: Instant): Attempt {
    Attempt(begun, [(Burst(address), true), (Day(address), true)])
  }

  lemma {:induction false} BeginsSignUp(s: State, address: nat, id: nat) returns (t: State)
    requires Reachable(SIGN_UP, s) && id !in s.attempts && Burst(address) in s.counters && Day(address) in s.counters
    requires Roomy(SIGN_UP, s.counters, Burst(address), s.now) && Roomy(SIGN_UP, s.counters, Day(address), s.now)
    ensures
      var k, l := Burst(address), Day(address);
      && Reachable(SIGN_UP, t)
      && t == s.(counters := s.counters[k := Reserving(s.counters[k], SIGN_UP_BURST, s.now)]
                                       [l := Reserving(s.counters[l], SIGN_UP_DAY, s.now)],
                 attempts := s.attempts[id := SignUp(address, s.now)])
  {
    var k, l := Burst(address), Day(address);
    SignUpRules(address);
    BeginsTwo(SIGN_UP, s, id, k, l);
    ReservesKnown(SIGN_UP, s.counters, [], k, s.now);
    var between := s.counters[k := Reserving(s.counters[k], SIGN_UP_BURST, s.now)];
    ReservesKnown(SIGN_UP, between, [] + [(k, true)], l, s.now);
    assert [] + [(k, true)] + [(l, true)] == [(k, true), (l, true)];
    t := Step(SIGN_UP, s, Begin(id, None, address));
    Goes(SIGN_UP, s, Begin(id, None, address));
  }

  lemma {:induction false} FailsSignUp(s: State, address: nat, id: nat, begun: Instant) returns (t: State)
    requires Reachable(SIGN_UP, s) && id in s.attempts && s.attempts[id] == SignUp(address, begun)
    requires Burst(address) in s.counters && Day(address) in s.counters
    ensures
      var k, l := Burst(address), Day(address);
      var c, d := Failing(s.counters[k], SIGN_UP_BURST, s.now), Failing(s.counters[l], SIGN_UP_DAY, s.now);
      && Reachable(SIGN_UP, t)
      && t == State(s.now, s.counters[k := c][l := d], s.attempts - {id},
                    s.log + [Entry(k, begun, s.now, c.since, true)] + [Entry(l, begun, s.now, d.since, true)])
  {
    var k, l := Burst(address), Day(address);
    SignUpRules(address);
    SettlesTwo(SIGN_UP, s, id, k, true, l, true, Failed);
    FailsHeld(SIGN_UP, s.counters, s.log, begun, k, s.now);
    var c := Failing(s.counters[k], SIGN_UP_BURST, s.now);
    FailsHeld(SIGN_UP, s.counters[k := c], s.log + [Entry(k, begun, s.now, c.since, true)], begun, l, s.now);
    t := Step(SIGN_UP, s, Settle(id, Failed));
    Goes(SIGN_UP, s, Settle(id, Failed));
  }

  lemma {:induction false} GivesBackSignUp(s: State, address: nat, id: nat, begun: Instant) returns (t: State)
    requires Reachable(SIGN_UP, s) && id in s.attempts && s.attempts[id] == SignUp(address, begun)
    requires Burst(address) in s.counters && Day(address) in s.counters
    requires s.counters[Burst(address)].pending > 0 && s.counters[Burst(address)].failures > 0
    requires s.counters[Day(address)].pending > 0 && s.counters[Day(address)].failures > 0
    ensures
      var k, l := Burst(address), Day(address);
      var c, d := s.counters[k], s.counters[l];
      && Reachable(SIGN_UP, t)
      && t == s.(counters := s.counters[k := c.(pending := c.pending - 1)][l := d.(pending := d.pending - 1)],
                 attempts := s.attempts - {id})
  {
    var k, l := Burst(address), Day(address);
    SettlesTwo(SIGN_UP, s, id, k, true, l, true, Refunded);
    GivesBackHeld(SIGN_UP, s.counters, s.log, begun, k, s.now);
    var between := s.counters[k := s.counters[k].(pending := s.counters[k].pending - 1)];
    GivesBackHeld(SIGN_UP, between, s.log, begun, l, s.now);
    t := Step(SIGN_UP, s, Settle(id, Refunded));
    Goes(SIGN_UP, s, Settle(id, Refunded));
  }

  /** The two counters of an address, and how many sign-ups began and failed within `lo` and `hi`. */
  ghost predicate Stands(s: State, address: nat, burst: Counter, day: Counter, lo: Instant, hi: Instant, n: nat) {
    && Reachable(SIGN_UP, s)
    && Burst(address) in s.counters && s.counters[Burst(address)] == burst
    && Day(address) in s.counters && s.counters[Day(address)] == day
    && FailedWithin(s, Day(address), lo, hi) == n
  }

  lemma {:induction false} Opens(address: nat, lo: Instant, hi: Instant) returns (s: State)
    ensures Stands(s, address, Counter(0, 1, 0, None), Counter(0, 1, 0, None), lo, hi, 0)
    ensures s.now == 0 && s.attempts == map[0 := SignUp(address, 0)]
  {
    var k, l := Burst(address), Day(address);
    Starts(SIGN_UP);
    SignUpRules(address);
    BeginsTwo(SIGN_UP, INIT, 0, k, l);
    ReservesNew(SIGN_UP, INIT.counters, [], k, 0);
    ReservesNew(SIGN_UP, INIT.counters[k := Counter(0, 1, 0, None)], [] + [(k, true)], l, 0);
    assert [] + [(k, true)] + [(l, true)] == [(k, true), (l, true)];
    s := Step(SIGN_UP, INIT, Begin(0, None, address));
    Goes(SIGN_UP, INIT, Begin(0, None, address));
    NoneYet(s, l, lo, hi);
  }

  lemma {:induction false} TwoMoreWithin(s: State, t: State, address: nat, e: Entry, f: Entry, lo: Instant, hi: Instant)
    requires t.log == s.log + [e] + [f] && e.key == Burst(address) && f.key == Day(address) && Within(lo, hi)(f)
    ensures FailedWithin(t, Day(address), lo, hi) == FailedWithin(s, Day(address), lo, hi) + 1
  {
    OneMoreWithin(s.log, e, Day(address), lo, hi);
    OneMoreWithin(s.log + [e], f, Day(address), lo, hi);
  }

  /** The one in flight fails. */
  lemma {:induction false} LastFails(
    s: State, address: nat, burst: Counter, day: Counter, lo: Instant, hi: Instant, n: nat, id: nat, begun: Instant)
    returns (t: State)
    requires Stands(s, address, burst, day, lo, hi, n) && lo <= begun && s.now < hi
    requires id in s.attempts && s.attempts[id] == SignUp(address, begun)
    ensures
      var c, d := Failing(burst, SIGN_UP_BURST, s.now), Failing(day, SIGN_UP_DAY, s.now);
      Stands(t, address, c, d, lo, hi, n + 1) && t.now == s.now && t.attempts == s.attempts - {id}
  {
    t := FailsSignUp(s, address, id, begun);
    var c, d := Failing(burst, SIGN_UP_BURST, s.now), Failing(day, SIGN_UP_DAY, s.now);
    TwoMoreWithin(
      s, t, address, Entry(Burst(address), begun, s.now, c.since, true),
      Entry(Day(address), begun, s.now, d.since, true), lo, hi);
  }

  /** One begins and fails at once. */
  lemma {:induction false} OneFails(
    s: State, address: nat, burst: Counter, day: Counter, lo: Instant, hi: Instant, n: nat) returns (t: State)
    requires Stands(s, address, burst, day, lo, hi, n) && lo <= s.now < hi && 2 !in s.attempts
    requires !MustWait(burst, SIGN_UP_BURST, s.now) && !MustWait(day, SIGN_UP_DAY, s.now)
    ensures
      var c, d := FailedAtOnce(burst, SIGN_UP_BURST, s.now), FailedAtOnce(day, SIGN_UP_DAY, s.now);
      Stands(t, address, c, d, lo, hi, n + 1) && t.now == s.now && t.attempts == s.attempts
  {
    SignUpRules(address);
    var u := BeginsSignUp(s, address, 2);
    FailsAtOnce(burst, SIGN_UP_BURST, s.now);
    FailsAtOnce(day, SIGN_UP_DAY, s.now);
    t := LastFails(
      u, address, Reserving(burst, SIGN_UP_BURST, s.now), Reserving(day, SIGN_UP_DAY, s.now), lo, hi, n, 2, s.now);
    assert t.attempts == s.attempts;
  }

  predicate Fits(c: Counter, rule: Rule, now: Instant, n: nat) {
    var d := Restarted(c, rule, now);
    d.lockedUntil.None? && d.failures + d.pending + n <= rule.limit
  }

  /** `n` begin and fail at once, one after the other. */
  lemma {:induction false} Batch(
    s: State, address: nat, burst: Counter, day: Counter, lo: Instant, hi: Instant, m: nat, n: nat)
    returns (t: State)
    requires Stands(s, address, burst, day, lo, hi, m) && lo <= s.now < hi && 2 !in s.attempts && n > 0
    requires Fits(burst, SIGN_UP_BURST, s.now, n) && Fits(day, SIGN_UP_DAY, s.now, n)
    ensures
      var c := FailedTimes(Restarted(burst, SIGN_UP_BURST, s.now), SIGN_UP_BURST, s.now, n);
      var d := FailedTimes(Restarted(day, SIGN_UP_DAY, s.now), SIGN_UP_DAY, s.now, n);
      Stands(t, address, c, d, lo, hi, m + n) && t.now == s.now && t.attempts == s.attempts
    decreases n
  {
    FailedOnceMore(burst, SIGN_UP_BURST, s.now, n);
    FailedOnceMore(day, SIGN_UP_DAY, s.now, n);
    t := OneFails(s, address, burst, day, lo, hi, m);
    if n > 1 {
      var c, d := FailedAtOnce(burst, SIGN_UP_BURST, s.now), FailedAtOnce(day, SIGN_UP_DAY, s.now);
      t := Batch(t, address, c, d, lo, hi, m + 1, n - 1);
    }
  }

  /** Time passes. */
  lemma {:induction false} Later(
    s: State, address: nat, burst: Counter, day: Counter, lo: Instant, hi: Instant, n: nat, elapsed: nat)
    returns (t: State)
    requires Stands(s, address, burst, day, lo, hi, n)
    ensures Stands(t, address, burst, day, lo, hi, n) && t.now == s.now + elapsed && t.attempts == s.attempts
  {
    t := Waits(SIGN_UP, s, elapsed);
  }

  /** The first is given back, and another takes its place in flight. */
  lemma {:induction false} AnotherBegins(
    s: State, address: nat, burst: Counter, day: Counter, lo: Instant, hi: Instant, n: nat) returns (t: State)
    requires Stands(s, address, burst, day, lo, hi, n) && s.attempts == map[0 := SignUp(address, 0)]
    requires burst.failures > 0 && burst.pending == 1 && burst.lockedUntil.None?
    requires day.failures > 0 && day.pending == 1 && day.lockedUntil.None?
    requires burst.failures < 5 && s.now < burst.since + 600 && day.failures < 20 && s.now < day.since + 86_400
    ensures Stands(t, address, burst, day, lo, hi, n)
    ensures t.now == s.now && t.attempts == map[1 := SignUp(address, s.now)]
  {
    SignUpRules(address);
    var u := GivesBackSignUp(s, address, 0, 0);
    t := BeginsSignUp(u, address, 1);
  }

  /** Time passes, and then `n` fail. */
  lemma {:induction false} LaterBatch(
    s: State, address: nat, burst: Counter, day: Counter, lo: Instant, hi: Instant, m: nat, elapsed: nat, n: nat)
    returns (t: State)
    requires Stands(s, address, burst, day, lo, hi, m) && lo <= s.now + elapsed < hi && 2 !in s.attempts && n > 0
    requires Fits(burst, SIGN_UP_BURST, s.now + elapsed, n) && Fits(day, SIGN_UP_DAY, s.now + elapsed, n)
    ensures
      var now := s.now + elapsed;
      var c := FailedTimes(Restarted(burst, SIGN_UP_BURST, now), SIGN_UP_BURST, now, n);
      var d := FailedTimes(Restarted(day, SIGN_UP_DAY, now), SIGN_UP_DAY, now, n);
      Stands(t, address, c, d, lo, hi, m + n) && t.now == now && t.attempts == s.attempts
  {
    t := Later(s, address, burst, day, lo, hi, m, elapsed);
    t := Batch(t, address, burst, day, lo, hi, m, n);
  }

  /** Just before ten minutes are over, four fail beside the one in flight. */
  lemma {:induction false} FirstFour(address: nat) returns (s: State)
    ensures Stands(s, address, Counter(4, 1, 0, None), Counter(4, 1, 0, None), 599, 601, 4)
    ensures s.now == 599 && s.attempts == map[1 := SignUp(address, 599)]
  {
    var c := Counter(0, 1, 0, None);
    s := Opens(address, 599, 601);
    s := LaterBatch(s, address, c, c, 599, 601, 0, 599, 4);
    s := AnotherBegins(s, address, Counter(4, 1, 0, None), Counter(4, 1, 0, None), 599, 601, 4);
  }

  /** What failed within a span is not given back. */
  lemma {:induction false} FailedIsKept(schedule: seq<Action>, k: Key, lo: Instant, hi: Instant)
    ensures
      var s := Run(Next(SIGN_UP), INIT, schedule);
      FailedWithin(s, k, lo, hi) <= Kept(s, k, lo, hi)
  {
    var s := Run(Next(SIGN_UP), INIT, schedule);
    RunIsDated(SIGN_UP, schedule);
    EntriesHold(s.log, k);
    FilterSmaller(Entries(s.log, k), Within(lo, hi), BegunIn(lo, hi));
  }

  /** Nine sign-ups begin and fail within two seconds. */
  lemma {:induction false} NineFit(address: nat) returns (schedule: seq<Action>)
    ensures
      var s := Run(Next(SIGN_UP), INIT, schedule);
      FailedWithin(s, Day(address), 599, 601) == 9 <= Kept(s, Day(address), 599, 601)
  {
    var s := FirstFour(address);
    s := LaterBatch(s, address, Counter(4, 1, 0, None), Counter(4, 1, 0, None), 599, 601, 4, 1, 4);
    s := LastFails(s, address, Counter(4, 1, 600, None), Counter(8, 1, 0, None), 599, 601, 8, 1, 599);
    schedule :| Run(Next(SIGN_UP), INIT, schedule) == s;
    FailedIsKept(schedule, Day(address), 599, 601);
  }

  const LATE: Instant := 83_400
  const OVER: Instant := 88_201

  /** Near the end of a day, four fail every ten minutes beside the one in flight. */
  lemma {:induction false} RoundsOfFour(address: nat, i: nat) returns (s: State)
    requires i < 4
    ensures Stands(
              s, address, Counter(4, 1, LATE + 600 * i, None), Counter(4 * i + 4, 1, 0, None), LATE, OVER, 4 * i + 4)
    ensures s.now == LATE + 600 * i && s.attempts == map[0 := SignUp(address, 0)]
  {
    if i == 0 {
      var c := Counter(0, 1, 0, None);
      s := Opens(address, LATE, OVER);
      s := LaterBatch(s, address, c, c, LATE, OVER, 0, LATE, 4);
    } else {
      s := RoundsOfFour(address, i - 1);
      s := LaterBatch(
        s, address, Counter(4, 1, LATE + 600 * (i - 1), None), Counter(4 * i, 1, 0, None), LATE, OVER, 4 * i, 600, 4);
    }
  }

  /** The day is short of its limit by one, which is in flight. */
  lemma {:induction false} Nineteen(address: nat) returns (s: State)
    ensures Stands(s, address, Counter(3, 1, 85_800, None), Counter(19, 1, 0, None), LATE, OVER, 19)
    ensures s.now == 85_800 && s.attempts == map[1 := SignUp(address, 85_800)]
  {
    s := RoundsOfFour(address, 3);
    s := LaterBatch(s, address, Counter(4, 1, 85_200, None), Counter(16, 1, 0, None), LATE, OVER, 16, 600, 3);
    s := AnotherBegins(s, address, Counter(3, 1, 85_800, None), Counter(19, 1, 0, None), LATE, OVER, 19);
  }

  /** The next day begins, and five fail every ten minutes until it is at its limit too. */
  lemma {:induction false} RoundsOfFive(address: nat, i: nat) returns (s: State)
    requires i < 4
    ensures
      var since, failures := 86_400 + 600 * i, 5 * i + 5;
      var day := Counter(failures, 0, 86_400, if i == 3 then Some(174_600) else None);
      Stands(s, address, Counter(5, 0, since, Some(since + 600)), day, LATE, OVER, failures + 19) && s.now == since
    ensures s.attempts == map[]
  {
    if i == 0 {
      s := Nineteen(address);
      s := LaterBatch(s, address, Counter(3, 1, 85_800, None), Counter(19, 1, 0, None), LATE, OVER, 19, 600, 4);
      var c := Counter(4, 1, 86_400, None);
      s := LastFails(s, address, c, c, LATE, OVER, 23, 1, 85_800);
    } else {
      s := RoundsOfFive(address, i - 1);
      var since := 86_400 + 600 * (i - 1);
      s := LaterBatch(
        s, address, Counter(5, 0, since, Some(since + 600)), Counter(5 * i, 0, 86_400, None), LATE, OVER, 5 * i + 19,
        600, 5);
    }
  }

  /** Beside the ten-minute rule, thirty-nine sign-ups begin and fail within eighty minutes and a
      second: the end of one day and the beginning of the next. */
  lemma {:induction false} ThirtyNineFit(address: nat) returns (schedule: seq<Action>)
    ensures
      var s := Run(Next(SIGN_UP), INIT, schedule);
      FailedWithin(s, Day(address), LATE, OVER) == 39 <= Kept(s, Day(address), LATE, OVER)
    ensures OVER - LATE == 80 * 60 + 1
  {
    var s := RoundsOfFive(address, 3);
    schedule :| Run(Next(SIGN_UP), INIT, schedule) == s;
    FailedIsKept(schedule, Day(address), LATE, OVER);
  }
}
