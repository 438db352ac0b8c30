/**
  What the throttle promises over every run: how many attempts a key may have in flight, how few
  failures fit in a span of time, and what attempts that were let through uncounted do to both.
*/
module ThrottleRuns {
  import opened Counting
  import opened Schedules
  import opened Sorting
  import opened Throttle
  import opened ThrottleLimits
  import opened Wrappers

  // At any moment.

  /** A key carries a lock, run out or not, exactly when its counted failures reach the limit. An
      address's lock lasts from one of the failures of its window: it is locked now only if one of
      them is younger than the lock is long. */
  lemma {:induction false} LockedExactlyAtTheLimit(p: Policy, schedule: seq<Action>, k: Key)
    requires Sensible(p) && k in Run(Next(p), INIT, schedule).counters
    ensures
      var s := Run(Next(p), INIT, schedule);
      var c, rule := s.counters[k], RuleOf(p, k);
      && (c.lockedUntil.Some? <==> c.failures >= rule.limit)
      && (k.Address? && c.lockedUntil.Some? ==>
            exists e :: && e in Entries(s.log, k) && e.since == c.since
                        && c.lockedUntil == Some(e.at + rule.lock)
                        && (Locked(c, s.now) <==> s.now < e.at + rule.lock))
  {
    EveryKeyIsOk(p, schedule, k);
  }

  /** However many attempts are sent at once, those reserved on a key never pass its limit; nor do
      they and the failures counted there together, but for failures of attempts that had been let
      through uncounted. */
  lemma {:induction false} BurstsAreBounded(p: Policy, schedule: seq<Action>, k: Key)
    requires Sensible(p)
    ensures
      var s := Run(Next(p), INIT, schedule);
      var reserved, limit := Count(s.attempts, Holds(k)), RuleOf(p, k).limit;
      && reserved <= limit
      && (k in s.counters ==>
            reserved + s.counters[k].failures <= limit + |Filter(Entries(s.log, k), Late(s.counters[k].since))|)
  {
    EveryKeyIsOk(p, schedule, k);
  }

  // Attempts let through uncounted.

  /** The step lets an attempt through without counting it against `k`. */
  predicate Uncounted(p: Policy, s: State, a: Action, k: Key) {
    && a.Begin?
    && a.id !in s.attempts
    && !Refuses(p, s, KeysOf(p, a.name, a.address))
    && (k, false) in ReserveAll(p, s.counters, KeysOf(p, a.name, a.address), s.now).reserved
  }

  /** A policy that fails closed counts every attempt it lets through. */
  lemma {:induction false} ClosedCountsEverything(p: Policy, s: State, a: Action, k: Key)
    requires p.failClosed
    ensures !Uncounted(p, s, a, k)
  {
    if a.Begin? {
      ReservedAreAsked(p, s.counters, KeysOf(p, a.name, a.address), s.now);
    }
  }

  lemma {:induction false} RoomReserves(p: Policy, counters: Counters, keys: seq<Key>, now: Instant)
    requires |counters| + |keys| <= p.capacity
    ensures
      var r := ReserveAll(p, counters, keys, now);
      && |r.counters| <= |counters| + |keys|
      && !r.full
      && forall i :: 0 <= i < |r.reserved| ==> r.reserved[i].1
  {
    if keys != [] {
      var front, last := keys[..|keys| - 1], keys[|keys| - 1];
      RoomReserves(p, counters, front, now);
      assert Opened(p, ReserveAll(p, counters, front, now).counters, last, now).Some?;
    }
  }

  /** While there is room for its keys, an attempt is counted. */
  lemma {:induction false} RoomCountsEverything(p: Policy, s: State, a: Action, k: Key)
    requires a.Begin? ==> |s.counters| + |KeysOf(p, a.name, a.address)| <= p.capacity
    ensures !Uncounted(p, s, a, k)
  {
    if a.Begin? {
      RoomReserves(p, s.counters, KeysOf(p, a.name, a.address), s.now);
    }
  }

  lemma {:induction false} KnownKeyIsReserved(p: Policy, counters: Counters, keys: seq<Key>, now: Instant, k: Key)
    requires k in counters && !Expired(counters[k], RuleOf(p, k), now) && NoRepeats(keys)
    ensures (k, false) !in ReserveAll(p, counters, keys, now).reserved
    ensures k !in keys ==> At(ReserveAll(p, counters, keys, now).counters, k) == Some(counters[k])
  {
    if keys != [] {
      var front, last := keys[..|keys| - 1], keys[|keys| - 1];
      assert keys == front + [last];
      KnownKeyIsReserved(p, counters, front, now, k);
      var r := ReserveAll(p, counters, front, now);
      if last == k {
        assert k !in front;
      } else if !r.full && Opened(p, r.counters, last, now).Some? {
        OpenedLeavesOthers(p, r.counters, last, now, k);
      }
    }
  }

  /** A key whose counter is still worth keeping is counted however full the table is: only an
      attempt on a key with none can go uncounted. */
  lemma {:induction false} KnownKeysAreCounted(p: Policy, s: State, a: Action, k: Key)
    requires k in s.counters && !Expired(s.counters[k], RuleOf(p, k), s.now)
    ensures !Uncounted(p, s, a, k)
  {
    if a.Begin? {
      KeysAreDistinct(p, a.name, a.address);
      KnownKeyIsReserved(p, s.counters, KeysOf(p, a.name, a.address), s.now, k);
    }
  }

  /** Nothing on `k` is or was uncounted. */
  ghost predicate OnTime(s: State, k: Key) {
    && (forall id :: id in s.attempts ==> (k, false) !in s.attempts[id].keys)
    && forall e :: e in s.log && e.key == k ==> e.reserved
  }

  lemma {:induction false} SettledOneLog(
    p: Policy, counters: Counters, log: seq<Entry>, begun: Instant, key: Key, reserved: bool, outcome: Outcome,
    now: Instant, e: Entry)
    requires e in SettleOne(p, counters, log, begun, key, reserved, outcome, now).1
    ensures e in log || (e.key == key && e.reserved == reserved)
  {
  }

  lemma {:induction false} SettledLog(
    p: Policy, counters: Counters, log: seq<Entry>, begun: Instant, r: Reserved, outcome: Outcome, now: Instant,
    e: Entry)
    requires e in SettleAll(p, counters, log, begun, r, outcome, now).1
    ensures e in log || (e.key, e.reserved) in r
  {
    if r != [] {
      var front := r[..|r| - 1];
      assert r == front + [r[|r| - 1]];
      var (before, logged) := SettleAll(p, counters, log, begun, front, outcome, now);
      SettledOneLog(p, before, logged, begun, r[|r| - 1].0, r[|r| - 1].1, outcome, now, e);
      if e in logged {
        SettledLog(p, counters, log, begun, front, outcome, now, e);
      } else {
        assert r[|r| - 1] == (e.key, e.reserved);
      }
    }
  }

  lemma {:induction false} SettleStaysOnTime(
    p: Policy, counters: Counters, log: seq<Entry>, begun: Instant, r: Reserved, outcome: Outcome, now: Instant,
    k: Key)
    requires (k, false) !in r && forall e :: e in log && e.key == k ==> e.reserved
    ensures forall e :: e in SettleAll(p, counters, log, begun, r, outcome, now).1 && e.key == k ==> e.reserved
  {
    forall e | e in SettleAll(p, counters, log, begun, r, outcome, now).1 && e.key == k ensures e.reserved {
      SettledLog(p, counters, log, begun, r, outcome, now, e);
    }
  }

  lemma {:induction false} SettleStepStaysOnTime(p: Policy, s: State, id: nat, outcome: Outcome, k: Key)
    requires OnTime(s, k)
    ensures OnTime(SettleStep(p, s, id, outcome), k)
  {
    if id in s.attempts {
      SettleStaysOnTime(p, s.counters, s.log, s.attempts[id].begun, s.attempts[id].keys, outcome, s.now, k);
    }
  }

  lemma {:induction false} StepStaysOnTime(p: Policy, s: State, a: Action, k: Key)
    requires OnTime(s, k) && !Uncounted(p, s, a, k)
    ensures OnTime(Step(p, s, a), k)
  {
    match a
    case Tick(_) =>
    case Begin(id, name, address) =>
      var keys := KeysOf(p, name, address);
      if !(id in s.attempts || Refuses(p, s, keys)) {
        var r := ReserveAll(p, s.counters, keys, s.now);
        if r.full {
          SettleStaysOnTime(p, r.counters, s.log, s.now, r.reserved, Refunded, s.now, k);
        }
      }
    case Settle(id, outcome) => SettleStepStaysOnTime(p, s, id, outcome, k);
    case Drop(id) => SettleStepStaysOnTime(p, s, id, p.onDrop, k);
  }

  /** No step of the run lets an attempt through without counting it against `k`; other keys do not
      matter. */
  ghost predicate AllCounted(p: Policy, schedule: seq<Action>, k: Key) {
    forall i :: 0 <= i < |schedule| ==> CountedAt(p, schedule, i, k)
  }

  predicate CountedAt(p: Policy, schedule: seq<Action>, i: nat, k: Key)
    requires i < |schedule|
  {
    !Uncounted(p, Run(Next(p), INIT, schedule[..i]), schedule[i], k)
  }

  lemma {:induction false} PrefixIsCounted(p: Policy, schedule: seq<Action>, shorter: seq<Action>, k: Key)
    requires AllCounted(p, schedule, k) && shorter <= schedule
    ensures AllCounted(p, shorter, k)
  {
    forall i | 0 <= i < |shorter| ensures CountedAt(p, shorter, i, k) {
      assert CountedAt(p, schedule, i, k);
      assert shorter[..i] == schedule[..i];
    }
  }

  lemma {:induction false} CountedIsOnTime(p: Policy, schedule: seq<Action>, k: Key)
    requires AllCounted(p, schedule, k)
    ensures OnTime(Run(Next(p), INIT, schedule), k)
  {
    if schedule != [] {
      var last := |schedule| - 1;
      PrefixIsCounted(p, schedule, schedule[..last], k);
      assert CountedAt(p, schedule, last, k);
      CountedIsOnTime(p, schedule[..last], k);
      StepStaysOnTime(p, Run(Next(p), INIT, schedule[..last]), schedule[last], k);
    }
  }

  lemma ClosedIsCounted(p: Policy, schedule: seq<Action>, k: Key)
    requires p.failClosed
    ensures AllCounted(p, schedule, k)
  {
    forall i | 0 <= i < |schedule| ensures CountedAt(p, schedule, i, k) {
      ClosedCountsEverything(p, Run(Next(p), INIT, schedule[..i]), schedule[i], k);
    }
  }

  lemma {:induction false} NoneLate(es: seq<Entry>, since: Instant)
    requires forall e :: e in es ==> e.reserved
    ensures Filter(es, Late(since)) == [] && Filter(es, InTime(since)) == Filter(es, OfWindow(since))
  {
    if es != [] {
      assert es[0] in es;
      assert forall e :: e in es[1..] ==> e in es;
      NoneLate(es[1..], since);
    }
  }

  lemma {:induction false} EntriesHold(log: seq<Entry>, k: Key)
    ensures forall e :: e in Entries(log, k) <==> e in log && e.key == k
  {
    forall e ensures e in Entries(log, k) <==> e in log && e.key == k {
      FilterHolds(log, OfKey(k), e);
    }
  }

  /** Where nothing on a key went uncounted, its attempts in flight and its failures together never
      pass the limit. */
  lemma {:induction false} CountedBurstsAreBounded(p: Policy, schedule: seq<Action>, k: Key)
    requires Sensible(p) && AllCounted(p, schedule, k)
    ensures
      var s := Run(Next(p), INIT, schedule);
      Count(s.attempts, Holds(k)) + (if k in s.counters then s.counters[k].failures else 0) <= RuleOf(p, k).limit
  {
    var s := Run(Next(p), INIT, schedule);
    BurstsAreBounded(p, schedule, k);
    CountedIsOnTime(p, schedule, k);
    EntriesHold(s.log, k);
    if k in s.counters {
      NoneLate(Entries(s.log, k), s.counters[k].since);
    }
  }

  // Failures over time.

  /** The failures of `es` from attempts that held reservations, at `lo` or later and before `hi`. */
  function InSpan(lo: Instant, hi: Instant): Entry -> bool {
    (e: Entry) => lo <= e.at < hi && e.reserved
  }

  lemma {:induction false} FilterCovered<T>(s: seq<T>, keep: T -> bool, a: T -> bool, b: T -> bool)
    requires forall x :: x in s && keep(x) ==> a(x) || b(x)
    ensures |Filter(s, keep)| <= |Filter(s, a)| + |Filter(s, b)|
  {
    if s != [] {
      assert s[0] in s && forall x :: x in s[1..] ==> x in s;
      FilterCovered(s[1..], keep, a, b);
    }
  }

  /** Three windows do not meet in one span no longer than a window. */
  lemma {:induction false} ThreeWindowsAreTooMany(
    es: seq<Entry>, rule: Rule, lo: Instant, hi: Instant, e: Entry, f: Entry, g: Entry)
    requires LogOk(es, rule) && rule.window > 0 && hi <= lo + rule.window && e in es && f in es && g in es
    requires lo <= e.at < hi && lo <= f.at < hi && lo <= g.at < hi
    ensures e.since == f.since || f.since == g.since || e.since == g.since
  {
  }

  /** A span no longer than a window holds the failures of two windows at most. */
  lemma {:induction false} TwoWindows(
    es: seq<Entry>, rule: Rule, lo: Instant, hi: Instant) returns (x: Instant, y: Instant)
    requires LogOk(es, rule) && rule.window > 0 && hi <= lo + rule.window
    ensures forall e :: e in es && InSpan(lo, hi)(e) ==> e.since == x || e.since == y
    ensures x != y ==> exists e, g ::
              e in es && g in es && InSpan(lo, hi)(e) && InSpan(lo, hi)(g) && e.since == x && g.since == y
  {
    x, y := 0, 0;
    if e :| e in es && InSpan(lo, hi)(e) {
      x, y := e.since, e.since;
      if g :| g in es && InSpan(lo, hi)(g) && g.since != e.since {
        y := g.since;
        forall f | f in es && InSpan(lo, hi)(f) ensures f.since == x || f.since == y {
          ThreeWindowsAreTooMany(es, rule, lo, hi, e, f, g);
        }
      }
    }
  }

  lemma {:induction false} SpanIsSmall(es: seq<Entry>, rule: Rule, lo: Instant, hi: Instant)
    requires LogOk(es, rule) && rule.window > 0 && hi <= lo + rule.window
    ensures |Filter(es, InSpan(lo, hi))| <= 2 * rule.limit
  {
    var x, y := TwoWindows(es, rule, lo, hi);
    FilterCovered(es, InSpan(lo, hi), InTime(x), InTime(y));
    assert |Filter(es, InTime(x))| <= rule.limit && |Filter(es, InTime(y))| <= rule.limit;
  }

  /** In any span of time no longer than its window, an address sees at most twice the limit's worth
      of failures of attempts that were reserved against it, whatever else went uncounted. */
  lemma {:induction false} FailuresAreFew(p: Policy, schedule: seq<Action>, k: Key, lo: Instant, hi: Instant)
    requires Sensible(p) && k.Address? && hi <= lo + RuleOf(p, k).window
    ensures
      var es := Entries(Run(Next(p), INIT, schedule).log, k);
      |Filter(es, InSpan(lo, hi))| <= 2 * RuleOf(p, k).limit
  {
    EveryKeyIsOk(p, schedule, k);
    assert RuleOf(p, k).window > 0;
    SpanIsSmall(Entries(Run(Next(p), INIT, schedule).log, k), RuleOf(p, k), lo, hi);
  }

  // One less where nothing was uncounted and a lock lasts a window.

  lemma {:induction false} FilterSmaller<T>(s: seq<T>, keep: T -> bool, wider: T -> bool)
    requires forall x :: x in s && keep(x) ==> wider(x)
    ensures |Filter(s, keep)| <= |Filter(s, wider)|
    ensures |Filter(s, keep)| == |Filter(s, wider)| ==> forall x :: x in s && wider(x) ==> keep(x)
  {
    if s != [] {
      assert s[0] in s && forall x :: x in s[1..] ==> x in s;
      FilterSmaller(s[1..], keep, wider);
    }
  }

  function InBoth(since: Instant, lo: Instant, hi: Instant): Entry -> bool {
    (e: Entry) => InTime(since)(e) && InSpan(lo, hi)(e)
  }

  /** A window that filled up within the span keeps the next from beginning in it. */
  lemma {:induction false} FullWindowIsFollowedLate(
    es: seq<Entry>, rule: Rule, lo: Instant, hi: Instant, x: Instant, g: Entry)
    requires LogOk(es, rule) && rule.lock >= rule.window && hi <= lo + rule.window && forall e :: e in es ==> e.reserved
    requires g in es && InSpan(lo, hi)(g) && exists e :: e in es && e.since == x && Past(es, e, g.since, rule)
    ensures |Filter(es, InBoth(x, lo, hi))| < rule.limit
  {
    NoneLate(es, x);
    FilterSmaller(es, InBoth(x, lo, hi), InTime(x));
    assert |Filter(es, InTime(x))| <= rule.limit;
    var e :| e in es && e.since == x && Past(es, e, g.since, rule);
    if |Filter(es, OfWindow(x))| >= rule.limit {
      var f :| f in es && f.since == x && f.at + rule.lock <= g.since;
      assert InTime(x)(f) && !InBoth(x, lo, hi)(f);
    }
  }

  lemma {:induction false} CountedSpanIsSmaller(es: seq<Entry>, rule: Rule, lo: Instant, hi: Instant)
    requires LogOk(es, rule) && rule.window > 0 && rule.limit > 0 && rule.lock >= rule.window
    requires hi <= lo + rule.window && forall e :: e in es ==> e.reserved
    ensures |Filter(es, InSpan(lo, hi))| < 2 * rule.limit
  {
    var x, y := TwoWindows(es, rule, lo, hi);
    FilterCovered(es, InSpan(lo, hi), InBoth(x, lo, hi), InBoth(y, lo, hi));
    FilterSmaller(es, InBoth(x, lo, hi), InTime(x));
    FilterSmaller(es, InBoth(y, lo, hi), InTime(y));
    assert |Filter(es, InTime(x))| <= rule.limit && |Filter(es, InTime(y))| <= rule.limit;
    if x == y {
      FilterSmaller(es, InSpan(lo, hi), InBoth(x, lo, hi));
    } else {
      var e, g :| e in es && g in es && InSpan(lo, hi)(e) && InSpan(lo, hi)(g) && e.since == x && g.since == y;
      if Past(es, e, g.since, rule) {
        FullWindowIsFollowedLate(es, rule, lo, hi, x, g);
      } else {
        FullWindowIsFollowedLate(es, rule, lo, hi, y, e);
      }
    }
  }

  /** And where nothing on the address went uncounted and a lock lasts at least a window, one less:
      every failure there counts, and twice the limit's worth do not fit in a window. */
  lemma {:induction false} CountedFailuresAreFewer(
    p: Policy, schedule: seq<Action>, k: Key, lo: Instant, hi: Instant)
    requires Sensible(p) && AllCounted(p, schedule, k) && k.Address?
    requires RuleOf(p, k).lock >= RuleOf(p, k).window >= hi - lo
    ensures
      var es := Entries(Run(Next(p), INIT, schedule).log, k);
      && (forall e :: e in es ==> e.reserved)
      && |Filter(es, InSpan(lo, hi))| < 2 * RuleOf(p, k).limit
  {
    var s := Run(Next(p), INIT, schedule);
    EveryKeyIsOk(p, schedule, k);
    CountedIsOnTime(p, schedule, k);
    EntriesHold(s.log, k);
    assert RuleOf(p, k).window > 0 && RuleOf(p, k).limit > 0;
    CountedSpanIsSmaller(Entries(s.log, k), RuleOf(p, k), lo, hi);
  }
}
