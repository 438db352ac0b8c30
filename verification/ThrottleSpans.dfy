/**
  How many attempts are let through in a span of time and not given back, whenever they are settled,
  if ever.
*/
module ThrottleSpans {
  import opened Counting
  import opened Schedules
  import opened Sorting
  import opened Throttle
  import opened ThrottleHistory
  import opened ThrottleLimits
  import opened ThrottleLocks
  import opened ThrottleRuns
  import opened Wrappers

  // Attempts let through and not given back.

  function BegunIn(lo: Instant, hi: Instant): Entry -> bool {
    (e: Entry) => lo <= e.begun < hi
  }

  function HeldFrom(k: Key, lo: Instant, hi: Instant): Attempt -> bool {
    (a: Attempt) => (k, true) in a.keys && lo <= a.begun < hi
  }

  /** Of the attempts on `k` let through at `lo` or later and before `hi`, those that failed or are
      in flight. */
  function Kept(s: State, k: Key, lo: Instant, hi: Instant): nat {
    |Filter(Entries(s.log, k), BegunIn(lo, hi))| + Count(s.attempts, HeldFrom(k, lo, hi))
  }

  ghost predicate Dated(s: State) {
    && (forall e :: e in s.log ==> e.begun <= e.at <= s.now)
    && forall id :: id in s.attempts ==> s.attempts[id].begun <= s.now
  }

  lemma {:induction false} SettleIsDated(
    p: Policy, counters: Counters, log: seq<Entry>, begun: Instant, r: Reserved, outcome: Outcome, now: Instant)
    requires begun <= now && forall e :: e in log ==> e.begun <= e.at <= now
    ensures forall e :: e in SettleAll(p, counters, log, begun, r, outcome, now).1 ==> e.begun <= e.at <= now
  {
    if r != [] {
      SettleIsDated(p, counters, log, begun, r[..|r| - 1], outcome, now);
    }
  }

  lemma {:induction false} StepIsDated(p: Policy, s: State, a: Action)
    requires Dated(s)
    ensures Dated(Step(p, s, a))
  {
    match a
    case Tick(_) =>
    case Begin(id, name, address) =>
      var r := ReserveAll(p, s.counters, KeysOf(p, name, address), s.now);
      SettleIsDated(p, r.counters, s.log, s.now, r.reserved, Refunded, s.now);
    case Settle(id, outcome) =>
      if id in s.attempts {
        SettleIsDated(p, s.counters, s.log, s.attempts[id].begun, s.attempts[id].keys, outcome, s.now);
      }
    case Drop(id) =>
      if id in s.attempts {
        SettleIsDated(p, s.counters, s.log, s.attempts[id].begun, s.attempts[id].keys, p.onDrop, s.now);
      }
  }

  lemma {:induction false} RunIsDated(p: Policy, schedule: seq<Action>)
    ensures Dated(Run(Next(p), INIT, schedule))
  {
    forall s, a | Dated(s) ensures Dated(Next(p)(s, a)) {
      StepIsDated(p, s, a);
    }
    RunKeeps(Next(p), s => Dated(s), INIT, schedule);
  }

  lemma {:induction false} OneMoreBegun(
    es: seq<Entry>, longer: seq<Entry>, k: Key, begun: Instant, now: Instant, lo: Instant, hi: Instant)
    requires Added(es, longer, k, begun, now, true)
    ensures |Filter(longer, BegunIn(lo, hi))| == |Filter(es, BegunIn(lo, hi))| + if lo <= begun < hi then 1 else 0
  {
    var e := longer[|es|];
    assert longer == es + [e];
    FilterJoined(es, [e], BegunIn(lo, hi));
  }

  /** Settling turns an attempt in flight into a failure, or gives it back. */
  lemma {:induction false} SettleKeepsNoMore(
    p: Policy, s: State, id: nat, outcome: Outcome, k: Key, lo: Instant, hi: Instant)
    requires Inv(p, s) && OnTime(s, k)
    ensures Kept(SettleStep(p, s, id, outcome), k, lo, hi) <= Kept(s, k, lo, hi)
  {
    if id in s.attempts {
      var a, es := s.attempts[id], Entries(s.log, k);
      CountRemove(s.attempts, HeldFrom(k, lo, hi), id);
      SettledEntries(p, s.counters, s.log, a.begun, a.keys, outcome, s.now, k);
      var longer := Entries(SettleStep(p, s, id, outcome).log, k);
      if longer != es {
        TouchedSomehow(a.keys, k);
        OneMoreBegun(es, longer, k, a.begun, s.now, lo, hi);
      }
    }
  }

  lemma {:induction false} BeginKeepsNoMore(
    p: Policy, s: State, id: nat, name: Option<string>, address: nat, k: Key, lo: Instant, hi: Instant)
    requires s.now >= hi
    ensures Kept(Step(p, s, Begin(id, name, address)), k, lo, hi) <= Kept(s, k, lo, hi)
  {
    var keys := KeysOf(p, name, address);
    var r := ReserveAll(p, s.counters, keys, s.now);
    KeysAreDistinct(p, name, address);
    ReservedAreAsked(p, s.counters, keys, s.now);
    AskedAreDistinct(p, r, keys);
    SettledEntries(p, r.counters, s.log, s.now, r.reserved, Refunded, s.now, k);
    CountUpdate(s.attempts, HeldFrom(k, lo, hi), id, Attempt(s.now, r.reserved));
  }

  lemma {:induction false} StepKeepsNoMore(p: Policy, s: State, a: Action, k: Key, lo: Instant, hi: Instant)
    requires Inv(p, s) && OnTime(s, k) && s.now >= hi
    ensures Kept(Step(p, s, a), k, lo, hi) <= Kept(s, k, lo, hi)
  {
    match a
    case Tick(_) =>
    case Begin(id, name, address) => BeginKeepsNoMore(p, s, id, name, address, k, lo, hi);
    case Settle(id, outcome) => SettleKeepsNoMore(p, s, id, outcome, k, lo, hi);
    case Drop(id) => SettleKeepsNoMore(p, s, id, p.onDrop, k, lo, hi);
  }

  // While the span lasts.

  /** Two windows before the one a counter is in are too many for a span that still lasts. */
  lemma {:induction false} OneWindowBefore(
    es: seq<Entry>, rule: Rule, lo: Instant, hi: Instant, since: Instant, e: Entry, g: Entry)
    requires LogOk(es, rule) && rule.window > 0 && since < hi <= lo + rule.window
    requires e in es && g in es && InSpan(lo, hi)(e) && InSpan(lo, hi)(g)
    requires Past(es, e, since, rule) && Past(es, g, since, rule)
    ensures e.since == g.since
  {
  }

  /** A window past by then did not fill up within the span, if a lock lasts as long as the span. */
  lemma {:induction false} PastWindowIsShort(
    es: seq<Entry>, rule: Rule, lo: Instant, hi: Instant, since: Instant, e: Entry)
    requires LogOk(es, rule) && rule.lock >= rule.window && since < hi <= lo + rule.window
    requires (forall x :: x in es ==> x.reserved) && e in es && InSpan(lo, hi)(e) && Past(es, e, since, rule)
    ensures |Filter(es, InBoth(e.since, lo, hi))| < rule.limit
  {
    NoneLate(es, e.since);
    FilterSmaller(es, InBoth(e.since, lo, hi), InTime(e.since));
    assert |Filter(es, InTime(e.since))| <= rule.limit;
    if |Filter(es, OfWindow(e.since))| >= rule.limit {
      var f :| f in es && f.since == e.since && f.at + rule.lock <= since;
      assert InTime(e.since)(f) && !InBoth(e.since, lo, hi)(f);
    }
  }

  /** Those of windows past by `since`, which is still within the span, are short of the limit. */
  lemma {:induction false} PastIsShort(es: seq<Entry>, rule: Rule, lo: Instant, hi: Instant, since: Instant)
    requires LogOk(es, rule) && rule.limit > 0 && rule.window > 0 && rule.lock >= rule.window
    requires since < hi <= lo + rule.window && forall x :: x in es ==> x.reserved
    requires forall x :: x in es ==> x.since == since || Past(es, x, since, rule)
    ensures |Filter(es, InSpan(lo, hi))| < rule.limit + |Filter(es, OfWindow(since))|
  {
    if e :| e in es && InSpan(lo, hi)(e) && e.since != since {
      forall x | x in es && InSpan(lo, hi)(x) ensures InBoth(e.since, lo, hi)(x) || OfWindow(since)(x) {
        if x.since != since {
          OneWindowBefore(es, rule, lo, hi, since, e, x);
        }
      }
      PastWindowIsShort(es, rule, lo, hi, since, e);
      FilterCovered(es, InSpan(lo, hi), InBoth(e.since, lo, hi), OfWindow(since));
    } else {
      FilterSmaller(es, InSpan(lo, hi), OfWindow(since));
    }
  }

  /** Counted in the span so far and in flight, together: fewer than twice the limit. */
  lemma {:induction false} SoFarIsShort(
    k: Key, c: Option<Counter>, pending: nat, es: seq<Entry>, rule: Rule, now: Instant, lo: Instant, hi: Instant)
    requires KeyOk(k, c, pending, es, rule, now) && k.Address? && forall x :: x in es ==> x.reserved
    requires rule.limit > 0 && rule.window > 0 && rule.lock >= rule.window && now < hi <= lo + rule.window
    ensures |Filter(es, InSpan(lo, hi))| + pending < 2 * rule.limit
  {
    if c.Some? {
      NoneLate(es, c.value.since);
      PastIsShort(es, rule, lo, hi, c.value.since);
    } else {
      forall x | x in es ensures Past(es, x, now, rule) {
      }
      PastIsShort(es, rule, lo, hi, now);
      forall x | x in es ensures x.since != now {
        assert Past(es, x, now, rule);
      }
      NoneOfWindow(es, now);
    }
  }

  lemma {:induction false} KeptSoFar(p: Policy, schedule: seq<Action>, k: Key, lo: Instant, hi: Instant)
    requires Sensible(p) && AllCounted(p, schedule, k) && k.Address? && Run(Next(p), INIT, schedule).now < hi
    requires RuleOf(p, k).lock >= RuleOf(p, k).window >= hi - lo
    ensures Kept(Run(Next(p), INIT, schedule), k, lo, hi) < 2 * RuleOf(p, k).limit
  {
    var s, rule := Run(Next(p), INIT, schedule), RuleOf(p, k);
    var es := Entries(s.log, k);
    EveryKeyIsOk(p, schedule, k);
    CountedIsOnTime(p, schedule, k);
    EntriesHold(s.log, k);
    RunIsDated(p, schedule);
    assert rule.limit > 0 && rule.window > 0;
    SoFarIsShort(k, At(s.counters, k), Count(s.attempts, Holds(k)), es, rule, s.now, lo, hi);
    FilterSmaller(es, BegunIn(lo, hi), InSpan(lo, hi));
    CountNarrower(s.attempts, HeldFrom(k, lo, hi), Holds(k));
  }

  /** Of the attempts let through in any span no longer than the window, fewer than twice the limit
      are not given back, where nothing on the address went uncounted and a lock lasts a window: it
      makes no difference when those in flight fail, are dropped, or whether they ever do. */
  lemma {:induction false} LetThroughAreFew(p: Policy, schedule: seq<Action>, k: Key, lo: Instant, hi: Instant)
    requires Sensible(p) && AllCounted(p, schedule, k) && k.Address?
    requires RuleOf(p, k).lock >= RuleOf(p, k).window >= hi - lo
    ensures Kept(Run(Next(p), INIT, schedule), k, lo, hi) < 2 * RuleOf(p, k).limit
  {
    if Run(Next(p), INIT, schedule).now < hi {
      KeptSoFar(p, schedule, k, lo, hi);
    } else if schedule == [] {
      assert RuleOf(p, k).limit > 0;
      CountNone(INIT.attempts, HeldFrom(k, lo, hi));
    } else {
      var front, last := schedule[..|schedule| - 1], schedule[|schedule| - 1];
      PrefixIsCounted(p, schedule, front, k);
      LetThroughAreFew(p, front, k, lo, hi);
      var s := Run(Next(p), INIT, front);
      if s.now >= hi {
        RunKeepsInv(p, front);
        CountedIsOnTime(p, front, k);
        StepKeepsNoMore(p, s, last, k, lo, hi);
      }
    }
  }
}
