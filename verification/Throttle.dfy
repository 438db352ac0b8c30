/**
  The limits on failed sign-ins and on sign-ups. An attempt is reserved against each counter it is
  held to from the moment it is let through until it is settled, so a burst sent at once gets as
  far as a sequence would and no further.
*/
module Throttle {
  import opened Wrappers

  type Instant = nat

  datatype Rule = Rule(limit: nat, window: nat, lock: nat)

  /** A name at an address, or an address under the policy's rule at an index. */
  datatype Key = Pair(name: string, address: nat) | Address(address: nat, rule: nat)

  datatype Outcome = Failed | Succeeded | Refunded

  /** Which counters an attempt is held to, whether it is refused when they are full, what one
      dropped unsettled is taken as, and how many counters there are at most. */
  datatype Policy = Policy(
    pair: Option<Rule>, address: seq<Rule>, failClosed: bool, onDrop: Outcome, capacity: nat)

  predicate HasRule(p: Policy, k: Key) {
    match k
    case Pair(_, _) => p.pair.Some?
    case Address(_, rule) => rule < |p.address|
  }

  /** The rule of a key; `ThrottleHistory.EveryKeyHasItsRule` shows that none without one is asked for. */
  function RuleOf(p: Policy, k: Key): Rule {
    if !HasRule(p, k) then Rule(1, 1, 1)
    else if k.Pair? then p.pair.value
    else p.address[k.rule]
  }

  /** Every rule allows something, within some window. */
  ghost predicate Sensible(p: Policy) {
    forall k :: RuleOf(p, k).limit > 0 && RuleOf(p, k).window > 0
  }

  /** The address rules that have a key: an index is one byte. */
  function Windows(p: Policy): nat {
    if |p.address| <= 256 then |p.address| else 256
  }

  /** The keys of an attempt: the name at the address, if one is given and there is a rule for it,
      and the address under each of its rules. */
  function KeysOf(p: Policy, name: Option<string>, address: nat): seq<Key> {
    (if name.Some? && p.pair.Some? then [Pair(name.value, address)] else []) +
    seq(Windows(p), (i: nat) => Address(address, i))
  }

  datatype Counter = Counter(failures: nat, pending: nat, since: Instant, lockedUntil: Option<Instant>)

  function Fresh(now: Instant): Counter {
    Counter(0, 0, now, None)
  }

  predicate Locked(c: Counter, now: Instant) {
    c.lockedUntil.Some? && c.lockedUntil.value > now
  }

  /** Unlocked and past its window: the failures it holds no longer count. */
  predicate Lapsed(c: Counter, rule: Rule, now: Instant) {
    !Locked(c, now) && now >= c.since + rule.window
  }

  predicate Expired(c: Counter, rule: Rule, now: Instant) {
    c.pending == 0 && Lapsed(c, rule, now)
  }

  /** Another attempt must wait: a lock says so, or the attempts in flight counted as the failures
      they may yet be. */
  predicate MustWait(c: Counter, rule: Rule, now: Instant) {
    Locked(c, now) || (if Lapsed(c, rule, now) then 0 else c.failures) + c.pending >= rule.limit
  }

  type Counters = map<Key, Counter>

  /** The counters with one for `key`, made if there is none and restarted if its window has lapsed;
      none when they are full even of entries still worth keeping. */
  function Opened(p: Policy, counters: Counters, key: Key, now: Instant): Option<Counters> {
    var room := if key in counters || |counters| < p.capacity then counters else Unexpired(p, counters, now);
    if key !in room && |room| >= p.capacity then None
    else
      var c := if key in room then room[key] else Fresh(now);
      Some(room[key := if Lapsed(c, RuleOf(p, key), now) then Counter(0, c.pending, now, None) else c])
  }

  function Unexpired(p: Policy, counters: Counters, now: Instant): Counters {
    map k | k in counters && !Expired(counters[k], RuleOf(p, k), now) :: counters[k]
  }

  /** The keys of an attempt, each with whether it holds a reservation there. */
  type Reserved = seq<(Key, bool)>

  /** The counters, what was reserved, and whether a policy that fails closed met a full table. */
  datatype Reservation = Reservation(counters: Counters, reserved: Reserved, full: bool)

  function ReserveOne(p: Policy, r: Reservation, key: Key, now: Instant): Reservation {
    if r.full then r
    else
      match Opened(p, r.counters, key, now)
      case Some(ready) =>
        Reservation(
          ready[key := ready[key].(pending := ready[key].pending + 1)], r.reserved + [(key, true)], false)
      case None =>
        if p.failClosed then r.(full := true) else r.(reserved := r.reserved + [(key, false)])
  }

  /** Reserves each key in turn. */
  function ReserveAll(p: Policy, counters: Counters, keys: seq<Key>, now: Instant): Reservation {
    if keys == [] then Reservation(counters, [], false)
    else ReserveOne(p, ReserveAll(p, counters, keys[..|keys| - 1], now), keys[|keys| - 1], now)
  }

  /** One failure counted: against which key, of an attempt let through when, when it was counted
      and in the window that began when, and whether the attempt held a reservation there. */
  datatype Entry = Entry(key: Key, begun: Instant, at: Instant, since: Instant, reserved: bool)

  function Unreserved(counters: Counters, key: Key, reserved: bool): Counters {
    if reserved && key in counters
    then
      var c := counters[key];
      counters[key := c.(pending := if c.pending == 0 then 0 else c.pending - 1)]
    else counters
  }

  function Failure(c: Counter, rule: Rule, now: Instant): Counter {
    var d := c.(failures := c.failures + 1);
    if d.failures >= rule.limit && !Locked(d, now) then d.(lockedUntil := Some(now + rule.lock)) else d
  }

  /** An entry left holding nothing goes now. */
  function Tidied(counters: Counters, key: Key): Counters {
    if key in counters && counters[key].pending == 0 && counters[key].failures == 0 && counters[key].lockedUntil.None?
    then counters - {key} else counters
  }

  /** A success clears a name at an address; the address keeps its count. */
  function Cleared(counters: Counters, key: Key): Counters {
    if key.Pair? && key in counters then counters[key := counters[key].(failures := 0, lockedUntil := None)]
    else counters
  }

  function SettleOne(
    p: Policy, counters: Counters, log: seq<Entry>, begun: Instant, key: Key, reserved: bool, outcome: Outcome,
    now: Instant)
    : (Counters, seq<Entry>)
  {
    var given := Unreserved(counters, key, reserved);
    match outcome
    case Failed =>
      (match Opened(p, given, key, now)
       case None => (Tidied(given, key), log)
       case Some(ready) =>
         (Tidied(ready[key := Failure(ready[key], RuleOf(p, key), now)], key),
          log + [Entry(key, begun, now, ready[key].since, reserved)]))
    case Succeeded => (Tidied(Cleared(given, key), key), log)
    case Refunded => (Tidied(given, key), log)
  }

  function SettleAll(
    p: Policy, counters: Counters, log: seq<Entry>, begun: Instant, keys: Reserved, outcome: Outcome, now: Instant)
    : (Counters, seq<Entry>)
  {
    if keys == [] then (counters, log)
    else
      var last := |keys| - 1;
      var (before, logged) := SettleAll(p, counters, log, begun, keys[..last], outcome, now);
      SettleOne(p, before, logged, begun, keys[last].0, keys[last].1, outcome, now)
  }

  // The machine.

  /** An attempt in flight: when it was let through, and what it is held to. */
  datatype Attempt = Attempt(begun: Instant, keys: Reserved)

  datatype State = State(now: Instant, counters: Counters, attempts: map<nat, Attempt>, log: seq<Entry>)

  datatype Action =
    | Tick(later: nat)
    | Begin(id: nat, name: Option<string>, address: nat)
    | Settle(id: nat, outcome: Outcome)
    | Drop(id: nat)

  const INIT := State(0, map[], map[], [])

  predicate Refuses(p: Policy, s: State, keys: seq<Key>) {
    exists i :: 0 <= i < |keys| && keys[i] in s.counters && MustWait(s.counters[keys[i]], RuleOf(p, keys[i]), s.now)
  }

  function BeginStep(p: Policy, s: State, id: nat, keys: seq<Key>): State {
    if id in s.attempts || Refuses(p, s, keys) then s
    else
      var r := ReserveAll(p, s.counters, keys, s.now);
      if r.full then
        var (back, log) := SettleAll(p, r.counters, s.log, s.now, r.reserved, Refunded, s.now);
        s.(counters := back, log := log)
      else s.(counters := r.counters, attempts := s.attempts[id := Attempt(s.now, r.reserved)])
  }

  function SettleStep(p: Policy, s: State, id: nat, outcome: Outcome): State {
    if id !in s.attempts then s
    else
      var (counters, log) :=
        SettleAll(p, s.counters, s.log, s.attempts[id].begun, s.attempts[id].keys, outcome, s.now);
      State(s.now, counters, s.attempts - {id}, log)
  }

  function Step(p: Policy, s: State, a: Action): State {
    match a
    case Tick(later) => s.(now := s.now + later)
    case Begin(id, name, address) => BeginStep(p, s, id, KeysOf(p, name, address))
    case Settle(id, outcome) => SettleStep(p, s, id, outcome)
    case Drop(id) => SettleStep(p, s, id, p.onDrop)
  }

  function Next(p: Policy): (State, Action) -> State {
    (s, a) => Step(p, s, a)
  }

  // The two policies. In seconds.

  const CAPACITY := 100_000

  const PAIR := Rule(5, 900, 900)
  const ADDRESS := Rule(10, 60, 60)

  /** Sign-ins: five failures for a name at an address in fifteen minutes, ten from an address in a
      minute. One dropped is given back. */
  const SIGN_IN := Policy(Some(PAIR), [ADDRESS], false, Refunded, CAPACITY)

  const SIGN_UP_BURST := Rule(5, 600, 600)
  const SIGN_UP_DAY := Rule(20, 86_400, 86_400)

  /** Sign-ups: five from an address in ten minutes, twenty in a day. One dropped counts. */
  const SIGN_UP := Policy(None, [SIGN_UP_BURST, SIGN_UP_DAY], true, Failed, CAPACITY)

  lemma PoliciesAreSensible()
    ensures Sensible(SIGN_IN) && Sensible(SIGN_UP)
  {
  }

  predicate NoRepeats(keys: seq<Key>) {
    forall i, j :: 0 <= i < j < |keys| ==> keys[i] != keys[j]
  }

  /** An attempt is held to no key twice, and to none that has no rule. */
  lemma {:induction false} KeysAreDistinct(p: Policy, name: Option<string>, address: nat)
    ensures NoRepeats(KeysOf(p, name, address))
    ensures forall k :: k in KeysOf(p, name, address) ==> HasRule(p, k) && k.address == address
  {
    var pair := if name.Some? && p.pair.Some? then [Pair(name.value, address)] else [];
    var windows := seq(Windows(p), (i: nat) => Address(address, i));
    assert KeysOf(p, name, address) == pair + windows;
    forall i, j | 0 <= i < j < |pair + windows| ensures (pair + windows)[i] != (pair + windows)[j] {
      assert j >= |pair| && (pair + windows)[j] == Address(address, j - |pair|);
    }
  }
}
