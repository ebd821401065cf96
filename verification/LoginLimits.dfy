/** Wrong-code limits of the captive portal (backend/src/portal/login_limits.py, called
    from backend/src/portal/routes.py). Any number of attempts are in flight at once: each
    one checks two counters, looks its code up, and only then, if the code is unknown,
    counts the failure. The clock moves and windows lapse in between. */
module LoginLimits {
  import FailOpenLog
  import opened Options
  import opened Redis
  import Sequences

  const WINDOW_SECONDS: nat := 900
  const ALERT_DEDUPE_SECONDS: nat := 3600

  datatype Limits = Limits(device: nat, ip: nat, operatorAlert: nat)

  /** mac: normalised, or None when the client sent none or a malformed one. */
  datatype Attempt = Attempt(operator: string, ip: string, mac: Option<string>)

  const PREFIX := "rl:portal-auth-fail"
  const ALERT_PREFIX := "rl:portal-auth-alert"

  function DeviceKey(a: Attempt): string {
    if a.mac.Some? then PREFIX + ":mac:" + a.mac.value else PREFIX + ":nomac:" + a.ip
  }

  function IpKey(a: Attempt): string { PREFIX + ":ip:" + a.ip }

  function OperatorKey(a: Attempt): string { PREFIX + ":op:" + a.operator }

  datatype Kind = SiteBlocked | GuessingSuspected

  function AlertKey(kind: Kind, operator: string): string {
    ALERT_PREFIX + (if kind.SiteBlocked? then ":site_blocked:" else ":guessing_suspected:") + operator
  }

  lemma KeysDiffer(a: Attempt, b: Attempt, kind: Kind, operator: string)
    ensures DeviceKey(a) != IpKey(b) && DeviceKey(a) != OperatorKey(b) && IpKey(a) != OperatorKey(b)
    ensures AlertKey(kind, operator) !in {DeviceKey(a), IpKey(a), OperatorKey(a)}
  {
    assert DeviceKey(a)[20] in "mn" && IpKey(b)[20] == 'i' && OperatorKey(b)[20] == 'o' && IpKey(a)[20] == 'i';
    assert AlertKey(kind, operator)[15] == 'a';
    assert DeviceKey(a)[15] == 'f' && IpKey(a)[15] == 'f' && OperatorKey(a)[15] == 'f';
  }

  lemma SameTail(head: string, x: string, y: string)
    ensures head + x == head + y <==> x == y
  {
    assert (head + x)[|head|..] == x && (head + y)[|head|..] == y;
  }

  /** Whose failures are counted together: those of one address; those of one operator; and those
      of one MAC, or, without a MAC, of one address. */
  lemma KeysShared(a: Attempt, b: Attempt)
    ensures IpKey(a) == IpKey(b) <==> a.ip == b.ip
    ensures OperatorKey(a) == OperatorKey(b) <==> a.operator == b.operator
    ensures DeviceKey(a) == DeviceKey(b) <==>
            if a.mac.Some? || b.mac.Some? then a.mac == b.mac else a.ip == b.ip
  {
    SameTail(PREFIX + ":ip:", a.ip, b.ip);
    SameTail(PREFIX + ":op:", a.operator, b.operator);
    SameTail(PREFIX + ":nomac:", a.ip, b.ip);
    if a.mac.Some? && b.mac.Some? { SameTail(PREFIX + ":mac:", a.mac.value, b.mac.value); }
    assert a.mac.Some? ==> DeviceKey(a)[20] == 'm';
    assert a.mac.None? ==> DeviceKey(a)[20] == 'n';
    assert b.mac.Some? ==> DeviceKey(b)[20] == 'm';
    assert b.mac.None? ==> DeviceKey(b)[20] == 'n';
  }

  /** And alerts are held back together when they are of one kind for one operator. */
  lemma AlertKeysShared(kind: Kind, operator: string, other: Kind, otherOperator: string)
    ensures AlertKey(kind, operator) == AlertKey(other, otherOperator) <==> kind == other && operator == otherOperator
  {
    SameTail(ALERT_PREFIX + ":site_blocked:", operator, otherOperator);
    SameTail(ALERT_PREFIX + ":guessing_suspected:", operator, otherOperator);
    assert AlertKey(SiteBlocked, operator)[21] == 's' && AlertKey(SiteBlocked, otherOperator)[21] == 's';
    assert AlertKey(GuessingSuspected, operator)[21] == 'g' && AlertKey(GuessingSuspected, otherOperator)[21] == 'g';
  }

  // ------------------------------------------------------------------- the steps

  datatype Alert = Alert(kind: Kind, operator: string, at: nat)

  datatype Todo = Todo(operator: string, kinds: seq<Kind>)

  /** flying: past check, not yet answered. alerting: counted, alerts still to claim. */
  datatype State = State(
    now: nat,
    store: Store,
    flying: map<nat, Attempt>,
    alerting: map<nat, Todo>,
    alerts: seq<Alert>)

  const INITIAL := State(0, map[], map[], map[], [])

  datatype Step =
    | Tick(seconds: nat)
    | Check(id: nat, attempt: Attempt)
    | KnownCode(id: nat)
    | UnknownCode(id: nat)
    | ClaimAlert(id: nat)

  predicate Blocked(l: Limits, now: nat, store: Store, a: Attempt) {
    Redis.Count(store, now, DeviceKey(a)) >= l.device || Redis.Count(store, now, IpKey(a)) >= l.ip
  }

  /** record_failure's MULTI. */
  function CountFailure(now: nat, store: Store, a: Attempt): Store {
    Hit(Hit(Hit(store, now, DeviceKey(a), WINDOW_SECONDS), now, IpKey(a), WINDOW_SECONDS),
        now, OperatorKey(a), WINDOW_SECONDS)
  }

  function AlertKinds(l: Limits, now: nat, counted: Store, a: Attempt): seq<Kind> {
    (if Redis.Count(counted, now, IpKey(a)) == l.ip then [SiteBlocked] else [])
    + (if Redis.Count(counted, now, OperatorKey(a)) >= l.operatorAlert then [GuessingSuspected] else [])
  }

  function Next(l: Limits, s: State, step: Step): State {
    match step
    case Tick(seconds) => s.(now := s.now + seconds)
    case Check(id, a) =>
      if id in s.flying || Blocked(l, s.now, s.store, a) then s else s.(flying := s.flying[id := a])
    case KnownCode(id) => s.(flying := s.flying - {id})
    case UnknownCode(id) =>
      if id !in s.flying then s
      else
        var a := s.flying[id];
        var counted := CountFailure(s.now, s.store, a);
        s.(store := counted, flying := s.flying - {id},
           alerting := s.alerting[id := Todo(a.operator, AlertKinds(l, s.now, counted, a))])
    case ClaimAlert(id) =>
      if id !in s.alerting || s.alerting[id].kinds == [] then s
      else
        var todo := s.alerting[id];
        var key := AlertKey(todo.kinds[0], todo.operator);
        var left := s.alerting[id := todo.(kinds := todo.kinds[1..])];
        if Live(s.store, s.now, key) then s.(alerting := left)
        else s.(store := SetNxEx(s.store, s.now, key, ALERT_DEDUPE_SECONDS), alerting := left,
                alerts := s.alerts + [Alert(todo.kinds[0], todo.operator, s.now)])
  }

  function Exec(l: Limits, s: State, steps: seq<Step>): State
    decreases |steps|
  {
    if steps == [] then s else Exec(l, Next(l, s, steps[0]), steps[1..])
  }

  /** Only an unknown code changes a counter. */
  lemma OnlyUnknownCodesCount(l: Limits, s: State, step: Step, a: Attempt)
    requires Redis.Count(Next(l, s, step).store, s.now, DeviceKey(a)) != Redis.Count(s.store, s.now, DeviceKey(a))
          || Redis.Count(Next(l, s, step).store, s.now, IpKey(a)) != Redis.Count(s.store, s.now, IpKey(a))
          || Redis.Count(Next(l, s, step).store, s.now, OperatorKey(a)) != Redis.Count(s.store, s.now, OperatorKey(a))
    ensures step.UnknownCode? && step.id in s.flying
  {
    if step.ClaimAlert? && step.id in s.alerting && s.alerting[step.id].kinds != [] {
      KeysDiffer(a, a, s.alerting[step.id].kinds[0], s.alerting[step.id].operator);
    }
  }

  // -------------------------------------------------------- the wrong-code bound

  predicate Uses(a: Attempt, key: string) { DeviceKey(a) == key || IpKey(a) == key }

  function Users(s: State, key: string): set<nat> { set id <- s.flying.Keys | Uses(s.flying[id], key) }

  /** The limit check holds attempts to on this key: one for every attempt that uses it. */
  ghost predicate IsLimitOf(l: Limits, key: string, limit: nat) {
    || (limit == l.ip && exists a: Attempt {:trigger IpKey(a)} :: IpKey(a) == key)
    || (limit == l.device && exists a: Attempt {:trigger DeviceKey(a)} :: DeviceKey(a) == key)
  }

  ghost predicate Bounded(s: State, key: string, limit: nat, k: nat) {
    Redis.Count(s.store, s.now, key) + |Users(s, key)| <= limit - 1 + k
  }

  /** At most k attempts on the key are between check and record_failure, all along. */
  predicate AtMostInFlight(l: Limits, s: State, steps: seq<Step>, key: string, k: nat)
    decreases |steps|
  {
    |Users(s, key)| <= k && (steps == [] || AtMostInFlight(l, Next(l, s, steps[0]), steps[1..], key, k))
  }

  lemma PassedCheck(l: Limits, now: nat, store: Store, a: Attempt, key: string, limit: nat)
    requires IsLimitOf(l, key, limit) && Uses(a, key) && !Blocked(l, now, store, a)
    ensures Redis.Count(store, now, key) < limit
  {
    if limit == l.ip && exists b: Attempt {:trigger IpKey(b)} :: IpKey(b) == key {
      var b: Attempt :| IpKey(b) == key;
      KeysDiffer(a, b, SiteBlocked, "");
    } else {
      var b: Attempt :| DeviceKey(b) == key;
      KeysDiffer(b, a, SiteBlocked, "");
    }
  }

  lemma FailureCountsOnce(now: nat, store: Store, a: Attempt, key: string)
    requires exists b: Attempt {:trigger Uses(b, key)} :: Uses(b, key)
    ensures Redis.Count(CountFailure(now, store, a), now, key) ==
            Redis.Count(store, now, key) + if Uses(a, key) then 1 else 0
  {
    var b :| Uses(b, key);
    KeysDiffer(a, a, SiteBlocked, ""); KeysDiffer(b, a, SiteBlocked, "");
    var one := Hit(store, now, DeviceKey(a), WINDOW_SECONDS);
    var two := Hit(one, now, IpKey(a), WINDOW_SECONDS);
    HitCounts(store, now, DeviceKey(a), key);
    HitCounts(one, now, IpKey(a), key);
    HitCounts(two, now, OperatorKey(a), key);
  }

  lemma OperatorCountsOnce(now: nat, store: Store, a: Attempt)
    ensures Redis.Count(CountFailure(now, store, a), now, OperatorKey(a)) == Redis.Count(store, now, OperatorKey(a)) + 1
  {
    KeysDiffer(a, a, SiteBlocked, "");
    HitCounts(store, now, DeviceKey(a), OperatorKey(a));
    HitCounts(Hit(store, now, DeviceKey(a), WINDOW_SECONDS), now, IpKey(a), OperatorKey(a));
  }

  lemma HitCounts(store: Store, now: nat, hit: string, key: string)
    ensures Redis.Count(Hit(store, now, hit, WINDOW_SECONDS), now, key) ==
            Redis.Count(store, now, key) + if hit == key then 1 else 0
  {}

  lemma UsersAfterLeaving(s: State, id: nat, key: string)
    ensures Users(s.(flying := s.flying - {id}), key) == Users(s, key) - {id}
  {}

  lemma StepKeepsBound(l: Limits, s: State, step: Step, key: string, limit: nat, k: nat)
    requires IsLimitOf(l, key, limit)
    requires Bounded(s, key, limit, k)
    requires |Users(Next(l, s, step), key)| <= k
    ensures Bounded(Next(l, s, step), key, limit, k)
  {
    hide CountFailure, AlertKinds, Blocked, DeviceKey, IpKey, OperatorKey, AlertKey;
    assert exists b: Attempt {:trigger Uses(b, key)} :: Uses(b, key) by {
      if b: Attempt :| IpKey(b) == key { assert Uses(b, key); }
      else { var b: Attempt :| DeviceKey(b) == key; assert Uses(b, key); }
    }
    var t := Next(l, s, step);
    match step
    case Tick(_) => assert Users(t, key) == Users(s, key);
    case Check(id, a) =>
      if t != s {
        if Uses(a, key) {
          PassedCheck(l, s.now, s.store, a, key, limit);
        } else {
          assert Users(t, key) == Users(s, key);
        }
      }
    case KnownCode(id) => UsersAfterLeaving(s, id, key);
    case UnknownCode(id) =>
      if id in s.flying {
        UsersAfterLeaving(s, id, key);
        assert Users(t, key) == Users(s, key) - {id};
        FailureCountsOnce(s.now, s.store, s.flying[id], key);
        assert Uses(s.flying[id], key) ==> id in Users(s, key);
      }
    case ClaimAlert(id) =>
      assert Users(t, key) == Users(s, key);
      if id in s.alerting && s.alerting[id].kinds != [] {
        var b :| Uses(b, key);
        KeysDiffer(b, b, s.alerting[id].kinds[0], s.alerting[id].operator);
      }
  }

  lemma {:induction false} RunKeepsBound(l: Limits, s: State, steps: seq<Step>, key: string, limit: nat, k: nat)
    requires IsLimitOf(l, key, limit)
    requires Bounded(s, key, limit, k) && AtMostInFlight(l, s, steps, key, k)
    ensures Bounded(Exec(l, s, steps), key, limit, k)
    decreases |steps|
  {
    if steps != [] {
      StepKeepsBound(l, s, steps[0], key, limit, k);
      RunKeepsBound(l, Next(l, s, steps[0]), steps[1..], key, limit, k);
    }
  }

  /** Whatever MACs, operators and addresses the other attempts use, and however they
      interleave: with at most k attempts on a counter in flight it never passes
      limit - 1 + k. One at a time, it never passes the limit. */
  lemma WrongCodeBound(l: Limits, steps: seq<Step>, key: string, limit: nat, k: nat)
    requires IsLimitOf(l, key, limit) && k > 0
    requires AtMostInFlight(l, INITIAL, steps, key, k)
    ensures var s := Exec(l, INITIAL, steps); Redis.Count(s.store, s.now, key) <= limit - 1 + k
  {
    assert Users(INITIAL, key) == {};
    RunKeepsBound(l, INITIAL, steps, key, limit, k);
  }

  /** The attempts on a key are at most k after every step of a run. */
  lemma {:induction false} InFlightThroughout(l: Limits, s: State, steps: seq<Step>, key: string, k: nat)
    requires forall n | 0 <= n <= |steps| :: |Users(Exec(l, s, steps[..n]), key)| <= k
    ensures AtMostInFlight(l, s, steps, key, k)
    decreases |steps|
  {
    assert Exec(l, s, steps[..0]) == s;
    if steps != [] {
      var rest := steps[1..];
      forall n | 0 <= n <= |rest| ensures |Users(Exec(l, Next(l, s, steps[0]), rest[..n]), key)| <= k {
        assert steps[..n + 1][1..] == rest[..n] && steps[..n + 1][0] == steps[0];
        assert |Users(Exec(l, s, steps[..n + 1]), key)| <= k;
      }
      InFlightThroughout(l, Next(l, s, steps[0]), rest, key, k);
    }
  }

  /** With at most k attempts from one address between check and record_failure at any time,
      its counter never passes the site limit by more than k - 1. */
  lemma AddressBound(l: Limits, steps: seq<Step>, a: Attempt, k: nat)
    requires k > 0
    requires forall n | 0 <= n <= |steps| ::
               var flying := Exec(l, INITIAL, steps[..n]).flying;
               |set id <- flying.Keys | flying[id].ip == a.ip| <= k
    ensures var s := Exec(l, INITIAL, steps); Redis.Count(s.store, s.now, IpKey(a)) <= l.ip - 1 + k
  {
    hide IpKey, DeviceKey, Exec;
    forall n | 0 <= n <= |steps| ensures |Users(Exec(l, INITIAL, steps[..n]), IpKey(a))| <= k {
      var flying := Exec(l, INITIAL, steps[..n]).flying;
      forall id <- flying.Keys ensures Uses(flying[id], IpKey(a)) <==> flying[id].ip == a.ip {
        KeysShared(flying[id], a);
        KeysDiffer(flying[id], a, SiteBlocked, "");
      }
      assert Users(Exec(l, INITIAL, steps[..n]), IpKey(a)) == set id <- flying.Keys | flying[id].ip == a.ip;
    }
    InFlightThroughout(l, INITIAL, steps, IpKey(a), k);
    WrongCodeBound(l, steps, IpKey(a), l.ip, k);
  }

  /** And with at most k from one device, by its MAC or, without one, by its address, its
      counter never passes the device limit by more than k - 1. */
  lemma DeviceBound(l: Limits, steps: seq<Step>, a: Attempt, k: nat)
    requires k > 0
    requires forall n | 0 <= n <= |steps| ::
               var flying := Exec(l, INITIAL, steps[..n]).flying;
               |set id <- flying.Keys |
                  if a.mac.Some? || flying[id].mac.Some? then flying[id].mac == a.mac else flying[id].ip == a.ip| <= k
    ensures var s := Exec(l, INITIAL, steps); Redis.Count(s.store, s.now, DeviceKey(a)) <= l.device - 1 + k
  {
    hide IpKey, DeviceKey, Exec;
    forall n | 0 <= n <= |steps| ensures |Users(Exec(l, INITIAL, steps[..n]), DeviceKey(a))| <= k {
      var flying := Exec(l, INITIAL, steps[..n]).flying;
      forall id <- flying.Keys
        ensures Uses(flying[id], DeviceKey(a)) <==>
                if a.mac.Some? || flying[id].mac.Some? then flying[id].mac == a.mac else flying[id].ip == a.ip
      {
        KeysShared(flying[id], a);
        KeysDiffer(a, flying[id], SiteBlocked, "");
      }
      assert Users(Exec(l, INITIAL, steps[..n]), DeviceKey(a))
          == set id <- flying.Keys |
               if a.mac.Some? || flying[id].mac.Some? then flying[id].mac == a.mac else flying[id].ip == a.ip;
    }
    InFlightThroughout(l, INITIAL, steps, DeviceKey(a), k);
    WrongCodeBound(l, steps, DeviceKey(a), l.device, k);
  }

  // ---------------------------------------------------------- what the counters count

  datatype Failure = Failure(at: nat, attempt: Attempt)

  /** The wrong codes of a run, in order. */
  function FailuresOf(l: Limits, s: State, steps: seq<Step>): seq<Failure>
    decreases |steps|
  {
    if steps == [] then []
    else
      (if steps[0].UnknownCode? && steps[0].id in s.flying then [Failure(s.now, s.flying[steps[0].id])] else [])
      + FailuresOf(l, Next(l, s, steps[0]), steps[1..])
  }

  /** How many of them use a key since an instant. */
  function Since(log: seq<Failure>, key: string, start: int): nat {
    if log == [] then 0
    else
      var last := log[|log| - 1];
      Since(log[..|log| - 1], key, start) + if last.at >= start && Uses(last.attempt, key) then 1 else 0
  }

  /** A running counter holds the failures since its window began, no later than now and less
      than a window ago; one that is not running has no failure at this moment. */
  predicate Counted(now: nat, store: Store, log: seq<Failure>, key: string) {
    && (forall i | 0 <= i < |log| :: log[i].at <= now)
    && (Live(store, now, key) ==>
          && store[key].expiry.Some? && store[key].expiry.value <= now + WINDOW_SECONDS
          && store[key].count == Since(log, key, store[key].expiry.value - WINDOW_SECONDS))
    && (!Live(store, now, key) ==> forall i | 0 <= i < |log| && Uses(log[i].attempt, key) :: log[i].at < now)
  }

  lemma TimeKeepsCounted(now: nat, seconds: nat, store: Store, log: seq<Failure>, key: string)
    requires Counted(now, store, log, key)
    ensures Counted(now + seconds, store, log, key)
  {
    hide Since, Uses;
  }

  lemma SameEntryKeepsCounted(now: nat, store: Store, other: Store, log: seq<Failure>, key: string)
    requires Counted(now, store, log, key)
    requires key in other <==> key in store
    requires key in store ==> other[key] == store[key]
    ensures Counted(now, other, log, key)
  {
    hide Since, Uses;
  }

  lemma {:induction false} NoneSince(log: seq<Failure>, key: string, start: int)
    requires forall i | 0 <= i < |log| && Uses(log[i].attempt, key) :: log[i].at < start
    ensures Since(log, key, start) == 0
    decreases |log|
  {
    hide Uses;
    if log != [] { NoneSince(log[..|log| - 1], key, start); }
  }

  lemma OneMoreSince(log: seq<Failure>, f: Failure, key: string, start: int)
    ensures Since(log + [f], key, start)
            == Since(log, key, start) + if f.at >= start && Uses(f.attempt, key) then 1 else 0
  {
    assert (log + [f])[..|log|] == log;
  }

  /** What a hit leaves under a key: one more in a running window, else the first of a new one. */
  lemma HitEntry(store: Store, now: nat, hit: string, key: string)
    ensures var after := Hit(store, now, hit, WINDOW_SECONDS);
            && (hit != key ==> (key in after <==> key in store) && (key in after ==> after[key] == store[key]))
            && (hit == key && Live(store, now, key) && store[key].expiry.Some? ==>
                  key in after && after[key] == Entry(store[key].count + 1, store[key].expiry))
            && (hit == key && !Live(store, now, key) ==>
                  key in after && after[key] == Entry(1, Some(now + WINDOW_SECONDS)))
  {}

  /** A failure hits each of its keys once and no other. */
  lemma FailureHits(now: nat, store: Store, a: Attempt, key: string)
    requires exists b: Attempt {:trigger Uses(b, key)} :: Uses(b, key)
    requires Live(store, now, key) ==> store[key].expiry.Some?
    ensures var counted := CountFailure(now, store, a);
            && (!Uses(a, key) ==> (key in counted <==> key in store) && (key in counted ==> counted[key] == store[key]))
            && (Uses(a, key) && Live(store, now, key) ==>
                  key in counted && counted[key] == Entry(store[key].count + 1, store[key].expiry))
            && (Uses(a, key) && !Live(store, now, key) ==>
                  key in counted && counted[key] == Entry(1, Some(now + WINDOW_SECONDS)))
  {
    var b :| Uses(b, key);
    KeysDiffer(a, a, SiteBlocked, ""); KeysDiffer(b, a, SiteBlocked, "");
    var one := Hit(store, now, DeviceKey(a), WINDOW_SECONDS);
    var two := Hit(one, now, IpKey(a), WINDOW_SECONDS);
    HitEntry(store, now, DeviceKey(a), key);
    HitEntry(one, now, IpKey(a), key);
    HitEntry(two, now, OperatorKey(a), key);
    hide DeviceKey, IpKey, OperatorKey, Hit;
  }

  lemma FirstOfAWindow(now: nat, store: Store, log: seq<Failure>, f: Failure, key: string)
    requires !Live(store, now, key) && Counted(now, store, log, key) && f.at == now && Uses(f.attempt, key)
    ensures Since(log + [f], key, now) == 1
  {
    hide Uses;
    OneMoreSince(log, f, key, now);
    NoneSince(log, key, now);
  }

  lemma FailureKeepsCounted(now: nat, store: Store, a: Attempt, log: seq<Failure>, key: string)
    requires Counted(now, store, log, key)
    requires exists b: Attempt {:trigger Uses(b, key)} :: Uses(b, key)
    ensures Counted(now, CountFailure(now, store, a), log + [Failure(now, a)], key)
  {
    hide CountFailure, Uses, Since;
    var f := Failure(now, a);
    FailureHits(now, store, a, key);
    if Live(store, now, key) {
      OneMoreSince(log, f, key, store[key].expiry.value - WINDOW_SECONDS);
    } else if Uses(a, key) {
      FirstOfAWindow(now, store, log, f, key);
    }
  }

  lemma ClaimKeepsEntry(l: Limits, s: State, id: nat, key: string)
    requires exists b: Attempt {:trigger Uses(b, key)} :: Uses(b, key)
    ensures var t := Next(l, s, ClaimAlert(id));
            t.now == s.now && (key in t.store <==> key in s.store) && (key in s.store ==> t.store[key] == s.store[key])
  {
    var b :| Uses(b, key);
    if id in s.alerting && s.alerting[id].kinds != [] {
      KeysDiffer(b, b, s.alerting[id].kinds[0], s.alerting[id].operator);
    }
    hide DeviceKey, IpKey, OperatorKey, AlertKey;
  }

  lemma OtherStepKeepsCounted(l: Limits, s: State, step: Step, log: seq<Failure>, key: string)
    requires Counted(s.now, s.store, log, key) && !(step.UnknownCode? && step.id in s.flying)
    requires exists b: Attempt {:trigger Uses(b, key)} :: Uses(b, key)
    ensures Counted(Next(l, s, step).now, Next(l, s, step).store, log, key)
  {
    hide Counted, Uses, Blocked, AlertKinds, AlertKey, CountFailure;
    match step
    case Tick(seconds) => TimeKeepsCounted(s.now, seconds, s.store, log, key);
    case ClaimAlert(id) =>
      ClaimKeepsEntry(l, s, id, key);
      SameEntryKeepsCounted(s.now, s.store, Next(l, s, step).store, log, key);
    case _ =>
  }

  lemma {:induction false} RunKeepsCounted(l: Limits, s: State, steps: seq<Step>, log: seq<Failure>, key: string)
    requires Counted(s.now, s.store, log, key) && exists b: Attempt {:trigger Uses(b, key)} :: Uses(b, key)
    ensures Counted(Exec(l, s, steps).now, Exec(l, s, steps).store, log + FailuresOf(l, s, steps), key)
    decreases |steps|
  {
    hide Counted, Uses, CountFailure, AlertKinds, Blocked, AlertKey;
    if steps == [] {
      assert log + [] == log;
    } else if steps[0].UnknownCode? && steps[0].id in s.flying {
      var f := Failure(s.now, s.flying[steps[0].id]);
      FailureKeepsCounted(s.now, s.store, s.flying[steps[0].id], log, key);
      RunKeepsCounted(l, Next(l, s, steps[0]), steps[1..], log + [f], key);
      var rest := FailuresOf(l, Next(l, s, steps[0]), steps[1..]);
      assert log + [f] + rest == log + ([f] + rest);
    } else {
      OtherStepKeepsCounted(l, s, steps[0], log, key);
      RunKeepsCounted(l, Next(l, s, steps[0]), steps[1..], log, key);
      assert [] + FailuresOf(l, Next(l, s, steps[0]), steps[1..]) == FailuresOf(l, Next(l, s, steps[0]), steps[1..]);
    }
  }

  lemma {:induction false} SinceIs(log: seq<Failure>, key: string, start: int)
    ensures Since(log, key, start) == |set i | 0 <= i < |log| && log[i].at >= start && Uses(log[i].attempt, key)|
    decreases |log|
  {
    hide Uses;
    if log != [] {
      var n := |log| - 1;
      SinceIs(log[..n], key, start);
      Sequences.OneMoreIndex(
        (set i | 0 <= i < |log[..n]| && log[..n][i].at >= start && Uses(log[..n][i].attempt, key)),
        (set i | 0 <= i < |log| && log[i].at >= start && Uses(log[i].attempt, key)),
        n, log[n].at >= start && Uses(log[n].attempt, key));
    }
  }

  lemma CountedWithin(now: nat, store: Store, log: seq<Failure>, key: string)
    requires Counted(now, store, log, key)
    ensures Redis.Count(store, now, key)
            <= |set i | 0 <= i < |log| && log[i].at > now - 900 && Uses(log[i].attempt, key)|
  {
    hide Uses;
    if Live(store, now, key) {
      var start := store[key].expiry.value - WINDOW_SECONDS;
      SinceIs(log, key, start);
      var counted := set i | 0 <= i < |log| && log[i].at >= start && Uses(log[i].attempt, key);
      SmallerIsFewer(counted, set i | 0 <= i < |log| && log[i].at > now - 900 && Uses(log[i].attempt, key));
    }
  }

  lemma CountWithin(l: Limits, steps: seq<Step>, key: string)
    requires exists b: Attempt {:trigger Uses(b, key)} :: Uses(b, key)
    ensures var s, log := Exec(l, INITIAL, steps), FailuresOf(l, INITIAL, steps);
            Redis.Count(s.store, s.now, key)
            <= |set i | 0 <= i < |log| && log[i].at > s.now - 900 && Uses(log[i].attempt, key)|
  {
    assert Counted(INITIAL.now, INITIAL.store, [], key);
    hide Uses, Exec, FailuresOf, Counted;
    var s, log := Exec(l, INITIAL, steps), FailuresOf(l, INITIAL, steps);
    RunKeepsCounted(l, INITIAL, steps, [], key);
    assert [] + log == log;
    CountedWithin(s.now, s.store, log, key);
  }

  lemma SmallerIsFewer(a: set<int>, b: set<int>)
    requires a <= b
    ensures |a| <= |b|
  {
    assert b == a + (b - a);
  }

  lemma AddressFailures(log: seq<Failure>, a: Attempt, after: int)
    ensures (set i | 0 <= i < |log| && log[i].at > after && Uses(log[i].attempt, IpKey(a)))
         == (set i | 0 <= i < |log| && log[i].at > after && log[i].attempt.ip == a.ip)
  {
    hide IpKey, DeviceKey, OperatorKey, AlertKey;
    forall i | 0 <= i < |log| ensures Uses(log[i].attempt, IpKey(a)) <==> log[i].attempt.ip == a.ip {
      KeysShared(log[i].attempt, a);
      KeysDiffer(log[i].attempt, a, SiteBlocked, "");
    }
    hide Uses;
  }

  predicate SameDevice(a: Attempt, b: Attempt) { if a.mac.Some? || b.mac.Some? then a.mac == b.mac else a.ip == b.ip }

  lemma DeviceFailures(log: seq<Failure>, a: Attempt, after: int)
    ensures (set i | 0 <= i < |log| && log[i].at > after && Uses(log[i].attempt, DeviceKey(a)))
         == (set i | 0 <= i < |log| && log[i].at > after && SameDevice(log[i].attempt, a))
  {
    hide IpKey, DeviceKey, OperatorKey, AlertKey;
    forall i | 0 <= i < |log| ensures Uses(log[i].attempt, DeviceKey(a)) <==> SameDevice(log[i].attempt, a) {
      KeysShared(log[i].attempt, a);
      KeysDiffer(a, log[i].attempt, SiteBlocked, "");
    }
    hide Uses, SameDevice;
  }

  /** Nobody is refused for what others did: after any run, an attempt is refused only when its own
      device failed at least as often as the device limit within the last fifteen minutes, or its
      own address as often as the site limit. */
  lemma RefusedForItsOwnFailures(l: Limits, steps: seq<Step>, a: Attempt)
    ensures var s, log := Exec(l, INITIAL, steps), FailuresOf(l, INITIAL, steps);
            Blocked(l, s.now, s.store, a) ==>
            || |set i | 0 <= i < |log| && log[i].at > s.now - 900 && SameDevice(log[i].attempt, a)| >= l.device
            || |set i | 0 <= i < |log| && log[i].at > s.now - 900 && log[i].attempt.ip == a.ip| >= l.ip
    ensures forall b :: SameDevice(a, b) <==> if a.mac.Some? || b.mac.Some? then a.mac == b.mac else a.ip == b.ip
  {
    assert Uses(a, DeviceKey(a)) && Uses(a, IpKey(a));
    hide IpKey, DeviceKey, Exec, FailuresOf, Redis.Count, Uses;
    var s, log := Exec(l, INITIAL, steps), FailuresOf(l, INITIAL, steps);
    CountWithin(l, steps, IpKey(a)); AddressFailures(log, a, s.now - 900);
    CountWithin(l, steps, DeviceKey(a)); DeviceFailures(log, a, s.now - 900);
  }

  // ------------------------------------------------------------ the bound is met

  function Checks(a: Attempt, from: nat, n: nat): seq<Step> { seq(n, i requires i >= 0 => Check(from + i, a)) }

  function Misses(from: nat, n: nat): seq<Step> { seq(n, i requires i >= 0 => UnknownCode(from + i)) }

  lemma {:induction false} AllChecksPass(l: Limits, s: State, a: Attempt, from: nat, n: nat)
    requires !Blocked(l, s.now, s.store, a)
    requires forall i | from <= i < from + n :: i !in s.flying
    ensures var t := Exec(l, s, Checks(a, from, n));
            t.now == s.now && t.store == s.store
            && forall i | from <= i < from + n :: i in t.flying && t.flying[i] == a
    ensures forall i | i in s.flying && i < from ::
              (var t := Exec(l, s, Checks(a, from, n)); i in t.flying && t.flying[i] == s.flying[i])
    decreases n
  {
    hide Blocked, CountFailure, AlertKinds, AlertKey;
    if n > 0 {
      var steps := Checks(a, from, n);
      assert steps[1..] == Checks(a, from + 1, n - 1);
      var t := Next(l, s, steps[0]);
      AllChecksPass(l, t, a, from + 1, n - 1);
      assert from in t.flying;
    }
  }

  lemma {:induction false} AllMissesCount(l: Limits, s: State, a: Attempt, from: nat, n: nat)
    requires forall i | from <= i < from + n :: i in s.flying && s.flying[i] == a
    ensures var t := Exec(l, s, Misses(from, n));
            t.now == s.now && Redis.Count(t.store, t.now, IpKey(a)) == Redis.Count(s.store, s.now, IpKey(a)) + n
    decreases n
  {
    if n > 0 {
      var steps := Misses(from, n);
      assert steps[1..] == Misses(from + 1, n - 1);
      assert Uses(a, IpKey(a));
      FailureCountsOnce(s.now, s.store, a, IpKey(a));
      AllMissesCount(l, Next(l, s, steps[0]), a, from + 1, n - 1);
    }
  }

  lemma {:induction false} ExecConcat(l: Limits, s: State, one: seq<Step>, two: seq<Step>)
    ensures Exec(l, s, one + two) == Exec(l, Exec(l, s, one), two)
    decreases |one|
  {
    if one == [] {
      assert one + two == two;
    } else {
      assert (one + two)[1..] == one[1..] + two;
      ExecConcat(l, Next(l, s, one[0]), one[1..], two);
    }
  }

  /** Concurrency does spend what the bound allows: k attempts that all check while the
      counter is one below its limit are all let in, and all of them count. */
  lemma BoundIsReached(l: Limits, s: State, a: Attempt, k: nat)
    requires Redis.Count(s.store, s.now, IpKey(a)) == l.ip - 1
    requires Redis.Count(s.store, s.now, DeviceKey(a)) < l.device
    requires s.flying == map[]
    ensures var t := Exec(l, s, Checks(a, 0, k) + Misses(0, k));
            Redis.Count(t.store, t.now, IpKey(a)) == l.ip - 1 + k
  {
    ExecConcat(l, s, Checks(a, 0, k), Misses(0, k));
    AllChecksPass(l, s, a, 0, k);
    AllMissesCount(l, Exec(l, s, Checks(a, 0, k)), a, 0, k);
  }

  // ---------------------------------------------------------------------- alerts

  predicate AlertsSpaced(alerts: seq<Alert>) {
    forall i, j |
      0 <= i < j < |alerts| && alerts[i].kind == alerts[j].kind && alerts[i].operator == alerts[j].operator ::
      alerts[i].at + ALERT_DEDUPE_SECONDS <= alerts[j].at
  }

  /** A claimed alert's key stays until its hour is over. */
  predicate AlertKeysHeld(s: State) {
    forall a <- s.alerts ::
      var key := AlertKey(a.kind, a.operator);
      key in s.store && s.store[key].expiry.Some? && s.store[key].expiry.value >= a.at + ALERT_DEDUPE_SECONDS
  }

  lemma CountingKeepsAlertKeys(now: nat, store: Store, a: Attempt, key: string)
    requires key in store && key !in {DeviceKey(a), IpKey(a), OperatorKey(a)}
    ensures var counted := CountFailure(now, store, a); key in counted && counted[key] == store[key]
  {}

  lemma StepKeepsAlerts(l: Limits, s: State, step: Step)
    requires AlertsSpaced(s.alerts) && AlertKeysHeld(s)
    ensures AlertsSpaced(Next(l, s, step).alerts) && AlertKeysHeld(Next(l, s, step))
  {
    hide CountFailure, DeviceKey, IpKey, OperatorKey, AlertKey, AlertKinds, Blocked;
    var t := Next(l, s, step);
    if step.UnknownCode? && step.id in s.flying {
      var a := s.flying[step.id];
      forall alert <- s.alerts
        ensures var key := AlertKey(alert.kind, alert.operator); key in t.store && t.store[key] == s.store[key]
      {
        KeysDiffer(a, a, alert.kind, alert.operator);
        CountingKeepsAlertKeys(s.now, s.store, a, AlertKey(alert.kind, alert.operator));
      }
    } else if step.ClaimAlert? && t.alerts != s.alerts {
      var new_ := t.alerts[|s.alerts|];
      forall i | 0 <= i < |s.alerts| && s.alerts[i].kind == new_.kind && s.alerts[i].operator == new_.operator
        ensures s.alerts[i].at + ALERT_DEDUPE_SECONDS <= new_.at
      {
        assert s.alerts[i] in s.alerts;
      }
    }
  }

  /** Over any run, alerts of one kind for one operator are at least an hour apart. */
  lemma AlertsAnHourApart(l: Limits, steps: seq<Step>, i: nat, j: nat)
    requires i < j < |Exec(l, INITIAL, steps).alerts|
    ensures var alerts := Exec(l, INITIAL, steps).alerts;
            alerts[i].kind == alerts[j].kind && alerts[i].operator == alerts[j].operator ==>
            alerts[i].at + 3600 <= alerts[j].at
  {
    RunKeepsAlerts(l, INITIAL, steps);
  }

  lemma {:induction false} RunKeepsAlerts(l: Limits, s: State, steps: seq<Step>)
    requires AlertsSpaced(s.alerts) && AlertKeysHeld(s)
    ensures AlertsSpaced(Exec(l, s, steps).alerts) && AlertKeysHeld(Exec(l, s, steps))
    decreases |steps|
  {
    if steps != [] {
      StepKeepsAlerts(l, s, steps[0]);
      RunKeepsAlerts(l, Next(l, s, steps[0]), steps[1..]);
    }
  }

  // ----------------------------------------------------- the functions as methods

  datatype Counts = Counts(device: nat, ip: nat, operator: nat)

  datatype Refusal = DeviceLimit | SiteLimit

  class Limiter {
    const limits: Limits
    var now: nat
    var store: Store
    ghost var alerts: seq<Alert>

    constructor (limits: Limits)
      ensures this.limits == limits && now == 0 && store == map[] && alerts == []
    {
      this.limits, now, store, alerts := limits, 0, map[], [];
    }

    /** check: the device limit is reported before the site's. */
    method Check(a: Attempt) returns (refusal: Option<Refusal>)
      ensures refusal.Some? <==> Blocked(limits, now, store, a)
      ensures refusal == Some(DeviceLimit) <==> Redis.Count(store, now, DeviceKey(a)) >= limits.device
      ensures refusal == Some(SiteLimit) <==>
              Redis.Count(store, now, DeviceKey(a)) < limits.device && Redis.Count(store, now, IpKey(a)) >= limits.ip
    {
      if Redis.Count(store, now, DeviceKey(a)) >= limits.device { return Some(DeviceLimit); }
      if Redis.Count(store, now, IpKey(a)) >= limits.ip { return Some(SiteLimit); }
      return None;
    }

    /** record_failure up to its alerts: each of the attempt's three counters goes up by one. */
    method RecordFailure(a: Attempt) returns (counts: Counts, kinds: seq<Kind>)
      modifies this`store
      ensures store == CountFailure(now, old(store), a)
      ensures counts.device == Redis.Count(old(store), now, DeviceKey(a)) + 1
      ensures counts.ip == Redis.Count(old(store), now, IpKey(a)) + 1
      ensures counts.operator == Redis.Count(old(store), now, OperatorKey(a)) + 1
      ensures kinds == AlertKinds(limits, now, store, a)
      ensures SiteBlocked in kinds <==> counts.ip == limits.ip
      ensures GuessingSuspected in kinds <==> counts.operator >= limits.operatorAlert
    {
      assert Uses(a, DeviceKey(a)) && Uses(a, IpKey(a));
      FailureCountsOnce(now, store, a, DeviceKey(a));
      FailureCountsOnce(now, store, a, IpKey(a));
      OperatorCountsOnce(now, store, a);
      store := Hit(store, now, DeviceKey(a), WINDOW_SECONDS);
      store := Hit(store, now, IpKey(a), WINDOW_SECONDS);
      store := Hit(store, now, OperatorKey(a), WINDOW_SECONDS);
      counts := Counts(Redis.Count(store, now, DeviceKey(a)), Redis.Count(store, now, IpKey(a)),
                       Redis.Count(store, now, OperatorKey(a)));
      kinds := [];
      if counts.ip == limits.ip { kinds := kinds + [SiteBlocked]; }
      if counts.operator >= limits.operatorAlert { kinds := kinds + [GuessingSuspected]; }
    }

    /** One turn of the alert loop: SET NX EX decides who sends. Once one has, no call before
        the hour is over finds the key free, and the first after it does; nothing else in
        Redis changes. */
    method RaiseAlert(kind: Kind, operator: string) returns (first: bool)
      modifies this`store, this`alerts
      ensures store == SetNxEx(old(store), now, AlertKey(kind, operator), ALERT_DEDUPE_SECONDS)
      ensures first <==> !Live(old(store), now, AlertKey(kind, operator))
      ensures first ==> forall later: nat | now <= later ::
                Live(store, later, AlertKey(kind, operator)) <==> later < now + 3600
      ensures !first ==> store == old(store)
      ensures forall key | key != AlertKey(kind, operator) ::
                (key in store <==> key in old(store)) && (key in store ==> store[key] == old(store)[key])
      ensures alerts == old(alerts) + if first then [Alert(kind, operator, now)] else []
    {
      var key := AlertKey(kind, operator);
      first := !Live(store, now, key);
      store := SetNxEx(store, now, key, ALERT_DEDUPE_SECONDS);
      if first { alerts := alerts + [Alert(kind, operator, now)]; }
    }
  }

  // ----------------------------------------------------------- failing open

  /** When the platform owner is told that the limits are off: at a failed-open call, unless
      told within the hour. */
  function NextAlerts(before: seq<nat>, now: nat): seq<nat> {
    if before == [] || now - before[|before| - 1] >= ALERT_DEDUPE_SECONDS then before + [now] else before
  }

  function AlertTimes(calls: seq<FailOpenLog.Call>): seq<nat>
    decreases |calls|
  {
    if calls == [] then [] else NextAlerts(AlertTimes(calls[..|calls| - 1]), calls[|calls| - 1].at)
  }

  predicate Told(alerts: seq<nat>, at: nat) {
    exists i | 0 <= i < |alerts| :: alerts[i] <= at < alerts[i] + ALERT_DEDUPE_SECONDS
  }

  lemma StillTold(before: seq<nat>, alerts: seq<nat>, at: nat)
    requires before <= alerts && Told(before, at)
    ensures Told(alerts, at)
  {}

  predicate HourlyUpTo(alerts: seq<nat>, now: nat) {
    && (forall i, j | 0 <= i < j < |alerts| :: alerts[i] + ALERT_DEDUPE_SECONDS <= alerts[j])
    && (forall i | 0 <= i < |alerts| :: alerts[i] <= now)
  }

  lemma NextKeepsHourly(before: seq<nat>, now: nat)
    requires HourlyUpTo(before, now)
    ensures before <= NextAlerts(before, now)
    ensures HourlyUpTo(NextAlerts(before, now), now) && Told(NextAlerts(before, now), now)
  {
    var alerts := NextAlerts(before, now);
    assert alerts[|alerts| - 1] <= now;
  }

  /** The owner is told at most once an hour, and no failed-open call goes by without an
      alert at that moment or within the hour before it. */
  lemma OwnerToldHourly(calls: seq<FailOpenLog.Call>)
    requires FailOpenLog.Ordered(calls)
    ensures var alerts := AlertTimes(calls);
            && (forall i, j | 0 <= i < j < |alerts| :: alerts[i] + 3600 <= alerts[j])
            && (forall c <- calls :: exists i | 0 <= i < |alerts| :: alerts[i] <= c.at < alerts[i] + 3600)
  {
    hide AlertTimes;
    if calls == [] { NobodyTold(); } else { ToldHourly(calls); }
    forall c <- calls ensures Told(AlertTimes(calls), c.at) {}
  }

  lemma NobodyTold()
    ensures AlertTimes([]) == []
  {}

  lemma {:induction false} ToldHourly(calls: seq<FailOpenLog.Call>)
    requires calls != [] && FailOpenLog.Ordered(calls)
    ensures HourlyUpTo(AlertTimes(calls), calls[|calls| - 1].at)
    ensures forall i | 0 <= i < |calls| :: Told(AlertTimes(calls), calls[i].at)
    decreases |calls|
  {
    hide NextAlerts, Told;
    var init, now := calls[..|calls| - 1], calls[|calls| - 1].at;
    var before := AlertTimes(init);
    if init != [] {
      ToldHourly(init);
      assert calls[|init| - 1].at <= now;
      assert HourlyUpTo(before, now);
    }
    NextKeepsHourly(before, now);
    forall i | 0 <= i < |init| ensures Told(AlertTimes(calls), calls[i].at) {
      assert calls[i] == init[i];
      StillTold(before, AlertTimes(calls), calls[i].at);
    }
  }

  lemma OneMoreCall(calls: seq<FailOpenLog.Call>, c: FailOpenLog.Call)
    ensures FailOpenLog.RecordAll(FailOpenLog.EMPTY, calls + [c])
            == FailOpenLog.Record(FailOpenLog.RecordAll(FailOpenLog.EMPTY, calls), c)
    ensures AlertTimes(calls + [c]) == NextAlerts(AlertTimes(calls), c.at)
  {
    assert (calls + [c])[..|calls|] == calls;
  }

  /** The globals of the log, as the shared limiter's book with a single kind. */
  function BookOf(lastLogged: Option<nat>, suppressed: nat, lines: seq<FailOpenLog.Line>): FailOpenLog.Book {
    FailOpenLog.Book(if lastLogged.Some? then map["" := lastLogged.value] else map[],
                     if suppressed > 0 then map["" := suppressed] else map[], lines)
  }

  lemma RecordOnGlobals(lastLogged: Option<nat>, suppressed: nat, lines: seq<FailOpenLog.Line>, now: nat)
    ensures FailOpenLog.Record(BookOf(lastLogged, suppressed, lines), FailOpenLog.Call("", now)) ==
            if lastLogged.Some? && now - lastLogged.value < FailOpenLog.LOG_INTERVAL_SECONDS
            then BookOf(lastLogged, suppressed + 1, lines)
            else BookOf(Some(now), 0, lines + [FailOpenLog.Line("", now, suppressed)])
  {}

  /** The module globals of one process. */
  class FailOpen {
    var lastLogged: Option<nat>
    var suppressed: nat
    var alertedAt: Option<nat>
    ghost var calls: seq<FailOpenLog.Call>
    ghost var lines: seq<FailOpenLog.Line>
    ghost var alerts: seq<nat>

    ghost function Book(): FailOpenLog.Book
      reads this
    {
      BookOf(lastLogged, suppressed, lines)
    }

    ghost predicate Valid()
      reads this
    {
      && Book() == FailOpenLog.RecordAll(FailOpenLog.EMPTY, calls)
      && alerts == AlertTimes(calls)
      && alertedAt == if alerts == [] then None else Some(alerts[|alerts| - 1])
    }

    constructor ()
      ensures Valid() && calls == []
    {
      lastLogged, suppressed, alertedAt := None, 0, None;
      calls, lines, alerts := [], [], [];
    }

    /** _fail_open; now is time.monotonic(). */
    method Record(now: nat)
      requires Valid()
      modifies this
      ensures Valid() && calls == old(calls) + [FailOpenLog.Call("", now)]
    {
      ghost var call := FailOpenLog.Call("", now);
      OneMoreCall(calls, call);
      RecordOnGlobals(lastLogged, suppressed, lines, now);
      hide AlertTimes, BookOf, FailOpenLog.RecordAll, FailOpenLog.Record;
      calls := calls + [call];
      if lastLogged.Some? && now - lastLogged.value < FailOpenLog.LOG_INTERVAL_SECONDS {
        suppressed := suppressed + 1;
      } else {
        lastLogged := Some(now);
        lines := lines + [FailOpenLog.Line("", now, suppressed)];
        suppressed := 0;
      }
      if alertedAt.None? || now - alertedAt.value >= ALERT_DEDUPE_SECONDS {
        alertedAt := Some(now);
        alerts := alerts + [now];
      }
    }
  }
}
