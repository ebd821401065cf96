/** The life of a disconnect event (backend/src/radius/coa_events.py), its retries
    (backend/src/jobs/coa_retry.py) and the backstop that takes over
    (backend/src/jobs/check_exhausted_sessions.py). Retry runs take turns here and overlap in
    OverlappingRetries.dfy; new events are sent and time passes while one is going on. Times are
    seconds. */
module DisconnectEvents {
  import opened Options
  import Sequences

  const RETRY_AFTER: int := 120
  const MAX_ATTEMPTS: nat := 3

  datatype Status = Pending | Sent | Failed | Confirmed

  /** history: when each attempt was made and whether the router acknowledged it. */
  datatype Event = Event(
    voucher: nat,
    status: Status,
    attempts: nat,
    lastAttempt: Option<int>,
    history: seq<(int, bool)>)

  /** What a send comes to; Missing: the event's router or voucher is gone. */
  datatype Outcome = Acknowledged | NotAcknowledged | Missing

  // ------------------------------------------------------------------- one event

  function Created(voucher: nat): Event { Event(voucher, Pending, 0, None, []) }

  /** send_disconnect_with_event, and the branch of the retry loop that cannot send. */
  function Attempted(e: Event, at: int, ok: bool): Event {
    Event(e.voucher, if ok then Sent else Failed, e.attempts + 1, Some(at), e.history + [(at, ok)])
  }

  /** The row an operator's own disconnect leaves (backend/src/modules/mikrotik/routes.py, and
      removal.py beside it when it worked): a failed one counts as retried to the end. */
  function ByHand(voucher: nat, at: int, ok: bool): Event {
    Event(voucher, if ok then Confirmed else Failed, if ok then 1 else MAX_ATTEMPTS, Some(at), [(at, ok)])
  }

  /** The router acknowledged it. */
  predicate Done(e: Event) { e.status.Sent? || e.status.Confirmed? }

  /** The WHERE clause of the retry job. */
  predicate Retryable(e: Event, now: int) {
    e.status.Failed? && e.attempts < MAX_ATTEMPTS && e.lastAttempt.Some? && e.lastAttempt.value < now - RETRY_AFTER
  }

  /** The event keeps the backstop off its voucher (coa_inflight). */
  predicate HoldsOff(e: Event, now: int) {
    || e.status.Pending?
    || (e.status.Failed? && e.attempts < MAX_ATTEMPTS && e.lastAttempt.Some? && e.lastAttempt.value > now - RETRY_AFTER)
  }

  predicate GivenUp(e: Event) { e.status.Failed? && e.attempts >= MAX_ATTEMPTS }

  // ------------------------------------------------------------- runs of everything

  /** todo: the rows this run selected and has not handled yet. */
  datatype RetryRun = RetryRun(started: int, todo: seq<nat>)

  datatype State = State(now: int, events: seq<Event>, retry: Option<RetryRun>)

  const INITIAL := State(0, [], None)

  datatype Step =
    | Tick(seconds: nat)
    | Disconnect(voucher: nat, outcome: Outcome)
    | DisconnectByHand(voucher: nat, ok: bool)
    | BeginRetry
    | RetryNext(outcome: Outcome)

  function Selected(events: seq<Event>, now: int, from: nat := 0): seq<nat>
    requires from <= |events|
    decreases |events| - from
  {
    if from == |events| then []
    else (if Retryable(events[from], now) then [from] else []) + Selected(events, now, from + 1)
  }

  /** The missing branch stamps the run's own time, a send the time it is made. */
  function Stamp(s: State, run: RetryRun, outcome: Outcome): int { if outcome.Missing? then run.started else s.now }

  function Next(s: State, step: Step): State {
    match step
    case Tick(seconds) => s.(now := s.now + seconds)
    case Disconnect(voucher, outcome) =>
      s.(events := s.events + [Attempted(Created(voucher), s.now, outcome.Acknowledged?)])
    case DisconnectByHand(voucher, ok) => s.(events := s.events + [ByHand(voucher, s.now, ok)])
    case BeginRetry =>
      if s.retry.Some? then s else s.(retry := Some(RetryRun(s.now, Selected(s.events, s.now))))
    case RetryNext(outcome) =>
      if s.retry.None? then s
      else
        var run := s.retry.value;
        if run.todo == [] then s.(retry := None)
        else if run.todo[0] >= |s.events| then s
        else
          var i := run.todo[0];
          s.(events := s.events[i := Attempted(s.events[i], Stamp(s, run, outcome), outcome.Acknowledged?)],
             retry := Some(run.(todo := run.todo[1..])))
  }

  function Exec(s: State, steps: seq<Step>): State
    decreases |steps|
  {
    if steps == [] then s else Exec(Next(s, steps[0]), steps[1..])
  }

  /** At most three attempts, each more than two minutes after the one before, all failed
      but perhaps the last; the row's fields agree with them, except that a disconnect that
      failed by hand counts as three. */
  predicate EventOk(e: Event, now: int) {
    && |e.history| <= MAX_ATTEMPTS
    && (e.attempts == |e.history| || (GivenUp(e) && e.attempts == MAX_ATTEMPTS && |e.history| == 1))
    && e.history != []
    && e.lastAttempt == Some(e.history[|e.history| - 1].0)
    && e.lastAttempt.value <= now
    && (Done(e) || e.status.Failed?)
    && (Done(e) <==> e.history[|e.history| - 1].1)
    && (forall k | 0 <= k < |e.history| - 1 ::
         !e.history[k].1 && e.history[k].0 + RETRY_AFTER < e.history[k + 1].0)
  }

  predicate Ascending(xs: seq<nat>) { forall i, j | 0 <= i < j < |xs| :: xs[i] < xs[j] }

  predicate Inv(s: State) {
    && (forall i | 0 <= i < |s.events| :: EventOk(s.events[i], s.now))
    && (s.retry.Some? ==>
          var run := s.retry.value;
          && run.started <= s.now
          && Ascending(run.todo)
          && forall i <- run.todo :: i < |s.events| && Retryable(s.events[i], run.started))
  }

  lemma {:induction false} SelectedExact(events: seq<Event>, now: int, from: nat)
    requires from <= |events|
    ensures forall i: nat :: i in Selected(events, now, from) <==> from <= i < |events| && Retryable(events[i], now)
    decreases |events| - from
  {
    hide Retryable;
    if from < |events| { SelectedExact(events, now, from + 1); }
  }

  lemma {:induction false} SelectedAscending(events: seq<Event>, now: int, from: nat)
    requires from <= |events|
    ensures Ascending(Selected(events, now, from))
    decreases |events| - from
  {
    hide Retryable;
    if from < |events| {
      SelectedAscending(events, now, from + 1);
      SelectedExact(events, now, from + 1);
      var rest := Selected(events, now, from + 1);
      forall i | 0 <= i < |rest| ensures from < rest[i] { assert rest[i] in rest; }
    }
  }

  /** A retry is at least two minutes and a second late, so it keeps the spacing. */
  lemma AttemptKeepsEvent(e: Event, started: int, at: int, now: int, ok: bool)
    requires EventOk(e, now) && Retryable(e, started) && started <= at <= now
    ensures EventOk(Attempted(e, at, ok), now)
    ensures Attempted(e, at, ok).attempts == e.attempts + 1 <= MAX_ATTEMPTS
  {}

  lemma AddingKeepsInv(s: State, e: Event)
    requires Inv(s) && EventOk(e, s.now)
    ensures Inv(s.(events := s.events + [e]))
  {
    hide EventOk, Retryable, Ascending;
  }

  lemma TickKeepsInv(s: State, seconds: nat)
    requires Inv(s)
    ensures Inv(s.(now := s.now + seconds))
  {
    hide Retryable, Ascending;
  }

  lemma BeginKeepsInv(s: State)
    requires Inv(s)
    ensures Inv(Next(s, BeginRetry))
  {
    hide EventOk, Retryable, Ascending;
    SelectedExact(s.events, s.now, 0);
    SelectedAscending(s.events, s.now, 0);
  }

  lemma RestIsLater(todo: seq<nat>)
    requires todo != [] && Ascending(todo)
    ensures Ascending(todo[1..]) && forall j <- todo[1..] :: j in todo && j != todo[0]
  {
    forall j <- todo[1..] ensures j in todo && j != todo[0] {
      var k :| 0 <= k < |todo[1..]| && todo[1..][k] == j;
      assert todo[k + 1] == j;
    }
  }

  lemma RetryKeepsInv(s: State, outcome: Outcome)
    requires Inv(s)
    ensures Inv(Next(s, RetryNext(outcome)))
  {
    if s.retry.Some? && s.retry.value.todo != [] {
      var run := s.retry.value;
      var i := run.todo[0];
      assert i in run.todo;
      AttemptKeepsEvent(s.events[i], run.started, Stamp(s, run, outcome), s.now, outcome.Acknowledged?);
      RestIsLater(run.todo);
      hide EventOk, Retryable, Ascending, Attempted;
    }
  }

  lemma StepKeepsInv(s: State, step: Step)
    requires Inv(s)
    ensures Inv(Next(s, step))
  {
    hide Inv;
    match step {
      case Tick(seconds) => TickKeepsInv(s, seconds);
      case Disconnect(voucher, outcome) =>
        AddingKeepsInv(s, Attempted(Created(voucher), s.now, outcome.Acknowledged?));
      case DisconnectByHand(voucher, ok) => AddingKeepsInv(s, ByHand(voucher, s.now, ok));
      case BeginRetry => BeginKeepsInv(s);
      case RetryNext(outcome) => RetryKeepsInv(s, outcome);
    }
  }

  lemma {:induction false} RunKeepsInv(s: State, steps: seq<Step>)
    requires Inv(s)
    ensures Inv(Exec(s, steps))
    decreases |steps|
  {
    if steps != [] {
      StepKeepsInv(s, steps[0]);
      RunKeepsInv(Next(s, steps[0]), steps[1..]);
    }
  }

  /** Over any run of sends, disconnects by hand, retries and clock ticks: at most three attempts,
      more than two minutes apart, all refused but perhaps the last; and the row says so: the
      number, the last time, and how it ended. A disconnect that failed by hand counts as three. */
  lemma EventsBehave(steps: seq<Step>, i: nat)
    requires i < |Exec(INITIAL, steps).events|
    ensures var e := Exec(INITIAL, steps).events[i];
            var n := |e.history|;
            && 1 <= n <= 3
            && (e.attempts == n || (n == 1 && e.attempts == 3 && e.status == Failed))
            && e.lastAttempt == Some(e.history[n - 1].0)
            && (if e.history[n - 1].1 then e.status == Sent || e.status == Confirmed else e.status == Failed)
            && (forall k | 0 < k < n :: e.history[k - 1].0 + 120 < e.history[k].0)
            && (forall k | 0 <= k < n - 1 :: !e.history[k].1)
  {
    RunKeepsInv(INITIAL, steps);
    var s := Exec(INITIAL, steps);
    assert EventOk(s.events[i], s.now);
  }

  /** An acknowledged or given-up event is never attempted again; its row never changes. */
  lemma {:induction false} SettledIsFinal(s: State, steps: seq<Step>, i: nat)
    requires Inv(s) && i < |s.events|
    requires s.events[i].status in {Sent, Confirmed} || (s.events[i].status == Failed && s.events[i].attempts >= 3)
    ensures i < |Exec(s, steps).events| && Exec(s, steps).events[i] == s.events[i]
    decreases |steps|
  {
    if steps != [] {
      StepKeepsInv(s, steps[0]);
      if s.retry.Some? && s.retry.value.todo != [] { assert s.retry.value.todo[0] in s.retry.value.todo; }
      SettledIsFinal(Next(s, steps[0]), steps[1..], i);
    }
  }

  /** Attempts still allowed, over all events. */
  function Budget(events: seq<Event>): int {
    if events == [] then 0
    else Budget(events[..|events| - 1]) + MAX_ATTEMPTS - events[|events| - 1].attempts
  }

  lemma {:induction false} BudgetUpdate(events: seq<Event>, i: nat, e: Event)
    requires i < |events|
    ensures Budget(events[i := e]) == Budget(events) + events[i].attempts - e.attempts
    decreases |events|
  {
    var n := |events| - 1;
    if i == n {
      assert events[i := e][..n] == events[..n];
    } else {
      assert events[i := e][..n] == events[..n][i := e];
      BudgetUpdate(events[..n], i, e);
    }
  }

  lemma {:induction false} BudgetNonNegative(s: State, n: nat)
    requires Inv(s) && n <= |s.events|
    ensures Budget(s.events[..n]) >= 0
    decreases n
  {
    if n > 0 {
      BudgetNonNegative(s, n - 1);
      assert s.events[..n][..n - 1] == s.events[..n - 1];
      assert EventOk(s.events[n - 1], s.now);
    }
  }

  /** Every handled row uses up one of a shrinking number of attempts, so retrying ends. */
  lemma RetriesRunOut(s: State, outcome: Outcome)
    requires Inv(s) && s.retry.Some? && s.retry.value.todo != []
    ensures 0 <= Budget(Next(s, RetryNext(outcome)).events) == Budget(s.events) - 1
  {
    var i := s.retry.value.todo[0];
    assert i in s.retry.value.todo;
    BudgetUpdate(s.events, i, Attempted(s.events[i], Stamp(s, s.retry.value, outcome), outcome.Acknowledged?));
    StepKeepsInv(s, RetryNext(outcome));
    var t := Next(s, RetryNext(outcome));
    BudgetNonNegative(t, |t.events|);
    assert t.events[..|t.events|] == t.events;
  }

  /** The retry job and the backstop share an event out: a failed one is to be retried,
      holds the backstop off, has been given up, or is exactly two minutes old, and only
      one of these. */
  lemma RetryOrHoldOff(e: Event, now: int)
    requires EventOk(e, now) && e.status.Failed?
    ensures Retryable(e, now) <==> e.attempts < 3 && e.lastAttempt.Some? && e.lastAttempt.value + 120 < now
    ensures HoldsOff(e, now) <==> e.attempts < 3 && e.lastAttempt.Some? && e.lastAttempt.value + 120 > now
    ensures !Retryable(e, now) && !HoldsOff(e, now) <==> e.attempts == 3 || e.lastAttempt == Some(now - 120)
  {}

  // ----------------------------------------------------------------- the backstop

  datatype Session = Session(id: nat, voucher: nat, username: string, stoppedAt: Option<int>, cause: string)

  predicate IsCandidate(s: Session, ended: set<nat>, events: seq<Event>, now: int) {
    && s.voucher in ended
    && s.stoppedAt.None?
    && !exists e <- events :: e.voucher == s.voucher && HoldsOff(e, now)
  }

  /** In every reachable state the backstop takes an open session of an ended voucher
      once two minutes have passed since the voucher's last attempt, and before that only
      when its events are acknowledged or given up. */
  lemma BackstopTakesOver(steps: seq<Step>, session: Session, ended: set<nat>)
    requires session.voucher in ended && session.stoppedAt.None?
    ensures var s := Exec(INITIAL, steps);
            IsCandidate(session, ended, s.events, s.now) <==>
            forall e <- s.events | e.voucher == session.voucher ::
              || e.status == Sent || e.status == Confirmed || (e.status == Failed && e.attempts >= 3)
              || (e.lastAttempt.Some? && e.lastAttempt.value + 120 <= s.now)
  {
    RunKeepsInv(INITIAL, steps);
    var s := Exec(INITIAL, steps);
    forall e <- s.events ensures EventOk(e, s.now) {}
  }

  /** What the router API did for one session's client. */
  datatype ApiResult = Removed | RemovalFailed

  /** What comes of one candidate. */
  datatype Fate = Lost | Disconnected | Stuck

  function FateOf(s: Session, active: set<string>, api: map<nat, ApiResult>): Fate {
    if s.username !in active then Lost
    else if s.id in api && api[s.id].Removed? then Disconnected
    else Stuck
  }

  function Handled(s: Session, now: int, active: set<string>, api: map<nat, ApiResult>): Session {
    match FateOf(s, active, api)
    case Lost => s.(stoppedAt := Some(now), cause := "lost-acct-stop")
    case Disconnected => s.(stoppedAt := Some(now), cause := "backstop-api-disconnect")
    case Stuck => s
  }

  /** How many of these candidates meet a fate. */
  function Tally(ss: seq<Session>, entries: set<nat>, active: set<string>, api: map<nat, ApiResult>, fate: Fate): nat {
    if ss == [] then 0
    else
      var last := ss[|ss| - 1];
      Tally(ss[..|ss| - 1], entries, active, api, fate)
      + if last.id in entries && FateOf(last, active, api) == fate then 1 else 0
  }

  /** _handle_via_api on one router's candidates. api: what each removal comes to;
      cookieFailures: the sessions whose cookie clearing fails. */
  class Backstop {
    var sessions: seq<Session>
    var candidates: nat
    var phantomsClosed: nat
    var apiDisconnected: nat
    var apiErrors: nat

    /** A candidate's row changes exactly when its client is not on the router's list or the
        router removed it, and the cause tells which; a client that could not be removed keeps its
        row and is counted as an error. Without the list nothing is closed. */
    method HandleViaApi(entries: set<nat>, active: Option<set<string>>, api: map<nat, ApiResult>,
                        cookieFailures: set<nat>, now: int)
      modifies this
      ensures |sessions| == |old(sessions)|
      ensures forall i | 0 <= i < |sessions| ::
                var s := old(sessions)[i];
                sessions[i] ==
                if active.None? || s.id !in entries then s
                else if s.username !in active.value
                then Session(s.id, s.voucher, s.username, Some(now), "lost-acct-stop")
                else if s.id in api && api[s.id] == Removed
                then Session(s.id, s.voucher, s.username, Some(now), "backstop-api-disconnect")
                else s
      ensures active.None? ==> candidates == old(candidates) && phantomsClosed == old(phantomsClosed)
                               && apiDisconnected == old(apiDisconnected) && apiErrors == old(apiErrors) + |entries|
      ensures active.Some? ==>
                var ss := old(sessions);
                && candidates == old(candidates) + |set i | 0 <= i < |ss| && ss[i].id in entries|
                && phantomsClosed == old(phantomsClosed)
                     + |set i | 0 <= i < |ss| && ss[i].id in entries && ss[i].username !in active.value|
                && apiDisconnected == old(apiDisconnected)
                     + |set i | 0 <= i < |ss| && ss[i].id in entries && ss[i].username in active.value
                                && ss[i].id in api && api[ss[i].id] == Removed|
                && apiErrors == old(apiErrors)
                     + |set i | 0 <= i < |ss| && ss[i].id in entries && ss[i].username in active.value
                                && !(ss[i].id in api && api[ss[i].id] == Removed)|
                     + |set i | 0 <= i < |ss| && ss[i].id in entries && ss[i].id in cookieFailures
                                && ss[i].username !in active.value|
    {
      hide Tally, Handled, FateOf;
      if active.None? {
        apiErrors := apiErrors + |entries|;
        return;
      }
      TallyNone(entries, active.value, api); TallyNone(entries * cookieFailures, active.value, api);
      ghost var was := sessions;
      for i := 0 to |sessions|
        invariant |sessions| == |was|
        invariant forall j | i <= j < |was| :: sessions[j] == was[j]
        invariant forall j | 0 <= j < i ::
                    sessions[j] == if was[j].id in entries then Handled(was[j], now, active.value, api) else was[j]
        invariant phantomsClosed == old(phantomsClosed) + Tally(was[..i], entries, active.value, api, Lost)
        invariant apiDisconnected == old(apiDisconnected) + Tally(was[..i], entries, active.value, api, Disconnected)
        invariant candidates == old(candidates) + Tally(was[..i], entries, active.value, api, Lost)
                                + Tally(was[..i], entries, active.value, api, Disconnected)
                                + Tally(was[..i], entries, active.value, api, Stuck)
        invariant apiErrors == old(apiErrors) + Tally(was[..i], entries, active.value, api, Stuck)
                               + Tally(was[..i], entries * cookieFailures, active.value, api, Lost)
      {
        TallyMore(was, i, entries, active.value, api);
        TallyMore(was, i, entries * cookieFailures, active.value, api);
        HandledIs(was[i], now, active.value, api);
        if sessions[i].id in entries { HandleOne(i, active.value, api, sessions[i].id in cookieFailures, now); }
      }
      assert was[..|was|] == was;
      TalliesAre(was, entries, cookieFailures, active.value, api);
      forall i | 0 <= i < |was| { HandledIs(was[i], now, active.value, api); }
    }

    /** One turn of the loop: the row is closed exactly when the client is off the list or was
        removed, and just the counter of what happened goes up. */
    method HandleOne(i: nat, active: set<string>, api: map<nat, ApiResult>, cookieFails: bool, now: int)
      requires i < |sessions|
      modifies this
      ensures var s := old(sessions)[i];
              var lost := s.username !in active;
              var removed := !lost && s.id in api && api[s.id] == Removed;
              && sessions == old(sessions)[i :=
                   if lost then Session(s.id, s.voucher, s.username, Some(now), "lost-acct-stop")
                   else if removed then Session(s.id, s.voucher, s.username, Some(now), "backstop-api-disconnect")
                   else s]
              && candidates == old(candidates) + 1
              && phantomsClosed == old(phantomsClosed) + (if lost then 1 else 0)
              && apiDisconnected == old(apiDisconnected) + (if removed then 1 else 0)
              && apiErrors == old(apiErrors) + (if (!lost && !removed) || (lost && cookieFails) then 1 else 0)
    {
      var s := sessions[i];
      candidates := candidates + 1;
      if s.username !in active {
        sessions := sessions[i := s.(stoppedAt := Some(now), cause := "lost-acct-stop")];
        phantomsClosed := phantomsClosed + 1;
        if cookieFails { apiErrors := apiErrors + 1; }
      } else if s.id in api && api[s.id].Removed? {
        sessions := sessions[i := s.(stoppedAt := Some(now), cause := "backstop-api-disconnect")];
        apiDisconnected := apiDisconnected + 1;
      } else {
        apiErrors := apiErrors + 1;
      }
    }
  }

  /** The fates and what they write, in terms of the list and the router's answers. */
  lemma HandledIs(s: Session, now: int, active: set<string>, api: map<nat, ApiResult>)
    ensures FateOf(s, active, api) ==
            if s.username !in active then Lost
            else if s.id in api && api[s.id] == Removed then Disconnected else Stuck
    ensures Handled(s, now, active, api) ==
            if s.username !in active then Session(s.id, s.voucher, s.username, Some(now), "lost-acct-stop")
            else if s.id in api && api[s.id] == Removed
            then Session(s.id, s.voucher, s.username, Some(now), "backstop-api-disconnect") else s
  {}

  lemma {:induction false} TallyIs(ss: seq<Session>, entries: set<nat>, active: set<string>, api: map<nat, ApiResult>,
                                   fate: Fate)
    ensures Tally(ss, entries, active, api, fate)
            == |set i | 0 <= i < |ss| && ss[i].id in entries && FateOf(ss[i], active, api) == fate|
    decreases |ss|
  {
    hide FateOf;
    if ss != [] {
      var n := |ss| - 1;
      TallyIs(ss[..n], entries, active, api, fate);
      Sequences.OneMoreIndex(
        (set i | 0 <= i < |ss[..n]| && ss[..n][i].id in entries && FateOf(ss[..n][i], active, api) == fate),
        (set i | 0 <= i < |ss| && ss[i].id in entries && FateOf(ss[i], active, api) == fate),
        n, ss[n].id in entries && FateOf(ss[n], active, api) == fate);
    }
  }

  lemma {:induction false} TalliesAddUp(ss: seq<Session>, entries: set<nat>, active: set<string>,
                                        api: map<nat, ApiResult>)
    ensures Tally(ss, entries, active, api, Lost) + Tally(ss, entries, active, api, Disconnected)
            + Tally(ss, entries, active, api, Stuck) == |set i | 0 <= i < |ss| && ss[i].id in entries|
    decreases |ss|
  {
    hide FateOf;
    if ss != [] {
      var n := |ss| - 1;
      TalliesAddUp(ss[..n], entries, active, api);
      Sequences.OneMoreIndex((set i | 0 <= i < |ss[..n]| && ss[..n][i].id in entries),
                             (set i | 0 <= i < |ss| && ss[i].id in entries), n, ss[n].id in entries);
    }
  }

  lemma TalliesAre(ss: seq<Session>, entries: set<nat>, cookieFailures: set<nat>, active: set<string>,
                   api: map<nat, ApiResult>)
    ensures Tally(ss, entries, active, api, Lost)
            == |set i | 0 <= i < |ss| && ss[i].id in entries && ss[i].username !in active|
    ensures Tally(ss, entries, active, api, Disconnected)
            == |set i | 0 <= i < |ss| && ss[i].id in entries && ss[i].username in active
                        && ss[i].id in api && api[ss[i].id] == Removed|
    ensures Tally(ss, entries, active, api, Stuck)
            == |set i | 0 <= i < |ss| && ss[i].id in entries && ss[i].username in active
                        && !(ss[i].id in api && api[ss[i].id] == Removed)|
    ensures Tally(ss, entries * cookieFailures, active, api, Lost)
            == |set i | 0 <= i < |ss| && ss[i].id in entries && ss[i].id in cookieFailures && ss[i].username !in active|
    ensures Tally(ss, entries, active, api, Lost) + Tally(ss, entries, active, api, Disconnected)
            + Tally(ss, entries, active, api, Stuck) == |set i | 0 <= i < |ss| && ss[i].id in entries|
  {
    hide Tally;
    TallyIs(ss, entries, active, api, Lost); TallyIs(ss, entries, active, api, Disconnected);
    TallyIs(ss, entries, active, api, Stuck); TallyIs(ss, entries * cookieFailures, active, api, Lost);
    TalliesAddUp(ss, entries, active, api);
    SetsOf(ss, entries, cookieFailures, active, api);
  }

  lemma SetsOf(ss: seq<Session>, entries: set<nat>, cookieFailures: set<nat>, active: set<string>,
               api: map<nat, ApiResult>)
    ensures (set i | 0 <= i < |ss| && ss[i].id in entries && FateOf(ss[i], active, api) == Lost)
            == (set i | 0 <= i < |ss| && ss[i].id in entries && ss[i].username !in active)
    ensures (set i | 0 <= i < |ss| && ss[i].id in entries && FateOf(ss[i], active, api) == Disconnected)
            == (set i | 0 <= i < |ss| && ss[i].id in entries && ss[i].username in active
                        && ss[i].id in api && api[ss[i].id] == Removed)
    ensures (set i | 0 <= i < |ss| && ss[i].id in entries && FateOf(ss[i], active, api) == Stuck)
            == (set i | 0 <= i < |ss| && ss[i].id in entries && ss[i].username in active
                        && !(ss[i].id in api && api[ss[i].id] == Removed))
    ensures (set i | 0 <= i < |ss| && ss[i].id in entries * cookieFailures && FateOf(ss[i], active, api) == Lost)
            == (set i | 0 <= i < |ss| && ss[i].id in entries && ss[i].id in cookieFailures && ss[i].username !in active)
  {}

  lemma TallyNone(entries: set<nat>, active: set<string>, api: map<nat, ApiResult>)
    ensures forall fate :: Tally([], entries, active, api, fate) == 0
  {}

  lemma TallyMore(ss: seq<Session>, i: nat, entries: set<nat>, active: set<string>, api: map<nat, ApiResult>)
    requires i < |ss|
    ensures forall fate ::
              Tally(ss[..i + 1], entries, active, api, fate)
              == Tally(ss[..i], entries, active, api, fate)
                 + if ss[i].id in entries && FateOf(ss[i], active, api) == fate then 1 else 0
  {
    assert ss[..i + 1][..i] == ss[..i];
  }

  // --------------------------------------------------------------- the retry loop

  lemma AcknowledgedNone(outcomes: seq<Outcome>)
    ensures Acknowledgements([], outcomes) == 0
  {}

  lemma AcknowledgedMore(todo: seq<nat>, n: nat, outcomes: seq<Outcome>)
    requires n < |todo| && todo[n] < |outcomes|
    ensures Acknowledgements(todo[..n + 1], outcomes) == Acknowledgements(todo[..n], outcomes)
            + if outcomes[todo[n]].Acknowledged? then 1 else 0
  {
    assert todo[..n + 1][..n] == todo[..n];
  }

  /** How many of these events' sends are acknowledged. */
  function Acknowledgements(todo: seq<nat>, outcomes: seq<Outcome>): nat {
    if todo == [] then 0
    else
      var i := todo[|todo| - 1];
      Acknowledgements(todo[..|todo| - 1], outcomes) + if i < |outcomes| && outcomes[i].Acknowledged? then 1 else 0
  }

  class RetryJob {
    var now: int
    var events: seq<Event>
    var retry: Option<RetryRun>

    ghost function View(): State reads this { State(now, events, retry) }

    ghost predicate Valid() reads this { Inv(View()) }

    constructor ()
      ensures Valid() && View() == INITIAL
    {
      now, events, retry := 0, [], None;
    }

    /** A disconnect from elsewhere: create_pending_disconnect_event and its first send,
        in one transaction. */
    method SendNew(voucher: nat, outcome: Outcome)
      requires Valid()
      modifies this
      ensures Valid() && View() == Next(old(View()), Disconnect(voucher, outcome))
      ensures var ok := outcome == Acknowledged;
              events == old(events) + [Event(voucher, if ok then Sent else Failed, 1, Some(now), [(now, ok)])]
    {
      StepKeepsInv(View(), Disconnect(voucher, outcome));
      events := events + [Attempted(Created(voucher), now, outcome.Acknowledged?)];
      assert [] + [(now, outcome.Acknowledged?)] == [(now, outcome.Acknowledged?)];
    }

    /** A disconnect from the router's page. */
    method SendByHand(voucher: nat, ok: bool)
      requires Valid()
      modifies this
      ensures Valid() && View() == Next(old(View()), DisconnectByHand(voucher, ok))
      ensures events == old(events) +
                [if ok then Event(voucher, Confirmed, 1, Some(now), [(now, true)])
                 else Event(voucher, Failed, 3, Some(now), [(now, false)])]
    {
      StepKeepsInv(View(), DisconnectByHand(voucher, ok));
      var status := if ok then Confirmed else Failed;
      events := events + [Event(voucher, status, if ok then 1 else 3, Some(now), [(now, ok)])];
    }

    /** The SELECT. */
    method Begin() returns (todo: seq<nat>)
      requires Valid() && retry.None?
      modifies this`retry
      ensures Valid() && retry == Some(RetryRun(now, todo)) && todo == Selected(events, now)
    {
      StepKeepsInv(View(), BeginRetry);
      todo := Selected(events, now);
      retry := Some(RetryRun(now, todo));
      assert View() == Next(old(View()), BeginRetry);
    }

    /** One turn of the loop. */
    method RetryOne(outcome: Outcome) returns (sent: bool)
      requires Valid() && retry.Some? && retry.value.todo != []
      modifies this
      ensures Valid() && now == old(now)
      ensures retry == Some(RetryRun(old(retry.value.started), old(retry.value.todo)[1..]))
      ensures var i := old(retry.value.todo)[0];
              i < |old(events)| && sent == outcome.Acknowledged? &&
              var e, at := old(events)[i], if outcome.Missing? then old(retry.value.started) else now;
              events == old(events)[i := Event(e.voucher, if sent then Sent else Failed, e.attempts + 1, Some(at),
                                               e.history + [(at, sent)])]
    {
      StepKeepsInv(View(), RetryNext(outcome));
      var run := retry.value;
      var i := run.todo[0];
      assert i in run.todo;
      sent := outcome.Acknowledged?;
      events := events[i := Attempted(events[i], if outcome.Missing? then run.started else now, sent)];
      retry := Some(RetryRun(run.started, run.todo[1..]));
      assert View() == Next(old(View()), RetryNext(outcome));
    }

    /** Time passes, whatever else is going on. */
    method Wait(seconds: nat)
      requires Valid()
      modifies this`now
      ensures Valid() && now == old(now) + seconds
    {
      hide Inv;
      StepKeepsInv(View(), Tick(seconds));
      now := now + seconds;
    }

    /** retry_failed_coa_events, each send taking its time: every event that failed fewer than
        three times and over two minutes ago is attempted once, in turn and when its turn comes,
        nothing else is touched, and the counters are the numbers of those events and of those
        acknowledged. An event whose router or voucher is gone gets the time the run began. */
    method Run(outcomes: seq<Outcome>, took: seq<nat>) returns (retried: nat, sent: nat, stillFailed: nat)
      requires Valid() && retry.None? && |outcomes| == |took| == |events|
      modifies this
      ensures Valid() && retry.None? && |events| == |old(events)|
      ensures var todo := Selected(old(events), old(now));
              && now == TurnOf(old(now), todo, took, |todo|)
              && AllTried(old(events), events, todo, |todo|, old(now), outcomes, took)
      ensures forall i | 0 <= i < |events| ::
                var e, after := old(events)[i], events[i];
                if e.status == Failed && e.attempts < 3 && e.lastAttempt.Some? && e.lastAttempt.value + 120 < old(now)
                then
                  && after.lastAttempt.Some? && old(now) <= after.lastAttempt.value <= now
                  && (outcomes[i] == Missing ==> after.lastAttempt.value == old(now))
                  && after == Event(e.voucher, if outcomes[i] == Acknowledged then Sent else Failed, e.attempts + 1,
                                    after.lastAttempt,
                                    e.history + [(after.lastAttempt.value, outcomes[i] == Acknowledged)])
                else after == e
      ensures retried == sent + stillFailed
      ensures retried == |set i | 0 <= i < |old(events)| && old(events)[i].status == Failed
                                  && old(events)[i].attempts < 3 && old(events)[i].lastAttempt.Some?
                                  && old(events)[i].lastAttempt.value + 120 < old(now)|
      ensures sent == |set i | 0 <= i < |old(events)| && old(events)[i].status == Failed
                               && old(events)[i].attempts < 3 && old(events)[i].lastAttempt.Some?
                               && old(events)[i].lastAttempt.value + 120 < old(now) && outcomes[i] == Acknowledged|
    {
      hide Inv, Acknowledgements, Selected, AllTried, OthersKept, Ascending, Retryable;
      ghost var was, started := events, now;
      SelectedExact(events, now, 0);
      SelectedAscending(events, now, 0);
      var todo := Begin();
      AcknowledgedNone(outcomes);
      NoneTried(events, todo, now, outcomes, took);
      retried, sent, stillFailed := 0, 0, 0;
      while retried < |todo|
        invariant retried <= |todo| && retry == Some(RetryRun(started, todo[retried..]))
        invariant Valid() && |events| == |was| && now == TurnOf(started, todo, took, retried)
        invariant AllTried(was, events, todo, retried, started, outcomes, took)
        invariant OthersKept(was, events, todo, retried)
        invariant retried == sent + stillFailed && sent == Acknowledgements(todo[..retried], outcomes)
      {
        var i := todo[retried];
        assert i in todo;
        assert todo[retried..][0] == i && todo[retried..][1..] == todo[retried + 1..];
        OneMoreChanged(was, events, todo, retried, Tried(events[i], started, now, outcomes[i]));
        OneMoreTried(was, events, todo, retried, started, outcomes, took);
        AcknowledgedMore(todo, retried, outcomes);
        var ok := RetryOne(outcomes[i]);
        Wait(took[i]);
        if ok { sent := sent + 1; } else { stillFailed := stillFailed + 1; }
        retried := retried + 1;
      }
      assert todo[..retried] == todo;
      UnselectedKept(was, events, todo);
      RunMeans(was, events, todo, started, outcomes, took);
      RunCounts(was, started, outcomes);
      RunEnds(View());
      retry := None;
    }
  }

  /** A finished run stops holding anything. */
  lemma RunEnds(s: State)
    requires Inv(s)
    ensures Inv(s.(retry := None))
  {}

  /** When the k-th event's turn comes. */
  function TurnOf(started: int, todo: seq<nat>, took: seq<nat>, k: nat): int
    requires k <= |todo|
  {
    if k == 0 then started
    else
      var i := todo[k - 1];
      TurnOf(started, todo, took, k - 1) + if i < |took| then took[i] else 0
  }

  /** Event i as an attempt at this turn of the run leaves it. */
  function Tried(e: Event, started: int, turn: int, outcome: Outcome): Event {
    Attempted(e, if outcome.Missing? then started else turn, outcome.Acknowledged?)
  }

  /** The first k events of the run have each had their one attempt. */
  predicate AllTried(was: seq<Event>, events: seq<Event>, todo: seq<nat>, k: nat, started: int,
                     outcomes: seq<Outcome>, took: seq<nat>)
    requires k <= |todo|
  {
    forall j | 0 <= j < k ::
      var i := todo[j];
      && i < |was| && i < |events| && i < |outcomes|
      && events[i] == Tried(was[i], started, TurnOf(started, todo, took, j), outcomes[i])
  }

  /** No event but the first k of the run has changed. */
  predicate OthersKept(was: seq<Event>, events: seq<Event>, todo: seq<nat>, k: nat)
    requires k <= |todo|
  {
    |events| == |was| && forall i | 0 <= i < |was| && i !in todo[..k] :: events[i] == was[i]
  }

  lemma OneMoreTried(was: seq<Event>, events: seq<Event>, todo: seq<nat>, k: nat, started: int,
                     outcomes: seq<Outcome>, took: seq<nat>)
    requires k < |todo| && todo[k] < |was| == |events| <= |outcomes| && Ascending(todo)
    requires AllTried(was, events, todo, k, started, outcomes, took) && events[todo[k]] == was[todo[k]]
    ensures var i := todo[k];
            var e := Tried(events[i], started, TurnOf(started, todo, took, k), outcomes[i]);
            AllTried(was, events[i := e], todo, k + 1, started, outcomes, took)
  {
    hide Tried, TurnOf;
  }

  lemma OneMoreChanged(was: seq<Event>, events: seq<Event>, todo: seq<nat>, k: nat, e: Event)
    requires k < |todo| && todo[k] < |was| && Ascending(todo) && OthersKept(was, events, todo, k)
    ensures events[todo[k]] == was[todo[k]] && OthersKept(was, events[todo[k] := e], todo, k + 1)
  {
    NotYetDone(todo, k);
    assert todo[..k + 1] == todo[..k] + [todo[k]];
  }

  lemma NoneTried(events: seq<Event>, todo: seq<nat>, started: int, outcomes: seq<Outcome>, took: seq<nat>)
    ensures AllTried(events, events, todo, 0, started, outcomes, took) && OthersKept(events, events, todo, 0)
  {}

  lemma UnselectedKept(was: seq<Event>, events: seq<Event>, todo: seq<nat>)
    requires OthersKept(was, events, todo, |todo|)
    ensures |events| == |was| && forall i | 0 <= i < |was| && i !in todo :: events[i] == was[i]
  {
    assert todo[..|todo|] == todo;
  }

  lemma {:induction false} TurnsAscend(started: int, todo: seq<nat>, took: seq<nat>, j: nat, k: nat)
    requires j <= k <= |todo|
    ensures started <= TurnOf(started, todo, took, j) <= TurnOf(started, todo, took, k)
    decreases k
  {
    if j < k {
      TurnsAscend(started, todo, took, j, k - 1);
    } else if k > 0 {
      TurnsAscend(started, todo, took, k - 1, k - 1);
    }
  }

  /** What a finished run has done to each row. */
  lemma RunMeans(was: seq<Event>, events: seq<Event>, todo: seq<nat>, started: int, outcomes: seq<Outcome>,
                 took: seq<nat>)
    requires todo == Selected(was, started) && |was| == |events| <= |outcomes|
    requires AllTried(was, events, todo, |todo|, started, outcomes, took)
    requires forall i | 0 <= i < |was| && i !in todo :: events[i] == was[i]
    ensures forall i | 0 <= i < |events| ::
              var e, after := was[i], events[i];
              if e.status == Failed && e.attempts < 3 && e.lastAttempt.Some? && e.lastAttempt.value + 120 < started
              then
                && after.lastAttempt.Some?
                && started <= after.lastAttempt.value <= TurnOf(started, todo, took, |todo|)
                && (outcomes[i] == Missing ==> after.lastAttempt.value == started)
                && after == Event(e.voucher, if outcomes[i] == Acknowledged then Sent else Failed, e.attempts + 1,
                                  after.lastAttempt,
                                  e.history + [(after.lastAttempt.value, outcomes[i] == Acknowledged)])
              else after == e
  {
    hide Selected, TurnOf;
    SelectedExact(was, started, 0);
    forall i | 0 <= i < |events| && i in todo
      ensures var e, after := was[i], events[i];
              && after.lastAttempt.Some?
              && started <= after.lastAttempt.value <= TurnOf(started, todo, took, |todo|)
              && (outcomes[i] == Missing ==> after.lastAttempt.value == started)
              && after == Event(e.voucher, if outcomes[i] == Acknowledged then Sent else Failed, e.attempts + 1,
                                after.lastAttempt, e.history + [(after.lastAttempt.value, outcomes[i] == Acknowledged)])
    {
      var j :| 0 <= j < |todo| && todo[j] == i;
      TurnsAscend(started, todo, took, j, |todo|);
    }
  }

  lemma {:induction false} AcknowledgedConcat(a: seq<nat>, b: seq<nat>, outcomes: seq<Outcome>)
    ensures Acknowledgements(a + b, outcomes) == Acknowledgements(a, outcomes) + Acknowledgements(b, outcomes)
    decreases |b|
  {
    if b == [] {
      assert a + b == a;
    } else {
      var n := |b| - 1;
      assert (a + b)[..|a + b| - 1] == a + b[..n];
      AcknowledgedConcat(a, b[..n], outcomes);
    }
  }

  lemma {:induction false} SelectedCount(events: seq<Event>, now: int, from: nat)
    requires from <= |events|
    ensures |Selected(events, now, from)| == |set i | from <= i < |events| && Retryable(events[i], now)|
    decreases |events| - from
  {
    hide Retryable;
    if from < |events| {
      SelectedCount(events, now, from + 1);
      Sequences.OneMoreIndex((set i | from + 1 <= i < |events| && Retryable(events[i], now)),
                             (set i | from <= i < |events| && Retryable(events[i], now)),
                             from, Retryable(events[from], now));
    }
  }

  lemma OneAcknowledged(i: nat, rest: seq<nat>, outcomes: seq<Outcome>)
    requires i < |outcomes|
    ensures Acknowledgements([i] + rest, outcomes)
            == Acknowledgements(rest, outcomes) + if outcomes[i] == Acknowledged then 1 else 0
  {
    AcknowledgedConcat([i], rest, outcomes);
    AcknowledgedNone(outcomes);
    AcknowledgedMore([i], 0, outcomes);
    assert [i][..1] == [i] && [i][..0] == [];
  }

  lemma {:induction false} AcknowledgedCount(events: seq<Event>, now: int, from: nat, outcomes: seq<Outcome>)
    requires from <= |events| == |outcomes|
    ensures Acknowledgements(Selected(events, now, from), outcomes)
            == |set i | from <= i < |events| && Retryable(events[i], now) && outcomes[i] == Acknowledged|
    decreases |events| - from
  {
    hide Retryable;
    if from < |events| {
      var rest := Selected(events, now, from + 1);
      AcknowledgedCount(events, now, from + 1, outcomes);
      OneAcknowledged(from, rest, outcomes);
      assert [] + rest == rest;
      hide Acknowledgements;
      Sequences.OneMoreIndex(
        (set i | from + 1 <= i < |events| && Retryable(events[i], now) && outcomes[i] == Acknowledged),
        (set i | from <= i < |events| && Retryable(events[i], now) && outcomes[i] == Acknowledged),
        from, Retryable(events[from], now) && outcomes[from] == Acknowledged);
    }
  }

  /** The sizes of what a run selects and of what is acknowledged. */
  lemma RunCounts(was: seq<Event>, started: int, outcomes: seq<Outcome>)
    requires |was| == |outcomes|
    ensures |Selected(was, started)|
            == |set i | 0 <= i < |was| && was[i].status == Failed && was[i].attempts < 3
                        && was[i].lastAttempt.Some? && was[i].lastAttempt.value + 120 < started|
    ensures Acknowledgements(Selected(was, started), outcomes)
            == |set i | 0 <= i < |was| && was[i].status == Failed && was[i].attempts < 3
                        && was[i].lastAttempt.Some? && was[i].lastAttempt.value + 120 < started
                        && outcomes[i] == Acknowledged|
  {
    hide Selected, Acknowledgements;
    SelectedCount(was, started, 0);
    AcknowledgedCount(was, started, 0, outcomes);
    assert (set i | 0 <= i < |was| && Retryable(was[i], started))
        == (set i | 0 <= i < |was| && was[i].status == Failed && was[i].attempts < 3
                    && was[i].lastAttempt.Some? && was[i].lastAttempt.value + 120 < started);
    assert (set i | 0 <= i < |was| && Retryable(was[i], started) && outcomes[i] == Acknowledged)
        == (set i | 0 <= i < |was| && was[i].status == Failed && was[i].attempts < 3
                    && was[i].lastAttempt.Some? && was[i].lastAttempt.value + 120 < started
                    && outcomes[i] == Acknowledged);
  }

  lemma NotYetDone(todo: seq<nat>, n: nat)
    requires Ascending(todo) && n < |todo|
    ensures todo[n] !in todo[..n]
  {}
}
