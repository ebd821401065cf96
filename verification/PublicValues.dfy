/** The one-minute cache behind the public pages (backend/src/admin_portal/public_values.py):
    a check, a lock, a second check, and at most one load at a time. Requests interleave at
    every await and are not cancelled; the clock is monotonic, in seconds. */
module PublicValues {
  import opened Options

  const TTL_SECONDS: nat := 60
  const RETRY_SECONDS: nat := 10

  type Values = int

  datatype Phase = Waiting | Loading | Returned(values: Option<Values>)

  /** One call of _load: until when it ran and what it gave, once it has ended. */
  datatype Load = Load(start: nat, end: Option<nat>, result: Option<Values>)

  datatype Notice = RefreshFailed | Recovered

  /** loads and notices are the history: every load started, every log line written. */
  datatype State = State(
    now: nat,
    values: Option<Values>,
    freshUntil: nat,
    failing: bool,
    holder: Option<nat>,
    requests: map<nat, Phase>,
    loads: seq<Load>,
    notices: seq<Notice>)

  const INITIAL := State(0, None, 0, false, None, map[], [], [])

  datatype Step =
    | Tick(seconds: nat)
    | Arrive(id: nat)
    | TakeLock(id: nat)
    | LoadSucceeds(id: nat, values: Values)
    | LoadFails(id: nat)

  predicate IsPhase(s: State, id: nat, phase: Phase) { id in s.requests && s.requests[id] == phase }

  /** The last load ends. */
  function EndLast(loads: seq<Load>, end: nat, result: Option<Values>): seq<Load>
    requires loads != []
  {
    var last := |loads| - 1;
    loads[last := Load(loads[last].start, Some(end), result)]
  }

  /** Each step runs from one await to the next; a step no request is ready for changes nothing. */
  function Next(s: State, step: Step): State {
    match step
    case Tick(seconds) => s.(now := s.now + seconds)
    case Arrive(id) =>
      if id in s.requests then s
      else if s.values.Some? && s.now < s.freshUntil then s.(requests := s.requests[id := Returned(s.values)])
      else s.(requests := s.requests[id := Waiting])
    case TakeLock(id) =>
      if !IsPhase(s, id, Waiting) || s.holder.Some? then s
      else if s.now < s.freshUntil then s.(requests := s.requests[id := Returned(s.values)])
      else s.(holder := Some(id), requests := s.requests[id := Loading], loads := s.loads + [Load(s.now, None, None)])
    case LoadSucceeds(id, v) =>
      if !IsPhase(s, id, Loading) || s.loads == [] then s
      else s.(values := Some(v), freshUntil := s.now + TTL_SECONDS, failing := false, holder := None,
              requests := s.requests[id := Returned(Some(v))], loads := EndLast(s.loads, s.now, Some(v)),
              notices := if s.failing then s.notices + [Recovered] else s.notices)
    case LoadFails(id) =>
      if !IsPhase(s, id, Loading) || s.loads == [] then s
      else s.(freshUntil := s.now + RETRY_SECONDS, failing := true, holder := None,
              requests := s.requests[id := Returned(s.values)], loads := EndLast(s.loads, s.now, None),
              notices := if s.failing then s.notices else s.notices + [RefreshFailed])
  }

  // ------------------------------------------------------------ what history says

  /** How long after a load the next may start. */
  function Pause(l: Load): nat { if l.result.Some? then TTL_SECONDS else RETRY_SECONDS }

  /** The value of the newest load that succeeded. */
  function LatestGood(loads: seq<Load>): Option<Values> {
    if loads == [] then None
    else if loads[|loads| - 1].result.Some? then loads[|loads| - 1].result
    else LatestGood(loads[..|loads| - 1])
  }

  /** Loads follow one another: none starts before the one before has ended and its pause is over. */
  predicate Spaced(loads: seq<Load>) {
    && (forall i | 0 <= i < |loads| - 1 ::
         loads[i].end.Some? && loads[i].start <= loads[i].end.value
         && loads[i].end.value + Pause(loads[i]) <= loads[i + 1].start)
    && (forall i | 0 <= i < |loads| && loads[i].end.None? :: loads[i].result.None?)
  }

  /** The load that last ended: the one before the last while the last is under way. */
  function LastEnded(s: State): Option<Load> {
    var n := if s.holder.Some? then |s.loads| - 1 else |s.loads|;
    if n <= 0 then None else Some(s.loads[n - 1])
  }

  predicate Alternating(notices: seq<Notice>) {
    forall i | 0 <= i < |notices| :: notices[i] == if i % 2 == 0 then RefreshFailed else Recovered
  }

  /** At most one load is under way, by the request that holds the lock. */
  predicate LoadsOk(s: State) {
    && Spaced(s.loads)
    && (forall i | 0 <= i < |s.loads| :: s.loads[i].start <= s.now)
    && (s.loads != [] ==>
          var last := s.loads[|s.loads| - 1];
          if s.holder.Some? then last.end.None? else last.end.Some? && last.start <= last.end.value)
    && (s.holder.Some? ==> s.loads != [])
  }

  predicate HolderOk(s: State) {
    && (forall id <- s.requests.Keys :: s.requests[id] == Loading <==> s.holder == Some(id))
    && (s.holder.Some? ==> s.holder.value in s.requests)
  }

  /** The globals say how the newest finished load went and until when it counts. */
  predicate FlagsOk(s: State) {
    match LastEnded(s)
    case None => s.freshUntil == 0 && !s.failing
    case Some(l) => l.end.Some? && l.end.value <= s.now && s.freshUntil == l.end.value + Pause(l)
                    && (s.failing <==> l.result.None?)
  }

  predicate NoticesOk(s: State) { Alternating(s.notices) && (s.failing <==> |s.notices| % 2 == 1) }

  predicate Inv(s: State) {
    LoadsOk(s) && HolderOk(s) && s.values == LatestGood(s.loads) && FlagsOk(s) && NoticesOk(s)
  }

  // ------------------------------------------------- one more load, one load ended

  lemma SpacedBegin(loads: seq<Load>, now: nat)
    requires Spaced(loads)
    requires loads != [] ==>
               var last := loads[|loads| - 1];
               last.end.Some? && last.start <= last.end.value && last.end.value + Pause(last) <= now
    ensures Spaced(loads + [Load(now, None, None)])
  {}

  lemma SpacedEnd(loads: seq<Load>, end: nat, result: Option<Values>)
    requires Spaced(loads) && loads != [] && loads[|loads| - 1].start <= end
    ensures Spaced(EndLast(loads, end, result))
  {}

  lemma LatestGoodBegin(loads: seq<Load>, now: nat)
    ensures LatestGood(loads + [Load(now, None, None)]) == LatestGood(loads)
  {
    assert (loads + [Load(now, None, None)])[..|loads|] == loads;
  }

  lemma LatestGoodEnd(loads: seq<Load>, end: nat, result: Option<Values>)
    requires loads != [] && loads[|loads| - 1].result.None?
    ensures LatestGood(EndLast(loads, end, result)) == if result.Some? then result else LatestGood(loads)
  {
    assert EndLast(loads, end, result)[..|loads| - 1] == loads[..|loads| - 1];
  }

  lemma AlternatingMore(notices: seq<Notice>)
    requires Alternating(notices)
    ensures Alternating(notices + [if |notices| % 2 == 0 then RefreshFailed else Recovered])
  {}

  lemma RunningLoad(s: State)
    requires LoadsOk(s) && s.holder.Some?
    ensures s.loads != []
    ensures var last := s.loads[|s.loads| - 1]; last.end.None? && last.result.None? && last.start <= s.now
  {}

  // ---------------------------------------------------------- every step keeps it

  function Ending(id: nat, result: Option<Values>): Step {
    if result.Some? then LoadSucceeds(id, result.value) else LoadFails(id)
  }

  lemma EndingKeepsLoads(s: State, id: nat, result: Option<Values>)
    requires LoadsOk(s) && s.holder.Some? && IsPhase(s, id, Loading)
    ensures LoadsOk(Next(s, Ending(id, result)))
  {
    RunningLoad(s);
    SpacedEnd(s.loads, s.now, result);
    hide Spaced;
  }

  lemma EndingSetsFlags(s: State, id: nat, result: Option<Values>)
    requires LoadsOk(s) && s.holder.Some? && IsPhase(s, id, Loading)
    ensures FlagsOk(Next(s, Ending(id, result)))
  {
    RunningLoad(s);
    hide LoadsOk;
  }

  lemma EndingFreesTheLock(s: State, id: nat, result: Option<Values>)
    requires HolderOk(s) && IsPhase(s, id, Loading)
    ensures HolderOk(Next(s, Ending(id, result)))
  {}

  lemma EndingKeepsNotices(s: State, id: nat, result: Option<Values>)
    requires NoticesOk(s)
    ensures NoticesOk(Next(s, Ending(id, result)))
  {
    AlternatingMore(s.notices);
    hide Alternating;
  }

  lemma EndingKeepsInv(s: State, id: nat, result: Option<Values>)
    requires Inv(s) && IsPhase(s, id, Loading)
    ensures Inv(Next(s, Ending(id, result)))
  {
    RunningLoad(s);
    EndingKeepsLoads(s, id, result);
    EndingSetsFlags(s, id, result);
    EndingFreesTheLock(s, id, result);
    EndingKeepsNotices(s, id, result);
    LatestGoodEnd(s.loads, s.now, result);
    hide LoadsOk, HolderOk, FlagsOk, NoticesOk, LatestGood, EndLast;
  }

  lemma BeginningKeepsLoads(s: State, id: nat)
    requires LoadsOk(s) && FlagsOk(s) && IsPhase(s, id, Waiting) && s.holder.None? && s.now >= s.freshUntil
    ensures LoadsOk(Next(s, TakeLock(id))) && FlagsOk(Next(s, TakeLock(id)))
  {
    SpacedBegin(s.loads, s.now);
    hide Spaced;
  }

  lemma BeginningKeepsInv(s: State, id: nat)
    requires Inv(s) && IsPhase(s, id, Waiting) && s.holder.None? && s.now >= s.freshUntil
    ensures Inv(Next(s, TakeLock(id)))
  {
    hide LoadsOk, FlagsOk, LatestGood, Alternating;
    BeginningKeepsLoads(s, id);
    LatestGoodBegin(s.loads, s.now);
  }

  lemma AnsweringKeepsInv(s: State, id: nat, phase: Phase)
    requires Inv(s) && !phase.Loading? && !IsPhase(s, id, Loading)
    ensures Inv(s.(requests := s.requests[id := phase]))
  {
    hide Spaced, LatestGood, Alternating;
  }

  lemma TickKeepsInv(s: State, seconds: nat)
    requires Inv(s)
    ensures Inv(s.(now := s.now + seconds))
  {
    hide Spaced, LatestGood, Alternating;
  }

  lemma StepKeepsInv(s: State, step: Step)
    requires Inv(s)
    ensures Inv(Next(s, step))
  {
    hide Inv;
    match step {
      case Tick(seconds) => TickKeepsInv(s, seconds);
      case Arrive(id) =>
        if id !in s.requests {
          AnsweringKeepsInv(s, id, if s.values.Some? && s.now < s.freshUntil then Returned(s.values) else Waiting);
        }
      case TakeLock(id) =>
        if IsPhase(s, id, Waiting) && s.holder.None? {
          if s.now < s.freshUntil { AnsweringKeepsInv(s, id, Returned(s.values)); } else { BeginningKeepsInv(s, id); }
        }
      case LoadSucceeds(id, v) => if IsPhase(s, id, Loading) { EndingKeepsInv(s, id, Some(v)); }
      case LoadFails(id) => if IsPhase(s, id, Loading) { EndingKeepsInv(s, id, None); }
    }
  }

  /** What a method of the module relies on, kept apart from how it is kept. */
  lemma InvMeans(s: State)
    requires Inv(s)
    ensures s.values == LatestGood(s.loads)
    ensures forall id: nat :: IsPhase(s, id, Loading) ==> s.holder == Some(id) && s.loads != []
  {}

  function Exec(s: State, steps: seq<Step>): (t: State)
    requires Inv(s)
    ensures Inv(t)
    decreases |steps|
  {
    if steps == [] then s
    else
      StepKeepsInv(s, steps[0]);
      Exec(Next(s, steps[0]), steps[1..])
  }

  /** Loads never overlap, and the next starts at least 10 s after a failed one ended and
      60 s after a good one, in any interleaving of any number of requests. */
  lemma LoadsAreSpaced(steps: seq<Step>, i: nat, j: nat)
    requires i < j < |Exec(INITIAL, steps).loads|
    ensures var loads := Exec(INITIAL, steps).loads;
            && loads[i].end.Some?
            && loads[i].start <= loads[i].end.value
            && loads[i].end.value + (if loads[i].result.Some? then 60 else 10) <= loads[j].start
  {
    RunsAreSpaced(steps);
    hide Exec;
    SpacedApart(Exec(INITIAL, steps).loads, i, j);
  }

  lemma RunsAreSpaced(steps: seq<Step>)
    ensures Inv(INITIAL) && Spaced(Exec(INITIAL, steps).loads)
  {
    hide Spaced, Next;
    assert Inv(INITIAL) by { InitialIsFine(); }
    assert LoadsOk(Exec(INITIAL, steps));
  }

  lemma InitialIsFine()
    ensures Inv(INITIAL)
  {}

  lemma {:induction false} SpacedApart(loads: seq<Load>, i: nat, j: nat)
    requires Spaced(loads) && i < j < |loads|
    ensures loads[i].end.Some? && loads[i].start <= loads[i].end.value
    ensures loads[i].end.value + Pause(loads[i]) <= loads[j].start
    decreases j
  {
    if j > i + 1 { SpacedApart(loads, i, j - 1); }
  }

  /** The load a value came from is the newest and less than a minute old. */
  ghost predicate JustLoaded(s: State, values: Option<Values>) {
    exists i | 0 <= i < |s.loads| ::
      && s.loads[i].result == values && values.Some?
      && s.loads[i].end.Some? && s.now < s.loads[i].end.value + TTL_SECONDS
  }

  lemma FreshIsJustLoaded(s: State)
    requires Inv(s) && s.now < s.freshUntil && !s.failing
    ensures JustLoaded(s, s.values)
  {}

  lemma AnswerIsTheValues(s: State, step: Step, id: nat)
    requires id in Next(s, step).requests && Next(s, step).requests[id].Returned?
    requires !(id in s.requests && s.requests[id].Returned?)
    ensures Next(s, step).now < Next(s, step).freshUntil
    ensures Next(s, step).requests[id].values == Next(s, step).values
  {}

  /** What a request gets the moment it is answered is the newest good load's value; that
      is nothing only when no load has ever succeeded; and unless the newest refresh
      failed, that load ended less than a minute ago. */
  lemma AnswersAreCurrent(s: State, step: Step, id: nat)
    requires Inv(s)
    requires id in Next(s, step).requests && Next(s, step).requests[id].Returned?
    requires !(id in s.requests && s.requests[id].Returned?)
    ensures var t := Next(s, step);
            var got := t.requests[id].values;
            && got == LatestGood(t.loads)
            && (got.None? <==> forall i | 0 <= i < |t.loads| :: t.loads[i].result.None?)
            && (got.Some? ==> exists i | 0 <= i < |t.loads| ::
                  t.loads[i].result == got && forall k | i < k < |t.loads| :: t.loads[k].result.None?)
            && (!t.failing ==> exists i | 0 <= i < |t.loads| ::
                  t.loads[i].result == got && got.Some? && t.loads[i].end.Some? && t.now < t.loads[i].end.value + 60)
  {
    StepKeepsInv(s, step);
    var t := Next(s, step);
    LatestGoodIs(t.loads);
    AnswerIsTheValues(s, step, id);
    if !t.failing { FreshIsJustLoaded(t); }
  }

  lemma {:induction false} LatestGoodIs(loads: seq<Load>)
    ensures LatestGood(loads).None? <==> forall i | 0 <= i < |loads| :: loads[i].result.None?
    ensures LatestGood(loads).Some? ==> exists i | 0 <= i < |loads| ::
              loads[i].result == LatestGood(loads) && forall k | i < k < |loads| :: loads[k].result.None?
    decreases |loads|
  {
    if loads != [] {
      var n := |loads| - 1;
      LatestGoodIs(loads[..n]);
      if loads[n].result.Some? {
        assert loads[n].result == LatestGood(loads);
      } else if LatestGood(loads[..n]).Some? {
        var i :| 0 <= i < n && loads[..n][i].result == LatestGood(loads[..n])
                 && forall k | i < k < n :: loads[..n][k].result.None?;
        assert loads[i] == loads[..n][i];
        forall k | i < k < |loads| ensures loads[k].result.None? {
          if k < n { assert loads[k] == loads[..n][k]; }
        }
      }
    }
  }

  /** The flag says how the newest load that has ended went. */
  lemma FailingMeans(s: State)
    requires Inv(s)
    ensures var n := if s.holder.Some? then |s.loads| - 1 else |s.loads|;
            s.failing <==> n > 0 && s.loads[n - 1].result.None?
  {
    hide LoadsOk, HolderOk, NoticesOk, LatestGood;
  }

  /** However long an outage lasts it is logged once, and its end once. */
  lemma OutagesLoggedOnce(steps: seq<Step>)
    ensures Inv(INITIAL)
    ensures var notices := Exec(INITIAL, steps).notices;
            forall i | 0 <= i < |notices| :: notices[i] == if i % 2 == 0 then RefreshFailed else Recovered
    ensures Exec(INITIAL, steps).failing <==> |Exec(INITIAL, steps).notices| % 2 == 1
  {
    assert Inv(INITIAL) by { InitialIsFine(); }
    hide Next, LoadsOk, HolderOk, FlagsOk, LatestGood;
    NoticesAre(Exec(INITIAL, steps));
  }

  lemma NoticesAre(s: State)
    requires Inv(s)
    ensures forall i | 0 <= i < |s.notices| :: s.notices[i] == if i % 2 == 0 then RefreshFailed else Recovered
    ensures s.failing <==> |s.notices| % 2 == 1
  {
    hide LoadsOk, HolderOk, FlagsOk, LatestGood;
  }

  // ---------------------------------------------------------- the module as a class

  /** The module globals; a method per stretch between two awaits. */
  class Cache {
    var now: nat
    var values: Option<Values>
    var freshUntil: nat
    var failing: bool
    var holder: Option<nat>
    var requests: map<nat, Phase>
    ghost var loads: seq<Load>
    var notices: seq<Notice>

    ghost function View(): State
      reads this
    {
      State(now, values, freshUntil, failing, holder, requests, loads, notices)
    }

    ghost predicate Valid() reads this { Inv(View()) }

    constructor ()
      ensures Valid() && View() == INITIAL
    {
      now, values, freshUntil, failing, holder, requests, loads, notices := 0, None, 0, false, None, map[], [], [];
    }

    /** The check without the lock. */
    method Arrive(id: nat) returns (answer: Option<Values>)
      requires Valid() && id !in requests
      modifies this
      ensures Valid() && View() == Next(old(View()), Step.Arrive(id))
      ensures answer.Some? ==> answer == LatestGood(loads)
      ensures answer == if values.Some? && now < freshUntil then values else None
    {
      hide Inv, LatestGood;
      StepKeepsInv(View(), Step.Arrive(id));
      InvMeans(View());
      if values.Some? && now < freshUntil {
        requests := requests[id := Returned(values)];
        return values;
      }
      requests := requests[id := Waiting];
      return None;
    }

    /** Under the lock: the second check, else the load begins. */
    method Enter(id: nat) returns (loading: bool)
      requires Valid() && IsPhase(View(), id, Waiting) && holder.None?
      modifies this
      ensures Valid() && View() == Next(old(View()), TakeLock(id))
      ensures loading <==> IsPhase(View(), id, Loading)
      ensures loading <==> now >= freshUntil
      ensures loading ==> holder == Some(id) && loads == old(loads) + [Load(now, None, None)]
      ensures !loading ==> IsPhase(View(), id, Returned(values)) && loads == old(loads)
    {
      hide Inv, Next;
      StepKeepsInv(View(), TakeLock(id));
      LockTaken(View(), id);
      loading := now >= freshUntil;
      if loading {
        holder := Some(id);
        loads := loads + [Load(now, None, None)];
        requests := requests[id := Loading];
      } else {
        requests := requests[id := Returned(values)];
      }
    }

    /** The except branch: keep what there is and try again after the pause. */
    method KeepOld(id: nat) returns (answer: Option<Values>)
      requires Valid() && IsPhase(View(), id, Loading)
      modifies this
      ensures Valid() && View() == Next(old(View()), LoadFails(id))
      ensures values == old(values) && freshUntil == now + 10 && failing && holder.None?
      ensures notices == if old(failing) then old(notices) else old(notices) + [RefreshFailed]
      ensures IsPhase(View(), id, Returned(answer)) && answer == LatestGood(loads)
    {
      hide Inv, Next, LatestGood, EndLast;
      StepKeepsInv(View(), LoadFails(id));
      InvMeans(View());
      InvMeans(Next(View(), LoadFails(id)));
      LoadFailed(View(), id);
      loads := EndLast(loads, now, None);
      if !failing { notices := notices + [RefreshFailed]; }
      failing := true;
      freshUntil := now + RETRY_SECONDS;
      holder := None;
      requests := requests[id := Returned(values)];
      return values;
    }

    /** The load's values take over. */
    method TakeNew(id: nat, loaded: Values) returns (answer: Option<Values>)
      requires Valid() && IsPhase(View(), id, Loading)
      modifies this
      ensures Valid() && View() == Next(old(View()), LoadSucceeds(id, loaded))
      ensures values == Some(loaded) && freshUntil == now + 60 && !failing && holder.None?
      ensures notices == if old(failing) then old(notices) + [Recovered] else old(notices)
      ensures IsPhase(View(), id, Returned(answer)) && answer == LatestGood(loads)
    {
      hide Inv, Next, LatestGood, EndLast;
      StepKeepsInv(View(), LoadSucceeds(id, loaded));
      InvMeans(View());
      InvMeans(Next(View(), LoadSucceeds(id, loaded)));
      LoadSucceeded(View(), id, loaded);
      loads := EndLast(loads, now, Some(loaded));
      if failing { notices := notices + [Recovered]; }
      values, freshUntil, failing := Some(loaded), now + TTL_SECONDS, false;
      holder := None;
      requests := requests[id := Returned(values)];
      return values;
    }
  }

  lemma LockTaken(s: State, id: nat)
    requires IsPhase(s, id, Waiting) && s.holder.None?
    ensures Next(s, TakeLock(id)) ==
            if s.now < s.freshUntil then s.(requests := s.requests[id := Returned(s.values)])
            else s.(holder := Some(id), loads := s.loads + [Load(s.now, None, None)],
                    requests := s.requests[id := Loading])
  {}

  lemma LoadFailed(s: State, id: nat)
    requires IsPhase(s, id, Loading) && s.loads != []
    ensures Next(s, LoadFails(id)) ==
            State(s.now, s.values, s.now + RETRY_SECONDS, true, None, s.requests[id := Returned(s.values)],
                  EndLast(s.loads, s.now, None), if s.failing then s.notices else s.notices + [RefreshFailed])
  {}

  lemma LoadSucceeded(s: State, id: nat, v: Values)
    requires IsPhase(s, id, Loading) && s.loads != []
    ensures Next(s, LoadSucceeds(id, v)) ==
            State(s.now, Some(v), s.now + TTL_SECONDS, false, None, s.requests[id := Returned(Some(v))],
                  EndLast(s.loads, s.now, Some(v)), if s.failing then s.notices + [Recovered] else s.notices)
  {}
}
