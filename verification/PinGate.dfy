/** The PIN gate (frontend/src/components/pinGate.js): a call that needs a PIN is parked,
    replayed once the PIN clears, and its promise settles with the replay's outcome. Calls,
    answers, cancels and unlocks interleave in any order. */
module PinGate {
  import opened Options

  type CallId = nat

  /** What one execution of a call's function comes back with. */
  datatype Answer = Value(v: int) | Failure(e: int) | PinRequired(reason: int)

  datatype Outcome = Resolved(v: int) | ResolvedUndefined | Rejected(e: int)

  datatype Phase = Running | Parked | Replaying | Settled(outcome: Outcome)

  /** answers: every execution's answer, in order. settlements: how often resolve or
      reject was called. */
  datatype Call = Call(phase: Phase, answers: seq<Answer>, settlements: nat)

  datatype State = State(calls: map<CallId, Call>, parked: Option<CallId>, reason: Option<int>)

  const INITIAL := State(map[], None, None)

  datatype Step = Run(id: CallId) | Answered(id: CallId, answer: Answer) | Cancel | Unlocked

  function Settle(s: State, id: CallId, outcome: Outcome): State
    requires id in s.calls
  {
    var call := s.calls[id];
    s.(calls := s.calls[id := Call(Settled(outcome), call.answers, call.settlements + 1)])
  }

  function SetPhase(s: State, id: CallId, phase: Phase): State
    requires id in s.calls
  {
    s.(calls := s.calls[id := s.calls[id].(phase := phase)])
  }

  /** park: another call already waiting is given up on. */
  function Park(s: State, id: CallId, reason: int): State
    requires id in s.calls && (s.parked.Some? ==> s.parked.value in s.calls)
  {
    var t := if s.parked.Some? && s.parked.value != id then Settle(s, s.parked.value, ResolvedUndefined) else s;
    SetPhase(t, id, Parked).(parked := Some(id), reason := Some(reason))
  }

  /** An execution may come back only for a call that is running or replaying. */
  function Next(s: State, step: Step): State
    requires s.parked.Some? ==> s.parked.value in s.calls
  {
    match step
    case Run(id) => if id in s.calls then s else s.(calls := s.calls[id := Call(Running, [], 0)])
    case Answered(id, answer) =>
      if id !in s.calls || !(s.calls[id].phase.Running? || s.calls[id].phase.Replaying?) then s
      else
        var t := s.(calls := s.calls[id := s.calls[id].(answers := s.calls[id].answers + [answer])]);
        (match answer
         case Value(v) => Settle(t, id, Resolved(v))
         case Failure(e) => Settle(t, id, Rejected(e))
         case PinRequired(reason) => Park(t, id, reason))
    case Cancel =>
      var t := s.(parked := None, reason := None);
      if s.parked.Some? then Settle(t, s.parked.value, ResolvedUndefined) else t
    case Unlocked =>
      var t := s.(parked := None, reason := None);
      if s.parked.Some? then SetPhase(t, s.parked.value, Replaying) else t
  }

  // ----------------------------------------------------------------- the invariant

  predicate AllPinRequired(answers: seq<Answer>) { forall i | 0 <= i < |answers| :: answers[i].PinRequired? }

  /** What a promise settles with after its last answer: a call still refused is given up on. */
  function OutcomeOf(last: Answer): Outcome {
    match last
    case Value(v) => Resolved(v)
    case Failure(e) => Rejected(e)
    case PinRequired(_) => ResolvedUndefined
  }

  /** A call's promise and its executions: it settles once, with the last answer it got,
      or undefined after a last answer that asked for the PIN. */
  predicate CallOk(call: Call) {
    match call.phase
    case Running => call.answers == [] && call.settlements == 0
    case Parked => call.answers != [] && AllPinRequired(call.answers) && call.settlements == 0
    case Replaying => call.answers != [] && AllPinRequired(call.answers) && call.settlements == 0
    case Settled(outcome) =>
      && call.settlements == 1
      && call.answers != []
      && AllPinRequired(call.answers[..|call.answers| - 1])
      && outcome == OutcomeOf(call.answers[|call.answers| - 1])
  }

  /** The parked call is the only one in phase Parked, and the reason shown is the one it
      was last refused for; nothing is shown when none is parked. */
  predicate GateOk(s: State) {
    && (forall id <- s.calls.Keys :: s.calls[id].phase.Parked? <==> s.parked == Some(id))
    && (s.parked.Some? ==> s.parked.value in s.calls)
    && (s.parked.Some? <==> s.reason.Some?)
    && (s.parked.Some? ==>
          var answers := s.calls[s.parked.value].answers;
          answers != [] && answers[|answers| - 1] == PinRequired(s.reason.value))
  }

  predicate Inv(s: State) { GateOk(s) && forall id <- s.calls.Keys :: CallOk(s.calls[id]) }

  lemma AnswerSettlesCall(call: Call, answer: Answer)
    requires CallOk(call) && (call.phase.Running? || call.phase.Replaying?) && !answer.PinRequired?
    ensures CallOk(Call(Settled(OutcomeOf(answer)), call.answers + [answer], call.settlements + 1))
  {
    assert (call.answers + [answer])[..|call.answers|] == call.answers;
  }

  lemma SettlingKeepsInv(s: State, id: CallId, answer: Answer)
    requires Inv(s) && id in s.calls && (s.calls[id].phase.Running? || s.calls[id].phase.Replaying?)
    requires !answer.PinRequired?
    ensures Inv(Next(s, Answered(id, answer)))
  {
    hide CallOk;
    var t := Next(s, Answered(id, answer));
    AnswerSettlesCall(s.calls[id], answer);
    forall other <- t.calls.Keys ensures CallOk(t.calls[other]) { assert CallOk(s.calls[other]); }
  }

  lemma GivingUpKeepsCall(call: Call)
    requires CallOk(call) && call.phase.Parked?
    ensures CallOk(Call(Settled(ResolvedUndefined), call.answers, call.settlements + 1))
  {}

  lemma ParkingKeepsInv(s: State, id: CallId, reason: int)
    requires Inv(s) && id in s.calls && (s.calls[id].phase.Running? || s.calls[id].phase.Replaying?)
    ensures Inv(Next(s, Answered(id, PinRequired(reason))))
  {
    var t := Next(s, Answered(id, PinRequired(reason)));
    if s.parked.Some? { GivingUpKeepsCall(s.calls[s.parked.value]); }
    forall other <- t.calls.Keys ensures CallOk(t.calls[other]) { assert CallOk(s.calls[other]); }
  }

  lemma StepKeepsInv(s: State, step: Step)
    requires Inv(s)
    ensures Inv(Next(s, step))
  {
    match step {
      case Run(_) =>
      case Answered(id, answer) =>
        if id in s.calls && (s.calls[id].phase.Running? || s.calls[id].phase.Replaying?) {
          if answer.PinRequired? { ParkingKeepsInv(s, id, answer.reason); } else { SettlingKeepsInv(s, id, answer); }
        }
      case Cancel =>
        if s.parked.Some? { GivingUpKeepsCall(s.calls[s.parked.value]); }
      case Unlocked =>
    }
  }

  /** A state some interleaving of steps leads to. */
  function Exec(s: State, steps: seq<Step>): (t: State)
    requires Inv(s)
    ensures Inv(t)
    decreases |steps|
  {
    if steps == [] then s
    else
      StepKeepsInv(s, steps[0]);
      Exec(Next(s, steps[0]), steps[1..])
  }

  predicate Quiet(s: State) {
    s.parked.None? && forall id <- s.calls.Keys :: !s.calls[id].phase.Running? && !s.calls[id].phase.Replaying?
  }

  /** After any interleaving: no promise is settled twice, a settled one carries its last
      execution's outcome, the prompt is up exactly when one call waits for it, and once
      nothing runs and nothing is parked nobody is left hanging. */
  lemma GateNeverLosesACall(steps: seq<Step>, id: CallId)
    requires id in Exec(INITIAL, steps).calls
    ensures var s := Exec(INITIAL, steps);
            var call := s.calls[id];
            && call.settlements <= 1
            && (call.settlements == 1 <==> call.phase.Settled?)
            && (call.phase.Parked? <==> s.parked == Some(id))
            && (s.reason.Some? <==> exists other <- s.calls.Keys :: s.calls[other].phase.Parked?)
            && (Quiet(s) ==> call.phase.Settled?)
            && (call.phase.Settled? ==>
                  call.answers != [] &&
                  call.phase.outcome ==
                  match call.answers[|call.answers| - 1]
                  case Value(v) => Resolved(v)
                  case Failure(e) => Rejected(e)
                  case PinRequired(_) => ResolvedUndefined)
            && (forall k | 0 <= k < |call.answers| - 1 :: call.answers[k].PinRequired?)
  {
    assert CallOk(Exec(INITIAL, steps).calls[id]);
  }

  lemma SettledStays(s: State, step: Step, id: CallId)
    requires Inv(s) && id in s.calls && s.calls[id].phase.Settled?
    ensures id in Next(s, step).calls && Next(s, step).calls[id] == s.calls[id]
  {
    hide CallOk;
  }

  /** A settled call stays as it is, whatever happens next. */
  lemma {:induction false} SettledIsFinal(s: State, steps: seq<Step>, id: CallId)
    requires Inv(s) && id in s.calls && s.calls[id].phase.Settled?
    ensures id in Exec(s, steps).calls && Exec(s, steps).calls[id] == s.calls[id]
    decreases |steps|
  {
    hide CallOk;
    if steps != [] {
      StepKeepsInv(s, steps[0]);
      SettledStays(s, steps[0], id);
      hide Next;
      SettledIsFinal(Next(s, steps[0]), steps[1..], id);
    }
  }

  predicate NoAnswerFor(steps: seq<Step>, id: CallId) {
    forall i | 0 <= i < |steps| :: !(steps[i].Answered? && steps[i].id == id)
  }

  lemma ReplayStays(s: State, step: Step, id: CallId)
    requires Inv(s) && id in s.calls && s.calls[id].phase.Replaying? && !(step.Answered? && step.id == id)
    ensures id in Next(s, step).calls && Next(s, step).calls[id] == s.calls[id]
  {
    hide CallOk;
  }

  lemma {:induction false} ReplayingStays(s: State, steps: seq<Step>, id: CallId)
    requires Inv(s) && id in s.calls && s.calls[id].phase.Replaying? && NoAnswerFor(steps, id)
    ensures id in Exec(s, steps).calls && Exec(s, steps).calls[id] == s.calls[id]
    decreases |steps|
  {
    hide CallOk;
    if steps != [] {
      StepKeepsInv(s, steps[0]);
      ReplayStays(s, steps[0], id);
      hide Next;
      ReplayingStays(Next(s, steps[0]), steps[1..], id);
    }
  }

  /** The point of the gate: whatever other calls do once the prompt is unlocked (run, park,
      be cancelled or unlocked themselves), the call that was parked stays a replay until its
      own answer, and settles with that, or is parked again if the PIN is still missing. */
  lemma ReplayReachesTheCaller(s: State, id: CallId, steps: seq<Step>, answer: Answer)
    requires Inv(s) && s.parked == Some(id) && NoAnswerFor(steps, id)
    ensures var t := Exec(s, [Unlocked] + steps);
            var after := Next(t, Answered(id, answer));
            && id in t.calls && t.calls[id].phase.Replaying?
            && id in after.calls
            && after.calls[id].phase ==
               (match answer
                case Value(v) => Settled(Resolved(v))
                case Failure(e) => Settled(Rejected(e))
                case PinRequired(_) => Phase.Parked)
            && (answer.PinRequired? ==> after.parked == Some(id) && after.reason == Some(answer.reason))
  {
    StepKeepsInv(s, Unlocked);
    assert ([Unlocked] + steps)[1..] == steps;
    ReplayingStays(Next(s, Unlocked), steps, id);
  }

  /** A refused call becomes the one waiting; another that was waiting is given up on, its
      promise resolved with undefined; no other call is touched. */
  lemma ParkingGivesUpOnTheOther(s: State, id: CallId, reason: int)
    requires Inv(s) && id in s.calls && (s.calls[id].phase.Running? || s.calls[id].phase.Replaying?)
    ensures var t := Next(s, Answered(id, PinRequired(reason)));
            && t.parked == Some(id) && t.reason == Some(reason) && t.calls.Keys == s.calls.Keys
            && (forall other <- t.calls.Keys :: t.calls[other].phase.Parked? <==> other == id)
            && forall other <- s.calls.Keys | other != id ::
                 t.calls[other] == if s.parked == Some(other)
                                   then Call(Settled(ResolvedUndefined), s.calls[other].answers, 1) else s.calls[other]
  {
    ParkingKeepsInv(s, id, reason);
    forall other <- s.calls.Keys ensures CallOk(s.calls[other]) {}
  }

  // --------------------------------------------------------------- the closure

  /** createPinGate's closure; calls is the promises' side of it. */
  class Gate {
    var parked: Option<CallId>
    var reason: Option<int>
    var calls: map<CallId, Call>

    ghost function View(): State reads this { State(calls, parked, reason) }

    ghost predicate Valid() reads this { Inv(View()) }

    constructor ()
      ensures Valid() && View() == INITIAL
    {
      parked, reason, calls := None, None, map[];
    }

    method SettleCall(id: CallId, outcome: Outcome)
      requires id in calls
      modifies this`calls
      ensures View() == Settle(old(View()), id, outcome)
    {
      calls := calls[id := Call(Settled(outcome), calls[id].answers, calls[id].settlements + 1)];
    }

    method ParkCall(id: CallId, why: int)
      requires id in calls && (parked.Some? ==> parked.value in calls)
      modifies this
      ensures View() == Park(old(View()), id, why)
    {
      if parked.Some? && parked.value != id { SettleCall(parked.value, ResolvedUndefined); }
      parked := Some(id);
      calls := calls[id := calls[id].(phase := Phase.Parked)];
      reason := Some(why);
    }

    /** run, up to calling the function. */
    method Start(id: CallId)
      requires Valid() && id !in calls
      modifies this
      ensures Valid() && View() == Next(old(View()), Run(id))
    {
      StepKeepsInv(View(), Run(id));
      calls := calls[id := Call(Running, [], 0)];
    }

    /** The continuation of run, and of unlocked's await. */
    method Continue(id: CallId, answer: Answer)
      requires Valid() && id in calls && (calls[id].phase.Running? || calls[id].phase.Replaying?)
      modifies this
      ensures Valid() && View() == Next(old(View()), Answered(id, answer))
      ensures id in calls && calls[id].answers == old(calls)[id].answers + [answer]
      ensures calls[id].phase == match answer
                                 case Value(v) => Settled(Resolved(v))
                                 case Failure(e) => Settled(Rejected(e))
                                 case PinRequired(_) => Phase.Parked
      ensures answer.PinRequired? ==> parked == Some(id) && reason == Some(answer.reason)
    {
      StepKeepsInv(View(), Answered(id, answer));
      calls := calls[id := calls[id].(answers := calls[id].answers + [answer])];
      match answer
      case Value(v) => SettleCall(id, Resolved(v));
      case Failure(e) => SettleCall(id, Rejected(e));
      case PinRequired(why) => ParkCall(id, why);
    }

    method CancelPrompt()
      requires Valid()
      modifies this
      ensures Valid() && View() == Next(old(View()), Cancel)
      ensures parked.None? && reason.None? && calls.Keys == old(calls).Keys
      ensures forall id <- calls.Keys ::
                calls[id] == if old(parked) == Some(id) then Call(Settled(ResolvedUndefined), old(calls)[id].answers, 1)
                             else old(calls)[id]
    {
      StepKeepsInv(View(), Cancel);
      assert parked.Some? ==> CallOk(calls[parked.value]);
      var entry := parked;
      parked, reason := None, None;
      if entry.Some? { SettleCall(entry.value, ResolvedUndefined); }
    }

    /** unlocked, up to replaying the function. */
    method Unlock()
      requires Valid()
      modifies this
      ensures Valid() && View() == Next(old(View()), Unlocked)
      ensures parked.None? && reason.None? && calls.Keys == old(calls).Keys
      ensures forall id <- calls.Keys ::
                calls[id] == if old(parked) == Some(id) then Call(Replaying, old(calls)[id].answers, 0)
                             else old(calls)[id]
    {
      StepKeepsInv(View(), Unlocked);
      assert parked.Some? ==> CallOk(calls[parked.value]);
      var entry := parked;
      parked, reason := None, None;
      if entry.Some? { calls := calls[entry.value := calls[entry.value].(phase := Replaying)]; }
    }
  }
}
