/** The non-overlap guard around cron jobs (backend/src/jobs/job_lock.py): SET NX EX on
    entry, then a GET and a separate DELETE on exit. Any number of runs interleave, one
    Redis command at a time; a run may crash anywhere and the clock only moves forward.
    A run's token is a fresh uuid4, so a token is modelled by its run. */
module JobLock {
  import opened Options

  type RunId = nat

  datatype Holder = Holder(run: RunId, expiry: nat)

  /** Leaving: the GET found this run's own token, the DELETE is still to come. */
  datatype Phase =
    | Fresh
    | InBody(deadline: nat)
    | Leaving(deadline: nat)
    | Finished
    | Skipped
    | Crashed

  datatype State = State(now: nat, key: Option<Holder>, runs: map<RunId, Phase>) {
    function PhaseOf(r: RunId): Phase { if r in runs then runs[r] else Fresh }

    predicate KeyIsLive() { key.Some? && now < key.value.expiry }

    /** Past its SET and before its DELETE, and within the TTL it set. */
    predicate Holds(r: RunId) {
      var p := PhaseOf(r);
      (p.InBody? || p.Leaving?) && now < p.deadline
    }

    predicate InsideBody(r: RunId) { PhaseOf(r).InBody? && now < PhaseOf(r).deadline }
  }

  const INITIAL := State(0, None, map[])

  datatype Step =
    | Tick(seconds: nat)
    | Acquire(run: RunId, ttl: nat)
    | ReadToken(run: RunId)
    | DeleteKey(run: RunId)
    | Crash(run: RunId)

  /** One atomic step; a step its run is not ready for changes nothing. */
  function Next(s: State, step: Step): State {
    match step
    case Tick(seconds) => s.(now := s.now + seconds)
    case Acquire(r, ttl) =>
      if !s.PhaseOf(r).Fresh? || ttl == 0 then s
      else if s.KeyIsLive() then s.(runs := s.runs[r := Skipped])
      else s.(key := Some(Holder(r, s.now + ttl)), runs := s.runs[r := InBody(s.now + ttl)])
    case ReadToken(r) =>
      if !s.PhaseOf(r).InBody? then s
      else if s.KeyIsLive() && s.key.value.run == r then s.(runs := s.runs[r := Leaving(s.PhaseOf(r).deadline)])
      else s.(runs := s.runs[r := Finished])
    case DeleteKey(r) =>
      if !s.PhaseOf(r).Leaving? then s
      else s.(key := None, runs := s.runs[r := Finished])
    case Crash(r) =>
      if s.PhaseOf(r).InBody? || s.PhaseOf(r).Leaving? then s.(runs := s.runs[r := Crashed]) else s
  }

  function Exec(s: State, steps: seq<Step>): State
    decreases |steps|
  {
    if steps == [] then s else Exec(Next(s, steps[0]), steps[1..])
  }

  /** The assumption the two-command release rests on: whenever a run's DELETE is carried
      out, the TTL it set has not passed yet. */
  predicate DeletesInTime(s: State, steps: seq<Step>)
    decreases |steps|
  {
    steps == [] ||
    (DeleteInTime(s, steps[0]) && DeletesInTime(Next(s, steps[0]), steps[1..]))
  }

  predicate DeleteInTime(s: State, step: Step) {
    step.DeleteKey? && s.PhaseOf(step.run).Leaving? ==> s.now < s.PhaseOf(step.run).deadline
  }

  // ----------------------------------------------------------------- the invariant

  ghost predicate Inv(s: State) {
    forall r :: s.Holds(r) ==> s.key == Some(Holder(r, s.PhaseOf(r).deadline))
  }

  lemma StepKeepsInv(s: State, step: Step)
    requires Inv(s) && DeleteInTime(s, step)
    ensures Inv(Next(s, step))
  {
    var t := Next(s, step);
    forall r | t.Holds(r) ensures t.key == Some(Holder(r, t.PhaseOf(r).deadline)) {
      match step
      case Tick(_) => assert s.Holds(r);
      case Acquire(q, ttl) => if q != r { assert s.Holds(r); }
      case ReadToken(q) => assert s.Holds(r);
      case DeleteKey(q) =>
        assert s.Holds(r);
        assert s.PhaseOf(q).Leaving? ==> s.Holds(q);
      case Crash(q) => assert s.Holds(r);
    }
  }

  lemma {:induction false} RunKeepsInv(s: State, steps: seq<Step>)
    requires Inv(s) && DeletesInTime(s, steps)
    ensures Inv(Exec(s, steps))
    decreases |steps|
  {
    if steps != [] {
      StepKeepsInv(s, steps[0]);
      RunKeepsInv(Next(s, steps[0]), steps[1..]);
    }
  }

  /** At most one run is inside the body within its TTL, after any interleaving of any
      number of runs, crashes and expiries whose deletes come in time. */
  lemma MutualExclusion(steps: seq<Step>, p: RunId, q: RunId)
    requires DeletesInTime(INITIAL, steps)
    requires Exec(INITIAL, steps).InsideBody(p) && Exec(INITIAL, steps).InsideBody(q)
    ensures p == q
  {
    RunKeepsInv(INITIAL, steps);
    var s := Exec(INITIAL, steps);
    assert s.Holds(p) && s.Holds(q);
  }

  /** A delete that comes in time removes this run's own token and no other. */
  lemma TimelyDeleteIsOwn(steps: seq<Step>, r: RunId)
    requires DeletesInTime(INITIAL, steps + [DeleteKey(r)])
    requires Exec(INITIAL, steps).PhaseOf(r).Leaving?
    ensures Exec(INITIAL, steps).key.Some? && Exec(INITIAL, steps).key.value.run == r
  {
    InTimePrefix(INITIAL, steps, DeleteKey(r));
    RunKeepsInv(INITIAL, steps);
    assert Exec(INITIAL, steps).Holds(r);
  }

  lemma {:induction false} InTimePrefix(s: State, steps: seq<Step>, last: Step)
    requires DeletesInTime(s, steps + [last])
    ensures DeletesInTime(s, steps) && DeleteInTime(Exec(s, steps), last)
    decreases |steps|
  {
    if steps == [] {
      assert [last] == steps + [last];
    } else {
      assert (steps + [last])[1..] == steps[1..] + [last];
      InTimePrefix(Next(s, steps[0]), steps[1..], last);
    }
  }

  /** Only the run that wins the SET or carries out its own DELETE changes the key: a
      skipped, finished or crashed run, a GET and the clock never do. */
  lemma WhoChangesTheKey(s: State, step: Step)
    requires Next(s, step).key != s.key
    ensures (step.Acquire? && !s.KeyIsLive() && Next(s, step).PhaseOf(step.run).InBody?)
         || (step.DeleteKey? && s.PhaseOf(step.run).Leaving?)
  {}

  // -------------------------------------------- exactly when the release is unsafe

  ghost predicate AnotherHolds(s: State, r: RunId) {
    exists q :: q != r && s.Holds(q)
  }

  /** From any state of the invariant, a DELETE keeps it exactly when it comes in time or
      nobody else holds the lock by then. */
  lemma DeleteKeepsInvIff(s: State, r: RunId)
    requires Inv(s) && s.PhaseOf(r).Leaving?
    ensures Inv(Next(s, DeleteKey(r))) <==> (s.now < s.PhaseOf(r).deadline || !AnotherHolds(s, r))
  {
    var t := Next(s, DeleteKey(r));
    assert s.now < s.PhaseOf(r).deadline ==> s.Holds(r);
    if AnotherHolds(s, r) {
      var q :| q != r && s.Holds(q);
      assert t.Holds(q);
    } else {
      forall q | t.Holds(q) ensures false { assert q != r && s.Holds(q); }
    }
  }

  /** Whatever happens next, with every later delete in time, at most one run is ever inside
      the body within its TTL. */
  ghost predicate Excludes(s: State) {
    forall steps, p, q |
      DeletesInTime(s, steps) && Exec(s, steps).InsideBody(p) && Exec(s, steps).InsideBody(q) :: p == q
  }

  /** And so it is for exclusion itself: from any state of the invariant a DELETE leaves it
      safe for good exactly when it comes in time or nobody else holds the lock by then. A
      holder already on its way out matters too: its own delete, in time, would hit the key
      of whoever came next. */
  lemma DeleteKeepsExclusionIff(s: State, r: RunId)
    requires Inv(s) && s.PhaseOf(r).Leaving?
    ensures Excludes(Next(s, DeleteKey(r))) <==> (s.now < s.PhaseOf(r).deadline || !AnotherHolds(s, r))
  {
    var t := Next(s, DeleteKey(r));
    DeleteKeepsInvIff(s, r);
    if Inv(t) {
      forall steps, p, q | DeletesInTime(t, steps) && Exec(t, steps).InsideBody(p) && Exec(t, steps).InsideBody(q)
        ensures p == q
      {
        RunKeepsInv(t, steps);
        assert Exec(t, steps).Holds(p) && Exec(t, steps).Holds(q);
      }
    } else {
      var q :| q != r && s.Holds(q);
      var p := Unused(t.runs.Keys);
      var steps := if t.PhaseOf(q).InBody? then [Acquire(p, 1)] else [Acquire(p, 1), DeleteKey(q), Acquire(p + 1, 1)];
      NextTwoInside(t, q, p, steps);
      assert DeletesInTime(t, steps) && Exec(t, steps).InsideBody(p);
    }
  }

  lemma NextTwoInside(t: State, q: RunId, p: RunId, steps: seq<Step>)
    requires t.key.None? && t.Holds(q) && q < p && p !in t.runs && p + 1 !in t.runs
    requires steps == if t.PhaseOf(q).InBody? then [Acquire(p, 1)]
                      else [Acquire(p, 1), DeleteKey(q), Acquire(p + 1, 1)]
    ensures DeletesInTime(t, steps) && Exec(t, steps).InsideBody(p)
    ensures exists other :: other != p && Exec(t, steps).InsideBody(other)
  {
    var a := Next(t, Acquire(p, 1));
    if t.PhaseOf(q).InBody? {
      assert steps[1..] == [];
      assert Exec(t, steps) == Exec(a, []) == a;
      assert a.InsideBody(q);
    } else {
      var b := Next(a, DeleteKey(q));
      var c := Next(b, Acquire(p + 1, 1));
      ThreeSteps(t, Acquire(p, 1), DeleteKey(q), Acquire(p + 1, 1));
      assert c.InsideBody(p + 1);
    }
  }

  lemma ThreeSteps(s: State, x: Step, y: Step, z: Step)
    ensures Exec(s, [x, y, z]) == Next(Next(Next(s, x), y), z)
    ensures DeletesInTime(s, [x, y, z]) <==>
            DeleteInTime(s, x) && DeleteInTime(Next(s, x), y) && DeleteInTime(Next(Next(s, x), y), z)
  {
    assert [x, y, z][1..] == [y, z] && [y, z][1..] == [z] && [z][1..] == [];
    var a, b := Next(s, x), Next(Next(s, x), y);
    assert Exec(b, [z]) == Exec(Next(b, z), []);
    assert DeletesInTime(b, [z]) <==> DeleteInTime(b, z) && DeletesInTime(Next(b, z), []);
    assert Exec(a, [y, z]) == Exec(b, [z]);
    assert DeletesInTime(a, [y, z]) <==> DeleteInTime(a, y) && DeletesInTime(b, [z]);
  }

  /** Some number is above any finite set of them. */
  lemma {:induction false} Unused(runs: set<RunId>) returns (p: RunId)
    ensures forall r <- runs :: r < p
    decreases |runs|
  {
    p := 0;
    if r :| r in runs {
      p := Unused(runs - {r});
      if p <= r { p := r + 1; }
      assert forall q <- runs :: q == r || q in runs - {r};
    }
  }

  /** What is lost when a run inside the body holds it: whoever comes next runs beside the run whose
      token was deleted. */
  lemma LateDeleteLetsTwoIn(s: State, r: RunId, q: RunId, p: RunId, ttl: nat)
    requires s.PhaseOf(r).Leaving? && q != r && s.InsideBody(q)
    requires s.PhaseOf(p).Fresh? && ttl > 0
    ensures var t := Exec(s, [DeleteKey(r), Acquire(p, ttl)]);
            p != q && t.InsideBody(p) && t.InsideBody(q)
  {
    var a := Next(s, DeleteKey(r));
    assert [DeleteKey(r), Acquire(p, ttl)][1..] == [Acquire(p, ttl)];
    assert Exec(a, [Acquire(p, ttl)]) == Exec(Next(a, Acquire(p, ttl)), []);
  }

  /** Such a state is reached when a key lapses between a run's GET and its DELETE:
      run 0 reads its token at second 119 of 120, run 1 takes the lapsed lock at 121. */
  lemma LapseBetweenGetAndDelete()
    ensures var s := Exec(INITIAL, [Acquire(0, 120), Tick(119), ReadToken(0), Tick(2), Acquire(1, 120)]);
            s.PhaseOf(0).Leaving? && s.InsideBody(1)
  {}

  /** A crashed or overrunning holder never wedges the job: from any state, once the
      key's TTL has run out the next fresh run gets in. */
  lemma LockSelfHeals(s: State, wait: nat, r: RunId, ttl: nat)
    requires s.PhaseOf(r).Fresh? && ttl > 0
    requires s.key.Some? ==> s.now + wait >= s.key.value.expiry
    ensures Next(Next(s, Tick(wait)), Acquire(r, ttl)).InsideBody(r)
  {}

  /** A lock won by a run that then does nothing keeps others out for its whole TTL and not a
      second longer. */
  lemma LockLastsItsTtl(s: State, r: RunId, ttl: nat, wait: nat, q: RunId, other: nat)
    requires s.PhaseOf(r).Fresh? && s.PhaseOf(q).Fresh? && q != r && ttl > 0 && other > 0
    requires s.key.None? || s.now >= s.key.value.expiry
    ensures var t := Next(Next(Next(s, Acquire(r, ttl)), Tick(wait)), Acquire(q, other));
            && (t.PhaseOf(q) == InBody(s.now + wait + other) <==> wait >= ttl)
            && (t.PhaseOf(q) == Skipped <==> wait < ttl)
            && t.key == Some(if wait >= ttl then Holder(q, s.now + wait + other) else Holder(r, s.now + ttl))
  {}

  // -------------------------------------------------------- the commands as methods

  /** Redis holding the one lock key, and the runs around it. */
  class GuardedJob {
    var now: nat
    var key: Option<Holder>
    var runs: map<RunId, Phase>

    ghost function View(): State reads this { State(now, key, runs) }

    constructor ()
      ensures View() == INITIAL
    {
      now, key, runs := 0, None, map[];
    }

    /** Entering the context manager: false means a previous run still holds the lock. */
    method Enter(r: RunId, ttl: nat) returns (acquired: bool)
      requires View().PhaseOf(r).Fresh? && ttl > 0
      modifies this
      ensures View() == Next(old(View()), Acquire(r, ttl))
      ensures acquired <==> View().InsideBody(r)
      ensures acquired <==> old(key).None? || old(key).value.expiry <= now
      ensures key == if acquired then Some(Holder(r, now + ttl)) else old(key)
    {
      acquired := key.None? || now >= key.value.expiry;
      if acquired {
        key := Some(Holder(r, now + ttl));
        runs := runs[r := InBody(now + ttl)];
      } else {
        runs := runs[r := Skipped];
      }
    }

    /** The finally block up to the GET: own says whether a DELETE follows. */
    method ReadOwn(r: RunId) returns (own: bool)
      requires r in runs && runs[r].InBody?
      modifies this
      ensures View() == Next(old(View()), ReadToken(r))
      ensures own <==> View().PhaseOf(r).Leaving?
      ensures own <==> key.Some? && key.value.run == r && now < key.value.expiry
      ensures key == old(key)
    {
      own := key.Some? && now < key.value.expiry && key.value.run == r;
      runs := runs[r := if own then Leaving(runs[r].deadline) else Finished];
    }

    /** The DELETE: by then the key is whatever it is. In time it is the run's own, and
        after it nobody holds the lock. */
    method Release(r: RunId)
      requires r in runs && runs[r].Leaving?
      modifies this
      ensures View() == Next(old(View()), DeleteKey(r)) && key == None
      ensures old(Inv(View())) && now < old(runs[r].deadline) ==>
                && old(key) == Some(Holder(r, old(runs[r].deadline)))
                && forall q :: !View().Holds(q)
    {
      ghost var was := View();
      assert now < runs[r].deadline ==> was.Holds(r);
      key := None;
      runs := runs[r := Finished];
      forall q | Inv(was) && now < was.PhaseOf(r).deadline ensures !View().Holds(q) {
        assert View().Holds(q) ==> was.Holds(q);
      }
    }
  }
}
