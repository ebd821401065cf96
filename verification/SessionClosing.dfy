/** The last session of an ended voucher, with everything that can close it at work at once:
    the disconnect events and their retries, the router's stop record, the watchdog
    (backend/src/jobs/session_watchdog.py), one backstop run at a time
    (backend/src/jobs/check_exhausted_sessions.py) and one reconciliation at a time
    (backend/src/jobs/reconcile_hotspot.py). An ended voucher's client can leave but not come
    back. Times are seconds. */
module SessionClosing {
  import opened Options
  import opened DisconnectEvents
  import opened Vouchers
  import Reconcile

  const PHANTOM_GRACE: int := 300

  /** The backstop: the session selected, then the router's list fetched. */
  datatype Hunt = NoHunt | Chosen | Listed(inList: bool)

  /** A reconciliation that began at `began`: the list fetched, then the plan made. */
  datatype Sweep =
    | NoSweep
    | Begun(began: int)
    | Seen(began: int, inList: bool)
    | Planned(began: int, remove: bool, close: bool)

  datatype Closer = Nobody | Router | WatchdogJob | BackstopJob | Reconciliation

  /** closer: who wrote the row's end last. */
  datatype World = World(
    jobs: State,
    session: Session,
    closer: Closer,
    startedAt: int,
    online: bool,
    hunt: Hunt,
    sweep: Sweep)

  datatype Move =
    | Job(step: Step)
    | Leave
    | StopRecord(cause: string)
    | Watchdog(stale: bool)
    | Choose
    | List(answered: bool)
    | Act(works: bool)
    | Begin
    | Look(answered: bool)
    | Plan(raises: bool)
    | Apply(works: bool)

  function Closed(w: World, closer: Closer, at: int, cause: string): World {
    w.(session := w.session.(stoppedAt := Some(at), cause := cause), closer := closer)
  }

  /** Neither the stop record nor the backstop asks whether the row is still open. */
  function Moved(w: World, move: Move): World {
    var now := w.jobs.now;
    match move
    case Job(step) => w.(jobs := Next(w.jobs, step))
    case Leave => w.(online := false)
    case StopRecord(cause) => if w.online then w else Closed(w, Router, now, cause)
    case Watchdog(stale) =>
      if w.session.stoppedAt.None?
      then Closed(w, WatchdogJob, now, if stale then "watchdog-stale" else "watchdog-max-duration")
      else w
    case Choose =>
      if w.hunt.NoHunt? && IsCandidate(w.session, {w.session.voucher}, w.jobs.events, now)
      then w.(hunt := Chosen) else w
    case List(answered) =>
      if w.hunt.Chosen? then w.(hunt := if answered then Listed(w.online) else NoHunt) else w
    case Act(works) =>
      if !w.hunt.Listed? then w
      else if !w.hunt.inList then Closed(w.(hunt := NoHunt), BackstopJob, now, "lost-acct-stop")
      else if works
      then Closed(w.(online := false, hunt := NoHunt), BackstopJob, now, "backstop-api-disconnect")
      else w.(hunt := NoHunt)
    case Begin => if w.sweep.NoSweep? then w.(sweep := Begun(now)) else w
    case Look(answered) =>
      if w.sweep.Begun? then w.(sweep := if answered then Seen(w.sweep.began, w.online) else NoSweep) else w
    case Plan(raises) =>
      if !w.sweep.Seen? then w
      else if raises then w.(sweep := NoSweep)
      else
        var s := w.sweep;
        w.(sweep := Planned(s.began, s.inList,
                            !s.inList && w.session.stoppedAt.None? && w.startedAt < s.began - PHANTOM_GRACE))
    case Apply(works) =>
      if !w.sweep.Planned? then w
      else if !works then w.(sweep := NoSweep)
      else
        var t := w.(online := w.online && !w.sweep.remove, sweep := NoSweep);
        if w.sweep.close && w.session.stoppedAt.None?
        then Closed(t, Reconciliation, w.sweep.began, "reconcile-not-on-router") else t
  }

  function MovedAll(w: World, moves: seq<Move>): World
    decreases |moves|
  {
    if moves == [] then w else MovedAll(Moved(w, moves[0]), moves[1..])
  }

  /** An open session whose client is on the router, before anything has happened. */
  function Fresh(id: nat, voucher: nat, username: string, startedAt: int): World {
    World(INITIAL, Session(id, voucher, username, None, ""), Nobody, startedAt, true, NoHunt, NoSweep)
  }

  /** Whatever saw the client gone is right, and only the watchdog closes without seeing. */
  predicate Inv(w: World) {
    && DisconnectEvents.Inv(w.jobs)
    && (w.online ==>
          && (w.session.stoppedAt.Some? ==> w.closer.WatchdogJob?)
          && (w.hunt.Listed? ==> w.hunt.inList)
          && (w.sweep.Seen? ==> w.sweep.inList)
          && (w.sweep.Planned? ==> w.sweep.remove && !w.sweep.close))
    && (w.sweep.Planned? ==> !(w.sweep.remove && w.sweep.close))
  }

  lemma MoveKeepsInv(w: World, move: Move)
    requires Inv(w)
    ensures Inv(Moved(w, move))
  {
    hide DisconnectEvents.Inv, Next, IsCandidate;
    if move.Job? { StepKeepsInv(w.jobs, move.step); }
  }

  lemma {:induction false} MovesKeepInv(w: World, moves: seq<Move>)
    requires Inv(w)
    ensures Inv(MovedAll(w, moves))
    decreases |moves|
  {
    hide Inv, Moved;
    if moves != [] {
      MoveKeepsInv(w, moves[0]);
      MovesKeepInv(Moved(w, moves[0]), moves[1..]);
    }
  }

  /** In any interleaving a session is closed only when its client is off the router, unless
      the watchdog closed it. */
  lemma ClosedMeansGone(id: nat, voucher: nat, username: string, startedAt: int, moves: seq<Move>)
    ensures var t := MovedAll(Fresh(id, voucher, username, startedAt), moves);
            t.session.stoppedAt.Some? && t.online ==> t.closer.WatchdogJob?
  {
    MovesKeepInv(Fresh(id, voucher, username, startedAt), moves);
  }

  // ------------------------------------------------------------------- what is final

  /** Nothing opens a closed row again, and nobody comes back. */
  lemma {:induction false} ClosedStaysClosed(w: World, moves: seq<Move>)
    ensures var t := MovedAll(w, moves);
            && (w.session.stoppedAt.Some? ==> t.session.stoppedAt.Some?)
            && (!w.online ==> !t.online)
    decreases |moves|
  {
    if moves != [] {
      hide Next, IsCandidate;
      ClosedStaysClosed(Moved(w, moves[0]), moves[1..]);
    }
  }

  /** A row closed while no backstop run holds it is final but for a stop record. */
  lemma {:induction false} RowIsFinal(w: World, moves: seq<Move>)
    requires w.session.stoppedAt.Some? && w.hunt.NoHunt?
    requires forall move <- moves :: !move.StopRecord?
    ensures MovedAll(w, moves).session == w.session
    decreases |moves|
  {
    if moves != [] {
      assert moves[0] in moves;
      hide Next;
      RowIsFinal(Moved(w, moves[0]), moves[1..]);
    }
  }

  /** Of the jobs only a backstop run rewrites a closed row: one that selected it while open,
      and finds the client off the list or removes it. */
  lemma WhoRewrites(w: World, move: Move)
    requires w.session.stoppedAt.Some? && w.session.stoppedAt.value < w.jobs.now
    ensures Moved(w, move).session != w.session
            <==> (move.StopRecord? && !w.online)
                 || (move.Act? && w.hunt.Listed? && (move.works || !w.hunt.inList))
  {
    hide Next, IsCandidate;
  }

  /** What each writer puts in an open row it closes: its own time and cause; a reconciliation the
      time it began. */
  lemma WhatIsWritten(w: World, move: Move)
    requires w.session.stoppedAt.None? && Moved(w, move).session.stoppedAt.Some?
    ensures var s := Moved(w, move).session;
            && s == Session(w.session.id, w.session.voucher, w.session.username, s.stoppedAt, s.cause)
            && match move
               case StopRecord(cause) => s.stoppedAt == Some(w.jobs.now) && s.cause == cause && !w.online
               case Watchdog(stale) =>
                 s.stoppedAt == Some(w.jobs.now)
                 && s.cause == if stale then "watchdog-stale" else "watchdog-max-duration"
               case Act(works) =>
                 s.stoppedAt == Some(w.jobs.now) && w.hunt.Listed? && (w.hunt.inList ==> works)
                 && s.cause == if w.hunt.inList then "backstop-api-disconnect" else "lost-acct-stop"
               case Apply(works) =>
                 works && w.sweep.Planned? && w.sweep.close && s.stoppedAt == Some(w.sweep.began)
                 && s.cause == "reconcile-not-on-router"
               case _ => false
  {
    hide Next, IsCandidate;
  }

  /** A session closed by the router's own record is given a later end and another cause. */
  lemma BackstopRewritesTheEnd(id: nat, voucher: nat, username: string, startedAt: int)
    ensures var moves := [Choose, Leave, StopRecord("User-Request"), List(true), Job(Tick(5)), Act(true)];
            var t := MovedAll(Fresh(id, voucher, username, startedAt), moves);
            t.session.stoppedAt == Some(5) && t.session.cause == "lost-acct-stop"
  {
    var w := Fresh(id, voucher, username, startedAt);
    var a := Moved(Moved(Moved(w, Choose), Leave), StopRecord("User-Request"));
    assert a.session.stoppedAt == Some(0);
    var b := Moved(Moved(Moved(a, List(true)), Job(Tick(5))), Act(true));
    var moves := [Choose, Leave, StopRecord("User-Request"), List(true), Job(Tick(5)), Act(true)];
    ThreeMoves(w, moves);
    ThreeMoves(a, moves[3..]);
    assert moves[3..][3..] == [];
  }

  lemma ThreeMoves(w: World, moves: seq<Move>)
    requires |moves| >= 3
    ensures MovedAll(w, moves) == MovedAll(Moved(Moved(Moved(w, moves[0]), moves[1]), moves[2]), moves[3..])
  {
    hide Moved;
    var a := Moved(w, moves[0]);
    var b := Moved(a, moves[1]);
    assert MovedAll(a, moves[1..]) == MovedAll(b, moves[2..]) by {
      assert moves[1..][0] == moves[1] && moves[1..][1..] == moves[2..];
    }
    assert moves[2..][0] == moves[2] && moves[2..][1..] == moves[3..];
  }

  // ------------------------------------------------------ the jobs as their own models

  /** What a backstop run does here is what its loop does to the row: HandleOne in
      DisconnectEvents, for the list it fetched and what the router answers. */
  lemma ActIsHandleOne(w: World, active: set<string>, api: map<nat, ApiResult>)
    requires w.hunt.Listed? && (w.hunt.inList <==> w.session.username in active)
    ensures var s := w.session;
            var removed := s.id in api && api[s.id] == Removed;
            Moved(w, Act(removed)).session ==
            if s.username !in active then Session(s.id, s.voucher, s.username, Some(w.jobs.now), "lost-acct-stop")
            else if removed then Session(s.id, s.voucher, s.username, Some(w.jobs.now), "backstop-api-disconnect")
            else s
    ensures var removed := w.session.id in api && api[w.session.id] == Removed;
            Moved(w, Act(removed)).session == Handled(w.session, w.jobs.now, active, api)
  {
    HandledIs(w.session, w.jobs.now, active, api);
  }

  /** The session as Reconcile sees it, and the router's list with nobody else on it. */
  function AsReconciled(w: World, router: nat): Reconcile.World {
    Reconcile.World(
      if w.online then [Reconcile.Entry(0, Some(w.session.username), None)] else [],
      [],
      [Reconcile.Session(w.session.id, router, w.session.username, w.startedAt, w.session.stoppedAt, w.session.cause)])
  }

  /** And a reconciliation nothing interrupts is a run of the job in Reconcile, on a router of the
      operator of the ended voucher: the same entry is removed, the same row closed. */
  lemma SweepIsARun(w: World, router: nat, v: Voucher)
    requires w.sweep.NoSweep? && w.session.username != ""
    requires v.username == w.session.username && (v.status.Exhausted? || v.status.Expired? || v.status.Disabled?)
    ensures var t := Moved(Moved(Moved(Moved(w, Begin), Look(true)), Plan(false)), Apply(true));
            AsReconciled(t, router)
            == Reconcile.JobRound(Reconcile.Env(router, v.operator, [v], None), w.jobs.now, AsReconciled(w, router))
  {
    SweepDoes(w);
    RunDoes(w, router, v);
    hide Moved, Reconcile.JobRound;
  }

  lemma SweepDoes(w: World)
    requires w.sweep.NoSweep?
    ensures var t := Moved(Moved(Moved(Moved(w, Begin), Look(true)), Plan(false)), Apply(true));
            && !t.online && t.startedAt == w.startedAt
            && t.session ==
               if !w.online && w.session.stoppedAt.None? && w.startedAt < w.jobs.now - 300
               then Session(w.session.id, w.session.voucher, w.session.username,
                            Some(w.jobs.now), "reconcile-not-on-router")
               else w.session
  {
    hide Next, IsCandidate;
  }

  lemma RunDoes(w: World, router: nat, v: Voucher)
    requires w.session.username != ""
    requires v.username == w.session.username && (v.status.Exhausted? || v.status.Expired? || v.status.Disabled?)
    ensures var s := w.session;
            var closes := !w.online && s.stoppedAt.None? && w.startedAt < w.jobs.now - 300;
            Reconcile.JobRound(Reconcile.Env(router, v.operator, [v], None), w.jobs.now, AsReconciled(w, router)) ==
            Reconcile.World([], [], [
              Reconcile.Session(s.id, router, s.username, w.startedAt,
                                if closes then Some(w.jobs.now) else s.stoppedAt,
                                if closes then "reconcile-not-on-router" else s.cause)])
  {
    hide Reconcile.Revocable, Reconcile.Unplannable, Reconcile.CloseAll;
    var env, r := Reconcile.Env(router, v.operator, [v], None), AsReconciled(w, router);
    OnlyTheEnded(env, v, w, router);
    Reconcile.RoundClosesExactly(env, w.jobs.now, r);
    if w.online { assert r.active[1..] == []; }
    assert Reconcile.KeptActive(env, w.jobs.now, r.active) == [];
  }

  lemma OnlyTheEnded(env: Reconcile.Env, v: Voucher, w: World, router: nat)
    requires w.session.username != "" && env == Reconcile.Env(router, v.operator, [v], None)
    requires v.username == w.session.username && (v.status.Exhausted? || v.status.Expired? || v.status.Disabled?)
    ensures Reconcile.Revocable(env, w.jobs.now, Some(w.session.username))
    ensures !Reconcile.Unplannable(env, w.jobs.now, AsReconciled(w, router))
  {
    hide Reconcile.Revocable, Reconcile.Unplannable;
    Reconcile.RevocableExactly(env, w.jobs.now, Some(w.session.username));
    assert env.vouchers[0] == v;
    Reconcile.UnplannableExactly(env, w.jobs.now, AsReconciled(w, router));
  }

  // ------------------------------------------------------------------ what gets done

  predicate Hunts(move: Move) { move.Choose? || move.List? || move.Act? }

  predicate Sweeps(move: Move) { move.Begin? || move.Look? || move.Plan? || move.Apply? }

  lemma {:induction false} HuntStays(w: World, moves: seq<Move>)
    requires forall move <- moves :: !Hunts(move)
    ensures MovedAll(w, moves).hunt == w.hunt
    decreases |moves|
  {
    if moves != [] {
      assert moves[0] in moves;
      hide Next;
      HuntStays(Moved(w, moves[0]), moves[1..]);
    }
  }

  lemma {:induction false} SweepStays(w: World, moves: seq<Move>)
    requires forall move <- moves :: !Sweeps(move)
    ensures MovedAll(w, moves).sweep == w.sweep
    decreases |moves|
  {
    if moves != [] {
      assert moves[0] in moves;
      hide Next, IsCandidate;
      SweepStays(Moved(w, moves[0]), moves[1..]);
    }
  }

  lemma {:induction false} StartedAtStays(w: World, moves: seq<Move>)
    ensures MovedAll(w, moves).startedAt == w.startedAt
    decreases |moves|
  {
    if moves != [] {
      hide Next, IsCandidate;
      StartedAtStays(Moved(w, moves[0]), moves[1..]);
    }
  }

  /** A backstop run whose router answers, with anything in between. */
  function Backstop(w: World, a: seq<Move>, b: seq<Move>): World {
    Moved(MovedAll(Moved(MovedAll(Moved(w, Choose), a), List(true)), b), Act(true))
  }

  /** Once each of the voucher's events is acknowledged, given up or two minutes old, a
      backstop run whose router answers ends with the client off and the row closed for good. */
  lemma BackstopSettles(w: World, a: seq<Move>, b: seq<Move>, rest: seq<Move>)
    requires Inv(w) && w.hunt.NoHunt? && w.session.stoppedAt.None?
    requires forall e <- w.jobs.events | e.voucher == w.session.voucher ::
               || e.status == Sent || e.status == Confirmed || (e.status == Failed && e.attempts >= 3)
               || (e.lastAttempt.Some? && e.lastAttempt.value + 120 <= w.jobs.now)
    requires (forall move <- a :: !Hunts(move)) && (forall move <- b :: !Hunts(move))
    ensures var t := MovedAll(Backstop(w, a, b), rest);
            !t.online && t.session.stoppedAt.Some?
  {
    NothingHoldsOff(w);
    var chosen := MovedAll(Moved(w, Choose), a);
    HuntStays(Moved(w, Choose), a);
    var listed := MovedAll(Moved(chosen, List(true)), b);
    HuntStays(Moved(chosen, List(true)), b);
    ClosedStaysClosed(Moved(chosen, List(true)), b);
    ClosedStaysClosed(Backstop(w, a, b), rest);
  }

  lemma NothingHoldsOff(w: World)
    requires Inv(w) && w.session.stoppedAt.None?
    requires forall e <- w.jobs.events | e.voucher == w.session.voucher ::
               || e.status == Sent || e.status == Confirmed || (e.status == Failed && e.attempts >= 3)
               || (e.lastAttempt.Some? && e.lastAttempt.value + 120 <= w.jobs.now)
    ensures IsCandidate(w.session, {w.session.voucher}, w.jobs.events, w.jobs.now)
  {
    forall e <- w.jobs.events ensures EventOk(e, w.jobs.now) {}
  }

  predicate Attempts(move: Move) {
    move.Job? && (move.step.Disconnect? || move.step.DisconnectByHand? || move.step.RetryNext?)
  }

  lemma {:induction false} EventsStay(w: World, moves: seq<Move>)
    requires forall move <- moves :: !Attempts(move)
    ensures MovedAll(w, moves).jobs.events == w.jobs.events
    ensures MovedAll(w, moves).session.voucher == w.session.voucher
    decreases |moves|
  {
    if moves != [] {
      assert moves[0] in moves;
      hide IsCandidate;
      EventsStay(Moved(w, moves[0]), moves[1..]);
    }
  }

  /** Two minutes without an attempt are enough for the backstop to take the session. */
  lemma TwoQuietMinutes(w: World, moves: seq<Move>)
    requires Inv(w) && forall move <- moves :: !Attempts(move)
    ensures var t := MovedAll(w, moves);
            t.jobs.now >= w.jobs.now + 120 && t.session.stoppedAt.None? ==>
            IsCandidate(t.session, {t.session.voucher}, t.jobs.events, t.jobs.now)
  {
    EventsStay(w, moves);
    MovesKeepInv(w, moves);
    var t := MovedAll(w, moves);
    forall e <- t.jobs.events ensures EventOk(e, w.jobs.now) {}
    if t.jobs.now >= w.jobs.now + 120 && t.session.stoppedAt.None? { NothingHoldsOff(t); }
  }

  /** A reconciliation whose router answers and whose planning does not raise. */
  function Reconciled(w: World, a: seq<Move>, b: seq<Move>, c: seq<Move>): World {
    Moved(MovedAll(Moved(MovedAll(Moved(MovedAll(Moved(w, Begin), a), Look(true)), b), Plan(false)), c), Apply(true))
  }

  predicate NoSweeps(a: seq<Move>, b: seq<Move>, c: seq<Move>) {
    forall move <- a + b + c :: !Sweeps(move)
  }

  /** It leaves the client off; and when the client was off before and the session is past
      the grace, the row closed. */
  lemma ReconciliationSettles(w: World, a: seq<Move>, b: seq<Move>, c: seq<Move>)
    requires w.sweep.NoSweep? && NoSweeps(a, b, c)
    ensures var t := Reconciled(w, a, b, c);
            && !t.online && t.sweep.NoSweep?
            && (!w.online && w.startedAt < w.jobs.now - 300 ==> t.session.stoppedAt.Some?)
  {
    hide MovedAll, Next, IsCandidate;
    assert forall move <- a :: move in a + b + c;
    assert forall move <- b :: move in a + b + c;
    assert forall move <- c :: move in a + b + c;
    var begun := MovedAll(Moved(w, Begin), a);
    Meanwhile(Moved(w, Begin), a);
    var seen := MovedAll(Moved(begun, Look(true)), b);
    Meanwhile(Moved(begun, Look(true)), b);
    Meanwhile(Moved(seen, Plan(false)), c);
  }

  lemma Meanwhile(w: World, moves: seq<Move>)
    requires forall move <- moves :: !Sweeps(move)
    ensures var t := MovedAll(w, moves);
            && t.sweep == w.sweep && t.startedAt == w.startedAt
            && (w.session.stoppedAt.Some? ==> t.session.stoppedAt.Some?)
            && (!w.online ==> !t.online)
  {
    hide MovedAll;
    SweepStays(w, moves);
    StartedAtStays(w, moves);
    ClosedStaysClosed(w, moves);
  }

  /** So two of them, the second begun past the grace, end with the client off and the row
      closed for good, whatever the events and the backstop do, and even when the watchdog or a
      removal by hand came first. */
  lemma TwoReconciliationsSettle(w: World, a: seq<Move>, b: seq<Move>, c: seq<Move>, between: seq<Move>,
                                 d: seq<Move>, e: seq<Move>, f: seq<Move>, rest: seq<Move>)
    requires w.sweep.NoSweep? && NoSweeps(a, b, c) && NoSweeps(d, e, f)
    requires forall move <- between :: !Sweeps(move)
    requires var u := MovedAll(Reconciled(w, a, b, c), between);
             u.startedAt < u.jobs.now - 300
    ensures var u := MovedAll(Reconciled(w, a, b, c), between);
            var t := MovedAll(Reconciled(u, d, e, f), rest);
            !t.online && t.session.stoppedAt.Some?
  {
    hide Moved, Reconciled, NoSweeps;
    var first := Reconciled(w, a, b, c);
    var u := MovedAll(first, between);
    ReconciliationSettles(w, a, b, c);
    ClosedStaysClosed(first, between);
    SweepStays(first, between);
    ReconciliationSettles(u, d, e, f);
    ClosedStaysClosed(Reconciled(u, d, e, f), rest);
  }
}
