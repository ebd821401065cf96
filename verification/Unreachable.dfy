/** Recording a router the reconcile job cannot reach (_enforce_cookie_policy and the
    streak functions of backend/src/jobs/reconcile_hotspot.py): a Redis counter with a
    TTL decides which runs write a row. Redis answers, and one router's runs do not overlap. */
module Unreachable {
  import opened Redis

  const UNREACHABLE_AFTER: nat := 3
  const STREAK_TTL: nat := 3600

  /** How the run's first router call ended; OtherFailure: the router answered and refused. */
  datatype Outcome = Unreachable | OtherFailure | Reached

  datatype Run = Run(at: nat, outcome: Outcome)

  datatype Row =
    | UnreachableRow(at: nat, failedRuns: nat)
    | ReachableAgainRow(at: nat, failedRuns: nat)
    | PolicyFailedRow(at: nat)

  predicate Ordered(runs: seq<Run>) { forall i, j | 0 <= i < j < |runs| :: runs[i].at <= runs[j].at }

  // ------------------------------------------------- what the rows should say

  /** The true length of the streak as of an instant: the unreachable runs that end the
      history, each within the TTL of the next and the last within it of the instant. */
  function StreakAt(runs: seq<Run>, now: nat): nat {
    if runs == [] then 0
    else
      var last := runs[|runs| - 1];
      if last.outcome.Unreachable? && now < last.at + STREAK_TTL then 1 + StreakAt(runs[..|runs| - 1], last.at) else 0
  }

  /** The rows, from the history alone: the third run of a streak is recorded, and a run
      that gets through records any streak of three or more it ends, with its length. */
  function RowsOf(runs: seq<Run>): seq<Row> {
    if runs == [] then []
    else
      var init, last := runs[..|runs| - 1], runs[|runs| - 1];
      var before := StreakAt(init, last.at);
      RowsOf(init) +
      match last.outcome
      case Unreachable => if before + 1 == UNREACHABLE_AFTER then [UnreachableRow(last.at, before + 1)] else []
      case OtherFailure => [PolicyFailedRow(last.at)]
      case Reached => if before >= UNREACHABLE_AFTER then [ReachableAgainRow(last.at, before)] else []
  }

  /** The streak on the runs themselves: the longest stretch of unreachable runs at the end of the
      history with less than an hour after each. */
  lemma {:induction false} StreakExactly(runs: seq<Run>, now: nat)
    ensures var n := StreakAt(runs, now);
            && n <= |runs|
            && (forall k | |runs| - n <= k < |runs| ::
                  runs[k].outcome.Unreachable?
                  && (if k + 1 < |runs| then runs[k + 1].at else now) < runs[k].at + 3600)
            && (n < |runs| ==>
                  var k := |runs| - n - 1;
                  !runs[k].outcome.Unreachable?
                  || (if k + 1 < |runs| then runs[k + 1].at else now) >= runs[k].at + 3600)
    decreases |runs|
  {
    if runs != [] {
      var init, last := runs[..|runs| - 1], runs[|runs| - 1];
      StreakExactly(init, last.at);
      var n := StreakAt(runs, now);
      if n > 0 {
        forall k | |runs| - n <= k < |runs|
          ensures runs[k].outcome.Unreachable?
          ensures (if k + 1 < |runs| then runs[k + 1].at else now) < runs[k].at + 3600
        {
          if k < |init| { assert runs[k] == init[k]; }
        }
        if n < |runs| { assert runs[|runs| - n - 1] == init[|runs| - n - 1]; }
      }
    }
  }

  /** What each run adds to the rows: the third of a streak one, a failure of another kind one, and
      a run that gets through one when it ends a streak of three or more, with its length. */
  lemma RunWrites(runs: seq<Run>, last: Run)
    ensures RowsOf([]) == []
    ensures var before := StreakAt(runs, last.at);
            RowsOf(runs + [last]) == RowsOf(runs) +
            match last.outcome
            case Unreachable => if before == 2 then [UnreachableRow(last.at, 3)] else []
            case OtherFailure => [PolicyFailedRow(last.at)]
            case Reached => if before >= 3 then [ReachableAgainRow(last.at, before)] else []
  {
    assert (runs + [last])[..|runs|] == runs;
  }

  // ------------------------------------------------------------- the job itself

  const STREAK_KEY := "reconcile_hotspot:unreachable:router"

  class Recorder {
    var redis: Store
    var rows: seq<Row>
    ghost var history: seq<Run>

    /** The counter is the streak's length at every instant from the last run on, and the
        rows are those the history calls for. */
    ghost predicate Valid() reads this {
      && Ordered(history)
      && rows == RowsOf(history)
      && forall t: nat | history != [] ==> t >= history[|history| - 1].at ::
           Redis.Count(redis, t, STREAK_KEY) == StreakAt(history, t)
    }

    constructor ()
      ensures Valid() && history == []
    {
      redis, rows, history := map[], [], [];
    }

    /** _bump_unreachable_streak. */
    method BumpStreak(now: nat) returns (count: nat)
      modifies this`redis
      ensures redis == Redis.Expire(Redis.Incr(old(redis), now, STREAK_KEY), now, STREAK_KEY, STREAK_TTL)
      ensures count == Redis.Count(old(redis), now, STREAK_KEY) + 1
      ensures forall t: nat | t >= now ::
                Redis.Count(redis, t, STREAK_KEY) == if t < now + 3600 then count else 0
    {
      redis := Redis.Incr(redis, now, STREAK_KEY);
      redis := Redis.Expire(redis, now, STREAK_KEY, STREAK_TTL);
      count := Redis.Count(redis, now, STREAK_KEY);
    }

    /** _end_unreachable_streak: clears the counter and returns how long the streak was. */
    method EndStreak(now: nat) returns (count: nat)
      modifies this`redis
      ensures count == Redis.Count(old(redis), now, STREAK_KEY)
      ensures forall t: nat | t >= now :: Redis.Count(redis, t, STREAK_KEY) == 0
    {
      count := Redis.Count(redis, now, STREAK_KEY);
      if Redis.Live(redis, now, STREAK_KEY) {
        redis := Redis.Delete(redis, STREAK_KEY);
      }
    }

    /** One run's cookie-policy call: every run keeps the rows to what the history calls for. */
    method RecordRun(now: nat, outcome: Outcome)
      requires Valid()
      requires history != [] ==> history[|history| - 1].at <= now
      modifies this
      ensures Valid() && history == old(history) + [Run(now, outcome)]
    {
      hide StreakAt, RowsOf;
      OneMoreRun(history, Run(now, outcome));
      match outcome {
      case Unreachable =>
        var streak := BumpStreak(now);
        if streak == UNREACHABLE_AFTER { rows := rows + [UnreachableRow(now, streak)]; }
      case OtherFailure =>
        var _ := EndStreak(now);
        rows := rows + [PolicyFailedRow(now)];
      case Reached =>
        var streak := EndStreak(now);
        if streak >= UNREACHABLE_AFTER { rows := rows + [ReachableAgainRow(now, streak)]; }
      }
      history := history + [Run(now, outcome)];
    }
  }

  /** What one more run adds to the streak and to the rows. */
  lemma OneMoreRun(runs: seq<Run>, last: Run)
    ensures var before := StreakAt(runs, last.at);
            && (forall t: nat :: StreakAt(runs + [last], t) ==
                  if last.outcome.Unreachable? && t < last.at + STREAK_TTL then 1 + before else 0)
            && (last.outcome.Unreachable? && before + 1 == UNREACHABLE_AFTER ==>
                  RowsOf(runs + [last]) == RowsOf(runs) + [UnreachableRow(last.at, before + 1)])
            && (last.outcome.Unreachable? && before + 1 != UNREACHABLE_AFTER ==> RowsOf(runs + [last]) == RowsOf(runs))
            && (last.outcome.OtherFailure? ==> RowsOf(runs + [last]) == RowsOf(runs) + [PolicyFailedRow(last.at)])
            && (last.outcome.Reached? && before >= UNREACHABLE_AFTER ==>
                  RowsOf(runs + [last]) == RowsOf(runs) + [ReachableAgainRow(last.at, before)])
            && (last.outcome.Reached? && before < UNREACHABLE_AFTER ==> RowsOf(runs + [last]) == RowsOf(runs))
  {}

  // ------------------------------------------------------- what the rows promise

  /** Two "unreachable" rows always have the end of a streak between them: at most one per streak. */
  lemma {:induction false} OneRowPerStreak(runs: seq<Run>, i: nat, j: nat)
    requires i < j < |runs|
    requires runs[i].outcome.Unreachable? && StreakAt(runs[..i], runs[i].at) == 2
    requires runs[j].outcome.Unreachable? && StreakAt(runs[..j], runs[j].at) == 2
    ensures exists k :: i < k <= j && StreakAt(runs[..k], runs[k].at) == 0
  {
    if forall k | i < k <= j :: StreakAt(runs[..k], runs[k].at) != 0 {
      StreakGrows(runs, i, j);
      assert false;
    }
  }

  lemma {:induction false} StreakGrows(runs: seq<Run>, i: nat, j: nat)
    requires i < j < |runs| && runs[i].outcome.Unreachable?
    requires forall k | i < k <= j :: StreakAt(runs[..k], runs[k].at) != 0
    ensures StreakAt(runs[..j], runs[j].at) == StreakAt(runs[..i], runs[i].at) + (j - i)
    decreases j
  {
    assert runs[..j][..j - 1] == runs[..j - 1];
    if j > i + 1 { StreakGrows(runs, i, j - 1); }
  }

  /** An "unreachable" row since the last recovery. */
  predicate Down(rows: seq<Row>) {
    rows != [] && (rows[|rows| - 1].UnreachableRow? || (rows[|rows| - 1].PolicyFailedRow? && Down(rows[..|rows| - 1])))
  }

  /** Every recovery row follows an "unreachable" row with no recovery between. */
  predicate RecoveriesFollow(rows: seq<Row>) {
    forall j | 0 <= j < |rows| && rows[j].ReachableAgainRow? :: Down(rows[..j])
  }

  /** A recovery row always answers an "unreachable" row, with no other recovery between. */
  lemma RecoveryAnswersARow(runs: seq<Run>, j: nat)
    requires j < |RowsOf(runs)| && RowsOf(runs)[j].ReachableAgainRow?
    ensures exists i | 0 <= i < j ::
              RowsOf(runs)[i].UnreachableRow? && forall k | i < k < j :: !RowsOf(runs)[k].ReachableAgainRow?
  {
    var rows := RowsOf(runs);
    RecoveriesAnswer(runs);
    hide RowsOf;
    var i := DownSince(rows[..j]);
    assert rows[i] == rows[..j][i];
    forall k | i < k < j ensures !rows[k].ReachableAgainRow? { assert rows[k] == rows[..j][k]; }
  }

  lemma {:induction false} DownSince(rows: seq<Row>) returns (i: nat)
    requires Down(rows)
    ensures i < |rows| && rows[i].UnreachableRow? && forall k | i < k < |rows| :: !rows[k].ReachableAgainRow?
    decreases |rows|
  {
    i := |rows| - 1;
    if rows[i].PolicyFailedRow? { i := DownSince(rows[..i]); }
  }

  /** Whenever a streak has reached three its row is written and not yet answered. */
  lemma {:induction false} RecoveriesAnswer(runs: seq<Run>)
    ensures RecoveriesFollow(RowsOf(runs))
    ensures forall now :: StreakAt(runs, now) >= UNREACHABLE_AFTER ==> Down(RowsOf(runs))
    decreases |runs|
  {
    if runs != [] {
      var init, last := runs[..|runs| - 1], runs[|runs| - 1];
      RecoveriesAnswer(init);
      var old_, rows := RowsOf(init), RowsOf(runs);
      forall j | 0 <= j < |rows| && rows[j].ReachableAgainRow? ensures Down(rows[..j]) {
        if j < |old_| {
          assert rows[..j] == old_[..j] && rows[j] == old_[j];
        } else {
          assert rows[..j] == old_;
        }
      }
      assert |rows| > |old_| ==> rows[..|rows| - 1] == old_;
      forall now: nat | StreakAt(runs, now) >= UNREACHABLE_AFTER ensures Down(rows) {
        assert last.outcome.Unreachable?;
        if StreakAt(init, last.at) >= UNREACHABLE_AFTER {
          assert Down(old_) && rows == old_ + [];
          assert rows == old_;
        }
      }
    }
  }
}
