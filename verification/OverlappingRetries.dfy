/** One disconnect event when retry runs overlap: the job takes no lock
    (backend/src/jobs/coa_retry.py, backend/src/jobs/job_lock.py). Each run reads the row, works
    on its own copy and writes when it commits. m is how many runs hold the event at once. */
module OverlappingRetries {
  import opened Options
  import opened DisconnectEvents
  import opened Sequences

  /** A run that selected the event: the count it read, when it began, and its attempt. */
  datatype Copy = Copy(attempts: nat, started: int, tried: Option<(int, bool)>)

  /** event: the committed row; its history is every attempt in order, committed or not.
      selected, lost: runs that took the event, and those that never committed. */
  datatype Row = Row(now: int, event: Event, copies: seq<Copy>, selected: nat, lost: nat)

  datatype Move =
    | Pass(seconds: nat)
    | Select
    | Attempt(copy: nat, outcome: Outcome)
    | Commit(copy: nat)
    | Crash(copy: nat)

  /** The first send has failed, at time 0. */
  const FIRST := Row(0, Attempted(Created(0), 0, false), [], 0, 0)

  function Without(copies: seq<Copy>, i: nat): seq<Copy>
    requires i < |copies|
  {
    copies[..i] + copies[i + 1..]
  }

  /** Only what a run changed is written: the status when its send was acknowledged. */
  function Written(e: Event, copy: Copy): Event
    requires copy.tried.Some?
  {
    e.(status := if copy.tried.value.1 then Sent else e.status,
       attempts := copy.attempts + 1,
       lastAttempt := Some(copy.tried.value.0))
  }

  function Moved(m: nat, s: Row, move: Move): Row {
    match move
    case Pass(seconds) => s.(now := s.now + seconds)
    case Select =>
      if |s.copies| < m && Retryable(s.event, s.now)
      then s.(copies := s.copies + [Copy(s.event.attempts, s.now, None)], selected := s.selected + 1)
      else s
    case Attempt(i, outcome) =>
      if i < |s.copies| && s.copies[i].tried.None?
      then
        var attempt := (if outcome.Missing? then s.copies[i].started else s.now, outcome.Acknowledged?);
        s.(copies := s.copies[i := s.copies[i].(tried := Some(attempt))],
           event := s.event.(history := s.event.history + [attempt]))
      else s
    case Commit(i) =>
      if i < |s.copies| && s.copies[i].tried.Some?
      then s.(copies := Without(s.copies, i), event := Written(s.event, s.copies[i]))
      else s
    case Crash(i) =>
      if i < |s.copies| then s.(copies := Without(s.copies, i), lost := s.lost + 1) else s
  }

  function MovedAll(m: nat, s: Row, moves: seq<Move>): Row
    decreases |moves|
  {
    if moves == [] then s else MovedAll(m, Moved(m, s, moves[0]), moves[1..])
  }

  // ----------------------------------------------------------------- counting copies

  datatype Kind = Read(attempts: nat) | Waiting

  predicate Is(copy: Copy, kind: Kind) { if kind.Read? then copy.attempts == kind.attempts else copy.tried.None? }

  function Count(copies: seq<Copy>, kind: Kind): nat {
    if copies == [] then 0 else Count(copies[..|copies| - 1], kind) + One(copies[|copies| - 1], kind)
  }

  function One(copy: Copy, kind: Kind): nat { if Is(copy, kind) then 1 else 0 }

  lemma {:induction false} CountConcat(a: seq<Copy>, b: seq<Copy>, kind: Kind)
    ensures Count(a + b, kind) == Count(a, kind) + Count(b, kind)
    decreases |b|
  {
    hide One;
    if b == [] {
      assert a + b == a;
    } else {
      var n := |b| - 1;
      assert (a + b)[..|a + b| - 1] == a + b[..n];
      CountConcat(a, b[..n], kind);
    }
  }

  lemma CountOne(copy: Copy, kind: Kind)
    ensures Count([copy], kind) == One(copy, kind)
  {
    assert [copy][..0] == [];
  }

  lemma CountAround(copies: seq<Copy>, i: nat, kind: Kind)
    requires i < |copies|
    ensures Count(copies, kind) == Count(Without(copies, i), kind) + One(copies[i], kind)
  {
    hide One, Count;
    var a, b := copies[..i], copies[i + 1..];
    assert copies == a + ([copies[i]] + b);
    CountConcat(a, [copies[i]] + b, kind); CountConcat([copies[i]], b, kind); CountConcat(a, b, kind);
    CountOne(copies[i], kind);
  }

  lemma CountUpdated(copies: seq<Copy>, i: nat, copy: Copy, kind: Kind)
    requires i < |copies|
    ensures Count(copies[i := copy], kind) == Count(copies, kind) - One(copies[i], kind) + One(copy, kind)
  {
    hide One, Count;
    CountAround(copies, i, kind); CountAround(copies[i := copy], i, kind);
    assert Without(copies[i := copy], i) == Without(copies, i);
  }

  lemma {:induction false} ReadOnceOrTwice(copies: seq<Copy>)
    requires forall c <- copies :: c.attempts in {1, 2}
    ensures Count(copies, Read(1)) + Count(copies, Read(2)) == |copies|
  {
    if copies != [] { ReadOnceOrTwice(copies[..|copies| - 1]); }
  }

  // --------------------------------------------------------------- the most attempts

  /** How many more runs can still read a count of 2 after each of a first-round commits. */
  function Later(m: nat, a: nat): int { if a == 0 then 0 else Later(m, a - 1) + m - (a - 1) }

  /** How many more runs can still take the event. */
  function Room(m: nat, attempts: nat, first: nat, second: nat): int {
    if attempts == 1 then m - first + Later(m, m)
    else if attempts == 2 then m - first - second + Later(m, first)
    else Later(m, first)
  }

  predicate CountsOk(m: nat, s: Row) {
    var first, second := Count(s.copies, Read(1)), Count(s.copies, Read(2));
    && first + second == |s.copies| <= m
    && s.event.attempts in {1, 2, 3}
    && (s.event.attempts == 1 ==> second == 0)
    && |s.event.history| + Count(s.copies, Waiting) <= 1 + s.selected
    && s.selected + Room(m, s.event.attempts, first, second) <= m + Later(m, m) + s.lost
  }

  lemma {:induction false} LaterBounds(m: nat, a: nat)
    requires a <= m
    ensures 0 <= Later(m, a) <= Later(m, m)
    decreases m - a
  {
    LaterGrows(m, a);
    if a < m { LaterBounds(m, a + 1); }
  }

  lemma {:induction false} LaterGrows(m: nat, a: nat)
    requires a <= m
    ensures 0 <= Later(m, a)
  {
    if a > 0 { LaterGrows(m, a - 1); }
  }

  lemma {:induction false} LaterClosed(m: nat, a: nat)
    ensures 2 * Later(m, a) == a * (2 * m - a + 1)
  {
    if a > 0 {
      LaterClosed(m, a - 1);
      calc {
        2 * Later(m, a);
        (a - 1) * (2 * m - (a - 1) + 1) + 2 * (m - (a - 1));
        a * (2 * m - a + 1);
      }
    }
  }

  /** Writing back a copy that read `read`, or losing it, never makes more room than it frees. */
  lemma RoomAfter(m: nat, attempts: nat, first: nat, second: nat, read: nat)
    requires attempts in {1, 2, 3} && first + second <= m && (attempts == 1 ==> second == 0)
    requires read in {1, 2} && (if read == 1 then first > 0 else second > 0)
    ensures var f, s := if read == 1 then first - 1 else first, if read == 2 then second - 1 else second;
            && Room(m, read + 1, f, s) <= Room(m, attempts, first, second)
            && Room(m, attempts, f, s) <= Room(m, attempts, first, second) + 1
  {
    LaterBounds(m, first);
    if first > 0 { LaterBounds(m, first - 1); }
  }

  lemma {:induction false} ReadAtMostAll(copies: seq<Copy>)
    ensures Count(copies, Read(1)) + Count(copies, Read(2)) <= |copies|
  {
    if copies != [] { ReadAtMostAll(copies[..|copies| - 1]); }
  }

  /** Every copy read a count of 1 or 2. */
  lemma ReadsOf(copies: seq<Copy>, i: nat)
    requires i < |copies| && Count(copies, Read(1)) + Count(copies, Read(2)) == |copies|
    ensures copies[i].attempts in {1, 2}
    ensures forall k :: Count(Without(copies, i), Read(k))
                        == Count(copies, Read(k)) - if copies[i].attempts == k then 1 else 0
  {
    forall k ensures Count(Without(copies, i), Read(k))
                     == Count(copies, Read(k)) - if copies[i].attempts == k then 1 else 0 {
      CountAround(copies, i, Read(k));
    }
    ReadAtMostAll(Without(copies, i));
  }

  lemma SelectKeepsCounts(m: nat, s: Row)
    requires CountsOk(m, s)
    ensures CountsOk(m, Moved(m, s, Select))
  {
    var copy := Copy(s.event.attempts, s.now, None);
    forall kind ensures Count(s.copies + [copy], kind) == Count(s.copies, kind) + One(copy, kind) {
      CountConcat(s.copies, [copy], kind);
      CountOne(copy, kind);
    }
    hide Count, Later;
  }

  lemma AttemptKeepsCounts(m: nat, s: Row, i: nat, outcome: Outcome)
    requires CountsOk(m, s)
    ensures CountsOk(m, Moved(m, s, Attempt(i, outcome)))
  {
    hide Count, Later, Room;
    if i < |s.copies| && s.copies[i].tried.None? {
      var copies := Moved(m, s, Attempt(i, outcome)).copies;
      forall kind ensures Count(copies, kind) == Count(s.copies, kind) - One(s.copies[i], kind) + One(copies[i], kind) {
        CountUpdated(s.copies, i, copies[i], kind);
      }
    }
  }

  lemma EndingKeepsCounts(m: nat, s: Row, i: nat)
    requires CountsOk(m, s)
    ensures CountsOk(m, Moved(m, s, Commit(i))) && CountsOk(m, Moved(m, s, Crash(i)))
  {
    hide Count, Later, Room;
    if i < |s.copies| {
      ReadsOf(s.copies, i);
      CountAround(s.copies, i, Waiting);
      RoomAfter(m, s.event.attempts, Count(s.copies, Read(1)), Count(s.copies, Read(2)), s.copies[i].attempts);
    }
  }

  lemma MoveKeepsCounts(m: nat, s: Row, move: Move)
    requires CountsOk(m, s)
    ensures CountsOk(m, Moved(m, s, move))
  {
    match move {
      case Pass(seconds) =>
      case Select => SelectKeepsCounts(m, s);
      case Attempt(i, outcome) => AttemptKeepsCounts(m, s, i, outcome);
      case Commit(i) => EndingKeepsCounts(m, s, i);
      case Crash(i) => EndingKeepsCounts(m, s, i);
    }
  }

  lemma {:induction false} MovesKeepCounts(m: nat, s: Row, moves: seq<Move>)
    requires CountsOk(m, s)
    ensures CountsOk(m, MovedAll(m, s, moves))
    decreases |moves|
  {
    hide CountsOk, Moved;
    if moves != [] {
      MoveKeepsCounts(m, s, moves[0]);
      MovesKeepCounts(m, Moved(m, s, moves[0]), moves[1..]);
    }
  }

  /** The most attempts m overlapping runs can make are the first send, m by runs that read it,
      and j more after the j-th of those commits and lowers the count again: however the runs
      interleave, and each lost run allowing one more. */
  lemma AttemptsBound(m: nat, moves: seq<Move>)
    ensures var s := MovedAll(m, FIRST, moves);
            |s.event.history| <= 1 + m + m * (m + 1) / 2 + s.lost
  {
    MovesKeepCounts(m, FIRST, moves);
    var s := MovedAll(m, FIRST, moves);
    LaterBounds(m, Count(s.copies, Read(1)));
    LaterClosed(m, m);
  }

  // ------------------------------------------------------------- the bound is reached

  lemma {:induction false} MovedAllConcat(m: nat, s: Row, a: seq<Move>, b: seq<Move>)
    ensures MovedAll(m, s, a + b) == MovedAll(m, MovedAll(m, s, a), b)
    decreases |a|
  {
    hide Moved;
    if a == [] {
      assert a + b == b;
    } else {
      HeadOfConcat(a, b);
      MovedAllConcat(m, Moved(m, s, a[0]), a[1..], b);
    }
  }

  function Times(n: nat, copy: Copy): seq<Copy> { if n == 0 then [] else [copy] + Times(n - 1, copy) }

  lemma {:induction false} TimesLength(n: nat, copy: Copy)
    ensures |Times(n, copy)| == n
  {
    if n > 0 { TimesLength(n - 1, copy); }
  }

  /** n runs select and attempt the event, the first of them becoming copy number `from`. */
  function Starting(n: nat, from: nat): seq<Move> {
    if n == 0 then [] else [Select, Attempt(from, NotAcknowledged)] + Starting(n - 1, from + 1)
  }

  /** n runs commit, from copy number `at` on. */
  function Ending(n: nat, at: nat): seq<Move> { if n == 0 then [] else [Commit(at)] + Ending(n - 1, at) }

  function Failing(attempts: nat, at: int): Copy { Copy(attempts, at, Some((at, false))) }

  lemma OneStarts(m: nat, s: Row)
    requires |s.copies| < m && Retryable(s.event, s.now)
    ensures var t := Moved(m, Moved(m, s, Select), Attempt(|s.copies|, NotAcknowledged));
            && t.copies == s.copies + [Failing(s.event.attempts, s.now)] && t.now == s.now && t.lost == s.lost
            && t.event == s.event.(history := t.event.history) && |t.event.history| == |s.event.history| + 1
            && Retryable(t.event, t.now)
  {}

  lemma TwoMoves(m: nat, s: Row, a: Move, b: Move, rest: seq<Move>)
    ensures MovedAll(m, s, [a, b] + rest) == MovedAll(m, Moved(m, Moved(m, s, a), b), rest)
  {
    var all := [a, b] + rest;
    assert all[0] == a && all[1..][0] == b && all[1..][1..] == rest;
    hide Moved;
  }

  lemma {:induction false} StartingRuns(m: nat, s: Row, n: nat)
    requires |s.copies| + n <= m && Retryable(s.event, s.now)
    ensures var t := MovedAll(m, s, Starting(n, |s.copies|));
            && t.copies == s.copies + Times(n, Failing(s.event.attempts, s.now)) && t.now == s.now && t.lost == s.lost
            && t.event == s.event.(history := t.event.history) && |t.event.history| == |s.event.history| + n
    decreases n
  {
    hide Moved, Retryable, Failing;
    if n > 0 {
      var from := |s.copies|;
      var u := Moved(m, Moved(m, s, Select), Attempt(from, NotAcknowledged));
      OneStarts(m, s);
      StartingRuns(m, u, n - 1);
      TwoMoves(m, s, Select, Attempt(from, NotAcknowledged), Starting(n - 1, from + 1));
      var copy := Failing(s.event.attempts, s.now);
      Grouping(s.copies, [copy], Times(n - 1, copy));
    }
  }

  lemma {:induction false} EndingRuns(m: nat, s: Row, kept: seq<Copy>, n: nat, copy: Copy)
    requires s.copies == kept + Times(n, copy) && copy.tried.Some? && !copy.tried.value.1
    ensures var t := MovedAll(m, s, Ending(n, |kept|));
            t == s.(copies := kept, event := if n == 0 then s.event else Written(s.event, copy))
    decreases n
  {
    TimesLength(n, copy);
    if n == 0 {
      assert s.copies == kept;
    } else {
      var t := Moved(m, s, Commit(|kept|));
      assert Without(s.copies, |kept|) == kept + Times(n - 1, copy);
      assert t == s.(copies := kept + Times(n - 1, copy), event := Written(s.event, copy));
      EndingRuns(m, t, kept, n - 1, copy);
      HeadOfConcat([Commit(|kept|)], Ending(n - 1, |kept|));
    }
  }

  /** A run that read a count of 1 commits late, j runs read the 2 it leaves and commit too. */
  function Round(m: nat, j: nat): seq<Move>
    requires j <= m
  {
    [Commit(0), Pass(RETRY_AFTER + 1)] + (Starting(j, m - j) + Ending(j, m - j))
  }

  function Rounds(m: nat, j: nat): seq<Move>
    requires j <= m + 1
    decreases m + 1 - j
  {
    if j > m then [] else Round(m, j) + Rounds(m, j + 1)
  }

  /** Every run still out read a count of 1 and was not acknowledged. */
  predicate FirstRound(s: Row, n: nat, at: int) {
    s.copies == Times(n, Failing(1, at)) && at <= s.now && s.event.status.Failed? && s.lost == 0
  }

  lemma CommitReopens(m: nat, s: Row, n: nat, at: int)
    requires n > 0 && FirstRound(s, n, at)
    ensures var t := Moved(m, Moved(m, s, Commit(0)), Pass(RETRY_AFTER + 1));
            && FirstRound(t, n - 1, at) && Retryable(t.event, t.now) && t.event.history == s.event.history
  {
    assert Without(s.copies, 0) == Times(n - 1, Failing(1, at));
  }

  lemma RoundRuns(m: nat, j: nat, s: Row, at: int)
    requires 0 < j <= m && FirstRound(s, m - j + 1, at)
    ensures var t := MovedAll(m, s, Round(m, j));
            FirstRound(t, m - j, at) && |t.event.history| == |s.event.history| + j
  {
    hide Moved, Retryable, Starting, Ending, MovedAll;
    var t := Moved(m, Moved(m, s, Commit(0)), Pass(RETRY_AFTER + 1));
    CommitReopens(m, s, m - j + 1, at);
    TwoMoves(m, s, Commit(0), Pass(RETRY_AFTER + 1), Starting(j, m - j) + Ending(j, m - j));
    MovedAllConcat(m, t, Starting(j, m - j), Ending(j, m - j));
    TimesLength(m - j, Failing(1, at));
    StartingRuns(m, t, j);
    EndingRuns(m, MovedAll(m, t, Starting(j, m - j)), t.copies, j, Failing(t.event.attempts, t.now));
  }

  lemma {:induction false} RoundsRun(m: nat, j: nat, s: Row, at: int)
    requires 0 < j <= m + 1 && FirstRound(s, m - j + 1, at)
    ensures var t := MovedAll(m, s, Rounds(m, j));
            t.lost == 0 && |t.event.history| == |s.event.history| + Later(m, m - j + 1)
    decreases m + 1 - j
  {
    hide Round, Moved;
    if j <= m {
      RoundRuns(m, j, s, at);
      MovedAllConcat(m, s, Round(m, j), Rounds(m, j + 1));
      RoundsRun(m, j + 1, MovedAll(m, s, Round(m, j)), at);
    }
  }

  function Worst(m: nat): seq<Move> { [Pass(RETRY_AFTER + 1)] + (Starting(m, 0) + Rounds(m, 1)) }

  /** And m runs can make that many with none lost. */
  lemma BoundIsReached(m: nat)
    ensures exists moves ::
              var s := MovedAll(m, FIRST, moves);
              s.lost == 0 && |s.event.history| == 1 + m + m * (m + 1) / 2
  {
    hide Starting, Rounds, MovedAll;
    var s := Moved(m, FIRST, Pass(RETRY_AFTER + 1));
    FirstMove(m, FIRST, Pass(RETRY_AFTER + 1), Starting(m, 0) + Rounds(m, 1));
    MovedAllConcat(m, s, Starting(m, 0), Rounds(m, 1));
    StartingRuns(m, s, m);
    var t := MovedAll(m, s, Starting(m, 0));
    assert t.copies == Times(m, Failing(1, RETRY_AFTER + 1));
    RoundsRun(m, 1, t, RETRY_AFTER + 1);
    LaterClosed(m, m);
    assert MovedAll(m, FIRST, Worst(m)) == MovedAll(m, t, Rounds(m, 1));
  }

  lemma FirstMove(m: nat, s: Row, move: Move, rest: seq<Move>)
    ensures MovedAll(m, s, [move] + rest) == MovedAll(m, Moved(m, s, move), rest)
  {
    HeadOfConcat([move], rest);
    hide Moved;
  }

  // ------------------------------------------------------- acknowledgement and spacing

  /** Once an acknowledged attempt is written, only the runs that have the event and have
      not sent yet can send again, and the row says Sent for good. */
  lemma AcknowledgedEnds(m: nat, s: Row, moves: seq<Move>)
    requires s.event.status.Sent?
    ensures var t := MovedAll(m, s, moves);
            && t.event.status.Sent?
            && |t.event.history| <= |s.event.history| + |set i | 0 <= i < |s.copies| && s.copies[i].tried.None?|
  {
    StaysAcknowledged(m, s, moves);
    WaitingAre(s.copies);
  }

  lemma {:induction false} WaitingAre(copies: seq<Copy>)
    ensures Count(copies, Waiting) == |set i | 0 <= i < |copies| && copies[i].tried.None?|
    decreases |copies|
  {
    if copies != [] {
      var n := |copies| - 1;
      WaitingAre(copies[..n]);
      OneMoreIndex((set i | 0 <= i < |copies[..n]| && copies[..n][i].tried.None?),
                   (set i | 0 <= i < |copies| && copies[i].tried.None?), n, copies[n].tried.None?);
    }
  }

  lemma {:induction false} StaysAcknowledged(m: nat, s: Row, moves: seq<Move>)
    requires s.event.status.Sent?
    ensures var t := MovedAll(m, s, moves);
            t.event.status.Sent? && |t.event.history| <= |s.event.history| + Count(s.copies, Waiting)
    decreases |moves|
  {
    if moves != [] {
      SentStays(m, s, moves[0]);
      hide Count, Moved;
      StaysAcknowledged(m, Moved(m, s, moves[0]), moves[1..]);
    }
  }

  lemma SentStays(m: nat, s: Row, move: Move)
    requires s.event.status.Sent?
    ensures var t := Moved(m, s, move);
            && t.event.status.Sent?
            && |t.event.history| + Count(t.copies, Waiting) <= |s.event.history| + Count(s.copies, Waiting)
  {
    hide Count;
    match move {
      case Attempt(i, outcome) =>
        if i < |s.copies| { CountUpdated(s.copies, i, Moved(m, s, move).copies[i], Waiting); }
      case Commit(i) => if i < |s.copies| { CountAround(s.copies, i, Waiting); }
      case Crash(i) => if i < |s.copies| { CountAround(s.copies, i, Waiting); }
      case _ =>
    }
  }

  predicate Spaced(history: seq<(int, bool)>) {
    forall k | 0 < k < |history| :: history[k - 1].0 + RETRY_AFTER < history[k].0
  }

  /** The row as it was before this run's attempt. */
  function Before(e: Event): Event
    requires e.history != []
  {
    e.(history := e.history[..|e.history| - 1])
  }

  /** What holds while runs take turns: the committed row is an event of DisconnectEvents. */
  predicate Alone(s: Row) {
    if s.copies == [] then EventOk(s.event, s.now)
    else
      && |s.copies| == 1
      && var c := s.copies[0];
      && c.started <= s.now
      && (c.tried.None? ==> TakenFrom(s.event, c, s.now))
      && (c.tried.Some? ==>
            && s.event.history != [] && s.event.history[|s.event.history| - 1] == c.tried.value
            && c.started <= c.tried.value.0 <= s.now && TakenFrom(Before(s.event), c, s.now))
  }

  predicate TakenFrom(e: Event, copy: Copy, now: int) {
    EventOk(e, now) && Retryable(e, copy.started) && copy.attempts == e.attempts
  }

  lemma TimeKeepsEvent(e: Event, now: int, seconds: nat)
    requires EventOk(e, now)
    ensures EventOk(e, now + seconds)
  {}

  lemma PassKeepsAlone(s: Row, seconds: nat)
    requires Alone(s)
    ensures Alone(s.(now := s.now + seconds))
  {
    hide EventOk, Retryable;
    if s.copies == [] || s.copies[0].tried.None? {
      TimeKeepsEvent(s.event, s.now, seconds);
    } else {
      TimeKeepsEvent(Before(s.event), s.now, seconds);
    }
  }

  lemma AttemptKeepsAlone(m: nat, s: Row, i: nat, outcome: Outcome)
    requires Alone(s) && i < |s.copies| && s.copies[i].tried.None?
    ensures Alone(Moved(m, s, Attempt(i, outcome)))
  {
    hide EventOk, Retryable;
    assert Before(Moved(m, s, Attempt(i, outcome)).event) == s.event;
  }

  lemma CommitKeepsAlone(m: nat, s: Row, i: nat)
    requires Alone(s) && i < |s.copies| && s.copies[i].tried.Some?
    ensures Alone(Moved(m, s, Commit(i)))
  {
    hide EventOk;
    var c := s.copies[0];
    var e, at, ok := Before(s.event), c.tried.value.0, c.tried.value.1;
    AttemptKeepsEvent(e, c.started, at, s.now, ok);
    assert s.event.history == e.history + [(at, ok)];
    assert Written(s.event, c) == Attempted(e, at, ok);
  }

  lemma MoveKeepsAlone(m: nat, s: Row, move: Move)
    requires m <= 1 && Alone(s) && Moved(m, s, move).lost <= s.lost
    ensures Alone(Moved(m, s, move))
  {
    hide EventOk, Retryable;
    match move {
      case Pass(seconds) => PassKeepsAlone(s, seconds);
      case Attempt(i, outcome) =>
        if i < |s.copies| && s.copies[i].tried.None? { AttemptKeepsAlone(m, s, i, outcome); }
      case Commit(i) => if i < |s.copies| && s.copies[i].tried.Some? { CommitKeepsAlone(m, s, i); }
      case _ =>
    }
  }

  lemma {:induction false} MovesKeepAlone(m: nat, s: Row, moves: seq<Move>)
    requires m <= 1 && Alone(s) && MovedAll(m, s, moves).lost == 0
    ensures Alone(MovedAll(m, s, moves))
    decreases |moves|
  {
    hide Alone;
    if moves != [] {
      LostStays(m, Moved(m, s, moves[0]), moves[1..]);
      MoveKeepsAlone(m, s, moves[0]);
      MovesKeepAlone(m, Moved(m, s, moves[0]), moves[1..]);
    }
  }

  lemma {:induction false} LostStays(m: nat, s: Row, moves: seq<Move>)
    ensures s.lost <= MovedAll(m, s, moves).lost
    decreases |moves|
  {
    if moves != [] { LostStays(m, Moved(m, s, moves[0]), moves[1..]); }
  }

  lemma AloneIsSpaced(s: Row)
    requires Alone(s)
    ensures Spaced(s.event.history)
  {
    if s.copies != [] && s.copies[0].tried.Some? {
      var c := s.copies[0];
      AttemptKeepsEvent(Before(s.event), c.started, c.tried.value.0, s.now, c.tried.value.1);
      assert s.event.history == Before(s.event).history + [c.tried.value];
    }
  }

  /** Taking turns, the committed row is always an event of DisconnectEvents: three attempts at
      most, all failed but perhaps the last, and the count true. */
  lemma TakingTurns(moves: seq<Move>)
    requires MovedAll(1, FIRST, moves).lost == 0 && MovedAll(1, FIRST, moves).copies == []
    ensures EventOk(MovedAll(1, FIRST, moves).event, MovedAll(1, FIRST, moves).now)
    ensures var e := MovedAll(1, FIRST, moves).event;
            && 1 <= |e.history| <= 3 && (e.status == Sent || e.status == Failed || e.status == Confirmed)
            && (forall k | 0 <= k < |e.history| - 1 :: !e.history[k].1)
            && (e.status == Failed <==> !e.history[|e.history| - 1].1)
  {
    MovesKeepAlone(1, FIRST, moves);
  }

  /** One run from its SELECT to its commit is one turn of the retry loop in DisconnectEvents: the
      event gains one attempt, at the time of the send, or of the SELECT when its router or voucher
      is gone. */
  lemma OneTurnIsARetry(m: nat, s: Row, outcome: Outcome, before: nat, after: nat)
    requires m > 0 && s.copies == [] && s.event.status == Failed && s.event.attempts < 3
    requires s.event.lastAttempt.Some? && s.event.lastAttempt.value + 120 < s.now
    ensures var sent := Moved(m, Moved(m, Moved(m, s, Select), Pass(before)), Attempt(0, outcome));
            var t := Moved(m, Moved(m, sent, Pass(after)), Commit(0));
            var at := if outcome == Missing then s.now else s.now + before;
            var ok := outcome == Acknowledged;
            && t.copies == [] && t.lost == s.lost
            && t.event == Event(s.event.voucher, if ok then Sent else Failed, s.event.attempts + 1, Some(at),
                                s.event.history + [(at, ok)])
            && t.event == Attempted(s.event, at, ok)
  {}

  /** Two runs that select together send together. */
  lemma TwoSendTogether(m: nat)
    requires m >= 2
    ensures exists moves ::
              var s := MovedAll(m, FIRST, moves);
              s.lost == 0 && !Spaced(s.event.history)
  {
    var second := [Select, Attempt(1, NotAcknowledged)];
    var s := Moved(m, FIRST, Pass(RETRY_AFTER + 1));
    var t := Moved(m, Moved(m, s, Select), Attempt(0, NotAcknowledged));
    FirstMove(m, FIRST, Pass(RETRY_AFTER + 1), [Select, Attempt(0, NotAcknowledged)] + second);
    TwoMoves(m, s, Select, Attempt(0, NotAcknowledged), second);
    var u := Moved(m, Moved(m, t, Select), Attempt(1, NotAcknowledged));
    TwoMoves(m, t, Select, Attempt(1, NotAcknowledged), []);
    assert second + [] == second;
    assert u.event.history[1].0 == u.event.history[2].0;
    assert !Spaced(u.event.history);
  }

  /** Attempts keep two minutes apart in every interleaving exactly when runs take turns. */
  lemma SpacedIffAlone(m: nat)
    ensures (forall moves, k |
               MovedAll(m, FIRST, moves).lost == 0 && 0 < k < |MovedAll(m, FIRST, moves).event.history| ::
               MovedAll(m, FIRST, moves).event.history[k - 1].0 + 120 < MovedAll(m, FIRST, moves).event.history[k].0)
            <==> m <= 1
  {
    if m <= 1 {
      forall moves | MovedAll(m, FIRST, moves).lost == 0
        ensures Spaced(MovedAll(m, FIRST, moves).event.history)
      {
        MovesKeepAlone(m, FIRST, moves);
        AloneIsSpaced(MovedAll(m, FIRST, moves));
      }
    } else {
      TwoSendTogether(m);
      var moves :| MovedAll(m, FIRST, moves).lost == 0 && !Spaced(MovedAll(m, FIRST, moves).event.history);
      var history := MovedAll(m, FIRST, moves).event.history;
      var k :| 0 < k < |history| && !(history[k - 1].0 + RETRY_AFTER < history[k].0);
    }
  }
}
