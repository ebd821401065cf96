/** The nightly audit purge (backend/src/jobs/audit_retention.py): how far back the log
    is kept, and the batched deletion of what is older. */
module Retention {
  import opened Options
  import opened Calendar

  // --------------------------------------------------------------- whole months back

  function Min(a: nat, b: nat): nat { if a < b then a else b }

  /** months_before; None where datetime.replace raises, before the year 1. */
  function MonthsBefore(m: Moment, months: nat): Option<Moment> {
    var index := m.index - months;
    if index < FIRST_MONTH then None
    else Some(Moment(index, Min(m.day, DaysIn(index)), m.second))
  }

  /** There is a result exactly when the month is not before January of year 1; it is a real day,
      so many months back, at the same time of day, and the latest day of its month no later than
      the one asked for. */
  lemma MonthsBeforeIsValid(m: Moment, months: nat)
    requires m.Valid()
    ensures MonthsBefore(m, months).None? <==> m.index - months < 12
    ensures MonthsBefore(m, months).Some? ==>
            var r := MonthsBefore(m, months).value;
            && r.Valid() && r.index + months == m.index && r.second == m.second
            && r.day == (if m.day <= DaysIn(r.index) then m.day else DaysIn(r.index))
  {}

  /** Later dates never give earlier dates. */
  lemma MonthsBeforeMonotoneOnDates(a: Moment, b: Moment, months: nat)
    requires a.Valid() && b.Valid() && a.DateNotAfter(b)
    requires MonthsBefore(a, months).Some?
    ensures MonthsBefore(b, months).Some?
    ensures MonthsBefore(a, months).value.DateNotAfter(MonthsBefore(b, months).value)
  {}

  /** Two days of one month that both fall off the target month's end, the earlier one at
      a later time of day. */
  predicate ClampSwaps(a: Moment, b: Moment, months: nat) {
    && a.index == b.index
    && DaysIn(a.index - months) <= a.day < b.day
    && a.second > b.second
  }

  /** With the time of day it is monotone except in exactly that case. */
  lemma MonthsBeforeMonotoneIff(a: Moment, b: Moment, months: nat)
    requires a.Valid() && b.Valid() && a.NotAfter(b) && MonthsBefore(a, months).Some?
    ensures MonthsBefore(b, months).Some?
    ensures MonthsBefore(a, months).value.NotAfter(MonthsBefore(b, months).value) <==> !ClampSwaps(a, b, months)
  {}

  /** 30 March 10:00 is before 31 March 09:00; a month earlier, 28 February 2023, it is after. */
  lemma ClampSwapsTwoMoments()
    ensures var a, b := Moment(2023 * 12 + 2, 30, 36000), Moment(2023 * 12 + 2, 31, 32400);
            a.NotAfter(b) && MonthsBefore(a, 1).Some? && MonthsBefore(b, 1).Some?
            && !MonthsBefore(a, 1).value.NotAfter(MonthsBefore(b, 1).value)
  {}

  /** Going back in two steps agrees with going back in one exactly when the month in
      between does not cut the day shorter than the last one does; so always from a day
      up to the 28th. */
  lemma MonthsBeforeComposesIff(m: Moment, first: nat, second: nat)
    requires m.Valid() && m.index - first - second >= FIRST_MONTH
    ensures MonthsBefore(m, first).Some? && MonthsBefore(m, first + second).Some?
    ensures MonthsBefore(MonthsBefore(m, first).value, second) == MonthsBefore(m, first + second) <==>
            (m.day <= DaysIn(m.index - first) || DaysIn(m.index - first - second) <= DaysIn(m.index - first))
    ensures m.day <= 28 ==>
            MonthsBefore(MonthsBefore(m, first).value, second) == MonthsBefore(m, first + second)
  {}

  /** retention_cutoff; None where it, or months_before, raises. */
  function RetentionCutoff(now: Moment, months: int): Option<Moment> {
    if months < 1 then None else MonthsBefore(now, months)
  }

  /** Whatever is configured, there is a cutoff exactly for a positive number of months that does
      not lead before year 1; it is that many calendar months ago, on the same day or the last one
      that month has, at the same time; and so in an earlier month than now: a run never counts its
      own rows as past retention. */
  lemma CutoffIsPast(now: Moment, months: int)
    requires now.Valid()
    ensures RetentionCutoff(now, months).Some? <==> 1 <= months <= now.index - 12
    ensures RetentionCutoff(now, months).Some? ==>
            var cutoff := RetentionCutoff(now, months).value;
            && cutoff.index == now.index - months && cutoff.second == now.second
            && cutoff.day == (if now.day <= DaysIn(cutoff.index) then now.day else DaysIn(cutoff.index))
            && cutoff.Valid() && cutoff.NotAfter(now) && !now.NotAfter(cutoff)
  {}

  /** Order of instants, on their parts. */
  lemma OrderIsOfTheClock(a: Moment, b: Moment)
    requires a.Valid() && b.Valid()
    ensures a.NotAfter(b) <==>
            (a.index * 32 + a.day) * 86400 + a.second <= (b.index * 32 + b.day) * 86400 + b.second
    ensures a.DateNotAfter(b) <==> a.index * 32 + a.day <= b.index * 32 + b.day
  {}

  // ------------------------------------------------------------------- the purge

  const MAX_BATCHES: nat := 200

  /** The configured batch size, at least 1. */
  function BatchSize(configured: int): nat { if configured < 1 then 1 else configured }

  /** purged: on the job's own rows, how many rows that batch deleted. */
  datatype Row = Row(id: nat, createdAt: int, purged: Option<nat>)

  function Eligible(rows: set<Row>, cutoff: int): set<Row> { set r <- rows | r.createdAt < cutoff }

  /** removed are the oldest of from: nothing left behind is older than anything taken. */
  predicate OldestOf(from: set<Row>, removed: set<Row>) {
    removed <= from && forall r <- removed, q <- from - removed :: r.createdAt <= q.createdAt
  }

  /** What it means to take the oldest, on the rows themselves. */
  lemma OldestMeans(rows: set<Row>, cutoff: int, removed: set<Row>)
    requires OldestOf(Eligible(rows, cutoff), removed)
    ensures removed <= rows && forall r <- removed :: r.createdAt < cutoff
    ensures forall r <- removed, q <- rows - removed | q.createdAt < cutoff :: r.createdAt <= q.createdAt
    ensures Eligible(rows, cutoff) == set r <- rows | r.createdAt < cutoff
  {}

  lemma NoneEligible(rows: set<Row>, cutoff: int)
    ensures Eligible(rows, cutoff) == {} <==> forall r <- rows :: r.createdAt >= cutoff
  {
    forall r <- rows ensures r in Eligible(rows, cutoff) <==> r.createdAt < cutoff {}
  }

  predicate IsOldest(r: Row, from: set<Row>) { r in from && forall q <- from :: r.createdAt <= q.createdAt }

  lemma {:induction false} OldestExists(from: set<Row>) returns (oldest: Row)
    requires from != {}
    ensures IsOldest(oldest, from)
    decreases |from|
  {
    var r :| r in from;
    var rest := from - {r};
    oldest := r;
    if rest == {} {
      assert from == {r};
    } else {
      var s := OldestExists(rest);
      if s.createdAt < r.createdAt { oldest := s; }
      assert forall q <- from :: q == r || q in rest;
    }
  }

  /** What n full batches delete. */
  function FullBatches(n: nat, size: nat): nat { if n == 0 then 0 else FullBatches(n - 1, size) + size }

  lemma {:induction false} FullBatchesAre(n: nat, size: nat)
    ensures FullBatches(n, size) == n * size
  {
    if n > 0 { FullBatchesAre(n - 1, size); }
  }

  lemma FullBatchesStep(size: nat)
    ensures FullBatches(0, size) == 0
    ensures forall n: nat :: FullBatches(n + 1, size) == FullBatches(n, size) + size
  {}

  lemma {:induction false} FullBatchesGrow(m: nat, n: nat, size: nat)
    requires m <= n
    ensures FullBatches(m, size) <= FullBatches(n, size)
  {
    if m < n { FullBatchesGrow(m, n - 1, size); }
  }

  lemma NothingPicked(from: set<Row>)
    ensures OldestOf(from, {}) && from - {} == from
  {}

  lemma OneMoreOldest(from: set<Row>, picked: set<Row>, r: Row)
    requires OldestOf(from, picked) && IsOldest(r, from - picked)
    ensures OldestOf(from, picked + {r}) && r in from - picked
    ensures |picked + {r}| == |picked| + 1 && |from - picked - {r}| == |from - picked| - 1
  {}

  function Sum(xs: seq<nat>): nat { if xs == [] then 0 else Sum(xs[..|xs| - 1]) + xs[|xs| - 1] }

  /** A serial key: every row's id has been given out. */
  predicate IdsBelow(rows: set<Row>, nextId: nat) { forall r <- rows :: r.id < nextId }

  lemma FreshRow(rows: set<Row>, picked: set<Row>, nextId: nat, own: Row)
    requires IdsBelow(rows, nextId) && own.id == nextId
    ensures own !in rows && IdsBelow(rows - picked + {own}, nextId + 1)
  {}

  lemma FewerRows(rows: set<Row>, picked: set<Row>, nextId: nat)
    requires IdsBelow(rows, nextId)
    ensures IdsBelow(rows - picked, nextId)
  {}

  class AuditLog {
    var rows: set<Row>
    var nextId: nat
    ghost var recorded: seq<nat>

    ghost predicate Valid() reads this { IdsBelow(rows, nextId) }

    /** SELECT id ... ORDER BY created_at LIMIT batch: rows of one age in any order. */
    method OldestBatch(cutoff: int, batch: nat) returns (picked: set<Row>)
      ensures OldestOf(Eligible(rows, cutoff), picked)
      ensures |picked| == Min(batch, |Eligible(rows, cutoff)|)
      ensures picked <= rows && forall r <- picked :: r.createdAt < cutoff
      ensures forall r <- picked, q <- rows - picked | q.createdAt < cutoff :: r.createdAt <= q.createdAt
      ensures |picked| <= batch && (|picked| < batch ==> forall q <- rows | q.createdAt < cutoff :: q in picked)
    {
      hide Eligible, OldestOf, IsOldest;
      var eligible := Eligible(rows, cutoff);
      NothingPicked(eligible);
      picked := {};
      var left := eligible;
      while |picked| < batch && left != {}
        invariant left == eligible - picked && OldestOf(eligible, picked)
        invariant |picked| + |left| == |eligible|
        invariant |picked| <= batch
        decreases left
      {
        ghost var oldest := OldestExists(left);
        var r :| IsOldest(r, left);
        OneMoreOldest(eligible, picked, r);
        assert eligible - (picked + {r}) == left - {r};
        picked, left := picked + {r}, left - {r};
      }
      OldestMeans(rows, cutoff, picked);
    }

    /** purge_batch: one transaction, with its own row when it deleted anything. */
    method PurgeBatch(cutoff: int, batch: nat, now: int) returns (deleted: nat)
      requires Valid() && cutoff <= now
      modifies this
      ensures Valid() && old(nextId) <= nextId
      ensures OldestOf(Eligible(old(rows), cutoff), old(rows) - rows)
      ensures Eligible(rows, cutoff) == Eligible(old(rows), cutoff) - (old(rows) - rows)
      ensures deleted == |old(rows) - rows| == Min(batch, |Eligible(old(rows), cutoff)|)
      ensures forall r <- rows - old(rows) :: r == Row(old(nextId), now, Some(deleted))
      ensures deleted > 0 <==> rows - old(rows) != {}
      ensures recorded == old(recorded) + if deleted > 0 then [deleted] else []
    {
      hide OldestOf, Eligible, IdsBelow;
      var picked := OldestBatch(cutoff, batch);
      deleted := |picked|;
      if deleted > 0 {
        var own := Row(nextId, now, Some(deleted));
        FreshRow(rows, picked, nextId, own);
        BatchReplaced(rows, picked, own, cutoff);
        rows := rows - picked + {own};
        nextId := nextId + 1;
        recorded := recorded + [deleted];
      } else {
        FewerRows(rows, picked, nextId);
        NothingReplaced(rows, picked, cutoff);
        rows := rows - picked;
      }
    }

    /** One turn of the loop, beside what the night has done so far. */
    method NextBatch(cutoff: int, batch: nat, now: int, ghost was: set<Row>, ghost written: seq<nat>, ghost total: nat)
      returns (deleted: nat)
      requires Valid() && cutoff <= now && SoFar(was, written, rows, recorded, nextId, cutoff, now, total)
      modifies this
      ensures Valid() && SoFar(was, written, rows, recorded, nextId, cutoff, now, total + deleted)
      ensures deleted == Min(batch, |Eligible(was, cutoff)| - total)
    {
      hide Eligible, Sum, IdsBelow;
      ghost var before, soFar := rows, recorded;
      assert forall r <- was :: r.id < nextId;
      deleted := PurgeBatch(cutoff, batch, now);
      ProgressStep(was, before, rows, Eligible(was, cutoff), Eligible(before, cutoff), total);
      SumExtends(written, soFar, recorded, deleted);
      OwnRowsStep(was, before, rows, nextId, now, deleted);
      SizeOfRest(Eligible(was, cutoff), was - before);
    }

    /** The while loop. */
    method RunBatches(cutoff: int, batchSize: nat, now: int, ghost was: set<Row>, ghost written: seq<nat>)
      returns (total: nat, batches: nat)
      requires Valid() && cutoff <= now && rows == was && recorded == written
      modifies this
      ensures Valid() && batches <= MAX_BATCHES
      ensures SoFar(was, written, rows, recorded, nextId, cutoff, now, total)
      ensures total == Min(FullBatches(MAX_BATCHES, batchSize), |Eligible(was, cutoff)|)
      ensures batches >= 1 && FullBatches(batches - 1, batchSize) <= total <= FullBatches(batches, batchSize)
      ensures batches < MAX_BATCHES ==> total == |Eligible(was, cutoff)|
    {
      NothingYet(was, cutoff, nextId, now, written);
      FullBatchesStep(batchSize);
      hide SoFar, Eligible, OldestOf, FullBatches;
      total, batches := 0, 0;
      ghost var due := |Eligible(was, cutoff)|;
      while batches < MAX_BATCHES
        invariant Valid() && batches <= MAX_BATCHES && total <= due
        invariant SoFar(was, written, rows, recorded, nextId, cutoff, now, total)
        invariant total == FullBatches(batches, batchSize)
      {
        var deleted := NextBatch(cutoff, batchSize, now, was, written, total);
        batches := batches + 1;
        total := total + deleted;
        if deleted < batchSize {
          FullBatchesGrow(batches, MAX_BATCHES, batchSize);
          break;
        }
      }
    }

    /** purge_audit_log: at most 200 batches, all within retention kept, the oldest go
        first, the total is exact and is what the job's own rows add up to; and nothing
        eligible is left unless the night's budget was too small for it. */
    method Purge(cutoff: int, configuredSize: int, now: int) returns (total: nat, batches: nat)
      requires Valid() && cutoff <= now
      modifies this
      ensures Valid() && batches <= MAX_BATCHES
      ensures OldestOf(Eligible(old(rows), cutoff), old(rows) - rows)
      ensures total == |old(rows) - rows| == Min(MAX_BATCHES * BatchSize(configuredSize), |Eligible(old(rows), cutoff)|)
      ensures old(recorded) <= recorded && Sum(recorded[|old(recorded)|..]) == total
      ensures Eligible(rows, cutoff) == {} <==> |Eligible(old(rows), cutoff)| <= MAX_BATCHES * BatchSize(configuredSize)
      ensures batches < MAX_BATCHES ==> Eligible(rows, cutoff) == {}
      ensures forall r <- old(rows) - rows :: r.createdAt < cutoff
      ensures forall r <- old(rows) - rows, q <- old(rows) * rows | q.createdAt < cutoff :: r.createdAt <= q.createdAt
      ensures batches <= 200 && total <= 200 * (if configuredSize < 1 then 1 else configuredSize)
      ensures (forall r <- rows :: r.createdAt >= cutoff) <==>
              |set r <- old(rows) | r.createdAt < cutoff| <= 200 * (if configuredSize < 1 then 1 else configuredSize)
      ensures (batches - 1) * BatchSize(configuredSize) <= total <= batches * BatchSize(configuredSize)
      ensures forall r <- rows - old(rows) :: r.createdAt == now && r.purged.Some?
    {
      var batchSize := BatchSize(configuredSize);
      ghost var was, written := rows, recorded;
      total, batches := RunBatches(cutoff, batchSize, now, was, written);
      FullBatchesAre(MAX_BATCHES, batchSize);
      FullBatchesAre(batches, batchSize); FullBatchesAre(batches - 1, batchSize);
      OldestMeans(was, cutoff, was - rows);
      NoneEligible(rows, cutoff);
      NothingLeftIff(Eligible(was, cutoff), was - rows, Eligible(rows, cutoff), total, MAX_BATCHES * batchSize);
    }
  }

  /** Taking a batch out and putting the job's own fresh row in. */
  lemma BatchReplaced(was: set<Row>, picked: set<Row>, own: Row, cutoff: int)
    requires OldestOf(Eligible(was, cutoff), picked)
    requires own !in was && own.createdAt >= cutoff
    ensures var after := was - picked + {own};
            && picked <= was && was - after == picked && after - was == {own}
            && Eligible(after, cutoff) == Eligible(was, cutoff) - picked
  {}

  lemma NothingReplaced(was: set<Row>, picked: set<Row>, cutoff: int)
    requires OldestOf(Eligible(was, cutoff), picked) && |picked| == 0
    ensures was - (was - picked) == picked && was - picked - was == {}
    ensures Eligible(was - picked, cutoff) == Eligible(was, cutoff) - picked
  {}

  /** What one night's batches have done so far. */
  predicate SoFar(was: set<Row>, written: seq<nat>, rows: set<Row>, recorded: seq<nat>, nextId: nat,
                  cutoff: int, now: int, total: nat)
  {
    && Progress(was, rows, Eligible(was, cutoff), Eligible(rows, cutoff), total)
    && OnlyOwnRows(was, rows, nextId, now)
    && written <= recorded && Sum(recorded[|written|..]) == total
  }

  /** What is new in the table are the night's own rows, made now. */
  predicate OnlyOwnRows(was: set<Row>, rows: set<Row>, nextId: nat, now: int) {
    && (forall r <- was :: r.id < nextId)
    && (forall r <- rows - was :: r.createdAt == now && r.purged.Some?)
  }

  lemma NothingYet(was: set<Row>, cutoff: int, nextId: nat, now: int, written: seq<nat>)
    requires forall r <- was :: r.id < nextId
    ensures SoFar(was, written, was, written, nextId, cutoff, now, 0)
  {}

  lemma OwnRowsStep(was: set<Row>, before: set<Row>, after: set<Row>, nextId: nat, now: int, deleted: nat)
    requires forall r <- was :: r.id < nextId
    requires forall r <- before - was :: r.createdAt == now && r.purged.Some?
    requires forall r <- after - before :: r.createdAt == now && r.purged == Some(deleted)
    ensures OnlyOwnRows(was, after, nextId, now)
  {}

  lemma SumExtends(written: seq<nat>, soFar: seq<nat>, recorded: seq<nat>, deleted: nat)
    requires written <= soFar && recorded == soFar + if deleted > 0 then [deleted] else []
    ensures written <= recorded && Sum(recorded[|written|..]) == Sum(soFar[|written|..]) + deleted
  {
    if deleted > 0 {
      assert recorded[|written|..] == soFar[|written|..] + [deleted];
    } else {
      assert recorded == soFar;
    }
  }

  predicate Progress(was: set<Row>, rows: set<Row>, eligible: set<Row>, left: set<Row>, total: nat) {
    && OldestOf(eligible, was - rows)
    && left == eligible - (was - rows)
    && total == |was - rows| <= |eligible|
    && eligible <= was
  }

  lemma ProgressStep(was: set<Row>, before: set<Row>, after: set<Row>, eligible: set<Row>, left: set<Row>, total: nat)
    requires Progress(was, before, eligible, left, total)
    requires OldestOf(left, before - after)
    requires forall r <- after - before :: r !in was
    ensures Progress(was, after, eligible, left - (before - after), total + |before - after|)
  {
    MoreRemoved(was, before, after, eligible, left);
    SizeOfRest(eligible, was - after);
  }

  lemma NothingLeftIff(eligible: set<Row>, removed: set<Row>, left: set<Row>, total: nat, budget: nat)
    requires removed <= eligible && left == eligible - removed && total == |removed| == Min(budget, |eligible|)
    ensures left == {} <==> |eligible| <= budget
  {
    SizeOfRest(eligible, removed);
  }

  lemma SizeOfRest(eligible: set<Row>, removed: set<Row>)
    requires removed <= eligible
    ensures |eligible - removed| == |eligible| - |removed|
  {}

  /** Two batches in a row: together still the oldest. */
  lemma MoreRemoved(was: set<Row>, before: set<Row>, after: set<Row>, eligible: set<Row>, left: set<Row>)
    requires OldestOf(eligible, was - before) && left == eligible - (was - before)
    requires OldestOf(left, before - after) && eligible <= was
    requires forall r <- after - before :: r !in was
    ensures was - after == (was - before) + (before - after)
    ensures |was - after| == |was - before| + |before - after|
    ensures OldestOf(eligible, was - after)
  {}
}
