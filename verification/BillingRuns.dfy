/** What holds of an operator's billing over any sequence of non-overlapping runs of the
    daily jobs, at any instants, with anything else the platform does in between. */
module BillingRuns {
  import opened Billing
  import opened Calendar
  import opened Options
  import Sequences

  datatype Step =
    | TrialExpiry(now: nat)
    | Invoices(now: nat, owed: map<nat, nat>)
    | Enforce(now: nat)
    | Elsewhere(after: Db)

  /** Between runs, operators join and their rows change in any way; invoices are paid,
      reversed or waived, which only moves their status and never to or from draft; no
      event the jobs write is written. */
  predicate Between(before: Db, after: Db) {
    && |before.operators| <= |after.operators|
    && |after.invoices| == |before.invoices|
    && (forall i | 0 <= i < |before.invoices| ::
          && after.invoices[i] == before.invoices[i].(status := after.invoices[i].status)
          && (after.invoices[i].status == Draft <==> before.invoices[i].status == Draft))
    && Adds(before.events, after.events, false, false, false)
  }

  /** `after` extends `before` by events among the kinds named. */
  predicate Adds(before: seq<Event>, after: seq<Event>, warnings: bool, grace: bool, suspensions: bool) {
    && before <= after
    && forall i | |before| <= i < |after| ::
         && (after[i].Warning? ==> warnings)
         && (after[i].GraceStarted? ==> grace)
         && (after[i].SuspendedForBilling? ==> suspensions)
  }

  function Next(db: Db, s: Step, grace: int): Db {
    match s
    case TrialExpiry(now) => TrialRun(db, now, |db.operators|)
    case Invoices(now, owed) => InvoiceRun(db, now, owed, |db.operators|)
    case Enforce(now) => EnforceRun(db, now, grace)
    case Elsewhere(after) => after
  }

  function Exec(db: Db, steps: seq<Step>, grace: int): Db
    decreases |steps|
  {
    if steps == [] then db else Next(Exec(db, steps[..|steps| - 1], grace), steps[|steps| - 1], grace)
  }

  predicate Legal(db: Db, steps: seq<Step>, grace: int)
    decreases |steps|
  {
    steps == [] ||
    (var init, s := steps[..|steps| - 1], steps[|steps| - 1];
     Legal(db, init, grace) && (s.Elsewhere? ==> Between(Exec(db, init, grace), s.after)))
  }

  // --------------------------------------------------------- which run adds what

  lemma {:induction false} TrialAdds(db: Db, now: nat, k: nat)
    requires k <= |db.operators|
    ensures Adds(db.events, TrialRun(db, now, k).events, true, false, false)
    ensures forall id | 0 <= id < |db.operators| ::
              TrialRun(db, now, k).operators[id].trialEndsAt == db.operators[id].trialEndsAt
  {
    if k > 0 { TrialAdds(db, now, k - 1); }
  }

  lemma {:induction false} InvoiceAdds(db: Db, now: nat, owed: map<nat, nat>, k: nat)
    requires k <= |db.operators|
    ensures Adds(db.events, InvoiceRun(db, now, owed, k).events, false, false, false)
  {
    if k > 0 { InvoiceAdds(db, now, owed, k - 1); }
  }

  lemma {:induction false} MarkAdds(db: Db, now: nat, k: nat)
    requires k <= |db.invoices|
    ensures Adds(db.events, MarkRun(db, now, k).events, false, true, false)
  {
    if k > 0 { MarkAdds(db, now, k - 1); }
  }

  lemma {:induction false} SuspendAdds(db: Db, now: nat, grace: int, k: nat)
    requires k <= |db.invoices|
    ensures Adds(db.events, SuspendRun(db, now, grace, k).events, false, false, true)
  {
    if k > 0 { SuspendAdds(db, now, grace, k - 1); }
  }

  lemma EnforceAdds(db: Db, now: nat, grace: int)
    ensures Adds(db.events, EnforceRun(db, now, grace).events, false, true, true)
  {
    MarkAdds(db, now, |db.invoices|);
    SuspendAdds(MarkRun(db, now, |db.invoices|), now, grace, |db.invoices|);
  }

  /** Suspension changes an operator's status, never its trial. */
  lemma EnforceKeepsTrials(db: Db, now: nat, grace: int)
    ensures |EnforceRun(db, now, grace).operators| == |db.operators|
    ensures forall id | 0 <= id < |db.operators| ::
              EnforceRun(db, now, grace).operators[id].trialEndsAt == db.operators[id].trialEndsAt
  {
    EnforceMeans(db, now, grace);
  }

  // ------------------------------------------------------- one invoice each month

  /** As create_invoice makes it, but for the status. */
  predicate Monthly(inv: Invoice) {
    inv == NewInvoice(inv.operator, MonthOf(inv.periodStart)).(status := inv.status)
  }

  predicate OneEachMonth(invoices: seq<Invoice>) {
    forall i, j | 0 <= i < j < |invoices| && invoices[i].operator == invoices[j].operator
                  && invoices[i].status != Draft && invoices[j].status != Draft ::
      MonthOf(invoices[i].periodStart) != MonthOf(invoices[j].periodStart)
  }

  predicate Books(db: Db) {
    && (forall inv <- db.invoices :: inv.operator < |db.operators| && Monthly(inv))
    && OneEachMonth(db.invoices)
  }

  lemma NewIsMonthly(id: nat, month: nat)
    ensures Monthly(NewInvoice(id, month)) && MonthOf(NewInvoice(id, month).periodStart) == month
    ensures NewInvoice(id, month).operator == id
  {
    MonthIs(MonthStart(month), month);
  }

  /** A month without an invoice for the operator, by the job's own test. */
  lemma NoneThatMonth(invoices: seq<Invoice>, id: nat, month: nat, i: nat)
    requires i < |invoices| && Monthly(invoices[i]) && !InvoiceExists(invoices, id, month)
    requires invoices[i].operator == id && invoices[i].status != Draft
    ensures MonthOf(invoices[i].periodStart) != month
  {
    hide MonthOf;
  }

  lemma AddedKeepsBooks(db: Db, extra: Invoice)
    requires Books(db) && Monthly(extra) && extra.operator < |db.operators|
    requires forall i | 0 <= i < |db.invoices| && db.invoices[i].operator == extra.operator
                        && db.invoices[i].status != Draft ::
               MonthOf(db.invoices[i].periodStart) != MonthOf(extra.periodStart)
    ensures Books(db.(invoices := db.invoices + [extra]))
  {
    hide Monthly, MonthOf;
  }

  lemma InvoiceOneKeepsBooks(db: Db, id: nat, now: nat, owed: map<nat, nat>)
    requires Books(db) && id < |db.operators|
    ensures Books(InvoiceOne(db, id, now, owed))
  {
    hide Monthly, MonthOf, MonthStart, OneEachMonth, InvoiceExists, NewInvoice, TooLittle, TrialCovers;
    var after, month := InvoiceOne(db, id, now, owed), MonthOf(now);
    if after != db {
      NewIsMonthly(id, month);
      forall i | 0 <= i < |db.invoices| && db.invoices[i].operator == id && db.invoices[i].status != Draft
        ensures MonthOf(db.invoices[i].periodStart) != month
      {
        assert db.invoices[i] in db.invoices;
        NoneThatMonth(db.invoices, id, month, i);
      }
      AddedKeepsBooks(db, NewInvoice(id, month));
      KeepsEvents(db, after);
    }
  }

  lemma KeepsEvents(db: Db, after: Db)
    requires Books(db.(invoices := after.invoices)) && after.operators == db.operators
    ensures Books(after)
  {}

  lemma {:induction false} InvoiceRunKeepsBooks(db: Db, now: nat, owed: map<nat, nat>, k: nat)
    requires Books(db) && k <= |db.operators|
    ensures Books(InvoiceRun(db, now, owed, k))
  {
    hide Books, InvoiceOne;
    if k > 0 {
      InvoiceRunKeepsBooks(db, now, owed, k - 1);
      InvoiceOneKeepsBooks(InvoiceRun(db, now, owed, k - 1), k - 1, now, owed);
    }
  }

  /** Moving statuses, never to or from draft, keeps the books. */
  lemma StatusesKeepBooks(db: Db, after: Db)
    requires Books(db) && |db.operators| <= |after.operators| && |after.invoices| == |db.invoices|
    requires forall i | 0 <= i < |db.invoices| ::
               && after.invoices[i] == db.invoices[i].(status := after.invoices[i].status)
               && (after.invoices[i].status == Draft <==> db.invoices[i].status == Draft)
    ensures Books(after)
  {}

  lemma StepKeepsBooks(db: Db, s: Step, grace: int)
    requires Books(db) && (s.Elsewhere? ==> Between(db, s.after))
    ensures Books(Next(db, s, grace))
  {
    match s
    case TrialExpiry(now) => StatusesKeepBooks(db, Next(db, s, grace));
    case Invoices(now, owed) => InvoiceRunKeepsBooks(db, now, owed, |db.operators|);
    case Enforce(now) => EnforceMeans(db, now, grace); StatusesKeepBooks(db, Next(db, s, grace));
    case Elsewhere(after) => StatusesKeepBooks(db, after);
  }

  lemma {:induction false} RunKeepsBooks(db: Db, steps: seq<Step>, grace: int)
    requires Books(db) && Legal(db, steps, grace)
    ensures Books(Exec(db, steps, grace))
    decreases |steps|
  {
    if steps != [] {
      RunKeepsBooks(db, steps[..|steps| - 1], grace);
      StepKeepsBooks(Exec(db, steps[..|steps| - 1], grace), steps[|steps| - 1], grace);
    }
  }

  /** No operator ever has two invoices, drafts aside, for one calendar month, and every invoice
      is for one whole month and due seven days after its last midnight. */
  lemma OneInvoiceAMonth(db: Db, steps: seq<Step>, grace: int)
    requires Books(db) && Legal(db, steps, grace)
    ensures var invoices := Exec(db, steps, grace).invoices;
            && (forall i, j | 0 <= i < j < |invoices| && invoices[i].operator == invoices[j].operator
                              && invoices[i].status != Draft && invoices[j].status != Draft ::
                  MonthOf(invoices[i].periodStart) != MonthOf(invoices[j].periodStart))
            && (forall inv <- invoices ::
                  var month := MonthOf(inv.periodStart);
                  && inv.periodStart == MonthStart(month) && inv.periodEnd == MonthStart(month + 1) - 86400
                  && inv.dueAt == Some(MonthStart(month + 1) + 6 * 86400))
  {
    RunKeepsBooks(db, steps, grace);
    hide Exec, Legal, MonthOf, MonthStart, NewInvoice;
    forall inv <- Exec(db, steps, grace).invoices
      ensures var month := MonthOf(inv.periodStart);
              && inv.periodStart == MonthStart(month) && inv.periodEnd == MonthStart(month + 1) - 86400
              && inv.dueAt == Some(MonthStart(month + 1) + 6 * 86400)
    {
      NewInvoiceExactly(inv.operator, MonthOf(inv.periodStart));
    }
  }

  // ---------------------------------------------------------- trials and warnings

  predicate TrialMoved(before: Db, after: Db, id: nat) {
    && id < |before.operators|
    && (id >= |after.operators| || after.operators[id].trialEndsAt != before.operators[id].trialEndsAt)
  }

  /** How often an operator's trial end is moved. */
  function Extensions(db: Db, steps: seq<Step>, grace: int, id: nat): nat
    decreases |steps|
  {
    if steps == [] then 0
    else
      var init := steps[..|steps| - 1];
      Extensions(db, init, grace, id)
      + if TrialMoved(Exec(db, init, grace), Exec(db, steps, grace), id) then 1 else 0
  }

  lemma JobsMoveNoTrial(db: Db, s: Step, grace: int, id: nat)
    requires !s.Elsewhere? && id < |db.operators|
    ensures id < |Next(db, s, grace).operators|
    ensures Next(db, s, grace).operators[id].trialEndsAt == db.operators[id].trialEndsAt
  {
    match s
    case TrialExpiry(now) => TrialAdds(db, now, |db.operators|);
    case Invoices(now, owed) =>
    case Enforce(now) => EnforceKeepsTrials(db, now, grace);
  }

  function Warnings(events: seq<Event>, id: nat): nat
    decreases |events|
  {
    if events == [] then 0
    else
      var last := events[|events| - 1];
      Warnings(events[..|events| - 1], id) + if last.Warning? && last.operator == id then 1 else 0
  }

  lemma {:induction false} SameWarnings(before: seq<Event>, after: seq<Event>, id: nat)
    requires before <= after
    requires forall i | |before| <= i < |after| :: !(after[i].Warning? && after[i].operator == id)
    ensures Warnings(after, id) == Warnings(before, id)
    decreases |after|
  {
    if |before| < |after| {
      SameWarnings(before, after[..|after| - 1], id);
    } else {
      assert before == after;
    }
  }

  /** A warning 1 to 3 whole days before this end. */
  predicate WarnedFor(events: seq<Event>, id: nat, end: Option<nat>) {
    end.Some? &&
    exists i | 0 <= i < |events| ::
      events[i].Warning? && events[i].operator == id && DAY <= end.value - events[i].at < 4 * DAY
  }

  /** At most one warning for each trial end there has been. */
  predicate WarningsWithin(events: seq<Event>, id: nat, end: Option<nat>, moves: nat) {
    Warnings(events, id) <= moves + if WarnedFor(events, id, end) then 1 else 0
  }

  lemma MoreEventsKeepWarnings(before: seq<Event>, after: seq<Event>, id: nat, end: Option<nat>, moves: nat)
    requires WarningsWithin(before, id, end, moves) && before <= after
    requires forall i | |before| <= i < |after| :: !(after[i].Warning? && after[i].operator == id)
    ensures WarningsWithin(after, id, end, moves)
  {
    SameWarnings(before, after, id);
    if WarnedFor(before, id, end) {
      var i :| 0 <= i < |before| && before[i].Warning? && before[i].operator == id
               && DAY <= end.value - before[i].at < 4 * DAY;
      assert after[i] == before[i];
    }
  }

  /** The window is shorter than the seven days the dedupe looks back. */
  lemma UnwarnedThisWeek(events: seq<Event>, id: nat, end: Option<nat>, now: nat)
    requires end.Some? && DAY <= end.value - now < 4 * DAY
    requires !WarnedSince(events, id, now - 7 * DAY)
    ensures !WarnedFor(events, id, end)
  {}

  lemma FirstWarning(events: seq<Event>, id: nat, end: Option<nat>, now: nat, daysLeft: int, moves: nat)
    requires end.Some? && DAY <= end.value - now < 4 * DAY
    requires WarningsWithin(events, id, end, moves) && !WarnedFor(events, id, end)
    ensures WarningsWithin(events + [Warning(id, now, daysLeft)], id, end, moves)
  {
    var after := events + [Warning(id, now, daysLeft)];
    assert after[..|events|] == events && after[|events|] == Warning(id, now, daysLeft);
    assert WarnedFor(after, id, end);
  }

  lemma TrialOneKeepsWarnings(db: Db, k: nat, now: nat, id: nat, moves: nat)
    requires k < |db.operators| && id < |db.operators|
    requires WarningsWithin(db.events, id, db.operators[id].trialEndsAt, moves)
    ensures WarningsWithin(TrialOne(db, k, now).events, id, db.operators[id].trialEndsAt, moves)
  {
    hide WarningsWithin, WarnedFor, WarnedSince, FirstInvoiceMonth;
    var after, op, end := TrialOne(db, k, now), db.operators[k], db.operators[id].trialEndsAt;
    var n := |db.events|;
    if |after.events| > n && after.events[n].Warning? && k == id {
      var daysLeft := (end.value - now) / DAY;
      UnwarnedThisWeek(db.events, id, end, now);
      FirstWarning(db.events, id, end, now, daysLeft, moves);
    } else {
      MoreEventsKeepWarnings(db.events, after.events, id, end, moves);
    }
  }

  lemma {:induction false} TrialRunKeepsWarnings(db: Db, now: nat, k: nat, id: nat, moves: nat)
    requires k <= |db.operators| && id < |db.operators|
    requires WarningsWithin(db.events, id, db.operators[id].trialEndsAt, moves)
    ensures WarningsWithin(TrialRun(db, now, k).events, id, db.operators[id].trialEndsAt, moves)
  {
    hide TrialOne, WarningsWithin;
    if k > 0 {
      TrialRunKeepsWarnings(db, now, k - 1, id, moves);
      TrialAdds(db, now, k - 1);
      TrialOneKeepsWarnings(TrialRun(db, now, k - 1), k - 1, now, id, moves);
    }
  }

  lemma StepKeepsWarnings(db: Db, s: Step, grace: int, id: nat, moves: nat)
    requires id < |db.operators| && (s.Elsewhere? ==> Between(db, s.after))
    requires WarningsWithin(db.events, id, db.operators[id].trialEndsAt, moves)
    ensures var after := Next(db, s, grace);
            && id < |after.operators|
            && WarningsWithin(after.events, id, after.operators[id].trialEndsAt,
                              moves + if TrialMoved(db, after, id) then 1 else 0)
  {
    var after, end := Next(db, s, grace), db.operators[id].trialEndsAt;
    if !s.Elsewhere? { JobsMoveNoTrial(db, s, grace, id); }
    match s {
      case TrialExpiry(now) => TrialRunKeepsWarnings(db, now, |db.operators|, id, moves);
      case Invoices(now, owed) =>
        InvoiceAdds(db, now, owed, |db.operators|);
        MoreEventsKeepWarnings(db.events, after.events, id, end, moves);
      case Enforce(now) =>
        EnforceAdds(db, now, grace);
        MoreEventsKeepWarnings(db.events, after.events, id, end, moves);
      case Elsewhere(_) => MoreEventsKeepWarnings(db.events, after.events, id, end, moves);
    }
  }

  /** An operator is warned at most once for each end its trial has had: at most once when
      the end is never moved. */
  lemma OneWarningPerTrialEnd(db: Db, steps: seq<Step>, grace: int, id: nat)
    requires id < |db.operators| && Legal(db, steps, grace)
    requires forall e <- db.events :: !(e.Warning? && e.operator == id)
    ensures var events := Exec(db, steps, grace).events;
            |set i | 0 <= i < |events| && events[i].Warning? && events[i].operator == id|
            <= 1 + Extensions(db, steps, grace, id)
    ensures (forall k | 0 <= k <= |steps| ::
               id < |Exec(db, steps[..k], grace).operators|
               && Exec(db, steps[..k], grace).operators[id].trialEndsAt == db.operators[id].trialEndsAt) ==>
            Extensions(db, steps, grace, id) == 0
  {
    NoWarnings(db.events, id);
    RunKeepsWarnings(db, steps, grace, id);
    WarningsAre(Exec(db, steps, grace).events, id);
    hide Exec, Legal, Extensions;
    if forall k | 0 <= k <= |steps| ::
         id < |Exec(db, steps[..k], grace).operators|
         && Exec(db, steps[..k], grace).operators[id].trialEndsAt == db.operators[id].trialEndsAt {
      NeverMoved(db, steps, grace, id);
    }
  }

  lemma {:induction false} RunKeepsWarnings(db: Db, steps: seq<Step>, grace: int, id: nat)
    requires id < |db.operators| && Warnings(db.events, id) == 0 && Legal(db, steps, grace)
    ensures var after := Exec(db, steps, grace);
            && id < |after.operators|
            && WarningsWithin(after.events, id, after.operators[id].trialEndsAt, Extensions(db, steps, grace, id))
    decreases |steps|
  {
    if steps != [] {
      var init := steps[..|steps| - 1];
      RunKeepsWarnings(db, init, grace, id);
      StepKeepsWarnings(Exec(db, init, grace), steps[|steps| - 1], grace, id, Extensions(db, init, grace, id));
    }
  }

  lemma {:induction false} NeverMoved(db: Db, steps: seq<Step>, grace: int, id: nat)
    requires id < |db.operators|
    requires forall k | 0 <= k <= |steps| ::
               id < |Exec(db, steps[..k], grace).operators|
               && Exec(db, steps[..k], grace).operators[id].trialEndsAt == db.operators[id].trialEndsAt
    ensures Extensions(db, steps, grace, id) == 0
    decreases |steps|
  {
    hide Exec;
    if steps != [] {
      var n := |steps| - 1;
      forall k | 0 <= k <= n ensures steps[..n][..k] == steps[..k] {}
      NeverMoved(db, steps[..n], grace, id);
      assert steps[..n + 1] == steps;
    }
  }

  lemma {:induction false} NoWarnings(events: seq<Event>, id: nat)
    requires forall e <- events :: !(e.Warning? && e.operator == id)
    ensures Warnings(events, id) == 0
    decreases |events|
  {
    if events != [] { NoWarnings(events[..|events| - 1], id); }
  }

  lemma {:induction false} WarningsAre(events: seq<Event>, id: nat)
    ensures Warnings(events, id) == |set i | 0 <= i < |events| && events[i].Warning? && events[i].operator == id|
    decreases |events|
  {
    if events != [] {
      var n := |events| - 1;
      WarningsAre(events[..n], id);
      Sequences.OneMoreIndex(
        (set i | 0 <= i < |events[..n]| && events[..n][i].Warning? && events[..n][i].operator == id),
        (set i | 0 <= i < |events| && events[i].Warning? && events[i].operator == id),
        n, events[n].Warning? && events[n].operator == id);
    }
  }

  // ----------------------------------------------------------------- grace events

  predicate GraceOnce(events: seq<Event>) {
    forall i, j | 0 <= i < j < |events| && events[i].GraceStarted? && events[j].GraceStarted? ::
      events[i].operator != events[j].operator || events[i].invoice != events[j].invoice
  }

  lemma {:induction false} MarkRunKeepsGraceOnce(db: Db, now: nat, k: nat)
    requires k <= |db.invoices| && GraceOnce(db.events)
    ensures GraceOnce(MarkRun(db, now, k).events)
  {
    if k > 0 { MarkRunKeepsGraceOnce(db, now, k - 1); }
  }

  lemma StepKeepsGraceOnce(db: Db, s: Step, grace: int)
    requires GraceOnce(db.events) && (s.Elsewhere? ==> Between(db, s.after))
    ensures GraceOnce(Next(db, s, grace).events)
  {
    match s
    case TrialExpiry(now) => TrialAdds(db, now, |db.operators|);
    case Invoices(now, owed) => InvoiceAdds(db, now, owed, |db.operators|);
    case Enforce(now) =>
      MarkRunKeepsGraceOnce(db, now, |db.invoices|);
      SuspendAdds(MarkRun(db, now, |db.invoices|), now, grace, |db.invoices|);
    case Elsewhere(_) =>
  }

  /** However often an invoice is paid, reversed and marked overdue again, its grace
      period starts once. */
  lemma OneGraceEventPerInvoice(db: Db, steps: seq<Step>, grace: int)
    requires GraceOnce(db.events) && Legal(db, steps, grace)
    ensures var events := Exec(db, steps, grace).events;
            forall i, j | 0 <= i < j < |events| && events[i].GraceStarted? && events[j].GraceStarted? ::
              events[i].operator != events[j].operator || events[i].invoice != events[j].invoice
  {
    RunKeepsGraceOnce(db, steps, grace);
  }

  lemma {:induction false} RunKeepsGraceOnce(db: Db, steps: seq<Step>, grace: int)
    requires GraceOnce(db.events) && Legal(db, steps, grace)
    ensures GraceOnce(Exec(db, steps, grace).events)
    decreases |steps|
  {
    if steps != [] {
      RunKeepsGraceOnce(db, steps[..|steps| - 1], grace);
      StepKeepsGraceOnce(Exec(db, steps[..|steps| - 1], grace), steps[|steps| - 1], grace);
    }
  }

  // ------------------------------------------------------------------ suspensions

  /** Every suspension names an invoice of the operator then past due date plus grace. */
  predicate Caused(db: Db, grace: int) {
    forall i | 0 <= i < |db.events| && db.events[i].SuspendedForBilling? :: HasCause(db, db.events[i], grace)
  }

  predicate HasCause(db: Db, e: Event, grace: int)
    requires e.SuspendedForBilling?
  {
    && e.invoice < |db.invoices|
    && db.invoices[e.invoice].operator == e.operator
    && db.invoices[e.invoice].dueAt.Some?
    && db.invoices[e.invoice].dueAt.value + grace * DAY < e.at
  }

  predicate SameDebts(before: seq<Invoice>, after: seq<Invoice>) {
    && |before| <= |after|
    && forall i | 0 <= i < |before| :: after[i] == before[i].(status := after[i].status)
  }

  lemma NoSuspensionKeepsCauses(db: Db, after: Db, grace: int)
    requires Caused(db, grace) && SameDebts(db.invoices, after.invoices)
    requires Adds(db.events, after.events, true, true, false)
    ensures Caused(after, grace)
  {}

  lemma {:induction false} SuspendRunKeepsCauses(db: Db, now: nat, grace: int, k: nat)
    requires k <= |db.invoices| && Caused(db, grace)
    ensures Caused(SuspendRun(db, now, grace, k), grace)
  {
    if k > 0 {
      SuspendRunKeepsCauses(db, now, grace, k - 1);
      var before, after := SuspendRun(db, now, grace, k - 1), SuspendRun(db, now, grace, k);
      forall i | 0 <= i < |after.events| && after.events[i].SuspendedForBilling?
        ensures HasCause(after, after.events[i], grace)
      {
        if i < |before.events| { assert after.events[i] == before.events[i]; }
      }
    }
  }

  lemma StepKeepsCauses(db: Db, s: Step, grace: int)
    requires Caused(db, grace) && (s.Elsewhere? ==> Between(db, s.after))
    ensures Caused(Next(db, s, grace), grace)
  {
    match s
    case TrialExpiry(now) =>
      TrialAdds(db, now, |db.operators|);
      NoSuspensionKeepsCauses(db, Next(db, s, grace), grace);
    case Invoices(now, owed) =>
      InvoiceAdds(db, now, owed, |db.operators|);
      NoSuspensionKeepsCauses(db, Next(db, s, grace), grace);
    case Enforce(now) =>
      var marked := MarkRun(db, now, |db.invoices|);
      MarkAdds(db, now, |db.invoices|);
      MarkExact(db, now, |db.invoices|);
      NoSuspensionKeepsCauses(db, marked, grace);
      SuspendRunKeepsCauses(marked, now, grace, |db.invoices|);
    case Elsewhere(after) => NoSuspensionKeepsCauses(db, after, grace);
  }

  lemma SuspensionsHaveCauses(db: Db, steps: seq<Step>, grace: int)
    requires Caused(db, grace) && Legal(db, steps, grace)
    ensures var after := Exec(db, steps, grace);
            forall e <- after.events | e.SuspendedForBilling? ::
              && e.invoice < |after.invoices| && after.invoices[e.invoice].operator == e.operator
              && after.invoices[e.invoice].dueAt.Some?
              && after.invoices[e.invoice].dueAt.value + grace * 86400 < e.at
  {
    RunKeepsCauses(db, steps, grace);
  }

  lemma {:induction false} RunKeepsCauses(db: Db, steps: seq<Step>, grace: int)
    requires Caused(db, grace) && Legal(db, steps, grace)
    ensures Caused(Exec(db, steps, grace), grace)
    decreases |steps|
  {
    if steps != [] {
      RunKeepsCauses(db, steps[..|steps| - 1], grace);
      StepKeepsCauses(Exec(db, steps[..|steps| - 1], grace), steps[|steps| - 1], grace);
    }
  }

  // ------------------------------------------------ no invoice for a month of trial

  /** Every invoice of the operator is for a month its trial did not run into. */
  predicate TrialFree(db: Db, id: nat)
    requires id < |db.operators|
  {
    forall inv <- db.invoices | inv.operator == id :: !TrialCovers(db.operators[id], MonthOf(inv.periodStart))
  }

  lemma {:induction false} InvoiceRunKeepsTrialFree(db: Db, now: nat, owed: map<nat, nat>, k: nat, id: nat)
    requires k <= |db.operators| && id < |db.operators| && TrialFree(db, id)
    ensures TrialFree(InvoiceRun(db, now, owed, k), id)
  {
    hide TrialFree, InvoiceOne;
    if k > 0 {
      InvoiceRunKeepsTrialFree(db, now, owed, k - 1, id);
      InvoiceOneKeepsTrialFree(InvoiceRun(db, now, owed, k - 1), k - 1, now, owed, id);
    }
  }

  lemma InvoiceOneKeepsTrialFree(db: Db, k: nat, now: nat, owed: map<nat, nat>, id: nat)
    requires k < |db.operators| && id < |db.operators| && TrialFree(db, id)
    ensures TrialFree(InvoiceOne(db, k, now, owed), id)
  {
    hide MonthOf, MonthStart, InvoiceExists, TooLittle, FirstInvoiceMonth;
    NewIsMonthly(k, MonthOf(now));
  }

  lemma SameDebtsKeepTrialFree(db: Db, after: Db, id: nat)
    requires id < |db.operators| && id < |after.operators| && TrialFree(db, id)
    requires |after.invoices| == |db.invoices| && SameDebts(db.invoices, after.invoices)
    requires after.operators[id].trialEndsAt == db.operators[id].trialEndsAt
    ensures TrialFree(after, id)
  {}

  lemma StepKeepsTrialFree(db: Db, s: Step, grace: int, id: nat)
    requires id < |db.operators| && TrialFree(db, id) && (s.Elsewhere? ==> Between(db, s.after))
    requires !TrialMoved(db, Next(db, s, grace), id)
    ensures id < |Next(db, s, grace).operators| && TrialFree(Next(db, s, grace), id)
  {
    var after := Next(db, s, grace);
    if s.Invoices? {
      InvoiceRunKeepsTrialFree(db, s.now, s.owed, |db.operators|, id);
    } else {
      if s.Enforce? { EnforceMeans(db, s.now, grace); }
      SameDebtsKeepTrialFree(db, after, id);
    }
  }

  /** While its trial end stays put, an operator gets no invoice for a month the trial ran
      into, and is suspended for billing only after the whole chain has run: the month
      after the trial's, invoiced and over, seven days to pay, and the grace period. */
  lemma TrialsAreFree(db: Db, steps: seq<Step>, grace: int, id: nat)
    requires id < |db.operators| && TrialFree(db, id) && Legal(db, steps, grace)
    requires Extensions(db, steps, grace, id) == 0 && db.operators[id].trialEndsAt.Some?
    ensures forall inv <- Exec(db, steps, grace).invoices | inv.operator == id ::
              db.operators[id].trialEndsAt.value < MonthStart(MonthOf(inv.periodStart))
  {
    hide Legal, Extensions, MonthOf, MonthStart, TrialCovers;
    RunKeepsTrialFree(db, steps, grace, id);
    forall inv <- Exec(db, steps, grace).invoices | inv.operator == id
      ensures db.operators[id].trialEndsAt.value < MonthStart(MonthOf(inv.periodStart))
    {
      CoveredMonths(Exec(db, steps, grace).operators[id], MonthOf(inv.periodStart));
    }
  }

  lemma {:induction false} RunKeepsTrialFree(db: Db, steps: seq<Step>, grace: int, id: nat)
    requires id < |db.operators| && TrialFree(db, id) && Legal(db, steps, grace)
    requires Extensions(db, steps, grace, id) == 0
    ensures id < |Exec(db, steps, grace).operators| && TrialFree(Exec(db, steps, grace), id)
    ensures Exec(db, steps, grace).operators[id].trialEndsAt == db.operators[id].trialEndsAt
    decreases |steps|
  {
    if steps != [] {
      RunKeepsTrialFree(db, steps[..|steps| - 1], grace, id);
      StepKeepsTrialFree(Exec(db, steps[..|steps| - 1], grace), steps[|steps| - 1], grace, id);
    }
  }

  lemma NoEarlySuspension(db: Db, steps: seq<Step>, grace: int, id: nat, i: nat)
    requires Books(db) && Caused(db, grace) && Legal(db, steps, grace)
    requires id < |db.operators| && TrialFree(db, id) && db.operators[id].trialEndsAt.Some?
    requires Extensions(db, steps, grace, id) == 0
    requires var events := Exec(db, steps, grace).events;
             i < |events| && events[i].SuspendedForBilling? && events[i].operator == id
    ensures Exec(db, steps, grace).events[i].at
            > MonthStart(MonthOf(db.operators[id].trialEndsAt.value) + 2) + (6 + grace) * 86400
  {
    hide Exec, Legal, Extensions, MonthOf, MonthStart, Monthly, OneEachMonth;
    RunKeepsBooks(db, steps, grace);
    RunKeepsCauses(db, steps, grace);
    RunKeepsTrialFree(db, steps, grace, id);
    var after := Exec(db, steps, grace);
    assert HasCause(after, after.events[i], grace);
    var inv := after.invoices[after.events[i].invoice];
    assert inv in after.invoices;
    EarliestDue(inv, db.operators[id].trialEndsAt.value);
  }

  /** An invoice after the trial's month is due no earlier than six days into the second
      month after it. */
  lemma EarliestDue(inv: Invoice, trialEndsAt: nat)
    requires Monthly(inv) && FirstInvoiceMonth(trialEndsAt) <= MonthOf(inv.periodStart)
    ensures inv.dueAt.Some? && inv.dueAt.value >= MonthStart(MonthOf(trialEndsAt) + 2) + 6 * DAY
  {
    hide MonthOf, DaysIn;
    var month, first := MonthOf(inv.periodStart), MonthOf(trialEndsAt) + 1;
    assert MonthStart(month + 1) == MonthStart(month) + DaysIn(month) * DAY;
    if first < month { StartsApart(first + 1, month + 1); }
  }

  /** Moving the end of a trial can put an invoiced month back inside it: */
  lemma ExtensionCoversAnInvoicedMonth()
    ensures exists db, after: Db ::
              && Books(db) && |db.operators| > 0 && TrialFree(db, 0) && Between(db, after)
              && !TrialFree(after, 0)
  {
    var op := Operator(Approved, Active, None, Some(0), 5000);
    var db := Db([op], [NewInvoice(0, 1)], []);
    var after := Db([op.(trialEndsAt := Some(MonthStart(1)))], [NewInvoice(0, 1)], []);
    NewIsMonthly(0, 1);
    MonthIs(0, 0);
    MonthIs(MonthStart(1), 1);
    assert after.invoices[0] in after.invoices;
    assert !TrialFree(after, 0);
  }

  /** and it does exactly when an invoiced period starts before the new first invoice date. */
  lemma MovedTrialIsFreeIff(db: Db, after: Db, id: nat)
    requires Between(db, after) && id < |db.operators| && after.operators[id].trialEndsAt.Some?
    ensures TrialFree(after, id) <==>
            forall inv <- db.invoices | inv.operator == id ::
              inv.periodStart >= MonthStart(MonthOf(after.operators[id].trialEndsAt.value) + 1)
  {
    var first := FirstInvoiceMonth(after.operators[id].trialEndsAt.value);
    forall i | 0 <= i < |db.invoices|
      ensures TrialCovers(after.operators[id], MonthOf(after.invoices[i].periodStart))
              <==> db.invoices[i].periodStart < MonthStart(first)
      ensures db.invoices[i] in db.invoices && after.invoices[i] in after.invoices
    {
      StartsBefore(db.invoices[i].periodStart, first);
    }
    forall inv <- after.invoices ensures exists i | 0 <= i < |db.invoices| :: after.invoices[i] == inv {}
    forall inv <- db.invoices ensures exists i | 0 <= i < |db.invoices| :: db.invoices[i] == inv {}
  }

  // ------------------------------------------------------------ a run done twice

  lemma TrialIdle(db: Db, id: nat, now: nat)
    requires id < |db.operators| && !TrialOver(db.operators[id], now)
    requires TrialEnding(db.operators[id], now) ==> WarnedSince(db.events, id, now - 7 * DAY)
    ensures TrialOne(db, id, now) == db
  {
    hide WarnedSince, FirstInvoiceMonth;
  }

  lemma TrialSettles(db: Db, now: nat, k: nat, id: nat)
    requires k <= |db.operators| && id < k
    ensures TrialOne(TrialRun(db, now, k), id, now) == TrialRun(db, now, k)
  {
    hide TrialRun, WarnedSince;
    TrialUpTo(db, now, k, id);
    TrialIdle(TrialRun(db, now, k), id, now);
  }

  lemma {:induction false} SettledTrialRun(db: Db, now: nat, k: nat)
    requires k <= |db.operators| && forall id | 0 <= id < k :: TrialOne(db, id, now) == db
    ensures TrialRun(db, now, k) == db
  {
    if k > 0 { SettledTrialRun(db, now, k - 1); }
  }

  lemma ExistsStays(before: seq<Invoice>, after: seq<Invoice>, id: nat, month: nat)
    requires before <= after && InvoiceExists(before, id, month)
    ensures InvoiceExists(after, id, month)
  {}

  lemma {:induction false} InvoiceSettles(db: Db, now: nat, owed: map<nat, nat>, k: nat, id: nat)
    requires k <= |db.operators| && id < k
    ensures !Billed(InvoiceRun(db, now, owed, k), id, MonthOf(now), owed)
  {
    var before, after, month := InvoiceRun(db, now, owed, k - 1), InvoiceRun(db, now, owed, k), MonthOf(now);
    if id < k - 1 {
      InvoiceSettles(db, now, owed, k - 1, id);
      if InvoiceExists(before.invoices, id, month) { ExistsStays(before.invoices, after.invoices, id, month); }
    } else if after != before {
      NewInvoiceExists(after.invoices, |before.invoices|, id, month);
    }
  }

  lemma {:induction false} SettledInvoiceRun(db: Db, now: nat, owed: map<nat, nat>, k: nat)
    requires k <= |db.operators| && forall id | 0 <= id < k :: !Billed(db, id, MonthOf(now), owed)
    ensures InvoiceRun(db, now, owed, k) == db
  {
    if k > 0 {
      SettledInvoiceRun(db, now, owed, k - 1);
      assert !Billed(db, k - 1, MonthOf(now), owed);
    }
  }

  lemma {:induction false} SettledEnforceRun(db: Db, now: nat, grace: int, k: nat)
    requires k <= |db.invoices|
    requires forall i | 0 <= i < |db.invoices| :: !PastDueAt(db.invoices[i], now)
    requires forall i | 0 <= i < |db.invoices| && Lapsed(db.invoices[i], now, grace) ::
               db.invoices[i].operator < |db.operators| ==> db.operators[db.invoices[i].operator].status != Approved
    ensures MarkRun(db, now, k) == db && SuspendRun(db, now, grace, k) == db
  {
    if k > 0 { SettledEnforceRun(db, now, grace, k - 1); }
  }

  /** Each job is safe to run again at the same moment: a second run changes nothing. */
  lemma RunTwiceIsRunOnce(db: Db, s: Step, grace: int)
    requires !s.Elsewhere?
    ensures Next(Next(db, s, grace), s, grace) == Next(db, s, grace)
  {
    var after, n := Next(db, s, grace), |db.operators|;
    match s {
      case TrialExpiry(now) =>
        forall id | 0 <= id < n ensures TrialOne(after, id, now) == after { TrialSettles(db, now, n, id); }
        SettledTrialRun(after, now, n);
      case Invoices(now, owed) =>
        forall id | 0 <= id < n ensures !Billed(after, id, MonthOf(now), owed) { InvoiceSettles(db, now, owed, n, id); }
        SettledInvoiceRun(after, now, owed, n);
      case Enforce(now) =>
        EnforceMeans(db, now, grace);
        AfterEnforce(db, now, grace);
        SettledEnforceRun(after, now, grace, |db.invoices|);
    }
  }

  /** Once enforcement has run, nothing issued is past due and no operator with an overdue
      invoice past grace is still approved. */
  lemma AfterEnforce(db: Db, now: nat, grace: int)
    ensures var after := EnforceRun(db, now, grace);
            && (forall i | 0 <= i < |after.invoices| :: !PastDueAt(after.invoices[i], now))
            && (forall i | 0 <= i < |after.invoices| && Lapsed(after.invoices[i], now, grace) ::
                  after.invoices[i].operator < |after.operators| ==>
                    after.operators[after.invoices[i].operator].status != Approved)
    ensures var after := EnforceRun(db, now, grace);
            forall inv <- after.invoices | inv.dueAt.Some? && inv.dueAt.value < now ::
              && inv.status != Issued
              && (inv.status == Overdue && inv.dueAt.value < now - grace * 86400 && inv.operator < |after.operators| ==>
                    after.operators[inv.operator].status != Approved)
  {
    EnforceMeans(db, now, grace);
    var after := EnforceRun(db, now, grace);
    forall i | 0 <= i < |after.invoices| && Lapsed(after.invoices[i], now, grace)
               && after.invoices[i].operator < |after.operators|
      ensures after.operators[after.invoices[i].operator].status != Approved
    {
      assert Unpaid(db.invoices[i], now, grace);
    }
  }

  // ------------------------------------------------------------ payments in between

  /** A payment of an invoice that was sent is one of the things that may happen between runs. */
  lemma PaymentIsBetween(db: Db, i: nat, now: nat)
    requires i < |db.invoices| && db.invoices[i].operator < |db.operators| && db.invoices[i].status != Draft
    ensures Between(db, Settled(db, i, now))
  {}

  /** Between runs nothing happens but payments. */
  ghost predicate OnlyPayments(db: Db, steps: seq<Step>, grace: int)
    decreases |steps|
  {
    steps == [] ||
    (var init, s := steps[..|steps| - 1], steps[|steps| - 1];
     && OnlyPayments(db, init, grace)
     && (s.Elsewhere? ==> IsPayment(Exec(db, init, grace), s.after)))
  }

  ghost predicate IsPayment(before: Db, after: Db) {
    exists i, now |
      0 <= i < |before.invoices| && 0 <= now && before.invoices[i].operator < |before.operators| ::
      after == Settled(before, i, now)
  }

  lemma StepKeepsManual(db: Db, s: Step, grace: int, id: nat)
    requires id < |db.operators| && db.operators[id].status == Suspended
    requires db.operators[id].suspensionReason != Some(ForBilling)
    requires s.Elsewhere? ==> IsPayment(db, s.after)
    ensures id < |Next(db, s, grace).operators|
    ensures Next(db, s, grace).operators[id].status == Suspended
    ensures Next(db, s, grace).operators[id].suspensionReason == db.operators[id].suspensionReason
  {
    hide TrialRun, InvoiceRun, EnforceRun;
    match s
    case TrialExpiry(now) => TrialUpTo(db, now, |db.operators|, id);
    case Invoices(now, owed) => InvoiceRunKeepsOperators(db, now, owed);
    case Enforce(now) => EnforceExact(db, now, grace);
    case Elsewhere(after) =>
      var i, now :| 0 <= i < |db.invoices| && 0 <= now && db.invoices[i].operator < |db.operators|
                    && after == Settled(db, i, now);
      PaymentLiftsExactly(db.operators[id]);
  }

  lemma InvoiceRunKeepsOperators(db: Db, now: nat, owed: map<nat, nat>)
    ensures InvoiceRun(db, now, owed, |db.operators|).operators == db.operators
  {}

  /** No sequence of jobs and payments ever ends a suspension imposed by hand, or one whose reason
      was never recorded. */
  lemma {:induction false} ManualSuspensionStands(db: Db, steps: seq<Step>, grace: int, id: nat)
    requires id < |db.operators| && db.operators[id].status == Suspended
    requires db.operators[id].suspensionReason != Some(ForBilling) && OnlyPayments(db, steps, grace)
    ensures id < |Exec(db, steps, grace).operators|
    ensures Exec(db, steps, grace).operators[id].status == Suspended
    ensures Exec(db, steps, grace).operators[id].suspensionReason == db.operators[id].suspensionReason
    decreases |steps|
  {
    hide Next;
    if steps != [] {
      ManualSuspensionStands(db, steps[..|steps| - 1], grace, id);
      StepKeepsManual(Exec(db, steps[..|steps| - 1], grace), steps[|steps| - 1], grace, id);
    }
  }
}
