/** The daily billing jobs (backend/src/jobs/trial_expiry.py, invoice_generation.py and
    billing_enforcement.py, with the dates of backend/src/modules/billing/service.py).
    Rows are named by their position; instants are UTC seconds since the start of year 0,
    and all the clock readings of one run are one instant. */
module Billing {
  import opened Calendar
  import opened Options

  const DAY: nat := 86400

  const PAYSTACK_MINIMUM_PESEWAS: nat := 100

  // ------------------------------------------------------------------------ months

  /** Midnight on the 1st of a month. */
  function MonthStart(index: nat): nat {
    if index == 0 then 0 else MonthStart(index - 1) + DaysIn(index - 1) * DAY
  }

  function MonthFrom(index: nat, t: nat): (month: nat)
    requires MonthStart(index) <= t
    ensures MonthStart(month) <= t < MonthStart(month + 1)
    decreases t - MonthStart(index)
  {
    if t < MonthStart(index + 1) then index else MonthFrom(index + 1, t)
  }

  /** The month an instant falls in. */
  function MonthOf(t: nat): (month: nat)
    ensures MonthStart(month) <= t < MonthStart(month + 1)
  {
    MonthFrom(0, t)
  }

  lemma {:induction false} StartsApart(i: nat, j: nat)
    requires i < j
    ensures MonthStart(i) + 28 * DAY <= MonthStart(j)
    decreases j
  {
    hide DaysIn;
    if i < j - 1 { StartsApart(i, j - 1); }
  }

  lemma MonthIs(t: nat, month: nat)
    requires MonthStart(month) <= t < MonthStart(month + 1)
    ensures MonthOf(t) == month
  {
    hide MonthStart, MonthOf;
    var m := MonthOf(t);
    if m + 1 < month { StartsApart(m + 1, month); }
    if month + 1 < m { StartsApart(month + 1, m); }
  }

  lemma StartsBefore(t: nat, month: nat)
    ensures MonthOf(t) < month <==> t < MonthStart(month)
  {
    hide MonthStart, MonthOf;
    var m := MonthOf(t);
    if m + 1 < month { StartsApart(m + 1, month); }
    if month < m { StartsApart(month, m); }
  }

  /** A year begins where the Gregorian rule puts it: MonthStart is the real calendar. */
  lemma {:induction false} YearsStart(year: nat)
    ensures MonthStart(12 * year) == (365 * year + (year + 3) / 4 - (year + 99) / 100 + (year + 399) / 400) * 86400
    decreases year
  {
    hide MonthStart;
    if year == 0 {
      FirstMonth();
    } else {
      YearsStart(year - 1);
      YearPasses(year - 1);
      LeapDays(year - 1);
    }
  }

  lemma FirstMonth()
    ensures MonthStart(0) == 0
  {}

  /** The leap days before a year number go up by one in just the leap years. */
  lemma LeapDays(year: nat)
    ensures (year + 4) / 4 - (year + 100) / 100 + (year + 400) / 400
            == (year + 3) / 4 - (year + 99) / 100 + (year + 399) / 400
               + if year % 4 == 0 && (year % 100 != 0 || year % 400 == 0) then 1 else 0
  {
    EveryFourth(year);
    EveryHundredth(year);
    EveryFourHundredth(year);
  }

  lemma EveryFourth(year: nat)
    ensures (year + 4) / 4 == (year + 3) / 4 + if year % 4 == 0 then 1 else 0
  {}

  lemma EveryHundredth(year: nat)
    ensures (year + 100) / 100 == (year + 99) / 100 + if year % 100 == 0 then 1 else 0
    ensures year % 100 == 0 ==> year % 4 == 0
  {
    var q := year / 100;
    assert year % 100 == 0 ==> year == 4 * (25 * q);
  }

  lemma EveryFourHundredth(year: nat)
    ensures (year + 400) / 400 == (year + 399) / 400 + if year % 400 == 0 then 1 else 0
    ensures year % 400 == 0 ==> year % 100 == 0
  {
    var q := year / 400;
    assert year % 400 == 0 ==> year == 100 * (4 * q);
  }

  lemma MonthPasses(month: nat)
    ensures MonthStart(month + 1) == MonthStart(month) + DaysIn(month) * 86400
  {}

  lemma YearPasses(year: nat)
    ensures MonthStart(12 * year + 12) == MonthStart(12 * year)
            + (365 + if year % 4 == 0 && (year % 100 != 0 || year % 400 == 0) then 1 else 0) * 86400
  {
    hide MonthStart, DaysIn;
    var m := 12 * year;
    MonthLengths(year, 0); MonthLengths(year, 1); MonthLengths(year, 2); MonthLengths(year, 3);
    MonthLengths(year, 4); MonthLengths(year, 5); MonthLengths(year, 6); MonthLengths(year, 7);
    MonthLengths(year, 8); MonthLengths(year, 9); MonthLengths(year, 10); MonthLengths(year, 11);
    MonthPasses(m); MonthPasses(m + 1); MonthPasses(m + 2); MonthPasses(m + 3);
    MonthPasses(m + 4); MonthPasses(m + 5); MonthPasses(m + 6); MonthPasses(m + 7);
    MonthPasses(m + 8); MonthPasses(m + 9); MonthPasses(m + 10); MonthPasses(m + 11);
  }

  // -------------------------------------------------------------------------- rows

  datatype OperatorStatus = Pending | Approved | Suspended | Cancelled

  datatype BillingStatus = Trial | Active | PastDue | Paused | Ended

  datatype Reason = ForBilling | Manual

  datatype Operator = Operator(
    status: OperatorStatus,
    billing: BillingStatus,
    suspensionReason: Option<Reason>,
    trialEndsAt: Option<nat>,
    feePesewas: nat)

  datatype InvoiceStatus = Draft | Issued | Paid | Overdue | Waived

  datatype Invoice = Invoice(operator: nat, periodStart: nat, periodEnd: nat, status: InvoiceStatus, dueAt: Option<nat>)

  /** Other is any event the three jobs neither write nor read. */
  datatype Event =
    | Warning(operator: nat, at: nat, daysLeft: int)
    | TrialExpired(operator: nat, at: nat, firstInvoiceMonth: nat)
    | InvoiceIssued(operator: nat, at: nat, invoice: nat)
    | InvoiceOverdue(operator: nat, at: nat, invoice: nat)
    | GraceStarted(operator: nat, at: nat, invoice: nat)
    | SuspendedForBilling(operator: nat, at: nat, invoice: nat)
    | Other(operator: nat, at: nat)

  datatype Db = Db(operators: seq<Operator>, invoices: seq<Invoice>, events: seq<Event>)

  // -------------------------------------------------------------------- trial_expiry

  function FirstInvoiceMonth(trialEndsAt: nat): nat { MonthOf(trialEndsAt) + 1 }

  /** _already_sent: a warning within the last seven days. */
  predicate WarnedSince(events: seq<Event>, id: nat, cutoff: int) {
    exists i | 0 <= i < |events| :: events[i].Warning? && events[i].operator == id && events[i].at >= cutoff
  }

  function TrialOne(db: Db, id: nat, now: nat): Db
    requires id < |db.operators|
  {
    var op := db.operators[id];
    if op.billing != Trial || op.trialEndsAt.None? then db
    else
      var daysLeft := (op.trialEndsAt.value - now) / DAY;
      if daysLeft <= 3 && daysLeft > 0 then
        if WarnedSince(db.events, id, now - 7 * DAY) then db
        else db.(events := db.events + [Warning(id, now, daysLeft)])
      else if op.trialEndsAt.value <= now then
        db.(operators := db.operators[id := op.(billing := Active)],
            events := db.events + [TrialExpired(id, now, FirstInvoiceMonth(op.trialEndsAt.value))])
      else db
  }

  /** One run over the first k operators. */
  function TrialRun(db: Db, now: nat, k: nat): (after: Db)
    requires k <= |db.operators|
    ensures |after.operators| == |db.operators| && after.invoices == db.invoices && db.events <= after.events
  {
    if k == 0 then db else TrialOne(TrialRun(db, now, k - 1), k - 1, now)
  }

  // -------------------------------------------------------------- invoice_generation

  predicate TrialCovers(op: Operator, month: nat) {
    op.trialEndsAt.Some? && FirstInvoiceMonth(op.trialEndsAt.value) > month
  }

  /** _invoice_exists_for_period: from the 1st up to the start of the last day. */
  predicate InvoiceExists(invoices: seq<Invoice>, id: nat, month: nat) {
    exists i | 0 <= i < |invoices| ::
      && invoices[i].operator == id && invoices[i].status != Draft
      && MonthStart(month) <= invoices[i].periodStart < MonthStart(month + 1) - DAY
  }

  function NewInvoice(id: nat, month: nat): Invoice {
    var periodEnd := MonthStart(month) + (DaysIn(month) - 1) * DAY;
    Invoice(id, MonthStart(month), periodEnd, Issued, Some(periodEnd + 7 * DAY))
  }

  /** unbilled_sms_total, in pesewas. */
  function SmsOwed(owed: map<nat, nat>, id: nat): nat { if id in owed then owed[id] else 0 }

  predicate Considered(db: Db, id: nat, month: nat)
    requires id < |db.operators|
  {
    && db.operators[id].billing == Active
    && !TrialCovers(db.operators[id], month)
    && !InvoiceExists(db.invoices, id, month)
  }

  predicate TooLittle(op: Operator, id: nat, owed: map<nat, nat>) {
    op.feePesewas < PAYSTACK_MINIMUM_PESEWAS && SmsOwed(owed, id) < PAYSTACK_MINIMUM_PESEWAS
  }

  function InvoiceOne(db: Db, id: nat, now: nat, owed: map<nat, nat>): Db
    requires id < |db.operators|
  {
    var month := MonthOf(now);
    if !Considered(db, id, month) || TooLittle(db.operators[id], id, owed) then db
    else db.(invoices := db.invoices + [NewInvoice(id, month)],
             events := db.events + [InvoiceIssued(id, now, |db.invoices|)])
  }

  function InvoiceRun(db: Db, now: nat, owed: map<nat, nat>, k: nat): (after: Db)
    requires k <= |db.operators|
    ensures after.operators == db.operators && db.invoices <= after.invoices && db.events <= after.events
  {
    if k == 0 then db else InvoiceOne(InvoiceRun(db, now, owed, k - 1), k - 1, now, owed)
  }

  // -------------------------------------------------------------- billing_enforcement

  predicate DueBefore(inv: Invoice, instant: int) { inv.dueAt.Some? && inv.dueAt.value < instant }

  predicate PastDueAt(inv: Invoice, now: nat) { inv.status == Issued && DueBefore(inv, now) }

  /** _grace_warning_sent. */
  predicate GraceSent(events: seq<Event>, id: nat, invoice: nat) {
    exists i | 0 <= i < |events| ::
      events[i].GraceStarted? && events[i].operator == id && events[i].invoice == invoice
  }

  function MarkOne(db: Db, i: nat, now: nat): Db
    requires i < |db.invoices|
  {
    var inv := db.invoices[i];
    if !PastDueAt(inv, now) then db
    else
      db.(invoices := db.invoices[i := inv.(status := Overdue)],
          events := db.events + [InvoiceOverdue(inv.operator, now, i)]
                    + if GraceSent(db.events, inv.operator, i) then [] else [GraceStarted(inv.operator, now, i)])
  }

  /** The first pass, over the first k invoices. */
  function MarkRun(db: Db, now: nat, k: nat): (after: Db)
    requires k <= |db.invoices|
    ensures |after.invoices| == |db.invoices| && after.operators == db.operators && db.events <= after.events
  {
    if k == 0 then db else MarkOne(MarkRun(db, now, k - 1), k - 1, now)
  }

  predicate Lapsed(inv: Invoice, now: nat, grace: int) { inv.status == Overdue && DueBefore(inv, now - grace * DAY) }

  function Suspend(op: Operator): Operator {
    op.(status := Suspended, billing := PastDue, suspensionReason := Some(ForBilling))
  }

  function SuspendOne(db: Db, i: nat, now: nat, grace: int): Db
    requires i < |db.invoices|
  {
    var id := db.invoices[i].operator;
    if !Lapsed(db.invoices[i], now, grace) || id >= |db.operators| || db.operators[id].status != Approved then db
    else db.(operators := db.operators[id := Suspend(db.operators[id])],
             events := db.events + [SuspendedForBilling(id, now, i)])
  }

  /** The second pass, over the first k invoices. */
  function SuspendRun(db: Db, now: nat, grace: int, k: nat): (after: Db)
    requires k <= |db.invoices|
    ensures |after.operators| == |db.operators| && after.invoices == db.invoices && db.events <= after.events
  {
    if k == 0 then db else SuspendOne(SuspendRun(db, now, grace, k - 1), k - 1, now, grace)
  }

  function EnforceRun(db: Db, now: nat, grace: int): Db {
    SuspendRun(MarkRun(db, now, |db.invoices|), now, grace, |db.invoices|)
  }

  // ----------------------------------------------------------------------- payments

  /** is_billing_suspension. */
  predicate IsBillingSuspension(op: Operator) { op.status == Suspended && op.suspensionReason == Some(ForBilling) }

  /** normalise_billing_status. */
  function Normalised(op: Operator): Operator {
    if op.billing in {Active, Ended, Paused} then op else op.(billing := Active)
  }

  /** reactivate_operator. */
  function Reactivated(op: Operator): Operator {
    op.(status := Approved, billing := Active, suspensionReason := None)
  }

  function AfterPayment(op: Operator): Operator {
    if IsBillingSuspension(op) then Reactivated(Normalised(op)) else Normalised(op)
  }

  /** What SettleInvoice makes of the tables. */
  function Settled(db: Db, i: nat, now: nat): Db
    requires i < |db.invoices| && db.invoices[i].operator < |db.operators|
  {
    var id := db.invoices[i].operator;
    Db(db.operators[id := AfterPayment(db.operators[id])],
       db.invoices[i := db.invoices[i].(status := Paid)],
       db.events + [Other(id, now)] + if IsBillingSuspension(db.operators[id]) then [Other(id, now)] else [])
  }

  // ---------------------------------------------------------------- the jobs as run

  class Jobs {
    var operators: seq<Operator>
    var invoices: seq<Invoice>
    var events: seq<Event>

    ghost function State(): Db
      reads this
    {
      Db(operators, invoices, events)
    }

    /** handle_trial_expiry. */
    method HandleTrialExpiry(now: nat)
      modifies this
      ensures State() == TrialRun(old(State()), now, |old(operators)|)
    {
      var rows := operators;
      for id := 0 to |rows|
        invariant |operators| == |rows| && forall j | id <= j < |rows| :: operators[j] == rows[j]
        invariant State() == TrialRun(old(State()), now, id)
      {
        var op := rows[id];
        if op.billing == Trial && op.trialEndsAt.Some? {
          var daysLeft := (op.trialEndsAt.value - now) / DAY;
          if daysLeft <= 3 && daysLeft > 0 {
            if !WarnedSince(events, id, now - 7 * DAY) {
              events := events + [Warning(id, now, daysLeft)];
            }
          } else if op.trialEndsAt.value <= now {
            operators := operators[id := op.(billing := Active)];
            events := events + [TrialExpired(id, now, FirstInvoiceMonth(op.trialEndsAt.value))];
          }
        }
      }
    }

    /** generate_monthly_invoices, with what it counts and logs. */
    method GenerateMonthlyInvoices(now: nat, owed: map<nat, nat>)
      returns (generated: nat, carriedForward: seq<(nat, nat)>)
      modifies this
      ensures State() == InvoiceRun(old(State()), now, owed, |old(operators)|)
      ensures generated == |invoices| - |old(invoices)|
      ensures carriedForward == CarriedForward(old(State()), MonthOf(now), owed, |old(operators)|)
    {
      var month, rows := MonthOf(now), operators;
      generated, carriedForward := 0, [];
      for id := 0 to |rows|
        invariant State() == InvoiceRun(old(State()), now, owed, id) && operators == rows
        invariant generated == |invoices| - |old(invoices)|
        invariant carriedForward == CarriedForward(old(State()), month, owed, id)
      {
        var op := rows[id];
        OwnInvoicesOnly(old(State()), now, owed, id, id);
        if op.billing != Active { continue; }
        if TrialCovers(op, month) { continue; }
        if InvoiceExists(invoices, id, month) { continue; }
        if op.feePesewas < PAYSTACK_MINIMUM_PESEWAS {
          var smsOwed := SmsOwed(owed, id);
          if smsOwed < PAYSTACK_MINIMUM_PESEWAS {
            if smsOwed > 0 { carriedForward := carriedForward + [(id, smsOwed)]; }
            continue;
          }
        }
        invoices, events := invoices + [NewInvoice(id, month)], events + [InvoiceIssued(id, now, |invoices|)];
        generated := generated + 1;
      }
    }

    /** settle_invoice: the invoice is paid, billing goes on, and a billing suspension ends. */
    method SettleInvoice(i: nat, now: nat) returns (lifted: bool)
      requires i < |invoices| && invoices[i].operator < |operators|
      modifies this
      ensures invoices == old(invoices)[i := old(invoices)[i].(status := Paid)]
      ensures var id := old(invoices)[i].operator;
              var op := old(operators)[id];
              && operators == old(operators)[id := AfterPayment(op)]
              && (lifted <==> op.status == Suspended && op.suspensionReason == Some(ForBilling))
              && events == old(events) + [Other(id, now)] + if lifted then [Other(id, now)] else []
      ensures State() == Settled(old(State()), i, now)
    {
      var id := invoices[i].operator;
      lifted := operators[id].status == Suspended && operators[id].suspensionReason == Some(ForBilling);
      invoices := invoices[i := invoices[i].(status := Paid)];
      events := events + [Other(id, now)];
      if operators[id].billing !in {Active, Ended, Paused} {
        operators := operators[id := operators[id].(billing := Active)];
      }
      if lifted {
        operators := operators[id := operators[id].(status := Approved, billing := Active, suspensionReason := None)];
        events := events + [Other(id, now)];
      }
    }

    /** enforce_billing. */
    method EnforceBilling(now: nat, grace: int)
      modifies this
      ensures State() == EnforceRun(old(State()), now, grace)
    {
      var rows := invoices;
      for i := 0 to |rows|
        invariant |invoices| == |rows| && forall j | i <= j < |rows| :: invoices[j] == rows[j]
        invariant State() == MarkRun(old(State()), now, i)
      {
        var inv := rows[i];
        if inv.status == Issued && DueBefore(inv, now) {
          invoices := invoices[i := inv.(status := Overdue)];
          var warned := GraceSent(events, inv.operator, i);
          events := events + [InvoiceOverdue(inv.operator, now, i)];
          if !warned { events := events + [GraceStarted(inv.operator, now, i)]; }
        }
      }
      ghost var marked := State();
      rows := invoices;
      for i := 0 to |rows|
        invariant invoices == rows
        invariant State() == SuspendRun(marked, now, grace, i)
      {
        var inv := rows[i];
        if inv.status == Overdue && DueBefore(inv, now - grace * DAY) {
          if inv.operator < |operators| && operators[inv.operator].status == Approved {
            operators := operators[inv.operator := Suspend(operators[inv.operator])];
            events := events + [SuspendedForBilling(inv.operator, now, i)];
          }
        }
      }
    }
  }

  // ------------------------------------------------------------- what one run does

  predicate Billed(db: Db, id: nat, month: nat, owed: map<nat, nat>)
    requires id < |db.operators|
  {
    Considered(db, id, month) && !TooLittle(db.operators[id], id, owed)
  }

  function BilledBelow(db: Db, month: nat, owed: map<nat, nat>, k: nat): seq<nat>
    requires k <= |db.operators|
  {
    if k == 0 then []
    else BilledBelow(db, month, owed, k - 1) + if Billed(db, k - 1, month, owed) then [k - 1] else []
  }

  function CarriedForward(db: Db, month: nat, owed: map<nat, nat>, k: nat): seq<(nat, nat)>
    requires k <= |db.operators|
  {
    if k == 0 then []
    else
      CarriedForward(db, month, owed, k - 1)
      + if Considered(db, k - 1, month) && TooLittle(db.operators[k - 1], k - 1, owed) && SmsOwed(owed, k - 1) > 0
        then [(k - 1, SmsOwed(owed, k - 1))] else []
  }

  /** The invoices a run makes for others change nothing an operator's own check reads. */
  lemma {:induction false} OwnInvoicesOnly(db: Db, now: nat, owed: map<nat, nat>, k: nat, id: nat)
    requires k <= id < |db.operators|
    ensures forall m :: InvoiceExists(InvoiceRun(db, now, owed, k).invoices, id, m) == InvoiceExists(db.invoices, id, m)
  {
    if k > 0 {
      OwnInvoicesOnly(db, now, owed, k - 1, id);
      var before, after := InvoiceRun(db, now, owed, k - 1), InvoiceRun(db, now, owed, k);
      forall m ensures InvoiceExists(after.invoices, id, m) == InvoiceExists(before.invoices, id, m) {
        if after != before {
          AddedForAnother(before.invoices, after.invoices[|before.invoices|], id, m);
          assert after.invoices == before.invoices + [after.invoices[|before.invoices|]];
        }
      }
    }
  }

  lemma AddedForAnother(invoices: seq<Invoice>, extra: Invoice, id: nat, month: nat)
    requires extra.operator != id
    ensures InvoiceExists(invoices + [extra], id, month) == InvoiceExists(invoices, id, month)
  {
    if InvoiceExists(invoices, id, month) {
      var i :| 0 <= i < |invoices| && invoices[i].operator == id && invoices[i].status != Draft
               && MonthStart(month) <= invoices[i].periodStart < MonthStart(month + 1) - DAY;
      assert (invoices + [extra])[i] == invoices[i];
    }
  }

  lemma NewInvoiceExists(invoices: seq<Invoice>, i: nat, id: nat, month: nat)
    requires i < |invoices| && invoices[i] == NewInvoice(id, month)
    ensures InvoiceExists(invoices, id, month)
  {}

  function InvoicesFor(billed: seq<nat>, month: nat): seq<Invoice> {
    seq(|billed|, i requires 0 <= i < |billed| => NewInvoice(billed[i], month))
  }

  lemma OneMoreInvoice(billed: seq<nat>, id: nat, month: nat)
    ensures InvoicesFor(billed + [id], month) == InvoicesFor(billed, month) + [NewInvoice(id, month)]
  {
    hide NewInvoice;
  }

  /** A run adds exactly one invoice for each operator it bills, decided on the state
      before the run, and touches no other. */
  lemma {:induction false} InvoicesExact(db: Db, now: nat, owed: map<nat, nat>, k: nat)
    requires k <= |db.operators|
    ensures InvoiceRun(db, now, owed, k).invoices
            == db.invoices + InvoicesFor(BilledBelow(db, MonthOf(now), owed, k), MonthOf(now))
  {
    hide InvoicesFor, NewInvoice, InvoiceExists, MonthOf, TooLittle;
    if k > 0 {
      InvoicesExact(db, now, owed, k - 1);
      OwnInvoicesOnly(db, now, owed, k - 1, k - 1);
      var billed := BilledBelow(db, MonthOf(now), owed, k - 1);
      OneMoreInvoice(billed, k - 1, MonthOf(now));
      assert billed + [] == billed;
    } else {
      NoInvoices(MonthOf(now));
    }
  }

  lemma NoInvoices(month: nat)
    ensures InvoicesFor([], month) == []
  {}

  /** A trial covers the months that start no later than it ends. */
  lemma CoveredMonths(op: Operator, month: nat)
    ensures TrialCovers(op, month) <==> op.trialEndsAt.Some? && op.trialEndsAt.value >= MonthStart(month)
  {
    hide MonthOf, MonthStart;
    if op.trialEndsAt.Some? { StartsBefore(op.trialEndsAt.value, month); }
  }

  lemma {:induction false} BilledAre(db: Db, month: nat, owed: map<nat, nat>, k: nat)
    requires k <= |db.operators|
    ensures forall id: nat :: id in BilledBelow(db, month, owed, k) <==> id < k && Billed(db, id, month, owed)
    ensures forall i, j | 0 <= i < j < |BilledBelow(db, month, owed, k)| ::
              BilledBelow(db, month, owed, k)[i] < BilledBelow(db, month, owed, k)[j]
  {
    hide Billed;
    if k > 0 {
      BilledAre(db, month, owed, k - 1);
      var before := BilledBelow(db, month, owed, k - 1);
      assert BilledBelow(db, month, owed, k) == before + if Billed(db, k - 1, month, owed) then [k - 1] else [];
      forall i | 0 <= i < |before| ensures before[i] < k - 1 { assert before[i] in before; }
    }
  }

  /** Who is billed, on the rows themselves: an active operator owing at least one cedi (by fee or
      by SMS) whose trial, if it had one, ended before the month, and without an invoice, drafts
      aside, that begins in the month before its last day. */
  lemma BilledExactly(db: Db, id: nat, month: nat, owed: map<nat, nat>)
    requires id < |db.operators|
    ensures Billed(db, id, month, owed) <==>
            var op := db.operators[id];
            && op.billing == Active
            && (op.trialEndsAt.None? || op.trialEndsAt.value < MonthStart(month))
            && (op.feePesewas >= 100 || (id in owed && owed[id] >= 100))
            && forall inv <- db.invoices | inv.operator == id && inv.status != Draft ::
                 !(MonthStart(month) <= inv.periodStart < MonthStart(month + 1) - 86400)
  {
    CoveredMonths(db.operators[id], month);
    hide MonthStart, TrialCovers;
  }

  lemma NewInvoiceExactly(id: nat, month: nat)
    ensures NewInvoice(id, month) ==
            Invoice(id, MonthStart(month), MonthStart(month + 1) - 86400,
                    Issued, Some(MonthStart(month + 1) + 6 * 86400))
  {}

  /** A run adds one invoice for each operator billed, lowest id first: for the whole month, issued
      and due seven days after the month's last midnight. */
  lemma NewInvoicesExactly(db: Db, now: nat, owed: map<nat, nat>)
    ensures var new_, month := InvoiceRun(db, now, owed, |db.operators|).invoices[|db.invoices|..], MonthOf(now);
            && (forall i | 0 <= i < |new_| ::
                  && new_[i].operator < |db.operators| && Billed(db, new_[i].operator, month, owed)
                  && new_[i] == Invoice(new_[i].operator, MonthStart(month), MonthStart(month + 1) - 86400,
                                        Issued, Some(MonthStart(month + 1) + 6 * 86400)))
            && (forall i, j | 0 <= i < j < |new_| :: new_[i].operator < new_[j].operator)
            && (forall id | 0 <= id < |db.operators| && Billed(db, id, month, owed) ::
                  exists i | 0 <= i < |new_| :: new_[i].operator == id)
  {
    hide MonthStart, MonthOf, Billed, BilledBelow, InvoiceRun, NewInvoice, InvoicesFor;
    var month, k := MonthOf(now), |db.operators|;
    var billed := BilledBelow(db, month, owed, k);
    InvoicesExact(db, now, owed, k);
    BilledAre(db, month, owed, k);
    InvoicesForAre(billed, month);
    assert InvoiceRun(db, now, owed, k).invoices[|db.invoices|..] == InvoicesFor(billed, month);
    forall i | 0 <= i < |billed| ensures billed[i] < k && Billed(db, billed[i], month, owed) {
      assert billed[i] in billed;
    }
    forall id | 0 <= id < |db.operators| && Billed(db, id, month, owed)
      ensures exists i | 0 <= i < |billed| :: billed[i] == id
    {
      assert id in billed;
    }
  }

  lemma InvoicesForAre(billed: seq<nat>, month: nat)
    ensures |InvoicesFor(billed, month)| == |billed|
    ensures forall i | 0 <= i < |billed| ::
              InvoicesFor(billed, month)[i]
              == Invoice(billed[i], MonthStart(month), MonthStart(month + 1) - 86400,
                         Issued, Some(MonthStart(month + 1) + 6 * 86400))
  {
    StartsApart(month, month + 1);
    hide MonthStart, NewInvoice;
    forall i | 0 <= i < |billed|
      ensures NewInvoice(billed[i], month)
              == Invoice(billed[i], MonthStart(month), MonthStart(month + 1) - 86400,
                         Issued, Some(MonthStart(month + 1) + 6 * 86400))
    {
      NewInvoiceExactly(billed[i], month);
    }
  }

  lemma {:induction false} InvoicedUpTo(db: Db, now: nat, owed: map<nat, nat>, k: nat, id: nat)
    requires k <= |db.operators| && id < k && db.operators[id].billing == Active
    ensures InvoiceExists(InvoiceRun(db, now, owed, k).invoices, id, MonthOf(now))
            <==> InvoiceExists(db.invoices, id, MonthOf(now)) || Billed(db, id, MonthOf(now), owed)
  {
    var before, after := InvoiceRun(db, now, owed, k - 1), InvoiceRun(db, now, owed, k);
    if id == k - 1 {
      OwnInvoicesOnly(db, now, owed, k - 1, id);
      if after != before { NewInvoiceExists(after.invoices, |before.invoices|, id, MonthOf(now)); }
    } else {
      InvoicedUpTo(db, now, owed, k - 1, id);
      if after != before { AddedForAnother(before.invoices, NewInvoice(k - 1, MonthOf(now)), id, MonthOf(now)); }
    }
  }

  lemma ExistsExactly(invoices: seq<Invoice>, id: nat, month: nat)
    ensures InvoiceExists(invoices, id, month) <==>
            exists inv <- invoices ::
              inv.operator == id && inv.status != Draft
              && MonthStart(month) <= inv.periodStart < MonthStart(month + 1) - 86400
  {
    hide MonthStart;
    if InvoiceExists(invoices, id, month) {
      var i :| 0 <= i < |invoices| && invoices[i].operator == id && invoices[i].status != Draft
               && MonthStart(month) <= invoices[i].periodStart < MonthStart(month + 1) - DAY;
      assert invoices[i] in invoices;
    }
  }

  /** After a run an active operator has an invoice for the month exactly when it had one,
      or its trial ended before the month and it owes at least what can be paid. */
  lemma InvoicedAfterRun(db: Db, now: nat, owed: map<nat, nat>, id: nat)
    requires id < |db.operators| && db.operators[id].billing == Active
    ensures var op, first, next := db.operators[id], MonthStart(MonthOf(now)), MonthStart(MonthOf(now) + 1);
            (exists inv <- InvoiceRun(db, now, owed, |db.operators|).invoices ::
               inv.operator == id && inv.status != Draft && first <= inv.periodStart < next - 86400)
            <==>
            || (exists inv <- db.invoices ::
                  inv.operator == id && inv.status != Draft && first <= inv.periodStart < next - 86400)
            || ((op.trialEndsAt.None? || op.trialEndsAt.value < first)
                && (op.feePesewas >= 100 || (id in owed && owed[id] >= 100)))
  {
    hide MonthStart, MonthOf, InvoiceRun, InvoiceExists, Billed;
    InvoicedUpTo(db, now, owed, |db.operators|, id);
    ExistsExactly(db.invoices, id, MonthOf(now));
    ExistsExactly(InvoiceRun(db, now, owed, |db.operators|).invoices, id, MonthOf(now));
    BilledExactly(db, id, MonthOf(now), owed);
  }

  /** What is logged as carried forward: for each operator otherwise billed, an amount too small to
      be paid and not nothing. */
  lemma {:induction false} CarriedExactly(db: Db, month: nat, owed: map<nat, nat>, k: nat)
    requires k <= |db.operators|
    ensures forall c: (nat, nat) :: c in CarriedForward(db, month, owed, k) <==>
              && c.0 < k && db.operators[c.0].billing == Active
              && (db.operators[c.0].trialEndsAt.None? || db.operators[c.0].trialEndsAt.value < MonthStart(month))
              && db.operators[c.0].feePesewas < 100 && c.0 in owed && owed[c.0] == c.1 && 0 < c.1 < 100
              && forall inv <- db.invoices | inv.operator == c.0 && inv.status != Draft ::
                   !(MonthStart(month) <= inv.periodStart < MonthStart(month + 1) - 86400)
    ensures forall i, j | 0 <= i < j < |CarriedForward(db, month, owed, k)| ::
              CarriedForward(db, month, owed, k)[i].0 < CarriedForward(db, month, owed, k)[j].0
  {
    hide MonthStart, InvoiceExists, TrialCovers;
    if k > 0 {
      CarriedExactly(db, month, owed, k - 1);
      CoveredMonths(db.operators[k - 1], month);
      ExistsExactly(db.invoices, k - 1, month);
      var before := CarriedForward(db, month, owed, k - 1);
      forall i | 0 <= i < |before| ensures before[i].0 < k - 1 { assert before[i] in before; }
    }
  }

  /** Every invoice a run adds has its event, and a run writes no other. */
  lemma {:induction false} InvoicesRecorded(db: Db, now: nat, owed: map<nat, nat>, k: nat)
    requires k <= |db.operators|
    ensures var issued := InvoiceRun(db, now, owed, k).events[|db.events|..];
            var new_ := InvoiceRun(db, now, owed, k).invoices[|db.invoices|..];
            |issued| == |new_|
            && forall i | 0 <= i < |issued| :: issued[i] == InvoiceIssued(new_[i].operator, now, |db.invoices| + i)
  {
    hide NewInvoice, Considered, TooLittle, MonthOf;
    if k > 0 {
      var before, after := InvoiceRun(db, now, owed, k - 1), InvoiceRun(db, now, owed, k);
      var m, n := |db.events|, |db.invoices|;
      InvoicesRecorded(db, now, owed, k - 1);
      NewInvoiceOperator(k - 1, MonthOf(now));
      if after != before {
        assert after.events[m..] == before.events[m..] + [InvoiceIssued(k - 1, now, |before.invoices|)];
        assert after.invoices[n..] == before.invoices[n..] + [NewInvoice(k - 1, MonthOf(now))];
      }
    }
  }

  lemma NewInvoiceOperator(id: nat, month: nat)
    ensures NewInvoice(id, month).operator == id
  {}

  /** Written since `before`. */
  predicate Recorded(before: seq<Event>, after: seq<Event>, e: Event) {
    exists i | |before| <= i < |after| :: after[i] == e
  }

  lemma RecordedStays(start: seq<Event>, before: seq<Event>, after: seq<Event>, e: Event)
    requires before <= after && Recorded(start, before, e)
    ensures Recorded(start, after, e)
  {}

  predicate TrialOver(op: Operator, now: nat) {
    op.billing == Trial && op.trialEndsAt.Some? && op.trialEndsAt.value <= now
  }

  /** Between one whole day and the start of the fourth. */
  predicate TrialEnding(op: Operator, now: nat) {
    op.billing == Trial && op.trialEndsAt.Some? && DAY <= op.trialEndsAt.value - now < 4 * DAY
  }

  /** What the run does for one operator. */
  lemma TrialOneExact(db: Db, id: nat, now: nat)
    requires id < |db.operators|
    ensures var after, op := TrialOne(db, id, now), db.operators[id];
            && |after.operators| == |db.operators| && db.events <= after.events
            && (forall other | 0 <= other < |db.operators| && other != id ::
                  after.operators[other] == db.operators[other])
            && after.operators[id] == (if TrialOver(op, now) then op.(billing := Active) else op)
            && (TrialOver(op, now) ==>
                  after.events == db.events + [TrialExpired(id, now, FirstInvoiceMonth(op.trialEndsAt.value))])
            && (TrialEnding(op, now) ==> WarnedSince(after.events, id, now - 7 * DAY))
  {
    hide FirstInvoiceMonth;
    var after := TrialOne(db, id, now);
    if |after.events| > |db.events| { assert after.events[|db.events|].at == now; }
  }

  lemma RecordedNow(start: seq<Event>, before: seq<Event>, e: Event)
    requires |start| <= |before|
    ensures Recorded(start, before + [e], e)
  {
    assert (before + [e])[|before|] == e;
  }

  lemma {:induction false} TrialUpTo(db: Db, now: nat, k: nat, id: nat)
    requires k <= |db.operators| && id < |db.operators|
    ensures var after, op := TrialRun(db, now, k), db.operators[id];
            && after.operators[id] == (if id < k && TrialOver(op, now) then op.(billing := Active) else op)
            && (id < k && TrialOver(op, now) ==>
                  Recorded(db.events, after.events, TrialExpired(id, now, FirstInvoiceMonth(op.trialEndsAt.value))))
            && (id < k && TrialEnding(op, now) ==> WarnedSince(after.events, id, now - 7 * DAY))
  {
    hide TrialOne, Recorded, WarnedSince, FirstInvoiceMonth;
    if k > 0 {
      var before, after, op := TrialRun(db, now, k - 1), TrialRun(db, now, k), db.operators[id];
      TrialUpTo(db, now, k - 1, id);
      TrialOneExact(before, k - 1, now);
      if TrialOver(op, now) {
        var e := TrialExpired(id, now, FirstInvoiceMonth(op.trialEndsAt.value));
        if id < k - 1 { RecordedStays(db.events, before.events, after.events, e); }
        if id == k - 1 { RecordedNow(db.events, before.events, e); }
      }
      if id < k - 1 && TrialEnding(op, now) { WarnedStays(before.events, after.events, id, now - 7 * DAY); }
    }
  }

  /** A run turns exactly the trials that are over into active billing, each with an event that
      names the month after the one it ended in, and leaves everyone with one to four days of
      trial to go warned this week. */
  lemma TrialExact(db: Db, now: nat, id: nat)
    requires id < |db.operators|
    ensures var after, op := TrialRun(db, now, |db.operators|), db.operators[id];
            && after.operators[id] ==
               (if op.billing == Trial && op.trialEndsAt.Some? && op.trialEndsAt.value <= now
                then Operator(op.status, Active, op.suspensionReason, op.trialEndsAt, op.feePesewas) else op)
            && (op.billing == Trial && op.trialEndsAt.Some? && op.trialEndsAt.value <= now ==>
                  TrialExpired(id, now, MonthOf(op.trialEndsAt.value) + 1) in after.events[|db.events|..])
            && (op.billing == Trial && op.trialEndsAt.Some? && 86400 <= op.trialEndsAt.value - now < 4 * 86400 ==>
                  exists e <- after.events :: e.Warning? && e.operator == id && e.at >= now - 7 * 86400)
  {
    hide MonthOf, TrialRun;
    TrialUpTo(db, now, |db.operators|, id);
  }

  /** What the run may write: a trial's end, or the only warning this week. */
  predicate Rightful(db: Db, now: nat, e: Event) {
    && e.operator < |db.operators| && e.at == now
    && db.operators[e.operator].billing == Trial && db.operators[e.operator].trialEndsAt.Some?
    && var end := db.operators[e.operator].trialEndsAt.value;
    if e.TrialExpired? then end <= now && e.firstInvoiceMonth == MonthOf(end) + 1
    else
      && e.Warning? && 1 <= e.daysLeft <= 3 && e.daysLeft == (end - now) / DAY
      && !WarnedSince(db.events, e.operator, now - 7 * DAY)
  }

  lemma TrialOneWrites(db: Db, before: Db, k: nat, now: nat)
    requires k < |db.operators| == |before.operators| && before.operators[k] == db.operators[k]
    requires db.events <= before.events
    ensures var after := TrialOne(before, k, now).events;
            after == before.events
            || (|after| == |before.events| + 1 && after[..|before.events|] == before.events
                && Rightful(db, now, after[|before.events|]))
  {
    hide MonthOf, WarnedSince;
    if WarnedSince(db.events, k, now - 7 * DAY) { WarnedStays(db.events, before.events, k, now - 7 * DAY); }
  }

  lemma {:induction false} TrialWritesRightful(db: Db, now: nat, k: nat)
    requires k <= |db.operators|
    ensures forall e <- TrialRun(db, now, k).events[|db.events|..] :: Rightful(db, now, e)
  {
    hide Rightful, TrialOne;
    if k > 0 {
      var before, after, n := TrialRun(db, now, k - 1), TrialRun(db, now, k), |db.events|;
      TrialWritesRightful(db, now, k - 1);
      TrialUpTo(db, now, k - 1, k - 1);
      TrialOneWrites(db, before, k - 1, now);
      if after.events == before.events {
        assert after.events[n..] == before.events[n..];
      } else {
        assert after.events[n..] == before.events[n..] + [after.events[|before.events|]];
      }
    }
  }

  /** And these are all the events it writes: a trial's end, naming the month billing starts, or
      the only warning this week, with the whole days left. */
  lemma TrialWritesOnly(db: Db, now: nat, e: Event)
    requires e in TrialRun(db, now, |db.operators|).events[|db.events|..]
    ensures && e.operator < |db.operators| && e.at == now
            && db.operators[e.operator].billing == Trial && db.operators[e.operator].trialEndsAt.Some?
            && var end := db.operators[e.operator].trialEndsAt.value;
            if e.TrialExpired? then end <= now && e.firstInvoiceMonth == MonthOf(end) + 1
            else
              && e.Warning? && 1 <= e.daysLeft <= 3 && e.daysLeft * 86400 <= end - now < (e.daysLeft + 1) * 86400
              && forall w <- db.events :: w.Warning? && w.operator == e.operator ==> w.at < now - 7 * 86400
  {
    hide MonthOf, TrialRun;
    TrialWritesRightful(db, now, |db.operators|);
    assert Rightful(db, now, e);
  }

  lemma WarnedStays(before: seq<Event>, after: seq<Event>, id: nat, cutoff: int)
    requires before <= after && WarnedSince(before, id, cutoff)
    ensures WarnedSince(after, id, cutoff)
  {}

  function Marked(inv: Invoice, now: nat): Invoice { if PastDueAt(inv, now) then inv.(status := Overdue) else inv }

  lemma {:induction false} MarkExact(db: Db, now: nat, k: nat)
    requires k <= |db.invoices|
    ensures forall i | 0 <= i < |db.invoices| ::
              MarkRun(db, now, k).invoices[i] == if i < k then Marked(db.invoices[i], now) else db.invoices[i]
  {
    if k > 0 { MarkExact(db, now, k - 1); }
  }

  predicate HasLapsed(invoices: seq<Invoice>, id: nat, now: nat, grace: int, k: nat)
    requires k <= |invoices|
  {
    exists i | 0 <= i < k :: invoices[i].operator == id && Lapsed(invoices[i], now, grace)
  }

  lemma {:induction false} SuspendExact(db: Db, now: nat, grace: int, k: nat)
    requires k <= |db.invoices|
    ensures forall id | 0 <= id < |db.operators| ::
              SuspendRun(db, now, grace, k).operators[id]
              == if db.operators[id].status == Approved && HasLapsed(db.invoices, id, now, grace, k)
                 then Suspend(db.operators[id]) else db.operators[id]
  {
    if k > 0 {
      SuspendExact(db, now, grace, k - 1);
      forall id | 0 <= id < |db.operators|
        ensures HasLapsed(db.invoices, id, now, grace, k)
                <==> || HasLapsed(db.invoices, id, now, grace, k - 1)
                     || (db.invoices[k - 1].operator == id && Lapsed(db.invoices[k - 1], now, grace))
      {}
    }
  }

  /** An unpaid invoice past its due date plus the grace period. */
  predicate Unpaid(inv: Invoice, now: nat, grace: int) {
    (inv.status == Overdue || PastDueAt(inv, now)) && DueBefore(inv, now - grace * DAY)
  }

  lemma EnforceMeans(db: Db, now: nat, grace: int)
    ensures var after := EnforceRun(db, now, grace);
            && |after.operators| == |db.operators| && |after.invoices| == |db.invoices|
            && (forall i | 0 <= i < |db.invoices| :: after.invoices[i] == Marked(db.invoices[i], now))
            && (forall id | 0 <= id < |db.operators| ::
                  after.operators[id] ==
                  if db.operators[id].status == Approved
                     && exists i | 0 <= i < |db.invoices| ::
                          db.invoices[i].operator == id && Unpaid(db.invoices[i], now, grace)
                  then Suspend(db.operators[id]) else db.operators[id])
  {
    var n := |db.invoices|;
    MarkExact(db, now, n);
    var marked := MarkRun(db, now, n);
    SuspendExact(marked, now, grace, n);
    forall id | 0 <= id < |db.operators|
      ensures HasLapsed(marked.invoices, id, now, grace, n)
              <==> exists i | 0 <= i < n :: db.invoices[i].operator == id && Unpaid(db.invoices[i], now, grace)
    {
      assert forall i | 0 <= i < n :: Lapsed(marked.invoices[i], now, grace) <==> Unpaid(db.invoices[i], now, grace);
    }
  }

  /** Enforcement marks exactly the issued invoices past due, and suspends exactly the approved
      operators with an unpaid invoice past due date plus grace: as a billing suspension, the trial
      and the fee left alone. */
  lemma EnforceExact(db: Db, now: nat, grace: int)
    ensures var after := EnforceRun(db, now, grace);
            && |after.operators| == |db.operators| && |after.invoices| == |db.invoices|
            && (forall i | 0 <= i < |db.invoices| ::
                  var inv := db.invoices[i];
                  after.invoices[i] ==
                  if inv.status == Issued && inv.dueAt.Some? && inv.dueAt.value < now
                  then Invoice(inv.operator, inv.periodStart, inv.periodEnd, Overdue, inv.dueAt) else inv)
            && (forall id | 0 <= id < |db.operators| ::
                  var op := db.operators[id];
                  after.operators[id] ==
                  if op.status == Approved
                     && exists inv <- db.invoices ::
                          && inv.operator == id && inv.dueAt.Some? && inv.dueAt.value < now - grace * 86400
                          && (inv.status == Overdue || (inv.status == Issued && inv.dueAt.value < now))
                  then Operator(Suspended, PastDue, Some(ForBilling), op.trialEndsAt, op.feePesewas) else op)
  {
    EnforceMeans(db, now, grace);
    hide EnforceRun, Unpaid;
    var after := EnforceRun(db, now, grace);
    forall id | 0 <= id < |db.operators|
      ensures var op := db.operators[id];
              after.operators[id] ==
              if op.status == Approved
                 && exists inv <- db.invoices ::
                      && inv.operator == id && inv.dueAt.Some? && inv.dueAt.value < now - grace * 86400
                      && (inv.status == Overdue || (inv.status == Issued && inv.dueAt.value < now))
              then Operator(Suspended, PastDue, Some(ForBilling), op.trialEndsAt, op.feePesewas) else op
    {
      UnpaidExactly(db.invoices, id, now, grace);
    }
  }

  lemma UnpaidExactly(invoices: seq<Invoice>, id: nat, now: nat, grace: int)
    ensures (exists i | 0 <= i < |invoices| :: invoices[i].operator == id && Unpaid(invoices[i], now, grace)) <==>
            exists inv <- invoices ::
              && inv.operator == id && inv.dueAt.Some? && inv.dueAt.value < now - grace * 86400
              && (inv.status == Overdue || (inv.status == Issued && inv.dueAt.value < now))
  {
    if i :| 0 <= i < |invoices| && invoices[i].operator == id && Unpaid(invoices[i], now, grace) {
      assert invoices[i] in invoices;
    }
  }

  // ------------------------------------------------------------------- paying up

  /** A payment lifts a suspension exactly when billing raised it: one imposed by hand, or for a
      reason not known, stands, and so do a cancelled operator and a paused one. */
  lemma PaymentLiftsExactly(op: Operator)
    ensures var after := AfterPayment(op);
            && after.trialEndsAt == op.trialEndsAt && after.feePesewas == op.feePesewas
            && (op.status == Suspended ==>
                  (after.status == Approved <==> op.suspensionReason == Some(ForBilling)))
            && (op.status == Suspended && op.suspensionReason == Some(ForBilling) ==>
                  after == Operator(Approved, Active, None, op.trialEndsAt, op.feePesewas))
            && (!(op.status == Suspended && op.suspensionReason == Some(ForBilling)) ==>
                  && after.status == op.status && after.suspensionReason == op.suspensionReason
                  && after.billing == if op.billing == Ended || op.billing == Paused then op.billing else Active)
  {}

  /** Whoever enforcement suspends, a payment brings back as it was before, billing active and no
      suspension on record; whoever it finds suspended by hand it leaves, and so does a payment. */
  lemma PaymentUndoesEnforcement(db: Db, now: nat, grace: int, id: nat)
    requires id < |db.operators|
    ensures var op, after := db.operators[id], EnforceRun(db, now, grace).operators;
            && id < |after|
            && (after[id].status != op.status ==>
                  AfterPayment(after[id]) == Operator(op.status, Active, None, op.trialEndsAt, op.feePesewas))
            && (op.status == Suspended && op.suspensionReason != Some(ForBilling) ==>
                  AfterPayment(after[id]).status == Suspended
                  && AfterPayment(after[id]).suspensionReason == op.suspensionReason)
  {
    hide EnforceRun;
    EnforceExact(db, now, grace);
  }

  lemma {:induction false} MarkRecorded(db: Db, now: nat, k: nat, i: nat)
    requires i < k <= |db.invoices| && PastDueAt(db.invoices[i], now)
    ensures var after, id := MarkRun(db, now, k), db.invoices[i].operator;
            Recorded(db.events, after.events, InvoiceOverdue(id, now, i)) && GraceSent(after.events, id, i)
  {
    hide MarkRun, GraceSent, Recorded;
    var before, after, id := MarkRun(db, now, k - 1), MarkRun(db, now, k), db.invoices[i].operator;
    MarkExact(db, now, k - 1);
    MarkRunStep(db, now, k);
    if i < k - 1 {
      MarkRecorded(db, now, k - 1, i);
      RecordedStays(db.events, before.events, after.events, InvoiceOverdue(id, now, i));
      GraceStays(before.events, after.events, id, i);
    } else {
      MarkOneRecords(db.events, before, i, now);
    }
  }

  lemma MarkRunStep(db: Db, now: nat, k: nat)
    requires 0 < k <= |db.invoices|
    ensures MarkRun(db, now, k) == MarkOne(MarkRun(db, now, k - 1), k - 1, now)
    ensures db.events <= MarkRun(db, now, k - 1).events <= MarkRun(db, now, k).events
  {}

  lemma MarkOneRecords(start: seq<Event>, before: Db, i: nat, now: nat)
    requires i < |before.invoices| && PastDueAt(before.invoices[i], now) && start <= before.events
    ensures var after, id := MarkOne(before, i, now), before.invoices[i].operator;
            Recorded(start, after.events, InvoiceOverdue(id, now, i)) && GraceSent(after.events, id, i)
  {
    var after, id, n := MarkOne(before, i, now), before.invoices[i].operator, |before.events|;
    assert after.events[n] == InvoiceOverdue(id, now, i);
    if GraceSent(before.events, id, i) {
      GraceStays(before.events, after.events, id, i);
    } else {
      assert after.events[n + 1] == GraceStarted(id, now, i);
    }
  }

  /** Every invoice the run marks overdue has its event, and a grace event by now. */
  lemma MarkRecords(db: Db, now: nat, i: nat)
    requires i < |db.invoices| && db.invoices[i].status == Issued
    requires db.invoices[i].dueAt.Some? && db.invoices[i].dueAt.value < now
    ensures var after, id := MarkRun(db, now, |db.invoices|).events, db.invoices[i].operator;
            && InvoiceOverdue(id, now, i) in after[|db.events|..]
            && exists e <- after :: e.GraceStarted? && e.operator == id && e.invoice == i
  {
    hide MarkRun;
    MarkRecorded(db, now, |db.invoices|, i);
  }

  /** Every operator the run suspends has an event naming an unpaid invoice of its own. */
  lemma SuspensionRecorded(db: Db, now: nat, grace: int, id: nat)
    requires id < |db.operators| && EnforceRun(db, now, grace).operators[id] != db.operators[id]
    ensures exists e <- EnforceRun(db, now, grace).events[|db.events|..] ::
              && e.SuspendedForBilling? && e.operator == id && e.at == now
              && e.invoice < |db.invoices| && db.invoices[e.invoice].operator == id
  {
    var marked := MarkRun(db, now, |db.invoices|);
    MarkExact(db, now, |db.invoices|);
    var i := SuspendedHasEvent(marked, now, grace, |db.invoices|, id);
    var events := EnforceRun(db, now, grace).events;
    assert events[i] == events[|db.events|..][i - |db.events|];
  }

  lemma SuspendRunStep(db: Db, now: nat, grace: int, k: nat)
    requires 0 < k <= |db.invoices|
    ensures SuspendRun(db, now, grace, k) == SuspendOne(SuspendRun(db, now, grace, k - 1), k - 1, now, grace)
    ensures db.events <= SuspendRun(db, now, grace, k - 1).events <= SuspendRun(db, now, grace, k).events
  {}

  lemma {:induction false} SuspendedHasEvent(db: Db, now: nat, grace: int, k: nat, id: nat) returns (i: nat)
    requires k <= |db.invoices| && id < |db.operators|
    requires SuspendRun(db, now, grace, k).operators[id] != db.operators[id]
    ensures |db.events| <= i < |SuspendRun(db, now, grace, k).events|
    ensures var e := SuspendRun(db, now, grace, k).events[i];
            && e.SuspendedForBilling? && e.operator == id && e.at == now
            && e.invoice < |db.invoices| && db.invoices[e.invoice].operator == id
  {
    if k == 0 { assert false; }
    SuspendRunStep(db, now, grace, k);
    hide SuspendRun, Lapsed, Suspend;
    var before := SuspendRun(db, now, grace, k - 1);
    if before.operators[id] != db.operators[id] {
      i := SuspendedHasEvent(db, now, grace, k - 1, id);
    } else {
      i := |before.events|;
    }
  }

  lemma GraceStays(before: seq<Event>, after: seq<Event>, id: nat, invoice: nat)
    requires before <= after && GraceSent(before, id, invoice)
    ensures GraceSent(after, id, invoice)
  {}
}
