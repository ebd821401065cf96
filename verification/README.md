# Verified models of the hotspot billing backend

Dafny models of the backend's small protocols, planners, daily jobs and codecs, with proofs
of what they promise. One file models one source component; `Text.dfy`, `Calendar.dfy`,
`Redis.dfy`, `Options.dfy`, `Sequences.dfy` and `Vouchers.dfy` hold what several of them share.

| file | models |
|---|---|
| `Reconcile.dfy` | the reconciliation planner, the remediation of one router, and repeated rounds |
| `Uptime.dfy` | RouterOS durations |
| `Unreachable.dfy` | the unreachable-streak counter and the rows it writes |
| `DisconnectEvents.dfy` | disconnect events, their retries and the backstop |
| `OverlappingRetries.dfy` | one disconnect event under retry runs that overlap |
| `SessionClosing.dfy` | an ended voucher's session with all its closers at work together |
| `JobLock.dfy` | the TTL lock around cron jobs |
| `RateLimit.dfy`, `LoginLimits.dfy`, `FailOpenLog.dfy` | the two limiters and their fail-open accounting |
| `Billing.dfy`, `BillingRuns.dfy` | trial end, monthly invoicing, enforcement and what a payment undoes; runs of them |
| `Templating.dfy` | the template checker against the grammar of `str.format_map` |
| `Radius.dfy` | the RADIUS packets sent to routers, against RFC 2865 and RFC 5176 |
| `Retention.dfy` | calendar-month subtraction and the batched audit purge |
| `Subnet.dfy` | IPv4 subnet planning with JavaScript's 32-bit operators |
| `PinGate.dfy`, `PublicValues.dfy` | the two asynchronous protocols |
| `Gatekeepers.dfy` | portal, RADIUS, reconciliation and expiry job judging one voucher |

Many lemmas (those named with Exactly, Means or Bytes, and others beside them) say what an
operation comes to on the fields of the rows, with the source's numbers and texts written out and
without the functions its specification is built from.

Code that changes state is a class whose methods are proved equal to a pure step function;
the theorems are about all runs of that step function. Concurrency is interleaving: each
Redis command, each stretch between two awaits, and each clock tick is one step.

Where the code does not meet what its comments promise, the model keeps the code and the
project proves when it does:

- The template checks let one kind of name through on which `str.format_map` raises: one that
  starts with a decimal number beyond the largest index (`Templating.CheckedTemplateRenders`,
  `Templating.HugeNumberSlipsThrough`). `safe_format` catches it.
- `safe_format` says it never raises on bad placeholders or braces. Its own check lets a field
  nested in another's format specification through, as in `{a:{b}}`; the value of `b` is then a
  width, and one of thirteen digits makes `str.format_map` raise MemoryError, which is not caught
  (`Templating.NestedFieldGoesBeyond`). It does render whatever passes the brace check too
  (`Templating.SafeFormatRenders`), as saved templates do.
- One unreadable duration in a router's list can stop a whole reconciliation run, the removal of
  other clients included (`Reconcile.RunsConverge` has the exact guard,
  `Reconcile.UnreadableUptimeKeepsEveryoneOn` an instance).
- A duration beyond what `timedelta` holds raises (`Uptime.UptimeRoundTrip`).
- Placeholders are listed without the padding they are looked up with
  (`Templating.PaddedFieldsMiss`).
- `job_lock` says an overrunning run cannot delete a later run's lock; a key that lapses
  between the GET and the DELETE lets it (`JobLock.DeleteKeepsInvIff`,
  `JobLock.LapseBetweenGetAndDelete`).
- `months_before` is monotone on dates but not on instants (`Retention.MonthsBeforeMonotoneIff`),
  and two steps back compose exactly when `Retention.MonthsBeforeComposesIff` says.
- A disconnect event is to get three attempts two minutes apart. The retry job takes no lock, so
  that holds while its runs take turns; with m runs holding an event at once the most attempts are
  1 + m + m(m+1)/2, reached for every m, and the spacing is kept exactly when m is at most 1
  (`OverlappingRetries.AttemptsBound`, `BoundIsReached`, `SpacedIffAlone`).
- The backstop closes a session without asking whether it still is open, and can replace the
  end and the cause the router's own stop record gave (`SessionClosing.WhoRewrites` says exactly
  when, `SessionClosing.BackstopRewritesTheEnd` is an instance).
- A third reconciliation round can still close sessions that reached the grace period since
  the second (`Reconcile.ThirdRoundOnlyNewlyPhantom`); at one instant two rounds are enough.
- Moving the end of a finished trial can put an invoiced month back inside it
  (`BillingRuns.MovedTrialIsFreeIff`).
- The RADIUS query printed in README.md of the repository is older than the one in
  freeradius/sql.conf: it checks neither the operator nor the plan's owner nor the end of service
  (`Gatekeepers.PortalIsReadmeLessThree`).

## Model

| member | source | states |
|---|---|---|
| Reconcile.VouchersByName | backend/src/jobs/reconcile_hotspot.py:297-311 | a name on the router is in the map exactly when some row of the operator has it as its code or its username, and stands for the last such row |
| Reconcile.LookupIsTheLast | backend/src/jobs/reconcile_hotspot.py:297-311 | the specification finds nothing exactly when no row of the operator has the name as code or username, and otherwise the last row that has |
| Reconcile.PlanReconciliation | backend/src/jobs/reconcile_hotspot.py:121-161 | the loops fill each list with exactly the rows of its class, in order; there is no plan exactly when a duration that has to be read is malformed |
| Reconcile.PlanExactly | backend/src/jobs/reconcile_hotspot.py:121-161 | in terms of the rows: an entry is revoked when the voucher of its name is used up, expired, disabled, past its end or out of service; untracked when it is valid without an open session and two minutes or unreadably long online; unknown when no voucher has its name; and which sessions are phantoms |
| Reconcile.OfClassExact | backend/src/jobs/reconcile_hotspot.py:136-149 | a class list holds the active entries of the class and nothing else |
| Reconcile.OfClassInOrder | backend/src/jobs/reconcile_hotspot.py:136-149 | the lists keep the router's order |
| Reconcile.ClassesAddUp | backend/src/jobs/reconcile_hotspot.py:136-149 | each active entry falls in exactly one class: the lists, as multisets, add up to the router's |
| Reconcile.RevokedCookiesExact | backend/src/jobs/reconcile_hotspot.py:151-155 | exactly the cookies of known names with an invalid voucher are planned for removal |
| Reconcile.PhantomsExact | backend/src/jobs/reconcile_hotspot.py:157-159 | exactly the open sessions past the grace without a client on the router are phantoms |
| Reconcile.RoundRemovesExactlyTheInvalid | backend/src/jobs/reconcile_hotspot.py:332-387 | a run leaves no entry or cookie whose name is the code or username of a row of the operator, the last such, that is not valid, and removes no other, nor one of several alike; a run whose planning raises changes nothing |
| Reconcile.RevocableExactly | backend/src/jobs/reconcile_hotspot.py:101-155 | whom a run removes, on the rows: by code or username, by the last row of the name, by its status and its end and the end of the service |
| Reconcile.UnplannableExactly | backend/src/jobs/reconcile_hotspot.py:143-149 | what stops a run, on the rows: a valid client without an open session on this router whose duration cannot be read |
| Reconcile.RoundClosesExactly | backend/src/jobs/reconcile_hotspot.py:157-159 | a run closes exactly this router's open sessions begun over five minutes before whose name the router does not list, with its time and cause, and writes no other row |
| Reconcile.PlanningStaysAsItIs | backend/src/jobs/reconcile_hotspot.py:143-149 | while nothing lapses, a run after which planning would raise is one before which it would: neither is ever entered or left |
| Reconcile.SecondRoundClosesTheRest | backend/src/jobs/reconcile_hotspot.py:332-387 | while nothing lapses, a second run removes nothing more and leaves no open session past the grace whose client is off the router; where planning raises, both runs change nothing |
| Reconcile.ThirdRoundOnlyNewlyPhantom | backend/src/jobs/reconcile_hotspot.py:332-387 | a third run changes nothing, exactly unless planning works and a session reached the grace since the second |
| Reconcile.SettledIsAFixpoint | backend/src/jobs/reconcile_hotspot.py:332-387 | a run changes nothing exactly when planning raises or nothing is to be removed or closed |
| Reconcile.TwoRoundsConverge | backend/src/jobs/reconcile_hotspot.py:332-387 | after two runs at one instant a third changes nothing, and everything is settled exactly unless planning raises on an unsettled state |
| Reconcile.RunsConverge | backend/src/jobs/reconcile_hotspot.py:332-387 | over any number of runs while nothing lapses: nothing ever changes if planning raises on the first; otherwise exactly the clients and cookies of invalid vouchers go, and from the second run on every run ends settled |
| Reconcile.UnreadableUptimeKeepsEveryoneOn | backend/src/jobs/reconcile_hotspot.py:143-149 | one malformed duration of a valid, untracked client keeps a disabled voucher's client online on every run |
| Reconcile.OneRoundIsNotEnough | backend/src/jobs/reconcile_hotspot.py:355-387 | a client removed by the first round keeps its open session until the second |
| Reconcile.Job.RemoveAccess | backend/src/modules/mikrotik/api_service.py:1068-1078 | the loops over the printed rows leave a name none of its active entries and cookies and everyone else all of theirs, in order, and the counts are exact |
| Reconcile.Job.ClearCookies | backend/src/modules/mikrotik/api_service.py:1056-1066 | likewise for the cookies of a set of names |
| Reconcile.Job.RevokeAll | backend/src/jobs/reconcile_hotspot.py:373-375 | in whatever order the set is walked, exactly the rows of its names go and the counters rise by their number |
| Reconcile.Job.ReconcileRouter | backend/src/jobs/reconcile_hotspot.py:297-387 | a run raises exactly when some valid client without an open session shows an unreadable duration, and then changes nothing; otherwise the state becomes that of one round, the removal counters rise by what was removed and the session counter by the number of rows written |
| Reconcile.Job.CloseSessions | backend/src/jobs/reconcile_hotspot.py:380-385 | the guarded update by id closes exactly the planned sessions still open |
| Uptime.UptimeRoundTrip | backend/src/jobs/reconcile_hotspot.py:82-98 | the week/day/hour/minute/second text of a number of seconds reads back as it, through the left-to-right regex scan, below 86400 * 10^9; from there on reading it raises |
| Uptime.ClockRoundTrip | backend/src/jobs/reconcile_hotspot.py:90-94 | so does its hh:mm:ss text, with any number of hours, and raises from the same number on |
| Uptime.ClockReads | backend/src/jobs/reconcile_hotspot.py:90-94 | a clock text of any number of parts: minutes and seconds, or hours before them with the rest ignored; it raises exactly when int() refuses a part or timedelta the sum |
| Uptime.UnitsRead | backend/src/jobs/reconcile_hotspot.py:95-98 | a text without a colon: nothing when the scan finds nothing, else the sum, unless int() or timedelta refuses |
| Uptime.ScanReads | backend/src/jobs/reconcile_hotspot.py:78-95 | what the regex scan does with any text, one run of digits and the next character at a time |
| Unreachable.Recorder.BumpStreak | backend/src/jobs/reconcile_hotspot.py:175-186 | the counter rises by one and reads so for the next hour, and 0 after |
| Unreachable.Recorder.EndStreak | backend/src/jobs/reconcile_hotspot.py:189-200 | the streak so far is returned and reads as 0 from then on |
| Unreachable.Recorder.RecordRun | backend/src/jobs/reconcile_hotspot.py:215-259 | after any run the counter is the true streak of the run history at every later instant, and the rows are those the history calls for, with true lengths |
| Unreachable.StreakExactly | backend/src/jobs/reconcile_hotspot.py:175-200 | the streak is the longest stretch of unreachable runs that ends the history with less than an hour after each |
| Unreachable.RunWrites | backend/src/jobs/reconcile_hotspot.py:215-259 | what each run adds: the third of a streak one row, a refusal one, a run that gets through one when it ends a streak of three or more, with its length |
| Unreachable.OneRowPerStreak | backend/src/jobs/reconcile_hotspot.py:246-252 | between two "unreachable" rows a streak has ended |
| Unreachable.RecoveryAnswersARow | backend/src/jobs/reconcile_hotspot.py:256-259 | every recovery row follows an "unreachable" row with no recovery between |
| DisconnectEvents.EventsBehave | backend/src/jobs/coa_retry.py:13-53 | over any run of sends, disconnects by hand, retries and ticks: one to three attempts, more than two minutes apart, all refused but perhaps the last; and the row gives their number, the last time and how it ended |
| DisconnectEvents.SettledIsFinal | backend/src/jobs/coa_retry.py:18-28 | an acknowledged or given-up event never changes again |
| DisconnectEvents.RetriesRunOut | backend/src/jobs/coa_retry.py:30-61 | each handled row uses up exactly one of the remaining attempts, which never go below 0 |
| DisconnectEvents.RetryOrHoldOff | backend/src/jobs/check_exhausted_sessions.py:71-90 | when a failed event is retryable and when it holds the backstop off, and that it is neither exactly when given up or exactly two minutes old |
| DisconnectEvents.BackstopTakesOver | backend/src/jobs/check_exhausted_sessions.py:92-104 | in every reachable state, an open session of an ended voucher is selected exactly when each of the voucher's events is acknowledged (sent or confirmed), given up, or at least two minutes old |
| DisconnectEvents.Backstop.HandleViaApi | backend/src/jobs/check_exhausted_sessions.py:145-234 | a candidate's row is closed exactly when its client is off the router's list or was removed, and the cause says which; one whose removal failed keeps its row; the four counters rise by the numbers of candidates of each kind; without the list nothing is closed |
| DisconnectEvents.Backstop.HandleOne | backend/src/jobs/check_exhausted_sessions.py:171-234 | one turn: closed as lost when off the list, as disconnected when removed, else left open and counted as an error |
| DisconnectEvents.RetryJob.SendNew | backend/src/radius/coa_events.py:11-87 | a new event carries its first attempt: outcome, count 1 and the time |
| DisconnectEvents.RetryJob.SendByHand | backend/src/modules/mikrotik/routes.py:483-502 | a disconnect by hand leaves a confirmed event, or a failed one that counts as given up, and keeps every event's invariant |
| DisconnectEvents.RetryJob.RetryOne | backend/src/jobs/coa_retry.py:30-53 | one selected event gains one attempt, stamped with the run's time when its router or voucher is gone; the others keep theirs |
| DisconnectEvents.RetryJob.Run | backend/src/jobs/coa_retry.py:13-65 | with every send taking its own time, every retryable event is attempted once, in turn, stamped when its turn comes (or with the run's start when its router or voucher is gone); no other is touched, and the counters are the numbers selected, acknowledged and not |
| OverlappingRetries.AttemptsBound | backend/src/jobs/coa_retry.py:13-65 | in any interleaving of runs of which at most m hold the event at once, it is attempted at most 1 + m + m(m+1)/2 times, and once more for each run that never commits |
| OverlappingRetries.BoundIsReached | backend/src/jobs/coa_retry.py:13-65 | for every m some interleaving makes that many with no run lost: late commits lower the count again |
| OverlappingRetries.SpacedIffAlone | backend/src/jobs/coa_retry.py:15-28 | attempts are more than two minutes apart in every interleaving without lost runs exactly when m is at most 1 |
| OverlappingRetries.OneTurnIsARetry | backend/src/jobs/coa_retry.py:30-65 | one run from SELECT to commit gives the event one attempt, at the time of the send or, when its router or voucher is gone, of the SELECT, as the retry loop of DisconnectEvents does |
| OverlappingRetries.TakingTurns | backend/src/jobs/coa_retry.py:13-65 | with m = 1 and no run lost the committed row is an event of DisconnectEvents.EventsBehave |
| OverlappingRetries.AcknowledgedEnds | backend/src/jobs/coa_retry.py:20-28 | once an acknowledged attempt is committed the row stays sent, and only runs that hold the event and have not sent yet can still send |
| SessionClosing.ClosedMeansGone | backend/src/jobs/check_exhausted_sessions.py:171-234 | with disconnects, retries, stop records, watchdog, backstop and reconciliation interleaved in any way, a session of an ended voucher is closed with its client still on the router only by the watchdog |
| SessionClosing.TwoQuietMinutes | backend/src/jobs/check_exhausted_sessions.py:71-104 | two minutes without an attempt, whatever else happens, make the open session a candidate of the backstop |
| SessionClosing.BackstopSettles | backend/src/jobs/check_exhausted_sessions.py:145-234 | once the voucher's events are acknowledged, given up or two minutes old, a backstop run whose router answers leaves the client off and the row closed for good, whatever comes in between and after |
| SessionClosing.TwoReconciliationsSettle | backend/src/jobs/reconcile_hotspot.py:332-387 | so do two reconciliations whose router answers, the second begun past the grace, even when the watchdog had closed the row before |
| SessionClosing.RowIsFinal | backend/src/jobs/check_exhausted_sessions.py:92-104 | a row closed while no backstop run holds it changes no more, but by a stop record |
| SessionClosing.WhoRewrites | backend/src/jobs/check_exhausted_sessions.py:175-216 | a closed row is rewritten exactly by a stop record and by a backstop run that selected it while open and finds the client gone or removes it; never by reconciliation or the watchdog |
| SessionClosing.BackstopRewritesTheEnd | backend/src/jobs/check_exhausted_sessions.py:175-184 | six steps after which the end and cause from the router's record are overwritten |
| SessionClosing.WhatIsWritten | backend/src/jobs/check_exhausted_sessions.py:175-216 | the end and the cause each writer puts in an open row it closes |
| SessionClosing.ActIsHandleOne | backend/src/jobs/check_exhausted_sessions.py:171-234 | the backstop step is what DisconnectEvents.Backstop.HandleOne does to the row |
| SessionClosing.SweepIsARun | backend/src/jobs/reconcile_hotspot.py:332-387 | an uninterrupted reconciliation is a run of Reconcile.JobRound on a router with this one client |
| JobLock.MutualExclusion | backend/src/jobs/job_lock.py:48-60 | after any interleaving of runs, crashes and expiries whose deletes come in time, at most one run is in the body within its TTL |
| JobLock.TimelyDeleteIsOwn | backend/src/jobs/job_lock.py:56-58 | a delete that comes in time removes the run's own token |
| JobLock.WhoChangesTheKey | backend/src/jobs/job_lock.py:48-60 | only a winning SET or an owner's DELETE changes the key; a skipped run never does |
| JobLock.DeleteKeepsInvIff | backend/src/jobs/job_lock.py:56-58 | a DELETE leaves every run within its TTL owning the key exactly when it comes in time or nobody else holds the lock |
| JobLock.DeleteKeepsExclusionIff | backend/src/jobs/job_lock.py:48-60 | exactly then no continuation whose deletes come in time ever has two runs in the body, a holder already leaving included |
| JobLock.LateDeleteLetsTwoIn | backend/src/jobs/job_lock.py:56-58 | otherwise the next run enters beside the holder |
| JobLock.LapseBetweenGetAndDelete | backend/src/jobs/job_lock.py:56-58 | such a state is reached in five steps |
| JobLock.LockSelfHeals | backend/src/jobs/job_lock.py:49 | whatever crashed, once the TTL has run out the next run gets in |
| JobLock.LockLastsItsTtl | backend/src/jobs/job_lock.py:48-52 | a lock won and never released keeps others out for just its TTL |
| JobLock.GuardedJob.Enter | backend/src/jobs/job_lock.py:48-52 | the run is let in exactly when no live key exists, and then owns it for its TTL |
| JobLock.GuardedJob.ReadOwn | backend/src/jobs/job_lock.py:56-60 | a delete follows exactly when the live key is the run's own |
| JobLock.GuardedJob.Release | backend/src/jobs/job_lock.py:58 | a delete in time removes the run's own token, and nobody holds the lock after it; a late one takes whatever key there is |
| Redis.HitMeaning | backend/src/middleware/rate_limit.py:85-94 | a hit counts one, never extends a running window, and gives a counter left without an expiry one |
| RateLimit.TwiceTheLimit | backend/src/middleware/rate_limit.py:78-107 | whatever Redis holds, any stretch of one window admits at most twice the limit under a key |
| RateLimit.OneLessOnHalfOpen | backend/src/middleware/rate_limit.py:78-107 | with one end of the stretch left out, at most one less |
| RateLimit.KeysShared | backend/src/middleware/rate_limit.py:84 | in one bucket exactly the requests of one address share a counter; across buckets only names that run into each other at a colon |
| RateLimit.TwiceTheLimitIsReached | backend/src/middleware/rate_limit.py:78-107 | the bound is met |
| RateLimit.Limiter.LogFailOpen | backend/src/middleware/rate_limit.py:51-75 | a line is written exactly when none of its kind was in the last minute, carrying the count held back since |
| RateLimit.Limiter.Enforce | backend/src/middleware/rate_limit.py:78-107 | for addresses that are not local: rejected exactly when the counter of the bucket and address is at the limit and Redis answers; counted then, and on a fault either counted or not, but let through and logged; local addresses touch nothing |
| FailOpenLog.NoCallIsLost | backend/src/middleware/rate_limit.py:51-75 | per kind, over any calls: calls = lines + suppressed counts they report + count still pending |
| FailOpenLog.LinesAreSpaced | backend/src/middleware/rate_limit.py:51-58 | lines of one kind are at least a minute apart |
| FailOpenLog.EveryCallHasALine | backend/src/middleware/rate_limit.py:51-58 | every call has a line of its kind at that moment or within the minute before |
| LoginLimits.OnlyUnknownCodesCount | backend/src/portal/routes.py:577-582 | only an unknown code changes a counter |
| LoginLimits.WrongCodeBound | backend/src/portal/login_limits.py:190-230 | with at most k attempts on a counter between check and record, over any interleaving and any MACs, the IP and the device counter never pass limit - 1 + k |
| LoginLimits.KeysShared | backend/src/portal/login_limits.py:90-100 | failures are counted together for one address, for one operator, and for one MAC, or one address without a MAC |
| LoginLimits.AlertKeysShared | backend/src/portal/login_limits.py:249-251 | alerts are held back together for one kind and one operator |
| LoginLimits.AddressBound | backend/src/portal/login_limits.py:190-230 | with at most k attempts of one address in flight its counter never passes the site limit by more than k - 1 |
| LoginLimits.DeviceBound | backend/src/portal/login_limits.py:190-230 | and likewise for one device and the device limit |
| LoginLimits.RefusedForItsOwnFailures | backend/src/portal/login_limits.py:190-230 | after any run an attempt is refused only when its own device or its own address failed at least as often as its limit within the last fifteen minutes |
| LoginLimits.BoundIsReached | backend/src/portal/login_limits.py:190-230 | k attempts that check together at one below the limit reach that bound |
| LoginLimits.AlertsAnHourApart | backend/src/portal/login_limits.py:247-261 | over any run, alerts of one kind for one operator are at least an hour apart |
| LoginLimits.Limiter.Check | backend/src/portal/login_limits.py:190-213 | refused exactly when the device or the address is at its limit, the device reported first, the site only when the device is not |
| LoginLimits.Limiter.RecordFailure | backend/src/portal/login_limits.py:216-248 | each of the attempt's three counters rises by one, and the alerts due are those of the new counts |
| LoginLimits.Limiter.RaiseAlert | backend/src/portal/login_limits.py:249-261 | once an alert is sent, its key is taken at every instant of the next hour and free from then on, so no second call within the hour sends; no other key changes |
| LoginLimits.OwnerToldHourly | backend/src/portal/login_limits.py:321-323 | the owner is told at most once an hour, and no failed-open call is more than an hour after an alert |
| LoginLimits.FailOpen.Record | backend/src/portal/login_limits.py:306-325 | the globals always hold what the whole call history calls for: log lines, count held back and alerts |
| Billing.MonthOf | backend/src/jobs/invoice_generation.py:55-58 | the month whose 1st is no later than the instant and whose successor's 1st is later |
| Billing.YearsStart | backend/src/jobs/invoice_generation.py:55-58 | the months are those of the real calendar: each year begins where the Gregorian rule puts it |
| Billing.Jobs.HandleTrialExpiry | backend/src/jobs/trial_expiry.py:41-121 | the loop over the trial operators selected at the start leaves the state TrialExact and TrialWritesOnly describe, each operator judged alone |
| Billing.Jobs.GenerateMonthlyInvoices | backend/src/jobs/invoice_generation.py:50-120 | the loop leaves the state NewInvoicesExactly and InvoicesRecorded describe; the count is the number of new invoices, and the carried-forward list is the one CarriedExactly describes |
| Billing.Jobs.EnforceBilling | backend/src/jobs/billing_enforcement.py:35-160 | both loops, the second over what the first changed, leave the state EnforceExact, MarkRecords and SuspensionRecorded describe |
| Billing.TrialExact | backend/src/jobs/trial_expiry.py:55-104 | a run turns exactly the trials that are over into active billing, each with an event naming the month after the one it ended in, and leaves every trial 1 to 3 whole days from its end warned within the week |
| Billing.TrialWritesOnly | backend/src/jobs/trial_expiry.py:28-104 | it writes no other event: a trial end, or the only warning of the operator this week, with the whole days left |
| Billing.InvoicesExact | backend/src/jobs/invoice_generation.py:69-95 | a run adds one invoice for the month to each operator it should bill, in order, judged on the state before the run, and touches no other |
| Billing.BilledExactly | backend/src/jobs/invoice_generation.py:60-95 | who is billed, on the rows: active, trial ended before the month, no invoice in it but drafts, and at least GHS 1 owed in fee or SMS |
| Billing.NewInvoicesExactly | backend/src/jobs/invoice_generation.py:60-100 | each of them, and nobody else, gets one invoice, lowest id first: for the whole month, issued, due seven days after its last midnight |
| Billing.InvoicesRecorded | backend/src/jobs/invoice_generation.py:89-100 | one event for each new invoice and no other |
| Billing.CarriedExactly | backend/src/jobs/invoice_generation.py:74-87 | the list carried forward: everyone otherwise billed who owes something less than GHS 1 |
| Billing.InvoicedAfterRun | backend/src/jobs/invoice_generation.py:71-95 | an active operator has an invoice in the month afterwards exactly when it had one, or its trial, if any, ended before the month's first midnight and it owes at least GHS 1 in fee or SMS |
| Billing.MarkExact | backend/src/jobs/billing_enforcement.py:44-62 | exactly the issued invoices past due become overdue |
| Billing.MarkRecords | backend/src/jobs/billing_enforcement.py:63-80 | each of them gets its overdue event and has a grace event by then |
| Billing.EnforceExact | backend/src/jobs/billing_enforcement.py:104-130 | exactly the issued invoices past due become overdue, and exactly the approved operators with an unpaid invoice past due date plus grace are suspended: status, billing and the billing reason set, trial and fee unchanged |
| Billing.SuspensionRecorded | backend/src/jobs/billing_enforcement.py:104-145 | each suspension has its event, naming an invoice of that operator |
| Billing.PaymentLiftsExactly | backend/src/modules/billing/service.py:454-521 | a payment ends a suspension exactly when billing raised it; cancelled and paused billing stay |
| Billing.PaymentUndoesEnforcement | backend/src/modules/billing/service.py:490-553 | whoever enforcement suspends a payment brings back approved, active and without a reason; a suspension by hand survives both |
| Billing.Jobs.SettleInvoice | backend/src/modules/billing/service.py:524-553 | the invoice is paid, the operator is as PaymentLiftsExactly says, and whether a suspension was lifted is returned |
| BillingRuns.OneInvoiceAMonth | backend/src/jobs/invoice_generation.py:36-47 | over any run of jobs, payments and status changes no operator has two non-draft invoices for one calendar month, and every invoice is for one whole month and due seven days after its last midnight |
| BillingRuns.TrialsAreFree | backend/src/modules/billing/service.py:218-230 | while its trial end is not moved, every invoice is for a month that starts after the trial's end |
| BillingRuns.NoEarlySuspension | backend/src/jobs/billing_enforcement.py:104-130 | such an operator is suspended for billing only after the month after its trial's, six days and the grace period |
| BillingRuns.ExtensionCoversAnInvoicedMonth | backend/src/modules/platform/routes.py:1795-1799 | moving a finished trial's end can put an invoiced month inside it |
| BillingRuns.MovedTrialIsFreeIff | backend/src/modules/platform/routes.py:1795-1799 | it does not, exactly when every invoiced period starts on or after the new first invoice date |
| BillingRuns.OneWarningPerTrialEnd | backend/src/jobs/trial_expiry.py:28-89 | an operator is warned at most once more than its trial end was moved: once for a fixed end |
| BillingRuns.OneGraceEventPerInvoice | backend/src/jobs/billing_enforcement.py:24-32 | an invoice gets at most one grace event, however often it is paid, reversed and overdue again |
| BillingRuns.SuspensionsHaveCauses | backend/src/jobs/billing_enforcement.py:104-145 | every billing suspension ever recorded names an invoice of that operator past due date plus grace at the time |
| BillingRuns.AfterEnforce | backend/src/jobs/billing_enforcement.py:35-160 | afterwards nothing issued is past due and no operator with a lapsed invoice is still approved |
| BillingRuns.RunTwiceIsRunOnce | backend/src/jobs/worker.py:56-58 | each of the three jobs, run again at the same moment, changes nothing |
| BillingRuns.PaymentIsBetween | backend/src/modules/billing/service.py:524-553 | a payment is one of the changes all these runs allow |
| BillingRuns.ManualSuspensionStands | backend/src/modules/billing/service.py:490-498 | no sequence of jobs and payments ends a suspension imposed by hand or of unknown reason |
| Templating.BraceErrorExact | backend/src/utils/templating.py:43-48 | brace_error is false exactly for concatenations of brace-free text and {name} groups |
| Templating.RegexMovesOn | backend/src/utils/templating.py:27-40 | with PlaceholdersTakeField, all that the placeholder scan does with any text |
| Templating.PlaceholdersTakeField | backend/src/utils/templating.py:27-40 | a group at the front is one placeholder, and the scan goes on behind it |
| Templating.StripExactly | backend/src/utils/templating.py:38-40 | a name is listed without the white space at its ends, all of it and nothing else |
| Templating.FieldCheckExactly | backend/src/utils/templating.py:51-63 | the field check fails exactly when some name, stripped, is empty, all digits, or has one of . [ ! : in it |
| Templating.CheckedTemplateRenders | backend/src/utils/templating.py:51-63 | on a template both checks accept, format_map gives literals plus looked-up values or [key?]; it raises exactly when a name starts with a number beyond the largest index |
| Templating.FieldRenders | backend/src/utils/templating.py:31-36 | one accepted field renders to its value, or to its name in brackets with a question mark |
| Templating.FieldStops | backend/src/utils/templating.py:75-76 | a name followed by [ : or ! leaves the plain keys; one followed by another brace or by nothing raises |
| Templating.FieldEnds | backend/src/utils/templating.py:75-76 | an empty field and one of decimal digits raise, a name with a dot leaves the plain keys |
| Templating.FormatAround | backend/src/utils/templating.py:75-76 | text before a field stays, a doubled brace is one brace, a lone one raises |
| Templating.HugeNumberIsAccepted | backend/src/utils/templating.py:51-63 | every such digits-and-letter name passes both checks and raises |
| Templating.HugeNumberSlipsThrough | backend/src/utils/templating.py:51-63 | twenty nines and a letter are one |
| Templating.PaddedFieldsMiss | backend/src/utils/templating.py:38-40 | when every listed placeholder has a value, the fields shown as missing are exactly the padded ones |
| Templating.SafeFormatOnChecked | backend/src/utils/templating.py:66-83 | safe_format of a checked template is the substitution, else the fallback's, else the text as stored |
| Templating.SafeFormatSettles | backend/src/utils/templating.py:66-83 | which text safe_format renders: the fallback, or nothing, for one that fails the field check; the fallback, or the text as stored, for one that raises; a fallback that raises as it stands |
| Templating.FormatMapStops | backend/src/utils/templating.py:75-76 | format_map leaves the plain keys exactly when, before anything that raises, the scan meets a field that stops at [ : or !, or a name with a dot; it renders exactly when every piece does, whatever the values |
| Templating.CheckedIsNotBeyond | backend/src/utils/templating.py:51-63 | a text that passes the field check does so only if it fails the brace check |
| Templating.SafeFormatBeyondIff | backend/src/utils/templating.py:66-83 | for any text, values and fallback, when safe_format renders: unless the text it settles on, or the fallback after a raise, leaves the plain keys |
| Templating.SafeFormatRenders | backend/src/utils/templating.py:66-83 | it always renders a text that passes the brace check or fails the field check, with a fallback that passes both |
| Templating.NestedFieldGoesBeyond | backend/src/utils/templating.py:66-83 | the field check alone is not enough: a field nested in another's format specification passes it |
| Templating.EscapeIsPerCharacter | backend/src/utils/templating.py:86-96 | the five replacement passes are one pass over the characters |
| Templating.EscapeIs | backend/src/utils/templating.py:86-96 | the five entities, and that every value is escaped under its own key |
| Templating.UnescapeEscape | backend/src/utils/templating.py:86-96 | escaping loses nothing: decoding the entities gives the value back |
| Templating.MarkupComesFromTemplate | backend/src/utils/templating.py:86-96 | with escaped values every < > " ' of the output comes from the template's own text, and there are no more of them than in the template |
| Radius.WalkEncode | backend/src/radius/coa_sender.py:11-20 | walking encoded attributes gives them back |
| Radius.DisconnectRoundTrip | backend/src/radius/coa_sender.py:11-36 | a packet is built exactly for names up to 253 bytes and IPv4 addresses; it authenticates by section 2.3 of RFC 5176, its length field is its length, and it parses to just that name and address |
| Radius.DisconnectBytes | backend/src/radius/coa_sender.py:11-36 | the packet byte by byte, and the bytes its digest is taken over |
| Radius.WriteDigest | backend/src/radius/coa_sender.py:117-118 | sixteen bytes in place become the digest, the rest stay |
| Radius.WriteMac | backend/src/radius/coa_sender.py:110-120 | the walk ends, stays in bounds and overwrites exactly the value of the first attribute 80, whatever bytes come before |
| Radius.PatchFirstIs | backend/src/radius/coa_sender.py:110-120 | what the walk is specified by: the first attribute 80 gets the new value and nothing else changes |
| Radius.BuildReconnect | backend/src/radius/coa_sender.py:88-123 | for every name up to 253 bytes the packet parses to that name and the digest of the packet with a zeroed attribute 80 |
| Radius.ReconnectBytes | backend/src/radius/coa_sender.py:88-123 | the packet byte by byte |
| Radius.ReconnectAuthenticIff | backend/src/radius/coa_sender.py:88-123 | by section 2.3 of RFC 5176 the packet authenticates exactly when its random authenticator equals the digest of the patched packet with a zeroed one, and by section 3.4 its attribute 80 is valid exactly when the HMAC over the random authenticator equals the one over zeros |
| Retention.MonthsBeforeIsValid | backend/src/jobs/audit_retention.py:51-57 | there is a result exactly when it is not before year 1; it is so many months back, on the same day or the last of its month, at the same time |
| Retention.MonthsBeforeMonotoneOnDates | backend/src/jobs/audit_retention.py:51-57 | later dates never give earlier dates |
| Retention.MonthsBeforeMonotoneIff | backend/src/jobs/audit_retention.py:51-57 | with the time of day it is monotone except when both days are clamped and the times run the other way |
| Retention.ClampSwapsTwoMoments | backend/src/jobs/audit_retention.py:51-57 | 30 March 10:00 and 31 March 09:00 swap |
| Retention.MonthsBeforeComposesIff | backend/src/jobs/audit_retention.py:51-57 | two steps back equal one exactly when the month between does not clamp harder; always up to day 28 |
| Retention.CutoffIsPast | backend/src/jobs/audit_retention.py:60-64 | there is a cutoff exactly for 1 or more months that do not lead before year 1; it is that many calendar months ago, on the same day or the last of its month, and so in an earlier month |
| Retention.OrderIsOfTheClock | backend/src/jobs/audit_retention.py:51-57 | the order used in these statements is that of the calendar |
| Retention.AuditLog.OldestBatch | backend/src/jobs/audit_retention.py:38-48 | the picked rows are past the cutoff, none left is older, and there are as many as the limit allows |
| Retention.AuditLog.PurgeBatch | backend/src/jobs/audit_retention.py:67-81 | a batch goes, one row records its size when it is not empty, and nothing else changes |
| Retention.AuditLog.Purge | backend/src/jobs/audit_retention.py:84-101 | within 200 batches: oldest first, nothing within retention removed, total = rows removed = sum of the recorded counts, and nothing past retention left unless the budget ran out |
| Subnet.IpToIntLoop | frontend/src/pages/Routers.jsx:695-705 | the accumulating loop gives the four octets in base 256, or null when a part is no octet |
| Subnet.AddressRoundTrip | frontend/src/pages/Routers.jsx:695-708 | every 32-bit address survives being written and read |
| Subnet.AddressText | frontend/src/pages/Routers.jsx:706-708 | an address is written most significant byte first |
| Subnet.Block | frontend/src/pages/Routers.jsx:722-724 | masking with JavaScript's shifts cuts the addresses into blocks of 2^h, network and broadcast their ends, around the gateway |
| Subnet.PlanIsSound | frontend/src/pages/Routers.jsx:719-732 | network and broadcast are 2^(32-prefix) - 1 apart with the gateway strictly between; the pool is non-empty, strictly between them and after the gateway unless that is the last host; there is no plan exactly when the gateway is an end |
| Subnet.PlanInNumbers | frontend/src/pages/Routers.jsx:719-732 | for the prefixes 0 to 32, the plan in plain numbers: a block of 2^(32 - prefix) addresses beginning at a multiple of its size |
| Subnet.HostsAreInsideTheBlock | frontend/src/pages/Routers.jsx:692-694 | hostsInSubnet is the number of addresses strictly inside the planned block |
| Subnet.PlansNeedTwoHostBits | frontend/src/pages/Routers.jsx:719-732 | exactly the prefixes 31 and 32 have no plan for any gateway |
| Subnet.ShownPlanIsThePlan | frontend/src/pages/Routers.jsx:719-732 | a plan is shown exactly when the gateway is an address that has one; the addresses shown read back as those computed, and the hotspot network is the network address with the prefix |
| PinGate.StepKeepsInv | frontend/src/components/pinGate.js:11-51 | every interleaving keeps: each call running, parked, replaying or settled once; the parked call is the one shown, with the reason it was last refused for |
| PinGate.GateNeverLosesACall | frontend/src/components/pinGate.js:11-51 | no promise settles twice, a settled one carries its last execution's outcome, the reason is shown exactly when a call is parked, and in a quiet state with nothing parked every call has settled |
| PinGate.SettledIsFinal | frontend/src/components/pinGate.js:11-51 | a settled promise keeps its outcome whatever happens next |
| PinGate.ReplayReachesTheCaller | frontend/src/components/pinGate.js:35-48 | once unlocked, a parked call stays a replay through anything the other calls, cancels and unlocks do, and settles with its own next answer, or is parked again when that is another refusal |
| PinGate.ParkingGivesUpOnTheOther | frontend/src/components/pinGate.js:14-19 | a refused call becomes the only one waiting, with its reason shown; another that waited resolves with undefined, once; no other call is touched |
| PinGate.Gate.Continue | frontend/src/components/pinGate.js:21-26 | an answer settles the call or parks it, keeping the invariant |
| PinGate.Gate.CancelPrompt | frontend/src/components/pinGate.js:28-33 | the waiting call resolves with undefined and nothing is shown |
| PinGate.Gate.Unlock | frontend/src/components/pinGate.js:35-41 | the waiting call is replayed and nothing is shown |
| PublicValues.LoadsAreSpaced | backend/src/admin_portal/public_values.py:68-87 | in any interleaving loads never overlap, and the next starts at least 10 s after a failed one ended and 60 s after a good one |
| PublicValues.AnswersAreCurrent | backend/src/admin_portal/public_values.py:68-87 | a request gets the newest good load's value, nothing only when none ever succeeded, and one less than a minute old unless the last refresh failed |
| PublicValues.FailingMeans | backend/src/admin_portal/public_values.py:78-87 | what "the last refresh failed" means: the newest load that has ended gave nothing |
| PublicValues.OutagesLoggedOnce | backend/src/admin_portal/public_values.py:78-85 | each outage is logged once and each recovery once, alternately |
| PublicValues.Cache.Arrive | backend/src/admin_portal/public_values.py:70-71 | the check without the lock answers only with the newest good value |
| PublicValues.Cache.Enter | backend/src/admin_portal/public_values.py:72-77 | under the lock a load begins exactly when the value is not fresh |
| PublicValues.Cache.KeepOld | backend/src/admin_portal/public_values.py:78-83 | a failed load keeps the newest good value and puts the next off |
| PublicValues.Cache.TakeNew | backend/src/admin_portal/public_values.py:84-87 | a good load's value is answered and becomes the newest good one |
| Gatekeepers.PortalIsRadiusLessSellBy | backend/src/portal/routes.py:500-545 | on the operator's routers the portal accepts what the RADIUS query accepts under SQL NULL rules, less unused codes past their sell-by date |
| Gatekeepers.RadiusSelects | freeradius/sql.conf:30 | whom the query and the documented one select, with the NULLs of SQL worked out |
| Gatekeepers.PortalSaysWhy | backend/src/portal/routes.py:519-545 | which reason the portal gives, in terms of the rows |
| Gatekeepers.PortalIsReadmeLessThree | README.md:130-147 | against the documented query the portal also refuses for ended service and a foreign plan, and for nothing else |
| Gatekeepers.PortalPasswordIsRadiusPassword | freeradius/sql.conf:30 | the query answers the username and the code of a login the portal hands out with that voucher's row and no other |
| Gatekeepers.CrossedNamesConfuseRadius | backend/src/modules/vouchers/engine.py:218-247 | without the cross-check of codes and usernames the table's own constraints would let it answer with another row |
| Gatekeepers.KeyByCharacter | backend/src/modules/vouchers/engine.py:103-108 | a code is matched character by character |
| Gatekeepers.KeyOfOne | backend/src/modules/vouchers/engine.py:103-108 | ASCII letters count without case, ASCII digits count, nothing else does |
| Gatekeepers.GatekeepersAgree | backend/src/jobs/reconcile_hotspot.py:101-109 | a voucher the portal accepts is valid to reconciliation and selected by none of the three expiry queries |
| Gatekeepers.ValidButRefused | backend/src/portal/routes.py:519-544 | a valid voucher is refused exactly for its plan, its data or its sell-by date |
| Gatekeepers.ExpiryIsInvisible | backend/src/jobs/voucher_expiry.py:55-74 | an expiry run changes no portal answer, turns RADIUS's only for codes past their sell-by date, and leaves nothing for a second run |
| Gatekeepers.ExpiryWrites | backend/src/jobs/voucher_expiry.py:55-74 | what a run writes to a voucher, time before data before sell-by |
| Gatekeepers.ExpiryJob.Transition | backend/src/jobs/voucher_expiry.py:79-118 | exactly the selected rows not handled before change status, and are counted |
| Gatekeepers.ExpiryJob.Run | backend/src/jobs/voucher_expiry.py:49-161 | each voucher ends in the one state its limits call for; each count is the number of vouchers that went from one state to another, and together they are the vouchers changed |

## Left out

- Database sessions, Redis and RouterOS connections, sockets, SMS, email and HTTP: their results are parameters or abstract state.
- Faults in the middle of a run (a failing row, a rollback, a router call that fails during remediation) are not modelled, except where a fault is what the code is about: the limiters, the event outcomes and the cache.
- Cryptography: MD5 and HMAC are arbitrary functions to 16 bytes.
- Notifications, audit rows and log wording, except the counts and the log lines named above.
- Billing.Jobs.EnforceBilling: rows are taken in table order; which of several lapsed invoices a suspension event names depends on the database's order, and no result depends on it.
- Billing.Jobs.GenerateMonthlyInvoices: unbilled SMS usage is a parameter and invoice amounts are not modelled.
- Billing.Jobs.SettleInvoice: amounts, references, the reactivation notice and the checks of the two callers are not modelled.
- BillingRuns.OneInvoiceAMonth: what the platform does between runs is over-approximated (any operator row may change in any way, an invoice only in status, never to or from draft), not modelled route by route.
- Reconcile.Job.ReconcileRouter: KICK_UNTRACKED is a constant False in the source and only that case is modelled; dry_run and voucher_overrides are test hooks and are not; rounds on one router do not overlap, new logins between rounds are not modelled, and the counters of untracked and unknown entries, lengths of plan lists, are not kept.
- Reconcile.TwoRoundsConverge: a round's router calls are assumed to succeed.
- Uptime.UptimeRoundTrip: the other spellings Python's int() takes in a clock text (signs, spaces, underscores, non-ASCII digits) count as malformed here, and so raise.
- Unreachable.Recorder.RecordRun: Redis answers; without it the source counts nothing and writes a plain failure row each run.
- DisconnectEvents.EventsBehave: retry runs take turns, and an attempt is one step; the source commits a retry run's attempts together at its end, which OverlappingRetries.dfy models for one event.
- DisconnectEvents.RetryJob.Run: events sent by others while the run is going on are steps of the state machine, not of the method.
- OverlappingRetries.AttemptsBound: a run writes only the fields it changed, as the sessions of backend/src/db/base.py do; row locks only restrict the order of commits, and every order is allowed.
- SessionClosing.BackstopSettles: one session, one backstop run and one reconciliation at a time; the client of an ended voucher cannot log in again (Gatekeepers.dfy), a run's writes are seen at once, the watchdog may close an open row at any time, and the fallback without API credentials closes nothing and is not modelled.
- DisconnectEvents.Backstop.HandleViaApi: the CoA fallback for routers without credentials and the offline skip are not modelled.
- JobLock.MutualExclusion: tokens are unique, and the redis-less path, which runs unguarded, is not modelled.
- LoginLimits.WrongCodeBound: limits are constant over a run; the cache that refreshes them, the set of connections per operator and the daily statistics row are not modelled.
- LoginLimits.Limiter.Check: the waiting time quoted in the refusal is not modelled.
- PublicValues.AnswersAreCurrent: requests are not cancelled; what a load returns is one opaque value.
- Templating.CheckedTemplateRenders: white space, digits and decimal digits are tables with the few properties listed in CharTable; format specifications, conversions and attribute reach are one outcome, of which nothing more is claimed.
- Radius.BuildReconnect: the source gives a CoA-Request a random authenticator, where section 2.3 of RFC 5176 computes it as in a Disconnect-Request, so the packet authenticates only on the condition of Radius.ReconnectAuthenticIff; the socket and the response codes are not modelled.
- Subnet.IpToIntLoop: how Number() reads a part is a parameter; only that it reads plain decimal octets is used, for the round trips.
- Gatekeepers.ExpiryJob.Run: the disconnect each transition sends is modelled in DisconnectEvents.dfy; that a concurrent redemption can slip between the select and the update is not modelled.
- Gatekeepers.PortalPasswordIsRadiusPassword: the site gateway that resolves the operator, and the case rules RADIUS applies to names, are not part of this model.
- Role tables, schemas, pages, the check digit of numeric reseller codes, payment reconciliation and usage accounting: easy members, or resting on services that are not part of this model.
