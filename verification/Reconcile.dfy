/** Reconciling a router with the database (backend/src/jobs/reconcile_hotspot.py): the
    planner, the remediation of one router, and what repeated rounds come to. A round is
    one run of the job on one router; the router calls it makes succeed. Times are
    seconds on one clock. */
module Reconcile {
  import opened Options
  import Sequences
  import Text
  import opened Uptime
  import opened Vouchers

  const UNTRACKED_GRACE: nat := 120
  const PHANTOM_GRACE: int := 300

  datatype Entry = Entry(id: nat, user: Option<string>, uptime: Option<string>)

  datatype Cookie = Cookie(id: nat, user: Option<string>)

  datatype Session = Session(
    id: nat,
    router: nat,
    username: string,
    startedAt: int,
    stoppedAt: Option<int>,
    cause: string)

  /** What a round reads and does not change: which router it is for, and the operator's rows. */
  datatype Env = Env(router: nat, operator: nat, vouchers: seq<Voucher>, serviceEndsAt: Option<int>)

  datatype World = World(active: seq<Entry>, cookies: seq<Cookie>, sessions: seq<Session>)

  /** A name the router shows, or "" for a row without one. */
  function NameOf(user: Option<string>): string { if user.Some? then user.value else "" }

  // ---------------------------------------------------------------- the voucher of a name

  predicate ServiceEnded(env: Env, now: int) { env.serviceEndsAt.Some? && env.serviceEndsAt.value <= now }

  predicate VoucherIsValid(v: Voucher, now: int, serviceEnded: bool) {
    && !serviceEnded
    && (v.status.Unused? || v.status.Active?)
    && (v.expiresAt.None? || v.expiresAt.value > now)
  }

  /** The last of the operator's rows known by this name, by code or by username. */
  function Lookup(operator: nat, rows: seq<Voucher>, name: string): Option<Voucher> {
    if rows == [] then None
    else
      var v := rows[|rows| - 1];
      if v.operator == operator && (v.code == name || v.username == name) then Some(v)
      else Lookup(operator, rows[..|rows| - 1], name)
  }

  /** Nothing is found exactly when no row of the operator has the name as its code or its
      username; otherwise it is the last such row. */
  lemma {:induction false} LookupIsTheLast(operator: nat, rows: seq<Voucher>, name: string)
    ensures Lookup(operator, rows, name).None? <==>
            forall i | 0 <= i < |rows| && rows[i].operator == operator ::
              rows[i].code != name && rows[i].username != name
    ensures Lookup(operator, rows, name).Some? ==>
            exists i | 0 <= i < |rows| ::
              && Lookup(operator, rows, name).value == rows[i]
              && rows[i].operator == operator && (rows[i].code == name || rows[i].username == name)
              && forall j | i < j < |rows| && rows[j].operator == operator ::
                   rows[j].code != name && rows[j].username != name
    decreases |rows|
  {
    if rows != [] {
      var init, v := rows[..|rows| - 1], rows[|rows| - 1];
      LookupIsTheLast(operator, init, name);
      if v.operator == operator && (v.code == name || v.username == name) {
        assert rows[|rows| - 1] == v;
      } else if Lookup(operator, init, name).Some? {
        var i :| 0 <= i < |init| && Lookup(operator, init, name).value == init[i]
                 && init[i].operator == operator && (init[i].code == name || init[i].username == name)
                 && forall j | i < j < |init| && init[j].operator == operator ::
                      init[j].code != name && init[j].username != name;
        assert rows[i] == init[i];
        forall j | i < j < |rows| && rows[j].operator == operator
          ensures rows[j].code != name && rows[j].username != name
        {
          if j < |init| { assert rows[j] == init[j]; }
        }
      } else {
        forall i | 0 <= i < |rows| && rows[i].operator == operator
          ensures rows[i].code != name && rows[i].username != name
        {
          if i < |init| { assert rows[i] == init[i]; }
        }
      }
    }
  }

  /** vouchers_by_name: every name on the router that is the code or the username of a row of
      the operator, with the last such row. */
  method VouchersByName(env: Env, names: set<string>) returns (byName: map<string, Voucher>)
    ensures forall n :: n in byName <==>
              n in names && exists i | 0 <= i < |env.vouchers| ::
                env.vouchers[i].operator == env.operator
                && (env.vouchers[i].code == n || env.vouchers[i].username == n)
    ensures forall n <- byName.Keys :: exists i | 0 <= i < |env.vouchers| ::
              && byName[n] == env.vouchers[i] && env.vouchers[i].operator == env.operator
              && (env.vouchers[i].code == n || env.vouchers[i].username == n)
              && forall j | i < j < |env.vouchers| && env.vouchers[j].operator == env.operator ::
                   env.vouchers[j].code != n && env.vouchers[j].username != n
    ensures forall n :: n in byName <==> n in names && Lookup(env.operator, env.vouchers, n).Some?
    ensures forall n <- byName.Keys :: Some(byName[n]) == Lookup(env.operator, env.vouchers, n)
  {
    byName := map[];
    for i := 0 to |env.vouchers|
      invariant forall n :: n in byName <==> n in names && Lookup(env.operator, env.vouchers[..i], n).Some?
      invariant forall n <- byName.Keys :: Some(byName[n]) == Lookup(env.operator, env.vouchers[..i], n)
    {
      var v := env.vouchers[i];
      assert env.vouchers[..i + 1][..i] == env.vouchers[..i];
      if v.operator == env.operator && (v.code in names || v.username in names) {
        if v.code in names { byName := byName[v.code := v]; }
        if v.username in names { byName := byName[v.username := v]; }
      }
    }
    assert env.vouchers[..|env.vouchers|] == env.vouchers;
    forall n { LookupIsTheLast(env.operator, env.vouchers, n); }
  }

  // -------------------------------------------------------------------- the planner

  datatype Context = Context(byName: map<string, Voucher>, openNames: set<string>, activeNames: set<string>,
                             now: int, serviceEnded: bool)

  /** Quiet: a valid voucher with an open session, or online too briefly to tell. */
  datatype Class = Nameless | Unknown | Revoked | Untracked | Quiet | Malformed

  function Classify(c: Context, e: Entry): Class {
    var name := NameOf(e.user);
    if name == "" then Nameless
    else if name !in c.byName then Unknown
    else if !VoucherIsValid(c.byName[name], c.now, c.serviceEnded) then Revoked
    else if name in c.openNames then Quiet
    else
      match ParseUptime(e.uptime)
      case NoDuration => Untracked
      case Seconds(n) => if n >= UNTRACKED_GRACE then Untracked else Quiet
      case Raises => Malformed
  }

  predicate RevokesCookie(c: Context, k: Cookie) {
    k.user.Some? && k.user.value in c.byName && !VoucherIsValid(c.byName[k.user.value], c.now, c.serviceEnded)
  }

  predicate IsPhantom(c: Context, s: Session) {
    s.username !in c.activeNames && s.startedAt < c.now - PHANTOM_GRACE
  }

  function OfClass(c: Context, es: seq<Entry>, class_: Class): seq<Entry> {
    if es == [] then []
    else
      var last := es[|es| - 1];
      OfClass(c, es[..|es| - 1], class_) + if Classify(c, last) == class_ then [last] else []
  }

  function RevokedCookies(c: Context, ks: seq<Cookie>): seq<Cookie> {
    if ks == [] then []
    else
      var last := ks[|ks| - 1];
      RevokedCookies(c, ks[..|ks| - 1]) + if RevokesCookie(c, last) then [last] else []
  }

  function Phantoms(c: Context, ss: seq<Session>): seq<Session> {
    if ss == [] then []
    else
      var last := ss[|ss| - 1];
      Phantoms(c, ss[..|ss| - 1]) + if IsPhantom(c, last) then [last] else []
  }

  datatype Plan = Plan(revokedOnline: seq<Entry>, revokedCookie: seq<Cookie>, untrackedOnline: seq<Entry>,
                       unknownOnline: seq<Entry>, phantomSession: seq<Session>)

  function PlanFor(c: Context, active: seq<Entry>, cookies: seq<Cookie>, open: seq<Session>): Plan {
    Plan(OfClass(c, active, Revoked), RevokedCookies(c, cookies), OfClass(c, active, Untracked),
         OfClass(c, active, Unknown), Phantoms(c, open))
  }

  function SessionNames(ss: seq<Session>): set<string> { set s <- ss :: s.username }

  function ActiveNames(es: seq<Entry>): set<string> { set e <- es | NameOf(e.user) != "" :: NameOf(e.user) }

  function ContextOf(byName: map<string, Voucher>, active: seq<Entry>, open: seq<Session>, now: int,
                     ended: bool): Context
  {
    Context(byName, SessionNames(open), ActiveNames(active), now, ended)
  }

  /** The loop over the active entries; None when a duration it has to read is malformed. */
  method PlanActive(active: seq<Entry>, c: Context) returns (lists: Option<(seq<Entry>, seq<Entry>, seq<Entry>)>)
    ensures lists ==
            if OfClass(c, active, Malformed) != [] then None
            else Some((OfClass(c, active, Revoked), OfClass(c, active, Untracked), OfClass(c, active, Unknown)))
  {
    hide VoucherIsValid, ParseUptime;
    var revoked, untracked, unknown: seq<Entry> := [], [], [];
    for i := 0 to |active|
      invariant revoked == OfClass(c, active[..i], Revoked)
      invariant untracked == OfClass(c, active[..i], Untracked)
      invariant unknown == OfClass(c, active[..i], Unknown)
      invariant OfClass(c, active[..i], Malformed) == []
    {
      var entry := active[i];
      assert active[..i + 1][..i] == active[..i];
      var name := NameOf(entry.user);
      if name == "" { continue; }
      if name !in c.byName {
        unknown := unknown + [entry];
        continue;
      }
      if !VoucherIsValid(c.byName[name], c.now, c.serviceEnded) {
        revoked := revoked + [entry];
      } else if name !in c.openNames {
        var uptime := ParseUptime(entry.uptime);
        if uptime.Raises? {
          MalformedStays(c, active, i);
          return None;
        }
        if uptime.NoDuration? || uptime.n >= UNTRACKED_GRACE {
          untracked := untracked + [entry];
        }
      }
    }
    assert active[..|active|] == active;
    return Some((revoked, untracked, unknown));
  }

  method PlanCookies(cookies: seq<Cookie>, c: Context) returns (revoked: seq<Cookie>)
    ensures revoked == RevokedCookies(c, cookies)
  {
    revoked := [];
    for i := 0 to |cookies|
      invariant revoked == RevokedCookies(c, cookies[..i])
    {
      assert cookies[..i + 1][..i] == cookies[..i];
      var user := cookies[i].user;
      if user.Some? && user.value in c.byName && !VoucherIsValid(c.byName[user.value], c.now, c.serviceEnded) {
        revoked := revoked + [cookies[i]];
      }
    }
    assert cookies[..|cookies|] == cookies;
  }

  method PlanSessions(open: seq<Session>, c: Context) returns (phantoms: seq<Session>)
    ensures phantoms == Phantoms(c, open)
  {
    phantoms := [];
    for i := 0 to |open|
      invariant phantoms == Phantoms(c, open[..i])
    {
      assert open[..i + 1][..i] == open[..i];
      if open[i].username !in c.activeNames && open[i].startedAt < c.now - PHANTOM_GRACE {
        phantoms := phantoms + [open[i]];
      }
    }
    assert open[..|open|] == open;
  }

  /** plan_reconciliation. No plan when a duration it has to read is malformed: then the
      whole call raises. */
  method PlanReconciliation(active: seq<Entry>, cookies: seq<Cookie>, byName: map<string, Voucher>,
                            open: seq<Session>, now: int, serviceEnded: bool) returns (plan: Option<Plan>)
    ensures var c := ContextOf(byName, active, open, now, serviceEnded);
            plan == if OfClass(c, active, Malformed) != [] then None else Some(PlanFor(c, active, cookies, open))
  {
    var c := ContextOf(byName, active, open, now, serviceEnded);
    var lists := PlanActive(active, c);
    if lists.None? { return None; }
    var revokedCookie := PlanCookies(cookies, c);
    var phantoms := PlanSessions(open, c);
    return Some(Plan(lists.value.0, revokedCookie, lists.value.1, lists.value.2, phantoms));
  }

  lemma {:induction false} MalformedStays(c: Context, active: seq<Entry>, i: nat)
    requires i < |active| && Classify(c, active[i]) == Malformed
    ensures OfClass(c, active, Malformed) != []
    decreases |active|
  {
    if i < |active| - 1 { MalformedStays(c, active[..|active| - 1], i); }
  }

  lemma {:induction false} OfClassExact(c: Context, es: seq<Entry>, class_: Class)
    ensures forall e :: e in OfClass(c, es, class_) <==> e in es && Classify(c, e) == class_
    decreases |es|
  {
    if es != [] {
      var init := es[..|es| - 1];
      OfClassExact(c, init, class_);
      assert es == init + [es[|es| - 1]];
    }
  }

  /** And it keeps the router's order. */
  lemma {:induction false} OfClassInOrder(c: Context, a: seq<Entry>, b: seq<Entry>, class_: Class)
    ensures OfClass(c, a + b, class_) == OfClass(c, a, class_) + OfClass(c, b, class_)
    decreases |b|
  {
    hide Classify;
    if b == [] {
      assert a + b == a;
    } else {
      var n := |b| - 1;
      assert (a + b)[..|a + b| - 1] == a + b[..n];
      OfClassInOrder(c, a, b[..n], class_);
    }
  }

  lemma {:induction false} RevokedCookiesExact(c: Context, ks: seq<Cookie>)
    ensures forall k :: k in RevokedCookies(c, ks) <==> k in ks && RevokesCookie(c, k)
    decreases |ks|
  {
    if ks != [] {
      RevokedCookiesExact(c, ks[..|ks| - 1]);
      assert ks == ks[..|ks| - 1] + [ks[|ks| - 1]];
    }
  }

  lemma {:induction false} PhantomsExact(c: Context, ss: seq<Session>)
    ensures forall s :: s in Phantoms(c, ss) <==> s in ss && IsPhantom(c, s)
    decreases |ss|
  {
    if ss != [] {
      PhantomsExact(c, ss[..|ss| - 1]);
      assert ss == ss[..|ss| - 1] + [ss[|ss| - 1]];
    }
  }

  lemma {:induction false} OfClassMultiplicity(c: Context, es: seq<Entry>, class_: Class, e: Entry)
    ensures multiset(OfClass(c, es, class_))[e] == if Classify(c, e) == class_ then multiset(es)[e] else 0
    decreases |es|
  {
    hide Classify;
    if es != [] {
      var init, last := es[..|es| - 1], es[|es| - 1];
      OfClassMultiplicity(c, init, class_, e);
      assert es == init + [last];
      assert multiset(es)[e] == multiset(init)[e] + if last == e then 1 else 0;
    }
  }

  /** The plan on the rows themselves. There is none exactly when a known, valid voucher's client
      has no open session and a malformed duration; else an entry is revoked when its voucher is
      not valid, untracked when it is valid without an open session and two minutes or
      unreadably long online, unknown when no voucher has its name. */
  lemma PlanExactly(byName: map<string, Voucher>, active: seq<Entry>, cookies: seq<Cookie>, open: seq<Session>,
                    now: int, ended: bool)
    ensures var c := ContextOf(byName, active, open, now, ended);
            var plan := PlanFor(c, active, cookies, open);
            && (OfClass(c, active, Malformed) != [] <==>
                exists e <- active ::
                  && e.user.Some? && e.user.value != "" && e.user.value in byName && !ended
                  && (byName[e.user.value].status.Unused? || byName[e.user.value].status.Active?)
                  && (byName[e.user.value].expiresAt.Some? ==> now < byName[e.user.value].expiresAt.value)
                  && (forall s <- open :: s.username != e.user.value)
                  && ParseUptime(e.uptime).Raises?)
            && (forall e :: e in plan.revokedOnline <==>
                  && e in active && e.user.Some? && e.user.value != "" && e.user.value in byName
                  && (|| ended || byName[e.user.value].status in {Exhausted, Expired, Disabled}
                      || (byName[e.user.value].expiresAt.Some? && byName[e.user.value].expiresAt.value <= now)))
            && (forall k :: k in plan.revokedCookie <==>
                  && k in cookies && k.user.Some? && k.user.value in byName
                  && (|| ended || byName[k.user.value].status in {Exhausted, Expired, Disabled}
                      || (byName[k.user.value].expiresAt.Some? && byName[k.user.value].expiresAt.value <= now)))
            && (forall e :: e in plan.untrackedOnline <==>
                  && e in active && e.user.Some? && e.user.value != "" && e.user.value in byName && !ended
                  && (byName[e.user.value].status.Unused? || byName[e.user.value].status.Active?)
                  && (byName[e.user.value].expiresAt.Some? ==> now < byName[e.user.value].expiresAt.value)
                  && (forall s <- open :: s.username != e.user.value)
                  && (ParseUptime(e.uptime).NoDuration?
                      || (ParseUptime(e.uptime).Seconds? && ParseUptime(e.uptime).n >= 120)))
            && (forall e :: e in plan.unknownOnline <==>
                  e in active && e.user.Some? && e.user.value != "" && e.user.value !in byName)
            && (forall s :: s in plan.phantomSession <==>
                  && s in open && s.startedAt < now - 300
                  && (s.username == "" || forall e <- active :: e.user != Some(s.username)))
  {
    var c := ContextOf(byName, active, open, now, ended);
    hide ParseUptime, OfClass, RevokedCookies, Phantoms;
    OfClassExact(c, active, Malformed); OfClassExact(c, active, Revoked);
    OfClassExact(c, active, Untracked); OfClassExact(c, active, Unknown);
    RevokedCookiesExact(c, cookies); PhantomsExact(c, open);
    NotEmpty(OfClass(c, active, Malformed));
  }

  lemma NotEmpty<T>(xs: seq<T>)
    ensures xs != [] <==> exists x :: x in xs
  {
    if xs != [] { assert xs[0] in xs; }
  }

  /** Every active entry is in exactly one class, so the plan's lists share no entry and
      with the entries left alone they add up to the router's. */
  lemma ClassesAddUp(c: Context, es: seq<Entry>)
    ensures multiset(es) ==
            multiset(OfClass(c, es, Nameless)) + multiset(OfClass(c, es, Unknown))
            + multiset(OfClass(c, es, Revoked)) + multiset(OfClass(c, es, Untracked))
            + multiset(OfClass(c, es, Quiet)) + multiset(OfClass(c, es, Malformed))
  {
    hide OfClass, Classify;
    var all := multiset(OfClass(c, es, Nameless)) + multiset(OfClass(c, es, Unknown))
               + multiset(OfClass(c, es, Revoked)) + multiset(OfClass(c, es, Untracked))
               + multiset(OfClass(c, es, Quiet)) + multiset(OfClass(c, es, Malformed));
    forall e ensures all[e] == multiset(es)[e] {
      OfClassMultiplicity(c, es, Nameless, e); OfClassMultiplicity(c, es, Unknown, e);
      OfClassMultiplicity(c, es, Revoked, e); OfClassMultiplicity(c, es, Untracked, e);
      OfClassMultiplicity(c, es, Quiet, e); OfClassMultiplicity(c, es, Malformed, e);
    }
  }

  // ------------------------------------------------------------- one applied round

  /** This router user's voucher exists and is not valid: what a round removes. */
  predicate Revocable(env: Env, now: int, user: Option<string>) {
    var v := Lookup(env.operator, env.vouchers, NameOf(user));
    NameOf(user) != "" && v.Some? && !VoucherIsValid(v.value, now, ServiceEnded(env, now))
  }

  function KeptActive(env: Env, now: int, es: seq<Entry>): seq<Entry> {
    if es == [] then []
    else
      (if Revocable(env, now, es[0].user) then [] else [es[0]]) + KeptActive(env, now, es[1..])
  }

  function KeptCookies(env: Env, now: int, ks: seq<Cookie>): seq<Cookie> {
    if ks == [] then []
    else
      (if Revocable(env, now, ks[0].user) then [] else [ks[0]]) + KeptCookies(env, now, ks[1..])
  }

  predicate IsOpen(env: Env, s: Session) { s.router == env.router && s.stoppedAt.None? }

  /** An open session of this router past the grace whose client the router does not list. */
  predicate Closes(env: Env, now: int, listed: set<string>, s: Session) {
    IsOpen(env, s) && s.username !in listed && s.startedAt < now - PHANTOM_GRACE
  }

  function Closed(s: Session, now: int): Session { s.(stoppedAt := Some(now), cause := "reconcile-not-on-router") }

  function CloseAll(env: Env, now: int, listed: set<string>, ss: seq<Session>): (r: seq<Session>)
    ensures |r| == |ss|
    ensures forall i | 0 <= i < |ss| :: r[i] == if Closes(env, now, listed, ss[i]) then Closed(ss[i], now) else ss[i]
  {
    seq(|ss|, i requires 0 <= i < |ss| => if Closes(env, now, listed, ss[i]) then Closed(ss[i], now) else ss[i])
  }

  function Round(env: Env, now: int, w: World): World {
    World(KeptActive(env, now, w.active), KeptCookies(env, now, w.cookies),
          CloseAll(env, now, ActiveNames(w.active), w.sessions))
  }

  function OpenNames(env: Env, ss: seq<Session>): set<string> { set s <- ss | IsOpen(env, s) :: s.username }

  /** A valid voucher's client without an open session, whose duration cannot be read. */
  predicate Unreadable(env: Env, now: int, openNames: set<string>, e: Entry) {
    var v := Lookup(env.operator, env.vouchers, NameOf(e.user));
    && NameOf(e.user) != "" && v.Some? && VoucherIsValid(v.value, now, ServiceEnded(env, now))
    && NameOf(e.user) !in openNames
    && ParseUptime(e.uptime).Raises?
  }

  /** Planning raises, so the whole run does, before anything is removed. */
  predicate Unplannable(env: Env, now: int, w: World) {
    exists e <- w.active :: Unreadable(env, now, OpenNames(env, w.sessions), e)
  }

  /** One run of the job: a round, or nothing at all. */
  function JobRound(env: Env, now: int, w: World): World {
    if Unplannable(env, now, w) then w else Round(env, now, w)
  }

  /** Nothing for a round to remove or close. */
  predicate Settled(env: Env, now: int, w: World) {
    && (forall e <- w.active :: !Revocable(env, now, e.user))
    && (forall k <- w.cookies :: !Revocable(env, now, k.user))
    && (forall s <- w.sessions :: !Closes(env, now, ActiveNames(w.active), s))
  }

  lemma {:induction false} KeptActiveExact(env: Env, now: int, es: seq<Entry>)
    ensures forall e :: e in KeptActive(env, now, es) <==> e in es && !Revocable(env, now, e.user)
    ensures multiset(KeptActive(env, now, es)) <= multiset(es)
    ensures (forall e <- es :: !Revocable(env, now, e.user)) ==> KeptActive(env, now, es) == es
  {
    if es != [] {
      KeptActiveExact(env, now, es[1..]);
      assert es == [es[0]] + es[1..];
    }
  }

  lemma {:induction false} KeptCookiesExact(env: Env, now: int, ks: seq<Cookie>)
    ensures forall k :: k in KeptCookies(env, now, ks) <==> k in ks && !Revocable(env, now, k.user)
    ensures multiset(KeptCookies(env, now, ks)) <= multiset(ks)
    ensures (forall k <- ks :: !Revocable(env, now, k.user)) ==> KeptCookies(env, now, ks) == ks
  {
    if ks != [] {
      KeptCookiesExact(env, now, ks[1..]);
      assert ks == [ks[0]] + ks[1..];
    }
  }

  /** Whom a round takes off the router, on the rows themselves: a name that is the code or the
      username of a row of the operator, the last such row being used up, expired, disabled or
      past its end, or the operator's service having ended. */
  lemma RevocableExactly(env: Env, now: int, user: Option<string>)
    ensures Revocable(env, now, user) <==>
            && user.Some? && user.value != ""
            && exists i | 0 <= i < |env.vouchers| ::
                 && env.vouchers[i].operator == env.operator
                 && (env.vouchers[i].code == user.value || env.vouchers[i].username == user.value)
                 && (forall j | i < j < |env.vouchers| && env.vouchers[j].operator == env.operator ::
                       env.vouchers[j].code != user.value && env.vouchers[j].username != user.value)
                 && (|| env.vouchers[i].status in {Exhausted, Expired, Disabled}
                     || (env.vouchers[i].expiresAt.Some? && env.vouchers[i].expiresAt.value <= now)
                     || (env.serviceEndsAt.Some? && env.serviceEndsAt.value <= now))
  {
    hide Lookup, VoucherIsValid, IsLast;
    RevocableAt(env, now, user);
    if Revocable(env, now, user) {
      var i :| 0 <= i < |env.vouchers| && IsLast(env.operator, env.vouchers, user.value, i)
               && !VoucherIsValid(env.vouchers[i], now, ServiceEnded(env, now));
      LastMeans(env.operator, env.vouchers, user.value, i);
      Verdicts(env.vouchers[i], now, ServiceEnded(env, now));
    } else if user.Some? && user.value != "" {
      forall i | 0 <= i < |env.vouchers| && IsLast(env.operator, env.vouchers, user.value, i)
        ensures !(|| env.vouchers[i].status in {Exhausted, Expired, Disabled}
                  || (env.vouchers[i].expiresAt.Some? && env.vouchers[i].expiresAt.value <= now)
                  || (env.serviceEndsAt.Some? && env.serviceEndsAt.value <= now))
      {
        Verdicts(env.vouchers[i], now, ServiceEnded(env, now));
      }
      forall i | 0 <= i < |env.vouchers|
                 && env.vouchers[i].operator == env.operator
                 && (env.vouchers[i].code == user.value || env.vouchers[i].username == user.value)
                 && forall j | i < j < |env.vouchers| && env.vouchers[j].operator == env.operator ::
                      env.vouchers[j].code != user.value && env.vouchers[j].username != user.value
        ensures IsLast(env.operator, env.vouchers, user.value, i)
      {
        LastMeans(env.operator, env.vouchers, user.value, i);
      }
    }
  }

  /** The last row of the operator with this name. */
  predicate IsLast(operator: nat, rows: seq<Voucher>, name: string, i: int) {
    && 0 <= i < |rows| && rows[i].operator == operator && (rows[i].code == name || rows[i].username == name)
    && forall j | i < j < |rows| && rows[j].operator == operator :: rows[j].code != name && rows[j].username != name
  }

  lemma LastMeans(operator: nat, rows: seq<Voucher>, name: string, i: int)
    ensures IsLast(operator, rows, name, i) <==>
            && 0 <= i < |rows| && rows[i].operator == operator && (rows[i].code == name || rows[i].username == name)
            && forall j | i < j < |rows| && rows[j].operator == operator ::
                 rows[j].code != name && rows[j].username != name
  {}

  lemma OnlyOneLast(operator: nat, rows: seq<Voucher>, name: string, i: int, j: int)
    requires IsLast(operator, rows, name, i) && IsLast(operator, rows, name, j)
    ensures i == j
  {}

  lemma LookupIsLast(operator: nat, rows: seq<Voucher>, name: string)
    ensures Lookup(operator, rows, name).None? ==> forall i :: !IsLast(operator, rows, name, i)
    ensures Lookup(operator, rows, name).Some? ==>
            exists i :: 0 <= i < |rows| && IsLast(operator, rows, name, i)
                        && rows[i] == Lookup(operator, rows, name).value
  {
    LookupIsTheLast(operator, rows, name);
    hide Lookup;
    if Lookup(operator, rows, name).Some? {
      var i :| 0 <= i < |rows| && Lookup(operator, rows, name).value == rows[i]
               && rows[i].operator == operator && (rows[i].code == name || rows[i].username == name)
               && forall j | i < j < |rows| && rows[j].operator == operator ::
                    rows[j].code != name && rows[j].username != name;
      assert IsLast(operator, rows, name, i);
    }
  }

  lemma NamedAt(operator: nat, rows: seq<Voucher>, name: string, i: int)
    requires IsLast(operator, rows, name, i)
    ensures 0 <= i < |rows| && Lookup(operator, rows, name) == Some(rows[i])
  {
    hide Lookup;
    LookupIsLast(operator, rows, name);
    var j :| 0 <= j < |rows| && IsLast(operator, rows, name, j) && rows[j] == Lookup(operator, rows, name).value;
    OnlyOneLast(operator, rows, name, i, j);
  }

  lemma RevocableAt(env: Env, now: int, user: Option<string>)
    ensures Revocable(env, now, user) <==>
            user.Some? && user.value != ""
            && exists i :: 0 <= i < |env.vouchers| && IsLast(env.operator, env.vouchers, user.value, i)
                           && !VoucherIsValid(env.vouchers[i], now, ServiceEnded(env, now))
  {
    hide Lookup, VoucherIsValid, IsLast;
    if user.Some? && user.value != "" {
      LookupIsLast(env.operator, env.vouchers, user.value);
      forall i | 0 <= i < |env.vouchers| && IsLast(env.operator, env.vouchers, user.value, i)
        ensures Lookup(env.operator, env.vouchers, user.value) == Some(env.vouchers[i])
      {
        NamedAt(env.operator, env.vouchers, user.value, i);
      }
    }
  }

  /** A voucher is valid or it is used up, expired, disabled, past its end or out of service. */
  lemma Verdicts(v: Voucher, now: int, ended: bool)
    ensures !VoucherIsValid(v, now, ended) <==>
            || v.status in {Exhausted, Expired, Disabled} || (v.expiresAt.Some? && v.expiresAt.value <= now) || ended
  {}

  /** What stops a run, on the rows themselves: a client named by a valid row, the last of its
      name, that has no open session on this router and a duration that cannot be read. */
  lemma UnplannableExactly(env: Env, now: int, w: World)
    ensures Unplannable(env, now, w) <==>
            exists e <- w.active, i | 0 <= i < |env.vouchers| ::
              && e.user.Some? && e.user.value != "" && ParseUptime(e.uptime).Raises?
              && env.vouchers[i].operator == env.operator
              && (env.vouchers[i].code == e.user.value || env.vouchers[i].username == e.user.value)
              && (forall j | i < j < |env.vouchers| && env.vouchers[j].operator == env.operator ::
                    env.vouchers[j].code != e.user.value && env.vouchers[j].username != e.user.value)
              && (env.vouchers[i].status.Unused? || env.vouchers[i].status.Active?)
              && (env.vouchers[i].expiresAt.Some? ==> now < env.vouchers[i].expiresAt.value)
              && (env.serviceEndsAt.Some? ==> now < env.serviceEndsAt.value)
              && forall s <- w.sessions | s.router == env.router && s.stoppedAt.None? :: s.username != e.user.value
  {
    hide Lookup, ParseUptime;
    forall e <- w.active | e.user.Some? && e.user.value != "" {
      LookupIsTheLast(env.operator, env.vouchers, e.user.value);
    }
  }

  lemma {:induction false} KeptActiveCounts(env: Env, now: int, es: seq<Entry>, e: Entry)
    ensures multiset(KeptActive(env, now, es))[e] == if Revocable(env, now, e.user) then 0 else multiset(es)[e]
  {
    hide Revocable;
    if es != [] {
      KeptActiveCounts(env, now, es[1..], e);
      assert es == [es[0]] + es[1..];
    }
  }

  lemma {:induction false} KeptCookiesCount(env: Env, now: int, ks: seq<Cookie>, k: Cookie)
    ensures multiset(KeptCookies(env, now, ks))[k] == if Revocable(env, now, k.user) then 0 else multiset(ks)[k]
  {
    hide Revocable;
    if ks != [] {
      KeptCookiesCount(env, now, ks[1..], k);
      assert ks == [ks[0]] + ks[1..];
    }
  }

  lemma RoundExact(env: Env, now: int, w: World)
    ensures var r := Round(env, now, w);
            && (forall e :: e in r.active <==> e in w.active && !Revocable(env, now, e.user))
            && (forall k :: k in r.cookies <==> k in w.cookies && !Revocable(env, now, k.user))
            && multiset(r.active) <= multiset(w.active) && multiset(r.cookies) <= multiset(w.cookies)
  {
    KeptActiveExact(env, now, w.active);
    KeptCookiesExact(env, now, w.cookies);
  }

  /** A run whose planning does not raise leaves no active entry and no cookie of an invalid
      voucher, and removes nothing else: not an unknown name's, not a valid voucher's. One
      whose planning raises changes nothing. */
  lemma RoundRemovesExactlyTheInvalid(env: Env, now: int, w: World)
    ensures var r := JobRound(env, now, w);
            if Unplannable(env, now, w) then r == w
            else
              && (forall e :: e in r.active <==> e in w.active && !Revocable(env, now, e.user))
              && (forall k :: k in r.cookies <==> k in w.cookies && !Revocable(env, now, k.user))
              && (forall e <- r.active :: multiset(r.active)[e] == multiset(w.active)[e])
              && (forall k <- r.cookies :: multiset(r.cookies)[k] == multiset(w.cookies)[k])
    ensures !Unplannable(env, now, w) ==>
            forall e <- JobRound(env, now, w).active, i |
              0 <= i < |env.vouchers| && env.vouchers[i].operator == env.operator
              && e.user.Some? && e.user.value != ""
              && (env.vouchers[i].code == e.user.value || env.vouchers[i].username == e.user.value)
              && (forall j | i < j < |env.vouchers| && env.vouchers[j].operator == env.operator ::
                    env.vouchers[j].code != e.user.value && env.vouchers[j].username != e.user.value) ::
              && (env.vouchers[i].status.Unused? || env.vouchers[i].status.Active?)
              && (env.vouchers[i].expiresAt.Some? ==> now < env.vouchers[i].expiresAt.value)
              && (env.serviceEndsAt.Some? ==> now < env.serviceEndsAt.value)
  {
    hide Revocable, Unplannable, KeptActive, KeptCookies, CloseAll;
    RoundExact(env, now, w);
    if !Unplannable(env, now, w) {
      var r := Round(env, now, w);
      forall e <- r.active ensures multiset(r.active)[e] == multiset(w.active)[e] {
        KeptActiveCounts(env, now, w.active, e);
      }
      forall k <- r.cookies ensures multiset(r.cookies)[k] == multiset(w.cookies)[k] {
        KeptCookiesCount(env, now, w.cookies, k);
      }
      forall e <- r.active, i |
        0 <= i < |env.vouchers| && env.vouchers[i].operator == env.operator
        && e.user.Some? && e.user.value != ""
        && (env.vouchers[i].code == e.user.value || env.vouchers[i].username == e.user.value)
        && (forall j | i < j < |env.vouchers| && env.vouchers[j].operator == env.operator ::
              env.vouchers[j].code != e.user.value && env.vouchers[j].username != e.user.value)
        ensures env.vouchers[i].status.Unused? || env.vouchers[i].status.Active?
        ensures env.vouchers[i].expiresAt.Some? ==> now < env.vouchers[i].expiresAt.value
        ensures env.serviceEndsAt.Some? ==> now < env.serviceEndsAt.value
      {
        RevocableExactly(env, now, e.user);
      }
    }
  }

  /** It closes exactly this router's open sessions begun over five minutes ago whose name the
      router does not list, and writes nothing else. */
  lemma RoundClosesExactly(env: Env, now: int, w: World)
    ensures var r := JobRound(env, now, w);
            && |r.sessions| == |w.sessions|
            && forall i | 0 <= i < |w.sessions| ::
                 r.sessions[i] ==
                 if && !Unplannable(env, now, w)
                    && w.sessions[i].router == env.router && w.sessions[i].stoppedAt.None?
                    && w.sessions[i].startedAt < now - 300
                    && (w.sessions[i].username == "" || forall e <- w.active :: e.user != Some(w.sessions[i].username))
                 then Session(w.sessions[i].id, w.sessions[i].router, w.sessions[i].username,
                              w.sessions[i].startedAt, Some(now), "reconcile-not-on-router")
                 else w.sessions[i]
  {
    hide Unplannable, KeptActive, KeptCookies;
    forall i | 0 <= i < |w.sessions|
      ensures w.sessions[i].username in ActiveNames(w.active) <==>
              w.sessions[i].username != "" && exists e <- w.active :: e.user == Some(w.sessions[i].username)
    {}
  }

  // ------------------------------------------------------- convergence over rounds

  /** Between two instants no voucher runs out and the operator's service does not end. */
  predicate NothingLapses(env: Env, from: int, to: int) {
    && (forall v <- env.vouchers :: v.expiresAt.Some? ==> !(from < v.expiresAt.value <= to))
    && (env.serviceEndsAt.Some? ==> !(from < env.serviceEndsAt.value <= to))
  }

  lemma {:induction false} LookupIsARow(operator: nat, rows: seq<Voucher>, name: string)
    ensures Lookup(operator, rows, name).Some? ==> Lookup(operator, rows, name).value in rows
    decreases |rows|
  {
    if rows != [] { LookupIsARow(operator, rows[..|rows| - 1], name); }
  }

  lemma SameVerdict(env: Env, from: int, to: int, user: Option<string>)
    requires from <= to && NothingLapses(env, from, to)
    ensures Revocable(env, from, user) == Revocable(env, to, user)
  {
    LookupIsARow(env.operator, env.vouchers, NameOf(user));
  }

  lemma SameValidity(env: Env, from: int, to: int, openNames: set<string>, e: Entry)
    requires from <= to && NothingLapses(env, from, to)
    ensures Unreadable(env, from, openNames, e) == Unreadable(env, to, openNames, e)
  {
    LookupIsARow(env.operator, env.vouchers, NameOf(e.user));
  }

  /** A run leaves planning as it was: what could be planned still can be, and what could
      not be planned cannot be on any later run, while nothing lapses. */
  lemma PlanningStaysAsItIs(env: Env, t1: int, t2: int, w: World)
    requires t1 <= t2 && NothingLapses(env, t1, t2)
    ensures Unplannable(env, t2, JobRound(env, t1, w)) <==> Unplannable(env, t1, w)
  {
    var r := JobRound(env, t1, w);
    RoundRemovesExactlyTheInvalid(env, t1, w);
    var before, after := OpenNames(env, w.sessions), OpenNames(env, r.sessions);
    forall e <- r.active ensures Unreadable(env, t2, after, e) <==> Unreadable(env, t1, before, e) {
      SameValidity(env, t1, t2, after, e);
      if NameOf(e.user) != "" { OnlineKeepsItsSession(env, t1, w, NameOf(e.user)); }
    }
    forall e <- w.active | Unreadable(env, t1, before, e) ensures e in r.active {}
  }

  /** A run closes no session of a name on the router. */
  lemma OnlineKeepsItsSession(env: Env, now: int, w: World, name: string)
    requires name in ActiveNames(w.active)
    ensures name in OpenNames(env, JobRound(env, now, w).sessions) <==> name in OpenNames(env, w.sessions)
  {
    var r := JobRound(env, now, w);
    if s :| s in w.sessions && IsOpen(env, s) && s.username == name {
      var i :| 0 <= i < |w.sessions| && w.sessions[i] == s;
      assert r.sessions[i] == s;
    }
    if s :| s in r.sessions && IsOpen(env, s) && s.username == name {
      var i :| 0 <= i < |r.sessions| && r.sessions[i] == s;
      assert w.sessions[i] == s;
    }
  }

  /** A second run removes nothing more from the router, and closes every session past
      the grace whose client is off it by now, those the first run put off included. */
  lemma SecondRoundClosesTheRest(env: Env, t1: int, t2: int, w: World)
    requires t1 <= t2 && NothingLapses(env, t1, t2)
    ensures var one := JobRound(env, t1, w);
            var two := JobRound(env, t2, one);
            if Unplannable(env, t1, w) then two == w
            else
              && two.active == one.active && two.cookies == one.cookies
              && forall s <- two.sessions ::
                   IsOpen(env, s) && s.startedAt < t2 - PHANTOM_GRACE ==> s.username in ActiveNames(two.active)
  {
    PlanningStaysAsItIs(env, t1, t2, w);
    if !Unplannable(env, t1, w) {
      RoundExact(env, t1, w);
      CleanStaysClean(env, t1, t2, Round(env, t1, w));
    }
  }

  /** Nothing on the router of an invalid voucher's. */
  predicate Clean(env: Env, now: int, w: World) {
    (forall e <- w.active :: !Revocable(env, now, e.user)) && (forall k <- w.cookies :: !Revocable(env, now, k.user))
  }

  /** From there a round only closes sessions, and then everything is settled. */
  lemma CleanStaysClean(env: Env, from: int, now: int, w: World)
    requires from <= now && NothingLapses(env, from, now) && Clean(env, from, w)
    ensures Clean(env, now, w) && Clean(env, now, Round(env, now, w)) && Settled(env, now, Round(env, now, w))
    ensures Round(env, now, w).active == w.active && Round(env, now, w).cookies == w.cookies
  {
    forall e <- w.active ensures !Revocable(env, now, e.user) { SameVerdict(env, from, now, e.user); }
    forall k <- w.cookies ensures !Revocable(env, now, k.user) { SameVerdict(env, from, now, k.user); }
    KeptActiveExact(env, now, w.active);
    KeptCookiesExact(env, now, w.cookies);
  }

  /** What a third run would still do, at any later instant while nothing lapses: nothing,
      unless planning works and a session reached the grace since the second. */
  lemma ThirdRoundOnlyNewlyPhantom(env: Env, t1: int, t2: int, t3: int, w: World)
    requires t1 <= t2 <= t3 && NothingLapses(env, t1, t3)
    ensures var two := JobRound(env, t2, JobRound(env, t1, w));
            JobRound(env, t3, two) == two <==>
            || Unplannable(env, t1, w)
            || !exists s <- two.sessions ::
                 IsOpen(env, s) && s.username !in ActiveNames(two.active)
                 && t2 - PHANTOM_GRACE <= s.startedAt < t3 - PHANTOM_GRACE
  {
    assert NothingLapses(env, t1, t2) && NothingLapses(env, t2, t3);
    var one := JobRound(env, t1, w);
    var two := JobRound(env, t2, one);
    PlanningStaysAsItIs(env, t1, t2, w);
    PlanningStaysAsItIs(env, t2, t3, one);
    if !Unplannable(env, t1, w) {
      RoundExact(env, t1, w);
      CleanStaysClean(env, t1, t2, one);
      CleanStaysClean(env, t2, t3, two);
      RoundFixpoint(env, t3, two);
    }
  }

  lemma NoneClosed(env: Env, now: int, listed: set<string>, ss: seq<Session>)
    requires CloseAll(env, now, listed, ss) == ss
    ensures forall s <- ss :: !Closes(env, now, listed, s)
  {
    forall i | 0 <= i < |ss| ensures !Closes(env, now, listed, ss[i]) {
      assert CloseAll(env, now, listed, ss)[i] == ss[i];
    }
  }

  lemma RoundFixpoint(env: Env, now: int, w: World)
    ensures Settled(env, now, w) <==> Round(env, now, w) == w
  {
    KeptActiveExact(env, now, w.active);
    KeptCookiesExact(env, now, w.cookies);
    var r := Round(env, now, w);
    if Settled(env, now, w) { assert r.sessions == w.sessions; }
    if r.sessions == w.sessions { NoneClosed(env, now, ActiveNames(w.active), w.sessions); }
  }

  /** A run changes nothing exactly when planning raises or nothing is to be done. */
  lemma SettledIsAFixpoint(env: Env, now: int, w: World)
    ensures JobRound(env, now, w) == w <==> Unplannable(env, now, w) || Settled(env, now, w)
  {
    RoundFixpoint(env, now, w);
  }

  /** From any state a third run at the same instant changes nothing; and two were enough
      to settle everything, exactly unless planning raised on something left to do. */
  lemma TwoRoundsConverge(env: Env, now: int, w: World)
    ensures var two := JobRound(env, now, JobRound(env, now, w));
            && JobRound(env, now, two) == two
            && (Settled(env, now, two) <==> !Unplannable(env, now, w) || Settled(env, now, w))
  {
    PlanningStaysAsItIs(env, now, now, w);
    var one := JobRound(env, now, w);
    if !Unplannable(env, now, w) {
      RoundExact(env, now, w);
      CleanStaysClean(env, now, now, one);
    }
    SettledIsAFixpoint(env, now, JobRound(env, now, one));
  }

  /** The runs of the job at these instants. */
  function Runs(env: Env, times: seq<int>, w: World): World
    decreases |times|
  {
    if times == [] then w else JobRound(env, times[|times| - 1], Runs(env, times[..|times| - 1], w))
  }

  predicate Ascending(times: seq<int>) { forall i, j | 0 <= i < j < |times| :: times[i] <= times[j] }

  /** Any number of runs while nothing lapses. Where planning raises on the first it raises
      on all and nothing ever changes; otherwise the first takes exactly the invalid
      vouchers' clients and cookies off, and from the second on every run ends settled. */
  lemma {:induction false} RunsConverge(env: Env, times: seq<int>, w: World)
    requires times != [] && Ascending(times) && NothingLapses(env, times[0], times[|times| - 1])
    ensures var r, last := Runs(env, times, w), times[|times| - 1];
            if Unplannable(env, times[0], w) then r == w && Unplannable(env, last, r)
            else
              && !Unplannable(env, last, r) && Clean(env, last, r)
              && r.active == KeptActive(env, times[0], w.active)
              && r.cookies == KeptCookies(env, times[0], w.cookies)
              && (|times| >= 2 ==> Settled(env, last, r))
    decreases |times|
  {
    hide Round, Unplannable, Clean, Settled, NothingLapses, KeptActive, KeptCookies;
    var init, last := times[..|times| - 1], times[|times| - 1];
    NothingLapsesWithin(env, times[0], last, last, last);
    PlanningStaysAsItIs(env, last, last, Runs(env, init, w));
    if init == [] {
      if !Unplannable(env, last, w) { FirstRoundCleans(env, last, w); }
    } else {
      var previous := times[|times| - 2];
      NothingLapsesWithin(env, times[0], last, times[0], previous);
      NothingLapsesWithin(env, times[0], last, previous, last);
      RunsConverge(env, init, w);
      PlanningHolds(env, previous, last, Runs(env, init, w));
      if !Unplannable(env, times[0], w) { CleanStaysClean(env, previous, last, Runs(env, init, w)); }
    }
  }

  lemma FirstRoundCleans(env: Env, now: int, w: World)
    ensures var r := Round(env, now, w);
            && Clean(env, now, r)
            && r.active == KeptActive(env, now, w.active) && r.cookies == KeptCookies(env, now, w.cookies)
  {
    RoundExact(env, now, w);
  }

  lemma NothingLapsesWithin(env: Env, from: int, to: int, t1: int, t2: int)
    requires NothingLapses(env, from, to) && from <= t1 <= t2 <= to
    ensures NothingLapses(env, t1, t2)
  {}

  /** Time alone, while nothing lapses, does not change whether planning raises. */
  lemma PlanningHolds(env: Env, from: int, to: int, w: World)
    requires from <= to && NothingLapses(env, from, to)
    ensures Unplannable(env, from, w) <==> Unplannable(env, to, w)
  {
    forall e <- w.active { SameValidity(env, from, to, OpenNames(env, w.sessions), e); }
  }

  /** The guard matters: one unreadable duration keeps a disabled voucher's client online on
      this run and every later one. */
  lemma UnreadableUptimeKeepsEveryoneOn() returns (env: Env, w: World)
    ensures exists e <- w.active :: Revocable(env, 0, e.user)
    ensures forall times | times != [] && Ascending(times) :: Runs(env, times, w) == w
  {
    env := Env(1, 1, [Voucher(8, 1, 4, "A", "A", "p", Status.Active, None, None, None),
                      Voucher(9, 1, 4, "B", "B", "p", Disabled, None, None, None)], None);
    w := World([Entry(6, Some("A"), Some("x:y")), Entry(7, Some("B"), None)], [], []);
    assert env.vouchers[..1] == [env.vouchers[0]] && env.vouchers[..1][..0] == [];
    assert w.active[0] in w.active && w.active[1] in w.active;
    assert Revocable(env, 0, w.active[1].user);
    LettersAreNoClock();
    forall now ensures Unplannable(env, now, w) {
      assert Unreadable(env, now, OpenNames(env, w.sessions), w.active[0]);
    }
    forall times | times != [] && Ascending(times) ensures Runs(env, times, w) == w { RunsConverge(env, times, w); }
  }

  lemma LettersAreNoClock()
    ensures ParseUptime(Some("x:y")).Raises?
  {
    assert "x:y"[1..] == ":y" && ":y"[1..] == "y" && "y"[1..] == "";
    assert Text.Split("x:y", ':')[0] == "x";
  }

  /** And one run is not enough: a client of a disabled voucher with an old open session is
      removed by the first, and its session is closed by the second. */
  lemma OneRoundIsNotEnough()
    ensures exists env, w :: !Unplannable(env, 1000, w) && !Settled(env, 1000, JobRound(env, 1000, w))
  {
    var env := Env(1, 1, [Voucher(9, 1, 4, "A", "A", "p", Disabled, None, None, None)], None);
    var w := World([Entry(7, Some("A"), None)], [], [Session(3, 1, "A", 0, None, "")]);
    assert env.vouchers[..0] == [];
    assert Revocable(env, 1000, Some("A"));
    assert !Unplannable(env, 1000, w);
    var r := Round(env, 1000, w);
    assert w.active[1..] == [];
    assert r.active == [];
    assert Entry(7, Some("A"), None) in w.active;
    assert "A" in ActiveNames(w.active);
    assert r.sessions[0] == w.sessions[0];
    assert Closes(env, 1000, ActiveNames(r.active), r.sessions[0]);
  }

  // ------------------------------------------------------------ the job on one router

  predicate IsNamed(user: Option<string>, names: set<string>) { user.Some? && user.value in names }

  function WithoutActive(es: seq<Entry>, names: set<string>): seq<Entry> {
    if es == [] then []
    else (if IsNamed(es[0].user, names) then [] else [es[0]]) + WithoutActive(es[1..], names)
  }

  function WithoutCookies(ks: seq<Cookie>, names: set<string>): seq<Cookie> {
    if ks == [] then []
    else (if IsNamed(ks[0].user, names) then [] else [ks[0]]) + WithoutCookies(ks[1..], names)
  }

  lemma {:induction false} WithoutMore(es: seq<Entry>, a: set<string>, b: set<string>)
    ensures WithoutActive(WithoutActive(es, a), b) == WithoutActive(es, a + b)
  {
    if es != [] {
      WithoutMore(es[1..], a, b);
      var rest := WithoutActive(es[1..], a);
      assert ([es[0]] + rest)[1..] == rest && [] + rest == rest;
    }
  }

  lemma {:induction false} WithoutMoreCookies(ks: seq<Cookie>, a: set<string>, b: set<string>)
    ensures WithoutCookies(WithoutCookies(ks, a), b) == WithoutCookies(ks, a + b)
  {
    if ks != [] {
      WithoutMoreCookies(ks[1..], a, b);
      var rest := WithoutCookies(ks[1..], a);
      assert ([ks[0]] + rest)[1..] == rest && [] + rest == rest;
    }
  }

  /** Removing names is the round's removal when the names are the revocable ones among the entries. */
  lemma {:induction false} WithoutIsKept(env: Env, now: int, es: seq<Entry>, names: set<string>)
    requires forall e <- es :: (e.user.Some? && e.user.value in names) <==> Revocable(env, now, e.user)
    ensures WithoutActive(es, names) == KeptActive(env, now, es)
  {
    if es != [] { WithoutIsKept(env, now, es[1..], names); }
  }

  lemma {:induction false} WithoutIsKeptCookies(env: Env, now: int, ks: seq<Cookie>, names: set<string>)
    requires forall k <- ks :: (k.user.Some? && k.user.value in names) <==> Revocable(env, now, k.user)
    ensures WithoutCookies(ks, names) == KeptCookies(env, now, ks)
  {
    if ks != [] { WithoutIsKeptCookies(env, now, ks[1..], names); }
  }

  function OpenSessions(env: Env, ss: seq<Session>): seq<Session> {
    if ss == [] then []
    else
      var last := ss[|ss| - 1];
      OpenSessions(env, ss[..|ss| - 1]) + if IsOpen(env, last) then [last] else []
  }

  lemma {:induction false} OpenSessionsExact(env: Env, ss: seq<Session>)
    ensures forall s :: s in OpenSessions(env, ss) <==> s in ss && IsOpen(env, s)
    decreases |ss|
  {
    if ss != [] {
      OpenSessionsExact(env, ss[..|ss| - 1]);
      assert ss == ss[..|ss| - 1] + [ss[|ss| - 1]];
    }
  }

  function NumClosing(env: Env, now: int, listed: set<string>, ss: seq<Session>): nat {
    if ss == [] then 0
    else NumClosing(env, now, listed, ss[..|ss| - 1]) + if Closes(env, now, listed, ss[|ss| - 1]) then 1 else 0
  }

  /** The rows a round writes. */
  function ClosedRows(env: Env, now: int, listed: set<string>, ss: seq<Session>): set<int> {
    set i | 0 <= i < |ss| && CloseAll(env, now, listed, ss)[i] != ss[i]
  }

  lemma {:induction false} ClosingCounted(env: Env, now: int, listed: set<string>, ss: seq<Session>)
    ensures NumClosing(env, now, listed, ss) == |ClosedRows(env, now, listed, ss)|
    decreases |ss|
  {
    if ss != [] {
      var n := |ss| - 1;
      var init := ss[..n];
      ClosingCounted(env, now, listed, init);
      Sequences.OneMoreIndex(ClosedRows(env, now, listed, init), ClosedRows(env, now, listed, ss),
                             n, Closes(env, now, listed, ss[n]));
    }
  }

  lemma {:induction false} PhantomsCounted(env: Env, c: Context, ss: seq<Session>)
    ensures |Phantoms(c, OpenSessions(env, ss))| == NumClosing(env, c.now, c.activeNames, ss)
    decreases |ss|
  {
    if ss != [] {
      PhantomsCounted(env, c, ss[..|ss| - 1]);
      var open := OpenSessions(env, ss[..|ss| - 1]);
      assert (open + [ss[|ss| - 1]])[..|open|] == open && open + [] == open;
    }
  }

  predicate UniqueIds(ss: seq<Session>) {
    forall i, j | 0 <= i < |ss| && 0 <= j < |ss| && ss[i].id == ss[j].id :: i == j
  }

  /** The router's own lists, the sessions table, and the run's counters. */
  class Job {
    var active: seq<Entry>
    var cookies: seq<Cookie>
    var sessions: seq<Session>
    var revokedOnline: nat
    var revokedCookie: nat
    var phantomSession: nat

    ghost function View(): World reads this { World(active, cookies, sessions) }

    /** remove_hotspot_user_access for one name: the rows the router lists are gone through
        one by one, active entries first and cookies after. */
    method RemoveAccess(name: string) returns (activeRemoved: nat, cookiesCleared: nat)
      modifies this`active, this`cookies
      ensures active == WithoutActive(old(active), {name} - {""})
      ensures cookies == WithoutCookies(old(cookies), {name} - {""})
      ensures activeRemoved + |active| == |old(active)| && cookiesCleared + |cookies| == |old(cookies)|
      ensures name != "" ==>
                (forall e <- active :: e.user != Some(name)) && (forall k <- cookies :: k.user != Some(name))
    {
      var users := {name} - {""};
      WithoutExact(active, cookies, users);
      hide WithoutActive, WithoutCookies, Drop;
      WithoutNone(users);
      var rows := active;
      activeRemoved := 0;
      for i := 0 to |rows|
        invariant activeRemoved <= i && |active| == |rows| - activeRemoved && cookies == old(cookies)
        invariant active == WithoutActive(rows[..i], users) + rows[i..]
      {
        WithoutOneMore(rows, i, users);
        OneRow(WithoutActive(rows[..i], users), rows[i], rows[i + 1..]);
        if rows[i].user.Some? && rows[i].user.value in users {
          active := Drop(active, i - activeRemoved);
          activeRemoved := activeRemoved + 1;
        }
      }
      assert rows[..|rows|] == rows && rows[|rows|..] == [];
      cookiesCleared := ClearCookies({name});
    }

    /** clear_hotspot_cookies by names. */
    method ClearCookies(names: set<string>) returns (cleared: nat)
      modifies this`cookies
      ensures cookies == WithoutCookies(old(cookies), names - {""})
      ensures cleared + |cookies| == |old(cookies)|
    {
      var users := names - {""};
      hide WithoutCookies, Drop;
      WithoutNone(users);
      var rows := cookies;
      cleared := 0;
      for i := 0 to |rows|
        invariant cleared <= i && |cookies| == |rows| - cleared
        invariant cookies == WithoutCookies(rows[..i], users) + rows[i..]
      {
        WithoutOneMoreCookie(rows, i, users);
        OneRow(WithoutCookies(rows[..i], users), rows[i], rows[i + 1..]);
        if rows[i].user.Some? && rows[i].user.value in users {
          cookies := Drop(cookies, i - cleared);
          cleared := cleared + 1;
        }
      }
      assert rows[..|rows|] == rows && rows[|rows|..] == [];
    }

    /** The loop over the revoked names, in whatever order the set yields them. */
    method RevokeAll(names: set<string>)
      modifies this`active, this`cookies, this`revokedOnline, this`revokedCookie
      ensures active == WithoutActive(old(active), names - {""})
      ensures cookies == WithoutCookies(old(cookies), names - {""})
      ensures revokedOnline + |active| == old(revokedOnline + |active|)
      ensures revokedCookie + |cookies| == old(revokedCookie + |cookies|)
    {
      ghost var was := View();
      ghost var removed: set<string> := {};
      var left := names;
      WithoutNobody(active, cookies);
      assert removed - {""} == {};
      while left != {}
        invariant removed + left == names
        invariant active == WithoutActive(was.active, removed - {""})
        invariant cookies == WithoutCookies(was.cookies, removed - {""})
        invariant revokedOnline + |active| == old(revokedOnline + |active|)
        invariant revokedCookie + |cookies| == old(revokedCookie + |cookies|)
        decreases left
      {
        var name :| name in left;
        WithoutMore(was.active, removed - {""}, {name} - {""});
        WithoutMoreCookies(was.cookies, removed - {""}, {name} - {""});
        assert (removed - {""}) + ({name} - {""}) == removed + {name} - {""};
        var activeRemoved, cookiesCleared := RemoveAccess(name);
        revokedOnline := revokedOnline + activeRemoved;
        revokedCookie := revokedCookie + cookiesCleared;
        removed, left := removed + {name}, left - {name};
      }
      assert removed == names;
    }

    /** The reading half: the plan, and the two sets of names it revokes. */
    method PlanRound(env: Env, now: int)
      returns (plan: Option<Plan>, toRevoke: set<string>, cookieOnly: set<string>, ghost c: Context)
      ensures c.now == now && c.activeNames == ActiveNames(active)
      ensures plan.Some? ==> plan.value.phantomSession == Phantoms(c, OpenSessions(env, sessions))
      ensures plan.Some? ==> |plan.value.phantomSession| == NumClosing(env, now, ActiveNames(active), sessions)
      ensures plan.Some? ==> forall e <- active ::
                (e.user.Some? && e.user.value in toRevoke) <==> Revocable(env, now, e.user)
      ensures plan.Some? ==> forall k <- cookies ::
                (k.user.Some? && k.user.value in toRevoke + cookieOnly) <==> Revocable(env, now, k.user)
      ensures plan.Some? ==> "" !in toRevoke + cookieOnly
      ensures plan.Some? <==> !Unplannable(env, now, View())
    {
      var open := OpenSessions(env, sessions);
      var names := (set e <- active | NameOf(e.user) != "" :: NameOf(e.user))
                   + (set k <- cookies | NameOf(k.user) != "" :: NameOf(k.user));
      var byName := VouchersByName(env, names);
      var ended := ServiceEnded(env, now);
      c := ContextOf(byName, active, open, now, ended);
      plan := PlanReconciliation(active, cookies, byName, open, now, ended);
      toRevoke, cookieOnly := {}, {};
      MalformedIsUnreadable(env, now, View(), c, names);
      if plan.Some? {
        PhantomsCounted(env, c, sessions);
        toRevoke := set e <- plan.value.revokedOnline :: NameOf(e.user);
        cookieOnly := (set k <- plan.value.revokedCookie :: NameOf(k.user)) - toRevoke;
        RevokedNames(env, now, View(), c, names, toRevoke, cookieOnly);
      }
    }

    /** _reconcile_router after the cookie policy: nothing at all exactly when planning raises,
        otherwise one round, and the counters go up by what was removed and closed. */
    method ReconcileRouter(env: Env, now: int) returns (done: bool)
      requires UniqueIds(sessions)
      modifies this
      ensures done <==> !Unplannable(env, now, old(View()))
      ensures View() == JobRound(env, now, old(View()))
      ensures !done ==> revokedOnline == old(revokedOnline)
                        && revokedCookie == old(revokedCookie) && phantomSession == old(phantomSession)
      ensures |sessions| == |old(sessions)|
      ensures done ==> phantomSession == old(phantomSession)
                       + |set i | 0 <= i < |sessions| && sessions[i] != old(sessions)[i]|
      ensures done ==> revokedOnline + |active| == old(revokedOnline + |active|)
                       && revokedCookie + |cookies| == old(revokedCookie + |cookies|)
    {
      hide Unplannable, WithoutActive, WithoutCookies, KeptActive, KeptCookies, NumClosing, ActiveNames, CloseAll;
      hide Phantoms, OpenSessions, Revocable, UniqueIds;
      ghost var was := View();
      var plan, toRevoke, cookieOnly, c := PlanRound(env, now);
      if plan.None? { return false; }
      assert toRevoke - {""} == toRevoke && cookieOnly - {""} == cookieOnly;
      RevokeAll(toRevoke);
      if cookieOnly != {} {
        var cleared := ClearCookies(cookieOnly);
        revokedCookie := revokedCookie + cleared;
      }
      assert active == KeptActive(env, now, was.active) by { WithoutIsKept(env, now, was.active, toRevoke); }
      assert cookies == KeptCookies(env, now, was.cookies) by {
        WithoutMoreCookies(was.cookies, toRevoke, cookieOnly);
        assert toRevoke + {} == toRevoke;
        WithoutIsKeptCookies(env, now, was.cookies, toRevoke + cookieOnly);
      }
      CloseSessions(env, now, plan.value.phantomSession, c);
      ClosingCounted(env, now, ActiveNames(was.active), was.sessions);
      assert ClosedRows(env, now, ActiveNames(was.active), was.sessions)
          == set i | 0 <= i < |sessions| && sessions[i] != was.sessions[i];
      phantomSession := phantomSession + |plan.value.phantomSession|;
      return true;
    }

    /** The guarded UPDATE by id. */
    method CloseSessions(env: Env, now: int, phantoms: seq<Session>, ghost c: Context)
      requires UniqueIds(sessions)
      requires phantoms == Phantoms(c, OpenSessions(env, sessions))
      requires c.now == now
      modifies this`sessions
      ensures sessions == CloseAll(env, now, c.activeNames, old(sessions))
    {
      var ids := SessionIds(phantoms);
      ghost var was := sessions;
      hide SessionIds, Phantoms, OpenSessions, Closes, UniqueIds;
      for i := 0 to |sessions|
        invariant |sessions| == |was|
        invariant forall j | i <= j < |was| :: sessions[j] == was[j]
        invariant forall j | 0 <= j < i :: sessions[j] == CloseAll(env, now, c.activeNames, was)[j]
      {
        PlannedAreClosing(env, c, was, i);
        var s := sessions[i];
        if s.id in ids && s.stoppedAt.None? { sessions := sessions[i := Closed(s, now)]; }
      }
      assert sessions == CloseAll(env, now, c.activeNames, was);
    }
  }

  function SessionIds(ss: seq<Session>): set<nat> { set s <- ss :: s.id }

  /** By id, the planned sessions still open are exactly those a round closes. */
  lemma PlannedAreClosing(env: Env, c: Context, was: seq<Session>, i: nat)
    requires UniqueIds(was) && i < |was|
    ensures was[i].id in SessionIds(Phantoms(c, OpenSessions(env, was))) && was[i].stoppedAt.None?
            <==> Closes(env, c.now, c.activeNames, was[i])
  {
    var phantoms := Phantoms(c, OpenSessions(env, was));
    OpenSessionsExact(env, was);
    PhantomsExact(c, OpenSessions(env, was));
    assert was[i] in was;
    if was[i].id in SessionIds(phantoms) {
      var p :| p in phantoms && p.id == was[i].id;
      var j :| 0 <= j < |was| && was[j] == p;
    }
  }

  lemma {:induction false} WithoutExact(es: seq<Entry>, ks: seq<Cookie>, names: set<string>)
    ensures forall e :: e in WithoutActive(es, names) <==> e in es && !(e.user.Some? && e.user.value in names)
    ensures forall k :: k in WithoutCookies(ks, names) <==> k in ks && !(k.user.Some? && k.user.value in names)
    decreases |es| + |ks|
  {
    if es != [] {
      WithoutExact(es[1..], ks, names);
      assert es == [es[0]] + es[1..];
    } else if ks != [] {
      WithoutExact(es, ks[1..], names);
      assert ks == [ks[0]] + ks[1..];
    }
  }

  lemma {:induction false} WithoutConcat(a: seq<Entry>, b: seq<Entry>, names: set<string>)
    ensures WithoutActive(a + b, names) == WithoutActive(a, names) + WithoutActive(b, names)
  {
    hide IsNamed;
    if a == [] {
      assert a + b == b;
    } else {
      Sequences.HeadOfConcat(a, b);
      WithoutConcat(a[1..], b, names);
    }
  }

  lemma {:induction false} WithoutConcatCookies(a: seq<Cookie>, b: seq<Cookie>, names: set<string>)
    ensures WithoutCookies(a + b, names) == WithoutCookies(a, names) + WithoutCookies(b, names)
  {
    hide IsNamed;
    if a == [] {
      assert a + b == b;
    } else {
      Sequences.HeadOfConcat(a, b);
      WithoutConcatCookies(a[1..], b, names);
    }
  }

  lemma WithoutOneMore(rows: seq<Entry>, i: nat, names: set<string>)
    requires i < |rows|
    ensures rows[i..] == [rows[i]] + rows[i + 1..]
    ensures WithoutActive(rows[..i + 1], names)
            == if rows[i].user.Some? && rows[i].user.value in names then WithoutActive(rows[..i], names)
               else WithoutActive(rows[..i], names) + [rows[i]]
  {
    assert rows[..i + 1] == rows[..i] + [rows[i]];
    WithoutConcat(rows[..i], [rows[i]], names);
  }

  lemma WithoutOneMoreCookie(rows: seq<Cookie>, i: nat, names: set<string>)
    requires i < |rows|
    ensures rows[i..] == [rows[i]] + rows[i + 1..]
    ensures WithoutCookies(rows[..i + 1], names)
            == if rows[i].user.Some? && rows[i].user.value in names then WithoutCookies(rows[..i], names)
               else WithoutCookies(rows[..i], names) + [rows[i]]
  {
    assert rows[..i + 1] == rows[..i] + [rows[i]];
    WithoutConcatCookies(rows[..i], [rows[i]], names);
  }

  lemma {:induction false} WithoutNobody(es: seq<Entry>, ks: seq<Cookie>)
    ensures WithoutActive(es, {}) == es && WithoutCookies(ks, {}) == ks
    decreases |es| + |ks|
  {
    if es != [] { WithoutNobody(es[1..], ks); }
    if ks != [] { WithoutNobody(es, ks[1..]); }
  }

  lemma WithoutNone(names: set<string>)
    ensures WithoutActive([], names) == [] && WithoutCookies([], names) == []
  {}

  /** Without the row at one position. */
  function Drop<T>(rows: seq<T>, at: nat): (r: seq<T>)
    requires at < |rows|
    ensures |r| == |rows| - 1
  {
    rows[..at] + rows[at + 1..]
  }

  /** Where a pass over the rows stands at one more row, kept or dropped. */
  lemma OneRow<T>(before: seq<T>, x: T, after: seq<T>)
    ensures before + ([x] + after) == before + [x] + after
    ensures Drop(before + ([x] + after), |before|) == before + after
  {}

  /** Planning meets a malformed duration exactly when one of the entries is unreadable. */
  lemma MalformedIsUnreadable(env: Env, now: int, w: World, c: Context, names: set<string>)
    requires forall e <- w.active | NameOf(e.user) != "" :: NameOf(e.user) in names
    requires forall n :: n in c.byName <==> n in names && Lookup(env.operator, env.vouchers, n).Some?
    requires forall n <- c.byName.Keys :: Some(c.byName[n]) == Lookup(env.operator, env.vouchers, n)
    requires c.now == now && c.serviceEnded == ServiceEnded(env, now)
    requires c.openNames == SessionNames(OpenSessions(env, w.sessions))
    ensures OfClass(c, w.active, Malformed) != [] <==> Unplannable(env, now, w)
  {
    OpenSessionsExact(env, w.sessions);
    assert c.openNames == OpenNames(env, w.sessions);
    forall e <- w.active ensures Classify(c, e) == Malformed <==> Unreadable(env, now, c.openNames, e) {}
    OfClassExact(c, w.active, Malformed);
    if OfClass(c, w.active, Malformed) != [] {
      assert OfClass(c, w.active, Malformed)[0] in OfClass(c, w.active, Malformed);
    }
  }

  /** The names the plan revokes are the revocable names on the router: those with an
      active entry, and those with only a cookie. */
  lemma RevokedNames(env: Env, now: int, w: World, c: Context, names: set<string>, toRevoke: set<string>,
                     cookieOnly: set<string>)
    requires names == (set e <- w.active | NameOf(e.user) != "" :: NameOf(e.user))
                      + (set k <- w.cookies | NameOf(k.user) != "" :: NameOf(k.user))
    requires forall n :: n in c.byName <==> n in names && Lookup(env.operator, env.vouchers, n).Some?
    requires forall n <- c.byName.Keys :: Some(c.byName[n]) == Lookup(env.operator, env.vouchers, n)
    requires c.now == now && c.serviceEnded == ServiceEnded(env, now)
    requires toRevoke == set e <- OfClass(c, w.active, Revoked) :: NameOf(e.user)
    requires cookieOnly == (set k <- RevokedCookies(c, w.cookies) :: NameOf(k.user)) - toRevoke
    ensures "" !in toRevoke + cookieOnly
    ensures forall e <- w.active :: (e.user.Some? && e.user.value in toRevoke) <==> Revocable(env, now, e.user)
    ensures forall k <- w.cookies ::
              (k.user.Some? && k.user.value in toRevoke + cookieOnly) <==> Revocable(env, now, k.user)
  {
    hide VoucherIsValid, OfClass, RevokedCookies, Lookup, ServiceEnded;
    OfClassExact(c, w.active, Revoked);
    RevokedCookiesExact(c, w.cookies);
    assert "" !in names;
    forall n <- toRevoke + cookieOnly ensures n != "" && Revocable(env, now, Some(n)) {}
    forall e <- w.active ensures (e.user.Some? && e.user.value in toRevoke) <==> Revocable(env, now, e.user) {
      if Revocable(env, now, e.user) {
        assert NameOf(e.user) in names;
        assert Classify(c, e) == Revoked;
        assert e in OfClass(c, w.active, Revoked);
      }
    }
    forall k <- w.cookies
      ensures (k.user.Some? && k.user.value in toRevoke + cookieOnly) <==> Revocable(env, now, k.user)
    {
      if Revocable(env, now, k.user) {
        assert NameOf(k.user) in names;
        assert k in RevokedCookies(c, w.cookies);
      }
    }
  }
}
