/** Who lets a voucher through: the captive portal (_voucher_for_login in
    backend/src/portal/routes.py), RADIUS (freeradius/sql.conf and the older query shown
    in README.md), reconciliation, and the expiry job. */
module Gatekeepers {
  import opened Options
  import opened Vouchers
  import Reconcile
  import Sequences

  // ------------------------------------------------------- SQL's three truth values

  datatype Truth = True | False | Null

  function Known(b: bool): Truth { if b then True else False }

  function And(a: Truth, b: Truth): Truth {
    if a.False? || b.False? then False else if a.Null? || b.Null? then Null else True
  }

  function Or(a: Truth, b: Truth): Truth {
    if a.True? || b.True? then True else if a.Null? || b.Null? then Null else False
  }

  function IsNull<T>(x: Option<T>): Truth { Known(x.None?) }

  function Less(x: Option<int>, y: Option<int>): Truth {
    if x.None? || y.None? then Null else Known(x.value < y.value)
  }

  function AtMost(x: Option<int>, y: Option<int>): Truth {
    if x.None? || y.None? then Null else Known(x.value <= y.value)
  }

  function IsTrue(x: Option<bool>): Truth { if x.None? then Null else Known(x.value) }

  // ------------------------------------------------------------------------ RADIUS

  predicate Usable(s: Status) { s.Unused? || s.Active? }

  /** The WHERE clause of authorize_check_query after the name and router match: r is the
      router's operator, endsAt that operator's hotspot_service_ends_at. */
  function CheckQuery(v: Voucher, p: DataPlan, r: nat, endsAt: Option<int>, now: int): Truth {
    And(Known(v.operator == r),
    And(Known(p.operator == r),
    And(Known(Usable(v.status)),
    And(Or(IsNull(v.expiresAt), Less(Some(now), v.expiresAt)),
    And(Or(IsNull(p.dataLimitMb), Less(v.dataUsedMb, p.dataLimitMb)),
    And(IsTrue(p.isActive),
        // NOT EXISTS keeps the row unless the comparison is true.
        Known(!AtMost(endsAt, Some(now)).True?)))))))
  }

  /** The query README.md shows: no operator, plan owner or service end. */
  function ReadmeQuery(v: Voucher, p: DataPlan, now: int): Truth {
    And(Known(Usable(v.status)),
    And(Or(IsNull(v.expiresAt), Less(Some(now), v.expiresAt)),
    And(Or(Less(v.dataUsedMb, p.dataLimitMb), IsNull(p.dataLimitMb)),
        IsTrue(p.isActive))))
  }

  // ------------------------------------------------------------------------ portal

  datatype Refusal = UnknownCode | Refused | DisabledByAdmin | HasExpired | UsedUp

  datatype Verdict = Accepted | Denied(why: Refusal)

  predicate HotspotServiceEnded(endsAt: Option<int>, now: int) { endsAt.Some? && endsAt.value <= now }

  /** The decisions after the row was found, in the order they are taken. */
  function PortalVerdict(v: Voucher, p: DataPlan, endsAt: Option<int>, now: int): Verdict {
    if HotspotServiceEnded(endsAt, now) then Denied(Refused)
    else if p.operator != v.operator || (p.dataLimitMb.Some? && v.dataUsedMb.None?) then Denied(Refused)
    else if v.status.Disabled? then Denied(DisabledByAdmin)
    else if v.status.Expired? then Denied(HasExpired)
    else if v.status.Exhausted? then Denied(UsedUp)
    else if p.isActive != Some(true) then Denied(DisabledByAdmin)
    else if v.expiresAt.Some? && v.expiresAt.value <= now then Denied(HasExpired)
    else if v.status.Unused? && v.redeemBy.Some? && v.redeemBy.value <= now then Denied(HasExpired)
    else if p.dataLimitMb.Some? && v.dataUsedMb.value >= p.dataLimitMb.value then Denied(UsedUp)
    else Accepted
  }

  predicate PastSellBy(v: Voucher, now: int) { v.status.Unused? && v.redeemBy.Some? && v.redeemBy.value <= now }

  /** Whom the check query selects, the NULLs of SQL worked out: a missing end or data limit is
      no limit, an unknown usage under a limit is refused, and so is an unknown plan state. */
  lemma RadiusSelects(v: Voucher, p: DataPlan, r: nat, endsAt: Option<int>, now: int)
    ensures CheckQuery(v, p, r, endsAt, now).True? <==>
            && v.operator == r && p.operator == r && (v.status.Unused? || v.status.Active?)
            && (v.expiresAt.None? || now < v.expiresAt.value)
            && (p.dataLimitMb.None? || (v.dataUsedMb.Some? && v.dataUsedMb.value < p.dataLimitMb.value))
            && p.isActive == Some(true) && (endsAt.None? || now < endsAt.value)
    ensures ReadmeQuery(v, p, now).True? <==>
            && (v.status.Unused? || v.status.Active?)
            && (v.expiresAt.None? || now < v.expiresAt.value)
            && (p.dataLimitMb.None? || (v.dataUsedMb.Some? && v.dataUsedMb.value < p.dataLimitMb.value))
            && p.isActive == Some(true)
  {}

  /** What a customer is told. Nothing about the voucher when the operator's service has ended or
      the rows disagree; else its own state first; then, for one that is unused or active, the
      plan, the time, the sell-by date and the data, in this order. */
  lemma PortalSaysWhy(v: Voucher, p: DataPlan, endsAt: Option<int>, now: int)
    ensures var verdict := PortalVerdict(v, p, endsAt, now);
            var hidden := || (endsAt.Some? && endsAt.value <= now) || p.operator != v.operator
                          || (p.dataLimitMb.Some? && v.dataUsedMb.None?);
            var live := v.status.Unused? || v.status.Active?;
            var late := || (v.expiresAt.Some? && v.expiresAt.value <= now)
                        || (v.status.Unused? && v.redeemBy.Some? && v.redeemBy.value <= now);
            && (verdict == Denied(Refused) <==> hidden)
            && (verdict == Denied(DisabledByAdmin) <==>
                  !hidden && (v.status.Disabled? || (live && p.isActive != Some(true))))
            && (verdict == Denied(HasExpired) <==>
                  !hidden && (v.status.Expired? || (live && p.isActive == Some(true) && late)))
            && (verdict == Denied(UsedUp) <==>
                  !hidden && (v.status.Exhausted?
                              || (live && p.isActive == Some(true) && !late && p.dataLimitMb.Some?
                                  && v.dataUsedMb.value >= p.dataLimitMb.value)))
            && verdict != Denied(UnknownCode)
  {}

  /** On a router of the voucher's operator, the portal accepts exactly what RADIUS
      accepts, less the unused codes past their sell-by date. */
  lemma PortalIsRadiusLessSellBy(v: Voucher, p: DataPlan, endsAt: Option<int>, now: int)
    ensures PortalVerdict(v, p, endsAt, now).Accepted? <==>
            CheckQuery(v, p, v.operator, endsAt, now).True? && !PastSellBy(v, now)
  {}

  /** Against the query in README.md the portal also refuses for an ended service and for
      a plan of another operator, and for nothing else. */
  lemma PortalIsReadmeLessThree(v: Voucher, p: DataPlan, endsAt: Option<int>, now: int)
    ensures PortalVerdict(v, p, endsAt, now).Accepted? <==>
            ReadmeQuery(v, p, now).True? && !PastSellBy(v, now)
            && !HotspotServiceEnded(endsAt, now) && p.operator == v.operator
  {}

  // --------------------------------------------------- the query over whole tables

  datatype Db = Db(vouchers: set<Voucher>, plans: map<nat, DataPlan>, serviceEndsAt: map<nat, Option<int>>)

  /** Foreign keys hold. */
  predicate Joined(db: Db) {
    forall v <- db.vouchers :: v.plan in db.plans && v.operator in db.serviceEndsAt
  }

  function Upper(c: char): char { if 'a' <= c <= 'z' then (c as int - 32) as char else c }

  predicate IsAlphanumeric(c: char) { 'a' <= c <= 'z' || 'A' <= c <= 'Z' || '0' <= c <= '9' }

  /** vouchers.code_key: ASCII letters and digits only, upper-cased. */
  function CodeKey(code: string): string {
    if code == "" then ""
    else (if IsAlphanumeric(code[0]) then [Upper(code[0])] else "") + CodeKey(code[1..])
  }

  /** Two spellings of a code are one key when they agree on the ASCII letters and digits, case
      aside: the key is the text taken character by character. */
  lemma {:induction false} KeyByCharacter(a: string, b: string)
    ensures CodeKey(a + b) == CodeKey(a) + CodeKey(b)
  {
    hide CodeKey;
    if a == "" {
      assert a + b == b;
      KeyOfNothing();
    } else {
      Sequences.HeadOfConcat(a, b);
      KeyByCharacter(a[1..], b);
      KeyOfHead(a);
      KeyOfHead(a + b);
    }
  }

  lemma KeyOfNothing()
    ensures CodeKey("") == ""
  {}

  lemma KeyOfHead(s: string)
    requires s != ""
    ensures CodeKey(s) == (if IsAlphanumeric(s[0]) then [Upper(s[0])] else "") + CodeKey(s[1..])
  {}

  lemma KeyOfOne(c: char)
    ensures 'A' <= c <= 'Z' || '0' <= c <= '9' ==> CodeKey([c]) == [c]
    ensures 'a' <= c <= 'z' ==> CodeKey([c]) == [(c as int - 'a' as int + 'A' as int) as char]
    ensures !('A' <= c <= 'Z') && !('a' <= c <= 'z') && !('0' <= c <= '9') ==> CodeKey([c]) == ""
  {
    assert [c][1..] == "" && CodeKey("") == "";
  }

  /** The UNIQUE constraints of the table. */
  predicate UniqueColumns(db: Db) {
    forall v <- db.vouchers, w <- db.vouchers ::
      v.code == w.code || v.username == w.username || CodeKey(v.code) == CodeKey(w.code) ==> v == w
  }

  /** What code generation adds (_taken_strings in backend/src/modules/vouchers/engine.py):
      no code is another voucher's username. */
  predicate NoCrossedNames(db: Db) {
    forall v <- db.vouchers, w <- db.vouchers :: v.code == w.username ==> v == w
  }

  /** The rows the check query can answer with; LIMIT 1 picks any one. */
  function RadiusRows(db: Db, name: string, r: nat, now: int): set<Voucher>
    requires Joined(db)
  {
    set v <- db.vouchers |
      (v.code == name || v.username == name)
      && r in db.serviceEndsAt
      && CheckQuery(v, db.plans[v.plan], r, db.serviceEndsAt[r], now).True?
  }

  predicate Matches(v: Voucher, key: string, operator: nat) { CodeKey(v.code) == key && v.operator == operator }

  /** A login the portal answers with a username and password. */
  predicate PortalHandsOut(db: Db, key: string, operator: nat, now: int, v: Voucher)
    requires Joined(db)
  {
    v in db.vouchers && Matches(v, key, operator)
    && PortalVerdict(v, db.plans[v.plan], db.serviceEndsAt[operator], now).Accepted?
  }

  /** The portal never hands out a password RADIUS then rejects: on every router of the
      operator, at the same instant, the check query answers the username, and the code,
      with that voucher's row and no other. */
  lemma PortalPasswordIsRadiusPassword(db: Db, key: string, operator: nat, now: int, v: Voucher)
    requires Joined(db) && UniqueColumns(db) && NoCrossedNames(db)
    requires PortalHandsOut(db, key, operator, now, v)
    ensures RadiusRows(db, v.username, operator, now) == {v}
    ensures RadiusRows(db, v.code, operator, now) == {v}
  {}

  lemma OneLetterKeys()
    ensures CodeKey("V") == "V" && CodeKey("W") == "W"
  {
    assert CodeKey("V"[1..]) == "" && CodeKey("W"[1..]) == "";
  }

  /** The table's own constraints would not be enough: were one voucher's code another's
      username, the query could answer with the other voucher's password. */
  lemma CrossedNamesConfuseRadius()
    ensures exists db: Db, v, w ::
              Joined(db) && UniqueColumns(db) && PortalHandsOut(db, "V", 1, 0, v)
              && w in RadiusRows(db, v.username, 1, 0) && w.password != v.password
  {
    var v := Voucher(1, 1, 5, "V", "W", "one", Unused, None, Some(0), None);
    var w := Voucher(2, 1, 5, "W", "X", "two", Unused, None, Some(0), None);
    var db := Db({v, w}, map[5 := DataPlan(1, Some(true), None)], map[1 := None]);
    OneLetterKeys();
    hide CodeKey;
    assert w in RadiusRows(db, "W", 1, 0);
    assert PortalHandsOut(db, "V", 1, 0, v);
    assert Joined(db) && UniqueColumns(db);
  }

  // ---------------------------------------------------------------- the expiry job

  predicate SelectedExpired(v: Voucher, now: int) {
    v.status.Active? && Less(v.expiresAt, Some(now)).True?
  }

  predicate SelectedExhausted(v: Voucher, p: DataPlan) {
    v.status.Active? && p.dataLimitMb.Some? && AtMost(p.dataLimitMb, v.dataUsedMb).True?
  }

  predicate SelectedUnsold(v: Voucher, now: int) {
    v.status.Unused? && Less(v.redeemBy, Some(now)).True?
  }

  /** A voucher after one run: the time limit is acted on before the data limit. */
  function AfterExpiry(v: Voucher, p: DataPlan, now: int): Voucher {
    if SelectedExpired(v, now) then v.(status := Expired)
    else if SelectedExhausted(v, p) then v.(status := Exhausted)
    else if SelectedUnsold(v, now) then v.(status := Expired)
    else v
  }

  /** Reconciliation's test, on this row's fields. */
  predicate ReconcileValid(v: Voucher, endsAt: Option<int>, now: int) {
    Reconcile.VoucherIsValid(v, now, HotspotServiceEnded(endsAt, now))
  }

  /** A voucher the portal accepts is valid to reconciliation and selected by none of the
      expiry job's queries. */
  lemma GatekeepersAgree(v: Voucher, p: DataPlan, endsAt: Option<int>, now: int)
    requires PortalVerdict(v, p, endsAt, now).Accepted?
    ensures ReconcileValid(v, endsAt, now)
    ensures !SelectedExpired(v, now) && !SelectedExhausted(v, p) && !SelectedUnsold(v, now)
  {}

  /** Conversely a valid voucher the portal refuses is refused for its plan, its data or
      its sell-by date. */
  lemma ValidButRefused(v: Voucher, p: DataPlan, endsAt: Option<int>, now: int)
    ensures ReconcileValid(v, endsAt, now) && !PortalVerdict(v, p, endsAt, now).Accepted? <==>
            ReconcileValid(v, endsAt, now)
            && (p.operator != v.operator || p.isActive != Some(true) || PastSellBy(v, now)
                || !(p.dataLimitMb.Some? ==> v.dataUsedMb.Some? && v.dataUsedMb.value < p.dataLimitMb.value))
  {}

  /** What a run writes: an active voucher past its end expires; one within its time but past its
      data is used up; an unused one past its sell-by date expires; no other changes. */
  lemma ExpiryWrites(v: Voucher, p: DataPlan, now: int)
    ensures AfterExpiry(v, p, now) ==
            if v.status.Active? && v.expiresAt.Some? && v.expiresAt.value < now then v.(status := Expired)
            else if v.status.Active? && p.dataLimitMb.Some? && v.dataUsedMb.Some?
                    && v.dataUsedMb.value >= p.dataLimitMb.value then v.(status := Exhausted)
            else if v.status.Unused? && v.redeemBy.Some? && v.redeemBy.value < now then v.(status := Expired)
            else v
  {}

  /** An expiry run changes nothing the portal answers, turns RADIUS's answer only for
      unused codes past their sell-by date, and leaves nothing for a second run. */
  lemma ExpiryIsInvisible(v: Voucher, p: DataPlan, endsAt: Option<int>, now: int)
    ensures var w := AfterExpiry(v, p, now);
            && PortalVerdict(w, p, endsAt, now).Accepted? == PortalVerdict(v, p, endsAt, now).Accepted?
            && (CheckQuery(w, p, v.operator, endsAt, now).True? <==>
                CheckQuery(v, p, v.operator, endsAt, now).True? && !SelectedUnsold(v, now))
            && AfterExpiry(w, p, now) == w
  {}

  predicate PlansKnown(vs: seq<Voucher>, plans: map<nat, DataPlan>) { forall v <- vs :: v.plan in plans }

  function ChangedRows(vs: seq<Voucher>, plans: map<nat, DataPlan>, now: int): set<int> {
    set i | 0 <= i < |vs| && vs[i].plan in plans && AfterExpiry(vs[i], plans[vs[i].plan], now) != vs[i]
  }

  function ExpiredRows(vs: seq<Voucher>, now: int): set<int> { set i | 0 <= i < |vs| && SelectedExpired(vs[i], now) }

  function ExhaustedRows(vs: seq<Voucher>, plans: map<nat, DataPlan>): set<int> {
    set i | 0 <= i < |vs| && vs[i].plan in plans && SelectedExhausted(vs[i], plans[vs[i].plan])
  }

  function UnsoldRows(vs: seq<Voucher>, now: int): set<int> { set i | 0 <= i < |vs| && SelectedUnsold(vs[i], now) }

  /** _expire_vouchers_locked over the vouchers table. */
  class ExpiryJob {
    var vouchers: seq<Voucher>

    /** One transition loop: the selected rows, except those an earlier loop handled. */
    method Transition(selected: set<int>, handled: set<int>, status: Status) returns (count: nat)
      requires forall i <- selected :: 0 <= i < |vouchers|
      modifies this
      ensures |vouchers| == |old(vouchers)|
      ensures forall i | 0 <= i < |vouchers| ::
                vouchers[i] == if i in selected - handled then old(vouchers)[i].(status := status) else old(vouchers)[i]
      ensures count == |selected - handled|
    {
      hide Below;
      ghost var was := vouchers;
      ghost var done := selected - handled;
      AllBelow(done, |vouchers|);
      count := 0;
      for i := 0 to |vouchers|
        invariant |vouchers| == |was|
        invariant forall j | 0 <= j < |was| ::
                    vouchers[j] == if j < i && j in done then was[j].(status := status) else was[j]
        invariant count == |Below(done, i)|
      {
        Widen(done, i);
        if i in selected && i !in handled {
          vouchers := vouchers[i := vouchers[i].(status := status)];
          count := count + 1;
        }
      }
    }

    /** Both selections are read before anything changes; the sell-by update comes last.
        The counts add up to the vouchers changed. */
    method Run(plans: map<nat, DataPlan>, now: int) returns (expired: nat, exhausted: nat, unsold: nat)
      requires PlansKnown(vouchers, plans)
      modifies this
      ensures |vouchers| == |old(vouchers)| && PlansKnown(old(vouchers), plans)
      ensures forall i | 0 <= i < |vouchers| ::
                var v, p := old(vouchers)[i], plans[old(vouchers)[i].plan];
                vouchers[i] ==
                if v.status.Active? && v.expiresAt.Some? && v.expiresAt.value < now then v.(status := Expired)
                else if v.status.Active? && p.dataLimitMb.Some? && v.dataUsedMb.Some?
                        && v.dataUsedMb.value >= p.dataLimitMb.value then v.(status := Exhausted)
                else if v.status.Unused? && v.redeemBy.Some? && v.redeemBy.value < now then v.(status := Expired)
                else v
      ensures expired == |set i | 0 <= i < |old(vouchers)| && old(vouchers)[i].status == Active
                                  && vouchers[i].status == Expired|
      ensures exhausted == |set i | 0 <= i < |old(vouchers)| && old(vouchers)[i].status == Active
                                    && vouchers[i].status == Exhausted|
      ensures unsold == |set i | 0 <= i < |old(vouchers)| && old(vouchers)[i].status == Unused
                                 && vouchers[i].status == Expired|
      ensures expired + exhausted + unsold
              == |set i | 0 <= i < |old(vouchers)| && vouchers[i] != old(vouchers)[i]|
    {
      hide AfterExpiry, ExpiredRows, ExhaustedRows, UnsoldRows, ChangedRows, PlansKnown;
      InRange(vouchers, plans, now);
      ghost var was := vouchers;
      var expiredRows, exhaustedRows := ExpiredRows(vouchers, now), ExhaustedRows(vouchers, plans);
      expired := Transition(expiredRows, {}, Expired);
      ghost var one := vouchers;
      exhausted := Transition(exhaustedRows, expiredRows, Exhausted);
      ghost var two := vouchers;
      var unsoldRows := UnsoldRows(vouchers, now);
      InRange(vouchers, plans, now);
      unsold := Transition(unsoldRows, {}, Expired);
      assert expiredRows - {} == expiredRows && unsoldRows - {} == unsoldRows;
      RowsAfter(was, one, two, plans, now);
      ChangedAddUp(was, plans, now);
      RunMeans(was, vouchers, plans, now);
    }
  }

  lemma ChangesOf(v: Voucher, p: DataPlan, now: int)
    ensures var w := AfterExpiry(v, p, now);
            && (SelectedExpired(v, now) <==> v.status.Active? && w.status.Expired?)
            && (SelectedExhausted(v, p) && !SelectedExpired(v, now) <==> v.status.Active? && w.status.Exhausted?)
            && (SelectedUnsold(v, now) <==> v.status.Unused? && w.status.Expired?)
  {}

  /** The selections, by what became of the rows. */
  lemma CountsAre(was: seq<Voucher>, after: seq<Voucher>, plans: map<nat, DataPlan>, now: int)
    requires PlansKnown(was, plans) && |after| == |was|
    requires forall i | 0 <= i < |was| ::
               was[i].plan in plans && after[i] == AfterExpiry(was[i], plans[was[i].plan], now)
    ensures ExpiredRows(was, now)
            == (set i | 0 <= i < |was| && was[i].status == Active && after[i].status == Expired)
    ensures ExhaustedRows(was, plans) - ExpiredRows(was, now)
            == (set i | 0 <= i < |was| && was[i].status == Active && after[i].status == Exhausted)
    ensures UnsoldRows(was, now) == (set i | 0 <= i < |was| && was[i].status == Unused && after[i].status == Expired)
    ensures ChangedRows(was, plans, now) == (set i | 0 <= i < |was| && after[i] != was[i])
  {
    hide AfterExpiry, SelectedExpired, SelectedExhausted, SelectedUnsold;
    forall i | 0 <= i < |was|
      ensures SelectedExpired(was[i], now) <==> was[i].status.Active? && after[i].status.Expired?
      ensures SelectedExhausted(was[i], plans[was[i].plan]) && !SelectedExpired(was[i], now) <==>
              was[i].status.Active? && after[i].status.Exhausted?
      ensures SelectedUnsold(was[i], now) <==> was[i].status.Unused? && after[i].status.Expired?
    {
      ChangesOf(was[i], plans[was[i].plan], now);
    }
  }

  /** What a run comes to, on the rows themselves. */
  lemma RunMeans(was: seq<Voucher>, after: seq<Voucher>, plans: map<nat, DataPlan>, now: int)
    requires PlansKnown(was, plans) && |after| == |was|
    requires forall i | 0 <= i < |was| ::
               was[i].plan in plans && after[i] == AfterExpiry(was[i], plans[was[i].plan], now)
    ensures forall i | 0 <= i < |was| ::
              var v, p := was[i], plans[was[i].plan];
              after[i] ==
              if v.status.Active? && v.expiresAt.Some? && v.expiresAt.value < now then v.(status := Expired)
              else if v.status.Active? && p.dataLimitMb.Some? && v.dataUsedMb.Some?
                      && v.dataUsedMb.value >= p.dataLimitMb.value then v.(status := Exhausted)
              else if v.status.Unused? && v.redeemBy.Some? && v.redeemBy.value < now then v.(status := Expired)
              else v
    ensures |ExpiredRows(was, now)|
            == |set i | 0 <= i < |was| && was[i].status == Active && after[i].status == Expired|
    ensures |ExhaustedRows(was, plans) - ExpiredRows(was, now)|
            == |set i | 0 <= i < |was| && was[i].status == Active && after[i].status == Exhausted|
    ensures |UnsoldRows(was, now)| == |set i | 0 <= i < |was| && was[i].status == Unused && after[i].status == Expired|
    ensures |ChangedRows(was, plans, now)| == |set i | 0 <= i < |was| && after[i] != was[i]|
  {
    hide AfterExpiry, ExpiredRows, ExhaustedRows, UnsoldRows, ChangedRows;
    CountsAre(was, after, plans, now);
    forall i | 0 <= i < |was|
      ensures var v, p := was[i], plans[was[i].plan];
              after[i] ==
              if v.status.Active? && v.expiresAt.Some? && v.expiresAt.value < now then v.(status := Expired)
              else if v.status.Active? && p.dataLimitMb.Some? && v.dataUsedMb.Some?
                      && v.dataUsedMb.value >= p.dataLimitMb.value then v.(status := Exhausted)
              else if v.status.Unused? && v.redeemBy.Some? && v.redeemBy.value < now then v.(status := Expired)
              else v
    {
      ExpiryWrites(was[i], plans[was[i].plan], now);
    }
  }

  lemma RowAfter(v: Voucher, one: Voucher, two: Voucher, p: DataPlan, now: int)
    requires one == if SelectedExpired(v, now) then v.(status := Expired) else v
    requires two == if SelectedExhausted(v, p) && !SelectedExpired(v, now) then one.(status := Exhausted) else one
    ensures SelectedUnsold(two, now) == SelectedUnsold(v, now)
    ensures (if SelectedUnsold(two, now) then two.(status := Expired) else two) == AfterExpiry(v, p, now)
  {}

  lemma InRange(vs: seq<Voucher>, plans: map<nat, DataPlan>, now: int)
    ensures forall i <- ExpiredRows(vs, now) :: 0 <= i < |vs|
    ensures forall i <- ExhaustedRows(vs, plans) :: 0 <= i < |vs|
    ensures forall i <- UnsoldRows(vs, now) :: 0 <= i < |vs|
  {}

  /** The three loops, row by row. */
  lemma RowsAfter(was: seq<Voucher>, one: seq<Voucher>, two: seq<Voucher>, plans: map<nat, DataPlan>, now: int)
    requires PlansKnown(was, plans) && |one| == |two| == |was|
    requires forall i | 0 <= i < |was| ::
               one[i] == if i in ExpiredRows(was, now) then was[i].(status := Expired) else was[i]
    requires forall i | 0 <= i < |was| ::
               two[i] == if i in ExhaustedRows(was, plans) - ExpiredRows(was, now)
                         then one[i].(status := Exhausted) else one[i]
    ensures forall i | 0 <= i < |was| :: was[i].plan in plans
    ensures UnsoldRows(two, now) == UnsoldRows(was, now)
    ensures forall i | 0 <= i < |was| ::
              (if i in UnsoldRows(two, now) then two[i].(status := Expired) else two[i])
              == AfterExpiry(was[i], plans[was[i].plan], now)
  {
    hide SelectedExpired, SelectedExhausted, SelectedUnsold, AfterExpiry;
    forall i | 0 <= i < |was|
      ensures was[i].plan in plans && SelectedUnsold(two[i], now) == SelectedUnsold(was[i], now)
      ensures (if SelectedUnsold(two[i], now) then two[i].(status := Expired) else two[i])
              == AfterExpiry(was[i], plans[was[i].plan], now)
    {
      assert was[i] in was;
      RowAfter(was[i], one[i], two[i], plans[was[i].plan], now);
    }
  }

  /** What selects a row changes it, and a row is unused or active, not both. */
  lemma ChangedIff(v: Voucher, p: DataPlan, now: int)
    ensures AfterExpiry(v, p, now) != v <==>
            SelectedExpired(v, now) || SelectedExhausted(v, p) || SelectedUnsold(v, now)
    ensures !(SelectedUnsold(v, now) && (SelectedExpired(v, now) || SelectedExhausted(v, p)))
  {}

  lemma ChangedAre(vs: seq<Voucher>, plans: map<nat, DataPlan>, now: int)
    requires PlansKnown(vs, plans)
    ensures ChangedRows(vs, plans, now) == ExpiredRows(vs, now) + ExhaustedRows(vs, plans) + UnsoldRows(vs, now)
    ensures UnsoldRows(vs, now) !! ExpiredRows(vs, now) && UnsoldRows(vs, now) !! ExhaustedRows(vs, plans)
  {
    hide AfterExpiry, SelectedExpired, SelectedExhausted, SelectedUnsold;
    forall i | 0 <= i < |vs|
      ensures vs[i].plan in plans
      ensures AfterExpiry(vs[i], plans[vs[i].plan], now) != vs[i] <==>
              SelectedExpired(vs[i], now) || SelectedExhausted(vs[i], plans[vs[i].plan]) || SelectedUnsold(vs[i], now)
      ensures !(SelectedUnsold(vs[i], now)
                && (SelectedExpired(vs[i], now) || SelectedExhausted(vs[i], plans[vs[i].plan])))
    {
      assert vs[i] in vs;
      ChangedIff(vs[i], plans[vs[i].plan], now);
    }
  }

  lemma PartsAddUp(a: set<int>, b: set<int>, c: set<int>)
    requires c !! a && c !! b
    ensures |a + b + c| == |a| + |b - a| + |c|
  {
    assert a + b + c == a + (b - a) + c;
  }

  lemma ChangedAddUp(vs: seq<Voucher>, plans: map<nat, DataPlan>, now: int)
    requires PlansKnown(vs, plans)
    ensures |ChangedRows(vs, plans, now)| ==
            |ExpiredRows(vs, now)| + |ExhaustedRows(vs, plans) - ExpiredRows(vs, now)| + |UnsoldRows(vs, now)|
  {
    hide ChangedRows, ExpiredRows, ExhaustedRows, UnsoldRows;
    ChangedAre(vs, plans, now);
    PartsAddUp(ExpiredRows(vs, now), ExhaustedRows(vs, plans), UnsoldRows(vs, now));
  }

  function Below(rows: set<int>, i: int): set<int> { set j | 0 <= j < i && j in rows }

  lemma AllBelow(rows: set<int>, n: int)
    requires forall i <- rows :: 0 <= i < n
    ensures Below(rows, n) == rows && Below(rows, 0) == {}
  {}

  lemma Widen(rows: set<int>, i: int)
    requires i >= 0
    ensures Below(rows, i + 1) == Below(rows, i) + if i in rows then {i} else {}
    ensures i !in Below(rows, i)
  {}
}
