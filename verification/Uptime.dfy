/** RouterOS durations (parse_uptime in backend/src/jobs/reconcile_hotspot.py): weeks to
    seconds with unit letters, found by a regex scan, or hh:mm:ss. Python's int() and
    timedelta both have limits, and raise past them. */
module Uptime {
  import opened Options
  import opened Text

  /** The most digits int() reads. */
  const MAX_INT_DIGITS: nat := 4300

  /** The first number of seconds past timedelta.max. */
  const TIMEDELTA_LIMIT: nat := 86400 * 1_000_000_000

  /** Raises: int() refuses a number, or timedelta the duration. */
  datatype Duration = NoDuration | Seconds(n: nat) | Raises

  function TimeDelta(seconds: nat): Duration { if seconds < TIMEDELTA_LIMIT then Seconds(seconds) else Raises }

  function Worth(n: nat, unit: char): nat {
    if unit == 'w' then n * 604800
    else if unit == 'd' then n * 86400
    else if unit == 'h' then n * 3600
    else if unit == 'm' then n * 60
    else n
  }

  function DigitRun(s: string): (n: nat)
    ensures n <= |s| && AllDigits(s[..n])
    ensures n < |s| ==> !IsDigit(s[n])
  {
    if s == "" || !IsDigit(s[0]) then 0
    else
      var n := DigitRun(s[1..]);
      assert s[..n + 1] == [s[0]] + s[1..][..n];
      n + 1
  }

  /** One match: its digits and its unit letter. */
  type Match = m: (string, char) | m.0 != "" && AllDigits(m.0) witness ("0", 's')

  /** findall of (\d+)([wdhms]): at each position the longest digit run followed by a
      unit letter; no shorter run can match, its next character being a digit. */
  function FindAll(s: string): seq<Match>
    decreases |s|
  {
    if s == "" then []
    else
      var n := DigitRun(s);
      if 0 < n < |s| && s[n] in "wdhms" then [(s[..n], s[n])] + FindAll(s[n + 1..])
      else FindAll(s[1..])
  }

  function Total(found: seq<Match>): nat {
    if found == [] then 0 else Worth(TextNat(found[0].0), found[0].1) + Total(found[1..])
  }

  predicate IsInt(part: string) { part != "" && AllDigits(part) && |part| <= MAX_INT_DIGITS }

  function Number(parts: seq<string>, i: nat): nat
    requires i < |parts| && IsInt(parts[i])
  {
    TextNat(parts[i])
  }

  function ParseUptime(value: Option<string>): Duration {
    if value.None? || value.value == "" then NoDuration
    else if ':' in value.value then
      var parts := Split(value.value, ':');
      if exists i | 0 <= i < |parts| :: !IsInt(parts[i]) then Raises
      else if |parts| == 1 then TimeDelta(Number(parts, 0))
      else if |parts| == 2 then TimeDelta(Number(parts, 0) * 60 + Number(parts, 1))
      else TimeDelta(Number(parts, 0) * 3600 + Number(parts, 1) * 60 + Number(parts, 2))
    else
      var found := FindAll(value.value);
      if found == [] then NoDuration
      else if exists i | 0 <= i < |found| :: !IsInt(found[i].0) then Raises
      else TimeDelta(Total(found))
  }

  // ------------------------------------------------------------------ round trips

  function Part(n: nat, unit: char): string { if n == 0 then "" else NatText(n) + [unit] }

  function UnitsText(units: seq<(nat, char)>): string {
    if units == [] then "" else Part(units[0].0, units[0].1) + UnitsText(units[1..])
  }

  /** n seconds in weeks, days, hours, minutes and seconds. */
  function Units(n: nat): seq<(nat, char)> {
    [(n / 604800, 'w'), (n % 604800 / 86400, 'd'), (n % 86400 / 3600, 'h'), (n % 3600 / 60, 'm'), (n % 60, 's')]
  }

  function UnitsTotal(units: seq<(nat, char)>): nat {
    if units == [] then 0 else Worth(units[0].0, units[0].1) + UnitsTotal(units[1..])
  }

  /** How RouterOS writes n seconds: the units that are not zero, largest first. */
  function UptimeText(n: nat): string {
    if n == 0 then "0s"
    else UnitsText(Units(n))
  }

  function HmsText(h: nat, m: nat, s: nat): string {
    Join([TwoDigits(h), TwoDigits(m), TwoDigits(s)], ':')
  }

  function ClockText(n: nat): string { HmsText(n / 3600, n % 3600 / 60, n % 60) }

  lemma {:induction false} DigitRunExact(digits: string, unit: char, rest: string)
    requires AllDigits(digits) && !IsDigit(unit)
    ensures DigitRun(digits + [unit] + rest) == |digits|
  {
    var s := digits + [unit] + rest;
    var n := DigitRun(s);
    assert s[|digits|] == unit;
    forall i | 0 <= i < n ensures IsDigit(s[i]) { assert s[i] == s[..n][i]; }
    forall i | 0 <= i < |digits| ensures IsDigit(s[i]) { assert s[i] == digits[i]; }
  }

  lemma FindHead(digits: string, unit: char, rest: string)
    requires digits != "" && AllDigits(digits) && unit in "wdhms"
    ensures FindAll(digits + [unit] + rest) == [(digits, unit)] + FindAll(rest)
  {
    var s := digits + [unit] + rest;
    DigitRunExact(digits, unit, rest);
    assert s[..|digits|] == digits && s[|digits|] == unit && s[|digits| + 1..] == rest;
  }

  /** What the scan does with any text, one run of digits and the character after it at a time:
      a match if there are digits and the character is a unit letter, nothing otherwise. */
  lemma {:induction false} ScanReads(digits: string, c: char, rest: string)
    requires AllDigits(digits) && !IsDigit(c)
    ensures FindAll(digits + [c] + rest) == (if digits != "" && c in "wdhms" then [(digits, c)] else []) + FindAll(rest)
    ensures FindAll(digits) == []
    decreases |digits|
  {
    var s := digits + [c] + rest;
    NoUnitAfter(digits);
    DigitRunExact(digits, c, rest);
    if digits == "" {
      assert s[1..] == rest && [] + FindAll(rest) == FindAll(rest);
    } else if c in "wdhms" {
      FindHead(digits, c, rest);
    } else {
      assert s[|digits|] == c && s[1..] == digits[1..] + [c] + rest;
      ScanReads(digits[1..], c, rest);
    }
  }

  lemma {:induction false} NoUnitAfter(digits: string)
    requires AllDigits(digits)
    ensures FindAll(digits) == []
  {
    if digits != "" {
      NoUnitAfter(digits[1..]);
    }
  }

  /** A clock text with any number of parts: minutes and seconds, or hours before them and
      whatever else ignored after; it raises exactly when a part is no number int() reads, or the
      duration is past timedelta.max. */
  lemma ClockReads(parts: seq<string>)
    requires |parts| >= 2 && forall i | 0 <= i < |parts| :: ':' !in parts[i]
    ensures var readable := forall i | 0 <= i < |parts| :: parts[i] != "" && AllDigits(parts[i]) && |parts[i]| <= 4300;
            ParseUptime(Some(Join(parts, ':'))) ==
            if !readable then Raises
            else
              var n := if |parts| == 2 then TextNat(parts[0]) * 60 + TextNat(parts[1])
                       else TextNat(parts[0]) * 3600 + TextNat(parts[1]) * 60 + TextNat(parts[2]);
              if n < 86400 * 1_000_000_000 then Seconds(n) else Raises
  {
    hide ParseUptime, Split;
    SplitJoin(parts, ':');
    assert Join(parts, ':')[|parts[0]|] == ':';
    hide Join, TextNat;
    PartsRead(Join(parts, ':'), parts);
  }

  /** A text without a colon: no duration when nothing matches; else the sum, unless a number is
      one int() refuses or the sum is past timedelta.max. */
  lemma UnitsRead(text: string)
    requires ':' !in text
    ensures ParseUptime(None) == NoDuration
    ensures var found := FindAll(text);
            ParseUptime(Some(text)) ==
            if found == [] then NoDuration
            else if (exists i | 0 <= i < |found| :: |found[i].0| > 4300) || Total(found) >= 86400 * 1_000_000_000
            then Raises else Seconds(Total(found))
  {}

  /** What is found of one unit: nothing when it is zero. */
  function Found(n: nat, unit: char): seq<Match> { if n == 0 then [] else [(NatText(n), unit)] }

  lemma FindPart(n: nat, unit: char, rest: string)
    requires unit in "wdhms"
    ensures FindAll(Part(n, unit) + rest) == Found(n, unit) + FindAll(rest)
    ensures ':' !in Part(n, unit) && (n > 0 ==> Part(n, unit) != "")
  {
    hide FindAll;
    if n == 0 {
      assert Part(n, unit) + rest == rest;
    } else {
      FindHead(NatText(n), unit, rest);
    }
  }

  /** What the scan finds in a text of units: the units that are written. */
  function Written(units: seq<(nat, char)>): seq<Match> {
    if units == [] then [] else Found(units[0].0, units[0].1) + Written(units[1..])
  }

  lemma {:induction false} UnitsTextReads(units: seq<(nat, char)>)
    requires forall i | 0 <= i < |units| :: units[i].1 in "wdhms"
    ensures ':' !in UnitsText(units) && FindAll(UnitsText(units)) == Written(units)
    ensures Written(units) != [] ==> UnitsText(units) != ""
  {
    if units != [] {
      hide Part, NatText, FindAll;
      UnitsTextReads(units[1..]);
      FindPart(units[0].0, units[0].1, UnitsText(units[1..]));
    }
  }

  lemma NothingWorth(unit: char)
    ensures Worth(0, unit) == 0
  {}

  lemma {:induction false} WrittenAddUp(units: seq<(nat, char)>)
    ensures Total(Written(units)) == UnitsTotal(units)
    ensures UnitsTotal(units) > 0 ==> Written(units) != []
  {
    hide NatText, TextNat, Worth;
    if units != [] {
      WrittenAddUp(units[1..]);
      NothingWorth(units[0].1);
      var n, unit, rest := units[0].0, units[0].1, Written(units[1..]);
      if n == 0 {
        assert [] + rest == rest;
      } else {
        NatTextRoundTrip(n);
        assert ([(NatText(n), unit)] + rest)[1..] == rest;
      }
    }
  }

  lemma {:induction false} WrittenShort(units: seq<(nat, char)>, k: nat)
    requires k > 0 && forall i | 0 <= i < |units| :: units[i].0 < Pow10(k)
    ensures forall i | 0 <= i < |Written(units)| :: |Written(units)[i].0| <= k
  {
    if units != [] {
      WrittenShort(units[1..], k);
      NatTextLength(units[0].0, k);
    }
  }

  lemma LimitIsShort()
    ensures TIMEDELTA_LIMIT <= Pow10(14)
  {
    assert Pow10(7) == 10000000;
    assert Pow10(14) == 100000000000000;
  }

  /** The unit text of a number of seconds reads back as that number, as long as timedelta
      can hold it; from there on reading it raises. */
  lemma UptimeRoundTrip(n: nat)
    ensures ParseUptime(Some(UptimeText(n))) == if n < 86400 * 1_000_000_000 then Seconds(n) else Raises
  {
    hide Units, UnitsText, UnitsTotal, Total, Written, FindAll;
    if n == 0 {
      ZeroReads();
    } else {
      UnitsKnown(n);
      UnitsAddUp(n);
      UnitsTextReads(Units(n));
      WrittenAddUp(Units(n));
      if n < TIMEDELTA_LIMIT {
        LimitIsShort();
        WrittenShort(Units(n), 14);
      }
    }
  }

  lemma ZeroReads()
    ensures ParseUptime(Some("0s")) == Seconds(0)
  {}

  lemma UnitsKnown(n: nat)
    ensures forall i | 0 <= i < |Units(n)| :: Units(n)[i].1 in "wdhms" && Units(n)[i].0 <= n
  {
    assert n / 604800 <= n && n % 604800 / 86400 <= n && n % 86400 / 3600 <= n && n % 3600 / 60 <= n && n % 60 <= n;
  }

  lemma FiveAddUp(w: nat, d: nat, h: nat, m: nat, s: nat)
    ensures UnitsTotal([(w, 'w'), (d, 'd'), (h, 'h'), (m, 'm'), (s, 's')])
            == w * 604800 + d * 86400 + h * 3600 + m * 60 + s
  {
    var u := [(w, 'w'), (d, 'd'), (h, 'h'), (m, 'm'), (s, 's')];
    assert u[1..][1..] == u[2..] && u[2..][1..] == u[3..] && u[3..][1..] == u[4..];
    assert UnitsTotal(u[4..]) == s;
    assert UnitsTotal(u[2..]) == h * 3600 + m * 60 + s;
  }

  lemma UnitsOf(n: nat)
    ensures n / 604800 * 604800 + n % 604800 / 86400 * 86400 + n % 86400 / 3600 * 3600
            + n % 3600 / 60 * 60 + n % 60 == n
  {
    DaysOf(n);
    HoursOf(n);
    HmsAddUp(n);
  }

  lemma DaysOf(n: nat)
    ensures n / 604800 * 604800 + n % 604800 / 86400 * 86400 + n % 86400 == n
  {
    var weeks, r := n / 604800, n % 604800;
    Remainder86400(n, weeks * 7 + r / 86400, r % 86400);
  }

  lemma HoursOf(n: nat)
    ensures n % 86400 / 3600 * 3600 + n % 3600 == n % 86400
  {
    var days, r := n / 86400, n % 86400;
    Remainder3600(n, days * 24 + r / 3600, r % 3600);
  }

  lemma MinutesOf(n: nat)
    ensures n % 3600 / 60 * 60 + n % 60 == n % 3600
  {
    var hours, r := n / 3600, n % 3600;
    Remainder60(n, hours * 60 + r / 60, r % 60);
  }

  lemma Remainder86400(n: nat, k: nat, r: nat)
    requires n == k * 86400 + r && r < 86400
    ensures n % 86400 == r
  {}

  lemma Remainder3600(n: nat, k: nat, r: nat)
    requires n == k * 3600 + r && r < 3600
    ensures n % 3600 == r
  {}

  lemma Remainder60(n: nat, k: nat, r: nat)
    requires n == k * 60 + r && r < 60
    ensures n % 60 == r
  {}

  lemma UnitsAddUp(n: nat)
    ensures UnitsTotal(Units(n)) == n
  {
    UnitsOf(n);
    FiveAddUp(n / 604800, n % 604800 / 86400, n % 86400 / 3600, n % 3600 / 60, n % 60);
  }

  lemma PartsRead(text: string, parts: seq<string>)
    requires ':' in text && Split(text, ':') == parts && |parts| >= 2
    ensures (exists i | 0 <= i < |parts| :: !IsInt(parts[i])) ==> ParseUptime(Some(text)).Raises?
    ensures (forall i | 0 <= i < |parts| :: IsInt(parts[i])) ==>
            ParseUptime(Some(text)) ==
            TimeDelta(if |parts| == 2 then TextNat(parts[0]) * 60 + TextNat(parts[1])
                      else TextNat(parts[0]) * 3600 + TextNat(parts[1]) * 60 + TextNat(parts[2]))
  {
    hide Split, TextNat, IsInt, TimeDelta, FindAll;
  }

  lemma HmsTextReads(h: nat, m: nat, s: nat)
    ensures ParseUptime(Some(HmsText(h, m, s))) ==
            if IsInt(TwoDigits(h)) && IsInt(TwoDigits(m)) && IsInt(TwoDigits(s))
            then TimeDelta(h * 3600 + m * 60 + s) else Raises
  {
    hide TwoDigits, ParseUptime, Join;
    var parts := [TwoDigits(h), TwoDigits(m), TwoDigits(s)];
    DigitsHaveNoColon(parts[0]); DigitsHaveNoColon(parts[1]); DigitsHaveNoColon(parts[2]);
    ClockReads(parts);
    TwoDigitsRoundTrip(h); TwoDigitsRoundTrip(m); TwoDigitsRoundTrip(s);
  }

  lemma DigitsHaveNoColon(s: string)
    requires AllDigits(s)
    ensures ':' !in s
  {}

  lemma TwoDigitsShort(n: nat, k: nat)
    requires k > 1 && n < Pow10(k)
    ensures |TwoDigits(n)| <= k
  {
    NatTextLength(n, k);
  }

  /** So does its clock text, with as many hour digits as it takes. */
  lemma ClockRoundTrip(n: nat)
    ensures ParseUptime(Some(ClockText(n))) == if n < 86400 * 1_000_000_000 then Seconds(n) else Raises
  {
    hide HmsText, TwoDigits;
    HmsAddUp(n);
    HmsTextReads(n / 3600, n % 3600 / 60, n % 60);
    if n < TIMEDELTA_LIMIT {
      LimitIsShort();
      TwoDigitsShort(n / 3600, 14); TwoDigitsShort(n % 3600 / 60, 14); TwoDigitsShort(n % 60, 14);
    }
  }

  lemma HmsAddUp(n: nat)
    ensures n / 3600 * 3600 + n % 3600 / 60 * 60 + n % 60 == n
  {
    MinutesOf(n);
  }
}
