/** The attendance engine of the clinic back-office: resolving an employee's work schedule,
    the workday test, check-in and check-out classification, the NFC dispatch between them
    and the daily summary.

    Instants are integer milliseconds since the epoch. The wall clock is never read: `now`,
    the date key `today` (the UTC calendar day, as `toISOString()` gives it), the local weekday
    (as `getDay()` gives it) and the instant of local midnight are parameters. The attendance
    collection is a sequence of records in collection order, passed in and returned. */
module Attendance {
  import opened Wrappers
  import Seqs

  const MsPerMinute: int := 60000
  const MsPerHour: int := 3600000

  /** The names indexed by `Date.prototype.getDay()`, Sunday first. */
  const DayNames: seq<string> := ["sunday", "monday", "tuesday", "wednesday", "thursday", "friday", "saturday"]

  type EmployeeId = nat
  type ClinicId = nat

  datatype Status = Present | Late | EarlyLeave | Overtime

  /** One attendance document: one per employee and date key. A missing timestamp is `None`. */
  datatype AttendanceRecord = AttendanceRecord(
    employeeId: EmployeeId,
    date: string,
    checkInTime: Option<int>,
    checkOutTime: Option<int>,
    lateMinutes: int,
    earlyLeaveMinutes: int,
    overtimeMinutes: int,
    totalWorkMinutes: int,
    status: Status)

  /** An employee's own schedule; an empty string stands for a missing (falsy) time. */
  datatype PersonalSchedule = PersonalSchedule(enabled: bool, startTime: string, endTime: string, workDays: seq<string>)

  datatype Employee = Employee(
    id: EmployeeId,
    isActive: bool,
    nfcCardId: string,
    clinicId: ClinicId,
    personalSchedule: Option<PersonalSchedule>)

  datatype ClinicSchedule = ClinicSchedule(startTime: string, endTime: string, workDays: seq<string>)

  datatype AttendanceSettings = AttendanceSettings(
    gracePeriodMinutes: int,
    earlyLeaveThresholdMinutes: int,
    overtimeThresholdMinutes: int)

  datatype Clinic = Clinic(workSchedule: ClinicSchedule, settings: AttendanceSettings)

  /** The schedule in effect for one employee. */
  datatype WorkSchedule = WorkSchedule(startTime: string, endTime: string, workDays: seq<string>, settings: AttendanceSettings)

  datatype AttendanceError =
    | EmployeeNotFound
    | EmployeeInactive
    | ClinicNotFound
    | NotWorkDay
    | AlreadyCheckedIn(existing: AttendanceRecord)
    | NotCheckedIn
    | AlreadyCheckedOut(existing: AttendanceRecord)
    | CardNotRegistered
    | ClinicInactive

  // ---------------------------------------------------------------------------
  // Schedule resolution and the workday test
  // ---------------------------------------------------------------------------

  predicate OverrideEnabled(e: Employee) {
    e.personalSchedule.Some? && e.personalSchedule.value.enabled
  }

  /** `getWorkSchedule`: the clinic default, overridden field by field by an enabled personal
      schedule; the thresholds always come from the clinic. */
  function ResolveSchedule(e: Employee, clinics: map<ClinicId, Clinic>): (r: Result<WorkSchedule, AttendanceError>)
    ensures e.clinicId !in clinics <==> r == Failure(ClinicNotFound)
    ensures r.Success? ==> e.clinicId in clinics && r.value.settings == clinics[e.clinicId].settings
    ensures r.Success? && !OverrideEnabled(e) ==>
      var c := clinics[e.clinicId].workSchedule;
      r.value.startTime == c.startTime && r.value.endTime == c.endTime && r.value.workDays == c.workDays
    ensures r.Success? && OverrideEnabled(e) ==>
      var c, p := clinics[e.clinicId].workSchedule, e.personalSchedule.value;
      && r.value.startTime == (if p.startTime != "" then p.startTime else c.startTime)
      && r.value.endTime == (if p.endTime != "" then p.endTime else c.endTime)
      && r.value.workDays == (if |p.workDays| > 0 then p.workDays else c.workDays)
  {
    if e.clinicId !in clinics then Failure(ClinicNotFound)
    else
      var clinic := clinics[e.clinicId];
      var c := clinic.workSchedule;
      if OverrideEnabled(e) then
        var p := e.personalSchedule.value;
        Success(WorkSchedule(
          if p.startTime != "" then p.startTime else c.startTime,
          if p.endTime != "" then p.endTime else c.endTime,
          if |p.workDays| > 0 then p.workDays else c.workDays,
          clinic.settings))
      else
        Success(WorkSchedule(c.startTime, c.endTime, c.workDays, clinic.settings))
  }

  /** An enabled override whose fields are all empty resolves to the clinic default, and a
      disabled override is ignored altogether. */
  lemma EmptyOrDisabledOverrideIsClinicDefault(e: Employee, clinics: map<ClinicId, Clinic>)
    requires e.personalSchedule.Some?
    requires var p := e.personalSchedule.value;
      !p.enabled || (p.startTime == "" && p.endTime == "" && p.workDays == [])
    ensures ResolveSchedule(e, clinics) == ResolveSchedule(e.(personalSchedule := None), clinics)
  {
  }

  /** The fallback is field by field: changing the override's start time changes nothing
      but the resolved start time. */
  lemma FallbackIsFieldwise(e: Employee, clinics: map<ClinicId, Clinic>, t: string)
    requires e.clinicId in clinics && OverrideEnabled(e)
    ensures var e' := e.(personalSchedule := Some(e.personalSchedule.value.(startTime := t)));
      var r, r' := ResolveSchedule(e, clinics).value, ResolveSchedule(e', clinics).value;
      r'.endTime == r.endTime && r'.workDays == r.workDays && r'.settings == r.settings
  {
  }

  /** `isWorkDay`: the weekday's name is one of the schedule's work days. */
  function IsWorkDay(workDays: seq<string>, weekday: nat): (b: bool)
    requires weekday < 7
    ensures b <==> exists i :: 0 <= i < |workDays| && workDays[i] == DayNames[weekday]
  {
    DayNames[weekday] in workDays
  }

  // ---------------------------------------------------------------------------
  // Clock times: `"HH:MM".split(':')`, `parseInt` and `setHours(h, m, 0, 0)`
  // ---------------------------------------------------------------------------

  /** The white space and line terminators that `parseInt` skips (section 7.2 and 7.3 of
      ECMA-262: the Unicode space separators among them). */
  predicate IsJsSpace(c: char) {
    c == ' ' || ('\t' <= c <= '\r') || ('\U{00A0}' <= c && IsWideSpace(c))
  }

  /** The white space characters from U+00A0 on. */
  predicate IsWideSpace(c: char) {
    || c == '\U{00A0}' || c == '\U{1680}' || ('\U{2000}' <= c <= '\U{200A}')
    || c == '\U{2028}' || c == '\U{2029}' || c == '\U{202F}' || c == '\U{205F}' || c == '\U{3000}'
    || c == '\U{FEFF}'
  }

  predicate IsDigit(c: char) { '0' <= c <= '9' }

  predicate IsColon(c: char) { c == ':' }

  /** The value of a digit in bases up to 36, letters in either case; 36 for any other
      character. */
  function DigitOf(c: char): nat {
    if '0' <= c <= '9' then (c as int) - ('0' as int)
    else if 'a' <= c <= 'z' then (c as int) - ('a' as int) + 10
    else if 'A' <= c <= 'Z' then (c as int) - ('A' as int) + 10
    else 36
  }

  predicate IsRadixDigit(c: char, radix: nat) {
    DigitOf(c) < radix
  }

  /** The text without its leading white space. */
  function SkipSpace(s: string): (r: string)
    ensures |r| <= |s|
    ensures r != [] ==> !IsJsSpace(r[0])
  {
    if s == [] || !IsJsSpace(s[0]) then s else SkipSpace(s[1..])
  }

  /** Length of the leading run of digits of the radix. */
  function DigitRun(s: string, radix: nat): (n: nat)
    ensures n <= |s|
    ensures forall i :: 0 <= i < n ==> IsRadixDigit(s[i], radix)
    ensures n < |s| ==> !IsRadixDigit(s[n], radix)
  {
    if s == [] || !IsRadixDigit(s[0], radix) then 0 else 1 + DigitRun(s[1..], radix)
  }

  /** The value of a string of digits in the radix, most significant first. */
  function RadixValue(s: string, radix: nat): nat
    requires forall i :: 0 <= i < |s| ==> IsRadixDigit(s[i], radix)
  {
    if s == [] then 0
    else
      var high: nat := RadixValue(s[..|s| - 1], radix);
      var shifted: nat := radix * high;
      shifted + DigitOf(s[|s| - 1])
  }

  /** The text after the white space and the sign. */
  function Unsigned(s: string): string {
    var t := SkipSpace(s);
    if t != [] && (t[0] == '+' || t[0] == '-') then t[1..] else t
  }

  predicate Negative(s: string) {
    var t := SkipSpace(s);
    t != [] && t[0] == '-'
  }

  predicate HexPrefix(u: string) {
    |u| >= 2 && u[0] == '0' && (u[1] == 'x' || u[1] == 'X')
  }

  /** The base of the unsigned text: 16 after a `0x` prefix, otherwise 10. */
  function Radix(u: string): nat {
    if HexPrefix(u) then 16 else 10
  }

  /** Where the digits of the unsigned text start. */
  function Digits(u: string): string {
    if HexPrefix(u) then u[2..] else u
  }

  /** `parseInt(s)` with no radix: leading white space is skipped, then one `+` or `-`, then a
      `0x` or `0X` prefix switches to base 16; the longest run of digits that follows is read,
      and `None` (NaN) means there was none. */
  function ParseInt(s: string): (r: Option<int>)
    ensures var u := Unsigned(s);
      r.None? <==> Digits(u) == [] || !IsRadixDigit(Digits(u)[0], Radix(u))
    ensures r.Some? && r.value < 0 ==> Negative(s)
  {
    var u := Unsigned(s);
    var digits, radix := Digits(u), Radix(u);
    var n := DigitRun(digits, radix);
    if n == 0 then None
    else
      var v: int := RadixValue(digits[..n], radix);
      Some(if Negative(s) then -v else v)
  }

  /** The text before the first ':' of `t`, or all of `t`. */
  function BeforeColon(t: string): (r: string)
    ensures r <= t
  {
    match Seqs.FirstIndex(t, IsColon)
    case None => t
    case Some(k) => t[..k]
  }

  /** Milliseconds from midnight that `setHours(h, m, 0, 0)` adds for the time `t`, or `None`
      when the hour or minute part is NaN. The hour is `parseInt` of the text before the first
      ':', the minute `parseInt` of the text between it and the next ':', and `undefined` (NaN)
      when there is no ':'. Out-of-range and negative parts carry into the neighbouring hours
      and days, as `setHours` does. */
  function TimeOfDay(t: string): (r: Option<int>)
    ensures r.Some? ==> Seqs.FirstIndex(t, IsColon).Some?
  {
    match Seqs.FirstIndex(t, IsColon)
    case None => None
    case Some(k) =>
      match (ParseInt(t[..k]), ParseInt(BeforeColon(t[k + 1..])))
      case (Some(h), Some(m)) => Some(h * MsPerHour + m * MsPerMinute)
      case _ => None
  }

  /** The instant `setHours(h, m, 0, 0)` gives on the day that starts at `localMidnight`;
      `None` is an Invalid Date. */
  function WorkInstant(localMidnight: int, t: string): Option<int> {
    match TimeOfDay(t)
    case None => None
    case Some(ms) => Some(localMidnight + ms)
  }

  /** A well-formed "HH:MM" names HH hours and MM minutes after midnight. */
  lemma {:induction false} ClockTimeParses(t: string)
    requires |t| == 5 && t[2] == ':'
    requires IsDigit(t[0]) && IsDigit(t[1]) && IsDigit(t[3]) && IsDigit(t[4])
    ensures TimeOfDay(t) == Some((10 * DigitOf(t[0]) + DigitOf(t[1])) * MsPerHour + (10 * DigitOf(t[3]) + DigitOf(t[4])) * MsPerMinute)
  {
    ColonAtTwo(t);
    HoursOfClockTime(t);
    MinutesOfClockTime(t);
  }

  lemma HoursOfClockTime(t: string)
    requires |t| == 5 && IsDigit(t[0]) && IsDigit(t[1])
    ensures ParseInt(t[..2]) == Some(10 * DigitOf(t[0]) + DigitOf(t[1]))
  {
    var hh := t[..2];
    assert hh[0] == t[0] && hh[1] == t[1];
    TwoDigitsParse(hh);
  }

  /** The time of day from its two parts. */
  lemma TimeOfDayParts(t: string, k: nat, h: int, m: int)
    requires Seqs.FirstIndex(t, IsColon) == Some(k)
    requires ParseInt(t[..k]) == Some(h) && ParseInt(BeforeColon(t[k + 1..])) == Some(m)
    ensures TimeOfDay(t) == Some(h * MsPerHour + m * MsPerMinute)
  {
    var parts := (ParseInt(t[..k]), ParseInt(BeforeColon(t[k + 1..])));
    assert parts == (Some(h), Some(m));
  }

  lemma ColonAtTwo(t: string)
    requires |t| >= 3 && !IsColon(t[0]) && !IsColon(t[1]) && IsColon(t[2])
    ensures Seqs.FirstIndex(t, IsColon) == Some(2)
  {
  }

  lemma MinutesOfClockTime(t: string)
    requires |t| == 5 && IsDigit(t[3]) && IsDigit(t[4])
    ensures ParseInt(BeforeColon(t[3..])) == Some(10 * DigitOf(t[3]) + DigitOf(t[4]))
  {
    var mm := t[3..];
    assert mm[0] == t[3] && mm[1] == t[4];
    NoColonBefore(mm);
    TwoDigitsParse(mm);
  }

  lemma NoColonBefore(m: string)
    requires |m| == 2 && !IsColon(m[0]) && !IsColon(m[1])
    ensures BeforeColon(m) == m
  {
  }

  /** Two decimal digits parse as a two-digit number. */
  lemma {:induction false} TwoDigitsParse(s: string)
    requires |s| == 2 && IsDigit(s[0]) && IsDigit(s[1])
    ensures ParseInt(s) == Some(10 * DigitOf(s[0]) + DigitOf(s[1]))
  {
    assert !IsJsSpace(s[0]) && SkipSpace(s) == s;
    assert Unsigned(s) == s && !Negative(s) && !HexPrefix(s);
    assert Digits(s) == s && Radix(s) == 10;
    assert DigitRun(s[2..], 10) == 0;
    assert s[1..][0] == s[1] && s[1..][1..] == s[2..];
    assert DigitRun(s[1..], 10) == 1;
    assert DigitRun(s, 10) == 2;
    assert s[..2] == s;
    assert s[..1] == [s[0]] && [s[0]][..0] == [];
    assert RadixValue(s[..1], 10) == DigitOf(s[0]);
  }

  /** Leading white space does not change what `parseInt` reads. */
  lemma SpaceIsSkipped(w: string, s: string)
    requires forall i :: 0 <= i < |w| ==> IsJsSpace(w[i])
    ensures ParseInt(w + s) == ParseInt(s)
  {
    SkipSpaceOfPrefix(w, s);
    assert Unsigned(w + s) == Unsigned(s) && (Negative(w + s) <==> Negative(s));
  }

  lemma {:induction false} SkipSpaceOfPrefix(w: string, s: string)
    requires forall i :: 0 <= i < |w| ==> IsJsSpace(w[i])
    ensures SkipSpace(w + s) == SkipSpace(s)
  {
    if w != [] {
      assert IsJsSpace(w[0]);
      assert (w + s)[0] == w[0] && (w + s)[1..] == w[1..] + s;
      assert SkipSpace(w + s) == SkipSpace(w[1..] + s);
      assert forall i :: 0 <= i < |w[1..]| ==> IsJsSpace(w[1..][i]);
      SkipSpaceOfPrefix(w[1..], s);
    } else {
      assert w + s == s;
    }
  }

  /** A leading minus negates the number that follows it, and leaves NaN as it is. */
  lemma MinusNegates(s: string)
    requires s == [] || (!IsJsSpace(s[0]) && s[0] != '+' && s[0] != '-')
    ensures ParseInt("-" + s) == match ParseInt(s) case None => None case Some(v) => Some(-v)
  {
    assert SkipSpace(s) == s && Unsigned(s) == s && !Negative(s);
    var t := "-" + s;
    assert !IsJsSpace(t[0]) && SkipSpace(t) == t && t[1..] == s;
    assert Unsigned(t) == s && Negative(t);
  }

  /** The times the code reads differently from "HH:MM": a space or a plus sign before the
      hour is ignored, a `0x` hour is hexadecimal, a negative hour reaches back into the
      previous day, and a time without ':' has no minutes. */
  lemma ClockTimeScenarios()
    ensures TimeOfDay(" 9:00") == Some(9 * MsPerHour)
    ensures TimeOfDay("+9:00") == Some(9 * MsPerHour)
    ensures TimeOfDay("0x10:00") == Some(16 * MsPerHour)
    ensures TimeOfDay("-1:30") == Some(-30 * MsPerMinute)
    ensures TimeOfDay("9") == None
  {
    SpacedHour();
    SignedHour();
    HexHour();
    NegativeHour();
    assert Seqs.FirstIndex("9", IsColon) == None;
  }

  lemma SpacedHour()
    ensures TimeOfDay(" 9:00") == Some(9 * MsPerHour)
  {
    var t := " 9:00";
    ColonAtTwo(t);
    assert t[..2] == " 9" && t[3..] == "00";
    NineParses();
    SpaceIsSkipped(" ", "9");
    assert " " + "9" == " 9";
    ZeroMinutes();
    TimeOfDayParts(t, 2, 9, 0);
  }

  lemma SignedHour()
    ensures TimeOfDay("+9:00") == Some(9 * MsPerHour)
  {
    var t := "+9:00";
    ColonAtTwo(t);
    assert t[..2] == "+9" && t[3..] == "00";
    PlusNineParses();
    ZeroMinutes();
    TimeOfDayParts(t, 2, 9, 0);
  }

  lemma PlusNineParses()
    ensures ParseInt("+9") == Some(9)
  {
    var h := "+9";
    assert !IsJsSpace(h[0]) && SkipSpace(h) == h;
    assert Unsigned(h) == "9" && !Negative(h) && Digits("9") == "9" && Radix("9") == 10;
    NineParses();
  }

  lemma NineParses()
    ensures ParseInt("9") == Some(9)
  {
    var h := "9";
    assert !IsJsSpace(h[0]) && SkipSpace(h) == h;
    assert Unsigned(h) == h && !Negative(h) && Digits(h) == h && Radix(h) == 10;
    assert DigitRun(h, 10) == 1 && h[..1] == h;
    assert RadixValue(h, 10) == 10 * RadixValue(h[..0], 10) + 9;
  }

  lemma HexHour()
    ensures TimeOfDay("0x10:00") == Some(16 * MsPerHour)
  {
    var t := "0x10:00";
    ColonAtFour(t);
    assert t[..4] == "0x10" && t[5..] == "00";
    HexParses();
    ZeroMinutes();
    TimeOfDayParts(t, 4, 16, 0);
  }

  lemma ColonAtFour(t: string)
    requires |t| >= 5 && !IsColon(t[0]) && !IsColon(t[1]) && !IsColon(t[2]) && !IsColon(t[3]) && IsColon(t[4])
    ensures Seqs.FirstIndex(t, IsColon) == Some(4)
  {
  }

  lemma HexParses()
    ensures ParseInt("0x10") == Some(16)
  {
    var h := "0x10";
    assert !IsJsSpace(h[0]) && SkipSpace(h) == h;
    assert Unsigned(h) == h && !Negative(h) && HexPrefix(h) && Digits(h) == "10" && Radix(h) == 16;
    var d := "10";
    assert DigitRun(d[2..], 16) == 0 && d[1..][1..] == d[2..] && DigitRun(d[1..], 16) == 1 && DigitRun(d, 16) == 2;
    assert d[..2] == d && d[..1] == "1" && "1"[..0] == [];
    assert RadixValue("1", 16) == 1;
    assert RadixValue(d, 16) == 16 * RadixValue("1", 16) + 0;
  }

  lemma NegativeHour()
    ensures TimeOfDay("-1:30") == Some(-30 * MsPerMinute)
  {
    var t := "-1:30";
    ColonAtTwo(t);
    assert t[..2] == "-1" && t[3..] == "30";
    MinusOneParses();
    ThirtyMinutes();
    TimeOfDayParts(t, 2, -1, 30);
  }

  lemma MinusOneParses()
    ensures ParseInt("-1") == Some(-1)
  {
    MinusNegates("1");
    assert "-" + "1" == "-1";
    var h := "1";
    assert !IsJsSpace(h[0]) && SkipSpace(h) == h;
    assert Unsigned(h) == h && !Negative(h) && Digits(h) == h && Radix(h) == 10;
    assert DigitRun(h, 10) == 1 && h[..1] == h;
    assert RadixValue(h, 10) == 10 * RadixValue(h[..0], 10) + 1;
  }

  lemma ThirtyMinutes()
    ensures ParseInt(BeforeColon("30")) == Some(30)
  {
    NoColonBefore("30");
    TwoDigitsParse("30");
  }

  lemma ZeroMinutes()
    ensures BeforeColon("00") == "00" && ParseInt("00") == Some(0)
  {
    NoColonBefore("00");
    TwoDigitsParse("00");
  }

  // ---------------------------------------------------------------------------
  // Classification rules
  // ---------------------------------------------------------------------------

  /** Check-in rule: late exactly when the scan is past the grace deadline (an Invalid Date
      compares false), lateness counted from the scheduled start, otherwise present and 0. */
  predicate ArrivalClassified(now: int, workStart: Option<int>, grace: int, status: Status, lateMinutes: int) {
    && (status == Late <==> workStart.Some? && now > workStart.value + grace * MsPerMinute)
    && (status == Late ==> lateMinutes == (now - workStart.value) / MsPerMinute)
    && (status != Late ==> status == Present && lateMinutes == 0)
  }

  /** Lateness is measured from the scheduled start, so a late scan is at least the grace
      period late, and always at least a minute late when the grace period is not negative. */
  lemma LatenessCoversGrace(now: int, workStart: Option<int>, grace: int, status: Status, lateMinutes: int)
    requires ArrivalClassified(now, workStart, grace, status, lateMinutes) && status == Late
    ensures lateMinutes >= grace
    ensures grace >= 0 ==> lateMinutes >= 0
  {
    var gap := now - workStart.value;
    assert gap > grace * MsPerMinute;
    assert gap / MsPerMinute >= grace;
  }

  /** The rule determines one classification. */
  lemma ArrivalIsFunctional(now: int, workStart: Option<int>, grace: int, s1: Status, l1: int, s2: Status, l2: int)
    requires ArrivalClassified(now, workStart, grace, s1, l1)
    requires ArrivalClassified(now, workStart, grace, s2, l2)
    ensures s1 == s2 && l1 == l2
  {
  }

  /** Start 09:00 with 15 minutes' grace: a scan at 09:10 is present, one at 09:20 is 20 minutes late. */
  lemma ArrivalScenarios(midnight: int, s1: Status, l1: int, s2: Status, l2: int)
    requires ArrivalClassified(midnight + 9 * MsPerHour + 10 * MsPerMinute, Some(midnight + 9 * MsPerHour), 15, s1, l1)
    requires ArrivalClassified(midnight + 9 * MsPerHour + 20 * MsPerMinute, Some(midnight + 9 * MsPerHour), 15, s2, l2)
    ensures s1 == Present && l1 == 0
    ensures s2 == Late && l2 == 20
  {
    assert (midnight + 9 * MsPerHour + 20 * MsPerMinute) - (midnight + 9 * MsPerHour) == 20 * MsPerMinute;
  }

  /** Check-out rule, first match wins: early leave before the early threshold, overtime
      after the overtime threshold (the status changes only for a positive count), otherwise the
      check-in status stays; total time is counted from check-in. */
  predicate DepartureClassified(
    now: int, checkIn: int, workEnd: Option<int>, s: AttendanceSettings, prior: Status,
    status: Status, earlyMinutes: int, overtimeMinutes: int, totalMinutes: int)
  {
    && totalMinutes == (now - checkIn) / MsPerMinute
    && if workEnd.Some? && now < workEnd.value - s.earlyLeaveThresholdMinutes * MsPerMinute then
         status == EarlyLeave && earlyMinutes == (workEnd.value - now) / MsPerMinute && overtimeMinutes == 0
       else if workEnd.Some? && now > workEnd.value + s.overtimeThresholdMinutes * MsPerMinute then
         && earlyMinutes == 0
         && overtimeMinutes == (now - workEnd.value) / MsPerMinute
         && status == (if overtimeMinutes > 0 then Overtime else prior)
       else
         status == prior && earlyMinutes == 0 && overtimeMinutes == 0
  }

  /** Early leave and overtime are never both recorded, and whichever is recorded reaches its threshold. */
  lemma DepartureExclusive(
    now: int, checkIn: int, workEnd: Option<int>, s: AttendanceSettings, prior: Status,
    status: Status, early: int, overtime: int, total: int)
    requires DepartureClassified(now, checkIn, workEnd, s, prior, status, early, overtime, total)
    ensures early == 0 || overtime == 0
    ensures early != 0 ==> early >= s.earlyLeaveThresholdMinutes
    ensures overtime != 0 ==> overtime >= s.overtimeThresholdMinutes
    ensures status != prior ==> status == EarlyLeave || status == Overtime
  {
    if workEnd.Some? && now < workEnd.value - s.earlyLeaveThresholdMinutes * MsPerMinute {
      assert workEnd.value - now > s.earlyLeaveThresholdMinutes * MsPerMinute;
    } else if workEnd.Some? && now > workEnd.value + s.overtimeThresholdMinutes * MsPerMinute {
      assert now - workEnd.value > s.overtimeThresholdMinutes * MsPerMinute;
    }
  }

  /** A check-out inside [end - early threshold, end + overtime threshold] keeps the check-in
      status and records neither early leave nor overtime. */
  lemma OnTimeDepartureKeepsStatus(
    now: int, checkIn: int, workEnd: int, s: AttendanceSettings, prior: Status,
    status: Status, early: int, overtime: int, total: int)
    requires DepartureClassified(now, checkIn, Some(workEnd), s, prior, status, early, overtime, total)
    requires workEnd - s.earlyLeaveThresholdMinutes * MsPerMinute <= now <= workEnd + s.overtimeThresholdMinutes * MsPerMinute
    ensures status == prior && early == 0 && overtime == 0
  {
  }

  /** End 18:00 with 30-minute thresholds: leaving at 17:20 is 40 minutes early, leaving at
      18:45 is 45 minutes of overtime. */
  lemma DepartureScenarios(
    midnight: int, checkIn: int, prior: Status,
    s1: Status, e1: int, o1: int, t1: int, s2: Status, e2: int, o2: int, t2: int)
    requires var end, st := midnight + 18 * MsPerHour, AttendanceSettings(15, 30, 30);
      && DepartureClassified(midnight + 17 * MsPerHour + 20 * MsPerMinute, checkIn, Some(end), st, prior, s1, e1, o1, t1)
      && DepartureClassified(midnight + 18 * MsPerHour + 45 * MsPerMinute, checkIn, Some(end), st, prior, s2, e2, o2, t2)
    ensures s1 == EarlyLeave && e1 == 40 && o1 == 0
    ensures s2 == Overtime && o2 == 45 && e2 == 0
  {
    assert (midnight + 18 * MsPerHour) - (midnight + 17 * MsPerHour + 20 * MsPerMinute) == 40 * MsPerMinute;
    assert (midnight + 18 * MsPerHour + 45 * MsPerMinute) - (midnight + 18 * MsPerHour) == 45 * MsPerMinute;
  }

  // ---------------------------------------------------------------------------
  // The ledger of records
  // ---------------------------------------------------------------------------

  predicate SameDay(a: AttendanceRecord, employeeId: EmployeeId, date: string) {
    a.employeeId == employeeId && a.date == date
  }

  /** A record's timestamps and minute counts are consistent: nothing is recorded for a day
      without a check-in. */
  predicate Consistent(a: AttendanceRecord) {
    (a.checkOutTime.Some? || a.lateMinutes > 0 || a.earlyLeaveMinutes > 0 || a.overtimeMinutes > 0)
      ==> a.checkInTime.Some?
  }

  /** The ledger invariant: at most one record per employee and date, each consistent. */
  predicate WellFormed(records: seq<AttendanceRecord>) {
    && (forall i, j :: 0 <= i < j < |records| ==> !SameDay(records[j], records[i].employeeId, records[i].date))
    && AllConsistent(records)
  }

  predicate AllConsistent(records: seq<AttendanceRecord>) {
    forall i :: 0 <= i < |records| ==> Consistent(records[i])
  }

  /** A record for an employee and date that had none keeps the ledger well formed. */
  lemma AppendKeepsWellFormed(records: seq<AttendanceRecord>, record: AttendanceRecord)
    requires WellFormed(records) && Consistent(record)
    requires forall i :: 0 <= i < |records| ==> !SameDay(records[i], record.employeeId, record.date)
    ensures WellFormed(records + [record])
  {
  }

  /** Rewriting a record in place, for the same employee and date, keeps the ledger well formed. */
  lemma UpdateKeepsWellFormed(records: seq<AttendanceRecord>, i: nat, record: AttendanceRecord)
    requires WellFormed(records) && Consistent(record)
    requires i < |records| && SameDay(record, records[i].employeeId, records[i].date)
    ensures WellFormed(records[i := record])
  {
  }

  /** `Attendance.findOne({employee_id, date})`: the first record of that employee and date. */
  function TodayIndex(records: seq<AttendanceRecord>, employeeId: EmployeeId, date: string): (r: Option<nat>)
    ensures r.Some? ==> r.value < |records| && SameDay(records[r.value], employeeId, date)
    ensures r.None? ==> forall i :: 0 <= i < |records| ==> !SameDay(records[i], employeeId, date)
  {
    Seqs.FirstIndex(records, (a: AttendanceRecord) => SameDay(a, employeeId, date))
  }

  function TodayRecord(records: seq<AttendanceRecord>, employeeId: EmployeeId, date: string): Option<AttendanceRecord> {
    match TodayIndex(records, employeeId, date)
    case None => None
    case Some(i) => Some(records[i])
  }

  /** `Admin.findById`: the employee with that id. */
  function EmployeeById(employees: seq<Employee>, id: EmployeeId): (r: Option<Employee>)
    ensures r.Some? ==> r.value in employees && r.value.id == id
    ensures r.None? ==> forall i :: 0 <= i < |employees| ==> employees[i].id != id
  {
    match Seqs.FirstIndex(employees, (e: Employee) => e.id == id)
    case None => None
    case Some(i) => Some(employees[i])
  }

  /** Today's record exists and has a check-in time. */
  predicate CheckedInToday(records: seq<AttendanceRecord>, employeeId: EmployeeId, date: string) {
    var t := TodayRecord(records, employeeId, date);
    t.Some? && t.value.checkInTime.Some?
  }

  /** Every condition under which `checkIn` saves a record. */
  predicate CheckInPermitted(
    employees: seq<Employee>, clinics: map<ClinicId, Clinic>, records: seq<AttendanceRecord>,
    employeeId: EmployeeId, today: string, weekday: nat)
    requires weekday < 7
  {
    var found := EmployeeById(employees, employeeId);
    && found.Some?
    && found.value.isActive
    && found.value.clinicId in clinics
    && IsWorkDay(ResolveSchedule(found.value, clinics).value.workDays, weekday)
    && !CheckedInToday(records, employeeId, today)
  }

  /** What a successful `checkIn` leaves: today's record with the check-in instant and its
      classification against the employee's schedule, appended as a new record when today had
      none, or written over today's record (which had no check-in) otherwise. */
  predicate Arrived(
    employees: seq<Employee>, clinics: map<ClinicId, Clinic>, records: seq<AttendanceRecord>,
    employeeId: EmployeeId, today: string, now: int, localMidnight: int,
    record: AttendanceRecord, records': seq<AttendanceRecord>)
  {
    var found := EmployeeById(employees, employeeId);
    && found.Some? && found.value.clinicId in clinics
    && var schedule := ResolveSchedule(found.value, clinics).value;
    && record.employeeId == employeeId && record.date == today
    && record.checkInTime == Some(now)
    && ArrivalClassified(now, WorkInstant(localMidnight, schedule.startTime), schedule.settings.gracePeriodMinutes,
                         record.status, record.lateMinutes)
    && match TodayIndex(records, employeeId, today)
       case None =>
         && records' == records + [record]
         && record.checkOutTime.None?
         && record.earlyLeaveMinutes == 0 && record.overtimeMinutes == 0 && record.totalWorkMinutes == 0
       case Some(i) =>
         && records' == records[i := record]
         && record == records[i].(checkInTime := Some(now), lateMinutes := record.lateMinutes, status := record.status)
  }

  /** `checkIn`. Rejections, in the source's order: unknown employee, inactive employee,
      no clinic, not a workday, already checked in today; each leaves the ledger as it was.
      Otherwise today's record gets the check-in instant and its classification: a new record
      is appended, or a record without check-in is updated in place. */
  method CheckIn(
    employees: seq<Employee>, clinics: map<ClinicId, Clinic>, records: seq<AttendanceRecord>,
    employeeId: EmployeeId, today: string, now: int, weekday: nat, localMidnight: int)
    returns (r: Result<AttendanceRecord, AttendanceError>, records': seq<AttendanceRecord>)
    requires weekday < 7
    ensures r.Failure? ==> records' == records
    ensures r.Success? <==> CheckInPermitted(employees, clinics, records, employeeId, today, weekday)
    ensures EmployeeById(employees, employeeId).None? ==> r == Failure(EmployeeNotFound)
    ensures var e := EmployeeById(employees, employeeId);
      e.Some? ==>
        && (!e.value.isActive ==> r == Failure(EmployeeInactive))
        && (e.value.isActive && e.value.clinicId !in clinics ==> r == Failure(ClinicNotFound))
        && ((e.value.isActive && e.value.clinicId in clinics
             && !IsWorkDay(ResolveSchedule(e.value, clinics).value.workDays, weekday)) ==> r == Failure(NotWorkDay))
        && ((e.value.isActive && e.value.clinicId in clinics
             && IsWorkDay(ResolveSchedule(e.value, clinics).value.workDays, weekday)
             && CheckedInToday(records, employeeId, today))
            ==> r == Failure(AlreadyCheckedIn(TodayRecord(records, employeeId, today).value)))
    ensures r.Failure? && r.error.AlreadyCheckedIn? ==>
      CheckedInToday(records, employeeId, today) && TodayRecord(records, employeeId, today) == Some(r.error.existing)
    ensures r.Success? ==> Arrived(employees, clinics, records, employeeId, today, now, localMidnight, r.value, records')
    ensures WellFormed(records) ==> WellFormed(records')
  {
    records' := records;
    var found := EmployeeById(employees, employeeId);
    if found.None? {
      return Failure(EmployeeNotFound), records';
    }
    var employee := found.value;
    if !employee.isActive {
      return Failure(EmployeeInactive), records';
    }
    var resolved := ResolveSchedule(employee, clinics);
    if resolved.Failure? {
      return Failure(resolved.error), records';
    }
    var schedule := resolved.value;
    if !IsWorkDay(schedule.workDays, weekday) {
      return Failure(NotWorkDay), records';
    }
    var index := TodayIndex(records, employeeId, today);
    if index.Some? && records[index.value].checkInTime.Some? {
      return Failure(AlreadyCheckedIn(records[index.value])), records';
    }

    var workStart := WorkInstant(localMidnight, schedule.startTime);
    var lateMinutes := 0;
    var status := Present;
    if workStart.Some? && now > workStart.value + schedule.settings.gracePeriodMinutes * MsPerMinute {
      lateMinutes := (now - workStart.value) / MsPerMinute;
      status := Late;
    }

    var record;
    if index.None? {
      record := AttendanceRecord(employeeId, today, Some(now), None, lateMinutes, 0, 0, 0, status);
      records' := records + [record];
      if WellFormed(records) {
        AppendKeepsWellFormed(records, record);
      }
    } else {
      record := records[index.value].(checkInTime := Some(now), lateMinutes := lateMinutes, status := status);
      records' := records[index.value := record];
      if WellFormed(records) {
        UpdateKeepsWellFormed(records, index.value, record);
      }
    }
    r := Success(record);
  }

  /** Every condition under which `checkOut` saves a record. */
  predicate CheckOutPermitted(
    employees: seq<Employee>, clinics: map<ClinicId, Clinic>, records: seq<AttendanceRecord>,
    employeeId: EmployeeId, today: string)
  {
    var found := EmployeeById(employees, employeeId);
    && CheckedInToday(records, employeeId, today)
    && TodayRecord(records, employeeId, today).value.checkOutTime.None?
    && found.Some?
    && found.value.clinicId in clinics
  }

  /** What a successful `checkOut` leaves: today's record, checked in and still open, completed
      in place with the check-out instant and its classification against the employee's
      schedule. */
  predicate Departed(
    employees: seq<Employee>, clinics: map<ClinicId, Clinic>, records: seq<AttendanceRecord>,
    employeeId: EmployeeId, today: string, now: int, localMidnight: int,
    record: AttendanceRecord, records': seq<AttendanceRecord>)
  {
    && CheckOutPermitted(employees, clinics, records, employeeId, today)
    && var i := TodayIndex(records, employeeId, today).value;
    && var before := records[i];
    && var schedule := ResolveSchedule(EmployeeById(employees, employeeId).value, clinics).value;
    && records' == records[i := record]
    && record == before.(checkOutTime := Some(now), earlyLeaveMinutes := record.earlyLeaveMinutes,
                         overtimeMinutes := record.overtimeMinutes, totalWorkMinutes := record.totalWorkMinutes,
                         status := record.status)
    && DepartureClassified(now, before.checkInTime.value, WorkInstant(localMidnight, schedule.endTime),
                           schedule.settings, before.status, record.status, record.earlyLeaveMinutes,
                           record.overtimeMinutes, record.totalWorkMinutes)
  }

  /** `checkOut`. Rejections, in the source's order: no check-in today, already checked out,
      unknown employee, no clinic; each leaves the ledger as it was. Otherwise today's record
      is completed in place with the check-out instant and its classification. */
  method CheckOut(
    employees: seq<Employee>, clinics: map<ClinicId, Clinic>, records: seq<AttendanceRecord>,
    employeeId: EmployeeId, today: string, now: int, localMidnight: int)
    returns (r: Result<AttendanceRecord, AttendanceError>, records': seq<AttendanceRecord>)
    ensures r.Failure? ==> records' == records
    ensures r.Failure? ==> r.error.NotCheckedIn? || r.error.AlreadyCheckedOut? || r.error == EmployeeNotFound || r.error == ClinicNotFound
    ensures !CheckedInToday(records, employeeId, today) <==> r == Failure(NotCheckedIn)
    ensures r.Failure? && r.error.AlreadyCheckedOut? ==>
      CheckedInToday(records, employeeId, today) && TodayRecord(records, employeeId, today).value.checkOutTime.Some?
    ensures CheckedInToday(records, employeeId, today) && TodayRecord(records, employeeId, today).value.checkOutTime.Some? ==>
      r == Failure(AlreadyCheckedOut(TodayRecord(records, employeeId, today).value))
    ensures r.Success? <==> CheckOutPermitted(employees, clinics, records, employeeId, today)
    ensures CheckedInToday(records, employeeId, today) && TodayRecord(records, employeeId, today).value.checkOutTime.None? ==>
      && (EmployeeById(employees, employeeId).None? ==> r == Failure(EmployeeNotFound))
      && (EmployeeById(employees, employeeId).Some? && EmployeeById(employees, employeeId).value.clinicId !in clinics
          ==> r == Failure(ClinicNotFound))
    ensures r.Success? ==> Departed(employees, clinics, records, employeeId, today, now, localMidnight, r.value, records')
    ensures WellFormed(records) ==> WellFormed(records')
  {
    records' := records;
    var index := TodayIndex(records, employeeId, today);
    if index.None? || records[index.value].checkInTime.None? {
      return Failure(NotCheckedIn), records';
    }
    var attendance := records[index.value];
    if attendance.checkOutTime.Some? {
      return Failure(AlreadyCheckedOut(attendance)), records';
    }
    var found := EmployeeById(employees, employeeId);
    if found.None? {
      return Failure(EmployeeNotFound), records';
    }
    var resolved := ResolveSchedule(found.value, clinics);
    if resolved.Failure? {
      return Failure(resolved.error), records';
    }
    var schedule := resolved.value;

    var workEnd := WorkInstant(localMidnight, schedule.endTime);
    var totalWorkMinutes := (now - attendance.checkInTime.value) / MsPerMinute;
    var earlyLeaveMinutes := 0;
    var overtimeMinutes := 0;
    var status := attendance.status;
    if workEnd.Some? && now < workEnd.value - schedule.settings.earlyLeaveThresholdMinutes * MsPerMinute {
      earlyLeaveMinutes := (workEnd.value - now) / MsPerMinute;
      status := EarlyLeave;
    } else if workEnd.Some? && now > workEnd.value + schedule.settings.overtimeThresholdMinutes * MsPerMinute {
      overtimeMinutes := (now - workEnd.value) / MsPerMinute;
      if overtimeMinutes > 0 {
        status := Overtime;
      }
    }

    var record := attendance.(checkOutTime := Some(now), earlyLeaveMinutes := earlyLeaveMinutes,
                              overtimeMinutes := overtimeMinutes, totalWorkMinutes := totalWorkMinutes,
                              status := status);
    records' := records[index.value := record];
    if WellFormed(records) {
      UpdateKeepsWellFormed(records, index.value, record);
    }
    r := Success(record);
  }

  // ---------------------------------------------------------------------------
  // NFC dispatch and reporting
  // ---------------------------------------------------------------------------

  datatype ScanAction = DoCheckIn | DoCheckOut | AlreadyComplete

  /** The three-way dispatch of `nfcScan` on today's record. */
  function DecideAction(existing: Option<AttendanceRecord>): (a: ScanAction)
    ensures a == DoCheckIn <==> existing.None? || existing.value.checkInTime.None?
    ensures a == DoCheckOut <==> existing.Some? && existing.value.checkInTime.Some? && existing.value.checkOutTime.None?
    ensures a == AlreadyComplete <==> existing.Some? && existing.value.checkInTime.Some? && existing.value.checkOutTime.Some?
  {
    if existing.None? || existing.value.checkInTime.None? then DoCheckIn
    else if existing.value.checkOutTime.None? then DoCheckOut
    else AlreadyComplete
  }

  /** `a % b` in JavaScript: the remainder takes the sign of the dividend. */
  function JsRemainder(a: int, b: int): (r: int)
    requires b > 0
    ensures a >= 0 ==> 0 <= r < b
    ensures a < 0 ==> -b < r <= 0
    ensures (a - r) % b == 0
  {
    if a >= 0 then
      RemainderLeavesMultiple(a, b);
      a % b
    else
      RemainderLeavesMultiple(-a, b);
      -((-a) % b)
  }

  lemma RemainderLeavesMultiple(a: int, b: int)
    requires b > 0
    ensures (a - a % b) % b == 0 && (-a + a % b) % b == 0
  {
    var q := a / b;
    assert a - a % b == b * q;
    assert -a + a % b == b * -q;
    MultipleHasNoRemainder(q, b);
    MultipleHasNoRemainder(-q, b);
  }

  lemma MultipleHasNoRemainder(q: int, b: int)
    requires b > 0
    ensures (b * q) % b == 0
  {
    var d, m := (b * q) / b, (b * q) % b;
    assert b * q == b * d + m && 0 <= m < b;
    assert b * (q - d) == m;
    assert q - d >= 1 ==> b * (q - d) >= b;
    assert q - d <= -1 ==> b * (q - d) <= -b;
  }

  /** The "hours and minutes" summary of a completed day: `Math.floor(t / 60)` and `t % 60`.
      For a non-negative total they recompose the total; a negative total (a check-out before
      the check-in instant) is reported with a floored hour and a negative minute part. */
  lemma {:induction false} HoursAndMinutes(total: int)
    ensures total >= 0 ==> total / 60 * 60 + JsRemainder(total, 60) == total && 0 <= JsRemainder(total, 60) < 60
    ensures total == -61 ==> total / 60 == -2 && JsRemainder(total, 60) == -1
  {
  }

  datatype ScanOutcome =
    | CheckedIn(record: AttendanceRecord)
    | CheckedOut(record: AttendanceRecord)
    | Complete(record: AttendanceRecord, hours: int, minutes: int)

  /** `Admin.findOne({nfc_card_id, is_active: true})`. */
  function ActiveCardHolder(employees: seq<Employee>, cardId: string): (r: Option<Employee>)
    ensures r.Some? ==> r.value in employees && r.value.nfcCardId == cardId && r.value.isActive
    ensures r.None? ==> forall i :: 0 <= i < |employees| ==> !(employees[i].nfcCardId == cardId && employees[i].isActive)
  {
    match Seqs.FirstIndex(employees, (e: Employee) => e.nfcCardId == cardId && e.isActive)
    case None => None
    case Some(i) => Some(employees[i])
  }

  /** `nfcScan`: find the active holder of the card, refuse an inactive clinic, then check in
      when today has no check-in, check out when it has a check-in but no check-out, and
      otherwise change nothing and report the day's total as hours and minutes. The
      dispatch never reaches a direction the record does not allow. */
  method NfcScan(
    employees: seq<Employee>, clinics: map<ClinicId, Clinic>, records: seq<AttendanceRecord>,
    cardId: string, clinicActive: bool, today: string, now: int, weekday: nat, localMidnight: int)
    returns (r: Result<ScanOutcome, AttendanceError>, records': seq<AttendanceRecord>)
    requires weekday < 7
    ensures r.Failure? ==> records' == records
    ensures ActiveCardHolder(employees, cardId).None? ==> r == Failure(CardNotRegistered)
    ensures ActiveCardHolder(employees, cardId).Some? && !clinicActive ==> r == Failure(ClinicInactive)
    ensures r.Failure? ==> !r.error.NotCheckedIn? && !r.error.AlreadyCheckedIn? && !r.error.AlreadyCheckedOut?
    ensures var holder := ActiveCardHolder(employees, cardId);
      holder.Some? && clinicActive ==>
      var action := DecideAction(TodayRecord(records, holder.value.id, today));
      && (action == AlreadyComplete ==> r.Success?)
      && (action == DoCheckIn ==> (r.Success? <==> CheckInPermitted(employees, clinics, records, holder.value.id, today, weekday)))
      && (action == DoCheckOut ==> (r.Success? <==> CheckOutPermitted(employees, clinics, records, holder.value.id, today)))
    ensures r.Success? ==>
      var holder := ActiveCardHolder(employees, cardId);
      holder.Some? && clinicActive &&
      var existing := TodayRecord(records, holder.value.id, today);
      && (r.value.CheckedIn? <==> DecideAction(existing) == DoCheckIn)
      && (r.value.CheckedOut? <==> DecideAction(existing) == DoCheckOut)
      && (r.value.Complete? <==> DecideAction(existing) == AlreadyComplete)
      && (r.value.CheckedIn? ==>
            Arrived(employees, clinics, records, holder.value.id, today, now, localMidnight, r.value.record, records'))
      && (r.value.CheckedOut? ==>
            Departed(employees, clinics, records, holder.value.id, today, now, localMidnight, r.value.record, records'))
      && (r.value.Complete? ==>
            && records' == records
            && r.value.record == existing.value
            && r.value.hours == existing.value.totalWorkMinutes / 60
            && r.value.minutes == JsRemainder(existing.value.totalWorkMinutes, 60))
    ensures WellFormed(records) ==> WellFormed(records')
  {
    records' := records;
    var holder := ActiveCardHolder(employees, cardId);
    if holder.None? {
      return Failure(CardNotRegistered), records';
    }
    if !clinicActive {
      return Failure(ClinicInactive), records';
    }
    var employee := holder.value;
    var existing := TodayRecord(records, employee.id, today);
    var action := DecideAction(existing);
    if action == DoCheckIn {
      var res;
      res, records' := CheckIn(employees, clinics, records, employee.id, today, now, weekday, localMidnight);
      if res.Failure? {
        return Failure(res.error), records';
      }
      r := Success(CheckedIn(res.value));
    } else if action == DoCheckOut {
      var res;
      assert CheckedInToday(records, employee.id, today);
      res, records' := CheckOut(employees, clinics, records, employee.id, today, now, localMidnight);
      if res.Failure? {
        return Failure(res.error), records';
      }
      r := Success(CheckedOut(res.value));
    } else {
      var total := existing.value.totalWorkMinutes;
      r := Success(Complete(existing.value, total / 60, JsRemainder(total, 60)));
    }
  }

  datatype DailySummary = DailySummary(totalEmployees: nat, present: nat, late: nat, earlyLeave: nat, overtime: nat)

  function OnDate(date: string): AttendanceRecord -> bool {
    (a: AttendanceRecord) => a.date == date
  }
  predicate HasCheckIn(a: AttendanceRecord) { a.checkInTime.Some? }
  predicate CameLate(a: AttendanceRecord) { a.lateMinutes > 0 }
  predicate LeftEarly(a: AttendanceRecord) { a.earlyLeaveMinutes > 0 }
  predicate WorkedOvertime(a: AttendanceRecord) { a.overtimeMinutes > 0 }

  /** The summary of `getDailyReport`: the day's records, those with a check-in, and those
      with positive late, early-leave and overtime minutes. */
  function DailyReport(records: seq<AttendanceRecord>, date: string): (s: DailySummary)
    ensures s.totalEmployees == Seqs.Count(records, OnDate(date))
    ensures s.present <= s.totalEmployees && s.late <= s.totalEmployees
    ensures s.earlyLeave <= s.totalEmployees && s.overtime <= s.totalEmployees
  {
    var day := Seqs.Filter(records, OnDate(date));
    DailySummary(|day|, Seqs.Count(day, HasCheckIn), Seqs.Count(day, CameLate),
                 Seqs.Count(day, LeftEarly), Seqs.Count(day, WorkedOvertime))
  }

  /** On a well-formed ledger no one is counted late, early or in overtime without being
      counted present. */
  lemma SummaryWithinPresent(records: seq<AttendanceRecord>, date: string)
    requires WellFormed(records)
    ensures var s := DailyReport(records, date);
      s.late <= s.present && s.earlyLeave <= s.present && s.overtime <= s.present
  {
    var day := Seqs.Filter(records, OnDate(date));
    FilterKeepsConsistency(records, OnDate(date));
    assert AllConsistent(day);
    forall i | 0 <= i < |day|
      ensures CameLate(day[i]) ==> HasCheckIn(day[i])
      ensures LeftEarly(day[i]) ==> HasCheckIn(day[i])
      ensures WorkedOvertime(day[i]) ==> HasCheckIn(day[i])
    {
      assert Consistent(day[i]);
    }
    CountWithin(day, CameLate, HasCheckIn);
    CountWithin(day, LeftEarly, HasCheckIn);
    CountWithin(day, WorkedOvertime, HasCheckIn);
  }

  lemma {:induction false} FilterKeepsConsistency(records: seq<AttendanceRecord>, p: AttendanceRecord -> bool)
    requires AllConsistent(records)
    ensures AllConsistent(Seqs.Filter(records, p))
  {
    if records != [] {
      FilterKeepsConsistency(records[1..], p);
      var head := if p(records[0]) then [records[0]] else [];
      var rest := Seqs.Filter(records[1..], p);
      var day := Seqs.Filter(records, p);
      assert day == head + rest;
      assert AllConsistent(rest);
      forall i | 0 <= i < |day|
        ensures Consistent(day[i])
      {
        if i < |head| {
          assert day[i] == records[0];
        } else {
          assert day[i] == rest[i - |head|];
        }
      }
    }
  }

  lemma {:induction false} CountWithin(day: seq<AttendanceRecord>, p: AttendanceRecord -> bool, q: AttendanceRecord -> bool)
    requires forall i :: 0 <= i < |day| ==> p(day[i]) ==> q(day[i])
    ensures Seqs.Count(day, p) <= Seqs.Count(day, q)
  {
    if day != [] {
      CountWithin(day[1..], p, q);
    }
  }
}
