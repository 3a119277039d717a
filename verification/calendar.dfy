/** RFC 3339 timestamps as exact instants (packages/protocol/src/connector.ts). */
module Calendar {
  import opened Common
  import opened Decimal

  // ----- the proleptic Gregorian calendar -----

  predicate IsLeapYear(year: int) {
    year % 4 == 0 && (year % 100 != 0 || year % 400 == 0)
  }

  function DaysInMonth(year: int, month: int): int {
    if month == 2 then (if IsLeapYear(year) then 29 else 28)
    else if month == 4 || month == 6 || month == 9 || month == 11 then 30 else 31
  }

  predicate ValidDate(year: int, month: int, day: int) {
    1 <= month <= 12 && 1 <= day <= DaysInMonth(year, month)
  }

  /** Days relative to 1970-01-01, by the closed form of the source. Math.floor
      of a quotient with a positive divisor is Dafny's division. */
  function DaysFromUnixEpoch(year: int, month: int, day: int): int {
    var adjustedYear := year - (if month <= 2 then 1 else 0);
    var era := adjustedYear / 400;
    var yearOfEra := adjustedYear - era * 400;
    var monthOfYear := month + (if month > 2 then -3 else 9);
    var dayOfYear := (153 * monthOfYear + 2) / 5 + day - 1;
    var dayOfEra := yearOfEra * 365 + yearOfEra / 4 - yearOfEra / 100 + dayOfYear;
    era * 146097 + dayOfEra - 719468
  }

  // ----- the same count by walking the calendar -----

  function DaysBeforeMonth(year: int, month: int): int
    requires 1 <= month <= 13
    decreases month
  {
    if month == 1 then 0 else DaysBeforeMonth(year, month - 1) + DaysInMonth(year, month - 1)
  }

  function YearLength(year: int): int { DaysBeforeMonth(year, 13) }

  /** Whole years walked from 1970, forwards or backwards. */
  function DaysBeforeYear(year: int): int
    decreases if year >= 1970 then year - 1970 else 1970 - year
  {
    if year == 1970 then 0
    else if year > 1970 then DaysBeforeYear(year - 1) + YearLength(year - 1)
    else DaysBeforeYear(year + 1) - YearLength(year)
  }

  function WalkedDays(year: int, month: int, day: int): int
    requires 1 <= month <= 12
  {
    DaysBeforeYear(year) + DaysBeforeMonth(year, month) + day - 1
  }

  /** Days before March 1 of year `a`, up to a constant: the leap-year count. */
  function LeapCount(a: int): int { 365 * a + a / 4 - a / 100 + a / 400 }

  lemma EraForm(a: int)
    ensures var era := a / 400; var y := a - era * 400;
            era * 146097 + y * 365 + y / 4 - y / 100 == LeapCount(a)
  {
    var era := a / 400;
    var y := a - era * 400;
    assert a == 400 * era + y && 0 <= y < 400;
    assert a / 4 == 100 * era + y / 4;
    assert a / 100 == 4 * era + y / 100;
  }

  lemma LeapStep(a: int)
    ensures LeapCount(a) - LeapCount(a - 1) == 365 + (if IsLeapYear(a) then 1 else 0)
  {
    assert a / 4 - (a - 1) / 4 == if a % 4 == 0 then 1 else 0;
    assert a / 100 - (a - 1) / 100 == if a % 100 == 0 then 1 else 0;
    assert a / 400 - (a - 1) / 400 == if a % 400 == 0 then 1 else 0;
    if a % 400 == 0 { HundredFromFourHundred(a); }
    if a % 100 == 0 { FourFromHundred(a); }
  }

  lemma HundredFromFourHundred(a: int)
    requires a % 400 == 0
    ensures a % 100 == 0
  {
    var k := 4 * (a / 400);
    assert a == 100 * k;
  }

  lemma FourFromHundred(a: int)
    requires a % 100 == 0
    ensures a % 4 == 0
  {
    var k := 25 * (a / 100);
    assert a == 4 * k;
  }

  /** Days before each month of a common year, and before the next year. */
  const CommonYear: seq<int> := [0, 31, 59, 90, 120, 151, 181, 212, 243, 273, 304, 334, 365]

  lemma MonthTable(year: int)
    ensures forall m :: 1 <= m <= 13 ==>
              DaysBeforeMonth(year, m) == CommonYear[m - 1] + (if m > 2 && IsLeapYear(year) then 1 else 0)
  {
    assert DaysBeforeMonth(year, 2) == 31;
    assert DaysBeforeMonth(year, 3) == 31 + DaysInMonth(year, 2);
    assert DaysBeforeMonth(year, 4) == DaysBeforeMonth(year, 3) + 31;
    assert DaysBeforeMonth(year, 5) == DaysBeforeMonth(year, 4) + 30;
    assert DaysBeforeMonth(year, 6) == DaysBeforeMonth(year, 5) + 31;
    assert DaysBeforeMonth(year, 7) == DaysBeforeMonth(year, 6) + 30;
    assert DaysBeforeMonth(year, 8) == DaysBeforeMonth(year, 7) + 31;
    assert DaysBeforeMonth(year, 9) == DaysBeforeMonth(year, 8) + 31;
    assert DaysBeforeMonth(year, 10) == DaysBeforeMonth(year, 9) + 30;
    assert DaysBeforeMonth(year, 11) == DaysBeforeMonth(year, 10) + 31;
    assert DaysBeforeMonth(year, 12) == DaysBeforeMonth(year, 11) + 30;
    assert DaysBeforeMonth(year, 13) == DaysBeforeMonth(year, 12) + 31;
  }

  /** Days from March 1 to the first of a month, as the closed form has it. */
  function MarchOffset(month: int): int { (153 * (month + (if month > 2 then -3 else 9)) + 2) / 5 }

  lemma MarchTable()
    ensures MarchOffset(1) == 306 && MarchOffset(2) == 337 && MarchOffset(3) == 0 && MarchOffset(4) == 31
    ensures MarchOffset(5) == 61 && MarchOffset(6) == 92 && MarchOffset(7) == 122 && MarchOffset(8) == 153
    ensures MarchOffset(9) == 184 && MarchOffset(10) == 214 && MarchOffset(11) == 245 && MarchOffset(12) == 275
  {}

  lemma ClosedForm(year: int, month: int, day: int)
    ensures DaysFromUnixEpoch(year, month, day)
         == LeapCount(if month <= 2 then year - 1 else year) + MarchOffset(month) + day - 1 - 719468
  {
    EraForm(if month <= 2 then year - 1 else year);
  }

  /** The closed form counts the months of one year correctly. */
  lemma MonthStep(year: int, month: int, day: int)
    requires 1 <= month <= 12
    ensures DaysFromUnixEpoch(year, month, day)
            == LeapCount(year - 1) + 306 - 719468 + DaysBeforeMonth(year, month) + day - 1
  {
    MonthTable(year);
    MarchTable();
    ClosedForm(year, month, day);
    LeapStep(year);
    hide DaysFromUnixEpoch, LeapCount, MarchOffset, DaysBeforeMonth;
  }

  lemma {:induction false} YearWalk(year: int)
    ensures DaysBeforeYear(year) == LeapCount(year - 1) + 306 - 719468
    decreases if year >= 1970 then year - 1970 else 1970 - year
  {
    if year > 1970 {
      YearWalk(year - 1);
      MonthTable(year - 1);
      LeapStep(year - 1);
    } else if year < 1970 {
      YearWalk(year + 1);
      MonthTable(year);
      LeapStep(year);
    }
  }

  /** The closed form equals the count obtained by walking the calendar month
      by month and year by year from 1970-01-01, for every year. */
  lemma DaysCountTheCalendar(year: int, month: int, day: int)
    requires 1 <= month <= 12
    ensures DaysFromUnixEpoch(year, month, day) == WalkedDays(year, month, day)
  {
    MonthStep(year, month, day);
    YearWalk(year);
  }

  predicate DateBefore(y: int, m: int, d: int, y': int, m': int, d': int) {
    y < y' || (y == y' && (m < m' || (m == m' && d < d')))
  }

  lemma WithinYear(y: int, m: int, d: int)
    requires ValidDate(y, m, d)
    ensures 0 <= DaysBeforeMonth(y, m) + d - 1 < YearLength(y)
  {
    MonthTable(y);
  }

  lemma {:induction false} MonthsGrow(y: int, m: int, m': int)
    requires 1 <= m < m' <= 13
    ensures DaysBeforeMonth(y, m) + DaysInMonth(y, m) <= DaysBeforeMonth(y, m')
    decreases m'
  {
    if m < m' - 1 { MonthsGrow(y, m, m' - 1); }
  }

  lemma {:induction false} YearsGrow(y: int, y': int)
    requires y < y'
    ensures DaysBeforeYear(y) + YearLength(y) <= DaysBeforeYear(y')
    decreases y' - y
  {
    YearWalk(y' - 1);
    YearWalk(y');
    LeapStep(y' - 1);
    MonthTable(y' - 1);
    hide DaysBeforeYear, DaysBeforeMonth, LeapCount;
    if y < y' - 1 { YearsGrow(y, y' - 1); }
  }

  /** Strictly increasing on valid dates, hence injective. */
  lemma DaysStrictlyIncrease(y: int, m: int, d: int, y': int, m': int, d': int)
    requires ValidDate(y, m, d) && ValidDate(y', m', d') && DateBefore(y, m, d, y', m', d')
    ensures DaysFromUnixEpoch(y, m, d) < DaysFromUnixEpoch(y', m', d')
  {
    hide DaysFromUnixEpoch, DaysBeforeYear, DaysBeforeMonth, YearLength;
    DaysCountTheCalendar(y, m, d);
    DaysCountTheCalendar(y', m', d');
    WithinYear(y, m, d);
    WithinYear(y', m', d');
    if y < y' {
      YearsGrow(y, y');
    } else if m < m' {
      MonthsGrow(y, m, m');
    }
  }

  // ----- the RFC 3339 text -----

  /** A timestamp split by its pattern, before the calendar check. */
  datatype Fields = Fields(year: int, month: int, day: int, hour: int, minute: int, second: int, fraction: string,
                           offsetSeconds: int)

  function TwoDigits(s: string, at: nat): Option<nat> {
    if at + 2 <= |s| && AllDigits(s[at..at + 2]) then Some(Num(s[at..at + 2])) else None
  }

  function LeadingDigits(s: string): (n: nat)
    ensures n <= |s| && AllDigits(s[..n]) && (n < |s| ==> !IsDigit(s[n]))
  {
    if s == [] || !IsDigit(s[0]) then 0
    else
      var n := LeadingDigits(s[1..]);
      assert s[..1 + n] == [s[0]] + s[1..][..n];
      1 + n
  }

  /** Z, or a signed hour and minute offset. */
  function ParseZone(s: string): Option<int> {
    if s == "Z" then Some(0)
    else if |s| == 6 && (s[0] == '+' || s[0] == '-') && s[3] == ':' then
      var h := TwoDigits(s, 1);
      var m := TwoDigits(s, 4);
      if h.Some? && m.Some? && h.value <= 23 && m.value <= 59
      then Some((if s[0] == '+' then 1 else -1) * (h.value * 3600 + m.value * 60)) else None
    else None
  }

  /** The optional fraction and the zone that follow the seconds. */
  function ParseTail(s: string): (r: Option<(string, int)>)
    ensures r.Some? ==> AllDigits(r.value.0)
  {
    if s != [] && s[0] == '.' then
      var n := LeadingDigits(s[1..]);
      var zone := ParseZone(s[1 + n..]);
      assert s[1..1 + n] == s[1..][..n];
      if n >= 1 && zone.Some? then Some((s[1..1 + n], zone.value)) else None
    else
      var zone := ParseZone(s);
      if zone.Some? then Some(("", zone.value)) else None
  }

  function ParseFields(s: string): (f: Option<Fields>)
    ensures f.Some? ==> AllDigits(f.value.fraction)
  {
    if |s| < 20 || !AllDigits(s[..4]) || s[4] != '-' || s[7] != '-' || s[10] != 'T' || s[13] != ':' || s[16] != ':' then
      None
    else
      var month, day := TwoDigits(s, 5), TwoDigits(s, 8);
      var hour, minute, second := TwoDigits(s, 11), TwoDigits(s, 14), TwoDigits(s, 17);
      var tail := ParseTail(s[19..]);
      if month.None? || day.None? || hour.None? || minute.None? || second.None? || tail.None? then None
      else if hour.value > 23 || minute.value > 59 || second.value > 59 then None
      else Some(Fields(Num(s[..4]), month.value, day.value, hour.value, minute.value, second.value, tail.value.0,
                       tail.value.1))
  }

  datatype Instant = Instant(wholeSeconds: int, fraction: string)

  predicate ValidInstant(i: Instant) { AllDigits(i.fraction) }

  function ParseInstant(s: string): (i: Option<Instant>)
    ensures i.Some? ==> ValidInstant(i.value)
  {
    var f := ParseFields(s);
    if f.None? || !ValidDate(f.value.year, f.value.month, f.value.day) then None
    else
      var v := f.value;
      var local := DaysFromUnixEpoch(v.year, v.month, v.day) * 86400 + v.hour * 3600 + v.minute * 60 + v.second;
      Some(Instant(local - v.offsetSeconds, v.fraction))
  }

  // ----- exact comparison -----

  /** The instant in units of 10^-n seconds. */
  function Units(i: Instant, n: nat): int
    requires ValidInstant(i) && |i.fraction| <= n
  {
    i.wholeSeconds * Pow10(n) + Num(PadEnd(i.fraction, n))
  }

  function CompareInstants(l: Instant, r: Instant): int
    requires ValidInstant(l) && ValidInstant(r)
  {
    if l.wholeSeconds != r.wholeSeconds then (if l.wholeSeconds < r.wholeSeconds then -1 else 1)
    else
      var n := Max(|l.fraction|, |r.fraction|);
      var lf, rf := PadEnd(l.fraction, n), PadEnd(r.fraction, n);
      if lf == rf then 0 else if TextLess(lf, rf) then -1 else 1
  }

  /** compareRfc3339Instants: None for an invalid timestamp. */
  function Compare(left: string, right: string): Option<int> {
    var l, r := ParseInstant(left), ParseInstant(right);
    if l.None? || r.None? then None else Some(CompareInstants(l.value, r.value))
  }

  function InstantKeyOf(i: Instant): string {
    IntText(i.wholeSeconds) + "." + TrimZeros(i.fraction)
  }

  /** rfc3339InstantKey. */
  function InstantKey(s: string): Option<string> {
    var i := ParseInstant(s);
    if i.None? then None else Some(InstantKeyOf(i.value))
  }

  /** A finer unit never changes the instant denoted. */
  lemma UnitsRefine(i: Instant, n: nat, k: nat)
    requires ValidInstant(i) && |i.fraction| <= n
    ensures Units(i, n + k) == Units(i, n) * Pow10(k)
  {
    NumPad(i.fraction, n);
    NumPad(i.fraction, n + k);
    Pow10Add(n, k);
    Pow10Add(n - |i.fraction|, k);
    var w, f, p, q, r := i.wholeSeconds, Num(i.fraction), Pow10(n), Pow10(k), Pow10(n - |i.fraction|);
    hide Num, Pow10;
    MulAssociates(w, p, q);
    MulAssociates(f, r, q);
    MulDistributes(w * p, f * r, q);
  }

  lemma SameOrderAtScale(x: int, y: int, q: nat)
    requires q >= 1
    ensures (x < y <==> x * q < y * q) && (x == y <==> x * q == y * q)
  {
    if x < y { MulGap(x, y, q); }
    if y < x { MulGap(y, x, q); }
  }

  /** Comparing two timestamps is comparing their exact instants, at any unit
      fine enough to express both: a total order. */
  lemma CompareIsExact(l: Instant, r: Instant, n: nat)
    requires ValidInstant(l) && ValidInstant(r) && |l.fraction| <= n && |r.fraction| <= n
    ensures CompareInstants(l, r)
         == if Units(l, n) < Units(r, n) then -1 else if Units(l, n) == Units(r, n) then 0 else 1
  {
    var m := Max(|l.fraction|, |r.fraction|);
    UnitsRefine(l, m, n - m);
    UnitsRefine(r, m, n - m);
    SameOrderAtScale(Units(l, m), Units(r, m), Pow10(n - m));
    var lf, rf := PadEnd(l.fraction, m), PadEnd(r.fraction, m);
    TextOrderIsNumeric(lf, rf);
    NumBound(lf);
    NumBound(rf);
    hide Num, Pow10;
    LeadingDigitDecides(l.wholeSeconds, r.wholeSeconds, Num(lf), Num(rf), Pow10(m));
  }

  lemma DotSplits(a: string, b: string, c: string, d: string)
    requires '.' !in a && '.' !in c && a + "." + b == c + "." + d
    ensures a == c && b == d
  {
    var s := a + "." + b;
    assert s[|a|] == '.' && s[|c|] == '.';
    assert forall i :: 0 <= i < |a| ==> s[i] == a[i];
    assert forall i :: 0 <= i < |c| ==> s[i] == c[i];
    assert |a| == |c|;
    assert a == s[..|a|] && c == s[..|c|] && b == s[|a| + 1..] && d == s[|c| + 1..];
  }

  /** Two valid timestamps share an instant key exactly when they compare equal. */
  lemma KeysAreInstants(left: string, right: string)
    requires ParseInstant(left).Some? && ParseInstant(right).Some?
    ensures InstantKey(left) == InstantKey(right) <==> Compare(left, right) == Some(0)
  {
    var l, r := ParseInstant(left).value, ParseInstant(right).value;
    var n := Max(|l.fraction|, |r.fraction|);
    TrimIffPad(l.fraction, r.fraction, n);
    if InstantKeyOf(l) == InstantKeyOf(r) {
      DotSplits(IntText(l.wholeSeconds), TrimZeros(l.fraction), IntText(r.wholeSeconds), TrimZeros(r.fraction));
      IntTextRoundTrip(l.wholeSeconds);
      IntTextRoundTrip(r.wholeSeconds);
    }
  }

  /** The order is total and transitive across any three timestamps. */
  lemma CompareIsTotalOrder(a: Instant, b: Instant, c: Instant)
    requires ValidInstant(a) && ValidInstant(b) && ValidInstant(c)
    ensures CompareInstants(a, b) == -CompareInstants(b, a)
    ensures CompareInstants(a, b) <= 0 && CompareInstants(b, c) <= 0 ==> CompareInstants(a, c) <= 0
    ensures CompareInstants(a, b) <= 0 && CompareInstants(b, c) < 0 ==> CompareInstants(a, c) < 0
  {
    var n := Max(|a.fraction|, Max(|b.fraction|, |c.fraction|));
    CompareIsExact(a, b, n);
    CompareIsExact(b, a, n);
    CompareIsExact(b, c, n);
    CompareIsExact(a, c, n);
  }
}
