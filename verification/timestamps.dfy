/** RFC 3339 timestamps as texts (section 5.6 of RFC 3339): what is written reads
    back, and what reads was so written. */
module Timestamps {
  import opened Common
  import opened Decimal
  import opened Calendar

  datatype Zone = Zulu | Offset(east: bool, hours: nat, minutes: nat)

  predicate ZoneOk(z: Zone) { z.Offset? ==> z.hours <= 23 && z.minutes <= 59 }

  function Two(n: nat): (s: string)
    requires n < 100
    ensures |s| == 2 && AllDigits(s)
  {
    [DigitChar(n / 10), DigitChar(n % 10)]
  }

  function ZoneText(z: Zone): string
    requires ZoneOk(z)
  {
    if z.Zulu? then "Z" else (if z.east then "+" else "-") + Two(z.hours) + ":" + Two(z.minutes)
  }

  /** Seconds that local time is ahead of universal time. */
  function ZoneSeconds(z: Zone): int {
    if z.Zulu? then 0 else if z.east then 60 * (60 * z.hours + z.minutes) else -60 * (60 * z.hours + z.minutes)
  }

  /** A time as it is written: a date, a time of day, an optional fraction, a zone. */
  datatype Stamp = Stamp(year: nat, month: nat, day: nat, hour: nat, minute: nat, second: nat, fraction: string,
                         zone: Zone)

  predicate StampOk(x: Stamp) {
    && x.year < 10000 && x.month < 100 && x.day < 100 && x.hour <= 23 && x.minute <= 59 && x.second <= 59
    && AllDigits(x.fraction) && ZoneOk(x.zone)
  }

  function TailText(fraction: string, z: Zone): string
    requires ZoneOk(z)
  {
    (if fraction == "" then "" else "." + fraction) + ZoneText(z)
  }

  /** The pairs of digits and the separators between them. */
  function Glued(a: string, b: string, c: string, d: string, e: string, f: string, g: string, tail: string): string {
    a + b + "-" + c + "-" + d + "T" + e + ":" + f + ":" + g + tail
  }

  function Written(x: Stamp): string
    requires StampOk(x)
  {
    Glued(Two(x.year / 100), Two(x.year % 100), Two(x.month), Two(x.day), Two(x.hour), Two(x.minute), Two(x.second),
          TailText(x.fraction, x.zone))
  }

  lemma PartOf(before: string, part: string, s: string)
    requires before + part <= s
    ensures before <= s && s[|before|..|before| + |part|] == part
    ensures |part| == 1 ==> s[|before|] == part[0]
  {
    assert before + part == s[..|before| + |part|];
  }

  lemma GluedParts(a: string, b: string, c: string, d: string, e: string, f: string, g: string, tail: string)
    requires |a| == |b| == |c| == |d| == 2 && |e| == |f| == |g| == 2
    ensures var s := Glued(a, b, c, d, e, f, g, tail);
            && |s| == 19 + |tail| && s[4] == '-' && s[7] == '-' && s[10] == 'T' && s[13] == ':' && s[16] == ':'
            && s[..4] == a + b && s[5..7] == c && s[8..10] == d && s[11..13] == e && s[14..16] == f && s[17..19] == g
            && s[19..] == tail
  {
    var y := a + b;
    var m := y + "-" + c;
    var n := m + "-" + d;
    var h := n + "T" + e;
    var k := h + ":" + f;
    var l := k + ":" + g;
    var s := Glued(a, b, c, d, e, f, g, tail);
    assert s == l + tail;
    PartOf(l, tail, s);
    PartOf(k + ":", g, s);
    PartOf(k, ":", s);
    PartOf(h + ":", f, s);
    PartOf(h, ":", s);
    PartOf(n + "T", e, s);
    PartOf(n, "T", s);
    PartOf(m + "-", d, s);
    PartOf(m, "-", s);
    PartOf(y + "-", c, s);
    PartOf(y, "-", s);
  }

  lemma GluedFrom(s: string)
    requires |s| >= 19 && s[4] == '-' && s[7] == '-' && s[10] == 'T' && s[13] == ':' && s[16] == ':'
    ensures s == Glued(s[..2], s[2..4], s[5..7], s[8..10], s[11..13], s[14..16], s[17..19], s[19..])
  {}

  // ----- pairs of digits -----

  lemma TwoReads(n: nat)
    requires n < 100
    ensures Num(Two(n)) == n
  {
    var s := Two(n);
    assert s[1..] == [DigitChar(n % 10)] && s[1..][1..] == [];
    assert Num(s[1..]) == DigitOf(s[1]) * Pow10(0) + Num([]);
    assert Num(s) == DigitOf(s[0]) * Pow10(1) + Num(s[1..]);
    assert Pow10(1) == 10 * Pow10(0);
  }

  lemma TwoDigitNumber(s: string)
    requires |s| == 2 && AllDigits(s)
    ensures Num(s) == 10 * DigitOf(s[0]) + DigitOf(s[1])
  {
    assert s[1..] == [s[1]] && s[1..][1..] == [];
    assert Num(s[1..]) == DigitOf(s[1]) * Pow10(0) + Num([]);
    assert Num(s) == DigitOf(s[0]) * Pow10(1) + Num(s[1..]);
    assert Pow10(1) == 10 * Pow10(0);
  }

  /** Two digits are the writing of their number. */
  lemma ReadTwo(s: string)
    requires |s| == 2 && AllDigits(s)
    ensures Num(s) < 100 && Two(Num(s)) == s
  {
    hide Num;
    TwoDigitNumber(s);
    var n, x, y := Num(s), DigitOf(s[0]), DigitOf(s[1]);
    assert n == 10 * x + y && n / 10 == x && n % 10 == y;
    assert DigitChar(x) == s[0] && DigitChar(y) == s[1];
  }

  lemma FourReads(a: string, b: string)
    requires |a| == 2 && |b| == 2 && AllDigits(a) && AllDigits(b)
    ensures AllDigits(a + b) && Num(a + b) == 100 * Num(a) + Num(b)
  {
    NumConcat(a, b);
    assert Pow10(2) == 10 * Pow10(1) && Pow10(1) == 10 * Pow10(0);
  }

  // ----- zones and tails -----

  lemma ZoneReads(z: Zone)
    requires ZoneOk(z)
    ensures ParseZone(ZoneText(z)) == Some(ZoneSeconds(z))
    ensures ZoneText(z) != "" && !IsDigit(ZoneText(z)[0]) && ZoneText(z)[0] != '.'
  {
    if z.Offset? {
      var s := ZoneText(z);
      assert s[1..3] == Two(z.hours) && s[4..6] == Two(z.minutes);
      TwoReads(z.hours);
      TwoReads(z.minutes);
      hide Two, Num;
    }
  }

  lemma ReadZone(s: string) returns (z: Zone)
    requires ParseZone(s).Some?
    ensures ZoneOk(z) && ZoneText(z) == s && ZoneSeconds(z) == ParseZone(s).value
  {
    if s == "Z" {
      z := Zulu;
    } else {
      z := Offset(s[0] == '+', Num(s[1..3]), Num(s[4..6]));
      ReadTwo(s[1..3]);
      ReadTwo(s[4..6]);
      hide Two, Num;
      assert s == [s[0]] + s[1..3] + ":" + s[4..6];
    }
  }

  lemma {:induction false} DigitsThenOther(f: string, rest: string)
    requires AllDigits(f) && (rest != [] ==> !IsDigit(rest[0]))
    ensures LeadingDigits(f + rest) == |f|
  {
    if f == [] {
      assert f + rest == rest;
    } else {
      assert (f + rest)[1..] == f[1..] + rest;
      DigitsThenOther(f[1..], rest);
    }
  }

  lemma TailReads(f: string, z: Zone)
    requires AllDigits(f) && ZoneOk(z)
    ensures ParseTail(TailText(f, z)) == Some((f, ZoneSeconds(z))) && TailText(f, z) != ""
  {
    ZoneReads(z);
    hide ParseZone, ZoneText, LeadingDigits;
    var s := TailText(f, z);
    if f == "" {
      assert s == ZoneText(z);
    } else {
      DigitsThenOther(f, ZoneText(z));
      assert s[1..] == f + ZoneText(z) && s[1 + |f|..] == ZoneText(z) && s[1..1 + |f|] == f;
    }
  }

  lemma ReadTail(s: string) returns (z: Zone)
    requires ParseTail(s).Some?
    ensures ZoneOk(z) && s == TailText(ParseTail(s).value.0, z) && ZoneSeconds(z) == ParseTail(s).value.1
  {
    hide ParseZone, ZoneText;
    if s != [] && s[0] == '.' {
      var n := LeadingDigits(s[1..]);
      z := ReadZone(s[1 + n..]);
      assert s == "." + s[1..1 + n] + s[1 + n..];
    } else {
      z := ReadZone(s);
      assert s == "" + s;
    }
  }

  // ----- whole timestamps -----

  function FieldsOf(x: Stamp): Fields {
    Fields(x.year, x.month, x.day, x.hour, x.minute, x.second, x.fraction, ZoneSeconds(x.zone))
  }

  /** What is written reads back field by field. */
  lemma WrittenReads(x: Stamp)
    requires StampOk(x)
    ensures ParseFields(Written(x)) == Some(FieldsOf(x))
  {
    hide Two, Num, ParseTail, TailText, Glued, AllDigits;
    var s := Written(x);
    GluedParts(Two(x.year / 100), Two(x.year % 100), Two(x.month), Two(x.day), Two(x.hour), Two(x.minute),
               Two(x.second),
               TailText(x.fraction, x.zone));
    TailReads(x.fraction, x.zone);
    TwoReads(x.year / 100);
    TwoReads(x.year % 100);
    TwoReads(x.month);
    TwoReads(x.day);
    TwoReads(x.hour);
    TwoReads(x.minute);
    TwoReads(x.second);
    FourReads(Two(x.year / 100), Two(x.year % 100));
    assert |TailText(x.fraction, x.zone)| >= 1;
  }

  /** What reads was so written: the parser accepts exactly these texts. */
  lemma ReadWasWritten(s: string) returns (x: Stamp)
    requires ParseFields(s).Some?
    ensures StampOk(x) && Written(x) == s && ParseFields(s) == Some(FieldsOf(x))
  {
    FieldsShape(s);
    hide Two, Num, ParseTail, TailText, Glued, AllDigits, ParseFields;
    var f := ParseFields(s).value;
    var zone := ReadTail(s[19..]);
    assert s[..4] == s[..2] + s[2..4];
    DigitHalves(s[..4]);
    FourReads(s[..2], s[2..4]);
    ReadTwo(s[..2]);
    ReadTwo(s[2..4]);
    ReadTwo(s[5..7]);
    ReadTwo(s[8..10]);
    ReadTwo(s[11..13]);
    ReadTwo(s[14..16]);
    ReadTwo(s[17..19]);
    x := Stamp(f.year, f.month, f.day, f.hour, f.minute, f.second, f.fraction, zone);
    assert f.year / 100 == Num(s[..2]) && f.year % 100 == Num(s[2..4]);
    GluedFrom(s);
  }

  lemma DigitHalves(s: string)
    requires |s| == 4 && AllDigits(s)
    ensures AllDigits(s[..2]) && AllDigits(s[2..]) && s[..2] + s[2..] == s
  {}

  /** The parts a timestamp is read from. */
  lemma FieldsShape(s: string)
    requires ParseFields(s).Some?
    ensures |s| >= 20 && s[4] == '-' && s[7] == '-' && s[10] == 'T' && s[13] == ':' && s[16] == ':'
    ensures AllDigits(s[..4]) && AllDigits(s[5..7]) && AllDigits(s[8..10]) && AllDigits(s[11..13])
    ensures AllDigits(s[14..16]) && AllDigits(s[17..19]) && s[..4][..2] == s[..2] && s[..4][2..] == s[2..4]
    ensures ParseTail(s[19..]).Some?
    ensures var f, tail := ParseFields(s).value, ParseTail(s[19..]).value;
            && f == Fields(Num(s[..4]), Num(s[5..7]), Num(s[8..10]), Num(s[11..13]), Num(s[14..16]), Num(s[17..19]),
                           tail.0, tail.1)
            && f.hour <= 23 && f.minute <= 59 && f.second <= 59 && AllDigits(f.fraction)
  {
    hide ParseTail, Num, AllDigits;
  }

  /** A written timestamp of a calendar date denotes the walked count of days, the
      time of day, and the zone taken off; a date that is none denotes nothing. */
  lemma WrittenInstant(x: Stamp)
    requires StampOk(x)
    ensures ParseInstant(Written(x)) ==
              if 1 <= x.month <= 12 && 1 <= x.day <= DaysInMonth(x.year, x.month) then
                Some(Instant(WalkedDays(x.year, x.month, x.day) * 86400 + x.hour * 3600 + x.minute * 60 + x.second
                             - ZoneSeconds(x.zone), x.fraction))
              else None
  {
    hide ParseFields, Written, DaysFromUnixEpoch, WalkedDays, DaysInMonth;
    WrittenReads(x);
    if 1 <= x.month <= 12 { DaysCountTheCalendar(x.year, x.month, x.day); }
  }

  /** The lengths of the months. */
  lemma MonthLengths(year: int, month: int)
    requires 1 <= month <= 12
    ensures DaysInMonth(year, month)
         == if month in {4, 6, 9, 11} then 30
            else if month != 2 then 31
            else if year % 400 == 0 || (year % 4 == 0 && year % 100 != 0) then 29 else 28
  {
    if year % 400 == 0 { HundredFromFourHundred(year); FourFromHundred(year); }
  }
}
