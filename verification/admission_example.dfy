/** The admission of a coordination snapshot is not empty: a concrete state,
    stamped at the Unix epoch, is admitted with clocks that read zero. */
module AdmissionExample {
  import opened Common
  import opened JobState
  import opened Decimal
  import opened Calendar
  import opened Binary64
  import opened Deadlines

  const Zero: Double := Double(false, 0, 0)
  const Start: Clock := Clock(Zero, Zero)

  /** A time on the first of January 1970: hour `h`, second `e`. */
  function EpochText(h: char, e: char): string { "1970-01-01T0" + [h] + ":00:0" + [e] + "Z" }

  const Example: StatePayload := StatePayload(
    1, 2, Normal, 1, 1, Running, 3, None, None, None, EpochText('1', '0'), EpochText('0', '0'), EpochText('0', '2'))

  lemma PairReads(s: string, at: nat, a: char, b: char)
    requires at + 2 <= |s| && s[at] == a && s[at + 1] == b && IsDigit(a) && IsDigit(b)
    ensures TwoDigits(s, at) == Some(10 * DigitOf(a) + DigitOf(b))
  {
    var d := s[at..at + 2];
    assert d == [a, b] && d[1..] == [b] && [b][1..] == [];
    assert Num([b]) == DigitOf(b) * Pow10(0) + Num([]);
    assert Num(d) == DigitOf(a) * Pow10(1) + Num([b]);
    assert Pow10(1) == 10 * Pow10(0);
  }

  lemma EpochYear()
    ensures AllDigits("1970") && Num("1970") == 1970
  {
    PairReads("1970", 0, '1', '9');
    PairReads("1970", 2, '7', '0');
    assert "1970"[0..2] == "19" && "1970"[2..4] == "70" && "1970" == "19" + "70";
    NumConcat("19", "70");
    assert Pow10(2) == 10 * Pow10(1) && Pow10(1) == 10 * Pow10(0);
  }

  lemma EpochFields(h: char, e: char)
    requires IsDigit(h) && IsDigit(e)
    ensures ParseFields(EpochText(h, e)) == Some(Fields(1970, 1, 1, DigitOf(h), 0, DigitOf(e), "", 0))
  {
    var s := EpochText(h, e);
    assert |s| == 20 && s[..4] == "1970" && s[19..] == "Z";
    assert s[4] == '-' && s[7] == '-' && s[10] == 'T' && s[13] == ':' && s[16] == ':';
    EpochYear();
    PairReads(s, 5, '0', '1');
    PairReads(s, 8, '0', '1');
    PairReads(s, 11, '0', h);
    PairReads(s, 14, '0', '0');
    PairReads(s, 17, '0', e);
    ZuluTail();
    hide TwoDigits, Num, ParseTail, EpochText;
  }

  lemma ZuluTail()
    ensures ParseTail("Z") == Some(("", 0))
  {}

  lemma EpochDay(h: char, e: char)
    requires IsDigit(h) && IsDigit(e)
    ensures ParseInstant(EpochText(h, e)) == Some(Instant(DigitOf(h) * 3600 + DigitOf(e), ""))
  {
    hide ParseFields, EpochText, DaysFromUnixEpoch, WalkedDays;
    EpochFields(h, e);
    DaysCountTheCalendar(1970, 1, 1);
    FirstDay();
  }

  lemma FirstDay()
    ensures WalkedDays(1970, 1, 1) == 0
  {}

  lemma ExampleTimes()
    ensures ParseInstant(Example.observedAt) == Some(Instant(0, ""))
    ensures ParseInstant(Example.stateValidUntil) == Some(Instant(2, ""))
    ensures ParseInstant(Example.expiresAt) == Some(Instant(3600, ""))
  {
    hide ParseInstant, EpochText;
    EpochDay('0', '0');
    EpochDay('0', '2');
    EpochDay('1', '0');
  }

  lemma WholeMs(n: int)
    ensures Ms(Instant(n, "")) == n as real * 1000.0
  {
    assert Num("") == 0;
  }

  lemma ZeroReadsZero()
    ensures FiniteClock(Start) && Value(Zero) == 0.0
  {
    hide Pow2;
  }

  /** The example is admitted, for effects and for closure alike: a round trip of
      no time leaves one second of the snapshot and all but one of the job's hour. */
  lemma ExampleIsAdmitted(effect: bool)
    ensures var t := AdmitTiming(Example, Start, Start, effect);
            t.Some? && t.value.snapshotDeadline == 1000 && t.value.jobDeadline == 3599000
              && t.value.leaseDeadline == None
  {
    hide ParseInstant, Value, FiniteClock, AdmitTiming, EpochText, SchemaOk, MsOf;
    ExampleFits();
    ZeroReadsZero();
    SchemaTimestamps(Example);
    assert Endpoint(Example, Start, Example.stateValidUntil) == 1000.0
           && Endpoint(Example, Start, Example.expiresAt) == 3599000.0;
    AdmissionIsExact(Example, Start, Start, effect);
  }

  lemma ExampleFits()
    ensures SchemaOk(Example)
    ensures MsOf(Example.observedAt) == 0.0 && MsOf(Example.stateValidUntil) == 2000.0
            && MsOf(Example.expiresAt) == 3600000.0
  {
    hide ParseInstant, EpochText, Ms;
    ExampleTimes();
    WholeMs(0);
    WholeMs(2);
    WholeMs(3600);
  }
}
