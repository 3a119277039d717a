/** What an admitted timing allows, and why no check passes too late
    (packages/harness-plugin/src/runtime/coordination-deadlines.ts). */
module Conservative {
  import opened Common
  import opened Decimal
  import opened Calendar
  import opened Binary64
  import opened Deadlines

  /** isCoordinationTimingCurrent. */
  predicate IsCurrent(t: Timing, now: Clock, snapshot: bool, lease: bool)
    requires FiniteClock(t.sent) && FiniteClock(t.received) && t.scale >= 0
  {
    && FiniteClock(now) && Value(now.monotonic) >= Value(t.received.monotonic)
    && StableOffset(t.sent, now, t.scale)
    && Value(now.monotonic) < t.jobDeadline as real
    && (snapshot ==> Value(now.monotonic) < t.snapshotDeadline as real)
    && (lease ==> t.leaseDeadline.Some? && Value(now.monotonic) < t.leaseDeadline.value as real)
  }

  /** isReconciliationTimingCurrent. */
  predicate IsReconciliationCurrent(t: Timing, now: Clock)
    requires FiniteClock(t.sent) && FiniteClock(t.received) && t.scale >= 0
  {
    && FiniteClock(now) && Value(now.monotonic) >= Value(t.received.monotonic)
    && StableOffset(t.sent, now, t.scale)
    && Value(now.monotonic) < t.snapshotDeadline as real
  }

  function MinReal(a: real, b: real): real { if a < b then a else b }

  /** cancellationCoordinationDeadline: the command's expiry clamped to the job's. */
  function CancellationDeadline(t: Timing, commandExpiresAt: string): Option<int> {
    if !Timestamp(commandExpiresAt) then None
    else if !FiniteClock(t.sent) || !FiniteClock(t.received) then None
    else if WaiterRemaining(t.sent, t.received).None? || t.scale <= 0 then None
    else if !SafeInteger(t.jobDeadline) || !SafeInteger(t.snapshotDeadline) then None
    else if t.snapshotDeadline as real <= Value(t.received.monotonic) then None
    else if FloorDeadline(t.jobEndpoint, t.scale) != Some(t.jobDeadline) then None
    else
      var key := Key(commandExpiresAt);
      var digits := Max(|NatText(t.scale)| - 1, FractionDigits(key));
      var deadline := CommandDeadline(t, key, digits);
      if deadline.Some? && deadline.value as real > Value(t.received.monotonic) then deadline else None
  }

  function CommandDeadline(t: Timing, key: string, digits: nat): Option<int>
    requires t.scale > 0 && IsKey(key)
  {
    var scale := Pow10(digits);
    var multiplier := TruncDiv(scale, t.scale);
    var job := t.jobEndpoint * multiplier;
    var command := job + InstantUnits(key, digits) - t.remoteJobExpiry * multiplier;
    FloorDeadline(Min(job, command), scale)
  }

  datatype ApprovalDeadlines = ApprovalDeadlines(wire: int, monotonic: int)

  /** The earlier of an endpoint and a lifetime after a clock reading, floored. */
  function Clamp(endpoint: int, clock: int, seconds: int, scale: int): Option<int>
    requires scale > 0
  {
    FloorDeadline(Min(endpoint, clock + seconds * 1000 * scale), scale)
  }

  /** approvalCoordinationDeadlines. */
  function ApprovalDeadlinesFor(t: Timing, seconds: int): Option<ApprovalDeadlines>
    requires FiniteClock(t.received) && t.scale > 0
  {
    if seconds < 60 || seconds > 1800 then None
    else
      var wire := Clamp(t.remoteJobExpiry, ClockUnits(t.received.wall, t.scale), seconds, t.scale);
      var monotonic := Clamp(t.jobEndpoint, ClockUnits(t.received.monotonic, t.scale), seconds, t.scale);
      if wire.None? || monotonic.None? then None
      else if wire.value as real <= Value(t.received.wall)
        || monotonic.value as real <= Value(t.received.monotonic) then None
      else Some(ApprovalDeadlines(wire.value, monotonic.value))
  }

  // ----- the true remote instants -----

  /** The local monotonic instant at which the server's clock reads `text`, when
      the server stamped observed_at at local monotonic instant `stamp`. */
  function TrueInstant(s: StatePayload, stamp: real, text: string): real
    requires SchemaOk(s) && Timestamp(text)
  {
    stamp + MsOf(text) - MsOf(s.observedAt)
  }

  /** The stamp falls between sending the request and receiving the answer. */
  predicate StampedBetween(sent: Clock, received: Clock, stamp: real) {
    FiniteClock(sent) && FiniteClock(received) && Value(sent.monotonic) <= stamp <= Value(received.monotonic)
  }

  /** Anything below a floored endpoint is more than a second before the truth. */
  lemma BelowEndpoint(s: StatePayload, sent: Clock, received: Clock, stamp: real, text: string, now: real)
    requires SchemaOk(s) && StampedBetween(sent, received, stamp) && Timestamp(text)
    requires now < Endpoint(s, sent, text).Floor as real
    ensures now + 1000.0 < TrueInstant(s, stamp, text)
  {
    hide Value, MsOf, SchemaOk, Timestamp;
  }

  /** Every check that passes does so more than a second before the true expiry
      of each thing it checks. */
  lemma ChecksAreConservative(s: StatePayload, sent: Clock, received: Clock, effect: bool, stamp: real, now: Clock,
                              snapshot: bool, lease: bool)
    requires AdmitTiming(s, sent, received, effect).Some? && StampedBetween(sent, received, stamp)
    requires var t := AdmitTiming(s, sent, received, effect).value;
             FiniteClock(t.sent) && FiniteClock(t.received) && t.scale >= 0 && IsCurrent(t, now, snapshot, lease)
    ensures SchemaOk(s)
    ensures Value(now.monotonic) + 1000.0 < TrueInstant(s, stamp, s.expiresAt)
    ensures snapshot ==> Value(now.monotonic) + 1000.0 < TrueInstant(s, stamp, s.stateValidUntil)
    ensures lease ==>
            s.leaseExpiresAt.Some? && Value(now.monotonic) + 1000.0 < TrueInstant(s, stamp, s.leaseExpiresAt.value)
  {
    hide AdmitTiming, SchemaOk, Value, Timestamp, Scaled, Pow10, Digits, Endpoint, TrueInstant, Agreeing, SafeFloor;
    hide StableOffset;
    AdmissionIsExact(s, sent, received, effect);
    SchemaTimestamps(s);
    BelowEndpoint(s, sent, received, stamp, s.expiresAt, Value(now.monotonic));
    if snapshot { BelowEndpoint(s, sent, received, stamp, s.stateValidUntil, Value(now.monotonic)); }
    if lease { BelowEndpoint(s, sent, received, stamp, s.leaseExpiresAt.value, Value(now.monotonic)); }
  }

  /** Remote closure is always a second inside the snapshot's own window. */
  lemma ReconciliationIsConservative(s: StatePayload, sent: Clock, received: Clock, effect: bool, stamp: real,
                                     now: Clock)
    requires AdmitTiming(s, sent, received, effect).Some? && StampedBetween(sent, received, stamp)
    requires var t := AdmitTiming(s, sent, received, effect).value;
             FiniteClock(t.sent) && FiniteClock(t.received) && t.scale >= 0 && IsReconciliationCurrent(t, now)
    ensures SchemaOk(s) && Value(now.monotonic) + 1000.0 < TrueInstant(s, stamp, s.stateValidUntil)
  {
    hide AdmitTiming, SchemaOk, Value, Timestamp, Scaled, Pow10, Digits, Endpoint, TrueInstant, Agreeing, SafeFloor;
    hide StableOffset;
    AdmissionIsExact(s, sent, received, effect);
    SchemaTimestamps(s);
    BelowEndpoint(s, sent, received, stamp, s.stateValidUntil, Value(now.monotonic));
  }

  lemma SnapshotLastsTwoSeconds(s: StatePayload)
    requires SchemaOk(s)
    ensures MsOf(s.stateValidUntil) == MsOf(s.observedAt) + 2000.0
  {
    hide TrimZeros, Num, Pow10;
    var o, v := ParseInstant(s.observedAt).value, ParseInstant(s.stateValidUntil).value;
    TrimKeepsMs(o);
    TrimKeepsMs(v);
  }

  lemma WholeAndFraction(k: int, a: int, b: int, p: int)
    requires 0 <= a < p && 0 <= b < p && b - a == k * p
    ensures k == 0 && a == b
  {
    if k > 0 { MulGap(0, k, p); }
    if k < 0 { MulGap(k, 0, p); }
  }

  /** Fractions at one scale that differ by a whole number do not differ. */
  lemma FractionGap(a: int, b: int, x: real, y: real, p: int, k: int)
    requires Scaled(a, x, p) && Scaled(b, y, p) && y - x == k as real && 0 <= a < p && 0 <= b < p
    ensures k == 0 && a == b
  {
    assert b as real - a as real == (y - x) * p as real;
    assert (b - a) as real == (k * p) as real;
    WholeAndFraction(k, a, b, p);
  }

  function Fraction(i: Instant): real
    requires ValidInstant(i)
  {
    Num(i.fraction) as real / Pow10(|i.fraction|) as real
  }

  lemma MsParts(i: Instant)
    requires ValidInstant(i)
    ensures Ms(i) == 1000.0 * i.wholeSeconds as real + 1000.0 * Fraction(i)
  {
    hide Num, Pow10;
  }

  lemma TrimKeepsFraction(i: Instant)
    requires ValidInstant(i)
    ensures Fraction(i) == Fraction(Instant(0, TrimZeros(i.fraction)))
  {
    hide Fraction, TrimZeros;
    TrimKeepsMs(i);
    MsParts(i);
    MsParts(Instant(i.wholeSeconds, TrimZeros(i.fraction)));
    SameFraction(i.wholeSeconds, 0, TrimZeros(i.fraction));
  }

  lemma SameFraction(v: int, w: int, f: string)
    requires AllDigits(f)
    ensures Fraction(Instant(v, f)) == Fraction(Instant(w, f))
  {}

  /** Two instants are exactly two seconds apart if and only if their whole seconds
      are and their fractions agree up to trailing zeros. */
  lemma TwoSecondsExactly(a: Instant, b: Instant)
    requires ValidInstant(a) && ValidInstant(b)
    ensures Ms(b) == Ms(a) + 2000.0 <==>
              b.wholeSeconds - a.wholeSeconds == 2 && TrimZeros(b.fraction) == TrimZeros(a.fraction)
  {
    hide Num, Pow10, TrimZeros, PadEnd, Scaled, Ms;
    var n := Max(|a.fraction|, |b.fraction|);
    var p, q := PadEnd(a.fraction, n), PadEnd(b.fraction, n);
    MsParts(a);
    MsParts(b);
    TrimKeepsFraction(a);
    TrimKeepsFraction(b);
    if Ms(b) == Ms(a) + 2000.0 {
      FractionUnits(a.fraction, n);
      FractionUnits(b.fraction, n);
      TrimIffPad(a.fraction, b.fraction, n);
      PadsAreDigits(a.fraction, n);
      PadsAreDigits(b.fraction, n);
      TextOrderIsNumeric(p, q);
      NumBound(p);
      NumBound(q);
      FractionGap(Num(p), Num(q), Fraction(a), Fraction(b), Pow10(n), 2 - (b.wholeSeconds - a.wholeSeconds));
    }
  }

  lemma PadsAreDigits(f: string, n: nat)
    requires AllDigits(f) && |f| <= n
    ensures AllDigits(PadEnd(f, n)) && |PadEnd(f, n)| == n
  {}

  /** The state schema: 32-bit numbers, a cancellation no later than the revision,
      lease fields together, readable times, and a window of exactly two seconds. */
  lemma SchemaExactly(s: StatePayload)
    ensures SchemaOk(s) <==>
              && 1 <= s.requestedAttempt <= 2147483647 && s.currentAttempt <= 2147483647 && s.jobRevision <= 2147483647
              && (s.cancelRevision.Some? ==> s.cancelRevision.value <= s.jobRevision)
              && (s.leaseId.Some? <==> s.leaseExpiresAt.Some?)
              && (s.leaseExpiresAt.Some? ==> Timestamp(s.leaseExpiresAt.value))
              && Timestamp(s.expiresAt) && Timestamp(s.observedAt) && Timestamp(s.stateValidUntil)
              && MsOf(s.stateValidUntil) - MsOf(s.observedAt) == 2000.0
  {
    if Timestamp(s.observedAt) && Timestamp(s.stateValidUntil) {
      TwoSecondsExactly(ParseInstant(s.observedAt).value, ParseInstant(s.stateValidUntil).value);
    }
    hide ParseInstant, Ms, TrimZeros;
  }

  /** The explicit test allows a round trip of two seconds; success needs one. */
  lemma AdmissionNeedsOneSecond(s: StatePayload, sent: Clock, received: Clock, effect: bool)
    requires AdmitTiming(s, sent, received, effect).Some?
    ensures FiniteClock(sent) && FiniteClock(received)
    ensures 0.0 <= Value(received.monotonic) - Value(sent.monotonic) < 1000.0
  {
    hide AdmitTiming, SchemaOk, Value, Timestamp, MsOf, Stands, SafeFloor, Stable;
    AdmissionIsExact(s, sent, received, effect);
    SchemaTimestamps(s);
    SnapshotLastsTwoSeconds(s);
  }

  // ----- cancellation -----

  lemma {:induction false} PowerText(d: nat)
    ensures |NatText(Pow10(d))| == d + 1
  {
    if d > 0 {
      PowerText(d - 1);
      assert Pow10(d) == 10 * Pow10(d - 1);
      assert Pow10(d) / 10 == Pow10(d - 1);
    }
  }

  lemma TruncDivExact(p: nat, c: nat)
    requires p >= 1
    ensures TruncDiv(p * c, p) == c
  {
    DivOfMultiple(p, c);
  }

  lemma CommandDeadlineExact(t: Timing, s: StatePayload, sent: Clock, received: Clock, text: string, digits: nat)
    requires SchemaOk(s) && FiniteClock(sent) && FiniteClock(received) && Timestamp(text)
    requires Stands(t, s, sent, received) && t.scale > 0
    requires digits == Max(Digits(s), FractionDigits(Key(text)))
    ensures var x := MinReal(Endpoint(s, sent, s.expiresAt), Endpoint(s, sent, text));
            CommandDeadline(t, Key(text), digits) == if SafeFloor(x) then Some(x.Floor) else None
  {
    hide SchemaOk, Value, Pow10, Scaled, Finite, InstantUnits, Key, MsOf, FloorDeadline, Timestamp, FractionDigits;
    hide IsKey, ParseInstant, Digits, TruncDiv;
    SchemaTimestamps(s);
    var k := digits - Digits(s);
    Pow10Add(Digits(s), k);
    var scale, multiplier := Pow10(digits), Pow10(k);
    TruncDivExact(Pow10(Digits(s)), Pow10(k));
    InstantUnitsExact(text, digits);
    var jobEnd, jobExpiry := Endpoint(s, sent, s.expiresAt), MsOf(s.expiresAt);
    ScaledTimes(t.jobEndpoint, jobEnd, t.scale, multiplier);
    ScaledTimes(t.remoteJobExpiry, jobExpiry, t.scale, multiplier);
    var job, expiry := t.jobEndpoint * multiplier, t.remoteJobExpiry * multiplier;
    var u := InstantUnits(Key(text), digits);
    ScaledSum(job, jobEnd, u, MsOf(text), scale);
    ScaledSum(job + u, jobEnd + MsOf(text), expiry, jobExpiry, scale);
    var command, commandEnd := job + u - expiry, Endpoint(s, sent, text);
    assert commandEnd == jobEnd + MsOf(text) - jobExpiry;
    ScaledOrder(job, jobEnd, command, commandEnd, scale);
    FloorDeadlineFloors(Min(job, command), scale, MinReal(jobEnd, commandEnd));
  }

  /** For an admitted timing the deadline of a cancel command is the floor of the
      earlier of the two endpoints, whenever that is safe and still ahead. */
  lemma CancellationIsExact(s: StatePayload, sent: Clock, received: Clock, effect: bool, text: string)
    requires AdmitTiming(s, sent, received, effect).Some? && Timestamp(text)
    ensures SchemaOk(s) && FiniteClock(sent) && FiniteClock(received)
    ensures var t := AdmitTiming(s, sent, received, effect).value;
            var x := MinReal(Endpoint(s, sent, s.expiresAt), Endpoint(s, sent, text));
            CancellationDeadline(t, text)
              == if SafeFloor(x) && x.Floor as real > Value(received.monotonic) then Some(x.Floor) else None
  {
    hide AdmitTiming, SchemaOk, FiniteClock, Value, Pow10, Scaled, Key, FloorDeadline, Timestamp, FractionDigits;
    hide ParseInstant, Digits;
    hide Endpoint, CommandDeadline, WaiterRemaining, NatText, Stable, MsOf;
    AdmissionIsExact(s, sent, received, effect);
    AdmissionNeedsOneSecond(s, sent, received, effect);
    WaiterRemainingExact(sent, received);
    SchemaTimestamps(s);
    var t := AdmitTiming(s, sent, received, effect).value;
    PowerText(Digits(s));
    FloorDeadlineFloors(t.jobEndpoint, t.scale, Endpoint(s, sent, s.expiresAt));
    CommandDeadlineExact(t, s, sent, received, text, Max(Digits(s), FractionDigits(Key(text))));
  }

  /** Below a cancel deadline both the command and the job are more than a
      second from their true expiry. */
  lemma CancellationIsConservative(s: StatePayload, sent: Clock, received: Clock, effect: bool, stamp: real,
                                   text: string, now: real)
    requires AdmitTiming(s, sent, received, effect).Some? && StampedBetween(sent, received, stamp) && Timestamp(text)
    requires CancellationDeadline(AdmitTiming(s, sent, received, effect).value, text).Some?
    requires now < CancellationDeadline(AdmitTiming(s, sent, received, effect).value, text).value as real
    ensures SchemaOk(s)
    ensures now + 1000.0 < TrueInstant(s, stamp, s.expiresAt) && now + 1000.0 < TrueInstant(s, stamp, text)
  {
    hide AdmitTiming, SchemaOk, Value, Timestamp, CancellationDeadline, Endpoint, TrueInstant;
    CancellationIsExact(s, sent, received, effect, text);
    SchemaTimestamps(s);
    var a, b := Endpoint(s, sent, s.expiresAt), Endpoint(s, sent, text);
    FloorMonotone(MinReal(a, b), a);
    FloorMonotone(MinReal(a, b), b);
    BelowEndpoint(s, sent, received, stamp, s.expiresAt, now);
    BelowEndpoint(s, sent, received, stamp, text, now);
  }

  lemma FloorMonotone(x: real, y: real)
    requires x <= y
    ensures x.Floor <= y.Floor
  {}

  // ----- approvals -----

  /** A lifetime in milliseconds. */
  function Lifetime(seconds: int): real { (seconds * 1000) as real }

  lemma ClampExact(u: int, x: real, c: int, y: real, seconds: int, scale: int)
    requires scale > 0 && Scaled(u, x, scale) && Scaled(c, y, scale)
    ensures var z := MinReal(x, y + Lifetime(seconds));
            Clamp(u, c, seconds, scale) == if SafeFloor(z) then Some(z.Floor) else None
  {
    hide Scaled, FloorDeadline;
    var k := seconds * 1000;
    assert seconds * 1000 * scale == k * scale;
    ScaledWhole(k, scale);
    ScaledSum(c, y, k * scale, k as real, scale);
    ScaledOrder(u, x, c + k * scale, y + k as real, scale);
    FloorDeadlineFloors(Min(u, c + k * scale), scale, MinReal(x, y + k as real));
  }

  /** The two deadlines of an approval are the floors of the job's own end and of
      the requested lifetime, each clamped to the earlier. */
  lemma ApprovalDeadlinesExact(s: StatePayload, sent: Clock, received: Clock, effect: bool, seconds: int)
    requires AdmitTiming(s, sent, received, effect).Some?
    ensures SchemaOk(s) && FiniteClock(sent) && FiniteClock(received)
    ensures var t := AdmitTiming(s, sent, received, effect).value;
            var wire := MinReal(MsOf(s.expiresAt), Value(received.wall) + Lifetime(seconds));
            var monotonic := MinReal(Endpoint(s, sent, s.expiresAt), Value(received.monotonic) + Lifetime(seconds));
            && t.received == received && t.scale > 0
            && ApprovalDeadlinesFor(t, seconds) ==
               if 60 <= seconds <= 1800 && SafeFloor(wire) && SafeFloor(monotonic)
                  && wire.Floor as real > Value(received.wall) && monotonic.Floor as real > Value(received.monotonic)
               then Some(ApprovalDeadlines(wire.Floor, monotonic.Floor)) else None
  {
    hide AdmitTiming, SchemaOk, FiniteClock, Value, Pow10, Scaled, Timestamp, Digits, Endpoint, MsOf, ClockUnits;
    hide SafeFloor, Lifetime;
    hide ApprovalDeadlinesFor, MinReal;
    ExactRecord(s, sent, received, effect);
    ApprovalFrom(AdmitTiming(s, sent, received, effect).value, seconds, MsOf(s.expiresAt),
                 Endpoint(s, sent, s.expiresAt));
  }

  /** What the retained record is, in real numbers. */
  lemma ExactRecord(s: StatePayload, sent: Clock, received: Clock, effect: bool)
    requires AdmitTiming(s, sent, received, effect).Some?
    ensures SchemaOk(s) && FiniteClock(sent) && FiniteClock(received) && Timestamp(s.expiresAt)
    ensures var t := AdmitTiming(s, sent, received, effect).value;
            && t.received == received && t.scale > 0
            && Scaled(t.remoteJobExpiry, MsOf(s.expiresAt), t.scale)
            && Scaled(t.jobEndpoint, Endpoint(s, sent, s.expiresAt), t.scale)
            && Scaled(ClockUnits(received.wall, t.scale), Value(received.wall), t.scale)
            && Scaled(ClockUnits(received.monotonic, t.scale), Value(received.monotonic), t.scale)
  {
    hide AdmitTiming, SchemaOk, Value, Pow10, Scaled, Timestamp, Digits, Endpoint, MsOf, ClockUnits, Finite, Agreeing;
    hide SafeFloor;
    AdmissionIsExact(s, sent, received, effect);
    SchemaTimestamps(s);
    ClockUnitsExact(received.wall, Digits(s));
    ClockUnitsExact(received.monotonic, Digits(s));
  }

  lemma ApprovalFrom(t: Timing, seconds: int, expiry: real, endpoint: real)
    requires FiniteClock(t.received) && t.scale > 0 && Scaled(t.remoteJobExpiry, expiry, t.scale)
             && Scaled(t.jobEndpoint, endpoint, t.scale)
    requires Scaled(ClockUnits(t.received.wall, t.scale), Value(t.received.wall), t.scale)
    requires Scaled(ClockUnits(t.received.monotonic, t.scale), Value(t.received.monotonic), t.scale)
    ensures var wire := MinReal(expiry, Value(t.received.wall) + Lifetime(seconds));
            var monotonic := MinReal(endpoint, Value(t.received.monotonic) + Lifetime(seconds));
            ApprovalDeadlinesFor(t, seconds) ==
              if 60 <= seconds <= 1800 && SafeFloor(wire) && SafeFloor(monotonic)
                 && wire.Floor as real > Value(t.received.wall) && monotonic.Floor as real > Value(t.received.monotonic)
              then Some(ApprovalDeadlines(wire.Floor, monotonic.Floor)) else None
  {
    hide Value, Scaled, Clamp, ClockUnits, Finite, SafeFloor, Lifetime, MinReal;
    ClampExact(t.remoteJobExpiry, expiry, ClockUnits(t.received.wall, t.scale), Value(t.received.wall), seconds,
               t.scale);
    ClampExact(t.jobEndpoint, endpoint, ClockUnits(t.received.monotonic, t.scale), Value(t.received.monotonic), seconds,
               t.scale);
  }
}
