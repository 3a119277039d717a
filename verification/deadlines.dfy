/** Conservative coordination deadlines: exact clock samples and exact timestamps
    combined by integer arithmetic (packages/harness-plugin/src/runtime/
    coordination-deadlines.ts). Every function that the source computes with
    BigInt is proved equal to plain arithmetic on real numbers. */
module Deadlines {
  import opened Common
  import opened Decimal
  import opened Calendar
  import opened Binary64
  import opened JobState

  /** A pair of clock readings in milliseconds. */
  datatype Clock = Clock(wall: Double, monotonic: Double)

  predicate FiniteClock(c: Clock) { Finite(c.wall) && Finite(c.monotonic) }

  /** The payload of a job.state message. */
  datatype StatePayload = StatePayload(
    jobId: Id, repositoryId: Id, mode: Mode, requestedAttempt: nat, currentAttempt: nat,
    status: JobStatus, jobRevision: nat, cancelRevision: Option<nat>,
    leaseId: Option<Id>, leaseExpiresAt: Option<string>,
    expiresAt: string, observedAt: string, stateValidUntil: string)

  predicate Timestamp(text: string) { ParseInstant(text).Some? }

  /** JobStatePayloadSchema, with its three cross-field refinements. */
  predicate SchemaOk(s: StatePayload) {
    && 1 <= s.requestedAttempt <= MAX_INT32 && s.currentAttempt <= MAX_INT32 && s.jobRevision <= MAX_INT32
    && (s.cancelRevision.Some? ==> s.cancelRevision.value <= s.jobRevision)
    && s.leaseId.Some? == s.leaseExpiresAt.Some?
    && (s.leaseExpiresAt.Some? ==> Timestamp(s.leaseExpiresAt.value))
    && Timestamp(s.expiresAt) && Timestamp(s.observedAt) && Timestamp(s.stateValidUntil)
    && var observed, validUntil := ParseInstant(s.observedAt).value, ParseInstant(s.stateValidUntil).value;
       && validUntil.wholeSeconds - observed.wholeSeconds == 2
       && TrimZeros(validUntil.fraction) == TrimZeros(observed.fraction)
  }

  // ----- BigInt division and flooring -----

  /** BigInt division truncates toward zero. */
  function TruncDiv(a: int, b: int): int
    requires b > 0
  {
    if a >= 0 then a / b else -((-a) / b)
  }

  function TruncMod(a: int, b: int): int
    requires b > 0
  {
    a - b * TruncDiv(a, b)
  }

  predicate SafeInteger(n: int) { 0 - MAX_SAFE <= n <= MAX_SAFE }

  /** floorDeadline: None where the source returns undefined. */
  function FloorDeadline(units: int, scale: int): Option<int>
    requires scale > 0
  {
    var n := TruncDiv(units, scale) - (if units < 0 && TruncMod(units, scale) != 0 then 1 else 0);
    if SafeInteger(n) then Some(n) else None
  }

  /** The correction of the truncating division yields the floor. */
  lemma FloorDeadlineFloors(units: int, scale: int, x: real)
    requires scale > 0 && Scaled(units, x, scale)
    ensures FloorDeadline(units, scale) == if SafeInteger(x.Floor) then Some(x.Floor) else None
  {
    ScaledFloor(units, x, scale);
    if units < 0 { TruncFloor(units, scale); }
  }

  lemma TruncFloor(a: int, b: int)
    requires b > 0 && a < 0
    ensures a / b == TruncDiv(a, b) - (if TruncMod(a, b) != 0 then 1 else 0)
  {
    var q, r := (-a) / b, (-a) % b;
    assert -a == b * q + r && 0 <= r < b;
    assert TruncMod(a, b) == -r by { MulNegates(b, q); }
    MulNegates(b, q);
    MulNegates(b, q + 1);
    MulDistributes(q, 1, b);
    QuotientUnique(a, b, if r == 0 then -q else -q - 1);
  }

  lemma MulNegates(b: int, q: int)
    ensures b * -q == -(b * q) && b * (q + 1) == b * q + b
  {}

  lemma QuotientUnique(a: int, b: int, q: int)
    requires b > 0 && b * q <= a < b * q + b
    ensures a / b == q
  {
    var p := a / b;
    assert b * p <= a < b * p + b;
    if p < q { MulGap(p, q, b); }
    if q < p { MulGap(q, p, b); }
  }

  // ----- timestamps as exact instants -----

  /** The instant a timestamp denotes, in milliseconds since the Unix epoch. */
  function Ms(i: Instant): real
    requires ValidInstant(i)
  {
    1000.0 * (i.wholeSeconds as real + Num(i.fraction) as real / Pow10(|i.fraction|) as real)
  }

  function MsOf(text: string): real
    requires Timestamp(text)
  {
    Ms(ParseInstant(text).value)
  }

  /** key.indexOf("."). */
  function DotAt(key: string): (n: nat)
    requires '.' in key
    ensures n < |key| && key[n] == '.' && '.' !in key[..n]
  {
    if key[0] == '.' then 0
    else
      var n := DotAt(key[1..]);
      assert key[..n + 1] == [key[0]] + key[1..][..n];
      n + 1
  }

  predicate IsKey(key: string) {
    && '.' in key
    && var whole := key[..DotAt(key)];
       && (AllDigits(whole) || (whole != [] && whole[0] == '-' && AllDigits(whole[1..])))
       && AllDigits(key[DotAt(key) + 1..])
  }

  function FractionDigits(key: string): nat
    requires '.' in key
  {
    |key| - DotAt(key) - 1
  }

  /** instantUnits: a key in units of 1/10^digits milliseconds. */
  function InstantUnits(key: string, digits: nat): int
    requires IsKey(key)
  {
    (ParseInt(key[..DotAt(key)]) * Pow10(digits) + Num(PadEnd(key[DotAt(key) + 1..], digits))) * 1000
  }

  lemma KeyParts(i: Instant)
    requires ValidInstant(i)
    ensures var key := InstantKeyOf(i);
            && IsKey(key) && key[..DotAt(key)] == IntText(i.wholeSeconds)
            && key[DotAt(key) + 1..] == TrimZeros(i.fraction)
  {
    hide IntText, TrimZeros;
    var key, whole, fraction := InstantKeyOf(i), IntText(i.wholeSeconds), TrimZeros(i.fraction);
    assert key[|whole|] == '.';
    var n := DotAt(key);
    assert key == key[..n] + "." + key[n + 1..];
    DotSplits(key[..n], key[n + 1..], whole, fraction);
    IntTextRoundTrip(i.wholeSeconds);
  }

  /** rfc3339InstantKey of a valid timestamp. */
  function Key(text: string): (key: string)
    requires Timestamp(text)
    ensures IsKey(key)
  {
    KeyParts(ParseInstant(text).value);
    InstantKeyOf(ParseInstant(text).value)
  }

  lemma FractionUnits(f: string, digits: nat)
    requires AllDigits(f) && |f| <= digits
    ensures Scaled(Num(PadEnd(f, digits)), Num(f) as real / Pow10(|f|) as real, Pow10(digits))
  {
    hide Num, Pow10, PadEnd, Scaled;
    NumPad(f, digits);
    Pow10Add(|f|, digits - |f|);
    ScaledRatio(Num(f), Pow10(|f|), Pow10(digits - |f|));
  }

  /** Trailing zeros do not move the instant. */
  lemma TrimKeepsMs(i: Instant)
    requires ValidInstant(i)
    ensures Ms(i) == Ms(Instant(i.wholeSeconds, TrimZeros(i.fraction)))
  {
    hide TrimZeros, Num, Pow10, Scaled;
    var f, t := i.fraction, TrimZeros(i.fraction);
    TrimSplit(f);
    assert PadEnd(t, |f|) == f;
    FractionUnits(t, |f|);
    FractionUnits(f, |f|);
    ScaledUnique(Num(f), Num(f) as real / Pow10(|f|) as real, Num(t) as real / Pow10(|t|) as real, Pow10(|f|));
  }

  lemma ScaledThousand(w: int, f: int, x: real, scale: int)
    requires Scaled(f, x, scale)
    ensures Scaled((w * scale + f) * 1000, 1000.0 * (w as real + x), scale)
  {
    ScaledWhole(w, scale);
    ScaledSum(w * scale, w as real, f, x, scale);
    var u, y := w * scale + f, w as real + x;
    assert (u * 1000) as real == u as real * 1000.0;
    assert 1000.0 * y * scale as real == y * scale as real * 1000.0;
  }

  /** The integer of a timestamp is its instant, exactly. */
  lemma InstantUnitsExact(text: string, digits: nat)
    requires Timestamp(text) && FractionDigits(Key(text)) <= digits
    ensures Scaled(InstantUnits(Key(text), digits), MsOf(text), Pow10(digits))
  {
    hide ParseInstant, TrimZeros, IntText, PadEnd, Num, Pow10, Scaled;
    var i := ParseInstant(text).value;
    KeyParts(i);
    IntTextRoundTrip(i.wholeSeconds);
    TrimKeepsMs(i);
    FractionUnits(TrimZeros(i.fraction), digits);
    var f := TrimZeros(i.fraction);
    ScaledThousand(i.wholeSeconds, Num(PadEnd(f, digits)), Num(f) as real / Pow10(|f|) as real, Pow10(digits));
  }

  // ----- stable clocks -----

  function Abs(n: int): int { if n < 0 then -n else n }

  /** stableOffset: the wall clock has not drifted from the monotonic one by
      more than a second since the request was sent. */
  predicate StableOffset(sent: Clock, now: Clock, scale: nat)
    requires FiniteClock(sent) && FiniteClock(now)
  {
    Abs(ClockUnits(now.wall, scale) - ClockUnits(now.monotonic, scale)
        - ClockUnits(sent.wall, scale) + ClockUnits(sent.monotonic, scale)) <= 1000 * scale
  }

  predicate Stable(sent: Clock, now: Clock)
    requires FiniteClock(sent) && FiniteClock(now)
  {
    -1000.0 <= Value(now.wall) - Value(now.monotonic) - Value(sent.wall) + Value(sent.monotonic) <= 1000.0
  }

  lemma StableExact(sent: Clock, now: Clock, digits: nat)
    requires FiniteClock(sent) && FiniteClock(now) && digits >= 1074
    ensures StableOffset(sent, now, Pow10(digits)) <==> Stable(sent, now)
  {
    hide ClockUnits, Value, Pow10, Scaled, Finite;
    var scale: int := Pow10(digits);
    ClockUnitsExact(now.wall, digits);
    ClockUnitsExact(now.monotonic, digits);
    ClockUnitsExact(sent.wall, digits);
    ClockUnitsExact(sent.monotonic, digits);
    var a, x := ClockUnits(now.wall, scale), Value(now.wall);
    var b, y := ClockUnits(now.monotonic, scale), Value(now.monotonic);
    var c, z := ClockUnits(sent.wall, scale), Value(sent.wall);
    var d, w := ClockUnits(sent.monotonic, scale), Value(sent.monotonic);
    ScaledSum(a, x, b, y, scale);
    ScaledSum(a - b, x - y, c, z, scale);
    ScaledSum(a - b - c, x - y - z, d, w, scale);
    ScaledWhole(1000, scale);
    ScaledWhole(-1000, scale);
    ScaledOrder(a - b - c + d, x - y - z + w, 1000 * scale, 1000.0, scale);
    ScaledOrder(-1000 * scale, -1000.0, a - b - c + d, x - y - z + w, scale);
  }

  // ----- the waiter -----

  /** coordinationWaiterRemainingMs. */
  function WaiterRemaining(sent: Clock, now: Clock): Option<int> {
    if !FiniteClock(sent) || !FiniteClock(now) then None
    else
      var scale := Pow10(1074);
      var elapsed := ClockUnits(now.monotonic, scale) - ClockUnits(sent.monotonic, scale);
      if elapsed < 0 || elapsed >= 2000 * scale || !StableOffset(sent, now, scale) then None
      else
        var remaining := FloorDeadline(2000 * scale - elapsed, scale);
        if remaining.Some? && remaining.value > 0 then remaining else None
  }

  /** A waiter has time left exactly while at most 1999 ms have elapsed on stable
      clocks, and what it reports is the whole milliseconds left of two seconds. */
  lemma WaiterRemainingExact(sent: Clock, now: Clock)
    requires FiniteClock(sent) && FiniteClock(now)
    ensures var elapsed := Value(now.monotonic) - Value(sent.monotonic);
            WaiterRemaining(sent, now) ==
              if 0.0 <= elapsed <= 1999.0 && Stable(sent, now) then Some((2000.0 - elapsed).Floor) else None
  {
    hide ClockUnits, Value, Pow10, FloorDeadline, Stable, StableOffset, Scaled;
    var scale := Pow10(1074);
    ClockUnitsExact(now.monotonic, 1074);
    ClockUnitsExact(sent.monotonic, 1074);
    StableExact(sent, now, 1074);
    var u, x := ClockUnits(now.monotonic, scale) - ClockUnits(sent.monotonic, scale),
      Value(now.monotonic) - Value(sent.monotonic);
    ScaledSum(ClockUnits(now.monotonic, scale), Value(now.monotonic), ClockUnits(sent.monotonic, scale),
              Value(sent.monotonic), scale);
    ScaledWhole(2000, scale);
    ScaledWhole(0, scale);
    ScaledOrder(u, x, 0 * scale, 0.0, scale);
    ScaledOrder(u, x, 2000 * scale, 2000.0, scale);
    ScaledSum(2000 * scale, 2000.0, u, x, scale);
    FloorDeadlineFloors(2000 * scale - u, scale, 2000.0 - x);
  }

  // ----- admission -----

  /** What an admission retains. The last three fields are its exact arithmetic record. */
  datatype Timing = Timing(
    sent: Clock, received: Clock, snapshotDeadline: int, jobDeadline: int, leaseDeadline: Option<int>,
    scale: int, remoteJobExpiry: int, jobEndpoint: int)

  function Digits(s: StatePayload): (digits: nat)
    requires SchemaOk(s)
    ensures digits >= 1074
    ensures FractionDigits(Key(s.observedAt)) <= digits && FractionDigits(Key(s.stateValidUntil)) <= digits
    ensures FractionDigits(Key(s.expiresAt)) <= digits
    ensures s.leaseExpiresAt.Some? ==> FractionDigits(Key(s.leaseExpiresAt.value)) <= digits
  {
    var base := Max(Max(1074, FractionDigits(Key(s.observedAt))),
                    Max(FractionDigits(Key(s.stateValidUntil)), FractionDigits(Key(s.expiresAt))));
    if s.leaseExpiresAt.Some? then Max(base, FractionDigits(Key(s.leaseExpiresAt.value))) else base
  }

  function EndpointUnits(m0: int, m1: int, deadline: int, observed: int, scale: int): int {
    m1 + deadline - observed - (m1 - m0) - 1000 * scale
  }

  /** The checks that precede any deadline: elapsed time, stable clocks, and the
      server's clock within a second of ours. */
  predicate ClocksAgree(s: StatePayload, sent: Clock, received: Clock, digits: nat)
    requires SchemaOk(s) && FiniteClock(sent) && FiniteClock(received)
  {
    var scale := Pow10(digits);
    var observed := InstantUnits(Key(s.observedAt), digits);
    var elapsed := ClockUnits(received.monotonic, scale) - ClockUnits(sent.monotonic, scale);
    && 0 <= elapsed < 2000 * scale && StableOffset(sent, received, scale)
    && observed >= ClockUnits(sent.wall, scale) - 1000 * scale
    && observed <= ClockUnits(received.wall, scale) + 1000 * scale
  }

  function AdmitAt(s: StatePayload, sent: Clock, received: Clock, effect: bool, digits: nat): Option<Timing>
    requires SchemaOk(s) && FiniteClock(sent) && FiniteClock(received)
  {
    var scale := Pow10(digits);
    var m0, m1 := ClockUnits(sent.monotonic, scale), ClockUnits(received.monotonic, scale);
    var observed, job := InstantUnits(Key(s.observedAt), digits), InstantUnits(Key(s.expiresAt), digits);
    var snapshotEndpoint := EndpointUnits(m0, m1, InstantUnits(Key(s.stateValidUntil), digits), observed, scale);
    var jobEndpoint := EndpointUnits(m0, m1, job, observed, scale);
    if !ClocksAgree(s, sent, received, digits) || snapshotEndpoint <= m1 || (effect && jobEndpoint <= m1) then None
    else
      var snapshotDeadline, jobDeadline := FloorDeadline(snapshotEndpoint, scale), FloorDeadline(jobEndpoint, scale);
      var leaseDeadline :=
        if s.leaseExpiresAt.None? then Some(None)
        else
          var d :=
            FloorDeadline(EndpointUnits(m0, m1, InstantUnits(Key(s.leaseExpiresAt.value), digits), observed, scale),
                          scale);
          if d.None? then None else Some(d);
      if snapshotDeadline.None? || jobDeadline.None? || leaseDeadline.None? then None
      else if snapshotDeadline.value as real <= Value(received.monotonic) then None
      else if effect && jobDeadline.value as real <= Value(received.monotonic) then None
      else Some(Timing(sent, received, snapshotDeadline.value, jobDeadline.value, leaseDeadline.value, scale, job,
                       jobEndpoint))
  }

  /** admitTiming: `effect` admits local effects, otherwise only remote closure. */
  function AdmitTiming(s: StatePayload, sent: Clock, received: Clock, effect: bool): Option<Timing> {
    if !SchemaOk(s) || !FiniteClock(sent) || !FiniteClock(received) then None
    else AdmitAt(s, sent, received, effect, Digits(s))
  }

  // ----- the same admission on real numbers -----

  /** A second before the local monotonic instant at which the server's clock
      would read `text` had it stamped observed_at as the request was sent. */
  function Endpoint(s: StatePayload, sent: Clock, text: string): real
    requires SchemaOk(s) && FiniteClock(sent) && Timestamp(text)
  {
    Value(sent.monotonic) + MsOf(text) - MsOf(s.observedAt) - 1000.0
  }

  predicate Agreeing(s: StatePayload, sent: Clock, received: Clock)
    requires SchemaOk(s) && FiniteClock(sent) && FiniteClock(received)
  {
    && 0.0 <= Value(received.monotonic) - Value(sent.monotonic) < 2000.0 && Stable(sent, received)
    && Value(sent.wall) - 1000.0 <= MsOf(s.observedAt) <= Value(received.wall) + 1000.0
  }

  predicate SafeFloor(x: real) { SafeInteger(x.Floor) }

  predicate Admissible(s: StatePayload, sent: Clock, received: Clock, effect: bool) {
    && SchemaOk(s) && FiniteClock(sent) && FiniteClock(received) && Agreeing(s, sent, received)
    && SafeFloor(Endpoint(s, sent, s.stateValidUntil)) && SafeFloor(Endpoint(s, sent, s.expiresAt))
    && (s.leaseExpiresAt.Some? ==> SafeFloor(Endpoint(s, sent, s.leaseExpiresAt.value)))
    && Endpoint(s, sent, s.stateValidUntil).Floor as real > Value(received.monotonic)
    && (effect ==> Endpoint(s, sent, s.expiresAt).Floor as real > Value(received.monotonic))
  }

  /** What the retained record stands for. */
  ghost predicate Stands(t: Timing, s: StatePayload, sent: Clock, received: Clock)
    requires SchemaOk(s) && FiniteClock(sent) && FiniteClock(received)
  {
    && t.sent == sent && t.received == received && t.scale == Pow10(Digits(s))
    && t.snapshotDeadline == Endpoint(s, sent, s.stateValidUntil).Floor
    && t.jobDeadline == Endpoint(s, sent, s.expiresAt).Floor
    && t.leaseDeadline
       == (if s.leaseExpiresAt.None? then None else Some(Endpoint(s, sent, s.leaseExpiresAt.value).Floor))
    && Scaled(t.remoteJobExpiry, MsOf(s.expiresAt), t.scale)
    && Scaled(t.jobEndpoint, Endpoint(s, sent, s.expiresAt), t.scale)
  }

  lemma EndpointExact(s: StatePayload, sent: Clock, received: Clock, text: string, digits: nat)
    requires SchemaOk(s) && FiniteClock(sent) && FiniteClock(received) && Timestamp(text)
    requires digits >= 1074 && FractionDigits(Key(text)) <= digits && FractionDigits(Key(s.observedAt)) <= digits
    ensures var scale := Pow10(digits);
            var m0, m1 := ClockUnits(sent.monotonic, scale), ClockUnits(received.monotonic, scale);
            var u := EndpointUnits(m0, m1, InstantUnits(Key(text), digits), InstantUnits(Key(s.observedAt), digits),
                                   scale);
            && Scaled(u, Endpoint(s, sent, text), scale)
            && (u <= m1 <==> Endpoint(s, sent, text) <= Value(received.monotonic))
            && FloorDeadline(u, scale)
               == (if SafeFloor(Endpoint(s, sent, text)) then Some(Endpoint(s, sent, text).Floor) else None)
  {
    hide ClockUnits, Value, Pow10, Scaled, Finite, InstantUnits, Key, MsOf, FloorDeadline, SchemaOk, Timestamp;
    hide FractionDigits, IsKey, ParseInstant;
    SchemaTimestamps(s);
    var scale: int := Pow10(digits);
    ClockUnitsExact(sent.monotonic, digits);
    ClockUnitsExact(received.monotonic, digits);
    InstantUnitsExact(text, digits);
    InstantUnitsExact(s.observedAt, digits);
    var m0, x0 := ClockUnits(sent.monotonic, scale), Value(sent.monotonic);
    var m1, x1 := ClockUnits(received.monotonic, scale), Value(received.monotonic);
    var d, y := InstantUnits(Key(text), digits), MsOf(text);
    var o, z := InstantUnits(Key(s.observedAt), digits), MsOf(s.observedAt);
    ScaledSum(m0, x0, d, y, scale);
    ScaledSum(m0 + d, x0 + y, o, z, scale);
    ScaledWhole(1000, scale);
    ScaledSum(m0 + d - o, x0 + y - z, 1000 * scale, 1000.0, scale);
    var u := m0 + d - o - 1000 * scale;
    assert EndpointUnits(m0, m1, d, o, scale) == u;
    ScaledOrder(u, x0 + y - z - 1000.0, m1, x1, scale);
    FloorDeadlineFloors(u, scale, x0 + y - z - 1000.0);
  }

  lemma ClocksAgreeExact(s: StatePayload, sent: Clock, received: Clock, digits: nat)
    requires SchemaOk(s) && FiniteClock(sent) && FiniteClock(received)
    requires digits >= 1074 && FractionDigits(Key(s.observedAt)) <= digits
    ensures ClocksAgree(s, sent, received, digits) <==> Agreeing(s, sent, received)
  {
    hide ClockUnits, Value, Pow10, Scaled, Finite, InstantUnits, Key, MsOf, SchemaOk, StableOffset, Stable, Timestamp;
    hide FractionDigits, IsKey, ParseInstant;
    SchemaTimestamps(s);
    var scale: int := Pow10(digits);
    ClockUnitsExact(sent.monotonic, digits);
    ClockUnitsExact(received.monotonic, digits);
    ClockUnitsExact(sent.wall, digits);
    ClockUnitsExact(received.wall, digits);
    InstantUnitsExact(s.observedAt, digits);
    StableExact(sent, received, digits);
    var m0, x0 := ClockUnits(sent.monotonic, scale), Value(sent.monotonic);
    var m1, x1 := ClockUnits(received.monotonic, scale), Value(received.monotonic);
    var w0, v0 := ClockUnits(sent.wall, scale), Value(sent.wall);
    var w1, v1 := ClockUnits(received.wall, scale), Value(received.wall);
    var o, z := InstantUnits(Key(s.observedAt), digits), MsOf(s.observedAt);
    ScaledWhole(0, scale);
    ScaledWhole(1000, scale);
    ScaledWhole(2000, scale);
    ScaledSum(m1, x1, m0, x0, scale);
    ScaledOrder(0 * scale, 0.0, m1 - m0, x1 - x0, scale);
    ScaledOrder(m1 - m0, x1 - x0, 2000 * scale, 2000.0, scale);
    ScaledSum(w0, v0, 1000 * scale, 1000.0, scale);
    ScaledSum(w1, v1, 1000 * scale, 1000.0, scale);
    ScaledOrder(w0 - 1000 * scale, v0 - 1000.0, o, z, scale);
    ScaledOrder(o, z, w1 + 1000 * scale, v1 + 1000.0, scale);
  }

  /** The integer admission is the real-number admission: it succeeds exactly when
      the inequalities hold, and retains the exact floors. */
  lemma AdmissionIsExact(s: StatePayload, sent: Clock, received: Clock, effect: bool)
    ensures AdmitTiming(s, sent, received, effect).Some? <==> Admissible(s, sent, received, effect)
    ensures AdmitTiming(s, sent, received, effect).Some? ==>
            Stands(AdmitTiming(s, sent, received, effect).value, s, sent, received)
  {
    hide SchemaOk, FiniteClock, ClockUnits, Value, Pow10, Scaled, InstantUnits, Key, MsOf, FloorDeadline, EndpointUnits;
    hide ClocksAgree, Agreeing, Endpoint;
    hide Timestamp, FractionDigits, IsKey, ParseInstant, Digits, SafeFloor, Stable;
    if SchemaOk(s) && FiniteClock(sent) && FiniteClock(received) {
      var digits := Digits(s);
      SchemaTimestamps(s);
      ClocksAgreeExact(s, sent, received, digits);
      EndpointExact(s, sent, received, s.stateValidUntil, digits);
      EndpointExact(s, sent, received, s.expiresAt, digits);
      if s.leaseExpiresAt.Some? { EndpointExact(s, sent, received, s.leaseExpiresAt.value, digits); }
      ExpiryExact(s, digits);
    }
  }

  lemma SchemaTimestamps(s: StatePayload)
    requires SchemaOk(s)
    ensures Timestamp(s.expiresAt) && Timestamp(s.observedAt) && Timestamp(s.stateValidUntil)
    ensures s.leaseExpiresAt.Some? ==> Timestamp(s.leaseExpiresAt.value)
  {}

  lemma ExpiryExact(s: StatePayload, digits: nat)
    requires SchemaOk(s) && FractionDigits(Key(s.expiresAt)) <= digits
    ensures Scaled(InstantUnits(Key(s.expiresAt), digits), MsOf(s.expiresAt), Pow10(digits))
  {
    InstantUnitsExact(s.expiresAt, digits);
  }
}
