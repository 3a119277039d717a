/** The ordered sender of one connection (apps/control-plane/src/connector/
    gateway.ts, lines 760 to 956): a state machine whose steps are the points at
    which the source awaits. One send is in flight at a time, because every send
    is chained behind the previous one; failures may come at any point. */
module Sender {
  import opened Common

  /** A send between its checks and its end. */
  datatype Flight = Flight(sequence: nat, retransmit: bool, generation: nat, onWire: bool)

  /** failProtocol after it has latched the connection. */
  datatype Failure = Quiet | Storing(generation: nat) | Sending(sequence: nat, generation: nat)

  /** One frame handed to the socket. */
  datatype Sent = Sent(sequence: nat, retransmit: bool)

  datatype Connection = Connection(
    accepting: bool,            // the latch: once false, no stored row is sent again
    current: bool,              // still the connector's active, open connection
    generation: nat,            // failureGeneration
    initialized: bool,          // hello has been accepted
    cursor: nat,                // the last server sequence named in hello
    scan: nat,                  // scanAfterSequence
    flight: Option<Flight>,
    failure: Failure,
    rows: nat,                  // the connector's lastServerSequence
    wire: seq<Sent>)

  function Opened(rows: nat): Connection {
    Connection(true, true, 0, false, 0, 0, None, Quiet, rows, [])
  }

  predicate CanContinue(c: Connection, generation: nat) {
    c.accepting && generation == c.generation && c.current
  }

  datatype Step =
    | Enqueue                                                   // any transaction appends the next row
    | Hello(cursor: nat)                                        // a hello accepted by the store
    | Start(sequence: nat, retransmit: bool, generation: nat)   // sendStoredNow begins
    | Materialized(ok: bool)                                    // the row is ready; or expired, or late
    | Written(ok: bool)                                         // the write resolved; or was late
    | Replaced                                                  // closing, or superseded by a newer connection
    | Stop                                                      // overflow, invalidation or socket close
    | Fail                                                      // failProtocol begins
    | ErrorStored(ok: bool)                                     // its protocol.error row is stored
    | ErrorReady(ok: bool)                                      // and ready to be written

  /** sendStoredNow up to its first await: ignore, refuse, or take the row. */
  function StartSend(c: Connection, sequence: nat, retransmit: bool, generation: nat): Connection {
    if !CanContinue(c, generation) then c
    else if !retransmit && sequence != c.scan + 1 then c
    else c.(flight := Some(Flight(sequence, retransmit, generation, false)))
  }

  function Next(c: Connection, step: Step): Connection {
    match step
    case Enqueue => c.(rows := c.rows + 1)
    case Hello(cursor) =>
      if !c.initialized && CanContinue(c, c.generation) && cursor <= c.rows
      then c.(initialized := true, cursor := cursor, scan := cursor) else c
    case Start(sequence, retransmit, generation) =>
      if c.initialized && c.flight.None? && 1 <= sequence <= c.rows
      then StartSend(c, sequence, retransmit, generation) else c
    case Materialized(ok) =>
      if c.flight.None? || c.flight.value.onWire then c
      else if !ok || !CanContinue(c, c.flight.value.generation) then c.(flight := None)
      else c.(flight := Some(c.flight.value.(onWire := true)),
              wire := c.wire + [Sent(c.flight.value.sequence, c.flight.value.retransmit)])
    case Written(ok) =>
      if c.flight.None? || !c.flight.value.onWire then c
      else if ok && !c.flight.value.retransmit && CanContinue(c, c.flight.value.generation)
      then c.(flight := None, scan := Max(c.scan, c.flight.value.sequence))
      else c.(flight := None)
    case Replaced => c.(current := false)
    case Stop => c.(accepting := false, generation := c.generation + 1)
    case Fail =>
      if !c.accepting || !c.current then c
      else c.(accepting := false, generation := c.generation + 1, failure := Storing(c.generation + 1))
    case ErrorStored(ok) =>
      if !c.failure.Storing? then c
      else if !ok || c.failure.generation != c.generation || !c.current then c.(failure := Quiet)
      else if c.rows + 1 == c.scan + 1 then c.(rows := c.rows + 1, failure := Sending(c.rows + 1, c.generation))
      else c.(rows := c.rows + 1, failure := Quiet)
    case ErrorReady(ok) =>
      if !c.failure.Sending? then c
      else if !ok || c.failure.generation != c.generation || !c.current then c.(failure := Quiet)
      else c.(failure := Quiet, wire := c.wire + [Sent(c.failure.sequence, false)])
  }

  function Run(c: Connection, steps: seq<Step>): Connection {
    if steps == [] then c else Next(Run(c, steps[..|steps| - 1]), steps[|steps| - 1])
  }

  // ----- order on the wire -----

  /** The sequences sent by the scan, in order: everything but the retransmitted
      answers to duplicate messages. */
  function Scanned(wire: seq<Sent>): seq<nat> {
    if wire == [] then []
    else
      var last := wire[|wire| - 1];
      var init := Scanned(wire[..|wire| - 1]);
      if last.retransmit then init else init + [last.sequence]
  }

  function Sequences(wire: seq<Sent>): seq<nat> { seq(|wire|, i requires 0 <= i < |wire| => wire[i].sequence) }

  /** Nothing is sent before everything between the cursor and it. */
  predicate InOrder(cursor: nat, w: seq<nat>) {
    forall i, t :: 0 <= i < |w| && cursor < t < w[i] ==> t in w[..i]
  }

  /** Exactly the sequences after the cursor and up to `top`, in order. */
  predicate Covers(cursor: nat, w: seq<nat>, top: nat) {
    && InOrder(cursor, w)
    && (forall i :: 0 <= i < |w| ==> cursor < w[i] <= top)
    && (forall t :: cursor < t <= top ==> t in w)
  }

  /** The largest sequence the scan has sent: one past `scan` when a write was not
      seen to finish. */
  function Top(c: Connection): nat {
    if c.scan + 1 in Scanned(c.wire) then c.scan + 1 else c.scan
  }

  predicate Inv(c: Connection) {
    && c.cursor <= c.scan && Top(c) <= c.rows
    && Covers(c.cursor, Scanned(c.wire), Top(c))
    && (!c.initialized ==> c.scan == 0 && c.flight.None? && (c.accepting ==> c.wire == []))
    && (c.flight.Some? ==> c.flight.value.sequence <= c.rows)
    && (c.flight.Some? && !c.flight.value.retransmit ==>
          c.flight.value.sequence == c.scan + 1 && (c.flight.value.onWire ==> Top(c) == c.scan + 1))
    && (!c.failure.Quiet? ==> !c.accepting)
    && (c.failure.Sending? ==>
          c.failure.sequence == c.scan + 1 <= c.rows && Top(c) == c.scan
            && (c.flight.Some? ==> c.flight.value.retransmit))
  }

  lemma CoversOneMore(cursor: nat, w: seq<nat>, top: nat, s: nat)
    requires Covers(cursor, w, top) && cursor <= top && cursor < s <= top + 1
    ensures Covers(cursor, w + [s], Max(top, s))
  {
    var w' := w + [s];
    forall i, t | 0 <= i < |w'| && cursor < t < w'[i] ensures t in w'[..i] {
      if i < |w| { assert w'[..i] == w[..i]; } else { assert w'[..i] == w; }
    }
    forall t | cursor < t <= Max(top, s) ensures t in w' {
      if t <= top { assert t in w; } else { assert w'[|w|] == t; }
    }
  }

  lemma ScannedOneMore(wire: seq<Sent>, s: Sent)
    ensures Scanned(wire + [s]) == if s.retransmit then Scanned(wire) else Scanned(wire) + [s.sequence]
  {
    assert (wire + [s])[..|wire|] == wire;
  }

  lemma SendKeepsOrder(c: Connection, s: nat)
    requires c.cursor <= c.scan && Covers(c.cursor, Scanned(c.wire), Top(c)) && s == c.scan + 1
    ensures var w := c.wire + [Sent(s, false)];
            Covers(c.cursor, Scanned(w), c.scan + 1) && c.scan + 1 in Scanned(w)
  {
    ScannedOneMore(c.wire, Sent(s, false));
    CoversOneMore(c.cursor, Scanned(c.wire), Top(c), s);
    assert (Scanned(c.wire) + [s])[|Scanned(c.wire)|] == s;
  }

  lemma NotPastTop(c: Connection)
    requires Covers(c.cursor, Scanned(c.wire), Top(c))
    ensures c.scan + 2 !in Scanned(c.wire)
  {}

  lemma StepKeeps(c: Connection, step: Step)
    requires Inv(c)
    ensures Inv(Next(c, step))
  {
    hide Covers, Scanned;
    NotPastTop(c);
    if step.Materialized? && c.flight.Some? {
      if c.flight.value.retransmit { ScannedOneMore(c.wire, Sent(c.flight.value.sequence, true)); }
      else { SendKeepsOrder(c, c.flight.value.sequence); }
    }
    if step.ErrorReady? && c.failure.Sending? { SendKeepsOrder(c, c.failure.sequence); }
    if step.Hello? { EmptyCovers(step.cursor); }
  }

  lemma EmptyCovers(cursor: nat)
    ensures Scanned([]) == [] && Covers(cursor, [], cursor)
  {}

  lemma {:induction false} Reachable(rows: nat, steps: seq<Step>)
    ensures Inv(Run(Opened(rows), steps))
  {
    if steps == [] {
      EmptyCovers(0);
    } else {
      Reachable(rows, steps[..|steps| - 1]);
      StepKeeps(Run(Opened(rows), steps[..|steps| - 1]), steps[|steps| - 1]);
    }
  }

  /** In every run, what the scan and the final protocol error put on the wire is
      the consecutive run of sequences after the hello cursor: no row is sent
      before every row between the cursor and it, none at or below the cursor,
      and none that is not stored. */
  lemma FirstTransmissionsAreConsecutive(rows: nat, steps: seq<Step>)
    ensures var c := Run(Opened(rows), steps);
            Covers(c.cursor, Scanned(c.wire), Top(c)) && c.scan <= Top(c) <= c.scan + 1 && Top(c) <= c.rows
  {
    Reachable(rows, steps);
  }

  // ----- retransmitted answers -----

  /** The largest sequence sent so far, or the cursor when nothing went past it. */
  function Highest(cursor: nat, w: seq<nat>): nat {
    if w == [] then cursor else Max(Highest(cursor, w[..|w| - 1]), w[|w| - 1])
  }

  /** The step puts a retransmission on the wire ahead of a row never sent. */
  predicate Overtakes(c: Connection, step: Step) {
    && step == Materialized(true) && c.flight.Some? && !c.flight.value.onWire
    && CanContinue(c, c.flight.value.generation)
    && c.flight.value.retransmit && c.flight.value.sequence > Highest(c.cursor, Sequences(c.wire)) + 1
  }

  lemma {:induction false} HighestIsHighest(cursor: nat, w: seq<nat>)
    ensures cursor <= Highest(cursor, w) && forall t :: t in w ==> t <= Highest(cursor, w)
    ensures Highest(cursor, w) == cursor || Highest(cursor, w) in w
  {
    if w != [] {
      HighestIsHighest(cursor, w[..|w| - 1]);
      assert w == w[..|w| - 1] + [w[|w| - 1]];
    }
  }

  /** One more send keeps the order if and only if it is at most one past the
      highest sequence sent. */
  lemma AppendInOrder(cursor: nat, w: seq<nat>, s: nat)
    requires InOrder(cursor, w)
    ensures InOrder(cursor, w + [s]) <==> s <= Highest(cursor, w) + 1
  {
    var w', h := w + [s], Highest(cursor, w);
    HighestIsHighest(cursor, w);
    assert w'[..|w|] == w && w'[|w|] == s;
    if s <= h + 1 {
      forall i, t | 0 <= i < |w'| && cursor < t < w'[i] ensures t in w'[..i] {
        if i < |w| {
          assert w'[..i] == w[..i];
        } else if t < h {
          var k :| 0 <= k < |w| && w[k] == h;
          assert t in w[..k];
        }
      }
    } else {
      assert h + 1 !in w;
    }
  }

  lemma {:induction false} ScannedAmongAll(wire: seq<Sent>)
    ensures forall t :: t in Scanned(wire) ==> t in Sequences(wire)
  {
    if wire != [] {
      var init := wire[..|wire| - 1];
      ScannedAmongAll(init);
      assert Sequences(wire) == Sequences(init) + [wire[|wire| - 1].sequence];
    }
  }

  /** The scan is never ahead of what was sent. */
  lemma ScanWasSent(c: Connection)
    requires Inv(c)
    ensures c.scan <= Highest(c.cursor, Sequences(c.wire))
  {
    ScannedAmongAll(c.wire);
    HighestIsHighest(c.cursor, Sequences(c.wire));
    if c.scan > c.cursor { assert c.scan in Scanned(c.wire); }
  }

  lemma PrefixInOrder(cursor: nat, w: seq<nat>, s: nat)
    requires InOrder(cursor, w + [s])
    ensures InOrder(cursor, w)
  {
    var w' := w + [s];
    forall i, t | 0 <= i < |w| && cursor < t < w[i] ensures t in w[..i] {
      assert w'[..i] == w[..i] && w'[i] == w[i];
    }
  }

  /** One more frame leaves the wire in order exactly when the wire was in order
      and the frame is at most one past the highest sequence sent. */
  lemma WireGrows(cursor: nat, wire: seq<Sent>, s: Sent)
    ensures InOrder(cursor, Sequences(wire + [s]))
       <==> InOrder(cursor, Sequences(wire)) && s.sequence <= Highest(cursor, Sequences(wire)) + 1
  {
    assert Sequences(wire + [s]) == Sequences(wire) + [s.sequence];
    if InOrder(cursor, Sequences(wire)) {
      AppendInOrder(cursor, Sequences(wire), s.sequence);
    } else if InOrder(cursor, Sequences(wire + [s])) {
      PrefixInOrder(cursor, Sequences(wire), s.sequence);
    }
  }

  lemma NothingSent(cursor: nat)
    ensures InOrder(cursor, Sequences([]))
  {}

  /** A step keeps the wire in order exactly when it does not overtake. */
  lemma WholeStep(c: Connection, step: Step)
    requires Inv(c)
    ensures var c' := Next(c, step);
            InOrder(c'.cursor, Sequences(c'.wire)) <==> InOrder(c.cursor, Sequences(c.wire)) && !Overtakes(c, step)
  {
    ScanWasSent(c);
    hide InOrder, Sequences, Highest, Covers, Scanned;
    match step
    case Materialized(_) =>
      if c.flight.Some? {
        WireGrows(c.cursor, c.wire, Sent(c.flight.value.sequence, c.flight.value.retransmit));
      }
    case ErrorReady(_) =>
      if c.failure.Sending? { WireGrows(c.cursor, c.wire, Sent(c.failure.sequence, false)); }
    case Hello(cursor) =>
      NothingSent(c.cursor);
      NothingSent(cursor);
    case _ =>
  }

  predicate NeverOvertakes(c: Connection, steps: seq<Step>) {
    forall i :: 0 <= i < |steps| ==> !Overtakes(Run(c, steps[..i]), steps[i])
  }

  lemma OneMoreStep(c: Connection, steps: seq<Step>, step: Step)
    ensures NeverOvertakes(c, steps + [step]) <==> NeverOvertakes(c, steps) && !Overtakes(Run(c, steps), step)
  {
    hide Overtakes, Run;
    var all := steps + [step];
    assert forall i :: 0 <= i < |steps| ==> all[..i] == steps[..i] && all[i] == steps[i];
    assert all[..|steps|] == steps && all[|steps|] == step;
  }

  /** In every run the whole wire, retransmissions included, is in order (nothing
      is sent before every row between the cursor and it) if and only if no
      retransmission goes out more than one past the highest sequence sent
      before it. */
  lemma {:induction false} WholeWireInOrder(rows: nat, steps: seq<Step>)
    ensures var c := Run(Opened(rows), steps);
            InOrder(c.cursor, Sequences(c.wire)) <==> NeverOvertakes(Opened(rows), steps)
  {
    hide Inv, Next, InOrder, Sequences, Overtakes;
    if steps == [] {
      NothingSent(0);
    } else {
      var n := |steps| - 1;
      var init := steps[..n];
      assert steps == init + [steps[n]];
      OneMoreStep(Opened(rows), init, steps[n]);
      hide NeverOvertakes;
      WholeWireInOrder(rows, init);
      Reachable(rows, init);
      WholeStep(Run(Opened(rows), init), steps[n]);
    }
  }

  /** On any connection whose wire is in order, one more retransmission keeps the
      order if and only if it is at most one past the highest sequence sent. */
  lemma RetransmissionInOrder(c: Connection, s: nat)
    requires InOrder(c.cursor, Sequences(c.wire))
    ensures InOrder(c.cursor, Sequences(c.wire + [Sent(s, true)])) <==> s <= Highest(c.cursor, Sequences(c.wire)) + 1
  {
    WireGrows(c.cursor, c.wire, Sent(s, true));
  }

  /** The source does not check this: the answer to a duplicate message can
      overtake rows that the scan has yet to send. */
  lemma RetransmissionCanOvertake()
    ensures var c := Run(Opened(2), [Hello(0), Start(2, true, 0), Materialized(true)]);
            c.wire == [Sent(2, true)] && !InOrder(c.cursor, Sequences(c.wire))
  {
    var s := [Hello(0), Start(2, true, 0), Materialized(true)];
    assert s[..2][..1] == s[..1] == [Hello(0)] && s[..1][..0] == [];
    var c0 := Run(Opened(2), s[..1]);
    assert Run(Opened(2), []) == Opened(2) && s[..1][0] == Hello(0);
    assert c0 == Next(Run(Opened(2), []), Hello(0));
    assert c0 == Opened(2).(initialized := true);
    var c1 := Run(Opened(2), s[..2]);
    assert c1 == c0.(flight := Some(Flight(2, true, 0, false)));
    var c := Run(Opened(2), s);
    assert c.wire == [Sent(2, true)];
    assert Sequences(c.wire)[0] == 2 && 1 !in Sequences(c.wire)[..0];
  }
}
