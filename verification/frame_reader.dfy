/** The incremental frame reader of the connector socket
    (apps/control-plane/src/connector/gateway.ts, lines 354 to 480). */
module FrameReading {
  import opened Common
  import opened Utf8
  import opened Frames

  const MAX_FRAGMENT_COUNT: nat := 1024
  const MAX_FRAGMENT_OVERHEAD_BYTES: nat := 65536

  /** What the reader does: deliver a text, answer a ping, start closing. */
  datatype Event = Text(points: seq<int>) | Ping(payload: seq<Byte>) | Close(code: Option<nat>)

  datatype Reader = Reader(
    buffer: seq<Byte>, closing: bool,
    fragments: Option<seq<seq<Byte>>>, bytes: nat, count: nat, overhead: nat)

  const EmptyReader: Reader := Reader([], false, None, 0, 0, 0)

  function Flatten(parts: seq<seq<Byte>>): seq<Byte> {
    if parts == [] then [] else Flatten(parts[..|parts| - 1]) + parts[|parts| - 1]
  }

  /** isValidCloseStatusCode. */
  predicate ValidStatus(code: nat) {
    1000 <= code <= 1003 || 1007 <= code <= 1014 || 3000 <= code <= 4999
  }

  /** The status to close with after a close frame; None answers without one. */
  function CloseReply(payload: seq<Byte>): Option<nat> {
    if |payload| == 1 then Some(1002)
    else if |payload| >= 2 && (!ValidStatus(BigEndian(payload[..2])) || Decode(payload[2..]).None?) then Some(1002)
    else None
  }

  /** The text handed on: the decoder drops a leading byte order mark. */
  function Delivered(points: seq<int>): seq<int> {
    if points != [] && points[0] == 0xFEFF then points[1..] else points
  }

  /** Completing a message, or closing because it is not UTF-8. */
  function Finished(text: seq<Byte>): Event {
    var points := Decode(text);
    if points.Some? then Text(Delivered(points.value)) else Close(Some(1007))
  }

  predicate TooMuch(r: Reader, f: Parsed)
    requires f.Frame?
  {
    || r.bytes + |f.payload| > MAX_FRAME_BYTES
    || r.count + 1 > MAX_FRAGMENT_COUNT
    || r.overhead + f.overhead > MAX_FRAGMENT_OVERHEAD_BYTES
  }

  function Collected(r: Reader, payload: seq<Byte>): seq<seq<Byte>> {
    (if r.fragments.Some? then r.fragments.value else []) + [payload]
  }

  /** The effect of one complete frame, already removed from the buffer. */
  function TakeFrame(r: Reader, f: Parsed): (Reader, seq<Event>)
    requires f.Frame?
  {
    if f.opcode == 8 then (r.(closing := true), [Close(CloseReply(f.payload))])
    else if f.opcode == 9 then (r, [Ping(f.payload)])
    else if f.opcode == 10 then (r, [])
    else if TooMuch(r, f) then (r.(closing := true), [Close(Some(1009))])
    else if !f.fin then
      (r.(fragments := Some(Collected(r, f.payload)), bytes := r.bytes + |f.payload|,
          count := r.count + 1, overhead := r.overhead + f.overhead), [])
    else
      var event := Finished(Flatten(Collected(r, f.payload)));
      (r.(fragments := None, bytes := 0, count := 0, overhead := 0, closing := event.Close?), [event])
  }

  /** Everything the buffered bytes give rise to. */
  function Drain(r: Reader): (Reader, seq<Event>)
    decreases |r.buffer|
  {
    var f := ParseFrame(r.buffer, r.fragments.Some?);
    match f
    case Incomplete => (r, [])
    case Reject(code) => (r.(closing := true), [Close(Some(code))])
    case Frame(_, _, _, _) =>
      var (next, events) := TakeFrame(r.(buffer := r.buffer[f.overhead + |f.payload|..]), f);
      if next.closing then (next, events)
      else
        var (last, more) := Drain(next);
        (last, events + more)
  }

  /** #read: one chunk from the socket. */
  function Feed(r: Reader, chunk: seq<Byte>): (Reader, seq<Event>) {
    if r.closing then (r, []) else Drain(r.(buffer := r.buffer + chunk))
  }

  function FeedAll(r: Reader, chunks: seq<seq<Byte>>): (Reader, seq<Event>) {
    if chunks == [] then (r, [])
    else
      var (mid, events) := FeedAll(r, chunks[..|chunks| - 1]);
      var (last, more) := Feed(mid, chunks[|chunks| - 1]);
      (last, events + more)
  }

  /** Nothing further can be read from what is buffered. */
  predicate Settled(r: Reader) { r.closing || ParseFrame(r.buffer, r.fragments.Some?).Incomplete? }

  // ----- chunking -----

  lemma {:induction false} DrainSettles(r: Reader)
    ensures Settled(Drain(r).0)
    decreases |r.buffer|
  {
    hide ParseFrame, TakeFrame;
    var f := ParseFrame(r.buffer, r.fragments.Some?);
    if f.Frame? {
      var rest := r.buffer[f.overhead + |f.payload|..];
      TakeIgnoresBuffer(r, f, rest);
      var next := TakeFrame(r.(buffer := rest), f).0;
      if !next.closing { DrainSettles(next); }
    }
  }

  lemma TakeIgnoresBuffer(r: Reader, f: Parsed, buffer: seq<Byte>)
    requires f.Frame?
    ensures TakeFrame(r.(buffer := buffer), f) == (TakeFrame(r, f).0.(buffer := buffer), TakeFrame(r, f).1)
  {}

  /** Bytes that arrive later only add to what the earlier ones did. */
  lemma {:induction false} DrainAppend(r: Reader, more: seq<Byte>)
    requires !r.closing
    ensures var (mid, events) := Drain(r);
            var (last, all) := Drain(r.(buffer := r.buffer + more));
            if mid.closing then last.closing && all == events
            else
              var (end, added) := Drain(mid.(buffer := mid.buffer + more));
              last == end && all == events + added
    decreases |r.buffer|
  {
    hide ParseFrame, TakeFrame;
    var f := ParseFrame(r.buffer, r.fragments.Some?);
    if f.Incomplete? {
      var added := Drain(r.(buffer := r.buffer + more)).1;
      assert [] + added == added;
    } else {
      ParseIsMonotone(r.buffer, more, r.fragments.Some?);
      if f.Frame? {
        var size := f.overhead + |f.payload|;
        var rest := r.buffer[size..];
        assert (r.buffer + more)[size..] == rest + more;
        TakeIgnoresBuffer(r, f, rest);
        TakeIgnoresBuffer(r, f, rest + more);
        var (next, events) := TakeFrame(r.(buffer := rest), f);
        if !next.closing {
          DrainAppend(next, more);
          var (mid, later) := Drain(next);
          var added := Drain(mid.(buffer := mid.buffer + more)).1;
          assert events + (later + added) == events + later + added;
        }
      }
    }
  }

  /** However a byte stream is cut into chunks, the reader does the same things
      and, unless it is closing, ends in the same state. */
  lemma {:induction false} ChunkingIndependent(r: Reader, chunks: seq<seq<Byte>>)
    requires Settled(r)
    ensures var (last, events) := FeedAll(r, chunks);
            var (whole, all) := Feed(r, Flatten(chunks));
            && events == all && last.closing == whole.closing && Settled(last)
            && (!last.closing ==> last == whole)
    decreases |chunks|
  {
    hide ParseFrame, TakeFrame, Drain;
    if chunks == [] {
      assert r.(buffer := r.buffer + []) == r;
      if !r.closing { DrainOfSettled(r); }
    } else {
      var init, chunk := chunks[..|chunks| - 1], chunks[|chunks| - 1];
      ChunkingIndependent(r, init);
      if !r.closing { LastChunk(r, Flatten(init), chunk); }
    }
  }

  lemma DrainOfSettled(r: Reader)
    requires Settled(r) && !r.closing
    ensures Drain(r) == (r, [])
  {}

  lemma LastChunk(r: Reader, joined: seq<Byte>, chunk: seq<Byte>)
    requires !r.closing
    ensures var (mid, events) := Feed(r, joined);
            var (last, more) := Feed(mid, chunk);
            var (whole, all) := Feed(r, joined + chunk);
            && all == events + more && last.closing == whole.closing && Settled(last)
            && (!last.closing ==> last == whole)
  {
    hide ParseFrame, TakeFrame, Drain;
    var (mid, events) := Feed(r, joined);
    DrainAppend(r.(buffer := r.buffer + joined), chunk);
    assert r.buffer + joined + chunk == r.buffer + (joined + chunk);
    if !mid.closing { DrainSettles(mid.(buffer := mid.buffer + chunk)); }
  }

  /** Between chunks the buffer holds less than one maximal frame. */
  lemma BufferBounded(r: Reader, chunk: seq<Byte>)
    requires Settled(r)
    ensures var last := Feed(r, chunk).0; last.closing || |last.buffer| < 65550
  {
    if !r.closing { DrainSettles(r.(buffer := r.buffer + chunk)); }
  }

  // ----- the reader object -----

  /** Unmasking in place, byte by byte. */
  method Unmask(payload: array<Byte>, mask: seq<Byte>)
    requires |mask| == 4
    modifies payload
    ensures payload[..] == Mask(old(payload[..]), mask)
  {
    for index := 0 to payload.Length
      invariant forall i :: 0 <= i < index ==> payload[i] == XorByte(old(payload[i]), mask[i % 4])
      invariant forall i :: index <= i < payload.Length ==> payload[i] == old(payload[i])
    {
      payload[index] := XorByte(payload[index], mask[index % 4]);
    }
  }

  /** The socket's fields and its #read method. */
  class FrameReader {
    var buffer: seq<Byte>
    var closing: bool
    var fragmentedText: Option<seq<seq<Byte>>>
    var fragmentedTextBytes: nat
    var fragmentedTextFrameCount: nat
    var fragmentedTextOverheadBytes: nat

    function State(): Reader
      reads this
    {
      Reader(buffer, closing, fragmentedText, fragmentedTextBytes, fragmentedTextFrameCount,
             fragmentedTextOverheadBytes)
    }

    constructor ()
      ensures State() == EmptyReader
    {
      buffer, closing, fragmentedText := [], false, None;
      fragmentedTextBytes, fragmentedTextFrameCount, fragmentedTextOverheadBytes := 0, 0, 0;
    }

    /** The frame at the front of the buffer, removed and unmasked. */
    method NextFrame() returns (f: Parsed)
      modifies this`buffer
      ensures f == old(ParseFrame(buffer, fragmentedText.Some?))
      ensures buffer == if f.Frame? then old(buffer)[f.overhead + |f.payload|..] else old(buffer)
    {
      if |buffer| < 2 { return Incomplete; }
      var h := ReadHeader(buffer, fragmentedText.Some?);
      if h.NeedMore? { return Incomplete; }
      if h.Bad? { return Reject(h.code); }
      if h.length > MAX_FRAME_BYTES { return Reject(1009); }
      var frameLength := h.offset + 4 + h.length;
      if |buffer| < frameLength { return Incomplete; }
      var mask := buffer[h.offset..h.offset + 4];
      var masked := buffer[h.offset + 4..frameLength];
      var payload := new Byte[h.length](i requires 0 <= i < h.length => masked[i]);
      assert payload[..] == masked;
      Unmask(payload, mask);
      f := Frame(buffer[0] >= 128, buffer[0] % 16, payload[..], h.offset + 4);
      buffer := buffer[frameLength..];
    }

    /** A text or continuation frame: count it, collect it, and finish the message. */
    method TakeText(f: Parsed) returns (events: seq<Event>)
      requires f.Frame? && f.opcode in {0, 1} && !closing
      modifies this
      ensures (State(), events) == old(TakeFrame(State(), f)) && buffer == old(buffer)
    {
      var count, overhead := fragmentedTextFrameCount + 1, fragmentedTextOverheadBytes + f.overhead;
      if fragmentedTextBytes + |f.payload| > MAX_FRAME_BYTES || count > MAX_FRAGMENT_COUNT
        || overhead > MAX_FRAGMENT_OVERHEAD_BYTES {
        closing := true;
        return [Close(Some(1009))];
      }
      var parts := if fragmentedText.Some? then fragmentedText.value else [];
      fragmentedText := Some(parts + [f.payload]);
      fragmentedTextBytes := fragmentedTextBytes + |f.payload|;
      fragmentedTextFrameCount := count;
      fragmentedTextOverheadBytes := overhead;
      if !f.fin { return []; }
      var text := Flatten(fragmentedText.value);
      fragmentedText := None;
      fragmentedTextBytes, fragmentedTextFrameCount, fragmentedTextOverheadBytes := 0, 0, 0;
      events := [Finished(text)];
      closing := events[0].Close?;
    }

    /** Any complete frame: close, ping, pong or text. */
    method Take(f: Parsed) returns (events: seq<Event>)
      requires f.Frame? && f.opcode in {0, 1, 8, 9, 10} && !closing
      modifies this
      ensures (State(), events) == old(TakeFrame(State(), f)) && buffer == old(buffer)
    {
      if f.opcode == 8 {
        closing := true;
        return [Close(CloseReply(f.payload))];
      }
      if f.opcode == 9 { return [Ping(f.payload)]; }
      if f.opcode == 10 { return []; }
      events := TakeText(f);
    }

    /** One chunk from the socket, read to the last complete frame. */
    method Read(chunk: seq<Byte>) returns (events: seq<Event>)
      modifies this
      ensures (State(), events) == old(Feed(State(), chunk))
    {
      hide ParseFrame, TakeFrame;
      events := [];
      if closing { return; }
      if |chunk| > 0 { buffer := buffer + chunk; } else { assert buffer + chunk == buffer; }
      ghost var goal := Drain(State());
      assert goal.1 == events + goal.1;
      var reading := true;
      while reading
        invariant goal == old(Feed(State(), chunk))
        invariant reading ==> !closing && goal == (Drain(State()).0, events + Drain(State()).1)
        invariant !reading ==> goal == (State(), events)
        decreases reading, |buffer|
      {
        ghost var before := events;
        var f := NextFrame();
        if f.Incomplete? {
          assert events + [] == events;
          reading := false;
        } else if f.Reject? {
          closing := true;
          events := events + [Close(Some(f.code))];
          reading := false;
        } else {
          var added := Take(f);
          events := events + added;
          reading := !closing;
          assert forall more: seq<Event> :: before + (added + more) == events + more;
        }
      }
    }
  }
}
