/** What a stream of frames means, said without bytes, buffers or overhead
    counters (sections 5.4 and 5.5 of RFC 6455, with the limits of
    apps/control-plane/src/connector/gateway.ts), and the proof that the frame
    reader does exactly that. */
module Messages {
  import opened Common
  import opened Utf8
  import opened Frames
  import opened FrameReading

  /** One frame as a client forms it. */
  datatype Wire = Wire(fin: bool, opcode: nat, mask: seq<Byte>, payload: seq<Byte>)

  predicate WellFormed(w: Wire) { w.opcode < 16 && |w.mask| == 4 && |w.payload| < 0x8000_0000_0000_0000 }

  predicate AllWellFormed(ws: seq<Wire>) { forall i :: 0 <= i < |ws| ==> WellFormed(ws[i]) }

  function OnWire(w: Wire): seq<Byte>
    requires WellFormed(w)
  {
    MaskedFrame(w.fin, w.opcode, w.mask, w.payload)
  }

  function Stream(ws: seq<Wire>): seq<Byte>
    requires AllWellFormed(ws)
  {
    if ws == [] then [] else OnWire(ws[0]) + Stream(ws[1..])
  }

  /** The message being assembled, and from how many frames so far. */
  datatype Assembly = Idle | Partial(text: seq<Byte>, frames: nat)

  datatype Meaning = Meaning(open: bool, assembly: Assembly, events: seq<Event>)

  /** One frame: deliver, answer, collect, or close with the status it calls for. */
  function Interpret(w: Wire, a: Assembly): Meaning {
    if !Permitted(w.fin, w.opcode, |w.payload| <= 125, a.Partial?) then Meaning(false, a, [Close(Some(1002))])
    else if w.opcode == 2 then Meaning(false, a, [Close(Some(1003))])
    else if |w.payload| > MAX_FRAME_BYTES then Meaning(false, a, [Close(Some(1009))])
    else if w.opcode == 8 then Meaning(false, a, [Close(CloseReply(w.payload))])
    else if w.opcode == 9 then Meaning(true, a, [Ping(w.payload)])
    else if w.opcode == 10 then Meaning(true, a, [])
    else
      var text := (if a.Partial? then a.text else []) + w.payload;
      var frames := (if a.Partial? then a.frames else 0) + 1;
      if |text| > MAX_FRAME_BYTES || frames > MAX_FRAGMENT_COUNT then Meaning(false, a, [Close(Some(1009))])
      else if !w.fin then Meaning(true, Partial(text, frames), [])
      else Meaning(Finished(text).Text?, Idle, [Finished(text)])
  }

  function InterpretAll(ws: seq<Wire>, a: Assembly): Meaning {
    if ws == [] then Meaning(true, a, [])
    else
      var m := Interpret(ws[0], a);
      if !m.open then m
      else
        var rest := InterpretAll(ws[1..], m.assembly);
        Meaning(rest.open, rest.assembly, m.events + rest.events)
  }

  // ----- the reader's counters -----

  function AssemblyOf(r: Reader): Assembly {
    if r.fragments.None? then Idle else Partial(Flatten(r.fragments.value), r.count)
  }

  predicate CountersOk(r: Reader) {
    if r.fragments.None? then r.bytes == 0 && r.count == 0 && r.overhead == 0
    else r.bytes == |Flatten(r.fragments.value)| && r.overhead <= 14 * r.count && r.count <= MAX_FRAGMENT_COUNT
  }

  /** Fourteen bytes of overhead for at most 1024 frames: the overhead limit is
      never the one that fires. */
  lemma OverheadNeverFires(r: Reader, f: Parsed)
    requires CountersOk(r) && f.Frame? && f.overhead <= 14
    ensures TooMuch(r, f) <==> r.bytes + |f.payload| > MAX_FRAME_BYTES || r.count + 1 > MAX_FRAGMENT_COUNT
  {}

  lemma CollectedText(r: Reader, payload: seq<Byte>)
    ensures Flatten(Collected(r, payload)) == (if r.fragments.Some? then Flatten(r.fragments.value) else []) + payload
  {
    var parts := if r.fragments.Some? then r.fragments.value else [];
    assert Collected(r, payload)[..|parts|] == parts;
  }

  /** The frame `w`, as the reader holds it once parsed. */
  predicate Parses(f: Parsed, w: Wire) {
    f.Frame? && f.fin == w.fin && f.opcode == w.opcode && f.payload == w.payload && f.overhead <= 14
  }

  lemma TakeMeans(r: Reader, f: Parsed, w: Wire)
    requires CountersOk(r) && !r.closing && Parses(f, w) && |w.payload| <= MAX_FRAME_BYTES && w.opcode != 2
    requires Permitted(w.fin, w.opcode, |w.payload| <= 125, r.fragments.Some?)
    ensures var (next, events) := TakeFrame(r, f);
            var m := Interpret(w, AssemblyOf(r));
            && events == m.events && next.closing == !m.open && next.buffer == r.buffer
            && (m.open ==> CountersOk(next) && AssemblyOf(next) == m.assembly)
  {
    hide Decode, Flatten;
    if w.opcode <= 1 {
      OverheadNeverFires(r, f);
      CollectedText(r, w.payload);
    }
  }

  lemma HeaderRejects(w: Wire, rest: seq<Byte>, fragmenting: bool)
    requires WellFormed(w)
    requires !Permitted(w.fin, w.opcode, |w.payload| <= 125, fragmenting) || w.opcode == 2
             || |w.payload| > MAX_FRAME_BYTES
    ensures ReadHeader([FirstByte(w.fin, w.opcode)] + LengthField(|w.payload|, 128) + rest, fragmenting)
         == Bad(if !Permitted(w.fin, w.opcode, |w.payload| <= 125, fragmenting) then 1002
                else if w.opcode == 2 then 1003 else 1009)
  {
    hide Permitted, FirstByte, Bytes, BigEndian, Pow256;
    FirstByteReads(w.fin, w.opcode);
    PowersOf256();
    var n := |w.payload|;
    var buf := [FirstByte(w.fin, w.opcode)] + LengthField(n, 128) + rest;
    if n > 65535 {
      BytesRead(n, 8);
      assert buf[2..10] == Bytes(n, 8);
    }
  }

  /** Parsing a stream that starts with the frame `w`. */
  lemma ParseWire(w: Wire, rest: seq<Byte>, fragmenting: bool)
    requires WellFormed(w)
    ensures var f := ParseFrame(OnWire(w) + rest, fragmenting);
            if !Permitted(w.fin, w.opcode, |w.payload| <= 125, fragmenting) then f == Reject(1002)
            else if w.opcode == 2 then f == Reject(1003)
            else if |w.payload| > MAX_FRAME_BYTES then f == Reject(1009)
            else Parses(f, w) && f.overhead + |f.payload| == |OnWire(w)|
  {
    hide Permitted, LengthField, FirstByte, Mask, ReadHeader;
    if Permitted(w.fin, w.opcode, |w.payload| <= 125, fragmenting) && w.opcode != 2 && |w.payload| <= MAX_FRAME_BYTES {
      MaskedFrameDecodes(w.fin, w.opcode, w.mask, w.payload, rest, fragmenting);
    } else {
      var tail := w.mask + Mask(w.payload, w.mask) + rest;
      HeaderRejects(w, tail, fragmenting);
      assert OnWire(w) + rest == [FirstByte(w.fin, w.opcode)] + LengthField(|w.payload|, 128) + tail;
    }
  }

  /** Reading any sequence of client frames does what the frames mean; bytes that
      follow are read afterwards, from the state the frames leave. */
  lemma {:induction false} StreamMeans(ws: seq<Wire>, tail: seq<Byte>, r: Reader) returns (next: Reader)
    requires AllWellFormed(ws) && CountersOk(r) && !r.closing && r.buffer == Stream(ws) + tail
    ensures var (last, events) := Drain(r);
            var m := InterpretAll(ws, AssemblyOf(r));
            if !m.open then last.closing && events == m.events
            else
              && next.buffer == tail && !next.closing && CountersOk(next) && AssemblyOf(next) == m.assembly
              && last == Drain(next).0 && events == m.events + Drain(next).1
    decreases |ws|
  {
    hide ParseFrame, TakeFrame, Interpret, CountersOk, AssemblyOf, OnWire;
    next := r;
    if ws == [] {
      assert r.buffer == tail && Drain(r).1 == [] + Drain(r).1;
    } else {
      var w, rest := ws[0], Stream(ws[1..]) + tail;
      assert r.buffer == OnWire(w) + rest;
      FirstWire(w, rest, r);
      var m := Interpret(w, AssemblyOf(r));
      if m.open {
        var f := ParseFrame(r.buffer, r.fragments.Some?);
        var (mid, events) := TakeFrame(r.(buffer := rest), f);
        next := StreamMeans(ws[1..], tail, mid);
        var later := InterpretAll(ws[1..], m.assembly);
        assert events + (later.events + Drain(next).1) == (events + later.events) + Drain(next).1;
      }
    }
  }

  lemma FirstWire(w: Wire, rest: seq<Byte>, r: Reader)
    requires WellFormed(w) && CountersOk(r) && !r.closing && r.buffer == OnWire(w) + rest
    ensures var f := ParseFrame(r.buffer, r.fragments.Some?);
            var m := Interpret(w, AssemblyOf(r));
            && !f.Incomplete?
            && (f.Reject? ==> !m.open && m.events == [Close(Some(f.code))])
            && (f.Frame? ==>
                  && r.buffer[f.overhead + |f.payload|..] == rest
                  && var (next, events) := TakeFrame(r.(buffer := rest), f);
                     && events == m.events && next.closing == !m.open && next.buffer == rest
                     && (m.open ==> CountersOk(next) && AssemblyOf(next) == m.assembly))
  {
    hide ParseFrame, TakeFrame, OnWire, Permitted;
    ParseWire(w, rest, r.fragments.Some?);
    var f := ParseFrame(r.buffer, r.fragments.Some?);
    if f.Frame? { TakeMeans(r.(buffer := rest), f, w); }
  }

  /** A reader holding no bytes reads exactly the meaning of the frames sent to it. */
  lemma CompleteStream(ws: seq<Wire>, r: Reader)
    requires AllWellFormed(ws) && CountersOk(r) && !r.closing && r.buffer == []
    ensures var (last, events) := Feed(r, Stream(ws));
            var m := InterpretAll(ws, AssemblyOf(r));
            && events == m.events && last.closing == !m.open
            && (m.open ==> last.buffer == [] && CountersOk(last) && AssemblyOf(last) == m.assembly)
  {
    hide TakeFrame, CountersOk, AssemblyOf, InterpretAll;
    var s := Stream(ws);
    assert r.buffer + s == s + [];
    CountersIgnoreBuffer(r, s + []);
    var next := StreamMeans(ws, [], r.(buffer := s + []));
    var m := InterpretAll(ws, AssemblyOf(r));
    if m.open { assert m.events + [] == m.events; }
  }

  lemma CountersIgnoreBuffer(r: Reader, buffer: seq<Byte>)
    ensures CountersOk(r.(buffer := buffer)) == CountersOk(r) && AssemblyOf(r.(buffer := buffer)) == AssemblyOf(r)
  {}

  // ----- every stream is frames and then a remainder -----

  /** What the reader does with `s` is what the frames of `s` mean, then the
      rejection of the remainder if its header is bad. */
  predicate Explains(ws: seq<Wire>, tail: seq<Byte>, a: Assembly, closing: bool, events: seq<Event>) {
    var m := InterpretAll(ws, a);
    if !m.open then closing && events == m.events
    else
      var f := ParseFrame(tail, m.assembly.Partial?);
      && !f.Frame? && closing == f.Reject?
      && events == m.events + (if f.Reject? then [Close(Some(f.code))] else [])
  }

  /** Whatever bytes are buffered, they are client frames and a remainder, and
      the reader does what those frames mean. */
  lemma {:induction false} Decompose(r: Reader) returns (ws: seq<Wire>, tail: seq<Byte>)
    requires CountersOk(r) && !r.closing
    ensures AllWellFormed(ws) && r.buffer == Stream(ws) + tail
    ensures Explains(ws, tail, AssemblyOf(r), Drain(r).0.closing, Drain(r).1)
    decreases |r.buffer|
  {
    hide ParseFrame, TakeFrame, Interpret, CountersOk, AssemblyOf, OnWire, Explains, WellFormed;
    ws, tail := [], r.buffer;
    var f := ParseFrame(r.buffer, r.fragments.Some?);
    if f.Frame? {
      var w := FrontWire(r);
      var rest := r.buffer[f.overhead + |f.payload|..];
      FirstWire(w, rest, r);
      var (next, events) := TakeFrame(r.(buffer := rest), f);
      if next.closing {
        ws, tail := [w], rest;
        LastWire(w, tail, AssemblyOf(r));
      } else {
        var later, end := Decompose(next);
        ws, tail := [w] + later, end;
        StreamOfPrepended(w, later, tail);
        PrependWire(w, later, end, AssemblyOf(r), Drain(next).0.closing, Drain(next).1);
      }
    } else {
      NoWire(r);
    }
  }

  lemma NoWire(r: Reader)
    requires !r.closing && !ParseFrame(r.buffer, r.fragments.Some?).Frame?
    ensures Stream([]) + r.buffer == r.buffer
    ensures Explains([], r.buffer, AssemblyOf(r), Drain(r).0.closing, Drain(r).1)
  {
    hide ParseFrame;
    PartialWhenFragmenting(r);
  }

  lemma LastWire(w: Wire, tail: seq<Byte>, a: Assembly)
    requires WellFormed(w) && !Interpret(w, a).open
    ensures Stream([w]) + tail == OnWire(w) + tail
    ensures Explains([w], tail, a, true, Interpret(w, a).events)
  {
    hide Interpret, ParseFrame;
    assert Stream([w]) == OnWire(w) + [] == OnWire(w);
  }

  lemma StreamOfPrepended(w: Wire, ws: seq<Wire>, tail: seq<Byte>)
    requires WellFormed(w) && AllWellFormed(ws)
    ensures AllWellFormed([w] + ws) && Stream([w] + ws) + tail == OnWire(w) + (Stream(ws) + tail)
  {
    hide OnWire, WellFormed;
    assert ([w] + ws)[1..] == ws;
  }

  lemma PartialWhenFragmenting(r: Reader)
    ensures AssemblyOf(r).Partial? == r.fragments.Some?
  {}

  lemma PrependWire(w: Wire, ws: seq<Wire>, tail: seq<Byte>, a: Assembly, closing: bool, events: seq<Event>)
    requires Interpret(w, a).open && Explains(ws, tail, Interpret(w, a).assembly, closing, events)
    ensures Explains([w] + ws, tail, a, closing, Interpret(w, a).events + events)
  {
    hide Interpret, ParseFrame;
    assert ([w] + ws)[1..] == ws;
  }

  lemma FrontWire(r: Reader) returns (w: Wire)
    requires ParseFrame(r.buffer, r.fragments.Some?).Frame?
    ensures var f := ParseFrame(r.buffer, r.fragments.Some?);
            WellFormed(w) && r.buffer == OnWire(w) + r.buffer[f.overhead + |f.payload|..]
  {
    hide ParseFrame, MaskedFrame;
    var f := ParseFrame(r.buffer, r.fragments.Some?);
    DecodedWasEncoded(r.buffer, r.fragments.Some?);
    w := Wire(f.fin, f.opcode, r.buffer[f.overhead - 4..f.overhead], f.payload);
    var size := f.overhead + |f.payload|;
    assert r.buffer == r.buffer[..size] + r.buffer[size..];
  }

  /** For every byte stream and every way of cutting it into chunks, a new
      connection delivers, answers and closes exactly as its frames mean. */
  lemma EveryStream(chunks: seq<seq<Byte>>) returns (ws: seq<Wire>, tail: seq<Byte>)
    ensures AllWellFormed(ws) && Flatten(chunks) == Stream(ws) + tail
    ensures Explains(ws, tail, Idle, FeedAll(EmptyReader, chunks).0.closing, FeedAll(EmptyReader, chunks).1)
  {
    hide Drain, Explains;
    var s := Flatten(chunks);
    assert EmptyReader.buffer + s == s;
    ChunkingIndependent(EmptyReader, chunks);
    ws, tail := Decompose(EmptyReader.(buffer := s));
  }

  /** A remainder is rejected only when no acceptable frame begins with it. */
  lemma RejectionIsFinal(tail: seq<Byte>, fragmenting: bool, more: seq<Byte>, w: Wire, rest: seq<Byte>)
    requires ParseFrame(tail, fragmenting).Reject? && WellFormed(w)
    requires Permitted(w.fin, w.opcode, |w.payload| <= 125, fragmenting) && w.opcode != 2
             && |w.payload| <= MAX_FRAME_BYTES
    ensures tail + more != OnWire(w) + rest
  {
    hide ParseFrame, Permitted, OnWire;
    ParseIsMonotone(tail, more, fragmenting);
    ParseWire(w, rest, fragmenting);
  }
}
