/** What a connector's bytes come to, said without the reader's own functions:
    which texts are delivered, which closes are answered how, and which headers
    are refused (sections 5.2 to 5.5 and 7.4 of RFC 6455). */
module Texts {
  import opened Common
  import opened Utf8
  import opened Frames
  import opened FrameReading
  import opened Messages

  // ----- masking -----

  function Bit(n: nat, k: nat): nat {
    if k == 0 then n % 2 else Bit(n / 2, k - 1)
  }

  /** Masking is exclusive or: every bit is flipped exactly where the mask is set. */
  lemma {:induction false} XorFlipsBits(a: nat, b: nat, k: nat)
    ensures Bit(Xor(a, b), k) == if Bit(a, k) != Bit(b, k) then 1 else 0
  {
    if a == 0 && b == 0 {
      ZeroBits(k);
    } else {
      var x := Xor(a, b);
      assert x / 2 == Xor(a / 2, b / 2) && x % 2 == if a % 2 != b % 2 then 1 else 0;
      if k > 0 { XorFlipsBits(a / 2, b / 2, k - 1); }
    }
  }

  lemma {:induction false} ZeroBits(k: nat)
    ensures Bit(0, k) == 0
  {
    if k > 0 { ZeroBits(k - 1); }
  }

  // ----- text messages -----

  /** The frames of one message: a text frame, continuations, and the last one final. */
  predicate MessageFrames(ws: seq<Wire>) {
    && ws != [] && |ws| <= 1024
    && (forall i :: 0 <= i < |ws| ==>
          && ws[i].opcode == (if i == 0 then 1 else 0) && ws[i].fin == (i == |ws| - 1)
          && |ws[i].mask| == 4 && |ws[i].payload| <= 65536)
  }

  function Payloads(ws: seq<Wire>): seq<Byte> {
    if ws == [] then [] else Payloads(ws[..|ws| - 1]) + ws[|ws| - 1].payload
  }

  lemma {:induction false} PayloadsGrow(ws: seq<Wire>, n: nat)
    requires n <= |ws|
    ensures |Payloads(ws[..n])| <= |Payloads(ws)|
    decreases |ws| - n
  {
    if n < |ws| {
      PayloadsGrow(ws, n + 1);
      assert ws[..n + 1][..n] == ws[..n];
    } else {
      assert ws[..n] == ws;
    }
  }

  /** Reading on from the middle of a message. */
  lemma {:induction false} MessageFrom(ws: seq<Wire>, n: nat)
    requires MessageFrames(ws) && |Payloads(ws)| <= 65536 && n < |ws|
    ensures var a := if n == 0 then Idle else Partial(Payloads(ws[..n]), n);
            var m := InterpretAll(ws[n..], a);
            m.events == [Finished(Payloads(ws))] && m.assembly == Idle && m.open == Finished(Payloads(ws)).Text?
    decreases |ws| - n
  {
    hide Finished, Payloads;
    var a := if n == 0 then Idle else Partial(Payloads(ws[..n]), n);
    var w, rest := ws[n..][0], ws[n..][1..];
    assert w == ws[n] && rest == ws[n + 1..];
    PayloadsGrow(ws, n + 1);
    PayloadsStep(ws, n);
    var m := Interpret(w, a);
    if n + 1 == |ws| {
      assert ws[..n + 1] == ws && rest == [];
      assert m.events + [] == m.events;
    } else {
      assert m == Meaning(true, Partial(Payloads(ws[..n + 1]), n + 1), []);
      MessageFrom(ws, n + 1);
      var later := InterpretAll(rest, m.assembly);
      assert [] + later.events == later.events;
    }
  }

  lemma PayloadsStep(ws: seq<Wire>, n: nat)
    requires n < |ws|
    ensures Payloads(ws[..n + 1]) == Payloads(ws[..n]) + ws[n].payload && Payloads(ws[..0]) == []
  {
    assert ws[..n + 1][..n] == ws[..n];
  }

  lemma MessageReads(ws: seq<Wire>, chunks: seq<seq<Byte>>)
    requires MessageFrames(ws) && |Payloads(ws)| <= 65536
    requires AllWellFormed(ws) && Flatten(chunks) == Stream(ws)
    ensures FeedAll(EmptyReader, chunks).1 == [Finished(Payloads(ws))]
    ensures FeedAll(EmptyReader, chunks).0.closing == !Finished(Payloads(ws)).Text?
  {
    hide Finished, Feed, FeedAll, Payloads, Stream, MessageFrames;
    NewReader();
    ChunkingIndependent(EmptyReader, chunks);
    CompleteStream(ws, EmptyReader);
    FramesNotEmpty(ws);
    MessageFrom(ws, 0);
    assert ws[0..] == ws;
  }

  lemma FramesNotEmpty(ws: seq<Wire>)
    requires MessageFrames(ws)
    ensures 0 < |ws|
  {}

  lemma NewReader()
    ensures Settled(EmptyReader) && CountersOk(EmptyReader) && AssemblyOf(EmptyReader) == Idle
    ensures !EmptyReader.closing && EmptyReader.buffer == []
  {}

  lemma WellFormedFrames(ws: seq<Wire>)
    requires MessageFrames(ws)
    ensures AllWellFormed(ws)
  {}

  /** Every string of scalar values arrives: however its encoding is split into a
      text frame and continuations, masked, and cut into chunks, the new connection
      delivers exactly that string, less a byte order mark at its front. */
  lemma TextsAreDelivered(ps: seq<int>, ws: seq<Wire>, chunks: seq<seq<Byte>>)
    requires Scalars(ps) && |Encode(ps)| <= 65536 && MessageFrames(ws) && Payloads(ws) == Encode(ps)
    requires AllWellFormed(ws) && Flatten(chunks) == Stream(ws)
    ensures FeedAll(EmptyReader, chunks).1
         == [Text(if ps != [] && ps[0] == 0xFEFF then ps[1..] else ps)]
    ensures !FeedAll(EmptyReader, chunks).0.closing
  {
    MessageReads(ws, chunks);
    DecodeComplete(ps);
    hide Decode, Encode, FeedAll, Stream;
  }

  /** And nothing else does: bytes that encode no string close with 1007. */
  lemma NonTextsClose(ws: seq<Wire>, chunks: seq<seq<Byte>>)
    requires MessageFrames(ws) && |Payloads(ws)| <= 65536
    requires forall ps :: Scalars(ps) ==> Encode(ps) != Payloads(ws)
    requires AllWellFormed(ws) && Flatten(chunks) == Stream(ws)
    ensures FeedAll(EmptyReader, chunks).1 == [Close(Some(1007))] && FeedAll(EmptyReader, chunks).0.closing
  {
    MessageReads(ws, chunks);
    if Decode(Payloads(ws)).Some? { DecodeSound(Payloads(ws)); }
    hide Decode, Encode, FeedAll, Stream;
  }

  /** A message over the limit, in bytes or in frames, closes with 1009. */
  lemma LongTextsClose(w: Wire, a: Assembly)
    requires w.opcode == 0 && a.Partial? && |w.payload| <= 65536
    requires |a.text| + |w.payload| > 65536 || a.frames + 1 > 1024
    ensures Interpret(w, a) == Meaning(false, a, [Close(Some(1009))])
  {}

  // ----- control frames -----

  /** One frame read by a new connection, however it is cut. */
  lemma OneFrameReads(w: Wire, chunks: seq<seq<Byte>>)
    requires WellFormed(w) && Flatten(chunks) == OnWire(w)
    ensures FeedAll(EmptyReader, chunks).1 == Interpret(w, Idle).events
    ensures FeedAll(EmptyReader, chunks).0.closing == !Interpret(w, Idle).open
  {
    hide Feed, FeedAll, Interpret, OnWire;
    NewReader();
    ChunkingIndependent(EmptyReader, chunks);
    assert Stream([w]) == OnWire(w) + Stream([]) == OnWire(w);
    CompleteStream([w], EmptyReader);
    var m := Interpret(w, Idle);
    assert [w][1..] == [] && m.events + [] == m.events;
    assert InterpretAll([], m.assembly) == Meaning(true, m.assembly, []);
    assert InterpretAll([w], Idle).events == m.events && InterpretAll([w], Idle).open == m.open;
  }

  /** Two bytes as a number, the high one first. */
  function Pair(high: int, low: int): int { 256 * high + low }

  /** The status codes a peer may send. */
  predicate SentStatus(code: int) {
    code in {1000, 1001, 1002, 1003} || 1007 <= code <= 1014 || 3000 <= code <= 4999
  }

  /** The payload of a proper close: none, or a status a peer may send and a text. */
  ghost predicate ProperClose(payload: seq<Byte>) {
    || payload == []
    || (&& |payload| >= 2
        && SentStatus(Pair(payload[0], payload[1]))
        && exists ps :: Scalars(ps) && Encode(ps) == payload[2..])
  }

  /** A close frame is answered without a status if it is proper, and otherwise with 1002. */
  lemma ClosesAreAnswered(w: Wire, chunks: seq<seq<Byte>>)
    requires w.opcode == 8 && w.fin && |w.mask| == 4 && |w.payload| <= 125 && WellFormed(w)
             && Flatten(chunks) == OnWire(w)
    ensures FeedAll(EmptyReader, chunks).1 == [Close(if ProperClose(w.payload) then None else Some(1002))]
    ensures FeedAll(EmptyReader, chunks).0.closing
  {
    hide FeedAll, OnWire;
    OneFrameReads(w, chunks);
    CloseMeans(w.payload);
    hide CloseReply, ProperClose;
  }

  lemma CloseMeans(payload: seq<Byte>)
    ensures CloseReply(payload) == if ProperClose(payload) then None else Some(1002)
  {
    if |payload| >= 2 {
      TwoBytes(payload);
      var rest := payload[2..];
      if Decode(rest).Some? {
        DecodeSound(rest);
      } else {
        forall ps | Scalars(ps) ensures Encode(ps) != rest { DecodeComplete(ps); }
      }
      hide Decode, Encode, BigEndian;
    }
  }

  lemma TwoBytes(payload: seq<Byte>)
    requires |payload| >= 2
    ensures BigEndian(payload[..2]) == Pair(payload[0], payload[1])
  {
    var s := payload[..2];
    assert s[..1] == [payload[0]] && s[1] == payload[1] && s[..1][..0] == [];
    assert BigEndian(s[..1]) == BigEndian([]) * 256 + payload[0] == payload[0];
  }

  /** A ping is answered with its own payload, a pong with nothing, and the
      connection stays open. */
  lemma PingsAreAnswered(w: Wire, chunks: seq<seq<Byte>>)
    requires (w.opcode == 9 || w.opcode == 10) && w.fin && |w.mask| == 4 && |w.payload| <= 125
    requires WellFormed(w) && Flatten(chunks) == OnWire(w)
    ensures FeedAll(EmptyReader, chunks).1 == if w.opcode == 9 then [Ping(w.payload)] else []
    ensures !FeedAll(EmptyReader, chunks).0.closing
  {
    hide FeedAll, OnWire;
    OneFrameReads(w, chunks);
  }

  // ----- headers -----

  /** Two header bytes that no client may send: reserved bits, no mask, an unknown
      opcode, a fragmented or long control frame, a continuation of nothing, or a
      new text inside another. */
  predicate Illegal(first: int, second: int, fragmenting: bool) {
    var opcode := first % 16;
    || (16 <= first < 128 || first >= 144) || second < 128
    || 3 <= opcode <= 7 || 11 <= opcode <= 15
    || (opcode >= 8 && (first < 128 || second % 128 > 125))
    || (opcode == 0 && !fragmenting) || (opcode == 1 && fragmenting)
  }

  /** They are refused with 1002 at once, a binary frame with 1003; nothing else is
      refused before its length is known. */
  lemma IllegalHeaders(buf: seq<Byte>, fragmenting: bool)
    requires |buf| >= 2
    ensures var f := ParseFrame(buf, fragmenting);
            && (Illegal(buf[0], buf[1], fragmenting) ==> f == Reject(1002))
            && (!Illegal(buf[0], buf[1], fragmenting) && buf[0] % 16 == 2 ==> f == Reject(1003))
            && (!Illegal(buf[0], buf[1], fragmenting) && buf[0] % 16 != 2 && buf[1] % 128 <= 125 ==> !f.Reject?)
  {
    assert buf[0] / 16 % 8 != 0 <==> 16 <= buf[0] < 128 || buf[0] >= 144;
  }

  /** A length that is not minimal is refused with 1002, one over 65536 with 1009. */
  lemma IllegalLengths(buf: seq<Byte>, fragmenting: bool)
    requires |buf| >= 2 && !Illegal(buf[0], buf[1], fragmenting) && buf[0] % 16 != 2
    ensures var f := ParseFrame(buf, fragmenting);
            && (buf[1] % 128 == 126 && |buf| >= 4 ==>
                  (f.Reject? <==> Pair(buf[2], buf[3]) < 126) && (f.Reject? ==> f.code == 1002))
            && (buf[1] % 128 == 127 && |buf| >= 10 ==>
                  var n := BigEndian(buf[2..10]);
                  && (n < 65536 || n >= 0x8000_0000_0000_0000 ==> f == Reject(1002))
                  && (65536 < n < 0x8000_0000_0000_0000 ==> f == Reject(1009))
                  && (n == 65536 ==> !f.Reject?))
  {
    assert buf[0] / 16 % 8 != 0 <==> 16 <= buf[0] < 128 || buf[0] >= 144;
    if |buf| >= 4 {
      TwoBytes(buf[2..]);
      assert buf[2..][..2] == buf[2..4];
    }
    hide BigEndian;
  }
}
