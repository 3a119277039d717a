/** The socket's outbound queue (apps/control-plane/src/connector/gateway.ts,
    lines 142 to 252 and 323 to 327): bounded, accounted for, first in first out. */
module Outbound {
  import opened Common
  import opened Utf8
  import opened Frames

  const MAX_OUTBOUND_QUEUE_FRAMES: nat := 128
  const MAX_OUTBOUND_QUEUE_BYTES: nat := 262144

  function Total(queue: seq<seq<Byte>>): nat {
    if queue == [] then 0 else |queue[0]| + Total(queue[1..])
  }

  lemma {:induction false} TotalAppend(queue: seq<seq<Byte>>, frame: seq<Byte>)
    ensures Total(queue + [frame]) == Total(queue) + |frame|
  {
    if queue != [] {
      TotalAppend(queue[1..], frame);
      assert (queue + [frame])[1..] == queue[1..] + [frame];
    }
  }

  class OutboundQueue {
    var closed: bool
    var closing: bool
    var writeInProgress: bool
    var queue: seq<seq<Byte>>
    var queueBytes: nat
    /** Frames handed to the socket, in order. */
    ghost var socket: seq<seq<Byte>>
    /** Frames accepted and not dropped since, in order. */
    ghost var kept: seq<seq<Byte>>

    ghost predicate Valid()
      reads this
    {
      && queueBytes == Total(queue) <= MAX_OUTBOUND_QUEUE_BYTES && |queue| <= MAX_OUTBOUND_QUEUE_FRAMES
      && kept == socket + queue
      && (closed ==> closing && queue == [])
      && (!writeInProgress ==> queue == [])
    }

    constructor ()
      ensures Valid() && !closed && !closing && kept == [] && !writeInProgress
    {
      closed, closing, writeInProgress, queue, queueBytes, socket, kept := false, false, false, [], 0, [], [];
    }

    method DropQueuedWrites()
      modifies this`queue, this`queueBytes, this`kept
      ensures queue == [] && queueBytes == 0 && kept == socket
    {
      queue, queueBytes, kept := [], 0, socket;
    }

    /** #finish: the socket is gone and everything queued is refused. */
    method Finish()
      requires Valid()
      modifies this
      ensures Valid() && closed && socket == old(socket) && kept == socket && writeInProgress == old(writeInProgress)
    {
      if closed { return; }
      closed, closing := true, true;
      DropQueuedWrites();
    }

    /** #drainWrites: hands the oldest frame to the socket unless one is being written. */
    method DrainWrites()
      requires queueBytes == Total(queue) && kept == socket + queue
      modifies this
      ensures closed == old(closed) && closing == old(closing) && kept == old(kept) && kept == socket + queue
      ensures queueBytes == Total(queue)
      ensures if closed || old(writeInProgress) || old(queue) == [] then
                queue == old(queue) && socket == old(socket) && writeInProgress == old(writeInProgress)
              else queue == old(queue)[1..] && socket == old(socket) + [old(queue)[0]] && writeInProgress
    {
      if closed || writeInProgress || queue == [] { return; }
      socket := socket + [queue[0]];
      queueBytes := queueBytes - |queue[0]|;
      queue := queue[1..];
      writeInProgress := true;
    }

    /** #sendFrame: refused when closed, or closing without leave, or over a limit;
        a frame over a limit also ends the connection. */
    method SendFrame(opcode: nat, payload: seq<Byte>, allowClosing: bool) returns (accepted: bool)
      requires Valid() && opcode < 16
      modifies this
      ensures Valid()
      ensures accepted <==> (old(!closed && (!closing || allowClosing) && |queue| < 128
                && queueBytes + |ServerFrame(opcode, payload)| <= 256 * 1024))
      ensures accepted ==>
              kept == old(kept) + [ServerFrame(opcode, payload)] && closed == old(closed) && closing == old(closing)
      ensures accepted ==> socket == if old(writeInProgress) then old(socket)
                                     else old(socket) + [ServerFrame(opcode, payload)]
      ensures !accepted ==> socket == old(socket)
      ensures !accepted ==> if old(closed || (closing && !allowClosing)) then kept == old(kept)
                            else closed && kept == socket
    {
      if closed || (closing && !allowClosing) { return false; }
      var frame := ServerFrame(opcode, payload);
      if |queue| >= MAX_OUTBOUND_QUEUE_FRAMES || queueBytes + |frame| > MAX_OUTBOUND_QUEUE_BYTES {
        Finish();
        return false;
      }
      TotalAppend(queue, frame);
      queue, queueBytes, kept := queue + [frame], queueBytes + |frame|, kept + [frame];
      DrainWrites();
      return true;
    }

    /** The write in progress ended; an error ends the connection first. */
    method WriteSettled(ok: bool)
      requires Valid() && writeInProgress
      modifies this
      ensures Valid()
      ensures ok && !old(closed) ==> kept == old(kept) && closed == old(closed)
      ensures ok && !old(closed) && old(queue) != [] ==> socket == old(socket) + [old(queue)[0]]
      ensures !ok ==> closed && socket == old(socket)
    {
      if !ok { Finish(); }
      writeInProgress := false;
      DrainWrites();
    }

    /** closeGracefully: what is queued is refused, and a close frame follows
        whatever the socket already has. */
    method CloseGracefully(status: Option<nat>) returns (sent: bool)
      requires Valid() && (status.Some? ==> status.value < 65536)
      modifies this
      ensures Valid() && closing
      ensures old(closed || closing) ==> !sent && kept == old(kept) && socket == old(socket)
      ensures !old(closed || closing) ==>
                sent && kept == old(socket) + [ServerFrame(8, if status.Some? then Bytes(status.value, 2) else [])]
    {
      if closed || closing { return false; }
      closing := true;
      DropQueuedWrites();
      sent := SendFrame(8, if status.Some? then Bytes(status.value, 2) else [], true);
    }
  }
}
