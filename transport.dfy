/**
 * The bridge's TCP manager: the outbound queue, the staged outbound buffer
 * and the inbound mailbox, with the tick-side operations that drain and fill
 * them and one step of each socket loop.
 */
module Transport {
  import opened Bytes
  import opened Wrappers
  import Frames

  /** The packets laid end to end, first packet first. */
  function Concat(packets: seq<seq<uint8>>): seq<uint8>
  {
    if packets == [] then [] else packets[0] + Concat(packets[1..])
  }

  lemma {:induction false} ConcatAppend(packets: seq<seq<uint8>>, p: seq<uint8>)
    ensures Concat(packets + [p]) == Concat(packets) + p
  {
    if packets != [] {
      assert (packets + [p])[1..] == packets[1..] + [p];
      ConcatAppend(packets[1..], p);
    }
  }

  /** FIFO order: the bytes of earlier packets come before those of later ones. */
  lemma {:induction false} ConcatSplit(a: seq<seq<uint8>>, b: seq<seq<uint8>>)
    ensures Concat(a + b) == Concat(a) + Concat(b)
  {
    if a == [] {
      assert a + b == b;
    } else {
      assert (a + b)[1..] == a[1..] + b;
      ConcatSplit(a[1..], b);
    }
  }

  /** The number of bytes in all the packets together. */
  function TotalLength(packets: seq<seq<uint8>>): nat
  {
    if packets == [] then 0 else |packets[0]| + TotalLength(packets[1..])
  }

  /**
   * The buffer holds exactly the bytes of all the packets, so no byte is lost
   * or added; in particular non-empty packets never concatenate to nothing.
   */
  lemma {:induction false} ConcatLength(packets: seq<seq<uint8>>)
    ensures |Concat(packets)| == TotalLength(packets)
    ensures (forall i :: 0 <= i < |packets| ==> |packets[i]| > 0) ==> |Concat(packets)| >= |packets|
  {
    if packets != [] {
      ConcatLength(packets[1..]);
    }
  }

  /** What one read of the inbound mailbox yields. */
  datatype ReadResult =
    | NothingReceived                      // the mailbox was empty: the source returns null
    | Received(events: seq<seq<uint8>>)    // the frames, in buffer order
    | Overrun                              // a size byte ran past the buffer: IndexOutOfRangeException

  /**
   * The loop of the inbound read: each frame is the `size` bytes after a
   * one-byte size, taken in buffer order; a size byte that runs past the
   * buffer stops the read (the source's index-out-of-range exception).
   */
  method SplitInboundBuffer(buffer: seq<uint8>) returns (events: Option<seq<seq<uint8>>>)
    ensures events == Frames.ParseFrames(buffer)
  {
    var allPythonEventsToRead: seq<seq<uint8>> := [];
    var i := 0;
    assert buffer[i..] == buffer;
    if Frames.ParseFrames(buffer).Some? {
      assert [] + Frames.ParseFrames(buffer).value == Frames.ParseFrames(buffer).value;
    }
    while i < |buffer|
      invariant 0 <= i <= |buffer|
      invariant Frames.ParseFrames(buffer) == Frames.Prepend(allPythonEventsToRead, Frames.ParseFrames(buffer[i..]))
      decreases |buffer| - i
    {
      Frames.ParseFramesAt(buffer, i);
      var sizeOfPacket := buffer[i];
      i := i + 1;
      var startOfPacket := i;
      if startOfPacket + sizeOfPacket > |buffer| {
        return None;
      }
      Frames.PrependSome(allPythonEventsToRead, buffer[startOfPacket..startOfPacket + sizeOfPacket],
        Frames.ParseFrames(buffer[startOfPacket + sizeOfPacket..]));
      allPythonEventsToRead := allPythonEventsToRead + [buffer[startOfPacket..startOfPacket + sizeOfPacket]];
      i := i + sizeOfPacket;
    }
    assert buffer[i..] == [];
    assert allPythonEventsToRead + [] == allPythonEventsToRead;
    return Some(allPythonEventsToRead);
  }

  class TCPManager {
    /** Packets waiting for the next send, oldest first. */
    var queuedPacketsToSend: seq<seq<uint8>>
    /** The buffer staged for the send loop; None is the C# null. */
    var upcomingBytePacket: Option<seq<uint8>>
    /** The buffer published by the receive loop; None is the C# null. */
    var receivedBytePacket: Option<seq<uint8>>

    /** Empty packets and empty buffers never enter the queue or either mailbox. */
    ghost predicate Valid()
      reads this
    {
      && (forall i :: 0 <= i < |queuedPacketsToSend| ==> |queuedPacketsToSend[i]| > 0)
      && (upcomingBytePacket.Some? ==> |upcomingBytePacket.value| > 0)
      && (receivedBytePacket.Some? ==> |receivedBytePacket.value| > 0)
    }

    constructor ()
      ensures Valid()
      ensures queuedPacketsToSend == [] && upcomingBytePacket == None && receivedBytePacket == None
    {
      queuedPacketsToSend := [];
      upcomingBytePacket := None;
      receivedBytePacket := None;
    }

    /** Appends a packet to the queue; a null or empty packet is dropped with an error log. */
    method QueueEventToSendToPythonApplication(packetToQueue: Option<seq<uint8>>)
      requires Valid()
      modifies this
      ensures Valid()
      ensures queuedPacketsToSend ==
        if packetToQueue.None? || |packetToQueue.value| < 1 then old(queuedPacketsToSend)
        else old(queuedPacketsToSend) + [packetToQueue.value]
      ensures upcomingBytePacket == old(upcomingBytePacket)
      ensures receivedBytePacket == old(receivedBytePacket)
    {
      if packetToQueue.None? || |packetToQueue.value| < 1 {
        return;
      }
      queuedPacketsToSend := queuedPacketsToSend + [packetToQueue.value];
    }

    /** Dequeues every packet, oldest first, and returns their bytes laid end to end. */
    method GetSendTCPQueueAsByteArrayAndClear() returns (bytes: seq<uint8>)
      requires Valid()
      modifies this
      ensures Valid()
      ensures bytes == Concat(old(queuedPacketsToSend))
      ensures queuedPacketsToSend == []
      ensures upcomingBytePacket == old(upcomingBytePacket)
      ensures receivedBytePacket == old(receivedBytePacket)
    {
      bytes := [];
      ghost var dequeued: seq<seq<uint8>> := [];
      while |queuedPacketsToSend| > 0
        invariant Valid()
        invariant dequeued + queuedPacketsToSend == old(queuedPacketsToSend)
        invariant bytes == Concat(dequeued)
        invariant upcomingBytePacket == old(upcomingBytePacket)
        invariant receivedBytePacket == old(receivedBytePacket)
        decreases |queuedPacketsToSend|
      {
        var eventMessage := queuedPacketsToSend[0];
        queuedPacketsToSend := queuedPacketsToSend[1..];
        ConcatAppend(dequeued, eventMessage);
        bytes := bytes + eventMessage;
        dequeued := dequeued + [eventMessage];
      }
      assert dequeued == old(queuedPacketsToSend);
    }

    /**
     * Once per tick: when packets are queued and nothing is staged, stage the
     * whole queue as one buffer and empty the queue; otherwise change nothing.
     */
    method PrepareBytesToSendThroughTCP()
      requires Valid()
      modifies this
      ensures Valid()
      ensures old(|queuedPacketsToSend| == 0 || upcomingBytePacket.Some?) ==>
        queuedPacketsToSend == old(queuedPacketsToSend) && upcomingBytePacket == old(upcomingBytePacket)
      ensures old(|queuedPacketsToSend| > 0 && upcomingBytePacket.None?) ==>
        queuedPacketsToSend == [] && upcomingBytePacket == Some(Concat(old(queuedPacketsToSend)))
      ensures receivedBytePacket == old(receivedBytePacket)
    {
      if |queuedPacketsToSend| == 0 || upcomingBytePacket.Some? {
        return;
      }
      ConcatLength(queuedPacketsToSend);
      var bytes := GetSendTCPQueueAsByteArrayAndClear();
      upcomingBytePacket := Some(bytes);
    }

    /**
     * Once per tick: split the inbound mailbox into frames, each the `size`
     * bytes after a one-byte size, and empty the mailbox. A size byte that
     * runs past the buffer throws before the mailbox is emptied.
     */
    method UpdateReadPythonEventsIfValid() returns (r: ReadResult)
      requires Valid()
      modifies this
      ensures Valid()
      ensures old(receivedBytePacket).None? ==> r == NothingReceived && receivedBytePacket == None
      ensures old(receivedBytePacket).Some? ==>
        match Frames.ParseFrames(old(receivedBytePacket).value)
        case Some(frames) => r == Received(frames) && receivedBytePacket == None
        case None => r == Overrun && receivedBytePacket == old(receivedBytePacket)
      ensures queuedPacketsToSend == old(queuedPacketsToSend)
      ensures upcomingBytePacket == old(upcomingBytePacket)
    {
      if receivedBytePacket.None? {
        return NothingReceived;
      }
      var events := SplitInboundBuffer(receivedBytePacket.value);
      if events.None? {
        return Overrun;
      }
      receivedBytePacket := None;
      return Received(events.value);
    }

    /**
     * One pass of the receive loop. With the mailbox full it reads nothing
     * and reports that the message stays with the peer; otherwise it takes
     * the whole message and publishes it when it is not empty.
     */
    method ReceiveLoopStep(message: seq<uint8>) returns (consumed: bool)
      requires Valid()
      modifies this
      ensures Valid()
      ensures consumed <==> old(receivedBytePacket).None?
      ensures receivedBytePacket ==
        if old(receivedBytePacket).Some? || |message| == 0 then old(receivedBytePacket) else Some(message)
      ensures queuedPacketsToSend == old(queuedPacketsToSend)
      ensures upcomingBytePacket == old(upcomingBytePacket)
    {
      if receivedBytePacket.Some? {
        return false;
      }
      if |message| > 0 {
        receivedBytePacket := Some(message);
      }
      return true;
    }

    /**
     * One pass of the send loop. With nothing staged the accepted connection
     * is dropped; otherwise the staged buffer is sent and the slot emptied.
     */
    method SendLoopStep() returns (sent: Option<seq<uint8>>)
      requires Valid()
      modifies this
      ensures Valid()
      ensures sent == old(upcomingBytePacket)
      ensures upcomingBytePacket == None
      ensures queuedPacketsToSend == old(queuedPacketsToSend)
      ensures receivedBytePacket == old(receivedBytePacket)
    {
      sent := upcomingBytePacket;
      if upcomingBytePacket.None? {
        return;
      }
      upcomingBytePacket := None;
    }
  }
}
