/**
 * The peer's TCP manager: the queue of events for the bridge and the body of
 * its send loop, which frames every queued event with a one-byte length and
 * lays them end to end. The bridge's inbound splitter takes such a buffer
 * apart again.
 */
module PeerTransport {
  import opened Bytes
  import opened Wrappers
  import opened Frames

  /** Every value fits in a byte, as `bytearray` demands. */
  predicate AllBytes(s: seq<int>)
  {
    forall i :: 0 <= i < |s| ==> 0 <= s[i] < 0x100
  }

  /** Events the send loop can turn into bytes: each shorter than 256 values and made of byte values. */
  predicate Sendable(q: seq<seq<int>>)
  {
    forall i :: 0 <= i < |q| ==> |q[i]| < 0x100 && AllBytes(q[i])
  }

  /** Sendable events, read as frames of bytes. */
  function AsFrames(q: seq<seq<int>>): (r: seq<seq<uint8>>)
    requires Sendable(q)
    ensures r == q && FitsSizeByte(r)
  {
    q
  }

  /** What the send loop builds from the events, first event first: each preceded by its length. */
  function PeerFraming(events: seq<seq<int>>): seq<int>
  {
    if events == [] then [] else [|events[0]|] + events[0] + PeerFraming(events[1..])
  }

  lemma {:induction false} PeerFramingAppend(events: seq<seq<int>>, e: seq<int>)
    ensures PeerFraming(events + [e]) == PeerFraming(events) + ([|e|] + e)
  {
    if events != [] {
      assert (events + [e])[1..] == events[1..] + [e];
      PeerFramingAppend(events[1..], e);
    }
  }

  /**
   * The built list converts to bytes exactly when every event is sendable,
   * and then it is the framing the bridge's splitter inverts.
   */
  lemma {:induction false} PeerFramingBytes(events: seq<seq<int>>)
    ensures AllBytes(PeerFraming(events)) <==> Sendable(events)
    ensures Sendable(events) ==> PeerFraming(events) == JoinFrames(AsFrames(events))
  {
    if events != [] {
      var e := events[0];
      var rest := PeerFraming(events[1..]);
      PeerFramingBytes(events[1..]);
      assert PeerFraming(events) == [|e|] + e + rest;
      if AllBytes(PeerFraming(events)) {
        var all := PeerFraming(events);
        assert all[0] == |e|;
        assert AllBytes(e) by {
          forall i | 0 <= i < |e| ensures 0 <= e[i] < 0x100 {
            assert e[i] == all[1 + i];
          }
        }
        assert AllBytes(rest) by {
          forall i | 0 <= i < |rest| ensures 0 <= rest[i] < 0x100 {
            assert rest[i] == all[1 + |e| + i];
          }
        }
        assert Sendable(events) by {
          forall i | 0 <= i < |events|
            ensures |events[i]| < 0x100 && AllBytes(events[i])
          {
            if i > 0 {
              assert events[i] == events[1..][i - 1];
            }
          }
        }
      }
      if Sendable(events) {
        assert Sendable(events[1..]) by {
          forall i | 0 <= i < |events[1..]|
            ensures |events[1..][i]| < 0x100 && AllBytes(events[1..][i])
          {
            assert events[1..][i] == events[i + 1];
          }
        }
      }
    }
  }

  /** Splitting what the send loop sent gives back the queued events, in order. */
  lemma SentBufferSplitsBack(events: seq<seq<int>>)
    requires Sendable(events)
    ensures AllBytes(PeerFraming(events))
    ensures var sent: seq<uint8> := PeerFraming(events); ParseFrames(sent) == Some(AsFrames(events))
  {
    PeerFramingBytes(events);
    ParseJoin(AsFrames(events));
  }

  class PeerTCPManager {
    /** Events waiting for the send loop, oldest first; each event is a list of integers. */
    var tcpEventQueue: seq<seq<int>>
    var sendingEventsToOurUnityApplication: bool

    /** A manager with an empty queue, not sending; the two socket threads it starts are not part of the model. */
    constructor ()
      ensures tcpEventQueue == [] && !sendingEventsToOurUnityApplication
    {
      tcpEventQueue := [];
      sendingEventsToOurUnityApplication := false;
    }

    /**
     * Queues an event for the bridge; a `None` event is only reported.
     * `runsSendLoop` says whether the caller then runs the send loop itself,
     * which it does whenever no send is flagged as under way.
     */
    method AddEventToSend(eventPacketToSend: Option<seq<int>>) returns (runsSendLoop: bool)
      modifies this`tcpEventQueue
      ensures tcpEventQueue ==
        if eventPacketToSend.None? then old(tcpEventQueue) else old(tcpEventQueue) + [eventPacketToSend.value]
      ensures runsSendLoop <==> eventPacketToSend.Some? && !sendingEventsToOurUnityApplication
    {
      if eventPacketToSend.None? {
        return false;
      }
      tcpEventQueue := tcpEventQueue + [eventPacketToSend.value];
      runsSendLoop := !sendingEventsToOurUnityApplication;
    }

    /**
     * One accepted connection of the send loop: drain the whole queue,
     * prefixing each event with its length, and convert the result to bytes.
     * The conversion fails when some value does not fit in a byte; the
     * events are then already drained and are lost.
     */
    method SocketSendStep() returns (sent: Option<seq<uint8>>)
      modifies this`tcpEventQueue
      ensures tcpEventQueue == []
      ensures sent == if Sendable(old(tcpEventQueue)) then Some(JoinFrames(AsFrames(old(tcpEventQueue)))) else None
      ensures sent.Some? ==> ParseFrames(sent.value) == Some(AsFrames(old(tcpEventQueue)))
    {
      var bytesToSend: seq<int> := [];
      ghost var drained: seq<seq<int>> := [];
      while |tcpEventQueue| > 0
        invariant drained + tcpEventQueue == old(tcpEventQueue)
        invariant bytesToSend == PeerFraming(drained)
        decreases |tcpEventQueue|
      {
        var eventToAdd := tcpEventQueue[0];
        tcpEventQueue := tcpEventQueue[1..];
        PeerFramingAppend(drained, eventToAdd);
        drained := drained + [eventToAdd];
        eventToAdd := [|eventToAdd|] + eventToAdd;
        bytesToSend := bytesToSend + eventToAdd;
      }
      assert drained == old(tcpEventQueue);
      PeerFramingBytes(drained);
      if !(forall i | 0 <= i < |bytesToSend| :: 0 <= bytesToSend[i] < 0x100) {
        return None;
      }
      SentBufferSplitsBack(drained);
      return Some(bytesToSend);
    }
  }
}
