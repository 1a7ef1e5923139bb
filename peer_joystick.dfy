/**
 * The peer's joystick device: the axis pair the read loop keeps up to date
 * and the pair last handed on, and the send that queues a joystick frame for
 * the bridge only when the two differ.
 */
module PeerJoystick {
  import opened Wrappers
  import opened PeerTransport

  /** The event id of a joystick frame. */
  const JOYSTICK_INPUT_EVENT: int := 0x21
  /** The neutral position of either axis; axis values run from 0 to 255. */
  const NEUTRAL_AXIS: int := 128

  /** What the input device reports: a synchronisation marker, a new X or Y value, or anything else. */
  datatype AxisEvent = Syn | AbsX(value: int) | AbsY(value: int) | OtherEvent

  /** The axes after one event: an X event replaces x, a Y event replaces y, and other events keep both. */
  function AxesAfter(axes: (int, int), event: AxisEvent): (r: (int, int))
    ensures event.AbsX? ==> r.0 == event.value && r.1 == axes.1
    ensures event.AbsY? ==> r.1 == event.value && r.0 == axes.0
    ensures !event.AbsX? && !event.AbsY? ==> r == axes
  {
    match event
    case AbsX(v) => (v, axes.1)
    case AbsY(v) => (axes.0, v)
    case _ => axes
  }

  /** The axes after a run of events, first event first. */
  function AxesAfterAll(axes: (int, int), events: seq<AxisEvent>): (int, int)
    decreases |events|
  {
    if events == [] then axes else AxesAfterAll(AxesAfter(axes, events[0]), events[1..])
  }

  lemma {:induction false} AxesAfterAllAppend(axes: (int, int), events: seq<AxisEvent>, e: AxisEvent)
    ensures AxesAfterAll(axes, events + [e]) == AxesAfter(AxesAfterAll(axes, events), e)
    decreases |events|
  {
    if events != [] {
      assert (events + [e])[1..] == events[1..] + [e];
      AxesAfterAllAppend(AxesAfter(axes, events[0]), events[1..], e);
    }
  }

  /**
   * After a run of events, x is the value of the last X event (the old x when
   * there is none), and y likewise: each axis only ever follows its own events.
   */
  lemma {:induction false} AxesFollowLastEvent(axes: (int, int), events: seq<AxisEvent>)
    ensures (forall k :: 0 <= k < |events| ==> !events[k].AbsX?) ==> AxesAfterAll(axes, events).0 == axes.0
    ensures (forall k :: 0 <= k < |events| ==> !events[k].AbsY?) ==> AxesAfterAll(axes, events).1 == axes.1
    ensures forall k :: 0 <= k < |events| && events[k].AbsX? && (forall j :: k < j < |events| ==> !events[j].AbsX?) ==>
      AxesAfterAll(axes, events).0 == events[k].value
    ensures forall k :: 0 <= k < |events| && events[k].AbsY? && (forall j :: k < j < |events| ==> !events[j].AbsY?) ==>
      AxesAfterAll(axes, events).1 == events[k].value
    decreases |events|
  {
    if events != [] {
      var e := events[|events| - 1];
      var front := events[..|events| - 1];
      assert events == front + [e];
      AxesAfterAllAppend(axes, front, e);
      AxesFollowLastEvent(axes, front);
      forall k | 0 <= k < |front|
        ensures front[k] == events[k]
      {
      }
    }
  }

  class Joystick {
    /** The station the joystick reports for; the peer never changes it from 0. */
    var playerStationID: int
    /** The input device being read, by its physical path; `None` once disconnected. */
    var joystickDevice: Option<string>
    var currentAxes: (int, int)
    var lastSentAxes: (int, int)

    /** A joystick with no device yet, centred, with the centred pair counted as sent. */
    constructor ()
      ensures playerStationID == 0 && joystickDevice == None
      ensures currentAxes == (NEUTRAL_AXIS, NEUTRAL_AXIS) && lastSentAxes == (NEUTRAL_AXIS, NEUTRAL_AXIS)
    {
      playerStationID := 0;
      joystickDevice := None;
      currentAxes := (NEUTRAL_AXIS, NEUTRAL_AXIS);
      lastSentAxes := (NEUTRAL_AXIS, NEUTRAL_AXIS);
    }

    /** Takes hold of the input device and reports success; the read thread it starts is `ReadLoopStep`. */
    method StartDevice(deviceElement: string) returns (started: bool)
      modifies this`joystickDevice
      ensures started && joystickDevice == Some(deviceElement)
    {
      joystickDevice := Some(deviceElement);
      return true;
    }

    /** Lets go of the input device, which ends the read loop at its next event. */
    method DisconnectDevice()
      modifies this`joystickDevice
      ensures joystickDevice == None
    {
      joystickDevice := None;
    }

    /**
     * One event of the read loop. A disconnected joystick ends the loop and
     * changes nothing. Otherwise the event updates the axes, and a pair that
     * differs from the last one handed on becomes the last one handed on,
     * without anything being queued.
     */
    method ReadLoopStep(event: AxisEvent) returns (continues: bool)
      modifies this`currentAxes, this`lastSentAxes
      ensures continues <==> joystickDevice.Some?
      ensures !continues ==> currentAxes == old(currentAxes) && lastSentAxes == old(lastSentAxes)
      ensures continues ==> currentAxes == AxesAfter(old(currentAxes), event) && lastSentAxes == currentAxes
    {
      if joystickDevice.None? {
        return false;
      }
      if event != Syn {
        if event.AbsX? {
          currentAxes := (event.value, currentAxes.1);
        }
        if event.AbsY? {
          currentAxes := (currentAxes.0, event.value);
        }
      }
      if currentAxes != lastSentAxes {
        lastSentAxes := currentAxes;
      }
      return true;
    }

    /**
     * The read loop over a run of events while the joystick stays connected:
     * the axes follow every event and end up counted as sent.
     */
    method JoystickAxesUpdateThread(events: seq<AxisEvent>)
      modifies this`currentAxes, this`lastSentAxes
      ensures joystickDevice.None? ==> currentAxes == old(currentAxes) && lastSentAxes == old(lastSentAxes)
      ensures joystickDevice.Some? ==> currentAxes == AxesAfterAll(old(currentAxes), events)
      ensures joystickDevice.Some? && events != [] ==> lastSentAxes == currentAxes
    {
      var k := 0;
      while k < |events|
        invariant 0 <= k <= |events|
        invariant joystickDevice.None? ==> k == 0 && currentAxes == old(currentAxes) && lastSentAxes == old(lastSentAxes)
        invariant joystickDevice.Some? ==> currentAxes == AxesAfterAll(old(currentAxes), events[..k])
        invariant joystickDevice.Some? && k > 0 ==> lastSentAxes == currentAxes
      {
        var continues := ReadLoopStep(events[k]);
        if !continues {
          return;
        }
        assert events[..k + 1] == events[..k] + [events[k]];
        AxesAfterAllAppend(old(currentAxes), events[..k], events[k]);
        k := k + 1;
      }
      assert events[..k] == events;
    }

    /**
     * Queues the frame `[0x21, station, x, y]` for the bridge when the axes
     * moved since the last pair handed on, and records them as handed on. A
     * value outside a byte cannot become a byte array: nothing is queued and
     * the call fails (`false`).
     */
    method SendUpdatedJoystickToUnityApplication(tcp: PeerTCPManager) returns (ok: bool)
      modifies this`lastSentAxes, tcp`tcpEventQueue
      ensures currentAxes == lastSentAxes ==> ok
      ensures old(currentAxes == lastSentAxes) || !ok ==>
        tcp.tcpEventQueue == old(tcp.tcpEventQueue) && lastSentAxes == old(lastSentAxes)
      ensures old(currentAxes != lastSentAxes) && ok ==>
        && tcp.tcpEventQueue == old(tcp.tcpEventQueue) + [[JOYSTICK_INPUT_EVENT, playerStationID, currentAxes.0, currentAxes.1]]
        && lastSentAxes == currentAxes
      ensures old(currentAxes != lastSentAxes) ==>
        (ok <==> AllBytes([JOYSTICK_INPUT_EVENT, playerStationID, currentAxes.0, currentAxes.1]))
    {
      ok := true;
      if currentAxes != lastSentAxes {
        var packet := [JOYSTICK_INPUT_EVENT, playerStationID, currentAxes.0, currentAxes.1];
        if !(forall i | 0 <= i < |packet| :: 0 <= packet[i] < 0x100) {
          return false;
        }
        var _ := tcp.AddEventToSend(Some(packet));
        lastSentAxes := currentAxes;
      }
    }
  }
}
