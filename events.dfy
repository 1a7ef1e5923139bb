/**
 * What each frame from the peer does, stated on values: the outcome of its
 * handler, given whether the station hash it names is bound, and the new
 * view of that station. The bridge's handlers are proved to follow these.
 */
module Events {
  import opened Bytes
  import opened BitMask
  import opened Frames
  import opened Station

  /** What leaves an event handler: normal completion or the exception the handler throws. */
  datatype Outcome = Completed | IndexOutOfRange | NullReference

  /**
   * The outcome of handling frame `p` as event `eventId` when the frame's
   * station hash is `bound` or not. A handler throws when it reads a byte
   * past the end of the frame, which the handlers that first look the
   * station up only do for a bound station; a disconnection of a draxboard
   * or joystick whose station is not bound dereferences the missing station.
   */
  function HandledOutcome(eventId: uint8, p: seq<uint8>, bound: bool): (r: Outcome)
    ensures r == NullReference ==> eventId == DEVICE_DISCONNECTED && !bound
    ensures r == IndexOutOfRange ==> |p| < 9
    ensures |p| >= 9 ==> r != IndexOutOfRange
  {
    if eventId == DEVICE_CONNECTED then
      if |p| < 6 || (p[5] == DRAX_ID && |p| < 9) then IndexOutOfRange else Completed
    else if eventId == DEVICE_DISCONNECTED then
      if |p| < 6 then IndexOutOfRange
      else if (p[5] == DRAX_ID || p[5] == JOYSTICK_ID) && !bound then NullReference
      else Completed
    else if eventId == DRAX_INPUT_EVENT || eventId == JOYSTICK_INPUT_EVENT then
      if bound && |p| < 7 then IndexOutOfRange else Completed
    else if eventId == DRAX_OUTPUT_EVENT then
      if bound && |p| < 9 then IndexOutOfRange else Completed
    else if eventId == PRINT_ERROR_EVENT then
      if bound && |p| < 5 then IndexOutOfRange else Completed
    else Completed
  }

  /**
   * The view of the station `p` names after its handler completed: a
   * draxboard input frame stores its input word and starts its pulses, and
   * every other event acts as `DeviceEventView` says.
   */
  function HandledView(eventId: uint8, p: seq<uint8>, v: StationView): (r: StationView)
    ensures r.playerStationHash == v.playerStationHash
    ensures r.printJobQueued ==
      (v.printJobQueued && eventId != PRINT_COMPLETE_EVENT && eventId != PRINT_ERROR_EVENT)
    ensures r.swapAxisValues == v.swapAxisValues && r.invertXAxis == v.invertXAxis
    ensures r.invertYAxis == v.invertYAxis && r.joystickDeadzone == v.joystickDeadzone
  {
    if eventId != DRAX_INPUT_EVENT then DeviceEventView(eventId, p, v)
    else if |p| >= 7 then InputReceived(v, MaskOf(DraxInputMask(p)))
    else v
  }

  /**
   * The view after an event other than draxboard input: a connection marks
   * the device connected (a draxboard also records its firmware version), a
   * disconnection marks a draxboard or joystick in error, output and joystick
   * frames store what they carry, and a print completion or print error frees
   * the printer. Every other event leaves the station as it was, and none
   * touches the input words or the pulses.
   */
  function DeviceEventView(eventId: uint8, p: seq<uint8>, v: StationView): (r: StationView)
    requires eventId != DRAX_INPUT_EVENT
    ensures r.playerStationHash == v.playerStationHash
    ensures r.printJobQueued ==
      (v.printJobQueued && eventId != PRINT_COMPLETE_EVENT && eventId != PRINT_ERROR_EVENT)
    ensures r.swapAxisValues == v.swapAxisValues && r.invertXAxis == v.invertXAxis
    ensures r.invertYAxis == v.invertYAxis && r.joystickDeadzone == v.joystickDeadzone
    ensures && r.playerStationInputState == v.playerStationInputState
            && r.playerStationInputStatePressed == v.playerStationInputStatePressed
            && r.playerStationInputStateReleased == v.playerStationInputStateReleased
            && r.pressedPulses == v.pressedPulses && r.releasedPulses == v.releasedPulses
  {
    if eventId == DEVICE_CONNECTED && |p| >= 6 then
      if p[5] == DRAX_ID && |p| >= 9 then
        v.(draxboardState := DraxConnected, draxVersionHigh := p[6], draxVersionLow := p[7])
      else if p[5] == BILL_ACCEPTOR_ID then v.(billAcceptorState := NOT_INIT)
      else if p[5] == JOYSTICK_ID then v.(joystickState := JoystickConnected)
      else if p[5] == PRINTER_ID then v.(paperAvailability := OUT_OF_PAPER, printerTypeAssignedToStation := CUSTOM_TG02)
      else v
    else if eventId == DEVICE_DISCONNECTED && |p| >= 6 then
      if p[5] == DRAX_ID then v.(draxboardState := DraxError)
      else if p[5] == JOYSTICK_ID then v.(joystickState := JoystickError)
      else v
    else if eventId == DRAX_OUTPUT_EVENT && |p| >= 9 then v.(draxOutputState := DraxOutputState(p))
    else if eventId == JOYSTICK_INPUT_EVENT && |p| >= 7 then JoystickReceived(v, p[5], p[6])
    else if eventId == PRINT_COMPLETE_EVENT || eventId == PRINT_ERROR_EVENT then v.(printJobQueued := false)
    else v
  }

  /** No event breaks a station's pulse bookkeeping. */
  lemma HandledKeepsPulses(eventId: uint8, p: seq<uint8>, v: StationView)
    requires PulsesConsistent(v)
    ensures PulsesConsistent(HandledView(eventId, p, v))
  {
    if eventId == DRAX_INPUT_EVENT && |p| >= 7 {
      InputReceivedSemantics(v, MaskOf(DraxInputMask(p)));
    }
  }

  /**
   * Only a draxboard input frame touches the input words, and then a button
   * reads as held exactly when the frame's word has its bit, and as pressed
   * (released) exactly when it already was this frame or just went down (up).
   */
  lemma DraxInputEventSemantics(p: seq<uint8>, v: StationView, b: DraxButtonID)
    requires |p| >= 7 && PulsesConsistent(v)
    ensures var r := HandledView(DRAX_INPUT_EVENT, p, v);
      var k := BitIndex(b);
      && (r.playerStationInputState[k] <==> MaskOf(DraxInputMask(p))[k])
      && (r.playerStationInputStatePressed[k] <==>
            v.playerStationInputStatePressed[k] || (!v.playerStationInputState[k] && MaskOf(DraxInputMask(p))[k]))
      && (r.playerStationInputStateReleased[k] <==>
            v.playerStationInputStateReleased[k] || (v.playerStationInputState[k] && !MaskOf(DraxInputMask(p))[k]))
  {
    InputReceivedSemantics(v, MaskOf(DraxInputMask(p)));
  }

  /** At the end of a frame in which no input arrived, the station is already as the end of the frame leaves it. */
  lemma FrameEndedIdle(v: StationView)
    requires PulsesConsistent(v) && v.pressedPulses == [] && v.releasedPulses == []
    ensures FrameEnded(v) == v
  {
  }
}
