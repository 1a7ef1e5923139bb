/**
 * One player station of the cabinet: the draxboard input and output state,
 * the joystick axes after the station's transform, the device sub-states and
 * the printer's single-flight flag.
 */
module Station {
  import opened Bytes
  import opened BitMask

  /** The draxboard buttons; each is one bit of the input word. */
  datatype DraxButtonID =
    SHOOT_BUTTON | POWER_UP_BUTTON | REDEEM_BUTTON | MENU_BUTTON | ATTENDANT_KEY | SUPERVISOR_KEY |
    CREDIT | DISABLE_MACHINE | LOGIC_DOOR | CASH_DOOR | MAIN_DOOR

  /** The position of a button's bit in the input word. */
  function BitIndex(b: DraxButtonID): (k: nat)
    ensures k < 11
  {
    match b
    case SHOOT_BUTTON => 0
    case POWER_UP_BUTTON => 1
    case REDEEM_BUTTON => 2
    case MENU_BUTTON => 3
    case ATTENDANT_KEY => 4
    case SUPERVISOR_KEY => 5
    case CREDIT => 6
    case DISABLE_MACHINE => 7
    case LOGIC_DOOR => 8
    case CASH_DOOR => 9
    case MAIN_DOOR => 10
  }

  /** `(ushort)button`: the button's value as an input word. */
  function ButtonMask(b: DraxButtonID): (m: Mask)
    ensures forall i :: 0 <= i < 16 ==> (m[i] <==> i == BitIndex(b))
  {
    Bit(BitIndex(b))
  }

  /** Each button's word is `1 << k` for its bit `k`: 0x0001 for the shoot button up to 0x0400 for the main door. */
  lemma ButtonValues(b: DraxButtonID)
    ensures ValueOf(ButtonMask(b)) == Pow2(BitIndex(b))
    ensures ValueOf(ButtonMask(SHOOT_BUTTON)) == 0x0001 && ValueOf(ButtonMask(MAIN_DOOR)) == 0x0400
  {
    BitValue(BitIndex(b));
    BitValue(0);
    BitValue(10);
    assert Pow2(10) == 0x0400 by {
      assert Pow2(5) == 32;
    }
  }

  lemma BitIndexInjective(b: DraxButtonID, c: DraxButtonID)
    ensures BitIndex(b) == BitIndex(c) ==> b == c
  {
  }

  /** No two buttons share a bit. */
  lemma ButtonsDisjoint(b: DraxButtonID, c: DraxButtonID)
    requires b != c
    ensures !Any(And(ButtonMask(b), ButtonMask(c)))
  {
    BitIndexInjective(b, c);
    assert forall i :: 0 <= i < 16 ==> !And(ButtonMask(b), ButtonMask(c))[i];
  }

  /** The raw value of a centred joystick axis. */
  const JOYSTICK_AXIS_OFFSET: uint8 := 128

  datatype DraxboardState = DraxError | DraxConnected
  datatype JoystickState = JoystickError | JoystickConnected
  datatype BillAcceptorState =
    ERROR | NOT_INIT | POWER_UP | NOTE_STAY | IDLE | INHIBIT | UNIT_FAILURE | BOX_REMOVED | STACKER_JAMMED
  datatype PaperStatus = OUT_OF_PAPER | PAPER_LOW | PAPER_AVAILABLE

  /** Every field of a station at one instant, so that a method can state the whole new state at once. */
  datatype StationView = StationView(
    playerStationHash: uint32,
    draxOutputState: uint32,
    playerStationInputState: Mask,
    playerStationInputStatePressed: Mask,
    playerStationInputStateReleased: Mask,
    pressedPulses: seq<Mask>,
    releasedPulses: seq<Mask>,
    draxboardState: DraxboardState,
    draxVersionHigh: uint8,
    draxVersionLow: uint8,
    swapAxisValues: bool,
    invertXAxis: bool,
    invertYAxis: bool,
    joystickDeadzone: real,
    joystickXAxis: uint8,
    joystickYAxis: uint8,
    joystickState: JoystickState,
    billAcceptorType: uint8,
    billAcceptorState: BillAcceptorState,
    printJobQueued: bool,
    printerTypeAssignedToStation: uint8,
    paperAvailability: PaperStatus)

  /** A station as created: unassigned, every device in its error state, the default joystick settings. */
  const NewStationView: StationView := StationView(0, 0, NoBits, NoBits, NoBits, [], [], DraxError, 0, 0,
    true, false, false, 0.25, 0, 0, JoystickError, 0, ERROR, false, 0, OUT_OF_PAPER)

  // ------------------------------------------------------------ input bits

  /** The buttons that went down between two input states. */
  function PressedEdges(before: Mask, after: Mask): (m: Mask)
    ensures forall i :: 0 <= i < 16 ==> (m[i] <==> !before[i] && after[i])
  {
    And(Xor(before, after), after)
  }

  /** The buttons that came up between two input states. */
  function ReleasedEdges(before: Mask, after: Mask): (m: Mask)
    ensures forall i :: 0 <= i < 16 ==> (m[i] <==> before[i] && !after[i])
  {
    And(Xor(before, after), Not(after))
  }

  /** Every button that changed is reported exactly once, as pressed or as released. */
  lemma EdgesPartitionChanges(before: Mask, after: Mask)
    ensures Or(PressedEdges(before, after), ReleasedEdges(before, after)) == Xor(before, after)
    ensures And(PressedEdges(before, after), ReleasedEdges(before, after)) == NoBits
  {
    assert forall i :: 0 <= i < 16 ==> !And(PressedEdges(before, after), ReleasedEdges(before, after))[i];
  }

  /** A repeated input state reports no edges. */
  lemma SameStateNoEdges(s: Mask)
    ensures PressedEdges(s, s) == NoBits && ReleasedEdges(s, s) == NoBits
  {
    assert forall i :: 0 <= i < 16 ==> !PressedEdges(s, s)[i] && !ReleasedEdges(s, s)[i];
  }

  /** The bits set by a list of pending pulses. */
  function Union(pulses: seq<Mask>): (m: Mask)
  {
    if |pulses| == 0 then NoBits else Or(Union(pulses[..|pulses| - 1]), pulses[|pulses| - 1])
  }

  /** A bit is in the union exactly when some pulse holds it. */
  lemma {:induction false} UnionBit(pulses: seq<Mask>, j: nat)
    requires j < 16
    ensures Union(pulses)[j] <==> exists k :: 0 <= k < |pulses| && pulses[k][j]
  {
    if |pulses| > 0 {
      var init := pulses[..|pulses| - 1];
      UnionBit(init, j);
      if Union(init)[j] {
        var k :| 0 <= k < |init| && init[k][j];
        assert pulses[k] == init[k];
      }
      if exists k :: 0 <= k < |pulses| && pulses[k][j] {
        var k :| 0 <= k < |pulses| && pulses[k][j];
        if k < |init| {
          assert init[k] == pulses[k];
        }
      }
    }
  }

  lemma UnionAppend(pulses: seq<Mask>, b: Mask)
    ensures Union(pulses + [b]) == Or(Union(pulses), b)
  {
    assert (pulses + [b])[..|pulses|] == pulses;
  }

  lemma {:induction false} UnionConcat(a: seq<Mask>, b: seq<Mask>)
    ensures Union(a + b) == Or(Union(a), Union(b))
  {
    if |b| == 0 {
      assert a + b == a;
      assert Or(Union(a), NoBits) == Union(a);
    } else {
      var b' := b[..|b| - 1];
      assert a + b == (a + b') + [b[|b| - 1]];
      UnionConcat(a, b');
      UnionAppend(a + b', b[|b| - 1]);
      UnionAppend(b', b[|b| - 1]);
      assert Or(Or(Union(a), Union(b')), b[|b| - 1]) == Or(Union(a), Or(Union(b'), b[|b| - 1]));
    }
  }

  /** The single-bit pulses the bit loop starts for the set bits of `edges` below `n`, lowest first. */
  function EdgePulses(edges: Mask, n: nat): (r: seq<Mask>)
    requires n <= 16
    ensures |r| <= n
  {
    if n == 0 then []
    else EdgePulses(edges, n - 1) + (if edges[n - 1] then [Bit(n - 1)] else [])
  }

  /** Bit `i` of the loop adds a pressed pulse when the button went down and a released one when it came up. */
  lemma EdgePulsesStep(before: Mask, after: Mask, i: nat)
    requires i < 16
    ensures EdgePulses(PressedEdges(before, after), i + 1) ==
      EdgePulses(PressedEdges(before, after), i) + (if !before[i] && after[i] then [Bit(i)] else [])
    ensures EdgePulses(ReleasedEdges(before, after), i + 1) ==
      EdgePulses(ReleasedEdges(before, after), i) + (if before[i] && !after[i] then [Bit(i)] else [])
  {
  }

  /** One pulse per set bit of `edges`, lowest bit first. */
  function Pulses(edges: Mask): seq<Mask>
  {
    EdgePulses(edges, |edges|)
  }

  /** The pulses for the bits below `n` together set exactly those bits of `edges`. */
  lemma {:induction false} EdgePulsesCover(edges: Mask, n: nat)
    requires n <= 16
    ensures forall j :: 0 <= j < 16 ==> (Union(EdgePulses(edges, n))[j] <==> j < n && edges[j])
  {
    if n > 0 {
      EdgePulsesCover(edges, n - 1);
      if edges[n - 1] {
        UnionAppend(EdgePulses(edges, n - 1), Bit(n - 1));
      } else {
        assert EdgePulses(edges, n) == EdgePulses(edges, n - 1) + [];
        assert EdgePulses(edges, n - 1) + [] == EdgePulses(edges, n - 1);
      }
    }
  }

  /** Starting the pulses for `edges` adds exactly the bits of `edges` to the pulse word. */
  lemma PulsesAddEdges(pulses: seq<Mask>, edges: Mask)
    ensures Union(pulses + Pulses(edges)) == Or(Union(pulses), edges)
  {
    UnionConcat(pulses, Pulses(edges));
    EdgePulsesCover(edges, |edges|);
  }

  // -------------------------------------------------------------- joystick

  /** An axis turned the other way round: `(256 - v) mod 256`. */
  function Invert(v: uint8): (r: uint8)
    ensures (v + r) % 256 == 0
  {
    (256 - v) % 256
  }

  /** Inverting twice gives the axis back; 0 and the centre 128 are their own inverses. */
  lemma InvertInvolution(v: uint8)
    ensures Invert(Invert(v)) == v
    ensures Invert(v) == v <==> v == 0 || v == 128
  {
  }

  /** An axis whose raw value over 128 is below the dead zone is forced to 0, otherwise kept. */
  function ApplyDeadzone(v: uint8, deadzone: real): (r: uint8)
    ensures r == v || r == 0
    ensures r == 0 <==> v == 0 || (v as real) / 128.0 < deadzone
  {
    if (v as real) / 128.0 < deadzone then 0 else v
  }

  /** The raw pair, swapped, inverted and dead-zoned in that order, as the station stores it. */
  function JoystickTransform(rawX: uint8, rawY: uint8, swap: bool, invertX: bool, invertY: bool, deadzone: real)
    : (uint8, uint8)
  {
    var x0 := if swap then rawY else rawX;
    var y0 := if swap then rawX else rawY;
    var x1 := if invertX then Invert(x0) else x0;
    var y1 := if invertY then Invert(y0) else y0;
    (ApplyDeadzone(x1, deadzone), ApplyDeadzone(y1, deadzone))
  }

  /** A stored axis as a game value: `(v - 128) / 128`. */
  function AdjustJoystickAxisNormalized(v: uint8): (r: real)
    ensures -1.0 <= r <= 127.0 / 128.0
    ensures r * 128.0 + 128.0 == v as real
  {
    ((v as real) - (JOYSTICK_AXIS_OFFSET as real)) / (JOYSTICK_AXIS_OFFSET as real)
  }

  /** Clamps a sum of axes into [-1, 1]. */
  function ClampUnit(t: real): (r: real)
    ensures -1.0 <= r <= 1.0
    ensures -1.0 <= t <= 1.0 ==> r == t
    ensures t < -1.0 ==> r == -1.0
    ensures t > 1.0 ==> r == 1.0
  {
    if t < -1.0 then -1.0 else if t > 1.0 then 1.0 else t
  }

  /**
   * With the default settings (swap on, no inversion, dead zone 0.25) a
   * centred stick reads 0 on both axes, but the dead zone does not centre a
   * stick near the middle: raw 96 still reads -0.25, and any raw value below
   * 32 is forced to 0, which reads as full deflection -1.
   */
  lemma DeadzoneDoesNotCentre(raw: uint8)
    ensures var r := JoystickTransform(128, 128, true, false, false, 0.25);
            AdjustJoystickAxisNormalized(r.0) == 0.0 && AdjustJoystickAxisNormalized(r.1) == 0.0
    ensures AdjustJoystickAxisNormalized(JoystickTransform(128, 96, true, false, false, 0.25).0) == -0.25
    ensures raw < 32 ==>
      AdjustJoystickAxisNormalized(JoystickTransform(128, raw, true, false, false, 0.25).0) == -1.0
  {
  }

  /** With swap on, the horizontal axis comes from the raw vertical one, and the reverse. */
  lemma SwapExchangesAxes(rawX: uint8, rawY: uint8)
    ensures JoystickTransform(rawX, rawY, true, false, false, 0.0) == (rawY, rawX)
    ensures JoystickTransform(rawX, rawY, false, false, false, 0.0) == (rawX, rawY)
  {
  }

  // ----------------------------------------------------------------- class

  /** The view after a draxboard input word arrives: the new word, plus one pulse per changed bit. */
  function InputReceived(v: StationView, inputState: Mask): StationView
  {
    var pressed := PressedEdges(v.playerStationInputState, inputState);
    var released := ReleasedEdges(v.playerStationInputState, inputState);
    v.(playerStationInputState := inputState,
       playerStationInputStatePressed := Or(v.playerStationInputStatePressed, pressed),
       playerStationInputStateReleased := Or(v.playerStationInputStateReleased, released),
       pressedPulses := v.pressedPulses + Pulses(pressed),
       releasedPulses := v.releasedPulses + Pulses(released))
  }

  /** Every pulse bit belongs to a pulse still waiting for the end of the frame. */
  ghost predicate PulsesConsistent(v: StationView)
  {
    v.playerStationInputStatePressed == Union(v.pressedPulses) &&
    v.playerStationInputStateReleased == Union(v.releasedPulses)
  }

  /**
   * Receiving input keeps the pulse words consistent; afterwards a button
   * reads as pressed exactly when it was already pressed this frame or went
   * down now, and as released likewise, and it reads as held exactly when the
   * new word has its bit.
   */
  lemma InputReceivedSemantics(v: StationView, inputState: Mask)
    requires PulsesConsistent(v)
    ensures PulsesConsistent(InputReceived(v, inputState))
    ensures forall i :: 0 <= i < 16 ==>
      && (InputReceived(v, inputState).playerStationInputState[i] <==> inputState[i])
      && (InputReceived(v, inputState).playerStationInputStatePressed[i] <==>
            v.playerStationInputStatePressed[i] || (!v.playerStationInputState[i] && inputState[i]))
      && (InputReceived(v, inputState).playerStationInputStateReleased[i] <==>
            v.playerStationInputStateReleased[i] || (v.playerStationInputState[i] && !inputState[i]))
  {
    PulsesAddEdges(v.pressedPulses, PressedEdges(v.playerStationInputState, inputState));
    PulsesAddEdges(v.releasedPulses, ReleasedEdges(v.playerStationInputState, inputState));
  }

  /** The view after the end of the frame: both pulse words and their pulses are empty. */
  function FrameEnded(v: StationView): StationView
  {
    v.(playerStationInputStatePressed := NoBits, playerStationInputStateReleased := NoBits,
       pressedPulses := [], releasedPulses := [])
  }

  /** The view with new stored axes. */
  function WithAxes(v: StationView, x: uint8, y: uint8): StationView
  {
    v.(joystickXAxis := x, joystickYAxis := y)
  }

  /** The view after a raw joystick reading arrives: the axes as the station's own settings transform them. */
  function JoystickReceived(v: StationView, rawXAxis: uint8, rawYAxis: uint8): StationView
  {
    var axes := JoystickTransform(rawXAxis, rawYAxis, v.swapAxisValues, v.invertXAxis, v.invertYAxis,
                                  v.joystickDeadzone);
    WithAxes(v, axes.0, axes.1)
  }

  class PlayerStationData {
    /** The station's position in the cabinet, set once when the slots are created. */
    const playerStationIndex: int
    /** The draxboard's identity as the peer reports it; 0 means unassigned. */
    var playerStationHash: uint32
    var draxOutputState: uint32
    /** Buttons held now. */
    var playerStationInputState: Mask
    /** Buttons that went down this frame. */
    var playerStationInputStatePressed: Mask
    /** Buttons that came up this frame. */
    var playerStationInputStateReleased: Mask
    /** The pressed pulses started this frame, each waiting for the end of the frame to clear its bit. */
    var pressedPulses: seq<Mask>
    /** The released pulses started this frame, likewise. */
    var releasedPulses: seq<Mask>
    var draxboardState: DraxboardState
    var draxVersionHigh: uint8
    var draxVersionLow: uint8
    var swapAxisValues: bool
    var invertXAxis: bool
    var invertYAxis: bool
    var joystickDeadzone: real
    var joystickXAxis: uint8
    var joystickYAxis: uint8
    var joystickState: JoystickState
    var billAcceptorType: uint8
    var billAcceptorState: BillAcceptorState
    /** Set while a print job is out; cleared only by the peer's completion or error event. */
    var printJobQueued: bool
    var printerTypeAssignedToStation: uint8
    var paperAvailability: PaperStatus

    ghost function View(): StationView
      reads this
    {
      StationView(playerStationHash, draxOutputState, playerStationInputState,
        playerStationInputStatePressed, playerStationInputStateReleased, pressedPulses, releasedPulses,
        draxboardState, draxVersionHigh, draxVersionLow, swapAxisValues, invertXAxis, invertYAxis,
        joystickDeadzone, joystickXAxis, joystickYAxis, joystickState, billAcceptorType, billAcceptorState,
        printJobQueued, printerTypeAssignedToStation, paperAvailability)
    }

    /** Every pulse bit was set by a pulse still waiting for the end of the frame. */
    ghost predicate Valid()
      reads this
    {
      playerStationInputStatePressed == Union(pressedPulses) &&
      playerStationInputStateReleased == Union(releasedPulses)
    }

    /** A fresh station at `index`: unassigned, every device in its error state, the default joystick settings. */
    constructor (index: int)
      ensures playerStationIndex == index
      ensures View() == NewStationView
      ensures Valid()
    {
      playerStationIndex := index;
      playerStationHash := 0;
      draxOutputState := 0;
      playerStationInputState := NoBits;
      playerStationInputStatePressed := NoBits;
      playerStationInputStateReleased := NoBits;
      pressedPulses := [];
      releasedPulses := [];
      draxboardState := DraxError;
      draxVersionHigh := 0;
      draxVersionLow := 0;
      swapAxisValues := true;
      invertXAxis := false;
      invertYAxis := false;
      joystickDeadzone := 0.25;
      joystickXAxis := 0;
      joystickYAxis := 0;
      joystickState := JoystickError;
      billAcceptorType := 0;
      billAcceptorState := ERROR;
      printJobQueued := false;
      printerTypeAssignedToStation := 0;
      paperAvailability := OUT_OF_PAPER;
    }

    /**
     * Stores a new input state and, bit by bit over the changed bits, starts a
     * pressed pulse for every button that went down and a released pulse for
     * every button that came up.
     */
    method DraxInputStateReceived(inputState: Mask)
      requires Valid()
      modifies this`playerStationInputState, this`playerStationInputStatePressed, this`playerStationInputStateReleased
      modifies this`pressedPulses, this`releasedPulses
      ensures Valid()
      ensures View() == InputReceived(old(View()), inputState)
    {
      var deltaInputState := Xor(playerStationInputState, inputState);
      ghost var before := playerStationInputState;
      playerStationInputState := inputState;
      PulseChangedBits(deltaInputState, before);
      InputReceivedView(inputState);
    }

    /** A station whose input words and pulses moved as `InputReceived` says, and nothing else, has that view. */
    twostate lemma InputReceivedView(inputState: Mask)
      requires unchanged(this`playerStationHash, this`draxOutputState, this`draxboardState, this`draxVersionHigh)
      requires unchanged(this`draxVersionLow, this`swapAxisValues, this`invertXAxis, this`invertYAxis)
      requires unchanged(this`joystickDeadzone, this`joystickXAxis, this`joystickYAxis, this`joystickState)
      requires unchanged(this`billAcceptorType, this`billAcceptorState, this`printJobQueued)
      requires unchanged(this`printerTypeAssignedToStation, this`paperAvailability)
      requires playerStationInputState == inputState
      requires playerStationInputStatePressed ==
        Or(old(playerStationInputStatePressed), PressedEdges(old(playerStationInputState), inputState))
      requires playerStationInputStateReleased ==
        Or(old(playerStationInputStateReleased), ReleasedEdges(old(playerStationInputState), inputState))
      requires pressedPulses == old(pressedPulses) + Pulses(PressedEdges(old(playerStationInputState), inputState))
      requires releasedPulses == old(releasedPulses) + Pulses(ReleasedEdges(old(playerStationInputState), inputState))
      ensures View() == InputReceived(old(View()), inputState)
    {
    }

    /** The loop of `DraxInputStateReceived`: one pulse per set bit of `bitArray`, pressed or released as the new word says. */
    method PulseChangedBits(bitArray: Mask, ghost before: Mask)
      requires Valid() && bitArray == Xor(before, playerStationInputState)
      modifies this`playerStationInputStatePressed, this`playerStationInputStateReleased
      modifies this`pressedPulses, this`releasedPulses
      ensures Valid()
      ensures pressedPulses == old(pressedPulses) + Pulses(PressedEdges(before, playerStationInputState))
      ensures releasedPulses == old(releasedPulses) + Pulses(ReleasedEdges(before, playerStationInputState))
      ensures playerStationInputStatePressed ==
        Or(old(playerStationInputStatePressed), PressedEdges(before, playerStationInputState))
      ensures playerStationInputStateReleased ==
        Or(old(playerStationInputStateReleased), ReleasedEdges(before, playerStationInputState))
    {
      var inputState := playerStationInputState;
      ghost var pressedEdges := PressedEdges(before, inputState);
      ghost var releasedEdges := ReleasedEdges(before, inputState);
      for i := 0 to |bitArray|
        invariant Valid()
        invariant pressedPulses == old(pressedPulses) + EdgePulses(pressedEdges, i)
        invariant releasedPulses == old(releasedPulses) + EdgePulses(releasedEdges, i)
      {
        EdgePulsesStep(before, inputState, i);
        PulseBit(bitArray, before, i);
      }
      PulsesAddEdges(old(pressedPulses), pressedEdges);
      PulsesAddEdges(old(releasedPulses), releasedEdges);
    }

    /** Bit `i` of that loop: a changed bit starts a pressed pulse when it is now set and a released one when it is now clear. */
    method PulseBit(bitArray: Mask, ghost before: Mask, i: nat)
      requires Valid() && i < 16 && bitArray == Xor(before, playerStationInputState)
      modifies this`playerStationInputStatePressed, this`playerStationInputStateReleased
      modifies this`pressedPulses, this`releasedPulses
      ensures Valid()
      ensures pressedPulses ==
        old(pressedPulses) + (if !before[i] && playerStationInputState[i] then [Bit(i)] else [])
      ensures releasedPulses ==
        old(releasedPulses) + (if before[i] && !playerStationInputState[i] then [Bit(i)] else [])
    {
      if bitArray[i] {
        var ushortDeltaButton := Bit(i);
        AnyAndBit(playerStationInputState, i);
        if Any(And(playerStationInputState, ushortDeltaButton)) {
          ButtonWasPressed(ushortDeltaButton);
        } else {
          ButtonWasReleased(ushortDeltaButton);
        }
      }
    }

    /** The first half of the pressed pulse: the button reads as pressed until the frame ends. */
    method ButtonWasPressed(button: Mask)
      requires Valid()
      modifies this`playerStationInputStatePressed, this`pressedPulses
      ensures Valid()
      ensures playerStationInputStatePressed == Or(old(playerStationInputStatePressed), button)
      ensures pressedPulses == old(pressedPulses) + [button]
    {
      UnionAppend(pressedPulses, button);
      playerStationInputStatePressed := Or(playerStationInputStatePressed, button);
      pressedPulses := pressedPulses + [button];
    }

    /** The first half of the released pulse: the button reads as released until the frame ends. */
    method ButtonWasReleased(button: Mask)
      requires Valid()
      modifies this`playerStationInputStateReleased, this`releasedPulses
      ensures Valid()
      ensures playerStationInputStateReleased == Or(old(playerStationInputStateReleased), button)
      ensures releasedPulses == old(releasedPulses) + [button]
    {
      UnionAppend(releasedPulses, button);
      playerStationInputStateReleased := Or(playerStationInputStateReleased, button);
      releasedPulses := releasedPulses + [button];
    }

    /**
     * The end of the frame: every waiting pulse clears its own bit, in the
     * order the pulses started. Since every pulse bit belongs to a waiting
     * pulse, both pulse words end up empty.
     */
    method EndOfFrame()
      requires Valid()
      modifies this`playerStationInputStatePressed, this`playerStationInputStateReleased
      modifies this`pressedPulses, this`releasedPulses
      ensures Valid()
      ensures View() == FrameEnded(old(View()))
    {
      EndPressedPulses();
      EndReleasedPulses();
      FrameEndedView();
    }

    /** A station whose pulse words and pulses were emptied, and nothing else, has the `FrameEnded` view. */
    twostate lemma FrameEndedView()
      requires unchanged(this`playerStationHash, this`draxOutputState, this`playerStationInputState)
      requires unchanged(this`draxboardState, this`draxVersionHigh, this`draxVersionLow, this`swapAxisValues)
      requires unchanged(this`invertXAxis, this`invertYAxis, this`joystickDeadzone, this`joystickXAxis)
      requires unchanged(this`joystickYAxis, this`joystickState, this`billAcceptorType)
      requires unchanged(this`billAcceptorState, this`printJobQueued)
      requires unchanged(this`printerTypeAssignedToStation, this`paperAvailability)
      requires playerStationInputStatePressed == NoBits && playerStationInputStateReleased == NoBits
      requires pressedPulses == [] && releasedPulses == []
      ensures View() == FrameEnded(old(View()))
    {
    }

    /** The second half of every pressed pulse: each clears its bit. */
    method EndPressedPulses()
      requires Valid()
      modifies this`playerStationInputStatePressed, this`pressedPulses
      ensures Valid()
      ensures playerStationInputStatePressed == NoBits && pressedPulses == []
    {
      var pending := pressedPulses;
      forall j | 0 <= j < 16 {
        UnionBit(pending, j);
      }
      for k := 0 to |pending|
        invariant forall j :: 0 <= j < 16 && playerStationInputStatePressed[j] ==>
          exists k' :: k <= k' < |pending| && pending[k'][j]
      {
        playerStationInputStatePressed := And(playerStationInputStatePressed, Not(pending[k]));
      }
      assert playerStationInputStatePressed == NoBits;
      pressedPulses := [];
    }

    /** The second half of every released pulse: each clears its bit. */
    method EndReleasedPulses()
      requires Valid()
      modifies this`playerStationInputStateReleased, this`releasedPulses
      ensures Valid()
      ensures playerStationInputStateReleased == NoBits && releasedPulses == []
    {
      var pending := releasedPulses;
      forall j | 0 <= j < 16 {
        UnionBit(pending, j);
      }
      for k := 0 to |pending|
        invariant forall j :: 0 <= j < 16 && playerStationInputStateReleased[j] ==>
          exists k' :: k <= k' < |pending| && pending[k'][j]
      {
        playerStationInputStateReleased := And(playerStationInputStateReleased, Not(pending[k]));
      }
      assert playerStationInputStateReleased == NoBits;
      releasedPulses := [];
    }

    /** Stores a joystick reading after the station's swap, inversion and dead zone. */
    method SetFromRawJoystickValues(rawXAxis: uint8, rawYAxis: uint8)
      modifies this`joystickXAxis, this`joystickYAxis
      ensures old(Valid()) ==> Valid()
      ensures View() == JoystickReceived(old(View()), rawXAxis, rawYAxis)
    {
      var x: uint8, y: uint8;
      if !swapAxisValues {
        x, y := rawXAxis, rawYAxis;
      } else {
        x, y := rawYAxis, rawXAxis;
      }
      if invertXAxis {
        x := (256 - x) % 256;
      }
      if invertYAxis {
        y := (256 - y) % 256;
      }
      if (x as real) / 128.0 < joystickDeadzone {
        x := 0;
      }
      if (y as real) / 128.0 < joystickDeadzone {
        y := 0;
      }
      joystickXAxis, joystickYAxis := x, y;
      AxesView((rawXAxis, rawYAxis));
    }

    /** A station whose axes, and nothing else, now hold the transformed reading `raw` has the `JoystickReceived` view. */
    twostate lemma AxesView(raw: (uint8, uint8))
      requires unchanged(this`playerStationHash, this`draxOutputState, this`playerStationInputState)
      requires unchanged(this`playerStationInputStatePressed, this`playerStationInputStateReleased)
      requires unchanged(this`pressedPulses, this`releasedPulses, this`draxboardState, this`draxVersionHigh)
      requires unchanged(this`draxVersionLow, this`swapAxisValues, this`invertXAxis, this`invertYAxis)
      requires unchanged(this`joystickDeadzone, this`joystickState, this`billAcceptorType)
      requires unchanged(this`billAcceptorState, this`printJobQueued)
      requires unchanged(this`printerTypeAssignedToStation, this`paperAvailability)
      requires (joystickXAxis, joystickYAxis) ==
        JoystickTransform(raw.0, raw.1, swapAxisValues, invertXAxis, invertYAxis, joystickDeadzone)
      ensures old(Valid()) ==> Valid()
      ensures View() == JoystickReceived(old(View()), raw.0, raw.1)
    {
    }

    /** A print job went out: block further jobs until the peer answers. */
    method PrintSentWaitingForResponse()
      modifies this`printJobQueued
      ensures old(Valid()) ==> Valid()
      ensures printJobQueued
      ensures View() == old(View()).(printJobQueued := true)
    {
      printJobQueued := true;
    }

    /** The hash, the input words and the pending pulses kept their values. */
    twostate predicate InputUnchanged()
      reads this
    {
      && unchanged(this`playerStationHash, this`playerStationInputState)
      && unchanged(this`playerStationInputStatePressed, this`playerStationInputStateReleased)
      && unchanged(this`pressedPulses, this`releasedPulses)
    }

    /** The joystick settings and the stored axes kept their values. */
    twostate predicate JoystickUnchanged()
      reads this
    {
      unchanged(this`swapAxisValues, this`invertXAxis, this`invertYAxis, this`joystickDeadzone,
                this`joystickXAxis, this`joystickYAxis)
    }

    /** A station whose draxboard state and firmware version, and nothing else, changed. */
    twostate lemma DraxboardView()
      requires InputUnchanged() && JoystickUnchanged()
      requires unchanged(this`draxOutputState, this`joystickState, this`billAcceptorType, this`billAcceptorState)
      requires unchanged(this`printJobQueued, this`printerTypeAssignedToStation, this`paperAvailability)
      ensures old(Valid()) ==> Valid()
      ensures View() == old(View()).(draxboardState := draxboardState, draxVersionHigh := draxVersionHigh,
                                     draxVersionLow := draxVersionLow)
    {
    }

    /** A station whose draxboard state, and nothing else, changed. */
    twostate lemma DraxboardStateView()
      requires InputUnchanged() && JoystickUnchanged()
      requires unchanged(this`draxOutputState, this`draxVersionHigh, this`draxVersionLow, this`joystickState)
      requires unchanged(this`billAcceptorType, this`billAcceptorState, this`printJobQueued)
      requires unchanged(this`printerTypeAssignedToStation, this`paperAvailability)
      ensures old(Valid()) ==> Valid()
      ensures View() == old(View()).(draxboardState := draxboardState)
    {
    }

    /** A station whose draxboard output word, and nothing else, changed. */
    twostate lemma DraxOutputView()
      requires InputUnchanged() && JoystickUnchanged()
      requires unchanged(this`draxboardState, this`draxVersionHigh, this`draxVersionLow, this`joystickState)
      requires unchanged(this`billAcceptorType, this`billAcceptorState, this`printJobQueued)
      requires unchanged(this`printerTypeAssignedToStation, this`paperAvailability)
      ensures old(Valid()) ==> Valid()
      ensures View() == old(View()).(draxOutputState := draxOutputState)
    {
    }

    /** A station whose joystick state, and nothing else, changed. */
    twostate lemma JoystickStateView()
      requires InputUnchanged() && JoystickUnchanged()
      requires unchanged(this`draxOutputState, this`draxboardState, this`draxVersionHigh, this`draxVersionLow)
      requires unchanged(this`billAcceptorType, this`billAcceptorState, this`printJobQueued)
      requires unchanged(this`printerTypeAssignedToStation, this`paperAvailability)
      ensures old(Valid()) ==> Valid()
      ensures View() == old(View()).(joystickState := joystickState)
    {
    }

    /** A station whose bill acceptor state, and nothing else, changed. */
    twostate lemma BillAcceptorStateView()
      requires InputUnchanged() && JoystickUnchanged()
      requires unchanged(this`draxOutputState, this`draxboardState, this`draxVersionHigh, this`draxVersionLow)
      requires unchanged(this`joystickState, this`billAcceptorType, this`printJobQueued)
      requires unchanged(this`printerTypeAssignedToStation, this`paperAvailability)
      ensures old(Valid()) ==> Valid()
      ensures View() == old(View()).(billAcceptorState := billAcceptorState)
    {
    }

    /** A station whose paper status and printer type, and nothing else, changed. */
    twostate lemma PrinterView()
      requires InputUnchanged() && JoystickUnchanged()
      requires unchanged(this`draxOutputState, this`draxboardState, this`draxVersionHigh, this`draxVersionLow)
      requires unchanged(this`joystickState, this`billAcceptorType, this`billAcceptorState, this`printJobQueued)
      ensures old(Valid()) ==> Valid()
      ensures View() == old(View()).(paperAvailability := paperAvailability,
                                     printerTypeAssignedToStation := printerTypeAssignedToStation)
    {
    }

    /** A station whose print flag, and nothing else, changed. */
    twostate lemma PrintFlagView()
      requires InputUnchanged() && JoystickUnchanged()
      requires unchanged(this`draxOutputState, this`draxboardState, this`draxVersionHigh, this`draxVersionLow)
      requires unchanged(this`joystickState, this`billAcceptorType, this`billAcceptorState)
      requires unchanged(this`printerTypeAssignedToStation, this`paperAvailability)
      ensures old(Valid()) ==> Valid()
      ensures View() == old(View()).(printJobQueued := printJobQueued)
    {
    }

    /** A station whose axis-swap setting, and nothing else, changed. */
    twostate lemma SwapSettingView()
      requires InputUnchanged()
      requires unchanged(this`invertXAxis, this`invertYAxis, this`joystickDeadzone, this`joystickXAxis, this`joystickYAxis)
      requires unchanged(this`draxOutputState, this`draxboardState, this`draxVersionHigh, this`draxVersionLow)
      requires unchanged(this`joystickState, this`billAcceptorType, this`billAcceptorState, this`printJobQueued)
      requires unchanged(this`printerTypeAssignedToStation, this`paperAvailability)
      ensures old(Valid()) ==> Valid()
      ensures View() == old(View()).(swapAxisValues := swapAxisValues)
    {
    }
  }
}
