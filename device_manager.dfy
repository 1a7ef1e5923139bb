/**
 * The peer's device manager: the list of started devices and the
 * per-parent-path containers that group a player station's devices.
 * Devices are objects, so the list tests membership by identity, as the
 * peer's list does for device objects.
 */
module DeviceManager {
  import opened Wrappers

  datatype DeviceKind = JoystickKind | PrinterKind | DraxboardKind | BillAcceptorKind | OmnidongleKind

  /**
   * A device as its start routine leaves it: its kind, the USB parent path
   * that names its player station (or none), and the address the manager
   * compares to spot a device already listed (a joystick's physical path, a
   * draxboard's comport, a printer's port numbers; none when the device holds
   * no underlying handle).
   */
  class Device {
    const kind: DeviceKind
    const deviceParentPath: Option<string>
    const address: Option<string>

    constructor (kind: DeviceKind, deviceParentPath: Option<string>, address: Option<string>)
      ensures this.kind == kind && this.deviceParentPath == deviceParentPath && this.address == address
    {
      this.kind := kind;
      this.deviceParentPath := deviceParentPath;
      this.address := address;
    }
  }

  /** The devices of one player station, one slot per kind; an empty slot is `null`. */
  class PlayerStationContainer {
    var connectedDraxBoard: Device?
    var connectedBillAcceptor: Device?
    var connectedJoystick: Device?
    var connectedPrinter: Device?

    constructor ()
      ensures connectedDraxBoard == null && connectedBillAcceptor == null
      ensures connectedJoystick == null && connectedPrinter == null
    {
      connectedDraxBoard := null;
      connectedBillAcceptor := null;
      connectedJoystick := null;
      connectedPrinter := null;
    }

    /** Empties the slot that holds devices of `kind`; an omnidongle has no slot. */
    method ClearSlot(kind: DeviceKind)
      modifies this
      ensures connectedJoystick == if kind == JoystickKind then null else old(connectedJoystick)
      ensures connectedPrinter == if kind == PrinterKind then null else old(connectedPrinter)
      ensures connectedDraxBoard == if kind == DraxboardKind then null else old(connectedDraxBoard)
      ensures connectedBillAcceptor == if kind == BillAcceptorKind then null else old(connectedBillAcceptor)
    {
      if kind == JoystickKind {
        connectedJoystick := null;
      } else if kind == PrinterKind {
        connectedPrinter := null;
      } else if kind == DraxboardKind {
        connectedDraxBoard := null;
      } else if kind == BillAcceptorKind {
        connectedBillAcceptor := null;
      }
    }
  }

  /** No device object is listed twice. */
  ghost predicate NoDuplicates(devices: seq<Device>)
  {
    forall i, j :: 0 <= i < j < |devices| ==> devices[i] != devices[j]
  }

  /** No two listed draxboards share a comport. */
  ghost predicate DraxboardPortsDistinct(devices: seq<Device>)
  {
    forall i, j ::
      0 <= i < j < |devices| && devices[i].kind == DraxboardKind && devices[j].kind == DraxboardKind
      && devices[i].address.Some?
      ==> devices[i].address != devices[j].address
  }

  /** Some listed draxboard sits on `port`. */
  predicate DraxboardListed(devices: seq<Device>, port: string)
  {
    exists i :: 0 <= i < |devices| && devices[i].kind == DraxboardKind && devices[i].address == Some(port)
  }

  /** Some listed printer holds a handle on `portNumbers`; printers without a handle are passed over. */
  predicate PrinterListed(devices: seq<Device>, portNumbers: string)
  {
    exists i :: 0 <= i < |devices| && devices[i].kind == PrinterKind && devices[i].address == Some(portNumbers)
  }

  /**
   * The scan for a joystick on `phys`, first device first: the first joystick
   * that either matches or holds no handle decides, a match giving true and a
   * missing handle failing (`None`); with neither the answer is false.
   */
  function JoystickScan(devices: seq<Device>, phys: string): Option<bool>
  {
    if devices == [] then Some(false)
    else if devices[0].kind == JoystickKind && devices[0].address.None? then None
    else if devices[0].kind == JoystickKind && devices[0].address == Some(phys) then Some(true)
    else JoystickScan(devices[1..], phys)
  }

  /** Whether the scan fails, finds or misses, in terms of the list. */
  lemma {:induction false} JoystickScanMeaning(devices: seq<Device>, phys: string)
    ensures JoystickScan(devices, phys) == Some(true) ==>
      exists i :: 0 <= i < |devices| && devices[i].kind == JoystickKind && devices[i].address == Some(phys)
    ensures JoystickScan(devices, phys) == Some(false) <==>
      forall i :: 0 <= i < |devices| && devices[i].kind == JoystickKind ==>
        devices[i].address.Some? && devices[i].address != Some(phys)
    ensures JoystickScan(devices, phys).None? ==>
      exists i :: 0 <= i < |devices| && devices[i].kind == JoystickKind && devices[i].address.None?
  {
    if devices != [] {
      JoystickScanMeaning(devices[1..], phys);
      var r := JoystickScan(devices[1..], phys);
      if r == Some(true) {
        var i :| 0 <= i < |devices[1..]| && devices[1..][i].kind == JoystickKind && devices[1..][i].address == Some(phys);
        assert devices[i + 1] == devices[1..][i];
      }
      if r.None? {
        var i :| 0 <= i < |devices[1..]| && devices[1..][i].kind == JoystickKind && devices[1..][i].address.None?;
        assert devices[i + 1] == devices[1..][i];
      }
      forall i | 1 <= i < |devices|
        ensures devices[i] == devices[1..][i - 1]
      {
      }
    }
  }

  /** The list without the first occurrence of `d`. */
  function RemoveFirst(devices: seq<Device>, d: Device): (r: seq<Device>)
    ensures d in devices ==> |r| == |devices| - 1
    ensures d !in devices ==> r == devices
  {
    if devices == [] then []
    else if devices[0] == d then devices[1..]
    else [devices[0]] + RemoveFirst(devices[1..], d)
  }

  /** Removing a device from a list without duplicates drops exactly it and keeps the rest in order and unique. */
  lemma {:induction false} RemoveFirstUnique(devices: seq<Device>, d: Device)
    requires NoDuplicates(devices)
    ensures NoDuplicates(RemoveFirst(devices, d))
    ensures forall e :: e in RemoveFirst(devices, d) <==> e in devices && e != d
  {
    if devices != [] && devices[0] != d {
      assert NoDuplicates(devices[1..]) by {
        forall i, j | 0 <= i < j < |devices[1..]|
          ensures devices[1..][i] != devices[1..][j]
        {
          assert devices[1..][i] == devices[i + 1] && devices[1..][j] == devices[j + 1];
        }
      }
      RemoveFirstUnique(devices[1..], d);
      var rest := RemoveFirst(devices[1..], d);
      assert devices[0] !in devices[1..] by {
        forall k | 0 <= k < |devices[1..]|
          ensures devices[1..][k] != devices[0]
        {
          assert devices[1..][k] == devices[k + 1];
        }
      }
      assert NoDuplicates([devices[0]] + rest) by {
        forall i, j | 0 <= i < j < |[devices[0]] + rest|
          ensures ([devices[0]] + rest)[i] != ([devices[0]] + rest)[j]
        {
          if i > 0 {
            assert ([devices[0]] + rest)[i] == rest[i - 1];
          }
          assert ([devices[0]] + rest)[j] == rest[j - 1];
        }
      }
    } else if devices != [] {
      assert forall e :: e in devices[1..] ==> e != d by {
        forall k | 0 <= k < |devices[1..]|
          ensures devices[1..][k] != d
        {
          assert devices[1..][k] == devices[k + 1];
        }
      }
      assert NoDuplicates(devices[1..]) by {
        forall i, j | 0 <= i < j < |devices[1..]|
          ensures devices[1..][i] != devices[1..][j]
        {
          assert devices[1..][i] == devices[i + 1] && devices[1..][j] == devices[j + 1];
        }
      }
    }
  }

  /** What `add_new_device` reports. The dictionary step's exception ends the caller. */
  datatype AddOutcome = Added | AlreadyAdded | StartFailed | DictionaryAttributeError

  class DragonMasterDeviceManager {
    /** Every device that started and was not removed since. */
    var allConnectedDevices: seq<Device>
    /** Parent USB path to the container of that player station's devices. */
    var playerStationDictionary: map<string, PlayerStationContainer>

    ghost predicate Valid()
      reads this
    {
      NoDuplicates(allConnectedDevices)
    }

    /** A manager with no devices and no player stations; the endless search loop it then enters is not part of the model. */
    constructor ()
      ensures Valid()
      ensures allConnectedDevices == [] && playerStationDictionary == map[]
    {
      allConnectedDevices := [];
      playerStationDictionary := map[];
    }

    /**
     * The dictionary step after a device started. A device without a parent
     * path is only reported. With one, the step fails with an attribute
     * error: a new path is added through a method dictionaries do not have,
     * and a known path is read through attributes of the dictionary itself,
     * except for an omnidongle, which has no slot. Nothing changes either way.
     */
    method AddNewDeviceToPlayerStationDictionary(deviceToAdd: Device) returns (raised: bool)
      ensures raised <==>
        deviceToAdd.deviceParentPath.Some? &&
        !(deviceToAdd.deviceParentPath.value in playerStationDictionary && deviceToAdd.kind == OmnidongleKind)
    {
      if deviceToAdd.deviceParentPath.None? {
        return false;
      }
      var path := deviceToAdd.deviceParentPath.value;
      if path !in playerStationDictionary {
        return true;
      }
      raised := deviceToAdd.kind != OmnidongleKind;
    }

    /**
     * Adds a device whose start routine reported `started`: a device already
     * listed is refused, one that failed to start is left out, and a started
     * one is appended before the dictionary step runs.
     */
    method AddNewDevice(deviceToAdd: Device, started: bool) returns (outcome: AddOutcome)
      requires Valid()
      modifies this`allConnectedDevices
      ensures Valid()
      ensures deviceToAdd in old(allConnectedDevices) ==>
        outcome == AlreadyAdded && allConnectedDevices == old(allConnectedDevices)
      ensures deviceToAdd !in old(allConnectedDevices) && !started ==>
        outcome == StartFailed && allConnectedDevices == old(allConnectedDevices)
      ensures deviceToAdd !in old(allConnectedDevices) && started ==>
        && allConnectedDevices == old(allConnectedDevices) + [deviceToAdd]
        && (outcome == DictionaryAttributeError <==>
              deviceToAdd.deviceParentPath.Some? &&
              !(deviceToAdd.deviceParentPath.value in playerStationDictionary && deviceToAdd.kind == OmnidongleKind))
        && (outcome == DictionaryAttributeError || outcome == Added)
    {
      if deviceToAdd in allConnectedDevices {
        return AlreadyAdded;
      }
      if !started {
        return StartFailed;
      }
      allConnectedDevices := allConnectedDevices + [deviceToAdd];
      var raised := AddNewDeviceToPlayerStationDictionary(deviceToAdd);
      outcome := if raised then DictionaryAttributeError else Added;
    }

    /**
     * Empties the slot of the device's kind in the container of its parent
     * path. A null device, a device without a parent path, a path with no
     * container and an omnidongle change nothing.
     */
    method RemoveDeviceFromPlayerStationDictionary(deviceToRemove: Device?)
      modifies playerStationDictionary.Values
      ensures deviceToRemove == null || deviceToRemove.deviceParentPath.None? ||
              deviceToRemove.deviceParentPath.value !in playerStationDictionary ==>
        forall c :: c in playerStationDictionary.Values ==> unchanged(c)
      ensures deviceToRemove != null && deviceToRemove.deviceParentPath.Some? &&
              deviceToRemove.deviceParentPath.value in playerStationDictionary ==>
        var c := playerStationDictionary[deviceToRemove.deviceParentPath.value];
        var kind := deviceToRemove.kind;
        && c.connectedJoystick == (if kind == JoystickKind then null else old(c.connectedJoystick))
        && c.connectedPrinter == (if kind == PrinterKind then null else old(c.connectedPrinter))
        && c.connectedDraxBoard == (if kind == DraxboardKind then null else old(c.connectedDraxBoard))
        && c.connectedBillAcceptor == (if kind == BillAcceptorKind then null else old(c.connectedBillAcceptor))
        && forall o :: o in playerStationDictionary.Values && o != c ==> unchanged(o)
    {
      if deviceToRemove == null || deviceToRemove.deviceParentPath.None? {
        return;
      }
      var path := deviceToRemove.deviceParentPath.value;
      if path !in playerStationDictionary {
        return;
      }
      playerStationDictionary[path].ClearSlot(deviceToRemove.kind);
    }

    /**
     * Removes a listed device: its slot in its player station is emptied and
     * its first occurrence leaves the list. A null or unlisted device changes
     * nothing.
     */
    method RemoveDevice(deviceToRemove: Device?)
      requires Valid()
      modifies this`allConnectedDevices, playerStationDictionary.Values
      ensures Valid()
      ensures deviceToRemove == null || deviceToRemove !in old(allConnectedDevices) ==>
        allConnectedDevices == old(allConnectedDevices) &&
        forall c :: c in playerStationDictionary.Values ==> unchanged(c)
      ensures deviceToRemove != null && deviceToRemove in old(allConnectedDevices) ==>
        && allConnectedDevices == RemoveFirst(old(allConnectedDevices), deviceToRemove)
        && deviceToRemove !in allConnectedDevices
        && forall e :: e in allConnectedDevices <==> e in old(allConnectedDevices) && e != deviceToRemove
      ensures deviceToRemove != null && deviceToRemove in old(allConnectedDevices) &&
              (deviceToRemove.deviceParentPath.None? ||
               deviceToRemove.deviceParentPath.value !in playerStationDictionary) ==>
        forall c :: c in playerStationDictionary.Values ==> unchanged(c)
      ensures deviceToRemove != null && deviceToRemove in old(allConnectedDevices) &&
              deviceToRemove.deviceParentPath.Some? &&
              deviceToRemove.deviceParentPath.value in playerStationDictionary ==>
        var c := playerStationDictionary[deviceToRemove.deviceParentPath.value];
        var kind := deviceToRemove.kind;
        && c.connectedJoystick == (if kind == JoystickKind then null else old(c.connectedJoystick))
        && c.connectedPrinter == (if kind == PrinterKind then null else old(c.connectedPrinter))
        && c.connectedDraxBoard == (if kind == DraxboardKind then null else old(c.connectedDraxBoard))
        && c.connectedBillAcceptor == (if kind == BillAcceptorKind then null else old(c.connectedBillAcceptor))
        && forall o :: o in playerStationDictionary.Values && o != c ==> unchanged(o)
    {
      if deviceToRemove == null {
        return;
      }
      if deviceToRemove in allConnectedDevices {
        RemoveDeviceFromPlayerStationDictionary(deviceToRemove);
        RemoveFirstUnique(allConnectedDevices, deviceToRemove);
        allConnectedDevices := RemoveFirst(allConnectedDevices, deviceToRemove);
      }
    }

    /** Whether a joystick on `phys` is listed; `None` when the scan reaches a joystick without a handle first. */
    method DeviceManagerContainsJoystick(phys: string) returns (r: Option<bool>)
      ensures r == JoystickScan(allConnectedDevices, phys)
    {
      var k := 0;
      while k < |allConnectedDevices|
        invariant 0 <= k <= |allConnectedDevices|
        invariant JoystickScan(allConnectedDevices, phys) == JoystickScan(allConnectedDevices[k..], phys)
      {
        var dev := allConnectedDevices[k];
        assert allConnectedDevices[k..][0] == dev && allConnectedDevices[k..][1..] == allConnectedDevices[k + 1..];
        if dev.kind == JoystickKind {
          if dev.address.None? {
            return None;
          }
          if dev.address == Some(phys) {
            return Some(true);
          }
        }
        k := k + 1;
      }
      return Some(false);
    }

    /** Whether a draxboard on comport `port` is listed. */
    method DeviceManagerContainsDraxboard(port: string) returns (r: bool)
      ensures r <==> DraxboardListed(allConnectedDevices, port)
    {
      for k := 0 to |allConnectedDevices|
        invariant !DraxboardListed(allConnectedDevices[..k], port)
      {
        var dev := allConnectedDevices[k];
        if dev.kind == DraxboardKind && dev.address == Some(port) {
          return true;
        }
        assert allConnectedDevices[..k + 1] == allConnectedDevices[..k] + [dev];
      }
      assert allConnectedDevices[..|allConnectedDevices|] == allConnectedDevices;
      return false;
    }

    /** Whether a printer with a handle on `portNumbers` is listed. */
    method DeviceManagerContainsPrinter(portNumbers: string) returns (r: bool)
      ensures r <==> PrinterListed(allConnectedDevices, portNumbers)
    {
      for k := 0 to |allConnectedDevices|
        invariant !PrinterListed(allConnectedDevices[..k], portNumbers)
      {
        var dev := allConnectedDevices[k];
        if dev.kind == PrinterKind && dev.address != None && dev.address == Some(portNumbers) {
          return true;
        }
        assert allConnectedDevices[..k + 1] == allConnectedDevices[..k] + [dev];
      }
      assert allConnectedDevices[..|allConnectedDevices|] == allConnectedDevices;
      return false;
    }

    /**
     * The draxboard pass of a device search. Each present element whose port
     * is not yet listed gets a new draxboard, which is added if its start
     * routine reports the matching entry of `started`. The new draxboard's
     * port is the element and it has no parent path, so its dictionary step
     * only reports; the Python draxboard has neither attribute.
     */
    method SearchForDraxboards(elements: seq<Option<string>>, started: seq<bool>)
      requires Valid() && |started| == |elements|
      modifies this`allConnectedDevices
      ensures Valid()
      ensures old(allConnectedDevices) <= allConnectedDevices
      ensures DraxboardPortsDistinct(old(allConnectedDevices)) ==> DraxboardPortsDistinct(allConnectedDevices)
      ensures forall k :: 0 <= k < |elements| && elements[k].Some? && started[k] ==>
        DraxboardListed(allConnectedDevices, elements[k].value)
      ensures forall d :: d in allConnectedDevices && d !in old(allConnectedDevices) ==>
        d.kind == DraxboardKind && d.address in elements
    {
      for k := 0 to |elements|
        invariant Valid()
        invariant old(allConnectedDevices) <= allConnectedDevices
        invariant DraxboardPortsDistinct(old(allConnectedDevices)) ==> DraxboardPortsDistinct(allConnectedDevices)
        invariant forall j :: 0 <= j < k && elements[j].Some? && started[j] ==>
          DraxboardListed(allConnectedDevices, elements[j].value)
        invariant forall d :: d in allConnectedDevices && d !in old(allConnectedDevices) ==>
          d.kind == DraxboardKind && d.address in elements
      {
        var draxElement := elements[k];
        if draxElement.Some? {
          var listed := DeviceManagerContainsDraxboard(draxElement.value);
          if !listed {
            var draxboard := new Device(DraxboardKind, None, draxElement);
            ghost var before := allConnectedDevices;
            var outcome := AddNewDevice(draxboard, started[k]);
            if started[k] {
              DraxboardAppended(before, draxboard);
            }
          }
        }
      }
    }
  }

  /** Appending a draxboard on a port no listed draxboard uses keeps ports distinct and keeps every listing. */
  lemma DraxboardAppended(devices: seq<Device>, d: Device)
    requires d.kind == DraxboardKind && d.address.Some? && !DraxboardListed(devices, d.address.value)
    ensures DraxboardPortsDistinct(devices) ==> DraxboardPortsDistinct(devices + [d])
    ensures DraxboardListed(devices + [d], d.address.value)
    ensures forall port :: DraxboardListed(devices, port) ==> DraxboardListed(devices + [d], port)
  {
    var s := devices + [d];
    assert s[|devices|] == d;
    forall port | DraxboardListed(devices, port)
      ensures DraxboardListed(s, port)
    {
      var i :| 0 <= i < |devices| && devices[i].kind == DraxboardKind && devices[i].address == Some(port);
      assert s[i] == devices[i];
    }
  }
}
