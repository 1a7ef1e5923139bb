/**
 * The bridge itself: the ten player-station slots, the dictionary that binds
 * station hashes to slots, the dispatcher for frames from the peer, the
 * commands the game sends, the printer's single-flight flag and the quit
 * handshake. One Unity frame is `Update` followed by `EndOfFrame`.
 */
module IOManager {
  import opened Bytes
  import opened Wrappers
  import opened BitMask
  import opened Frames
  import opened Transport
  import opened Station
  import opened Text
  import opened Events

  /** The length of the slot array created at start-up. */
  const MAX_PLAYER_STATIONS: nat := 10

  /** A slot found through a player index: none bound, the bound station, or the dictionary's missing-key exception. */
  datatype IndexLookup = NoStation | StationAt(station: PlayerStationData) | MissingKey

  /** Event ids the dispatcher routes to a handler; any other id is only logged. */
  const HandledEventIds: set<uint8> := {
    DEVICE_CONNECTED, DEVICE_DISCONNECTED, OMNI_EVENT, DRAX_INPUT_EVENT, DRAX_OUTPUT_EVENT, DRAX_METER_ERROR,
    JOYSTICK_INPUT_EVENT, PRINT_COMPLETE_EVENT, PRINT_ERROR_EVENT, PRINTER_STATE_EVENT,
    BA_BILL_INSERTED_EVENT, BA_BILL_ACCEPTED_EVENT, BA_BILL_REJECTED_EVENT, BA_BILL_RETURNED_EVENT,
    BA_BILL_STATE_UPDATE_EVENT }

  /** No element occurs twice. */
  ghost predicate Distinct<T>(s: seq<T>)
  {
    forall a, b :: 0 <= a < |s| && 0 <= b < |s| && s[a] == s[b] ==> a == b
  }

  /**
   * The registry, stated on values: `hashes[i]` is the hash slot `i` holds.
   * 0 is never a key, every key leads to a slot, a slot some key leads to
   * holds a non-zero hash, and every non-zero slot hash is a key, so a
   * lookup through a player index never misses.
   */
  ghost predicate RegistryInvariant(dict: map<uint32, PlayerStationData>, hashes: seq<uint32>,
                                    slots: seq<PlayerStationData>)
  {
    && |hashes| == |slots|
    && 0 !in dict
    && dict.Values <= (set i | 0 <= i < |slots| :: slots[i])
    && (forall i :: 0 <= i < |slots| && slots[i] in dict.Values ==> hashes[i] != 0)
    && (forall i :: 0 <= i < |hashes| && hashes[i] != 0 ==> hashes[i] in dict)
  }

  /** A slot reached through its index is found: its hash, when not 0, is a key. */
  lemma IndexLookupFindsKey(dict: map<uint32, PlayerStationData>, hashes: seq<uint32>,
                            slots: seq<PlayerStationData>, i: nat)
    requires RegistryInvariant(dict, hashes, slots) && i < |hashes|
    ensures hashes[i] != 0 ==> hashes[i] in dict && dict[hashes[i]] in slots
  {
    if hashes[i] != 0 {
      assert dict[hashes[i]] in dict.Values;
    }
  }

  /**
   * Binding a hash to a slot that already holds some hash keeps the registry
   * sound; the slot keeps its own hash, which may differ from the new key.
   */
  lemma BindToAssignedSlot(dict: map<uint32, PlayerStationData>, hashes: seq<uint32>,
                           slots: seq<PlayerStationData>, hash: uint32, i: nat)
    requires RegistryInvariant(dict, hashes, slots) && Distinct(slots)
    requires hash != 0 && i < |slots| && hashes[i] != 0
    ensures RegistryInvariant(dict[hash := slots[i]], hashes, slots)
  {
    var dict' := dict[hash := slots[i]];
    forall k | 0 <= k < |slots| && slots[k] in dict'.Values
      ensures hashes[k] != 0
    {
      var u :| u in dict' && dict'[u] == slots[k];
      if u != hash {
        assert dict[u] in dict.Values;
      }
    }
    forall s | s in dict'.Values
      ensures s in (set j | 0 <= j < |slots| :: slots[j])
    {
      var u :| u in dict' && dict'[u] == s;
      if u != hash {
        assert dict[u] in dict.Values;
      }
    }
  }

  /**
   * Giving slot `i` the hash `hash` and binding `hash` to it keeps the
   * registry sound. The slot's previous hash stays a key leading to it, and a
   * slot that held `hash` before keeps it and now reaches slot `i`.
   */
  lemma {:induction false} AssignKeepsRegistry(dict: map<uint32, PlayerStationData>, hashes: seq<uint32>,
                                               slots: seq<PlayerStationData>, hash: uint32, i: nat)
    requires RegistryInvariant(dict, hashes, slots) && Distinct(slots)
    requires hash != 0 && i < |slots|
    ensures RegistryInvariant(dict[hash := slots[i]], hashes[i := hash], slots)
    ensures forall j :: 0 <= j < |slots| && hashes[j] == hash ==>
      dict[hash := slots[i]][hashes[i := hash][j]] == slots[i]
  {
    var dict' := dict[hash := slots[i]];
    var hashes' := hashes[i := hash];
    forall k | 0 <= k < |slots| && slots[k] in dict'.Values
      ensures hashes'[k] != 0
    {
      var u :| u in dict' && dict'[u] == slots[k];
      if k != i && u != hash {
        assert dict[u] in dict.Values;
      }
    }
    forall s | s in dict'.Values
      ensures s in (set j | 0 <= j < |slots| :: slots[j])
    {
      var u :| u in dict' && dict'[u] == s;
      if u != hash {
        assert dict[u] in dict.Values;
      }
    }
  }

  class DragonMasterIOManager {
    const associatedTCPManager: TCPManager
    /** Slot `i` is player station `i`; the slots are created once and never replaced. */
    const playerStationDataOrderList: seq<PlayerStationData>
    /** Station hash to slot. A key is never removed, and its slot need not carry that hash. */
    var playerStationDeviceDictionary: map<uint32, PlayerStationData>
    var applicationQuitDelayed: bool
    var applicationReadyToQuit: bool

    /**
     * The TCP manager's own invariant, the slot array and the registry, and
     * the quit flags' order. The three parts read disjoint state, so an
     * operation on one leaves the others standing.
     */
    ghost predicate Valid()
      reads this, associatedTCPManager, playerStationDataOrderList
    {
      && associatedTCPManager.Valid()
      && SlotsValid()
      && RegistryValid()
      && (applicationReadyToQuit ==> applicationQuitDelayed)
    }

    /** Slot `i` is the station with index `i`, and each station's pulse words agree with its pulses. */
    ghost predicate SlotsValid()
      reads playerStationDataOrderList
    {
      && |playerStationDataOrderList| == MAX_PLAYER_STATIONS
      && (forall i :: 0 <= i < |playerStationDataOrderList| ==>
            playerStationDataOrderList[i].playerStationIndex == i && playerStationDataOrderList[i].Valid())
    }

    /** The hash each slot holds, in slot order. */
    ghost function SlotHashes(): (hashes: seq<uint32>)
      reads playerStationDataOrderList
      ensures |hashes| == |playerStationDataOrderList|
      ensures forall i :: 0 <= i < |hashes| ==> hashes[i] == playerStationDataOrderList[i].playerStationHash
    {
      seq(|playerStationDataOrderList|, i reads playerStationDataOrderList
        requires 0 <= i < |playerStationDataOrderList| => playerStationDataOrderList[i].playerStationHash)
    }

    ghost predicate RegistryValid()
      reads this, playerStationDataOrderList
    {
      RegistryInvariant(playerStationDeviceDictionary, SlotHashes(), playerStationDataOrderList)
    }

    /** Slot `i` holds the station with index `i`, so no station sits in two slots. */
    lemma SlotsDistinct()
      requires SlotsValid()
      ensures Distinct(playerStationDataOrderList)
    {
      forall a, b | 0 <= a < |playerStationDataOrderList| && 0 <= b < |playerStationDataOrderList| &&
                    playerStationDataOrderList[a] == playerStationDataOrderList[b]
        ensures a == b
      {
        assert playerStationDataOrderList[a].playerStationIndex == a;
      }
    }

    /** Every slot other than `target` keeps all of its fields. */
    twostate predicate OtherSlotsUnchanged(target: Option<PlayerStationData>)
      reads playerStationDataOrderList
    {
      forall i :: 0 <= i < |playerStationDataOrderList| && Some(playerStationDataOrderList[i]) != target ==>
        unchanged(playerStationDataOrderList[i])
    }

    /** The packets waiting to be sent. */
    ghost function Outbound(): seq<seq<uint8>>
      reads associatedTCPManager
    {
      associatedTCPManager.queuedPacketsToSend
    }

    /** Both mailboxes of the TCP manager kept their contents. */
    twostate predicate MailboxesUnchanged()
      reads associatedTCPManager
    {
      && associatedTCPManager.upcomingBytePacket == old(associatedTCPManager.upcomingBytePacket)
      && associatedTCPManager.receivedBytePacket == old(associatedTCPManager.receivedBytePacket)
    }

    /**
     * Start-up: the TCP manager is created and the keepalive loop queues its
     * first status packet at once; then the ten slots are created with their
     * indices. Nothing is bound yet.
     */
    constructor ()
      ensures Valid()
      ensures fresh(associatedTCPManager)
      ensures associatedTCPManager.queuedPacketsToSend == [QueuedPacket(STATUS_FROM_UNITY, 0)]
      ensures associatedTCPManager.upcomingBytePacket == None && associatedTCPManager.receivedBytePacket == None
      ensures forall i :: 0 <= i < |playerStationDataOrderList| ==>
        fresh(playerStationDataOrderList[i]) &&
        playerStationDataOrderList[i].View() == NewStationView
      ensures playerStationDeviceDictionary == map[]
      ensures !applicationQuitDelayed && !applicationReadyToQuit
    {
      var tcp := new TCPManager();
      tcp.QueueEventToSendToPythonApplication(Some(QueuedPacket(STATUS_FROM_UNITY, 0)));
      var slots := CreatePlayerStations();
      associatedTCPManager := tcp;
      playerStationDataOrderList := slots;
      playerStationDeviceDictionary := map[];
      applicationQuitDelayed := false;
      applicationReadyToQuit := false;
      new;
      assert forall i :: 0 <= i < |slots| ==> slots[i].playerStationHash == 0;
      assert RegistryValid();
    }

    /** The slot loop of start-up: ten fresh stations, each created with its own index. */
    static method CreatePlayerStations() returns (slots: seq<PlayerStationData>)
      ensures |slots| == MAX_PLAYER_STATIONS
      ensures forall j :: 0 <= j < |slots| ==>
        fresh(slots[j]) && slots[j].playerStationIndex == j && slots[j].Valid() &&
        slots[j].View() == NewStationView
    {
      slots := [];
      for i := 0 to MAX_PLAYER_STATIONS
        invariant |slots| == i
        invariant forall j :: 0 <= j < i ==>
          fresh(slots[j]) && slots[j].playerStationIndex == j && slots[j].Valid() &&
          slots[j].View() == NewStationView
      {
        var station := new PlayerStationData(i);
        slots := slots + [station];
      }
    }

    // ------------------------------------------------------------- registry

    /** The slot bound to a hash, if the hash is a key. */
    function GetPlayerStationDataFromPlayerStationHash(playerStationHash: uint32): (r: Option<PlayerStationData>)
      reads this
      ensures r.Some? <==> playerStationHash in playerStationDeviceDictionary
      ensures r.Some? ==> r.value == playerStationDeviceDictionary[playerStationHash]
    {
      if playerStationHash !in playerStationDeviceDictionary then None
      else Some(playerStationDeviceDictionary[playerStationHash])
    }

    /** The hash held by slot `playerStationIndex`; 0 for an index outside the slot array. */
    function GetPlayerStationHashFromPlayerStationIndex(playerStationIndex: int): (hash: uint32)
      reads playerStationDataOrderList
      ensures hash != 0 ==> 0 <= playerStationIndex < |playerStationDataOrderList|
    {
      if playerStationIndex < 0 || playerStationIndex >= |playerStationDataOrderList| then 0
      else playerStationDataOrderList[playerStationIndex].playerStationHash
    }

    /**
     * The station reached through a player index: no station when the slot
     * holds no hash, otherwise the dictionary entry for the slot's hash, which
     * throws when that hash is not a key.
     */
    function GetPlayerStationDataFromPlayerStationIndexInOverseer(playerStationIndex: int): (r: IndexLookup)
      reads this, playerStationDataOrderList
      ensures r == NoStation <==> GetPlayerStationHashFromPlayerStationIndex(playerStationIndex) == 0
      ensures r.StationAt? ==>
        var hash := GetPlayerStationHashFromPlayerStationIndex(playerStationIndex);
        hash in playerStationDeviceDictionary && r.station == playerStationDeviceDictionary[hash]
    {
      var hash := GetPlayerStationHashFromPlayerStationIndex(playerStationIndex);
      if hash == 0 then NoStation
      else if hash !in playerStationDeviceDictionary then MissingKey
      else StationAt(playerStationDeviceDictionary[hash])
    }

    /** In a valid registry a lookup through an index never throws, and finds a station exactly for a bound slot. */
    lemma IndexLookupNeverMisses(playerStationIndex: int)
      requires Valid()
      ensures !GetPlayerStationDataFromPlayerStationIndexInOverseer(playerStationIndex).MissingKey?
      ensures GetPlayerStationDataFromPlayerStationIndexInOverseer(playerStationIndex).StationAt? <==>
        0 <= playerStationIndex < MAX_PLAYER_STATIONS &&
        playerStationDataOrderList[playerStationIndex].playerStationHash != 0
    {
    }

    /** A key always leads to one of the slots, which holds a hash. */
    lemma BoundStationIsSlot(playerStationHash: uint32)
      requires Valid() && playerStationHash in playerStationDeviceDictionary
      ensures playerStationDeviceDictionary[playerStationHash] in playerStationDataOrderList
      ensures playerStationDeviceDictionary[playerStationHash].playerStationHash != 0
    {
      assert playerStationDeviceDictionary[playerStationHash] in playerStationDeviceDictionary.Values;
    }

    /** The station a lookup through an index finds, if any. */
    function StationAtIndex(playerStationIndex: int): (r: Option<PlayerStationData>)
      requires Valid()
      reads this, associatedTCPManager, playerStationDataOrderList
      ensures r.Some? ==> r.value in playerStationDataOrderList
      ensures r.Some? <==> GetPlayerStationHashFromPlayerStationIndex(playerStationIndex) != 0
    {
      var lookup := GetPlayerStationDataFromPlayerStationIndexInOverseer(playerStationIndex);
      if lookup.StationAt? then
        BoundStationIsSlot(GetPlayerStationHashFromPlayerStationIndex(playerStationIndex));
        Some(lookup.station)
      else None
    }

    /** The first slot holding `playerStationHash`, or -1; always -1 for the unassigned hash 0. */
    method GetPlayerStationIndexFromPlayerStationHash(playerStationHash: uint32) returns (index: int)
      ensures index == -1 || 0 <= index < |playerStationDataOrderList|
      ensures 0 <= index ==>
        && playerStationHash != 0
        && playerStationDataOrderList[index].playerStationHash == playerStationHash
        && forall j :: 0 <= j < index ==> playerStationDataOrderList[j].playerStationHash != playerStationHash
      ensures index == -1 ==>
        || playerStationHash == 0
        || forall j :: 0 <= j < |playerStationDataOrderList| ==>
             playerStationDataOrderList[j].playerStationHash != playerStationHash
    {
      if playerStationHash == 0 {
        return -1;
      }
      for i := 0 to |playerStationDataOrderList|
        invariant forall j :: 0 <= j < i ==> playerStationDataOrderList[j].playerStationHash != playerStationHash
      {
        if playerStationHash == playerStationDataOrderList[i].playerStationHash {
          return i;
        }
      }
      return -1;
    }

    /** Binds `playerStationHash` to `associatedPlayerStationData`, replacing any earlier binding; hash 0 is refused. */
    method AddPlayerStationToDeviceDictionaryIfNotAssigned(playerStationHash: uint32,
                                                          associatedPlayerStationData: PlayerStationData)
      modifies this`playerStationDeviceDictionary
      ensures playerStationDeviceDictionary ==
        if playerStationHash == 0 then old(playerStationDeviceDictionary)
        else old(playerStationDeviceDictionary)[playerStationHash := associatedPlayerStationData]
    {
      if playerStationHash == 0 {
        return;
      }
      playerStationDeviceDictionary := playerStationDeviceDictionary[playerStationHash := associatedPlayerStationData];
    }

    /** The dictionary with `hash` bound to slot `index`, when `hash` is not 0 and the slot holds a hash. */
    ghost function BindAtIndex(hash: uint32, index: int): map<uint32, PlayerStationData>
      reads this, playerStationDataOrderList
    {
      if hash != 0 && GetPlayerStationHashFromPlayerStationIndex(index) != 0
      then playerStationDeviceDictionary[hash := playerStationDataOrderList[index]]
      else playerStationDeviceDictionary
    }

    /**
     * Binds `playerStationHash` to slot `playerStationIndex`, but only when
     * the index is in range and the slot ALREADY holds a hash; an unassigned
     * slot is left alone, and the slot's own hash is never changed.
     */
    method AddPlayerStationToDeviceDictionaryIfNotAssignedAtIndex(playerStationHash: uint32, playerStationIndex: int)
      requires Valid()
      modifies this`playerStationDeviceDictionary
      ensures Valid()
      ensures playerStationDeviceDictionary == old(BindAtIndex(playerStationHash, playerStationIndex))
    {
      if playerStationHash == 0 {
        return;
      }
      if playerStationIndex < 0 || playerStationIndex >= |playerStationDataOrderList| {
        return;
      }
      if playerStationDataOrderList[playerStationIndex].playerStationHash == 0 {
        return;
      } else {
        SlotsDistinct();
        BindToAssignedSlot(playerStationDeviceDictionary, SlotHashes(), playerStationDataOrderList,
                           playerStationHash, playerStationIndex);
        AddPlayerStationToDeviceDictionaryIfNotAssigned(playerStationHash, playerStationDataOrderList[playerStationIndex]);
      }
    }

    /**
     * Gives slot `playerStationIndexToAssign` the hash `playerStationHash` and
     * binds the hash to it. Nothing happens for hash 0, an index out of range
     * or a slot that already holds the hash. The slot's previous hash stays a
     * key bound to it, and a slot that held the same hash keeps it, so its
     * index now reaches this slot: nothing is swapped or unbound.
     */
    method AssignPlayerStationHashToPlayerStationIndex(playerStationHash: uint32, playerStationIndexToAssign: int)
      requires Valid()
      modifies this`playerStationDeviceDictionary, playerStationDataOrderList
      ensures Valid()
      ensures (|| playerStationHash == 0
               || !(0 <= playerStationIndexToAssign < MAX_PLAYER_STATIONS)
               || old(playerStationDataOrderList[playerStationIndexToAssign].playerStationHash) == playerStationHash) ==>
        playerStationDeviceDictionary == old(playerStationDeviceDictionary) && OtherSlotsUnchanged(None)
      ensures playerStationHash != 0 && 0 <= playerStationIndexToAssign < MAX_PLAYER_STATIONS &&
              old(playerStationDataOrderList[playerStationIndexToAssign].playerStationHash) != playerStationHash ==>
        var slot := playerStationDataOrderList[playerStationIndexToAssign];
        && playerStationDeviceDictionary == old(playerStationDeviceDictionary)[playerStationHash := slot]
        && slot.View() == old(slot.View()).(playerStationHash := playerStationHash)
        && OtherSlotsUnchanged(Some(slot))
        && forall j :: 0 <= j < MAX_PLAYER_STATIONS && old(playerStationDataOrderList[j].playerStationHash) == playerStationHash ==>
             GetPlayerStationDataFromPlayerStationIndexInOverseer(j) == StationAt(slot)
    {
      if playerStationHash == 0 {
        return;
      }
      if playerStationIndexToAssign >= |playerStationDataOrderList| || playerStationIndexToAssign < 0 {
        return;
      }
      if playerStationDataOrderList[playerStationIndexToAssign].playerStationHash == playerStationHash {
        return;
      }
      SlotsDistinct();
      BindHashToSlot(playerStationHash, playerStationIndexToAssign);
      forall j | 0 <= j < MAX_PLAYER_STATIONS && old(playerStationDataOrderList[j].playerStationHash) == playerStationHash
        ensures GetPlayerStationDataFromPlayerStationIndexInOverseer(j) ==
          StationAt(playerStationDataOrderList[playerStationIndexToAssign])
      {
        assert playerStationDataOrderList[j] != playerStationDataOrderList[playerStationIndexToAssign];
      }
    }

    /** The binding step of an assignment, once its guards have passed. */
    method BindHashToSlot(playerStationHash: uint32, playerStationIndexToAssign: nat)
      requires Valid()
      requires playerStationHash != 0 && playerStationIndexToAssign < MAX_PLAYER_STATIONS
      modifies this`playerStationDeviceDictionary, playerStationDataOrderList
      ensures Valid()
      ensures var slot := playerStationDataOrderList[playerStationIndexToAssign];
        && playerStationDeviceDictionary == old(playerStationDeviceDictionary)[playerStationHash := slot]
        && slot.View() == old(slot.View()).(playerStationHash := playerStationHash)
        && OtherSlotsUnchanged(Some(slot))
    {
      ghost var hashes := SlotHashes();
      ghost var slots := playerStationDataOrderList;
      SlotsDistinct();
      AssignKeepsRegistry(playerStationDeviceDictionary, hashes, playerStationDataOrderList,
                          playerStationHash, playerStationIndexToAssign);
      AddPlayerStationToDeviceDictionaryIfNotAssigned(playerStationHash, playerStationDataOrderList[playerStationIndexToAssign]);
      var playerStationData := GetPlayerStationDataFromPlayerStationHash(playerStationHash).value;
      playerStationData.playerStationHash := playerStationHash;
      assert SlotHashes() == hashes[playerStationIndexToAssign := playerStationHash];
      forall k | 0 <= k < |slots|
        ensures slots[k].playerStationIndex == k && slots[k].Valid()
      {
        if k != playerStationIndexToAssign {
          assert slots[k] != playerStationData;
          assert old(slots[k].Valid());
        }
      }
    }

    // ---------------------------------------------------------------- inbound

    /** The station hash frame `p` names is a key of the dictionary. */
    ghost predicate Bound(p: seq<uint8>)
      reads this
    {
      StationHashOf(p) in playerStationDeviceDictionary
    }

    /**
     * The dictionary after handling `p` as event `eventId`: only a draxboard
     * connection binds, its hash to the slot whose one-based index the frame
     * carries, and only when that slot already holds a hash.
     */
    ghost function RegistryAfter(eventId: uint8, p: seq<uint8>): map<uint32, PlayerStationData>
      reads this, playerStationDataOrderList
    {
      if eventId == DEVICE_CONNECTED && |p| >= 9 && p[5] == DRAX_ID then
        BindAtIndex(StationHashOf(p), p[8] as int - 1)
      else playerStationDeviceDictionary
    }

    /**
     * Handling `p` as event `eventId` ended with `outcome`: the dictionary is
     * as `RegistryAfter` says and the outcome as `HandledOutcome` says; when
     * the handler completed on a bound station, that station alone moved as
     * `HandledView` says, and otherwise no slot changed.
     */
    twostate predicate InboundHandled(eventId: uint8, p: seq<uint8>, outcome: Outcome)
      reads this, playerStationDataOrderList, playerStationDeviceDictionary.Values
    {
      && playerStationDeviceDictionary == old(RegistryAfter(eventId, p))
      && outcome == HandledOutcome(eventId, p, old(Bound(p)))
      && StationHandled(eventId, p, outcome)
    }

    /**
     * The slots after handling `p` as event `eventId`: when the handler
     * completed on a bound station, that station alone moved as `HandledView`
     * says; otherwise no slot changed.
     */
    twostate predicate StationHandled(eventId: uint8, p: seq<uint8>, outcome: Outcome)
      reads this, playerStationDataOrderList, playerStationDeviceDictionary.Values
    {
      if outcome == Completed && Bound(p) then
        var st := playerStationDeviceDictionary[StationHashOf(p)];
        old(allocated(st)) && st.View() == HandledView(eventId, p, old(st.View())) && OtherSlotsUnchanged(Some(st))
      else
        OtherSlotsUnchanged(None)
    }

    /**
     * The bound station `e.2` of frame `e.1` moved as `HandledView` says for
     * event `e.0`, and nothing else of the bridge changed: the bridge stays
     * valid and the slots are as `StationHandled` says.
     */
    twostate lemma StationEdited(e: (uint8, seq<uint8>, PlayerStationData))
      requires old(Valid()) && unchanged(this) && unchanged(associatedTCPManager)
      requires StationHashOf(e.1) in playerStationDeviceDictionary
      requires playerStationDeviceDictionary[StationHashOf(e.1)] == e.2
      requires e.2.View() == HandledView(e.0, e.1, old(e.2.View()))
      requires OtherSlotsUnchanged(Some(e.2))
      ensures Valid() && StationHandled(e.0, e.1, Completed)
    {
      var st := e.2;
      assert st in old(playerStationDeviceDictionary).Values;
      HandledKeepsPulses(e.0, e.1, old(st.View()));
      forall k | 0 <= k < |playerStationDataOrderList|
        ensures playerStationDataOrderList[k].playerStationIndex == k && playerStationDataOrderList[k].Valid()
      {
        if playerStationDataOrderList[k] != st {
          assert old(playerStationDataOrderList[k].Valid());
        }
      }
      assert SlotHashes() == old(SlotHashes());
    }

    /**
     * A device reports in. A draxboard first binds its hash to the slot its
     * frame names; then every device but the omnidongle marks itself
     * connected on the station its hash is bound to.
     */
    method OnDeviceConnectedEvent(bytePacket: seq<uint8>) returns (outcome: Outcome)
      requires Valid()
      modifies this`playerStationDeviceDictionary, playerStationDataOrderList
      ensures Valid()
      ensures InboundHandled(DEVICE_CONNECTED, bytePacket, outcome)
    {
      if |bytePacket| < 6 {
        return IndexOutOfRange;
      }
      var deviceID := bytePacket[5];
      if deviceID == DRAX_ID {
        if |bytePacket| < 9 {
          return IndexOutOfRange;
        }
        ConnectDraxboard(bytePacket);
      } else if deviceID in {BILL_ACCEPTOR_ID, JOYSTICK_ID, PRINTER_ID} {
        MarkDeviceConnected(bytePacket);
      }
      return Completed;
    }

    /**
     * A draxboard reports in: its hash is bound to the slot whose one-based
     * index byte 8 carries, then it marks itself connected on the station its
     * hash is bound to.
     */
    method ConnectDraxboard(bytePacket: seq<uint8>)
      requires Valid() && |bytePacket| >= 9 && bytePacket[5] == DRAX_ID
      modifies this`playerStationDeviceDictionary, playerStationDataOrderList
      ensures Valid()
      ensures InboundHandled(DEVICE_CONNECTED, bytePacket, Completed)
    {
      var playerStationIndex := bytePacket[8];
      AddPlayerStationToDeviceDictionaryIfNotAssignedAtIndex(StationHashOf(bytePacket), playerStationIndex as int - 1);
      MarkDeviceConnected(bytePacket);
    }

    /**
     * The part every device case of `OnDeviceConnectedEvent` shares once any
     * binding is done: look the station up by the frame's hash, do nothing
     * when it is not bound, otherwise mark the device connected on it.
     */
    method MarkDeviceConnected(bytePacket: seq<uint8>)
      requires Valid()
      requires |bytePacket| >= 6 && bytePacket[5] in {DRAX_ID, BILL_ACCEPTOR_ID, JOYSTICK_ID, PRINTER_ID}
      requires bytePacket[5] == DRAX_ID ==> |bytePacket| >= 9
      modifies playerStationDataOrderList
      ensures Valid()
      ensures StationHandled(DEVICE_CONNECTED, bytePacket, Completed)
    {
      var deviceID := bytePacket[5];
      var playerStation := GetPlayerStationDataFromPlayerStationHash(StationHashOf(bytePacket));
      if playerStation.None? {
        return;
      }
      var st := playerStation.value;
      BoundStationIsSlot(StationHashOf(bytePacket));
      if deviceID == DRAX_ID {
        MarkDraxboardConnected(bytePacket, st);
      } else if deviceID == BILL_ACCEPTOR_ID {
        MarkBillAcceptorConnected(bytePacket, st);
      } else if deviceID == JOYSTICK_ID {
        MarkJoystickConnected(bytePacket, st);
      } else {
        MarkPrinterConnected(bytePacket, st);
      }
    }

    /** The draxboard of station `st` is connected and reports its firmware version in bytes 6 and 7. */
    method MarkDraxboardConnected(bytePacket: seq<uint8>, st: PlayerStationData)
      requires Valid() && |bytePacket| >= 9 && bytePacket[5] == DRAX_ID
      requires StationHashOf(bytePacket) in playerStationDeviceDictionary
      requires playerStationDeviceDictionary[StationHashOf(bytePacket)] == st
      modifies st
      ensures Valid() && StationHandled(DEVICE_CONNECTED, bytePacket, Completed)
    {
      BoundStationIsSlot(StationHashOf(bytePacket));
      st.draxboardState := DraxConnected;
      st.draxVersionHigh := bytePacket[6];
      st.draxVersionLow := bytePacket[7];
      st.DraxboardView();
      StationEdited((DEVICE_CONNECTED, bytePacket, st));
    }

    /** The bill acceptor of station `st` is connected and not yet initialised. */
    method MarkBillAcceptorConnected(bytePacket: seq<uint8>, st: PlayerStationData)
      requires Valid() && |bytePacket| >= 6 && bytePacket[5] == BILL_ACCEPTOR_ID
      requires StationHashOf(bytePacket) in playerStationDeviceDictionary
      requires playerStationDeviceDictionary[StationHashOf(bytePacket)] == st
      modifies st
      ensures Valid() && StationHandled(DEVICE_CONNECTED, bytePacket, Completed)
    {
      BoundStationIsSlot(StationHashOf(bytePacket));
      st.billAcceptorState := NOT_INIT;
      st.BillAcceptorStateView();
      StationEdited((DEVICE_CONNECTED, bytePacket, st));
    }

    /** The joystick of station `st` is connected. */
    method MarkJoystickConnected(bytePacket: seq<uint8>, st: PlayerStationData)
      requires Valid() && |bytePacket| >= 6 && bytePacket[5] == JOYSTICK_ID
      requires StationHashOf(bytePacket) in playerStationDeviceDictionary
      requires playerStationDeviceDictionary[StationHashOf(bytePacket)] == st
      modifies st
      ensures Valid() && StationHandled(DEVICE_CONNECTED, bytePacket, Completed)
    {
      BoundStationIsSlot(StationHashOf(bytePacket));
      st.joystickState := JoystickConnected;
      st.JoystickStateView();
      StationEdited((DEVICE_CONNECTED, bytePacket, st));
    }

    /** The printer of station `st` is connected: a Custom TG02, assumed out of paper until it reports otherwise. */
    method MarkPrinterConnected(bytePacket: seq<uint8>, st: PlayerStationData)
      requires Valid() && |bytePacket| >= 6 && bytePacket[5] == PRINTER_ID
      requires StationHashOf(bytePacket) in playerStationDeviceDictionary
      requires playerStationDeviceDictionary[StationHashOf(bytePacket)] == st
      modifies st
      ensures Valid() && StationHandled(DEVICE_CONNECTED, bytePacket, Completed)
    {
      BoundStationIsSlot(StationHashOf(bytePacket));
      st.paperAvailability := OUT_OF_PAPER;
      st.printerTypeAssignedToStation := CUSTOM_TG02;
      st.PrinterView();
      StationEdited((DEVICE_CONNECTED, bytePacket, st));
    }

    /**
     * A device went away. A draxboard or joystick marks its state as error on
     * the station its hash is bound to, and dereferences the missing station
     * when the hash is not bound; the other devices change nothing.
     */
    method OnDeviceDisconnectedEvent(bytePacket: seq<uint8>) returns (outcome: Outcome)
      requires Valid()
      modifies playerStationDataOrderList
      ensures Valid()
      ensures InboundHandled(DEVICE_DISCONNECTED, bytePacket, outcome)
    {
      if |bytePacket| < 6 {
        return IndexOutOfRange;
      }
      var deviceID := bytePacket[5];
      var playerStationHash := StationHashOf(bytePacket);
      if deviceID == DRAX_ID {
        var playerStationData := GetPlayerStationDataFromPlayerStationHash(playerStationHash);
        if playerStationData.None? {
          return NullReference;
        }
        BoundStationIsSlot(playerStationHash);
        MarkDraxboardError(bytePacket, playerStationData.value);
      } else if deviceID == JOYSTICK_ID {
        var playerStationData := GetPlayerStationDataFromPlayerStationHash(playerStationHash);
        if playerStationData.None? {
          return NullReference;
        }
        BoundStationIsSlot(playerStationHash);
        MarkJoystickError(bytePacket, playerStationData.value);
      }
      return Completed;
    }

    /** The draxboard of station `st` went away: its state is error. */
    method MarkDraxboardError(bytePacket: seq<uint8>, st: PlayerStationData)
      requires Valid() && |bytePacket| >= 6 && bytePacket[5] == DRAX_ID
      requires StationHashOf(bytePacket) in playerStationDeviceDictionary
      requires playerStationDeviceDictionary[StationHashOf(bytePacket)] == st
      modifies st
      ensures Valid() && StationHandled(DEVICE_DISCONNECTED, bytePacket, Completed)
    {
      BoundStationIsSlot(StationHashOf(bytePacket));
      st.draxboardState := DraxError;
      st.DraxboardStateView();
      StationEdited((DEVICE_DISCONNECTED, bytePacket, st));
    }

    /** The joystick of station `st` went away: its state is error. */
    method MarkJoystickError(bytePacket: seq<uint8>, st: PlayerStationData)
      requires Valid() && |bytePacket| >= 6 && bytePacket[5] == JOYSTICK_ID
      requires StationHashOf(bytePacket) in playerStationDeviceDictionary
      requires playerStationDeviceDictionary[StationHashOf(bytePacket)] == st
      modifies st
      ensures Valid() && StationHandled(DEVICE_DISCONNECTED, bytePacket, Completed)
    {
      BoundStationIsSlot(StationHashOf(bytePacket));
      st.joystickState := JoystickError;
      st.JoystickStateView();
      StationEdited((DEVICE_DISCONNECTED, bytePacket, st));
    }

    /**
     * A new input word for a bound station, carried big-endian in bytes 5
     * and 6; a frame for a hash that is not bound is dropped.
     */
    method OnDraxboardInputEventReceived(packetEvent: seq<uint8>) returns (outcome: Outcome)
      requires Valid()
      modifies playerStationDataOrderList
      ensures Valid()
      ensures InboundHandled(DRAX_INPUT_EVENT, packetEvent, outcome)
    {
      var playerStationHash := StationHashOf(packetEvent);
      var stationData := GetPlayerStationDataFromPlayerStationHash(playerStationHash);
      if stationData.None? {
        return Completed;
      }
      if |packetEvent| < 7 {
        return IndexOutOfRange;
      }
      var inputState := FromBE16(packetEvent[5], packetEvent[6]);
      var st := stationData.value;
      BoundStationIsSlot(playerStationHash);
      st.DraxInputStateReceived(MaskOf(inputState));
      StationEdited((DRAX_INPUT_EVENT, packetEvent, st));
      return Completed;
    }

    /**
     * A new output word for a bound station, carried little-endian in bytes
     * 5 to 8; a frame for hash 0 or a hash that is not bound is dropped.
     */
    method OnDraxboardOutputEventReceived(packetEvent: seq<uint8>) returns (outcome: Outcome)
      requires Valid()
      modifies playerStationDataOrderList
      ensures Valid()
      ensures InboundHandled(DRAX_OUTPUT_EVENT, packetEvent, outcome)
    {
      var playerStationHash := StationHashOf(packetEvent);
      if playerStationHash == 0 {
        return Completed;
      }
      var playerStationData := GetPlayerStationDataFromPlayerStationHash(playerStationHash);
      if playerStationData.None? {
        return Completed;
      }
      if |packetEvent| < 9 {
        return IndexOutOfRange;
      }
      var st := playerStationData.value;
      BoundStationIsSlot(playerStationHash);
      st.draxOutputState := DraxOutputState(packetEvent);
      st.DraxOutputView();
      StationEdited((DRAX_OUTPUT_EVENT, packetEvent, st));
      return Completed;
    }

    /**
     * A raw joystick reading for a bound station, in bytes 5 and 6; a frame
     * for hash 0 or a hash that is not bound is dropped.
     */
    method OnJoystickAxisEventReceieved(packetEvent: seq<uint8>) returns (outcome: Outcome)
      requires Valid()
      modifies playerStationDataOrderList
      ensures Valid()
      ensures InboundHandled(JOYSTICK_INPUT_EVENT, packetEvent, outcome)
    {
      var playerStationHash := StationHashOf(packetEvent);
      if playerStationHash == 0 {
        return Completed;
      }
      var stationData := GetPlayerStationDataFromPlayerStationHash(playerStationHash);
      if stationData.None? {
        return Completed;
      }
      if |packetEvent| < 7 {
        return IndexOutOfRange;
      }
      var st := stationData.value;
      BoundStationIsSlot(playerStationHash);
      JoystickReadingReceived(packetEvent, st);
      return Completed;
    }

    /** Station `st` takes the raw axis reading in bytes 5 and 6 of the frame. */
    method JoystickReadingReceived(packetEvent: seq<uint8>, st: PlayerStationData)
      requires Valid() && |packetEvent| >= 7
      requires StationHashOf(packetEvent) in playerStationDeviceDictionary
      requires playerStationDeviceDictionary[StationHashOf(packetEvent)] == st
      modifies st
      ensures Valid() && StationHandled(JOYSTICK_INPUT_EVENT, packetEvent, Completed)
    {
      BoundStationIsSlot(StationHashOf(packetEvent));
      st.SetFromRawJoystickValues(packetEvent[5], packetEvent[6]);
      StationEdited((JOYSTICK_INPUT_EVENT, packetEvent, st));
    }

    /** The peer printed the station's job: the station may print again. */
    method OnPrintCompletedSuccessfulEvent(packetEvent: seq<uint8>) returns (outcome: Outcome)
      requires Valid()
      modifies playerStationDataOrderList
      ensures Valid()
      ensures InboundHandled(PRINT_COMPLETE_EVENT, packetEvent, outcome)
    {
      var playerStationHash := StationHashOf(packetEvent);
      var playerStationData := GetPlayerStationDataFromPlayerStationHash(playerStationHash);
      if playerStationData.None? {
        return Completed;
      }
      var st := playerStationData.value;
      BoundStationIsSlot(playerStationHash);
      st.printJobQueued := false;
      st.PrintFlagView();
      StationEdited((PRINT_COMPLETE_EVENT, packetEvent, st));
      return Completed;
    }

    /**
     * The peer could not print the station's job; byte 4 says why, which is
     * only logged. The station may print again.
     */
    method OnPrintCompletedWithErrorEvent(packetEvent: seq<uint8>) returns (outcome: Outcome)
      requires Valid()
      modifies playerStationDataOrderList
      ensures Valid()
      ensures InboundHandled(PRINT_ERROR_EVENT, packetEvent, outcome)
    {
      var playerStationHash := StationHashOf(packetEvent);
      var playerStationData := GetPlayerStationDataFromPlayerStationHash(playerStationHash);
      if playerStationData.None? {
        return Completed;
      }
      if |packetEvent| < 5 {
        return IndexOutOfRange;
      }
      var st := playerStationData.value;
      BoundStationIsSlot(playerStationHash);
      st.printJobQueued := false;
      st.PrintFlagView();
      StationEdited((PRINT_ERROR_EVENT, packetEvent, st));
      return Completed;
    }

    /**
     * The application asks to quit. The first request is cancelled and
     * starts the delay: the peer is told to shut down. Requests during the
     * delay are cancelled; once the delay has elapsed the quit goes through.
     * The result says whether this request was cancelled.
     */
    method OnApplicationQuit() returns (quitCancelled: bool)
      requires Valid()
      modifies this`applicationQuitDelayed, associatedTCPManager
      ensures Valid() && MailboxesUnchanged()
      ensures quitCancelled <==> !applicationReadyToQuit
      ensures applicationReadyToQuit == old(applicationReadyToQuit) && applicationQuitDelayed
      ensures playerStationDeviceDictionary == old(playerStationDeviceDictionary)
      ensures Outbound() ==
        if old(applicationQuitDelayed) then old(Outbound()) else old(Outbound()) + [QueuedPacket(KILL_APPLICATION_EVENT, 0)]
    {
      if !applicationQuitDelayed {
        DelayApplicationQuit();
        return true;
      }
      if !applicationReadyToQuit {
        return true;
      }
      return false;
    }

    /** The delay's first step: mark it started and tell the peer to shut down. */
    method DelayApplicationQuit()
      requires Valid()
      modifies this`applicationQuitDelayed, associatedTCPManager
      ensures Valid() && MailboxesUnchanged()
      ensures applicationQuitDelayed && applicationReadyToQuit == old(applicationReadyToQuit)
      ensures Outbound() == old(Outbound()) + [QueuedPacket(KILL_APPLICATION_EVENT, 0)]
    {
      applicationQuitDelayed := true;
      SendKillPythonApplicationEvent();
    }

    /** The delay's second step, once its wait is over: the next quit request goes through. */
    method QuitDelayElapsed()
      requires Valid() && applicationQuitDelayed
      modifies this`applicationReadyToQuit
      ensures Valid() && applicationReadyToQuit
    {
      applicationReadyToQuit := true;
    }

    /**
     * One tick: stage the outbound queue for the send loop, split the inbound
     * mailbox into frames, and dispatch them in order. A size byte that runs
     * past the buffer throws before any frame is dispatched, and a handler
     * that throws ends the tick with its outcome, leaving the later frames of
     * the batch undispatched.
     */
    method Update() returns (outcome: Outcome)
      requires Valid()
      modifies this`playerStationDeviceDictionary, playerStationDataOrderList, associatedTCPManager
      ensures Valid()
      ensures old(|Outbound()| > 0 && associatedTCPManager.upcomingBytePacket.None?) ==>
        Outbound() == [] && associatedTCPManager.upcomingBytePacket == Some(Concat(old(Outbound())))
      ensures old(|Outbound()| == 0 || associatedTCPManager.upcomingBytePacket.Some?) ==>
        Outbound() == old(Outbound()) && associatedTCPManager.upcomingBytePacket == old(associatedTCPManager.upcomingBytePacket)
      ensures old(associatedTCPManager.receivedBytePacket).None? ==>
        outcome == Completed && associatedTCPManager.receivedBytePacket == None &&
        unchanged(this) && OtherSlotsUnchanged(None)
      ensures old(associatedTCPManager.receivedBytePacket).Some? ==>
        match ParseFrames(old(associatedTCPManager.receivedBytePacket).value)
        case None =>
          outcome == IndexOutOfRange && associatedTCPManager.receivedBytePacket == old(associatedTCPManager.receivedBytePacket) &&
          unchanged(this) && OtherSlotsUnchanged(None)
        case Some(frames) =>
          && associatedTCPManager.receivedBytePacket == None
          && (outcome == IndexOutOfRange ==> exists k :: 0 <= k < |frames| && |frames[k]| < 9)
          && (outcome == NullReference ==>
                exists k :: 0 <= k < |frames| && |frames[k]| > 0 && frames[k][0] == DEVICE_DISCONNECTED)
    {
      associatedTCPManager.PrepareBytesToSendThroughTCP();
      var listOfAllReadEvents := associatedTCPManager.UpdateReadPythonEventsIfValid();
      if listOfAllReadEvents.NothingReceived? {
        return Completed;
      }
      if listOfAllReadEvents.Overrun? {
        return IndexOutOfRange;
      }
      outcome := DispatchEvents(listOfAllReadEvents.events);
    }

    /**
     * Dispatches the frames of one batch in order, stopping at the first
     * handler that throws; a batch with no frames changes nothing. Only a
     * frame too short for its handler, or the disconnection of a station
     * that is not bound, can stop a batch.
     */
    method DispatchEvents(events: seq<seq<uint8>>) returns (outcome: Outcome)
      requires Valid()
      modifies this`playerStationDeviceDictionary, playerStationDataOrderList
      ensures Valid()
      ensures |events| == 0 ==> outcome == Completed && unchanged(this) && OtherSlotsUnchanged(None)
      ensures outcome == IndexOutOfRange ==> exists k :: 0 <= k < |events| && |events[k]| < 9
      ensures outcome == NullReference ==>
        exists k :: 0 <= k < |events| && |events[k]| > 0 && events[k][0] == DEVICE_DISCONNECTED
      ensures (forall k :: 0 <= k < |events| ==> |events[k]| >= 9 && events[k][0] != DEVICE_DISCONNECTED) ==>
        outcome == Completed
    {
      outcome := Completed;
      if |events| == 0 {
        return;
      }
      for i := 0 to |events|
        invariant Valid() && outcome == Completed
      {
        outcome := InterpretEventRecievedFromPython(events[i]);
        if outcome != Completed {
          return;
        }
      }
    }

    /**
     * The omnidongle's bytes: the frame without its event id, copied one byte
     * at a time, for the omnidongle manager. An empty frame makes the copy's
     * length negative, which throws.
     */
    method OnOmnidongleEventReceived(tcpPacketReceived: seq<uint8>) returns (omnidongleReceivedPacket: Option<seq<uint8>>)
      ensures |tcpPacketReceived| == 0 ==> omnidongleReceivedPacket == None
      ensures |tcpPacketReceived| > 0 ==>
        && omnidongleReceivedPacket.Some?
        && [tcpPacketReceived[0]] + omnidongleReceivedPacket.value == tcpPacketReceived
    {
      if |tcpPacketReceived| == 0 {
        return None;
      }
      var copied: seq<uint8> := [];
      var i := 0;
      while i < |tcpPacketReceived| - 1
        invariant 0 <= i <= |tcpPacketReceived| - 1
        invariant copied == tcpPacketReceived[1..i + 1]
      {
        copied := copied + [tcpPacketReceived[i + 1]];
        i := i + 1;
      }
      return Some(copied);
    }

    /**
     * Routes one frame to the handler its first byte names. An empty frame is
     * dropped; the omnidongle, meter error, printer state and bill acceptor
     * handlers change nothing here, and an id no handler claims is only
     * logged. What the routed handler throws comes back as the outcome.
     */
    method InterpretEventRecievedFromPython(packetReceivedFromPython: seq<uint8>) returns (outcome: Outcome)
      requires Valid()
      modifies this`playerStationDeviceDictionary, playerStationDataOrderList
      ensures Valid()
      ensures |packetReceivedFromPython| == 0 ==>
        outcome == Completed && unchanged(this) && OtherSlotsUnchanged(None)
      ensures |packetReceivedFromPython| > 0 ==>
        InboundHandled(packetReceivedFromPython[0], packetReceivedFromPython, outcome)
    {
      if |packetReceivedFromPython| == 0 {
        return Completed;
      }
      var eventID := packetReceivedFromPython[0];
      if eventID == DEVICE_CONNECTED {
        outcome := OnDeviceConnectedEvent(packetReceivedFromPython);
      } else if eventID == DEVICE_DISCONNECTED {
        outcome := OnDeviceDisconnectedEvent(packetReceivedFromPython);
      } else if eventID == OMNI_EVENT {
        var _ := OnOmnidongleEventReceived(packetReceivedFromPython);
        outcome := Completed;
      } else if eventID == DRAX_INPUT_EVENT {
        outcome := OnDraxboardInputEventReceived(packetReceivedFromPython);
      } else if eventID == DRAX_OUTPUT_EVENT {
        outcome := OnDraxboardOutputEventReceived(packetReceivedFromPython);
      } else if eventID == JOYSTICK_INPUT_EVENT {
        outcome := OnJoystickAxisEventReceieved(packetReceivedFromPython);
      } else if eventID == PRINT_COMPLETE_EVENT {
        outcome := OnPrintCompletedSuccessfulEvent(packetReceivedFromPython);
      } else if eventID == PRINT_ERROR_EVENT {
        outcome := OnPrintCompletedWithErrorEvent(packetReceivedFromPython);
      } else {
        outcome := Completed;
      }
    }

    // --------------------------------------------------------------- outbound

    /**
     * Queues one packet for the event: the big-endian length of the payload
     * plus one, the event id, then as many zero bytes as the payload has. The
     * payload bytes and the station hash are not written into it.
     */
    method QueueEventToSendToPython(eventIDByte: uint8, packetDatas: seq<uint8>, playerStationHash: uint32)
      requires Valid()
      modifies associatedTCPManager
      ensures Valid()
      ensures MailboxesUnchanged()
      ensures Outbound() == old(Outbound()) + [QueuedPacket(eventIDByte, |packetDatas|)]
    {
      associatedTCPManager.QueueEventToSendToPythonApplication(Some(QueuedPacket(eventIDByte, |packetDatas|)));
    }

    /** The keepalive: one status packet with an empty payload. */
    method SendStatusUpdateToPythonApplication()
      requires Valid()
      modifies associatedTCPManager
      ensures Valid()
      ensures MailboxesUnchanged()
      ensures Outbound() == old(Outbound()) + [QueuedPacket(STATUS_FROM_UNITY, 0)]
    {
      QueueEventToSendToPython(STATUS_FROM_UNITY, [], 0);
    }

    /** Asks the peer to report every connected device again. */
    method SendRequestAllConnectedDevicesEvent()
      requires Valid()
      modifies associatedTCPManager
      ensures Valid()
      ensures MailboxesUnchanged()
      ensures Outbound() == old(Outbound()) + [QueuedPacket(RETRIEVE_CONNECTED_DEVICES, 0)]
    {
      QueueEventToSendToPython(RETRIEVE_CONNECTED_DEVICES, [], 0);
    }

    /** Tells the peer to shut down. */
    method SendKillPythonApplicationEvent()
      requires Valid()
      modifies associatedTCPManager
      ensures Valid()
      ensures MailboxesUnchanged()
      ensures Outbound() == old(Outbound()) + [QueuedPacket(KILL_APPLICATION_EVENT, 0)]
    {
      QueueEventToSendToPython(KILL_APPLICATION_EVENT, [], 0);
    }

    /** Forwards a packet for the omnidongle; like every payload, its bytes are not copied. */
    method SendOmnidonglePacket(packetToSend: seq<uint8>)
      requires Valid()
      modifies associatedTCPManager
      ensures Valid()
      ensures MailboxesUnchanged()
      ensures Outbound() == old(Outbound()) + [QueuedPacket(OMNI_EVENT, |packetToSend|)]
    {
      QueueEventToSendToPython(OMNI_EVENT, packetToSend, 0);
    }

    /** The pattern of every station command: queue the event when slot `playerIndex` holds a hash, otherwise nothing. */
    method QueueForBoundStation(playerIndex: int, eventIDByte: uint8, packetDatas: seq<uint8>)
      requires Valid()
      modifies associatedTCPManager
      ensures Valid()
      ensures MailboxesUnchanged()
      ensures Outbound() == old(Outbound()) +
        if GetPlayerStationHashFromPlayerStationIndex(playerIndex) == 0 then []
        else [QueuedPacket(eventIDByte, |packetDatas|)]
    {
      var playerStationHash := GetPlayerStationHashFromPlayerStationIndex(playerIndex);
      if playerStationHash == 0 {
        assert old(associatedTCPManager.queuedPacketsToSend) + [] == old(associatedTCPManager.queuedPacketsToSend);
        return;
      }
      QueueEventToSendToPython(eventIDByte, packetDatas, playerStationHash);
    }

    /** Switches on the draxboard outputs in `outputToEnable`. */
    method SendDraxboardBitEnable(playerIndexInOverseer: int, outputToEnable: uint16)
      requires Valid()
      modifies associatedTCPManager
      ensures Valid()
      ensures MailboxesUnchanged()
      ensures Outbound() == old(Outbound()) +
        if GetPlayerStationHashFromPlayerStationIndex(playerIndexInOverseer) == 0 then []
        else [QueuedPacket(DRAX_OUTPUT_BIT_ENABLE_EVENT, 2)]
    {
      QueueForBoundStation(playerIndexInOverseer, DRAX_OUTPUT_BIT_ENABLE_EVENT, OutputBitsPayload(outputToEnable));
    }

    /** Switches off the draxboard outputs in `outputToDisable`. */
    method SendDraxboardBitDisable(playerIndexInOverseer: int, outputToDisable: uint16)
      requires Valid()
      modifies associatedTCPManager
      ensures Valid()
      ensures MailboxesUnchanged()
      ensures Outbound() == old(Outbound()) +
        if GetPlayerStationHashFromPlayerStationIndex(playerIndexInOverseer) == 0 then []
        else [QueuedPacket(DRAX_OUTPUT_BIT_DISABLE_EVENT, 2)]
    {
      QueueForBoundStation(playerIndexInOverseer, DRAX_OUTPUT_BIT_DISABLE_EVENT, OutputBitsPayload(outputToDisable));
    }

    /** Ticks hard meter `hardMeterID` of the station by `numberOfTicksToSend`. */
    method SendTicksToOurHardMeter(playerIndexInOverseer: int, numberOfTicksToSend: uint16, hardMeterID: uint8)
      requires Valid()
      modifies associatedTCPManager
      ensures Valid()
      ensures MailboxesUnchanged()
      ensures Outbound() == old(Outbound()) +
        if GetPlayerStationHashFromPlayerStationIndex(playerIndexInOverseer) == 0 then []
        else [QueuedPacket(DRAX_HARD_METER_EVENT, 3)]
    {
      QueueForBoundStation(playerIndexInOverseer, DRAX_HARD_METER_EVENT,
        HardMeterPayload(hardMeterID, numberOfTicksToSend));
    }

    /** Accepts the bill held in escrow. */
    method AcceptBillThatIsCurrentlyInEscrow(playerIndex: int)
      requires Valid()
      modifies associatedTCPManager
      ensures Valid()
      ensures MailboxesUnchanged()
      ensures Outbound() == old(Outbound()) +
        if GetPlayerStationHashFromPlayerStationIndex(playerIndex) == 0 then []
        else [QueuedPacket(BA_ACCEPT_BILL_EVENT, 0)]
    {
      QueueForBoundStation(playerIndex, BA_ACCEPT_BILL_EVENT, []);
    }

    /** Rejects the bill held in escrow. */
    method RejectBillThatIsCurrentlyInEscrow(playerIndex: int)
      requires Valid()
      modifies associatedTCPManager
      ensures Valid()
      ensures MailboxesUnchanged()
      ensures Outbound() == old(Outbound()) +
        if GetPlayerStationHashFromPlayerStationIndex(playerIndex) == 0 then []
        else [QueuedPacket(BA_REJECT_BILL_EVENT, 0)]
    {
      QueueForBoundStation(playerIndex, BA_REJECT_BILL_EVENT, []);
    }

    method SendSetBillAcceptorToIdle(playerIndex: int)
      requires Valid()
      modifies associatedTCPManager
      ensures Valid()
      ensures MailboxesUnchanged()
      ensures Outbound() == old(Outbound()) +
        if GetPlayerStationHashFromPlayerStationIndex(playerIndex) == 0 then []
        else [QueuedPacket(BA_IDLE_EVENT, 0)]
    {
      QueueForBoundStation(playerIndex, BA_IDLE_EVENT, []);
    }

    method SendSetBillAcceptorToInhibit(playerIndex: int)
      requires Valid()
      modifies associatedTCPManager
      ensures Valid()
      ensures MailboxesUnchanged()
      ensures Outbound() == old(Outbound()) +
        if GetPlayerStationHashFromPlayerStationIndex(playerIndex) == 0 then []
        else [QueuedPacket(BA_INHIBIT_EVENT, 0)]
    {
      QueueForBoundStation(playerIndex, BA_INHIBIT_EVENT, []);
    }

    method SendResetCommandToBillAcceptor(playerIndex: int)
      requires Valid()
      modifies associatedTCPManager
      ensures Valid()
      ensures MailboxesUnchanged()
      ensures Outbound() == old(Outbound()) +
        if GetPlayerStationHashFromPlayerStationIndex(playerIndex) == 0 then []
        else [QueuedPacket(BA_RESET_EVENT, 0)]
    {
      QueueForBoundStation(playerIndex, BA_RESET_EVENT, []);
    }

    /** Asks for the bill acceptor's state; the request reuses the state-update event id. */
    method RequestBillAcceptorState(playerIndex: int)
      requires Valid()
      modifies associatedTCPManager
      ensures Valid()
      ensures MailboxesUnchanged()
      ensures Outbound() == old(Outbound()) +
        if GetPlayerStationHashFromPlayerStationIndex(playerIndex) == 0 then []
        else [QueuedPacket(BA_BILL_STATE_UPDATE_EVENT, 0)]
    {
      QueueForBoundStation(playerIndex, BA_BILL_STATE_UPDATE_EVENT, []);
    }

    method RequestPrinterState(playerIndex: int)
      requires Valid()
      modifies associatedTCPManager
      ensures Valid()
      ensures MailboxesUnchanged()
      ensures Outbound() == old(Outbound()) +
        if GetPlayerStationHashFromPlayerStationIndex(playerIndex) == 0 then []
        else [QueuedPacket(PRINTER_STATE_EVENT, 0)]
    {
      QueueForBoundStation(playerIndex, PRINTER_STATE_EVENT, []);
    }

    // ---------------------------------------------------------------- queries

    /** Whether `button` is down on the station at `playerIndexInOverseer`; false when no station is bound there. */
    function GetButtonHeld(playerIndexInOverseer: int, button: DraxButtonID): (r: bool)
      requires Valid()
      reads this, associatedTCPManager, playerStationDataOrderList
      ensures r <==>
        StationAtIndex(playerIndexInOverseer).Some? &&
        StationAtIndex(playerIndexInOverseer).value.playerStationInputState[BitIndex(button)]
    {
      match StationAtIndex(playerIndexInOverseer)
      case None => false
      case Some(st) =>
        AnyAndBit(st.playerStationInputState, BitIndex(button));
        Any(And(st.playerStationInputState, ButtonMask(button)))
    }

    /** Whether `button` went down on that station this frame. */
    function GetButtonDown(playerIndexInOverseer: int, button: DraxButtonID): (r: bool)
      requires Valid()
      reads this, associatedTCPManager, playerStationDataOrderList
      ensures r <==>
        StationAtIndex(playerIndexInOverseer).Some? &&
        StationAtIndex(playerIndexInOverseer).value.playerStationInputStatePressed[BitIndex(button)]
    {
      match StationAtIndex(playerIndexInOverseer)
      case None => false
      case Some(st) =>
        AnyAndBit(st.playerStationInputStatePressed, BitIndex(button));
        Any(And(ButtonMask(button), st.playerStationInputStatePressed))
    }

    /** Whether `button` came up on that station this frame. */
    function GetButtonUp(playerIndexInOverseer: int, button: DraxButtonID): (r: bool)
      requires Valid()
      reads this, associatedTCPManager, playerStationDataOrderList
      ensures r <==>
        StationAtIndex(playerIndexInOverseer).Some? &&
        StationAtIndex(playerIndexInOverseer).value.playerStationInputStateReleased[BitIndex(button)]
    {
      match StationAtIndex(playerIndexInOverseer)
      case None => false
      case Some(st) =>
        AnyAndBit(st.playerStationInputStateReleased, BitIndex(button));
        Any(And(ButtonMask(button), st.playerStationInputStateReleased))
    }

    /**
     * The hash of some bound station on which `buttonID` went down this
     * frame, or 0 when there is none. The dictionary's enumeration order is
     * not specified, so when several stations qualify any of them may come back.
     */
    method GetButtonDownAny(buttonID: DraxButtonID) returns (hash: uint32)
      requires Valid()
      ensures hash != 0 ==>
        exists st :: st in playerStationDeviceDictionary.Values && st.playerStationHash == hash &&
                     st.playerStationInputStatePressed[BitIndex(buttonID)]
      ensures hash == 0 ==> (forall st :: st in playerStationDeviceDictionary.Values ==>
        !st.playerStationInputStatePressed[BitIndex(buttonID)])
    {
      var remaining := playerStationDeviceDictionary.Values;
      while remaining != {}
        invariant remaining <= playerStationDeviceDictionary.Values
        invariant forall st :: st in playerStationDeviceDictionary.Values && st !in remaining ==>
          !st.playerStationInputStatePressed[BitIndex(buttonID)]
        decreases remaining
      {
        var stationData :| stationData in remaining;
        AnyAndBit(stationData.playerStationInputStatePressed, BitIndex(buttonID));
        if Any(And(stationData.playerStationInputStatePressed, ButtonMask(buttonID))) {
          BoundStationHasHash(stationData);
          return stationData.playerStationHash;
        }
        remaining := remaining - {stationData};
      }
      return 0;
    }

    /** The hash of some bound station on which `buttonID` came up this frame, or 0 when there is none. */
    method GetButtonUpAny(buttonID: DraxButtonID) returns (hash: uint32)
      requires Valid()
      ensures hash != 0 ==>
        exists st :: st in playerStationDeviceDictionary.Values && st.playerStationHash == hash &&
                     st.playerStationInputStateReleased[BitIndex(buttonID)]
      ensures hash == 0 ==> (forall st :: st in playerStationDeviceDictionary.Values ==>
        !st.playerStationInputStateReleased[BitIndex(buttonID)])
    {
      var remaining := playerStationDeviceDictionary.Values;
      while remaining != {}
        invariant remaining <= playerStationDeviceDictionary.Values
        invariant forall st :: st in playerStationDeviceDictionary.Values && st !in remaining ==>
          !st.playerStationInputStateReleased[BitIndex(buttonID)]
        decreases remaining
      {
        var stationData :| stationData in remaining;
        AnyAndBit(stationData.playerStationInputStateReleased, BitIndex(buttonID));
        if Any(And(stationData.playerStationInputStateReleased, ButtonMask(buttonID))) {
          BoundStationHasHash(stationData);
          return stationData.playerStationHash;
        }
        remaining := remaining - {stationData};
      }
      return 0;
    }

    /** A station some key leads to holds a hash, so a search over the bound stations never reports one as 0. */
    lemma BoundStationHasHash(st: PlayerStationData)
      requires Valid() && st in playerStationDeviceDictionary.Values
      ensures st.playerStationHash != 0
    {
      var u :| u in playerStationDeviceDictionary && playerStationDeviceDictionary[u] == st;
      BoundStationIsSlot(u);
    }

    // --------------------------------------------------------------- joystick

    /**
     * Sets whether the station at `playerIndex` swaps its axes; nothing
     * happens when no station is bound there. The setting applies from the
     * next raw reading on.
     */
    method SetJoystickAxesSwapped(playerIndex: int, SwapJoystickAxisValues: bool)
      requires Valid()
      modifies playerStationDataOrderList
      ensures Valid() && unchanged(this)
      ensures StationAtIndex(playerIndex) == old(StationAtIndex(playerIndex))
      ensures GetJoystickAxesSwapped(playerIndex) == (StationAtIndex(playerIndex).Some? && SwapJoystickAxisValues)
      ensures match StationAtIndex(playerIndex)
        case None => OtherSlotsUnchanged(None)
        case Some(st) =>
          && st.View() == old(st.View()).(swapAxisValues := SwapJoystickAxisValues)
          && OtherSlotsUnchanged(Some(st))
    {
      var playerStationData := GetPlayerStationDataFromPlayerStationIndexInOverseer(playerIndex);
      IndexLookupNeverMisses(playerIndex);
      if playerStationData.StationAt? {
        var st := playerStationData.station;
        BoundStationIsSlot(GetPlayerStationHashFromPlayerStationIndex(playerIndex));
        st.swapAxisValues := SwapJoystickAxisValues;
        st.SwapSettingView();
        SettingKeepsValid(st);
      }
    }

    /** A slot whose pulse words and pulses kept their values leaves the bridge valid, as no hash moved. */
    twostate lemma SettingKeepsValid(st: PlayerStationData)
      requires old(Valid()) && unchanged(this) && unchanged(associatedTCPManager)
      requires st in playerStationDataOrderList && old(st.Valid()) ==> st.Valid()
      requires st.playerStationHash == old(st.playerStationHash)
      requires OtherSlotsUnchanged(Some(st))
      ensures Valid()
    {
      forall k | 0 <= k < |playerStationDataOrderList|
        ensures playerStationDataOrderList[k].playerStationIndex == k && playerStationDataOrderList[k].Valid()
      {
        assert old(playerStationDataOrderList[k].Valid());
      }
      assert SlotHashes() == old(SlotHashes());
    }

    /** Whether the station at `playerIndex` swaps its axes; false when no station is bound there. */
    function GetJoystickAxesSwapped(playerIndex: int): (r: bool)
      requires Valid()
      reads this, associatedTCPManager, playerStationDataOrderList
      ensures r ==> StationAtIndex(playerIndex).Some?
    {
      match StationAtIndex(playerIndex)
      case None => false
      case Some(st) => st.swapAxisValues
    }

    /**
     * The stored vertical axis of the station at `playerIndexInOverseer` as
     * a game value in [-1, 127/128], centred at 0 for the raw value 128; 0
     * when no station is bound there.
     */
    function GetVerticalJoystickAxis(playerIndexInOverseer: int): (r: real)
      requires Valid()
      reads this, associatedTCPManager, playerStationDataOrderList
      ensures -1.0 <= r <= 127.0 / 128.0
      ensures StationAtIndex(playerIndexInOverseer).None? ==> r == 0.0
      ensures StationAtIndex(playerIndexInOverseer).Some? ==>
        r * 128.0 + 128.0 == StationAtIndex(playerIndexInOverseer).value.joystickYAxis as real
    {
      match StationAtIndex(playerIndexInOverseer)
      case None => 0.0
      case Some(st) => AdjustJoystickAxisNormalized(st.joystickYAxis)
    }

    /** The stored horizontal axis of that station as a game value, likewise. */
    function GetHorizontalJoystickAxis(playerIndexInOverseer: int): (r: real)
      requires Valid()
      reads this, associatedTCPManager, playerStationDataOrderList
      ensures -1.0 <= r <= 127.0 / 128.0
      ensures StationAtIndex(playerIndexInOverseer).None? ==> r == 0.0
      ensures StationAtIndex(playerIndexInOverseer).Some? ==>
        r * 128.0 + 128.0 == StationAtIndex(playerIndexInOverseer).value.joystickXAxis as real
    {
      match StationAtIndex(playerIndexInOverseer)
      case None => 0.0
      case Some(st) => AdjustJoystickAxisNormalized(st.joystickXAxis)
    }

    /** The horizontal axes of slots `0..n` added up. */
    ghost function HorizontalTotal(n: nat): real
      requires Valid() && n <= MAX_PLAYER_STATIONS
      reads this, associatedTCPManager, playerStationDataOrderList
    {
      if n == 0 then 0.0 else HorizontalTotal(n - 1) + GetHorizontalJoystickAxis(n - 1)
    }

    /** The vertical axes of slots `0..n` added up. */
    ghost function VerticalTotal(n: nat): real
      requires Valid() && n <= MAX_PLAYER_STATIONS
      reads this, associatedTCPManager, playerStationDataOrderList
    {
      if n == 0 then 0.0 else VerticalTotal(n - 1) + GetVerticalJoystickAxis(n - 1)
    }

    /** All joysticks together: the horizontal axes of every slot added up and clamped into [-1, 1]. */
    method GetAllJoytickHorizontal() returns (r: real)
      requires Valid()
      ensures r == ClampUnit(HorizontalTotal(MAX_PLAYER_STATIONS))
      ensures -1.0 <= r <= 1.0
    {
      var horizontalTotal := 0.0;
      for i := 0 to |playerStationDataOrderList|
        invariant horizontalTotal == HorizontalTotal(i)
      {
        horizontalTotal := horizontalTotal + GetHorizontalJoystickAxis(i);
      }
      return ClampUnit(horizontalTotal);
    }

    /** All joysticks together: the vertical axes of every slot added up and clamped into [-1, 1]. */
    method GetAllJoystickVertical() returns (r: real)
      requires Valid()
      ensures r == ClampUnit(VerticalTotal(MAX_PLAYER_STATIONS))
      ensures -1.0 <= r <= 1.0
    {
      var verticalTotal := 0.0;
      for i := 0 to |playerStationDataOrderList|
        invariant verticalTotal == VerticalTotal(i)
      {
        verticalTotal := verticalTotal + GetVerticalJoystickAxis(i);
      }
      return ClampUnit(verticalTotal);
    }

    /**
     * With a single station bound, at slot `j`, the sum over all slots is that
     * station's own axis: every other slot adds 0.
     */
    lemma {:induction false} HorizontalTotalOfOne(j: nat, n: nat)
      requires Valid() && j < MAX_PLAYER_STATIONS && n <= MAX_PLAYER_STATIONS
      requires forall k :: 0 <= k < MAX_PLAYER_STATIONS && k != j ==> playerStationDataOrderList[k].playerStationHash == 0
      ensures HorizontalTotal(n) == if j < n then GetHorizontalJoystickAxis(j) else 0.0
    {
      if n > 0 {
        HorizontalTotalOfOne(j, n - 1);
      }
    }

    /** The total of `n` slots lies within `n` times the range of one axis. */
    lemma {:induction false} HorizontalTotalBounds(n: nat)
      requires Valid() && n <= MAX_PLAYER_STATIONS
      ensures -(n as real) <= HorizontalTotal(n) <= (n as real) * 127.0 / 128.0
    {
      if n > 0 {
        HorizontalTotalBounds(n - 1);
      }
    }

    // --------------------------------------------------------------- printing

    /** Whether a print job is out for the station at `playerStationIndex`; false when no station is bound there. */
    function GetPrintJobQueuedByPlayerIndex(playerStationIndex: int): (r: bool)
      requires Valid()
      reads this, associatedTCPManager, playerStationDataOrderList
      ensures r ==> GetPlayerStationHashFromPlayerStationIndex(playerStationIndex) != 0
    {
      match StationAtIndex(playerStationIndex)
      case None => false
      case Some(st) => st.printJobQueued
    }

    /** A print request for slot `playerStationIndex` goes out: the slot holds a hash and no job of its station is out. */
    ghost predicate PrintAllowed(playerStationIndex: int)
      requires Valid()
      reads this, associatedTCPManager, playerStationDataOrderList
    {
      GetPlayerStationHashFromPlayerStationIndex(playerStationIndex) != 0 &&
      !GetPrintJobQueuedByPlayerIndex(playerStationIndex)
    }

    /** Marks the station bound to `playerStationHash`, if any, as waiting for its print job. */
    method BeginCoroutineToBlockPrintUntilPrintJobVerificationReturned(playerStationHash: uint32)
      requires Valid()
      modifies playerStationDataOrderList
      ensures Valid() && unchanged(this)
      ensures playerStationHash !in playerStationDeviceDictionary ==> OtherSlotsUnchanged(None)
      ensures playerStationHash in playerStationDeviceDictionary ==>
        var st := playerStationDeviceDictionary[playerStationHash];
        st.View() == old(st.View()).(printJobQueued := true) && OtherSlotsUnchanged(Some(st))
    {
      var playerStationData := GetPlayerStationDataFromPlayerStationHash(playerStationHash);
      if playerStationData.Some? {
        BoundStationIsSlot(playerStationHash);
        playerStationData.value.PrintSentWaitingForResponse();
        SettingKeepsValid(playerStationData.value);
      }
    }

    /**
     * What every print request does once slot `playerStationIndex` passed
     * both checks: queue the job's event and block the station's printing
     * until the peer answers.
     */
    method SendPrintJob(playerStationIndex: int, eventIDByte: uint8, printerData: seq<uint8>)
      requires Valid() && PrintAllowed(playerStationIndex)
      modifies associatedTCPManager, playerStationDataOrderList
      ensures Valid() && unchanged(this) && MailboxesUnchanged()
      ensures Outbound() == old(Outbound()) + [QueuedPacket(eventIDByte, |printerData|)]
      ensures StationAtIndex(playerStationIndex) == old(StationAtIndex(playerStationIndex))
      ensures GetPrintJobQueuedByPlayerIndex(playerStationIndex)
      ensures var st := StationAtIndex(playerStationIndex).value;
        st.View() == old(st.View()).(printJobQueued := true) && OtherSlotsUnchanged(Some(st))
    {
      var playerStationHash := GetPlayerStationHashFromPlayerStationIndex(playerStationIndex);
      IndexLookupNeverMisses(playerStationIndex);
      QueueEventToSendToPython(eventIDByte, printerData, playerStationHash);
      BeginCoroutineToBlockPrintUntilPrintJobVerificationReturned(playerStationHash);
    }

    /**
     * Prints a cash-out voucher at station `playerStationIndexToPrintTo`:
     * refused when the slot holds no hash or a job is still out, otherwise
     * the ticket text goes out as ASCII and the station waits for the peer.
     */
    method PrintVoucherTicket(playerStationIndexToPrintTo: int, creditsToCashout: string, validationNumber: string,
                              dateTimeOfPrint: DateTime) returns (printed: bool)
      requires Valid()
      modifies associatedTCPManager, playerStationDataOrderList
      ensures Valid() && unchanged(this) && MailboxesUnchanged()
      ensures printed == old(PrintAllowed(playerStationIndexToPrintTo))
      ensures printed ==>
        && 0 <= playerStationIndexToPrintTo
        && Outbound() == old(Outbound()) + [QueuedPacket(PRINTER_CASHOUT_TICKET,
             |VoucherTicketString(creditsToCashout, playerStationIndexToPrintTo, validationNumber, dateTimeOfPrint)|)]
        && !PrintAllowed(playerStationIndexToPrintTo)
      ensures !printed ==> Outbound() == old(Outbound()) && OtherSlotsUnchanged(None)
    {
      var playerStationHash := GetPlayerStationHashFromPlayerStationIndex(playerStationIndexToPrintTo);
      if playerStationHash == 0 {
        return false;
      }
      if GetPrintJobQueuedByPlayerIndex(playerStationIndexToPrintTo) {
        return false;
      }
      var printerDataString :=
        VoucherTicketString(creditsToCashout, playerStationIndexToPrintTo, validationNumber, dateTimeOfPrint);
      SendPrintJob(playerStationIndexToPrintTo, PRINTER_CASHOUT_TICKET, AsciiBytes(printerDataString));
      return true;
    }

    /** Prints a test ticket stamped with `now`, the clock reading the bridge takes when asked. */
    method PrintTestticket(playerStationIndex: int, now: DateTime) returns (printed: bool)
      requires Valid()
      modifies associatedTCPManager, playerStationDataOrderList
      ensures Valid() && unchanged(this) && MailboxesUnchanged()
      ensures printed == old(PrintAllowed(playerStationIndex))
      ensures printed ==>
        && Outbound() == old(Outbound()) + [QueuedPacket(PRINTER_TEST_TICKET, |TestTicketString(now)|)]
        && !PrintAllowed(playerStationIndex)
      ensures !printed ==> Outbound() == old(Outbound()) && OtherSlotsUnchanged(None)
    {
      var playerStationHash := GetPlayerStationHashFromPlayerStationIndex(playerStationIndex);
      if playerStationHash == 0 {
        return false;
      }
      if GetPrintJobQueuedByPlayerIndex(playerStationIndex) {
        return false;
      }
      var testTicketDataString := TestTicketString(now);
      SendPrintJob(playerStationIndex, PRINTER_TEST_TICKET, AsciiBytes(testTicketDataString));
      return true;
    }

    /** Reprints a voucher with the date and time of the original print. */
    method PrintReprintTicket(playerStationIndex: int, creditsToCashout: string, validationNumber: string,
                              dateTimeOfOriginalPrint: DateTime) returns (printed: bool)
      requires Valid()
      modifies associatedTCPManager, playerStationDataOrderList
      ensures Valid() && unchanged(this) && MailboxesUnchanged()
      ensures printed == old(PrintAllowed(playerStationIndex))
      ensures printed ==>
        && 0 <= playerStationIndex
        && Outbound() == old(Outbound()) + [QueuedPacket(PRINTER_REPRINT_TICKET,
             |VoucherTicketString(creditsToCashout, playerStationIndex, validationNumber, dateTimeOfOriginalPrint)|)]
        && !PrintAllowed(playerStationIndex)
      ensures !printed ==> Outbound() == old(Outbound()) && OtherSlotsUnchanged(None)
    {
      var playerStationHash := GetPlayerStationHashFromPlayerStationIndex(playerStationIndex);
      if playerStationHash == 0 {
        return false;
      }
      if GetPrintJobQueuedByPlayerIndex(playerStationIndex) {
        return false;
      }
      var reprintDataString :=
        VoucherTicketString(creditsToCashout, playerStationIndex, validationNumber, dateTimeOfOriginalPrint);
      SendPrintJob(playerStationIndex, PRINTER_REPRINT_TICKET, AsciiBytes(reprintDataString));
      return true;
    }

    /** Prints a code-exchange ticket whose text the caller supplies. */
    method PrintCodeExchangeTicket(playerStationIndexToPrintTo: int, codexTicketDataString: string)
      returns (printed: bool)
      requires Valid()
      modifies associatedTCPManager, playerStationDataOrderList
      ensures Valid() && unchanged(this) && MailboxesUnchanged()
      ensures printed == old(PrintAllowed(playerStationIndexToPrintTo))
      ensures printed ==>
        && Outbound() == old(Outbound()) + [QueuedPacket(PRINTER_CODEX_TICKET, |codexTicketDataString|)]
        && !PrintAllowed(playerStationIndexToPrintTo)
      ensures !printed ==> Outbound() == old(Outbound()) && OtherSlotsUnchanged(None)
    {
      var playerStationHash := GetPlayerStationHashFromPlayerStationIndex(playerStationIndexToPrintTo);
      if playerStationHash == 0 {
        return false;
      }
      if GetPrintJobQueuedByPlayerIndex(playerStationIndexToPrintTo) {
        return false;
      }
      SendPrintJob(playerStationIndexToPrintTo, PRINTER_CODEX_TICKET, AsciiBytes(codexTicketDataString));
      return true;
    }

    /** Prints an audit ticket whose text the caller supplies; refused on the same two conditions. */
    method PrintAuditTicket(playerStationIndexToPrintTo: int, auditTicketDataString: string) returns (printed: bool)
      requires Valid()
      modifies associatedTCPManager, playerStationDataOrderList
      ensures Valid() && unchanged(this) && MailboxesUnchanged()
      ensures printed == old(PrintAllowed(playerStationIndexToPrintTo))
      ensures printed ==>
        && Outbound() == old(Outbound()) + [QueuedPacket(PRINTER_AUDIT_TICKET, |auditTicketDataString|)]
        && !PrintAllowed(playerStationIndexToPrintTo)
      ensures !printed ==> Outbound() == old(Outbound()) && OtherSlotsUnchanged(None)
    {
      var playerStationHash := GetPlayerStationHashFromPlayerStationIndex(playerStationIndexToPrintTo);
      if playerStationHash == 0 {
        return false;
      }
      if GetPrintJobQueuedByPlayerIndex(playerStationIndexToPrintTo) {
        return false;
      }
      SendPrintJob(playerStationIndexToPrintTo, PRINTER_AUDIT_TICKET, AsciiBytes(auditTicketDataString));
      return true;
    }
  }
}
