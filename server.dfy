/**
 * The room registry of server.js: the `rooms` object, mutated in place by the
 * socket event handlers, and the body of the grace-period timer that
 * `handleDisconnect` schedules. Each handler returns the events it emits
 * instead of sending them; the timer is its own method, so a reconnect that
 * races the timer is an ordinary sequence of method calls.
 */
module Server {
  import opened Rooms
  import JsText

  const NoSuchRoom := "This room does not exist."
  const HostLeft := "The host has left the room."

  /** Longest accepted chat message, in UTF-16 code units. */
  const MaxMessageLength := 500

  datatype Event =
    | RoomCreated(roomId: RoomId)
    | JoinError(reason: string)
    | UpdateParticipants(participants: seq<Participant>)
    | ReceiveMessage(sender: Participant, message: string)
    | RoomClosed(reason: string)

  /** An emitted event and its audience: one socket, or every socket in a room's group. */
  datatype Emission = ToSocket(socket: ConnId, event: Event) | ToRoom(room: RoomId, event: Event)

  /** A field of an incoming payload: a string, or a value of any other type. */
  datatype JsValue = JsString(s: string) | NotString

  /** A pending grace-period check: the room to re-examine and the connection id that went stale. */
  datatype GraceCheck = GraceCheck(roomId: RoomId, staleId: ConnId)

  /** The message test of handleSendMessage: not blank after trimming, at most 500 UTF-16 code units. */
  predicate Acceptable(message: string)
  {
    JsText.Trim(message) != [] && JsText.Utf16Length(message) <= MaxMessageLength
  }

  predicate Distinct(keys: seq<RoomId>)
  {
    forall i, j :: 0 <= i < j < |keys| ==> keys[i] != keys[j]
  }

  /** `keys` with `k` taken out, the rest in their order: the key order after `delete rooms[k]`. */
  function RemoveKey(keys: seq<RoomId>, k: RoomId): (r: seq<RoomId>)
    ensures forall x :: x in r <==> x in keys && x != k
    ensures Distinct(keys) ==> Distinct(r)
    ensures k !in keys ==> r == keys
  {
    if keys == [] then []
    else
      var rest := RemoveKey(keys[1..], k);
      assert Distinct(keys) ==> Distinct(keys[1..]) && keys[0] !in keys[1..];
      if keys[0] == k then rest else [keys[0]] + rest
  }

  /** Deleting a key that is present cuts exactly its one position out of the order; the other keys keep their order. */
  lemma {:induction false} RemoveKeyKeepsOrder(keys: seq<RoomId>, k: RoomId)
    requires Distinct(keys) && k in keys
    ensures exists i :: 0 <= i < |keys| && keys[i] == k && RemoveKey(keys, k) == keys[..i] + keys[i + 1..]
  {
    assert Distinct(keys[1..]) && keys[0] !in keys[1..];
    if keys[0] == k {
      assert RemoveKey(keys, k) == keys[..0] + keys[0 + 1..];
    } else {
      RemoveKeyKeepsOrder(keys[1..], k);
      var i :| 0 <= i < |keys[1..]| && keys[1..][i] == k && RemoveKey(keys[1..], k) == keys[1..][..i] + keys[1..][i + 1..];
      ConsSplice(keys, i);
    }
  }

  lemma ConsSplice(keys: seq<RoomId>, i: nat)
    requires i + 1 < |keys|
    ensures [keys[0]] + (keys[1..][..i] + keys[1..][i + 1..]) == keys[..i + 1] + keys[i + 2..]
  {
    assert keys[1..][..i] == keys[1..i + 1];
    assert keys[1..][i + 1..] == keys[i + 2..];
    assert [keys[0]] + keys[1..i + 1] == keys[..i + 1];
  }

  class Registry {
    /** The `rooms` object: room id to room. */
    var rooms: map<RoomId, Room>
    /** The order in which `for (const roomId in rooms)` visits the keys: creation order. */
    var order: seq<RoomId>

    ghost predicate Valid()
      reads this
    {
      && Distinct(order)
      && (forall k :: k in order <==> k in rooms)
      && (forall k :: k in rooms ==> OwnerPresent(rooms[k]))
    }

    constructor ()
      ensures Valid() && rooms == map[] && order == []
    {
      rooms := map[];
      order := [];
    }

    /** `updateParticipants(roomId)` (server.js:16-20): the room's current list, sent to its group, if the room exists. */
    function ParticipantsUpdate(roomId: RoomId): seq<Emission>
      reads this
    {
      if roomId in rooms then [ToRoom(roomId, UpdateParticipants(rooms[roomId].participants))] else []
    }

    /**
     * `handleCreateRoom` (server.js:24-34). `freshId` stands for the value of
     * `uuidv4()`, which never names an existing room.
     */
    method CreateRoom(socketId: ConnId, freshId: RoomId) returns (out: seq<Emission>)
      requires Valid() && freshId !in rooms
      modifies this
      ensures Valid()
      ensures rooms.Keys == old(rooms).Keys + {freshId}
      ensures forall k :: k in old(rooms) ==> rooms[k] == old(rooms)[k]
      ensures rooms[freshId].owner == socketId
      ensures rooms[freshId].participants == [Participant(socketId, DisplayName(socketId))]
      ensures order == old(order) + [freshId]
      ensures out == [ToSocket(socketId, RoomCreated(freshId)),
                      ToRoom(freshId, UpdateParticipants(rooms[freshId].participants))]
    {
      rooms := rooms[freshId := Room(socketId, [Newcomer(socketId)])];
      order := order + [freshId];
      assert rooms[freshId].participants[0].id == socketId;
      out := [ToSocket(socketId, RoomCreated(freshId))];
      out := out + ParticipantsUpdate(freshId);
    }

    /**
     * `handleJoinRoom` (server.js:36-65). An absent `oldSocketId` (any falsy
     * value) is the empty string.
     */
    method JoinRoom(socketId: ConnId, roomId: RoomId, oldSocketId: string) returns (out: seq<Emission>)
      requires Valid()
      modifies this
      ensures Valid() && order == old(order)
      ensures roomId !in old(rooms) ==>
        rooms == old(rooms) && out == [ToSocket(socketId, JoinError(NoSuchRoom))]
      ensures roomId in old(rooms) && oldSocketId != "" && old(rooms)[roomId].owner == oldSocketId ==>
        rooms == old(rooms)[roomId := Rebound(old(rooms)[roomId], oldSocketId, socketId)]
      ensures roomId in old(rooms) && !(oldSocketId != "" && old(rooms)[roomId].owner == oldSocketId) ==>
        rooms == old(rooms)[roomId := WithNewcomer(old(rooms)[roomId], socketId)]
      ensures roomId in old(rooms) ==>
        out == [ToRoom(roomId, UpdateParticipants(rooms[roomId].participants))]
    {
      if roomId !in rooms {
        out := [ToSocket(socketId, JoinError(NoSuchRoom))];
        return;
      }
      var room := rooms[roomId];
      if oldSocketId != "" && room.owner == oldSocketId {
        room := room.(owner := socketId);
        var found := FindIndex(room.participants, oldSocketId);
        if found.Some? {
          var k := found.value;
          room := room.(participants := room.participants[k := room.participants[k].(id := socketId)]);
        }
      } else {
        room := room.(participants := room.participants + [Newcomer(socketId)]);
      }
      assert room == if oldSocketId != "" && rooms[roomId].owner == oldSocketId
        then Rebound(rooms[roomId], oldSocketId, socketId)
        else WithNewcomer(rooms[roomId], socketId);
      rooms := rooms[roomId := room];
      out := ParticipantsUpdate(roomId);
    }

    /**
     * `handleSendMessage` (server.js:67-79). It only reads the registry; the
     * message goes to the room's group when every check passes, tagged with
     * the first participant record of the sending connection.
     */
    method SendMessage(socketId: ConnId, roomId: JsValue, message: JsValue) returns (out: seq<Emission>)
      ensures out != [] <==>
        && roomId.JsString? && message.JsString?
        && !JsText.IsBlank(message.s)
        && JsText.Utf16Length(message.s) <= MaxMessageLength
        && roomId.s in rooms
        && HasMember(rooms[roomId.s].participants, socketId)
      ensures out != [] ==>
        var ps := rooms[roomId.s].participants;
        out == [ToRoom(roomId.s, ReceiveMessage(ps[FindIndex(ps, socketId).value], message.s))]
    {
      out := [];
      if !roomId.JsString? || !message.JsString? {
        return;
      }
      var id, text := roomId.s, message.s;
      JsText.TrimEmptyIffBlank(text);
      if !Acceptable(text) {
        return;
      }
      if id !in rooms {
        return;
      }
      var found := FindIndex(rooms[id].participants, socketId);
      if found.Some? {
        out := [ToRoom(id, ReceiveMessage(rooms[id].participants[found.value], text))];
      }
    }

    /**
     * The synchronous part of `handleDisconnect` (server.js:81-108): it changes
     * nothing and reports the grace check to schedule, for the first room (in
     * key order) that has a participant using the connection, or none.
     */
    method Disconnect(socketId: ConnId) returns (check: Option<GraceCheck>)
      requires Valid()
      ensures check.None? <==> forall k :: k in rooms ==> !HasMember(rooms[k].participants, socketId)
      ensures check.Some? ==>
        && check.value.staleId == socketId
        && exists i :: 0 <= i < |order| && order[i] == check.value.roomId
             && HasMember(rooms[order[i]].participants, socketId)
             && forall j :: 0 <= j < i ==> !HasMember(rooms[order[j]].participants, socketId)
    {
      check := None;
      var i := 0;
      while i < |order|
        invariant 0 <= i <= |order|
        invariant check.None?
        invariant forall j :: 0 <= j < i ==> !HasMember(rooms[order[j]].participants, socketId)
      {
        var roomId := order[i];
        var participantIndex := FindIndex(rooms[roomId].participants, socketId);
        if participantIndex.Some? {
          check := Some(GraceCheck(roomId, socketId));
          break;
        }
        i := i + 1;
      }
      if check.None? {
        forall k | k in rooms
          ensures !HasMember(rooms[k].participants, socketId)
        {
          var j :| 0 <= j < |order| && order[j] == k;
        }
      }
    }

    /**
     * The timer callback scheduled by `handleDisconnect` (server.js:89-104),
     * firing after the grace period. It re-reads the registry: a vanished room
     * is left alone; a room still owned by the stale id is closed and deleted;
     * otherwise the first participant record with the stale id, if any, is removed.
     */
    method GraceExpire(roomId: RoomId, staleId: ConnId) returns (out: seq<Emission>)
      requires Valid()
      modifies this
      ensures Valid()
      ensures roomId !in old(rooms) ==> rooms == old(rooms) && order == old(order) && out == []
      ensures roomId in old(rooms) && GraceOutcome(old(rooms)[roomId], staleId).None? ==>
        && rooms == old(rooms) - {roomId}
        && order == RemoveKey(old(order), roomId)
        && out == [ToRoom(roomId, RoomClosed(HostLeft))]
      ensures roomId in old(rooms) && GraceOutcome(old(rooms)[roomId], staleId).Some? ==>
        && rooms == old(rooms)[roomId := GraceOutcome(old(rooms)[roomId], staleId).value]
        && order == old(order)
        && (out != [] <==> HasMember(old(rooms)[roomId].participants, staleId))
        && (out != [] ==> out == [ToRoom(roomId, UpdateParticipants(rooms[roomId].participants))])
    {
      out := [];
      if roomId in rooms && rooms[roomId].owner == staleId {
        out := [ToRoom(roomId, RoomClosed(HostLeft))];
        rooms := rooms - {roomId};
        order := RemoveKey(order, roomId);
      } else if roomId in rooms {
        var room := rooms[roomId];
        var currentParticipantIndex := FindIndex(room.participants, staleId);
        if currentParticipantIndex.Some? {
          var k := currentParticipantIndex.value;
          room := room.(participants := room.participants[..k] + room.participants[k + 1..]);
          assert Some(room) == GraceOutcome(rooms[roomId], staleId);
          rooms := rooms[roomId := room];
          out := ParticipantsUpdate(roomId);
        }
      }
    }
  }

  /**
   * The reconnect race on a fresh registry: the owner of a new room
   * disconnects, reloads under a new connection id naming its old one, and
   * the grace check for the old id fires afterwards. No room_closed is
   * emitted and the room remains, owned by the new connection, with its one
   * participant.
   */
  method OwnerReloadWithinGrace(ownerId: ConnId, reloadedId: ConnId, roomId: RoomId)
    returns (closed: bool, present: bool, newOwner: ConnId, size: nat)
    requires ownerId != "" && ownerId != reloadedId
    ensures !closed && present && newOwner == reloadedId && size == 1
  {
    var registry := new Registry();
    var _ := registry.CreateRoom(ownerId, roomId);
    var check := registry.Disconnect(ownerId);
    assert HasMember(registry.rooms[roomId].participants, ownerId) by {
      assert registry.rooms[roomId].participants[0].id == ownerId;
    }
    assert check == Some(GraceCheck(roomId, ownerId));
    var _ := registry.JoinRoom(reloadedId, roomId, ownerId);
    OwnerRejoinSurvivesGrace(Room(ownerId, [Newcomer(ownerId)]), ownerId, reloadedId);
    var events := registry.GraceExpire(check.value.roomId, check.value.staleId);
    closed := ToRoom(roomId, RoomClosed(HostLeft)) in events;
    present := roomId in registry.rooms;
    newOwner := registry.rooms[roomId].owner;
    size := |registry.rooms[roomId].participants|;
  }

  /**
   * The owner disconnects and does not come back: when the grace check fires
   * the room is gone and exactly one room_closed was sent to its group.
   */
  method OwnerLeavesForGood(ownerId: ConnId, guestId: ConnId, roomId: RoomId)
    returns (events: seq<Emission>, present: bool)
    requires ownerId != guestId
    ensures events == [ToRoom(roomId, RoomClosed(HostLeft))] && !present
  {
    var registry := new Registry();
    var _ := registry.CreateRoom(ownerId, roomId);
    var _ := registry.JoinRoom(guestId, roomId, "");
    var check := registry.Disconnect(ownerId);
    assert HasMember(registry.rooms[roomId].participants, ownerId) by {
      assert registry.rooms[roomId].participants[0].id == ownerId;
    }
    events := registry.GraceExpire(check.value.roomId, check.value.staleId);
    present := roomId in registry.rooms;
  }
}
