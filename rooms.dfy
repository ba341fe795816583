/**
 * The values held in the room registry: participants and rooms, and the
 * pure operations on one room that the event handlers of server.js apply.
 * A room is identified by an opaque id; a participant by the connection id
 * it currently uses, which changes when the owner reconnects.
 */
module Rooms {

  datatype Option<T> = None | Some(value: T)

  /** A volatile connection (socket) identifier. */
  type ConnId = string

  /** A room identifier (a fresh UUID in the server). */
  type RoomId = string

  /** Number of leading characters of a connection id used as the display name. */
  const DisplayNameLength := 5

  datatype Participant = Participant(id: ConnId, username: string)

  /** `owner` is the connection recognised as owner; `participants` are in join order. */
  datatype Room = Room(owner: ConnId, participants: seq<Participant>)

  /** `socket.id.slice(0, 5)`: the first five characters of the id, or all of a shorter id. */
  function DisplayName(id: ConnId): (r: string)
    ensures |r| == if |id| < DisplayNameLength then |id| else DisplayNameLength
    ensures r <= id
  {
    if |id| <= DisplayNameLength then id else id[..DisplayNameLength]
  }

  /** The record a connection gets when it is added to a room. */
  function Newcomer(id: ConnId): Participant
  {
    Participant(id, DisplayName(id))
  }

  /** True when some participant uses connection id `id`. */
  predicate HasMember(ps: seq<Participant>, id: ConnId)
  {
    exists i :: 0 <= i < |ps| && ps[i].id == id
  }

  /** Every room keeps a participant record for its owner. */
  predicate OwnerPresent(room: Room)
  {
    HasMember(room.participants, room.owner)
  }

  /**
   * `participants.findIndex(p => p.id === id)` (and `find`, which yields the
   * element at that index): the position of the FIRST participant using `id`.
   */
  function FindIndex(ps: seq<Participant>, id: ConnId): (r: Option<nat>)
    ensures r.Some? ==> r.value < |ps| && ps[r.value].id == id
    ensures r.Some? ==> forall j :: 0 <= j < r.value ==> ps[j].id != id
    ensures r.None? <==> !HasMember(ps, id)
  {
    if ps == [] then None
    else if ps[0].id == id then Some(0)
    else
      match FindIndex(ps[1..], id)
      case None =>
        assert forall j :: 1 <= j < |ps| ==> ps[j] == ps[1..][j - 1];
        None
      case Some(k) =>
        assert ps[k + 1] == ps[1..][k];
        assert forall j :: 1 <= j <= k ==> ps[j] == ps[1..][j - 1];
        Some(k + 1)
  }

  /** Number of participant records using connection id `id`. */
  function Occurrences(ps: seq<Participant>, id: ConnId): nat
  {
    if ps == [] then 0 else (if ps[0].id == id then 1 else 0) + Occurrences(ps[1..], id)
  }

  lemma {:induction false} OccurrencesAppend(ps: seq<Participant>, qs: seq<Participant>, id: ConnId)
    ensures Occurrences(ps + qs, id) == Occurrences(ps, id) + Occurrences(qs, id)
  {
    if ps != [] {
      assert (ps + qs)[1..] == ps[1..] + qs;
      OccurrencesAppend(ps[1..], qs, id);
    } else {
      assert ps + qs == qs;
    }
  }

  /** Counting records agrees with the existence test used by the handlers. */
  lemma {:induction false} OccurrencesPositive(ps: seq<Participant>, id: ConnId)
    ensures Occurrences(ps, id) > 0 <==> HasMember(ps, id)
  {
    if ps != [] {
      OccurrencesPositive(ps[1..], id);
      if HasMember(ps[1..], id) {
        var i :| 0 <= i < |ps[1..]| && ps[1..][i].id == id;
        assert ps[i + 1].id == id;
      }
      if HasMember(ps, id) && ps[0].id != id {
        var i :| 0 <= i < |ps| && ps[i].id == id;
        assert ps[1..][i - 1].id == id;
      }
    }
  }

  /**
   * Owner rejoin (server.js:47-53): the room's owner becomes `newId`, and the
   * first participant whose id is `oldId`, if any, now carries `newId`.
   */
  function Rebound(room: Room, oldId: ConnId, newId: ConnId): (r: Room)
    ensures r.owner == newId
    ensures |r.participants| == |room.participants|
    ensures forall i :: 0 <= i < |r.participants| ==> r.participants[i].username == room.participants[i].username
    ensures !HasMember(room.participants, oldId) ==> r.participants == room.participants
    ensures HasMember(room.participants, oldId) ==>
      var k := FindIndex(room.participants, oldId).value;
      && r.participants[k].id == newId
      && forall i :: 0 <= i < |r.participants| && i != k ==> r.participants[i] == room.participants[i]
    ensures room.owner == oldId && OwnerPresent(room) ==> OwnerPresent(r)
  {
    var ps := room.participants;
    match FindIndex(ps, oldId)
    case None => Room(newId, ps)
    case Some(k) => Room(newId, ps[k := ps[k].(id := newId)])
  }

  /** A regular join (server.js:55-60): a newcomer is appended after every existing participant. */
  function WithNewcomer(room: Room, id: ConnId): (r: Room)
    ensures r.owner == room.owner
    ensures |r.participants| == |room.participants| + 1
    ensures r.participants[..|room.participants|] == room.participants
    ensures r.participants[|room.participants|] == Participant(id, DisplayName(id))
    ensures OwnerPresent(room) ==> OwnerPresent(r)
  {
    var ps := room.participants + [Newcomer(id)];
    assert OwnerPresent(room) ==> ps[FindIndex(room.participants, room.owner).value].id == room.owner;
    Room(room.owner, ps)
  }

  /**
   * `splice(findIndex(p => p.id === id), 1)` guarded by "found": removes the
   * first participant using `id`, keeping the others in their order.
   */
  function WithoutFirst(ps: seq<Participant>, id: ConnId): (r: seq<Participant>)
    ensures !HasMember(ps, id) ==> r == ps
    ensures HasMember(ps, id) ==>
      var k := FindIndex(ps, id).value;
      && |r| == |ps| - 1
      && (forall i :: 0 <= i < k ==> r[i] == ps[i])
      && (forall i :: k <= i < |r| ==> r[i] == ps[i + 1])
    ensures Occurrences(r, id) == if HasMember(ps, id) then Occurrences(ps, id) - 1 else Occurrences(ps, id)
    ensures forall other :: other != id ==> (HasMember(r, other) <==> HasMember(ps, other))
  {
    match FindIndex(ps, id)
    case None => ps
    case Some(k) =>
      RemoveAtOccurrences(ps, k, id);
      OccurrencesPositive(ps, id);
      forall other | other != id
        ensures HasMember(ps[..k] + ps[k + 1..], other) <==> HasMember(ps, other)
      {
        RemoveAtKeepsOthers(ps, k, other);
      }
      ps[..k] + ps[k + 1..]
  }

  lemma RemoveAtOccurrences(ps: seq<Participant>, k: nat, id: ConnId)
    requires k < |ps|
    ensures Occurrences(ps[..k] + ps[k + 1..], id) + (if ps[k].id == id then 1 else 0) == Occurrences(ps, id)
  {
    assert ps == ps[..k] + [ps[k]] + ps[k + 1..];
    OccurrencesAppend(ps[..k] + [ps[k]], ps[k + 1..], id);
    OccurrencesAppend(ps[..k], [ps[k]], id);
    OccurrencesAppend(ps[..k], ps[k + 1..], id);
    assert [ps[k]][1..] == [];
  }

  lemma RemoveAtKeepsOthers(ps: seq<Participant>, k: nat, other: ConnId)
    requires k < |ps| && ps[k].id != other
    ensures HasMember(ps[..k] + ps[k + 1..], other) <==> HasMember(ps, other)
  {
    var r := ps[..k] + ps[k + 1..];
    if HasMember(ps, other) {
      var i :| 0 <= i < |ps| && ps[i].id == other;
      if i < k { assert r[i] == ps[i]; } else { assert r[i - 1] == ps[i]; }
    }
    if HasMember(r, other) {
      var i :| 0 <= i < |r| && r[i].id == other;
      if i < k { assert r[i] == ps[i]; } else { assert r[i] == ps[i + 1]; }
    }
  }

  /**
   * What the deferred grace check (server.js:89-103) does to a room that still
   * exists, for the stale connection id `staleId`: `None` when the room is
   * closed, otherwise the room left behind.
   */
  function GraceOutcome(room: Room, staleId: ConnId): (r: Option<Room>)
    ensures r.None? <==> room.owner == staleId
    ensures r.Some? ==> r.value.owner == room.owner
    ensures r.Some? && !HasMember(room.participants, staleId) ==> r.value == room
    ensures r.Some? && HasMember(room.participants, staleId) ==>
      |r.value.participants| == |room.participants| - 1
    ensures r.Some? ==> r.value.participants == WithoutFirst(room.participants, staleId)
    ensures r.Some? && OwnerPresent(room) ==> OwnerPresent(r.value)
  {
    if room.owner == staleId then None
    else Some(room.(participants := WithoutFirst(room.participants, staleId)))
  }

  /**
   * The reconnect race (server.js:47-53 then server.js:91-103): the owner
   * reloads, rejoins as `newId` naming its old id, and the grace check
   * scheduled for the old id later fires. The room survives unchanged, with
   * the new owner and as many participants as before, provided the old id
   * had at most one participant record.
   */
  lemma OwnerRejoinSurvivesGrace(room: Room, oldId: ConnId, newId: ConnId)
    requires room.owner == oldId && oldId != newId
    requires Occurrences(room.participants, oldId) <= 1
    ensures GraceOutcome(Rebound(room, oldId, newId), oldId) == Some(Rebound(room, oldId, newId))
    ensures Rebound(room, oldId, newId).owner == newId
    ensures |Rebound(room, oldId, newId).participants| == |room.participants|
  {
    var ps := room.participants;
    if HasMember(ps, oldId) {
      ReboundOccurrences(room, oldId, newId);
      OccurrencesPositive(Rebound(room, oldId, newId).participants, oldId);
    }
  }

  /**
   * The same race after a repeat join left the owner's id on two or more
   * records: the rejoin rebinds only the first, so the grace check finds the
   * next one and removes it. The room survives under the new owner but with
   * one participant fewer.
   */
  lemma OwnerRejoinWithDuplicateLosesRecord(room: Room, oldId: ConnId, newId: ConnId)
    requires room.owner == oldId && oldId != newId
    requires Occurrences(room.participants, oldId) >= 2
    ensures GraceOutcome(Rebound(room, oldId, newId), oldId).Some?
    ensures
      var after := GraceOutcome(Rebound(room, oldId, newId), oldId).value;
      && after.owner == newId
      && |after.participants| == |room.participants| - 1
      && Occurrences(after.participants, oldId) == Occurrences(room.participants, oldId) - 2
  {
    OccurrencesPositive(room.participants, oldId);
    ReboundOccurrences(room, oldId, newId);
    OccurrencesPositive(Rebound(room, oldId, newId).participants, oldId);
  }

  /** Rebinding the first record of `oldId` to another id leaves one record of `oldId` fewer. */
  lemma ReboundOccurrences(room: Room, oldId: ConnId, newId: ConnId)
    requires oldId != newId && HasMember(room.participants, oldId)
    ensures Occurrences(Rebound(room, oldId, newId).participants, oldId) == Occurrences(room.participants, oldId) - 1
  {
    var ps := room.participants;
    var rp := Rebound(room, oldId, newId).participants;
    var k := FindIndex(ps, oldId).value;
    assert rp == ps[k := ps[k].(id := newId)];
    assert ps == ps[..k] + [ps[k]] + ps[k + 1..];
    assert rp == ps[..k] + [rp[k]] + ps[k + 1..];
    OccurrencesAppend(ps[..k] + [ps[k]], ps[k + 1..], oldId);
    OccurrencesAppend(ps[..k], [ps[k]], oldId);
    OccurrencesAppend(ps[..k] + [rp[k]], ps[k + 1..], oldId);
    OccurrencesAppend(ps[..k], [rp[k]], oldId);
    assert [ps[k]][1..] == [] && [rp[k]][1..] == [];
  }

  /**
   * A non-owner reloads: the new connection joins as a newcomer and the grace
   * check for its old id then removes the old record. The room ends with as
   * many participants as before, the others in their order, and the newcomer last.
   */
  lemma GuestReloadKeepsCount(room: Room, staleId: ConnId, newId: ConnId)
    requires room.owner != staleId && staleId != newId
    requires HasMember(room.participants, staleId)
    ensures GraceOutcome(WithNewcomer(room, newId), staleId).Some?
    ensures
      var after := GraceOutcome(WithNewcomer(room, newId), staleId).value;
      && after.owner == room.owner
      && after.participants == WithoutFirst(room.participants, staleId) + [Newcomer(newId)]
  {
    var ps := room.participants;
    var x := Newcomer(newId);
    assert WithNewcomer(room, newId).participants == ps + [x];
    FindIndexAppend(ps, x, staleId);
    var k := FindIndex(ps, staleId).value;
    assert (ps + [x])[..k] == ps[..k];
    assert (ps + [x])[k + 1..] == ps[k + 1..] + [x];
  }

  /** Appending a record with another id does not move the first match. */
  lemma FindIndexAppend(ps: seq<Participant>, x: Participant, id: ConnId)
    requires x.id != id && HasMember(ps, id)
    ensures FindIndex(ps + [x], id) == FindIndex(ps, id)
  {
    var k := FindIndex(ps, id).value;
    var qs := ps + [x];
    assert qs[k] == ps[k];
    assert forall j :: 0 <= j < k ==> qs[j] == ps[j];
    var r := FindIndex(qs, id);
    assert r.Some?;
    assert r.value == k;
  }
}
