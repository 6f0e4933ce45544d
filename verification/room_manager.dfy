/** The room registry: call id -> platform room name, with room creation and
    best-effort teardown. */
module RoomManager {
  import opened Common
  import opened Effects
  import EgressManager

  type Rooms = map<string, string>

  /** Driver, bot and one human. */
  const MaxParticipants: int := 3

  /** Every registered call maps to its own room. */
  ghost predicate WellFormed(rooms: Rooms) {
    forall c :: c in rooms ==> rooms[c] == RoomName(c)
  }

  /** A registered call's room name is never empty, so `closeRoom`'s
      missing-name test never fires for a registered call. */
  lemma RegisteredRoomNameNonEmpty(rooms: Rooms, callId: string)
    requires WellFormed(rooms) && callId in rooms
    ensures rooms[callId] != ""
  {
  }

  /** `createOrGetRoom`. `listing` is the platform's room listing (names) and
      `createOk` whether creating the room succeeded. `name` is Threw when the
      returned promise is rejected. */
  datatype CreateResult = CreateResult(rooms: Rooms, effects: seq<Effect>, name: Reply<string>)

  function CreateOrGetRoom(rooms: Rooms, callId: string, listing: Reply<seq<string>>, createOk: bool): (r: CreateResult)
    // a known call answers from the registry, without touching the platform
    ensures callId in rooms ==> r == CreateResult(rooms, [], Returned(RoomName(callId)))
    ensures r.name.Returned? ==> r.name.value == RoomName(callId)
    ensures r.name.Returned? <==>
              callId in rooms || (listing.Returned? && (RoomName(callId) in listing.value || createOk))
    ensures callId !in rooms && r.name.Returned? ==> r.rooms == rooms[callId := RoomName(callId)]
    ensures r.name.Threw? ==> r.rooms == rooms
    // an unknown call first lists rooms, then creates the room only if it is not listed
    ensures callId !in rooms ==>
              r.effects == [Invoke(ListRooms)] +
                           (if listing.Returned? && RoomName(callId) !in listing.value
                            then [Invoke(CreateRoom(RoomName(callId), callId, MaxParticipants))] else [])
    ensures SameElsewhere(rooms, r.rooms, callId)
    ensures WellFormed(rooms) ==> WellFormed(r.rooms)
  {
    var roomName := RoomName(callId);
    if callId in rooms then CreateResult(rooms, [], Returned(roomName))
    else
      match listing
      case Threw => CreateResult(rooms, [Invoke(ListRooms)], Threw)
      case Returned(names) =>
        if roomName in names then
          CreateResult(rooms[callId := roomName], [Invoke(ListRooms)], Returned(roomName))
        else
          var effects := [Invoke(ListRooms), Invoke(CreateRoom(roomName, callId, MaxParticipants))];
          if createOk then CreateResult(rooms[callId := roomName], effects, Returned(roomName))
          else CreateResult(rooms, effects, Threw)
  }

  /** createOrGetRoom issues at most one room creation, exactly when the call
      is unknown and its room is missing from the listing, and always with the
      call's room name, its id as metadata and the participant cap. */
  lemma CreateOrGetRoomCreatesOnce(rooms: Rooms, callId: string, listing: Reply<seq<string>>, createOk: bool)
    ensures var r := CreateOrGetRoom(rooms, callId, listing, createOk);
            && CountCreates(r.effects) ==
                 (if callId !in rooms && listing.Returned? && RoomName(callId) !in listing.value then 1 else 0)
            && forall i :: 0 <= i < |r.effects| && IsCreateRoom(r.effects[i]) ==>
                 r.effects[i] == Invoke(CreateRoom(RoomName(callId), callId, MaxParticipants))
  {
    var r := CreateOrGetRoom(rooms, callId, listing, createOk);
    if |r.effects| == 2 {
      assert r.effects[1..][1..] == [];
      assert CountCreates(r.effects[1..]) == 1;
    } else if |r.effects| == 1 {
      assert r.effects[1..] == [];
    }
  }

  /** Calling createOrGetRoom twice in a row for one call issues at most one
      room creation, and a successful first call makes the second one answer
      the same room name without touching the platform. */
  lemma CreateOrGetTwice(rooms: Rooms, callId: string, listing: Reply<seq<string>>, createOk: bool,
                         listing': Reply<seq<string>>, createOk': bool)
    requires callId !in rooms
    ensures var first := CreateOrGetRoom(rooms, callId, listing, createOk);
            var second := CreateOrGetRoom(first.rooms, callId, listing', createOk');
            first.name.Returned? ==>
              && second == CreateResult(first.rooms, [], first.name)
              && CountCreates(first.effects + second.effects) <= 1
  {
    CreateOrGetRoomCreatesOnce(rooms, callId, listing, createOk);
    var first := CreateOrGetRoom(rooms, callId, listing, createOk);
    assert first.effects + [] == first.effects;
  }

  /** What the platform does during teardown. Removing a participant throws
      exactly for the identities in `failingRemovals`. */
  datatype CloseReplies = CloseReplies(participants: Reply<seq<string>>, failingRemovals: set<string>,
                                       stopEgressOk: bool, deleteOk: bool)

  /** The platform calls removing each listed participant in turn, stopping
      after the first that throws; `ok` is false if one threw. */
  function RemoveEach(roomName: string, identities: seq<string>, failing: set<string>): (r: (seq<Effect>, bool))
    ensures r.1 <==> forall i :: 0 <= i < |identities| ==> identities[i] !in failing
    ensures |r.0| <= |identities|
    ensures forall i :: 0 <= i < |r.0| ==> r.0[i] == Invoke(RemoveParticipant(roomName, identities[i]))
    ensures r.1 ==> |r.0| == |identities|
    // on failure the trace ends at the first identity whose removal threw
    ensures !r.1 ==> 0 < |r.0| && identities[|r.0| - 1] in failing
    ensures forall i :: 0 <= i < |r.0| - 1 ==> identities[i] !in failing
    decreases |identities|
  {
    if identities == [] then ([], true)
    else
      var remove := Invoke(RemoveParticipant(roomName, identities[0]));
      if identities[0] in failing then ([remove], false)
      else
        var (rest, ok) := RemoveEach(roomName, identities[1..], failing);
        ([remove] + rest, ok)
  }

  datatype CloseResult = CloseResult(rooms: Rooms, recordings: EgressManager.Recordings, effects: seq<Effect>, threw: bool)

  /** Teardown reaches the recording stop only if listing and every removal
      succeeded. */
  predicate ReachesRecordingStop(replies: CloseReplies) {
    && replies.participants.Returned?
    && forall i :: 0 <= i < |replies.participants.value| ==> replies.participants.value[i] !in replies.failingRemovals
  }

  /** `closeRoom`: list participants, remove each, stop the recording, delete
      the room; the first failure skips the remaining platform steps, and the
      registry entry is removed in `finally` regardless. */
  function CloseRoom(rooms: Rooms, recs: EgressManager.Recordings, callId: string, replies: CloseReplies): (r: CloseResult)
    ensures (callId !in rooms || rooms[callId] == "") ==> r == CloseResult(rooms, recs, [], false)
    // guaranteed local cleanup, and no other call is touched
    ensures callId in rooms && rooms[callId] != "" ==> r.rooms == rooms - {callId}
    ensures SameElsewhere(rooms, r.rooms, callId)
    ensures WellFormed(rooms) ==> callId !in r.rooms && WellFormed(r.rooms)
    // the recording is stopped only when listing and every removal succeeded
    ensures r.recordings == if callId in rooms && rooms[callId] != "" && ReachesRecordingStop(replies)
                            then EgressManager.StopRecording(recs, callId, replies.stopEgressOk).0 else recs
    // the trace: list, remove each listed participant in turn, then stop the recording, then delete the room
    ensures callId in rooms && rooms[callId] != "" && replies.participants.Threw? ==>
              r.effects == [Invoke(ListParticipants(rooms[callId]))]
    ensures callId in rooms && rooms[callId] != "" && replies.participants.Returned? ==>
              var name := rooms[callId];
              r.effects == [Invoke(ListParticipants(name))]
                           + RemoveEach(name, replies.participants.value, replies.failingRemovals).0
                           + (if ReachesRecordingStop(replies)
                              then EgressManager.StopRecording(recs, callId, replies.stopEgressOk).1 + [Invoke(DeleteRoom(name))]
                              else [])
    ensures r.threw <==> callId in rooms && rooms[callId] != "" && !(ReachesRecordingStop(replies) && replies.deleteOk)
  {
    if callId !in rooms || rooms[callId] == "" then CloseResult(rooms, recs, [], false)
    else
      var roomName := rooms[callId];
      var cleared := rooms - {callId};
      var list := [Invoke(ListParticipants(roomName))];
      match replies.participants
      case Threw => CloseResult(cleared, recs, list, true)
      case Returned(identities) =>
        var (removals, removedAll) := RemoveEach(roomName, identities, replies.failingRemovals);
        if !removedAll then CloseResult(cleared, recs, list + removals, true)
        else
          var (recs', stop) := EgressManager.StopRecording(recs, callId, replies.stopEgressOk);
          var effects := list + removals + stop + [Invoke(DeleteRoom(roomName))];
          CloseResult(cleared, recs', effects, !replies.deleteOk)
  }

  /** Teardown starts by listing participants, and deletes the room, as its
      very last platform call, exactly when listing and every removal
      succeeded. */
  lemma CloseRoomDeletesLast(rooms: Rooms, recs: EgressManager.Recordings, callId: string, replies: CloseReplies)
    requires callId in rooms && rooms[callId] != ""
    ensures var r := CloseRoom(rooms, recs, callId, replies);
            && 0 < |r.effects| && r.effects[0] == Invoke(ListParticipants(rooms[callId]))
            && ((exists i :: 0 <= i < |r.effects| && r.effects[i].Invoke? && r.effects[i].call.DeleteRoom?) <==>
                  ReachesRecordingStop(replies))
            && (ReachesRecordingStop(replies) ==> r.effects[|r.effects| - 1] == Invoke(DeleteRoom(rooms[callId])))
  {
    var r := CloseRoom(rooms, recs, callId, replies);
    var name := rooms[callId];
    if replies.participants.Returned? {
      var (removals, _) := RemoveEach(name, replies.participants.value, replies.failingRemovals);
      NoDeleteAmongRemovals(removals, name, replies.participants.value);
      var list := [Invoke(ListParticipants(name))];
      if ReachesRecordingStop(replies) {
        var stop := EgressManager.StopRecording(recs, callId, replies.stopEgressOk).1;
        assert r.effects == list + removals + stop + [Invoke(DeleteRoom(name))];
        assert r.effects[|r.effects| - 1].call.DeleteRoom?;
      } else {
        assert r.effects == list + removals;
        forall i | 0 <= i < |r.effects|
          ensures !(r.effects[i].Invoke? && r.effects[i].call.DeleteRoom?)
        {
          if i > 0 {
            assert r.effects[i] == removals[i - 1];
          }
        }
      }
    }
  }

  /** Removal calls are not room deletions. */
  lemma NoDeleteAmongRemovals(removals: seq<Effect>, roomName: string, identities: seq<string>)
    requires |removals| <= |identities|
    requires forall i :: 0 <= i < |removals| ==> removals[i] == Invoke(RemoveParticipant(roomName, identities[i]))
    ensures forall i :: 0 <= i < |removals| ==> !(removals[i].Invoke? && removals[i].call.DeleteRoom?)
  {
  }

  /** Creating a room for a fresh call and closing it again leaves the room
      registry as it was, whatever the platform does during teardown. */
  lemma CreateCloseRoundTrip(rooms: Rooms, recs: EgressManager.Recordings, callId: string,
                             listing: Reply<seq<string>>, createOk: bool, replies: CloseReplies)
    requires callId !in rooms
    ensures var created := CreateOrGetRoom(rooms, callId, listing, createOk);
            CloseRoom(created.rooms, recs, callId, replies).rooms == rooms
  {
  }
}
