/** Participant join/leave handling: role resolution, role persistence in
    metadata, call events, and teardown when the driver leaves. */
module ParticipantManager {
  import opened Common
  import opened Roles
  import opened Effects
  import EgressManager
  import RoomManager

  /** No identity starts with both "driver" and "bot". */
  lemma DriverAndBotPrefixesExclusive(identity: string)
    ensures !(HasPrefix(identity, "driver") && HasPrefix(identity, "bot"))
  {
    if HasPrefix(identity, "driver") {
      assert identity[..6][0] == 'd';
    }
  }

  /** Role from the identity prefix; "driver" is checked before "bot", though
      the two prefixes can never both match. */
  function ResolveRole(identity: string): (r: Role)
    ensures r == Driver <==> HasPrefix(identity, "driver")
    ensures r == Bot <==> HasPrefix(identity, "bot")
    ensures r == Human <==> !HasPrefix(identity, "driver") && !HasPrefix(identity, "bot")
  {
    DriverAndBotPrefixesExclusive(identity);
    if HasPrefix(identity, "driver") then Driver
    else if HasPrefix(identity, "bot") then Bot
    else Human
  }

  /** Any identity that begins with a role's name resolves to that role. */
  lemma ResolveRoleOfRoleName(r: Role, suffix: string)
    ensures ResolveRole(RoleName(r) + suffix) == r
  {
    var identity := RoleName(r) + suffix;
    assert identity[..|RoleName(r)|] == RoleName(r);
    match r
    case Driver =>
      assert HasPrefix(identity, "driver");
    case Bot =>
      assert HasPrefix(identity, "bot");
    case Human =>
      assert identity[0] == 'h';
      assert !HasPrefix(identity, "driver") by { assert "driver"[0] == 'd'; }
      assert !HasPrefix(identity, "bot") by { assert "bot"[0] == 'b'; }
  }

  /** The participant as updated on join, and the events emitted. */
  datatype Connected = Connected(participant: Participant, effects: seq<Effect>)

  function OnParticipantConnected(participant: Participant, callId: string): (r: Connected)
    // the resolved role is written into the participant's metadata
    ensures r.participant == Participant(participant.identity, MetadataOf(ResolveRole(participant.identity)))
    ensures 0 < |r.effects| && r.effects[0] == Emit(ParticipantJoined(callId, ResolveRole(participant.identity), participant.identity))
    // call.started follows exactly when a driver joins
    ensures |r.effects| == if ResolveRole(participant.identity) == Driver then 2 else 1
    ensures |r.effects| == 2 ==> r.effects[1] == Emit(CallStarted(callId, RoomName(callId)))
  {
    var role := ResolveRole(participant.identity);
    var updated := participant.(metadata := MetadataOf(role));
    var joined := Emit(ParticipantJoined(callId, role, participant.identity));
    if role == Driver then Connected(updated, [joined, Emit(CallStarted(callId, RoomName(callId)))])
    else Connected(updated, [joined])
  }

  datatype Disconnected = Disconnected(rooms: RoomManager.Rooms, recordings: EgressManager.Recordings,
                                       effects: seq<Effect>, threw: bool)

  /** A leave notification. The role is read back from metadata; only a
      driver's leave ends the call, and then the room is torn down with the
      platform replies `replies`. `threw` is whether the teardown rejected. */
  function OnParticipantDisconnected(rooms: RoomManager.Rooms, recs: EgressManager.Recordings, participant: Participant,
                                     callId: string, replies: RoomManager.CloseReplies): (r: Disconnected)
    ensures 0 < |r.effects| && r.effects[0] == Emit(ParticipantLeft(callId, ReadRole(participant.metadata), participant.identity))
    ensures !participant.metadata.Parsed? ==> r.effects[0].event.reportedRole == Text("human")
    // anyone but a driver: only participant.left, and no state change
    ensures ReadRole(participant.metadata) != Text("driver") ==>
              r == Disconnected(rooms, recs, r.effects, false) && |r.effects| == 1
    // a driver: participant.left, then call.ended, then the teardown's platform calls
    ensures ReadRole(participant.metadata) == Text("driver") ==>
              var closed := RoomManager.CloseRoom(rooms, recs, callId, replies);
              && 1 < |r.effects|
              && r.effects[1] == Emit(CallEnded(callId, RoomName(callId)))
              && r.effects[2..] == closed.effects
              && r == Disconnected(closed.rooms, closed.recordings, r.effects, closed.threw)
    ensures ReadRole(participant.metadata) == Text("driver") && RoomManager.WellFormed(rooms) ==> callId !in r.rooms
  {
    var role := ReadRole(participant.metadata);
    var left := Emit(ParticipantLeft(callId, role, participant.identity));
    if role != Text("driver") then Disconnected(rooms, recs, [left], false)
    else
      var ended := Emit(CallEnded(callId, RoomName(callId)));
      var closed := RoomManager.CloseRoom(rooms, recs, callId, replies);
      var effects := [left, ended] + closed.effects;
      assert effects[2..] == closed.effects;
      Disconnected(closed.rooms, closed.recordings, effects, closed.threw)
  }

  /** Joining and then leaving with the metadata written at join reports the
      same role, and the call ends on leave exactly when it started on join. */
  lemma ConnectDisconnectRoundTrip(participant: Participant, callId: string, rooms: RoomManager.Rooms,
                                   recs: EgressManager.Recordings, replies: RoomManager.CloseReplies)
    ensures var joined := OnParticipantConnected(participant, callId);
            var left := OnParticipantDisconnected(rooms, recs, joined.participant, callId, replies);
            && left.effects[0] == Emit(ParticipantLeft(callId, Text(RoleName(ResolveRole(participant.identity))), participant.identity))
            && RoleNamed(left.effects[0].event.reportedRole) == Some(ResolveRole(participant.identity))
            && (|joined.effects| == 2 <==> 1 < |left.effects| && left.effects[1] == Emit(CallEnded(callId, RoomName(callId))))
  {
  }

  /** Metadata that parses but has no `role` field is reported as an undefined
      role, not as "human", and does not end the call. */
  lemma MissingRoleFieldReportedUndefined(rooms: RoomManager.Rooms, recs: EgressManager.Recordings, identity: string,
                                          callId: string, replies: RoomManager.CloseReplies)
    ensures var left := OnParticipantDisconnected(rooms, recs, Participant(identity, Parsed(Undefined)), callId, replies);
            left.effects == [Emit(ParticipantLeft(callId, Undefined, identity))] && left.rooms == rooms
  {
  }
}
