/** What the core does to the outside world, as one ordered trace: call events
    it emits on the call event bus, and calls it issues to the media platform. */
module Effects {
  import opened Roles

  /** Events on the call event bus. `reportedRole` is the raw value read from
      metadata, which need not name a role. */
  datatype CallEvent =
    | ParticipantJoined(callId: string, role: Role, participantId: string)
    | CallStarted(callId: string, roomName: string)
    | ParticipantLeft(callId: string, reportedRole: RoleValue, participantId: string)
    | CallEnded(callId: string, roomName: string)

  /** Calls into the media platform's room and egress services. */
  datatype PlatformCall =
    | ListRooms
    | CreateRoom(name: string, metadataCallId: string, maxParticipants: int)
    | ListParticipants(room: string)
    | RemoveParticipant(room: string, identity: string)
    | DeleteRoom(room: string)
    | StartRoomCompositeEgress(room: string, filepath: string, layout: string)
    | StopEgress(egressId: string)

  datatype Effect = Emit(event: CallEvent) | Invoke(call: PlatformCall)

  predicate IsCreateRoom(e: Effect) {
    e.Invoke? && e.call.CreateRoom?
  }

  /** How many room creations a trace issues. */
  function CountCreates(effects: seq<Effect>): nat {
    if effects == [] then 0
    else (if IsCreateRoom(effects[0]) then 1 else 0) + CountCreates(effects[1..])
  }
}
