/** One driver call from room creation to the driver leaving, composed from
    the core's operations. */
module CallScenario {
  import opened Common
  import opened Roles
  import opened Audio
  import opened Effects
  import opened AudioIngress
  import opened TrackManager
  import RoomManager
  import opened ParticipantManager

  /** A driver joins a freshly created room, publishes audio and leaves.
      The room is created once, call.started and call.ended are emitted, the
      driver's audio is forwarded with the driver's context, and the room entry
      is gone after the leave. The audio track stays registered until it is
      unpublished; from then on its frames are dropped.
      The track and leave notifications are assumed to carry the metadata
      written on join: that write only updates the participant value handed
      to the join handler, and no platform call saves it. */
  lemma DriverCallLifecycle(callId: string, suffix: string, sid: string, frame: AudioFrame,
                            replies: RoomManager.CloseReplies)
    requires IsSupportedRate(frame.sampleRate)
    ensures var created := RoomManager.CreateOrGetRoom(map[], callId, Returned([]), true);
            var identity := "driver" + suffix;
            var joined := OnParticipantConnected(Participant(identity, NoMetadata), callId);
            var track := TrackInfo(sid, AudioTrack);
            var reg := OnTrackPublished(Empty, track, joined.participant, callId);
            var left := OnParticipantDisconnected(created.rooms, map[], joined.participant, callId, replies);
            && created.name == Returned(RoomName(callId))
            && CountCreates(created.effects) == 1
            && joined.effects[1] == Emit(CallStarted(callId, RoomName(callId)))
            && OnAudioFrame(reg, sid, frame) == Forwarded(IngressContext(callId, identity, Driver))
            && left.effects[1] == Emit(CallEnded(callId, RoomName(callId)))
            && left.rooms == map[]
            && OnAudioFrame(OnTrackUnpublished(reg, track), sid, frame) == Dropped
  {
    RoomManager.CreateOrGetRoomCreatesOnce(map[], callId, Returned([]), true);
  }

  /** The track adapter reads the role only from metadata, never from the
      identity. A participant the identity rule calls a bot, whose track
      notification carries no role in its metadata, is attached as human,
      and its audio is forwarded. */
  lemma BotIdentityWithoutRoleMetadataIsForwarded(identity: string, metadata: Metadata, callId: string,
                                                  sid: string, frame: AudioFrame)
    requires HasPrefix(identity, "bot")
    requires metadata == NoMetadata || metadata == Unparsable || metadata == Parsed(Undefined)
    requires IsSupportedRate(frame.sampleRate)
    ensures ResolveRole(identity) == Bot
    ensures OnAudioFrame(OnTrackPublished(Empty, TrackInfo(sid, AudioTrack), Participant(identity, metadata), callId), sid, frame)
            == Forwarded(IngressContext(callId, identity, Human))
  {
  }
}
