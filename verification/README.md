# Voice gateway call lifecycle and audio gate — a Dafny model

This project models the per-call bookkeeping and the audio admission rules of a
voice gateway that sits in front of a LiveKit media platform:

- the outbound audio publisher (`AudioEgress`), with its format check,
  its strictly increasing timestamp guard and its single-publish-in-flight flag;
- the inbound audio gate (`activeIngress`, track sid → call context), which
  attaches, detaches and admits frames;
- the track lifecycle adapter, which turns audio track publish/unpublish into
  attach/detach, reading the role from participant metadata and never
  attaching bot tracks;
- participant join/leave: the identity-prefix role resolver, the role written
  into metadata on join and read back on leave, and the `participant.joined`,
  `call.started`, `participant.left` and `call.ended` events;
- the room registry (`activeRooms`, call id → `call_<callId>`) with
  create-or-get and best-effort teardown;
- the recording registry (`activeEgress`, call id → egress id) with start and
  stop.

Everything is a pure function over immutable values. Each registry is a
`map`. Platform calls are inputs: a `Reply` says whether a call returned
(and with what) or threw. Everything the core does to the outside world is one
ordered trace of `Effect`s. An effect is either an emitted call event or an
issued platform call, so the order of events and calls can be stated.

Modules: `Common` (options, replies, the `call_` room naming), `Roles`
(roles and the metadata abstraction), `Audio` (frames), `Effects` (the trace),
then one module per source file: `AudioEgress`, `AudioIngress`, `TrackManager`,
`EgressManager`, `RoomManager`, `ParticipantManager`. `CallScenario` composes
them for one driver call.

Participant metadata is JSON. The model sees it only through the parser:
`NoMetadata` means undefined or the empty string. `Unparsable` means the
parser throws, or the parsed value is null so reading `.role` throws.
`Parsed(v)` carries whatever `.role` held. That can be a string, `undefined`
or another JSON value.

Behaviours of the code worth knowing:

- On leave, the code reports whatever `.role` holds. Metadata `{}` is reported
  as an undefined role, not as "human". Only unparsable or absent metadata
  falls back to "human" (`ParticipantManager.MissingRoleFieldReportedUndefined`).
- Teardown stops at the first platform step that throws: a failed listing or
  participant removal skips the remaining removals, the recording stop and
  the room deletion. A failed recording stop is only logged, so the room is
  still deleted. The local registry entry is always cleared.
- `closeRoom` does not touch the ingress registry. A driver's audio track
  stays registered after the driver leaves, until the track is unpublished
  (`CallScenario.DriverCallLifecycle`).
- The frame gate has no role check of its own. A track is skipped only when
  its publisher's metadata reads role "bot"; the identity is not consulted.
  So no stored context is ever labelled bot (`TrackManager.TrackEventsNeverStoreBot`).
  But a `bot…` participant whose notification carries no role metadata is
  attached as human, and its audio is forwarded
  (`CallScenario.BotIdentityWithoutRoleMetadataIsForwarded`).
- An egress id of `""`, once recorded, is never cleared. Start treats the call
  as recorded, and stop treats it as untracked
  (`EgressManager.EmptyEgressIdSticks`).
- The role written on join is stored in the participant value handed to the
  handler. The round trip (`ParticipantManager.ConnectDisconnectRoundTrip`)
  is about that value.

## Model

| member | source | states |
|---|---|---|
| Common.CallIdOfRoomName | apps/voice-gateway/src/livekit/room.manager.ts:15 | a room name is `call_` followed by the call id, and the call id can be read back from it |
| Common.RoomNameInjective | apps/voice-gateway/src/livekit/room.manager.ts:15 | two calls share a room name only if they are the same call |
| RoomManager.RegisteredRoomNameNonEmpty | apps/voice-gateway/src/livekit/room.manager.ts:37-38 | in a well-formed registry a registered call's room name is never empty, so `closeRoom` never mistakes a registered call for an unknown one |
| Roles.MissingMetadataReadsHuman | apps/voice-gateway/src/livekit/track.manager.ts:21-30 | absent or unparsable metadata reads as role "human" |
| Roles.ReadRoleOfMetadataOf | apps/voice-gateway/src/livekit/participant.manager.ts:15-43 | metadata written as `{role}` on join reads back as that same role on leave |
| AudioEgress.PublishAudio | apps/voice-gateway/src/streaming/audio.egress.ts:14-51 | a frame is published iff it is mono, 16000 or 48000 Hz, non-empty, later than the last published frame, and no publish is in flight; a rejected frame changes nothing; the format check comes first, then the timestamp check, then the in-flight check; a published frame moves the clock to its timestamp; the in-flight flag is clear on return whenever it was clear on entry |
| AudioEgress.PublishAll | apps/voice-gateway/src/streaming/audio.egress.ts:11-44 | over any run of frames the clock never goes back and a clear in-flight flag stays clear |
| AudioEgress.SequentialPublishNeverOverlaps | apps/voice-gateway/src/streaming/audio.egress.ts:26-43 | in sequential use the flag is always released, so no frame is ever refused for overlap |
| AudioEgress.PublishedTimestampsIncrease | apps/voice-gateway/src/streaming/audio.egress.ts:21-31 | published frames go out in strictly increasing timestamp order, all later than the starting clock |
| AudioEgress.IncreasingStreamAllPublished | apps/voice-gateway/src/streaming/audio.egress.ts:14-43 | well-formed frames with strictly increasing timestamps past the clock are all published, and the clock ends at the last one |
| AudioEgress.FreshPublisherAcceptsIncreasingStream | apps/voice-gateway/src/streaming/audio.egress.ts:11-31 | a fresh publisher (clock 0) publishes every well-formed frame of a stream with positive, strictly increasing timestamps |
| AudioIngress.AttachAudioIngress | apps/voice-gateway/src/streaming/audio.ingress.ts:15-31 | attach adds only the given track sid, never overwrites an existing context, stores exactly `{callId, participantId, role}` for a new sid, and keeps the registry bot-free |
| AudioIngress.DetachAudioIngress | apps/voice-gateway/src/streaming/audio.ingress.ts:34-37 | detach removes exactly the given sid, keeps every other context, and ignores an unknown sid |
| AudioIngress.OnAudioFrame | apps/voice-gateway/src/streaming/audio.ingress.ts:39-52 | a frame is forwarded iff its track is registered and its rate is 16000 or 48000, always with the stored context, and never with a bot role; it returns only a decision, so the registry is never changed |
| AudioIngress.AttachIdempotent | apps/voice-gateway/src/streaming/audio.ingress.ts:24 | attaching an attached track again, with any context, changes nothing |
| AudioIngress.DetachIdempotent | apps/voice-gateway/src/streaming/audio.ingress.ts:34-37 | detaching twice equals detaching once |
| AudioIngress.AttachDetachRoundTrip | apps/voice-gateway/src/streaming/audio.ingress.ts:15-37 | attaching a fresh track and detaching it restores the registry |
| AudioIngress.DetachedTrackDropped | apps/voice-gateway/src/streaming/audio.ingress.ts:34-41 | after a detach, every frame of that track is dropped |
| AudioIngress.AttachedTrackForwarded | apps/voice-gateway/src/streaming/audio.ingress.ts:24-51 | after an attach, supported-rate frames of the track are forwarded with the context of its first attach |
| TrackManager.AttachRole | apps/voice-gateway/src/livekit/track.manager.ts:21-43 | a track is skipped iff the metadata role is "bot"; it is attached as driver iff the role is "driver", and as human for anything else, including absent, malformed and non-string roles |
| TrackManager.OnTrackPublished | apps/voice-gateway/src/livekit/track.manager.ts:12-48 | non-audio and bot tracks change nothing; otherwise only `track.sid` is added, with `callId`, the participant identity and the attach role, and existing entries are kept |
| TrackManager.OnTrackUnpublished | apps/voice-gateway/src/livekit/track.manager.ts:50-56 | a non-audio track changes nothing; an audio track detaches exactly its sid |
| TrackManager.PublishUnpublishRoundTrip | apps/voice-gateway/src/livekit/track.manager.ts:12-56 | publishing a fresh audio track and unpublishing it restores the registry |
| TrackManager.TrackEventsNeverStoreBot | apps/voice-gateway/src/livekit/track.manager.ts:32-44 | after any sequence of track notifications, every stored role is driver or human |
| TrackManager.UnpublishedTrackStaysDropped | apps/voice-gateway/src/livekit/track.manager.ts:50-56 | once an audio track is unpublished, its frames are dropped until an audio track with that sid is published again |
| EgressManager.StartRecording | apps/voice-gateway/src/livekit/egress.manager.ts:21-45 | a recorded call is left alone; otherwise one composite egress is requested for `call_<id>` into `recordings/call_<id>.mp4`, and an id is recorded iff the platform returned one; other calls are untouched |
| EgressManager.StopRecording | apps/voice-gateway/src/livekit/egress.manager.ts:50-61 | an untracked call (no entry or an empty id) is left alone; otherwise exactly that egress is stopped and the entry removed; other calls are untouched |
| EgressManager.StopIgnoresPlatformReply | apps/voice-gateway/src/livekit/egress.manager.ts:54-60 | the entry is removed whether or not the platform's stop succeeds |
| EgressManager.StartIdempotent | apps/voice-gateway/src/livekit/egress.manager.ts:22 | starting an already started recording does nothing |
| EgressManager.StopIdempotent | apps/voice-gateway/src/livekit/egress.manager.ts:50-61 | stopping twice equals stopping once |
| EgressManager.StartStopRoundTrip | apps/voice-gateway/src/livekit/egress.manager.ts:21-61 | starting a recording that gets a non-empty id and then stopping it stops that egress and restores the registry |
| EgressManager.EmptyEgressIdSticks | apps/voice-gateway/src/livekit/egress.manager.ts:21-61 | an empty egress id, once recorded, blocks both later starts and stops |
| RoomManager.CreateOrGetRoom | apps/voice-gateway/src/livekit/room.manager.ts:14-34 | a known call returns its room name without platform calls; an unknown call lists rooms and creates `call_<id>` (cap 3) only when it is not listed; the call is registered iff the calls succeed; other calls are untouched |
| RoomManager.CreateOrGetRoomCreatesOnce | apps/voice-gateway/src/livekit/room.manager.ts:21-30 | create-or-get issues exactly one room creation when the call is unknown and its room is missing from a successful listing, and none otherwise; the creation always uses `call_<id>`, the call id as metadata and a cap of 3 |
| RoomManager.CreateOrGetTwice | apps/voice-gateway/src/livekit/room.manager.ts:17-32 | when the first call succeeds, a second create-or-get for the same call answers the same room name from the registry without platform calls, so the two together issue at most one room creation |
| RoomManager.RemoveEach | apps/voice-gateway/src/livekit/room.manager.ts:43-45 | participants are removed in listing order, stopping at the first removal that throws |
| RoomManager.CloseRoom | apps/voice-gateway/src/livekit/room.manager.ts:36-52 | an unknown call is a no-op; otherwise the entry is always removed and no other call is touched; the recording stop and the room deletion happen only if listing and every removal succeeded, with deletion last; it rejects iff the listing, a removal or the room deletion threw; a failed recording stop is only logged, and the room is still deleted |
| RoomManager.CloseRoomDeletesLast | apps/voice-gateway/src/livekit/room.manager.ts:40-51 | teardown of a registered call starts by listing participants, and deletes the room, as its very last platform call, exactly when the listing and every removal succeeded |
| RoomManager.CreateCloseRoundTrip | apps/voice-gateway/src/livekit/room.manager.ts:14-52 | creating a room for a fresh call and closing it restores the room registry, whatever the platform does |
| ParticipantManager.DriverAndBotPrefixesExclusive | apps/voice-gateway/src/livekit/participant.manager.ts:5-9 | no identity starts with both "driver" and "bot", so the order of the prefix checks does not matter |
| ParticipantManager.ResolveRole | apps/voice-gateway/src/livekit/participant.manager.ts:5-9 | the role is driver iff the identity starts with "driver", bot iff it starts with "bot", and human otherwise |
| ParticipantManager.ResolveRoleOfRoleName | apps/voice-gateway/src/livekit/participant.manager.ts:5-9 | any identity that begins with a role's name resolves to that role |
| ParticipantManager.OnParticipantConnected | apps/voice-gateway/src/livekit/participant.manager.ts:11-31 | the resolved role is written into metadata; `participant.joined` is emitted first, followed by `call.started` for `call_<id>` iff the role is driver |
| ParticipantManager.OnParticipantDisconnected | apps/voice-gateway/src/livekit/participant.manager.ts:33-59 | `participant.left` is emitted first with the role read from metadata ("human" if absent or unparsable); iff that role is "driver", `call.ended` follows and then the room teardown, which removes the call's room entry |
| ParticipantManager.ConnectDisconnectRoundTrip | apps/voice-gateway/src/livekit/participant.manager.ts:11-59 | leaving with the metadata written on join reports the role resolved on join, and the call ends on leave iff it started on join |
| ParticipantManager.MissingRoleFieldReportedUndefined | apps/voice-gateway/src/livekit/participant.manager.ts:37-49 | metadata that parses without a `role` field is reported as an undefined role and does not end the call |
| CallScenario.BotIdentityWithoutRoleMetadataIsForwarded | apps/voice-gateway/src/livekit/track.manager.ts:21-44 | an identity the resolver classifies as bot, published with absent, unparsable or role-less metadata, is attached as human and its supported-rate frames are forwarded |
| CallScenario.DriverCallLifecycle | apps/voice-gateway/src/livekit/participant.manager.ts:11-58 | for one driver call: one room creation, `call.started`, the driver's audio forwarded with its context, `call.ended`, an empty room registry after the leave, and dropped frames after unpublish |

## Left out

- The webhook router, HTTP server, signature check, bootstrap and signal
  handling (`index.ts`) are not part of this model. The router also calls
  manager classes and a `resolveRole` export that the modelled files do not
  define.
- Listener dispatch of the call and handoff event emitters is not modelled.
  Emitted events are recorded in order in the effect trace. The handoff
  events are never emitted by the modelled code.
- JSON parsing and serialisation of metadata are abstracted to `Metadata`.
  The room metadata `{callId}` is kept as the call id alone.
- The platform SDK calls are inputs (`Reply`, `createOk`, `CloseReplies`).
  A participant listing is reduced to identities. Which removals throw is
  given as a set of identities.
- The latency monitor call and the `process.nextTick` forwarding body (empty)
  are not modelled. Forwarding is the `Forwarded(context)` decision.
- Logging is left out, including the publisher's log line, which stands in for
  the publish itself.
- AudioEgress.PublishAudio: the publish step is a log line that cannot throw,
  so no publish failure is modelled. The flag is cleared on return either way.
- Concurrency is not modelled: everything is sequential. The code takes no
  locks, so two overlapping create-or-get calls for one call id could both
  create the room. Overlapping `publishAudio` calls cannot happen either,
  because the method is synchronous.
- Numbers are integers. Fractional or NaN timestamps, sample rates and
  channel counts are not modelled. Sample contents matter only through
  their count.
- Environment loading (`config/env.ts`) and the unused `Date.now()` in the
  track adapter are not modelled.
