/** Turns track publish/unpublish notifications into ingress attach/detach. */
module TrackManager {
  import opened Common
  import opened Roles
  import opened Audio
  import opened AudioIngress

  datatype TrackKind = AudioTrack | VideoTrack | DataTrack

  datatype TrackInfo = TrackInfo(sid: string, kind: TrackKind)

  /** The role an audio track is attached with, read from its publisher's
      metadata: None for a bot, which is not attached at all. */
  function AttachRole(m: Metadata): (r: Option<Role>)
    ensures r == None <==> ReadRole(m) == Text("bot")
    ensures r == Some(Driver) <==> ReadRole(m) == Text("driver")
    ensures r != Some(Bot)
    // whatever else `.role` holds, including nothing or a non-string, means human
    ensures r == Some(Human) <==> ReadRole(m) != Text("bot") && ReadRole(m) != Text("driver")
  {
    var v := ReadRole(m);
    if v == Text("bot") then None
    else Some(if v == Text("driver") then Driver else Human)
  }

  function OnTrackPublished(reg: Registry, track: TrackInfo, participant: Participant, callId: string): (r: Registry)
    ensures track.kind != AudioTrack ==> r == reg
    ensures AttachRole(participant.metadata) == None ==> r == reg
    // existing entries are never overwritten, and only track.sid can be added
    ensures forall sid :: sid in reg ==> sid in r && r[sid] == reg[sid]
    ensures r.Keys <= reg.Keys + {track.sid}
    ensures track.sid !in reg ==>
              (track.sid in r <==> track.kind == AudioTrack && AttachRole(participant.metadata).Some?)
    ensures track.sid in r && track.sid !in reg ==>
              r[track.sid] == IngressContext(callId, participant.identity, AttachRole(participant.metadata).value)
    ensures NoBotContexts(reg) ==> NoBotContexts(r)
  {
    if track.kind != AudioTrack then reg
    else
      match AttachRole(participant.metadata)
      case None => reg
      case Some(role) => AttachAudioIngress(reg, track.sid, callId, participant.identity, role)
  }

  function OnTrackUnpublished(reg: Registry, track: TrackInfo): (r: Registry)
    ensures track.kind != AudioTrack ==> r == reg
    ensures track.kind == AudioTrack ==> r.Keys == reg.Keys - {track.sid}
    ensures forall sid :: sid in r ==> r[sid] == reg[sid]
    ensures NoBotContexts(reg) ==> NoBotContexts(r)
  {
    if track.kind != AudioTrack then reg
    else DetachAudioIngress(reg, track.sid)
  }

  /** Publishing a fresh non-bot audio track and unpublishing it restores the
      registry. */
  lemma PublishUnpublishRoundTrip(reg: Registry, track: TrackInfo, participant: Participant, callId: string)
    requires track.kind == AudioTrack && track.sid !in reg
    ensures OnTrackUnpublished(OnTrackPublished(reg, track, participant, callId), track) == reg
  {
  }

  /** A track notification, as delivered. */
  datatype TrackEvent =
    | Published(track: TrackInfo, participant: Participant, callId: string)
    | Unpublished(unpublished: TrackInfo)

  function ApplyTrackEvent(reg: Registry, e: TrackEvent): Registry {
    match e
    case Published(t, p, c) => OnTrackPublished(reg, t, p, c)
    case Unpublished(t) => OnTrackUnpublished(reg, t)
  }

  /** The registry after a run of notifications, in delivery order. */
  function ApplyTrackEvents(reg: Registry, events: seq<TrackEvent>): Registry
    decreases |events|
  {
    if events == [] then reg
    else ApplyTrackEvent(ApplyTrackEvents(reg, events[..|events| - 1]), events[|events| - 1])
  }

  /** Whatever notifications arrive, the registry never holds a bot track. */
  lemma {:induction false} TrackEventsNeverStoreBot(events: seq<TrackEvent>)
    ensures NoBotContexts(ApplyTrackEvents(Empty, events))
    decreases |events|
  {
    if events != [] {
      TrackEventsNeverStoreBot(events[..|events| - 1]);
    }
  }

  /** Does this notification publish an audio track with this sid? */
  predicate RepublishesAudio(e: TrackEvent, sid: string) {
    e.Published? && e.track.kind == AudioTrack && e.track.sid == sid
  }

  /** After an audio track is unpublished, its frames are dropped until an
      audio track with the same sid is published again. */
  lemma {:induction false} UnpublishedTrackStaysDropped(reg: Registry, before: seq<TrackEvent>, track: TrackInfo,
                                                      after: seq<TrackEvent>, frame: AudioFrame)
    requires track.kind == AudioTrack
    requires forall i :: 0 <= i < |after| ==> !RepublishesAudio(after[i], track.sid)
    ensures OnAudioFrame(ApplyTrackEvents(reg, before + [Unpublished(track)] + after), track.sid, frame) == Dropped
    decreases |after|
  {
    var prefix := before + [Unpublished(track)];
    if after == [] {
      assert prefix + after == prefix;
      assert prefix[..|prefix| - 1] == before;
    } else {
      var all := prefix + after;
      var init := after[..|after| - 1];
      assert all[..|all| - 1] == prefix + init;
      assert all[|all| - 1] == after[|after| - 1];
      UnpublishedTrackStaysDropped(reg, before, track, init, frame);
    }
  }
}
