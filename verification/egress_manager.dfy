/** The recording registry: call id -> egress id of the composite recording
    running for that call. */
module EgressManager {
  import opened Common
  import opened Effects

  type Recordings = map<string, string>

  const Layout: string := "speaker-light"

  /** Where a call's recording is written: `recordings/call_<callId>.mp4`. */
  function RecordingPath(callId: string): string {
    "recordings/" + RoomName(callId) + ".mp4"
  }

  /** A call counts as recorded only when it has a non-empty egress id. */
  predicate Tracked(recs: Recordings, callId: string) {
    callId in recs && recs[callId] != ""
  }

  /** `startRecording`: `reply` is what the platform's composite-egress start
      did. A failure is logged and swallowed, so this never throws. */
  function StartRecording(recs: Recordings, callId: string, reply: Reply<string>): (r: (Recordings, seq<Effect>))
    ensures callId in recs ==> r == (recs, [])
    ensures callId !in recs ==>
              r.1 == [Invoke(StartRoomCompositeEgress(RoomName(callId), RecordingPath(callId), Layout))]
    // an id is recorded exactly when the platform returned one
    ensures callId !in recs ==> (callId in r.0 <==> reply.Returned?)
    ensures callId !in recs && reply.Returned? ==> r.0[callId] == reply.value
    ensures SameElsewhere(recs, r.0, callId)
  {
    if callId in recs then (recs, [])
    else
      var start := Invoke(StartRoomCompositeEgress(RoomName(callId), RecordingPath(callId), Layout));
      match reply
      case Returned(egressId) => (recs[callId := egressId], [start])
      case Threw => (recs, [start])
  }

  /** `stopRecording`: `stopOk` is whether the platform's stop succeeded; the
      entry is cleared in `finally`, so it does not matter. */
  function StopRecording(recs: Recordings, callId: string, stopOk: bool): (r: (Recordings, seq<Effect>))
    ensures !Tracked(recs, callId) ==> r == (recs, [])
    ensures Tracked(recs, callId) ==> r.0.Keys == recs.Keys - {callId}
    ensures Tracked(recs, callId) ==> r.1 == [Invoke(StopEgress(recs[callId]))]
    ensures SameElsewhere(recs, r.0, callId)
  {
    if !Tracked(recs, callId) then (recs, [])
    else
      var stop := Invoke(StopEgress(recs[callId]));
      // a failed stop is only logged
      (recs - {callId}, [stop])
  }

  /** Whether the platform's stop succeeded does not change the outcome. */
  lemma StopIgnoresPlatformReply(recs: Recordings, callId: string)
    ensures StopRecording(recs, callId, true) == StopRecording(recs, callId, false)
  {
  }

  /** Starting an already started recording does nothing, whatever the
      platform would have said. */
  lemma StartIdempotent(recs: Recordings, callId: string, reply: Reply<string>, reply': Reply<string>)
    requires reply.Returned?
    ensures var once := StartRecording(recs, callId, reply).0;
            StartRecording(once, callId, reply') == (once, [])
  {
  }

  /** Stopping twice is stopping once. */
  lemma StopIdempotent(recs: Recordings, callId: string, ok: bool, ok': bool)
    ensures var once := StopRecording(recs, callId, ok).0;
            StopRecording(once, callId, ok') == (once, [])
  {
  }

  /** Starting a recording that gets a real id and stopping it stops exactly
      that egress and restores the registry. */
  lemma StartStopRoundTrip(recs: Recordings, callId: string, egressId: string, ok: bool)
    requires callId !in recs && egressId != ""
    ensures var started := StartRecording(recs, callId, Returned(egressId)).0;
            StopRecording(started, callId, ok) == (recs, [Invoke(StopEgress(egressId))])
  {
    var started := StartRecording(recs, callId, Returned(egressId)).0;
    var stopped := StopRecording(started, callId, ok).0;
    assert stopped.Keys == recs.Keys;
    assert forall c :: c in recs ==> stopped[c] == recs[c];
    assert stopped == recs;
    assert started[callId] == egressId;
  }

  /** An empty egress id, once recorded, is never cleared: start sees the call
      as recorded and stop sees it as untracked. */
  lemma EmptyEgressIdSticks(recs: Recordings, callId: string, reply: Reply<string>, ok: bool)
    requires callId !in recs
    ensures var started := StartRecording(recs, callId, Returned("")).0;
            && started[callId] == ""
            && StopRecording(started, callId, ok) == (started, [])
            && StartRecording(started, callId, reply) == (started, [])
  {
  }
}
