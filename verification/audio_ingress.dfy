/** The inbound audio gate: a registry from track sid to the call context the
    track was attached with, and the admission rule for incoming frames. */
module AudioIngress {
  import opened Roles
  import opened Audio

  datatype IngressContext = IngressContext(callId: string, participantId: string, role: Role)

  /** trackSid -> context */
  type Registry = map<string, IngressContext>

  const Empty: Registry := map[]

  /** The registry only ever holds driver and human audio. */
  ghost predicate NoBotContexts(reg: Registry) {
    forall sid :: sid in reg ==> reg[sid].role != Bot
  }

  /** Registers a track; an already registered track keeps its first context.
      The role is restricted to driver or human, as the source's parameter
      type is. */
  function AttachAudioIngress(reg: Registry, trackSid: string, callId: string, participantId: string, role: Role): (r: Registry)
    requires role != Bot
    ensures r.Keys == reg.Keys + {trackSid}
    // never overwrites: every existing entry, including trackSid's, is kept as it was
    ensures forall sid :: sid in reg ==> r[sid] == reg[sid]
    ensures trackSid !in reg ==> r[trackSid] == IngressContext(callId, participantId, role)
    ensures NoBotContexts(reg) ==> NoBotContexts(r)
  {
    if trackSid in reg then reg
    else reg[trackSid := IngressContext(callId, participantId, role)]
  }

  /** Unregisters a track; an unknown track is ignored. */
  function DetachAudioIngress(reg: Registry, trackSid: string): (r: Registry)
    ensures r.Keys == reg.Keys - {trackSid}
    ensures forall sid :: sid in r ==> r[sid] == reg[sid]
    ensures trackSid !in reg ==> r == reg
    ensures NoBotContexts(reg) ==> NoBotContexts(r)
  {
    if trackSid !in reg then reg
    else reg - {trackSid}
  }

  /** What happens to one incoming frame. Forwarding hands the frame and the
      stored context downstream; the registry is only read. */
  datatype FrameDecision = Dropped | Forwarded(context: IngressContext)

  function OnAudioFrame(reg: Registry, trackSid: string, frame: AudioFrame): (d: FrameDecision)
    ensures d.Forwarded? <==> trackSid in reg && IsSupportedRate(frame.sampleRate)
    ensures d.Forwarded? ==> d.context == reg[trackSid]
    // bot audio is never relayed
    ensures NoBotContexts(reg) && d.Forwarded? ==> d.context.role != Bot
  {
    if trackSid !in reg then Dropped
    else if !IsSupportedRate(frame.sampleRate) then Dropped
    else Forwarded(reg[trackSid])
  }

  /** A second attach of the same track, with any context, changes nothing. */
  lemma AttachIdempotent(reg: Registry, trackSid: string, callId: string, participantId: string, role: Role,
                         callId': string, participantId': string, role': Role)
    requires role != Bot && role' != Bot
    ensures var once := AttachAudioIngress(reg, trackSid, callId, participantId, role);
            AttachAudioIngress(once, trackSid, callId', participantId', role') == once
  {
  }

  /** Detaching twice is detaching once. */
  lemma DetachIdempotent(reg: Registry, trackSid: string)
    ensures DetachAudioIngress(DetachAudioIngress(reg, trackSid), trackSid) == DetachAudioIngress(reg, trackSid)
  {
  }

  /** Attaching a fresh track and detaching it again restores the registry. */
  lemma AttachDetachRoundTrip(reg: Registry, trackSid: string, callId: string, participantId: string, role: Role)
    requires role != Bot
    requires trackSid !in reg
    ensures DetachAudioIngress(AttachAudioIngress(reg, trackSid, callId, participantId, role), trackSid) == reg
  {
  }

  /** A detached track's frames are dropped whatever their format. */
  lemma DetachedTrackDropped(reg: Registry, trackSid: string, frame: AudioFrame)
    ensures OnAudioFrame(DetachAudioIngress(reg, trackSid), trackSid, frame) == Dropped
  {
  }

  /** Once attached, a track's supported-rate frames are forwarded with the
      context of its first attach. */
  lemma AttachedTrackForwarded(reg: Registry, trackSid: string, callId: string, participantId: string, role: Role, frame: AudioFrame)
    requires role != Bot
    requires IsSupportedRate(frame.sampleRate)
    ensures var d := OnAudioFrame(AttachAudioIngress(reg, trackSid, callId, participantId, role), trackSid, frame);
            d == Forwarded(if trackSid in reg then reg[trackSid] else IngressContext(callId, participantId, role))
  {
  }
}
