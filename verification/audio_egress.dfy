/** The outbound audio publisher: a format check, a strictly increasing
    timestamp guard and a single-publish-in-flight flag. */
module AudioEgress {
  import opened Audio

  /** `lastFrameTime` is the timestamp of the last accepted frame;
      `publishing` is true only while a publish is in flight. */
  datatype EgressState = EgressState(lastFrameTime: int, publishing: bool)

  /** A fresh publisher. */
  const Initial: EgressState := EgressState(0, false)

  datatype PublishOutcome = Published | InvalidFormat | NotAfterLast | Overlapping

  /** Mono, a supported sample rate, and at least one sample. */
  predicate IsValid(frame: AudioFrame) {
    && frame.channels == 1
    && IsSupportedRate(frame.sampleRate)
    && |frame.samples| != 0
  }

  /** One call of `publishAudio`: the new state and why the frame was or was
      not published. */
  function PublishAudio(s: EgressState, frame: AudioFrame): (r: (EgressState, PublishOutcome))
    // a frame goes out exactly when it is well formed, later than the last one, and nothing is in flight
    ensures r.1 == Published <==> IsValid(frame) && s.lastFrameTime < frame.timestamp && !s.publishing
    // the format check comes first
    ensures r.1 == InvalidFormat <==> frame.channels != 1 || !IsSupportedRate(frame.sampleRate) || |frame.samples| == 0
    // then the timestamp check, then the in-flight check
    ensures r.1 == NotAfterLast <==> IsValid(frame) && frame.timestamp <= s.lastFrameTime
    ensures r.1 == Overlapping <==> IsValid(frame) && s.lastFrameTime < frame.timestamp && s.publishing
    // a rejected frame changes nothing
    ensures r.1 != Published ==> r.0 == s
    // an accepted frame moves the clock forward to its own timestamp
    ensures r.1 == Published ==> r.0.lastFrameTime == frame.timestamp > s.lastFrameTime
    ensures s.lastFrameTime <= r.0.lastFrameTime
    // the in-flight flag is always released on the way out
    ensures r.1 == Published ==> !r.0.publishing
    ensures r.0.publishing ==> s.publishing
  {
    if !IsValid(frame) then (s, InvalidFormat)
    else if frame.timestamp <= s.lastFrameTime then (s, NotAfterLast)
    else if s.publishing then (s, Overlapping)
    else
      var inFlight := EgressState(frame.timestamp, true);
      // the publish itself cannot fail; `finally` clears the flag either way
      (inFlight.(publishing := false), Published)
  }

  /** Frames handed to one publisher one after another. */
  function PublishAll(s: EgressState, frames: seq<AudioFrame>): (r: (EgressState, seq<PublishOutcome>))
    ensures |r.1| == |frames|
    ensures s.lastFrameTime <= r.0.lastFrameTime
    ensures !s.publishing ==> !r.0.publishing
    decreases |frames|
  {
    if frames == [] then (s, [])
    else
      var (s1, o) := PublishAudio(s, frames[0]);
      var (s2, os) := PublishAll(s1, frames[1..]);
      (s2, [o] + os)
  }

  /** In sequential use the in-flight flag is never seen set, so no frame is
      ever refused for overlap. */
  lemma {:induction false} SequentialPublishNeverOverlaps(s: EgressState, frames: seq<AudioFrame>)
    requires !s.publishing
    ensures !PublishAll(s, frames).0.publishing
    ensures forall i :: 0 <= i < |frames| ==> PublishAll(s, frames).1[i] != Overlapping
    decreases |frames|
  {
    if frames != [] {
      var (s1, o) := PublishAudio(s, frames[0]);
      SequentialPublishNeverOverlaps(s1, frames[1..]);
      var os := PublishAll(s1, frames[1..]).1;
      assert PublishAll(s, frames).1 == [o] + os;
    }
  }

  /** Output order is time order: every published frame is later than the
      starting clock and than every frame published before it. */
  lemma {:induction false} PublishedTimestampsIncrease(s: EgressState, frames: seq<AudioFrame>)
    ensures forall i :: 0 <= i < |frames| && PublishAll(s, frames).1[i] == Published ==>
              s.lastFrameTime < frames[i].timestamp <= PublishAll(s, frames).0.lastFrameTime
    ensures forall i, j :: 0 <= i < j < |frames| && PublishAll(s, frames).1[i] == Published && PublishAll(s, frames).1[j] == Published ==>
              frames[i].timestamp < frames[j].timestamp
    decreases |frames|
  {
    if frames != [] {
      var (s1, o) := PublishAudio(s, frames[0]);
      PublishedTimestampsIncrease(s1, frames[1..]);
      var os := PublishAll(s1, frames[1..]).1;
      var outs := PublishAll(s, frames).1;
      assert outs == [o] + os;
      forall i | 0 < i < |frames| && outs[i] == Published
        ensures s.lastFrameTime < frames[i].timestamp
        ensures o == Published ==> frames[0].timestamp < frames[i].timestamp
      {
        assert os[i - 1] == Published;
        assert frames[1..][i - 1] == frames[i];
      }
    }
  }

  /** Strictly increasing timestamps, all later than the clock. */
  predicate IncreasingAfter(t: int, frames: seq<AudioFrame>) {
    && (forall i :: 0 <= i < |frames| ==> t < frames[i].timestamp)
    && (forall i, j :: 0 <= i < j < |frames| ==> frames[i].timestamp < frames[j].timestamp)
  }

  /** A well-formed stream whose timestamps strictly increase past the clock is
      published in full, and the clock ends at the last frame's timestamp. */
  lemma {:induction false} IncreasingStreamAllPublished(s: EgressState, frames: seq<AudioFrame>)
    requires !s.publishing
    requires forall i :: 0 <= i < |frames| ==> IsValid(frames[i])
    requires IncreasingAfter(s.lastFrameTime, frames)
    ensures forall i :: 0 <= i < |frames| ==> PublishAll(s, frames).1[i] == Published
    ensures |frames| > 0 ==> PublishAll(s, frames).0 == EgressState(frames[|frames| - 1].timestamp, false)
    decreases |frames|
  {
    if frames != [] {
      var (s1, o) := PublishAudio(s, frames[0]);
      assert o == Published && s1 == EgressState(frames[0].timestamp, false);
      assert IncreasingAfter(s1.lastFrameTime, frames[1..]) by {
        forall i | 0 <= i < |frames[1..]|
          ensures s1.lastFrameTime < frames[1..][i].timestamp
        {
          assert frames[1..][i] == frames[i + 1];
        }
      }
      IncreasingStreamAllPublished(s1, frames[1..]);
      var os := PublishAll(s1, frames[1..]).1;
      assert PublishAll(s, frames).1 == [o] + os;
      if |frames| > 1 {
        assert frames[1..][|frames[1..]| - 1] == frames[|frames| - 1];
      }
    }
  }

  /** From a fresh publisher (clock 0), well-formed frames with positive,
      strictly increasing timestamps are all published in order. */
  lemma FreshPublisherAcceptsIncreasingStream(frames: seq<AudioFrame>)
    requires forall i :: 0 <= i < |frames| ==> IsValid(frames[i]) && 0 < frames[i].timestamp
    requires forall i :: 0 < i < |frames| ==> frames[i - 1].timestamp < frames[i].timestamp
    ensures forall i :: 0 <= i < |frames| ==> PublishAll(Initial, frames).1[i] == Published
  {
    assert IncreasingAfter(0, frames) by {
      IncreasingFromAdjacent(frames);
    }
    IncreasingStreamAllPublished(Initial, frames);
  }

  /** Adjacent order gives order between any two frames. */
  lemma {:induction false} IncreasingFromAdjacent(frames: seq<AudioFrame>)
    requires forall i :: 0 < i < |frames| ==> frames[i - 1].timestamp < frames[i].timestamp
    ensures forall i, j :: 0 <= i < j < |frames| ==> frames[i].timestamp < frames[j].timestamp
  {
    if |frames| > 1 {
      var init := frames[..|frames| - 1];
      assert forall i :: 0 < i < |init| ==> init[i - 1].timestamp < init[i].timestamp;
      IncreasingFromAdjacent(init);
      forall i, j | 0 <= i < j < |frames|
        ensures frames[i].timestamp < frames[j].timestamp
      {
        if j < |frames| - 1 {
          assert init[i] == frames[i] && init[j] == frames[j];
        } else if i < j - 1 {
          assert init[i] == frames[i] && init[j - 1] == frames[j - 1];
        }
      }
    }
  }
}
