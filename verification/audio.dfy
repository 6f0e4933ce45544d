/** Audio frames as the admission rules see them. */
module Audio {

  /** A signed 16-bit PCM sample. */
  newtype Int16 = x: int | -0x8000 <= x < 0x8000

  /** A frame of PCM audio; the timestamp is in milliseconds. */
  datatype AudioFrame = AudioFrame(samples: seq<Int16>, sampleRate: int, channels: int, timestamp: int)

  /** The two sample rates the gateway carries. */
  predicate IsSupportedRate(rate: int) {
    rate == 16000 || rate == 48000
  }
}
