/**
 * The audio and provider settings the session reads from `src/config.ts`,
 * fixed at their default values (the environment variables that override
 * them are not part of this model).
 */
module Config {
  import opened Arith

  /** `Math.round(n / d)` for non-negative `n` and positive `d`: the floor of `n / d + 1/2`. */
  function RoundDiv(n: nat, d: pos): (r: nat)
    ensures 2 * d * r <= 2 * n + d < 2 * d * (r + 1)
  {
    (2 * n + d) / (2 * d)
  }

  /** Inbound and outbound telephony sample rate (`AUDIO_SAMPLE_RATE`). */
  const SAMPLE_RATE: pos := 8000
  /** Duration of one outbound frame in milliseconds (`AUDIO_FRAME_MS`). */
  const FRAME_MS: pos := 20
  /** Bytes of 16-bit PCM in one frame at the default settings (see `FrameBytesDefault`). */
  const FRAME_BYTES: nat := 320
  /** RMS at or above which a frame counts as speech (`VAD_THRESHOLD`). */
  const VAD_THRESHOLD: nat := 200
  /** Consecutive quiet frames that end an utterance (`SILENCE_FRAMES`). */
  const SILENCE_FRAMES: nat := 8
  /** RMS at or above which a frame interrupts playback (`BARGE_IN_THRESHOLD`). */
  const BARGE_IN_THRESHOLD: nat := 220
  /** Rate the transcription provider is given (`STT_SAMPLE_RATE`). */
  const STT_SAMPLE_RATE: pos := 16000
  /** Language the transcription provider is given (`STT_LANGUAGE`). */
  const STT_LANGUAGE: string := "en-US"
  /** Rate the synthesis provider is asked for (`TTS_SAMPLE_RATE`). */
  const TTS_SAMPLE_RATE: pos := 16000

  /**
   * The frame size is `2 * round(sampleRate * frameMs / 1000)` bytes: with the
   * default settings one frame is 160 samples, 320 bytes.
   */
  lemma FrameBytesDefault()
    ensures FRAME_BYTES == 2 * RoundDiv(SAMPLE_RATE * FRAME_MS, 1000) == 320
  {
  }
}
