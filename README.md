# Telephony audio path and Twilio call session, in Dafny

This project models the audio path and the per-call session logic of a voice
gateway. The gateway answers a phone call, receives the caller's audio over a
Twilio media stream and sends its own reply back on the same stream. It
writes a model of that logic in Dafny and proves properties of it.

The core has five parts:

- **mu-law codec** (`mulaw.dfy`, module `MuLaw`). It converts between 8-bit
  mu-law codes and 16-bit little-endian PCM.
  - The decoder and the encoder are loops that fill a freshly allocated
    buffer. They are modelled as methods over arrays and proved against the
    functions `DecodedSamples` and `EncodedCodes`.
  - The encoder searches for its exponent with a loop that breaks early.
    `LinearToMuLaw` keeps that loop.
- **Linear-interpolation resampler** (`resample.dfy`, module `Resample`).
  - It works in exact integer and rational arithmetic: the source position
    `i / ratio` is `i * fromRate / toRate`, and `Math.round(x)` is
    `floor(x + 1/2)`.
  - `ResampleBuffer` keeps the source's loop over an output array.
- **RMS energy** (`vad.dfy`, module `Vad`). Energy is the mean square of the
  samples, and the square root is left out. For a threshold `T >= 0`, the
  session's test `rms >= T` is `meanSquare >= T * T` (`RmsAtLeast`). In
  integers it is `sum >= T * T * n` (`RmsAtLeastIff`).
- **Session state machine** (`state_machine.dfy`, module `StateMachine`).
  - It is a class with one mutable state field, `currentState`.
  - The `state` getter is the function `State`.
  - `Transition` accepts every target from every state.
- **Twilio session** (`twilio_session.dfy`, module `Session`). The class
  `TwilioSession` holds the fields the source updates in place:
  - `collected`, `speaking` and `silenceFrames`, the state of the endpoint
    detector;
  - `alive`;
  - the three abort controllers.

  The asynchronous `processTurn` is cut at its awaits into steps:
  `StartNextTurn`, `OnTranscript`, `OnResponse`, `OnSpeech`, and `PlayStep`
  for each frame of playback. Events and steps run one at a time, which is
  how the single-threaded event loop interleaves them.
  - Each provider result is a parameter: a value the promise resolved with,
    or the error it was rejected with.
  - The promise chain `processing` is modelled as the FIFO queue `pending` of
    utterances plus the `turn` at its head.
  - Frames handed to `sendMedia`, provider calls and metrics entries are
    ghost logs: `sent`, `calls` and `metrics.events`.
  - The invariant `Valid` ties these together. Under it:
    - the detector is speaking exactly when it holds frames;
    - queued utterances are never empty;
    - the controllers that are set match the turn's progress;
    - playback has sent exactly the encoded frames before its offset.

Three modules are shared:

- `Arith` holds the integer facts the others use: positive integers,
  absolute value, and integer division as the floor of a quotient.
- `Pcm` is the little-endian `Int16Array` view of a byte buffer.
- `Config` holds the default settings of `src/config.ts`:
  - 8000 Hz line rate;
  - 20 ms frames of 320 bytes;
  - speech threshold 200, barge-in threshold 220;
  - 8 silence frames;
  - 16000 Hz for transcription and synthesis, language `en-US`.

`Metrics` models the logger as an append-only log of entries.

## Behaviour of the code that the model keeps

- **The mu-law encoder is modelled as the code is written.** The code
  picks the least exponent `e` with `biased <= 0x1F << (e + 3)`.
  - A biased magnitude that lies strictly between `31 * 2^(e+2)` and
    `2^(e+7)` gets the next exponent. It then gets mantissa 15, and it
    decodes to far more than the input.
  - Example: sample 117 encodes to 0xE0, and 0xE0 decodes to 372
    (`MuLaw.Sample117Overshoots`).
  - With the segments of G.711, decoding an encoded sample gives back the
    input to within half a quantisation step, `2^(e+2)`. This encoder does
    that only outside the band (`MuLaw.RoundTripWithinHalfStep`). Inside the
    band the error exceeds `124 * 2^e` (`MuLaw.RoundTripOvershootsInBand`).
  - The model follows the code.
- **A reply is not aborted by quieter speech.** A frame whose RMS lies
  between the speech threshold (200) and the barge-in threshold (220) is
  not barge-in. Suppose such a frame arrives while the session is
  `SPEAKING` and nothing is being collected:
  - the detector starts speech and moves the state to `LISTENING`;
  - the reply's controller is not aborted, so playback goes on;
  - a loud frame after it no longer barges in, because the state is no
    longer `SPEAKING`.

  `Session.QuietSpeechBand` and `Session.TwilioSession.QuietFrameDuringReply`
  exhibit this with the codes 0xEA (sample 212) and 0x80.

## Model

| member | source | states |
|---|---|---|
| Config.RoundDiv | src/config.ts:17 | `Math.round(n / d)` for non-negative `n`: the integer `r` with `2dr <= 2n + d < 2d(r + 1)` |
| Config.FrameBytesDefault | src/config.ts:15-18 | the frame size `2 * round(sampleRate * frameMs / 1000)` is 320 bytes at the default 8000 Hz and 20 ms |
| Pcm.Int16LE | src/audio/mulaw.ts:13 | `writeInt16LE` stores two bytes that read back as the same sample |
| Pcm.ReadInt16LE | src/audio/mulaw.ts:4-6 | the `Int16Array` element of two bytes is a 16-bit sample, negative exactly when the high byte is at least 128 |
| Pcm.Samples | src/audio/mulaw.ts:4-6 | the view of an even buffer has `n / 2` samples, sample `i` read from bytes `2i` and `2i + 1` |
| Pcm.FromSamples | src/audio/resample.ts:18-27 | writing samples one by one gives `2n` bytes, with sample `i` at bytes `2i..2i + 2` |
| Pcm.SamplesOfFromSamples | src/audio/resample.ts:26 | viewing the written buffer gives back the samples written |
| Pcm.FromSamplesOfSamples | src/audio/mulaw.ts:4-6 | re-writing the samples of an even buffer gives the same bytes |
| Pcm.Concat | src/session/TwilioSession.ts:122 | `Buffer.concat` is empty for no buffers, at least as long as each piece, and empty exactly when every piece is |
| Pcm.ConcatEven | src/session/TwilioSession.ts:122 | pieces of whole samples concatenate to whole samples |
| Pcm.Zeros | src/session/TwilioSession.ts:181 | `Buffer.alloc(n)` holds `n` zero bytes |
| Pcm.SamplesOfZeros | src/session/TwilioSession.ts:181 | zero bytes are zero samples |
| MuLaw.DecodedMagnitude | src/audio/mulaw.ts:32 | the magnitude plus the bias is `(8 * mantissa + 0x84) * 2^exponent`, so it is at least `8 * mantissa` |
| MuLaw.DecodedMagnitudeBounds | src/audio/mulaw.ts:30-32 | with exponent at most 7 and mantissa at most 15 the decoded magnitude lies in `0..32124`, and it is 0 only for exponent 0 and mantissa 0 |
| MuLaw.MuLawToLinear | src/audio/mulaw.ts:27-34 | every code decodes to a sample in `[-32124, 32124]`, negative exactly when the inverted sign bit is set (and the code is not 0x7F), and zero exactly for 0xFF and 0x7F |
| MuLaw.DecodedSamples | src/audio/mulaw.ts:8-16 | one decoded sample per code, sample `i` from code `i` alone |
| MuLaw.DecodeMuLaw | src/audio/mulaw.ts:8-16 | the loop writes twice as many bytes as codes, the sample of code `i` at offset `2i`; the result's samples are the decoded samples |
| MuLaw.Biased | src/audio/mulaw.ts:37-43 | the clipped magnitude plus the bias lies in `0x84..32767` |
| MuLaw.Fits | src/audio/mulaw.ts:46 | every biased magnitude up to `0x1F << 3` passes the test for any exponent, and none above `0x1F << 10` passes it for an exponent up to 7 |
| MuLaw.ExponentFrom | src/audio/mulaw.ts:44-50 | the search from `from` settles on the least exponent that fits, or 7 when none does |
| MuLaw.Exponent | src/audio/mulaw.ts:44-50 | the exponent is at most 7, no smaller exponent fits, and it fits unless it is 7 |
| MuLaw.ExponentUnique | src/audio/mulaw.ts:44-50 | those three conditions single out the exponent the encoder picks |
| MuLaw.Mantissa | src/audio/mulaw.ts:51 | `(biased >> (e + 3)) & 0x0F` is at most 15 |
| MuLaw.MuLawCode | src/audio/mulaw.ts:36-54 | the code's inverted sign bit is set exactly for negative samples, and its exponent and mantissa fields are the chosen exponent and mantissa |
| MuLaw.Packed | src/audio/mulaw.ts:52 | or-ing sign, exponent and mantissa into one byte keeps each field readable: bit 7 is the sign, bits 4-6 the exponent, bits 0-3 the mantissa |
| MuLaw.LinearToMuLaw | src/audio/mulaw.ts:36-54 | the clip, bias, early-break exponent search, pack and invert compute `MuLawCode` |
| MuLaw.EncodedCodes | src/audio/mulaw.ts:18-25 | one code per 16-bit sample of an even buffer, code `i` from sample `i` |
| MuLaw.EncodeMuLaw | src/audio/mulaw.ts:18-25 | the loop writes `n / 2` codes, code `i` the encoding of the sample at bytes `2i`, `2i + 1` |
| MuLaw.ZeroIsSilence | src/audio/mulaw.ts:27-53 | sample 0 encodes to 0xFF, which decodes to 0 |
| MuLaw.ZerosEncodeToSilence | src/audio/mulaw.ts:18-25 | a zero-filled buffer encodes to 0xFF codes only |
| MuLaw.SignPreserved | src/audio/mulaw.ts:29-53 | decoding an encoded sample gives at most 0 for a negative sample and at least 0 otherwise |
| MuLaw.RoundTripMagnitude | src/audio/mulaw.ts:27-53 | the round-trip magnitude is the decoded magnitude of the chosen exponent and mantissa |
| MuLaw.RoundTripWithinHalfStep | src/audio/mulaw.ts:36-54 | outside the misfit band the round trip is within half a quantisation step, `2^(e+2)`, of the clipped magnitude |
| MuLaw.HalfStep | src/audio/mulaw.ts:51 | the half-step bound in terms of the biased magnitude and the exponent |
| MuLaw.RoundTripOvershootsInBand | src/audio/mulaw.ts:44-51 | inside the band `31 * 2^(e+2) < biased < 2^(e+7)` the exponent is at least 1, the mantissa is 15, and the round trip overshoots by more than `124 * 2^e` |
| MuLaw.Overshoot | src/audio/mulaw.ts:44-51 | the overshoot bound in terms of the biased magnitude and the exponent |
| MuLaw.Sample117Overshoots | src/audio/mulaw.ts:44-51 | sample 117 encodes to 0xE0, which decodes to 372 |
| Resample.OutputCountIsFloor | src/audio/resample.ts:16 | the output length is at least 1, and otherwise the floor of `n * toRate / fromRate` |
| Resample.SourcePosition | src/audio/resample.ts:21-24 | `srcIndex` is the floor of the source position `i * fromRate / toRate`, and `frac` its remainder, a fraction below 1 |
| Resample.RoundHalfUp | src/audio/resample.ts:25 | `Math.round(num / den)` is the integer `r` with `r - 1/2 <= num / den < r + 1/2` |
| Resample.Lerp | src/audio/resample.ts:24-25 | the value written is the integer nearest to the point `frac` of the way from `input[srcIndex]` to `input[srcNext]`, halves rounding up |
| Resample.SourceIndexInRange | src/audio/resample.ts:20-23 | every `floor(i / ratio)` the loop reads is below the input sample count |
| Resample.InterpolationBetween | src/audio/resample.ts:24-25 | the rounded interpolation lies between the two bracketing samples, and equals the first when the fraction is 0 |
| Resample.Interpolated | src/audio/resample.ts:20-26 | output sample `i` is a 16-bit sample between `input[srcIndex]` and `input[srcNext]`, and is `input[srcIndex]` when the source position is whole |
| Resample.Resampled | src/audio/resample.ts:10-27 | no samples in, none out; otherwise `max(1, floor(n * toRate / fromRate))` samples, sample `i` interpolated |
| Resample.ResampledBytes | src/audio/resample.ts:1-30 | equal rates return the buffer itself, an empty buffer gives an empty one, and otherwise the result's samples are the resampled samples, `2 * max(1, floor(n * toRate / fromRate))` bytes long |
| Resample.ResampleBuffer | src/audio/resample.ts:1-30 | the two early returns and the loop over the output buffer compute `ResampledBytes` |
| Resample.OutputSample | src/audio/resample.ts:21-25 | one loop iteration's bracket, interpolate and round gives `Interpolated` |
| Resample.ResampledOfEmpty | src/audio/resample.ts:10-13 | zero input samples give zero output samples |
| Resample.ResampledOfOneSample | src/audio/resample.ts:16-25 | one input sample gives at least one output sample, the first equal to it |
| Resample.ResampledWithinInputRange | src/audio/resample.ts:20-26 | every output sample lies within the range of the input samples |
| Resample.UpsampleKeepsInputSamples | src/audio/resample.ts:21-25 | upsampling by a whole factor `k` puts input sample `j` at output position `k * j` unchanged |
| Vad.SumSquares | src/audio/vad.ts:5-8 | the loop's sum is 0 for no samples and at least the square of every sample |
| Vad.MeanSquare | src/audio/vad.ts:1-10 | the square of the RMS is never negative, and is 0 for no samples |
| Vad.ComputeRms | src/audio/vad.ts:1-10 | 0 for an empty buffer; otherwise the loop's sum of squares over the sample count is the mean square of the samples |
| Vad.SumSquaresZeroIff | src/audio/vad.ts:6-8 | the sum of squares is 0 exactly when every sample is 0 |
| Vad.MeanSquareZeroIff | src/audio/vad.ts:2-9 | the energy is 0 exactly for an all-zero (or empty) frame |
| Vad.SumSquaresBounded | src/audio/vad.ts:6-8 | with every magnitude at most `b` the sum of squares is at most `n * b * b` |
| Vad.MeanSquareBounded | src/audio/vad.ts:6-9 | the RMS never exceeds the largest sample magnitude |
| Vad.RmsAtLeast | src/audio/vad.ts:9 | only a frame with some energy reaches a positive threshold |
| Vad.RmsAtLeastOfRoot | src/audio/vad.ts:9 | comparing the mean square with `T * T` is comparing its non-negative square root with `T` |
| Vad.RmsAtLeastIff | src/audio/vad.ts:9 | `rms >= T` is `sum >= T * T * n` for a non-empty frame, and false for an empty one unless `T == 0` |
| StateMachine.TransitionLog | src/core/stateMachine.ts:16-25 | a transition logs nothing exactly when the state does not change, and otherwise one entry |
| StateMachine.SessionStateMachine.constructor | src/core/stateMachine.ts:12-14 | a fresh machine is `CONNECTED` and keeps its logger |
| StateMachine.SessionStateMachine.Transition | src/core/stateMachine.ts:16-25 | afterwards the state is the target; a same-state transition changes nothing; otherwise exactly one `state-transition` entry `{from, to}` is logged; no target is refused |
| StateMachine.SessionStateMachine.State | src/core/stateMachine.ts:27-29 | the `state` getter returns the current state and reads nothing but the machine |
| Metrics.MetricsLogger.constructor | src/metrics/logger.ts:2 | a new logger has its session id and an empty log |
| Metrics.MetricsLogger.Log | src/metrics/logger.ts:4-22 | each of `info`, `warn`, `error`, `event` appends exactly one entry |
| Session.Abort | src/session/TwilioSession.ts:211-213 | `controller?.abort()` aborts a set controller and leaves an unset one unset |
| Session.TrimStart | src/session/TwilioSession.ts:146 | a suffix of the text: every character dropped in front is white space, the first one kept is not, and it is empty exactly when every character is white space |
| Session.TrimEnd | src/session/TwilioSession.ts:146 | a prefix of the text: every character dropped at the end is white space, the last one kept is not, and it is empty exactly when every character is white space |
| Session.BlankIffTrimmedEmpty | src/session/TwilioSession.ts:146 | `!text.trim()`, here and at line 157, holds exactly when trimming both ends leaves the empty string |
| Session.DecodedFrame | src/session/TwilioSession.ts:97 | a media payload decodes to twice its length in bytes, whose samples are the decoded samples |
| Session.LoudFrameNotEmpty | src/session/TwilioSession.ts:104-105 | a frame at or above a positive threshold is not empty |
| Session.SingleCodeEnergy | src/session/TwilioSession.ts:97-98 | a one-code frame decoding to `v` has energy `v * v` |
| Session.QuietSpeechBand | src/session/TwilioSession.ts:99-110 | code 0xEA is loud enough for speech but not for barge-in; code 0x80 is loud enough for both |
| Session.CeilDiv | src/session/TwilioSession.ts:180 | `Math.ceil(n / d)` is the fewest `d`-byte frames that cover `n` bytes |
| Session.Padded | src/session/TwilioSession.ts:180-182 | the padded buffer is `ceil(n / 320) * 320` bytes, starts with the audio, is zero after it, and is less than a frame longer |
| Session.EncodedFrames | src/session/TwilioSession.ts:184-191 | a whole-frame buffer is sent as one 160-code frame per 320 bytes |
| Session.EncodedFramesSnoc | src/session/TwilioSession.ts:184-191 | sending one more frame appends the encoding of the next slice |
| Session.EncodedFramesLast | src/session/TwilioSession.ts:184-191 | the frames of a non-empty whole-frame buffer end with the encoding of its last 320 bytes |
| Session.EncodedFramesAt | src/session/TwilioSession.ts:184-189 | frame `k` is the encoding of bytes `320k..320k + 320`, in order |
| Session.PlaybackFrameCount | src/session/TwilioSession.ts:180-184 | a whole playback sends `ceil(n / 320)` frames, and a partial one no more |
| Session.PaddingIsSilent | src/session/TwilioSession.ts:181-188 | every code sent for a sample of zero padding is 0xFF |
| Session.OptionalText | src/session/TwilioSession.ts:81 | an `undefined` field gives no detail, a defined one a text detail |
| Session.Prefix200 | src/session/TwilioSession.ts:69 | `text.slice(0, 200)` is the prefix of length `min(n, 200)` |
| Session.TwilioSession.constructor | src/session/TwilioSession.ts:39-59 | a new session is `CONNECTED`, alive, has nothing collected, queued or sent, and has logged `session-start` with the stream path |
| Session.TwilioSession.HandleRaw | src/session/TwilioSession.ts:61-87 | a closed session ignores every message; malformed text is warned about (first 200 characters) and dropped with no state change; a parsed message, in a live session, is handled as `HandleMessage` states |
| Session.TwilioSession.HandleMessage | src/session/TwilioSession.ts:73-86 | `start` records both ids, logs `twilio-start` and changes nothing else; `media` is handled as `HandleMedia` states, with the session still alive and its ids kept; `stop` logs `twilio-stop` and `session-end`, closes, and changes nothing else; any other event logs `unknown-event` and changes nothing |
| Session.TwilioSession.HandleMediaMessage | src/session/TwilioSession.ts:77-79 | the `media` case: `handleMedia`, leaving liveness and the ids unchanged |
| Session.TwilioSession.HandleStop | src/session/TwilioSession.ts:80-83 | `twilio-stop` with the reason, then `session-end` with the call id; the session is closed |
| Session.TwilioSession.HandleStart | src/session/TwilioSession.ts:89-93 | the call and stream ids are recorded and `twilio-start` is logged |
| Session.TwilioSession.HandleMedia | src/session/TwilioSession.ts:95-119 | no payload changes nothing; barge-in energy while `SPEAKING` aborts all controllers, moves to `LISTENING` and keeps nothing; speech energy appends the frame, resets the silence count and starts speech (moving to `LISTENING`) if not already speaking; a quiet frame during speech is appended and counted, and the `SILENCE_FRAMES`-th queues the concatenation of the collected frames; a quiet frame outside speech changes nothing |
| Session.TwilioSession.QuietFrameDuringReply | src/session/TwilioSession.ts:99-110 | while `SPEAKING` and not collecting, a frame with energy between the two thresholds moves to `LISTENING` without aborting the reply, and a loud frame after it is only collected |
| Session.TwilioSession.MeasureFrame | src/session/TwilioSession.ts:97-98 | decoding and `computeRms` give the decoded frame and its energy |
| Session.TwilioSession.KeepSpeechFrame | src/session/TwilioSession.ts:104-110 | the frame is appended, the silence count reset, and speech started with a move to `LISTENING` only if it was not already |
| Session.TwilioSession.KeepSilenceFrame | src/session/TwilioSession.ts:111-117 | the frame is appended and counted; reaching the limit stops speech and queues the utterance |
| Session.TwilioSession.EmitUtterance | src/session/TwilioSession.ts:121-132 | the concatenation of the collected frames joins the end of the queue unless it is empty; the collection is emptied |
| Session.TwilioSession.StartNextTurn | src/session/TwilioSession.ts:134-144 | the oldest queued utterance is taken; a closed session does nothing with it; otherwise `TRANSCRIBING`, a live transcription controller, and one `transcribe` call with the utterance resampled to 16000 Hz, rate 16000 and `en-US` |
| Session.TwilioSession.StartTranscription | src/session/TwilioSession.ts:136-144 | a live turn moves to `TRANSCRIBING`, sets a transcription controller and makes one `transcribe` call with the utterance resampled to 16000 Hz |
| Session.TwilioSession.BeginTranscription | src/session/TwilioSession.ts:136-137 | the move to `TRANSCRIBING` with a fresh transcription controller |
| Session.TwilioSession.RequestTranscript | src/session/TwilioSession.ts:139-144 | the one `transcribe` call carries the resampled utterance, its rate and its language |
| Session.TwilioSession.OnTranscript | src/session/TwilioSession.ts:146-156 | a rejection ends the turn in `LISTENING` with controllers cleared and `utterance-failure` logged; a blank transcript ends it with `empty-transcript` and no `generate` call; otherwise `THINKING` and one `generate` call with the transcript |
| Session.TwilioSession.OnResponse | src/session/TwilioSession.ts:157-168 | a rejection ends the turn and is logged; a blank response ends it with `empty-response` and no `synthesize` call; otherwise `llm-response` with the length, `SPEAKING`, and one `synthesize` call at 16000 Hz |
| Session.TwilioSession.OnSpeech | src/session/TwilioSession.ts:165-178 | a rejection ends the turn and is logged; empty audio ends it with nothing sent; otherwise the padded, resampled audio starts playing and its first frame is sent unless the session is closed or the reply aborted |
| Session.TwilioSession.StartPlayback | src/session/TwilioSession.ts:177-190 | the audio is resampled to 8000 Hz and padded, and the first pass of the loop runs |
| Session.TwilioSession.FailTurn | src/session/TwilioSession.ts:127-131 | the `finally` ends the turn, then `utterance-failure` is logged with the error |
| Session.TwilioSession.PadSpeech | src/session/TwilioSession.ts:179-182 | the padded buffer of the resampled audio is non-empty and whole frames |
| Session.TwilioSession.PlayStep | src/session/TwilioSession.ts:184-191 | past the end, once closed, or once aborted, the loop stops and the turn ends in `LISTENING` with nothing sent; otherwise the next frame is encoded and sent and the offset advances by one frame |
| Session.TwilioSession.SendFrame | src/session/TwilioSession.ts:187-189 | one frame, the mu-law encoding of the next 320 bytes, is appended to what was sent |
| Session.TwilioSession.FinishTurn | src/session/TwilioSession.ts:171-174 | every exit clears the three controllers and ends in `LISTENING` |
| Session.TwilioSession.ClearControllers | src/session/TwilioSession.ts:217-221 | all three controllers are unset |
| Session.TwilioSession.TriggerBargeIn | src/session/TwilioSession.ts:206-215 | outside `SPEAKING` nothing changes; in `SPEAKING` `barge-in` is logged, every set controller is aborted and the state becomes `LISTENING` |
| Session.TwilioSession.Close | src/session/TwilioSession.ts:239-244 | the first call closes the session and logs `session-end` with the call id; any later call changes nothing |

## Left out

- Transport plumbing. This covers the WebSocket handlers registered in the
  constructor, `bufferFromRaw`, and `sendMedia`'s `readyState` check, base64
  and JSON.
  - Inbound messages arrive already parsed, as `Inbound`.
  - Outbound frames are recorded in `sent` as if the socket were open.
  - The `websocket-error` log and `ws.close()` are not part of this model.
- Pacing and concurrency.
  - The 20 ms `sleep` between frames is not modelled; each call of
    `PlayStep` is one pass of the loop.
  - Which event runs next is left to the caller, and the model does not
    schedule them.
  - The chain's order is kept: one turn at a time, oldest first, and a
    failed turn leaves the queue untouched.
- Providers. Transcription, generation and synthesis are the results given
  to `OnTranscript`, `OnResponse` and `OnSpeech`. Their HTTP clients and
  their mock implementations are not part of this model.
- The environment overrides of the settings in `src/config.ts`. The model
  uses the default values as constants.
- Other parts of the repository are not part of this model:
  - the LiveKit session;
  - the TwiML builder;
  - the HTTP server and the token server;
  - the Python agent and the speaker-embedding service;
  - the logger's console formatting.
- Floating point.
  - `Math.sqrt` is not computed; energies are compared as squares.
  - `inputSamples * ratio`, `i / ratio` and `frac * (b - a)`
    (`src/audio/resample.ts:16-25`) are exact rationals, not IEEE doubles.
    A double could round differently for some inputs.
- Session ids. `randomUUID` is a parameter of the constructor.
- Odd-length buffers.
  - Every PCM buffer is assumed to hold whole 16-bit samples: decoded
    frames always do, and the resampler and `encodeMuLaw` require it.
  - `Session.TwilioSession.OnSpeech`: requires synthesized audio of even
    length. Odd lengths are excluded by assumption. The source does not
    reject them: the `Int16Array` view keeps only the whole samples, while
    the fractional sample count `length / 2` still feeds the output length
    and the last source index. A 1- or 3-byte buffer then reads an
    undefined sample, and `writeInt16LE` writes the resulting `NaN` as 0.
    That behaviour is not modelled.
- Byte order and alignment. The `Int16Array` views are taken to be
  little-endian and aligned.
- `Session.TwilioSession.OnResponse`: reports the response length as the
  number of characters of the string, not JavaScript's UTF-16 code-unit
  count.
- `Session.TwilioSession.HandleRaw`: JSON that parses but has the wrong
  shape is not modelled. Examples are `null`, or a `start`, `media` or `stop`
  event without its object. The source then throws a `TypeError` outside
  the `try` (`src/session/TwilioSession.ts:73`, `:81`, `:90`, `:96`), and
  the exception leaves the handler. `Inbound` carries only text that fails
  to parse or a well-shaped message.
- `Session.Prefix200`: counts Unicode scalar values. `text.slice(0, 200)`
  counts UTF-16 code units, so for text with characters outside the Basic
  Multilingual Plane the source's prefix is shorter, and it can end in half
  a surrogate pair.
- `Session.IsBlank`: treats the characters that `String.prototype.trim`
  removes as a fixed set of code points.
