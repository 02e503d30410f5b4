/**
 * The per-call session of `src/session/TwilioSession.ts`.
 *
 * The session object receives transport messages one at a time, segments the
 * caller's speech with a hysteresis endpoint detector, queues each finished
 * utterance on a serial processing chain, runs the turn pipeline
 * (transcribe, generate, synthesize) against external providers, plays the
 * synthesized reply back frame by frame, and interrupts playback when the
 * caller barges in.
 *
 * The source's `processTurn` is an `async` function whose awaits let other
 * events run in between. The model cuts it at those awaits: `StartNextTurn`
 * runs it up to the transcription call, `OnTranscript`, `OnResponse` and
 * `OnSpeech` run it from one provider result to the next await, and
 * `PlayStep` runs one pass of the playout loop after its one-frame sleep.
 * Events and steps run one after another, in any order the caller chooses,
 * which is how the single-threaded event loop interleaves them. Provider
 * results are parameters: a promise that resolves with a value or rejects.
 * The promise chain `processing` is the queue `pending` of utterances not yet
 * started plus the turn at its head; the frames handed to the transport, the
 * provider calls made and the metrics logged are ghost logs.
 */
module Session {
  import opened Pcm
  import MuLaw
  import Resample
  import Vad
  import opened Config
  import opened Metrics
  import opened StateMachine

  datatype Option<T> = None | Some(value: T)

  /** An inbound transport message once `JSON.parse` has accepted it. */
  datatype Message =
    | Start(callSid: string, streamSid: string)
      /** `None` when `media.payload` is missing or the empty string, otherwise its base64 decoding. */
    | Media(payload: Option<seq<byte>>)
    | Stop(reason: Option<string>)
    | Unknown(event: string)

  /** What `handleRaw` is given: text `JSON.parse` rejects, or a parsed message. */
  datatype Inbound = Malformed(text: string) | Parsed(message: Message)

  /** An `AbortController` field: unset, or set and possibly aborted. */
  datatype Controller = Unset | Live(aborted: bool)

  /** How a provider's promise settles. */
  datatype Settled<T> = Resolved(value: T) | Rejected(error: string)

  /** A call made to one of the three providers, with the arguments it was given. */
  datatype ProviderCall =
    | Transcribe(audio: seq<byte>, sampleRate: nat, languageCode: string)
    | Generate(prompt: string)
    | Synthesize(text: string, sampleRate: nat)

  /** Where the turn at the head of the processing chain is suspended. */
  datatype Turn =
    | Idle
    | AwaitingTranscript
    | AwaitingResponse(transcript: string)
    | AwaitingSpeech
    | Playing(padded: seq<byte>, offset: nat)

  /** `controller?.abort()`: aborts a live controller, leaves an unset one alone. */
  function Abort(c: Controller): (r: Controller)
    ensures r.Live? <==> c.Live?
    ensures r.Live? ==> r.aborted
  {
    match c
    case Unset => Unset
    case Live(_) => Live(true)
  }

  /** `controller?.signal.aborted`, read as a condition. */
  predicate IsAborted(c: Controller)
  {
    c.Live? && c.aborted
  }

  /** The characters `String.prototype.trim` removes: white space and line terminators. */
  predicate IsTrimmed(c: char)
  {
    var n := c as int;
    n == 0x09 || n == 0x0A || n == 0x0B || n == 0x0C || n == 0x0D || n == 0x20
    || n == 0xA0 || n == 0x1680 || (0x2000 <= n <= 0x200A) || n == 0x2028 || n == 0x2029
    || n == 0x202F || n == 0x205F || n == 0x3000 || n == 0xFEFF
  }

  /** `String.prototype.trim` without its trailing half: the suffix left after the leading white space. */
  function TrimStart(s: string): (t: string)
    ensures |t| <= |s| && t == s[|s| - |t|..]
    ensures forall i :: 0 <= i < |s| - |t| ==> IsTrimmed(s[i])
    ensures t != [] ==> !IsTrimmed(t[0])
    ensures t == [] <==> forall i :: 0 <= i < |s| ==> IsTrimmed(s[i])
  {
    if |s| == 0 || !IsTrimmed(s[0]) then s
    else
      var rest := s[1..];
      assert forall i :: 0 <= i < |rest| ==> rest[i] == s[i + 1];
      TrimStart(rest)
  }

  /** The prefix left after the trailing white space. */
  function TrimEnd(s: string): (t: string)
    ensures |t| <= |s| && t == s[..|t|]
    ensures forall i :: |t| <= i < |s| ==> IsTrimmed(s[i])
    ensures t != [] ==> !IsTrimmed(t[|t| - 1])
    ensures t == [] <==> forall i :: 0 <= i < |s| ==> IsTrimmed(s[i])
  {
    if |s| == 0 || !IsTrimmed(s[|s| - 1]) then s
    else
      var rest := s[..|s| - 1];
      assert forall i :: 0 <= i < |rest| ==> rest[i] == s[i];
      TrimEnd(rest)
  }

  /** `String.prototype.trim`: both ends stripped of white space and line terminators. */
  function Trim(s: string): string
  {
    TrimEnd(TrimStart(s))
  }

  /** `!text.trim()`: every character is one `trim` removes. */
  predicate IsBlank(text: string)
  {
    forall i :: 0 <= i < |text| ==> IsTrimmed(text[i])
  }

  /** A text is blank exactly when trimming it leaves the empty string. */
  lemma BlankIffTrimmedEmpty(text: string)
    ensures IsBlank(text) <==> Trim(text) == []
  {
  }

  /** The PCM bytes `decodeMuLaw` produces for a media payload. */
  function DecodedFrame(codes: seq<byte>): (pcm: seq<byte>)
    ensures |pcm| == 2 * |codes|
    ensures Samples(pcm) == MuLaw.DecodedSamples(codes)
  {
    SamplesOfFromSamples(MuLaw.DecodedSamples(codes));
    FromSamples(MuLaw.DecodedSamples(codes))
  }

  /** The squared RMS `computeRms` finds in a decoded media payload. */
  function FrameEnergy(codes: seq<byte>): real
  {
    Vad.MeanSquare(MuLaw.DecodedSamples(codes))
  }

  /** A frame loud enough for any positive threshold has at least one sample. */
  lemma LoudFrameNotEmpty(codes: seq<byte>, threshold: nat)
    requires threshold > 0 && Vad.RmsAtLeast(FrameEnergy(codes), threshold)
    ensures codes != [] && DecodedFrame(codes) != []
  {
  }

  /** `Math.ceil(n / d)`: the fewest `d`-sized pieces that cover `n`. */
  function CeilDiv(n: nat, d: nat): (q: nat)
    requires d > 0
    ensures q * d >= n
    ensures q == 0 || (q - 1) * d < n
  {
    (n + d - 1) / d
  }

  /** The buffer `playAudio` allocates and copies the audio into: whole frames, zero-filled at the end. */
  function Padded(audio: seq<byte>): (padded: seq<byte>)
    ensures |padded| == CeilDiv(|audio|, FRAME_BYTES) * FRAME_BYTES
    ensures |padded| % FRAME_BYTES == 0
    ensures |audio| <= |padded| < |audio| + FRAME_BYTES
    ensures padded[..|audio|] == audio
    ensures forall i :: |audio| <= i < |padded| ==> padded[i] == 0
  {
    FrameBytesDefault();
    var total := CeilDiv(|audio|, FRAME_BYTES) * FRAME_BYTES;
    audio + Zeros(total - |audio|)
  }

  /**
   * The mu-law frames sent for the whole frames of `pcm`, in order: one per
   * `FRAME_BYTES` bytes, each the encoding of its own slice.
   */
  function EncodedFrames(pcm: seq<byte>): (frames: seq<seq<byte>>)
    requires |pcm| % FRAME_BYTES == 0
    ensures |frames| == |pcm| / FRAME_BYTES
    ensures forall k :: 0 <= k < |frames| ==> |frames[k]| == FRAME_BYTES / 2
    decreases |pcm|
  {
    FrameBytesDefault();
    if |pcm| == 0 then []
    else
      var n := |pcm| - FRAME_BYTES;
      EncodedFrames(pcm[..n]) + [MuLaw.EncodedCodes(pcm[n..])]
  }

  /**
   * Sending one more frame extends the frames sent so far: the frames of the
   * first `offset + FRAME_BYTES` bytes are those of the first `offset` bytes
   * followed by the encoding of the next frame.
   */
  lemma EncodedFramesSnoc(padded: seq<byte>, offset: nat)
    requires offset % FRAME_BYTES == 0 && offset + FRAME_BYTES <= |padded|
    ensures EncodedFrames(padded[..offset + FRAME_BYTES])
         == EncodedFrames(padded[..offset]) + [MuLaw.EncodedCodes(padded[offset..offset + FRAME_BYTES])]
  {
    FrameBytesDefault();
    var long := padded[..offset + FRAME_BYTES];
    assert |long| - FRAME_BYTES == offset;
    assert long[..offset] == padded[..offset];
    assert long[offset..] == padded[offset..offset + FRAME_BYTES];
    assert EncodedFrames(long) == EncodedFrames(long[..offset]) + [MuLaw.EncodedCodes(long[offset..])];
  }

  /** Below the end of a whole-frame buffer, a whole frame remains. */
  lemma NextFrameFits(offset: nat, n: nat)
    requires offset % FRAME_BYTES == 0 && n % FRAME_BYTES == 0 && offset < n
    ensures offset + FRAME_BYTES <= n
  {
  }

  /** The mu-law codes of the whole frame of `padded` that starts at `offset`. */
  function NextFrame(padded: seq<byte>, offset: nat): (codes: seq<byte>)
    requires offset % FRAME_BYTES == 0 && |padded| % FRAME_BYTES == 0 && offset < |padded|
  {
    NextFrameFits(offset, |padded|);
    MuLaw.EncodedCodes(padded[offset..offset + FRAME_BYTES])
  }

  /**
   * Frame `k` of the frames sent for `pcm` is the mu-law encoding of bytes
   * `k * FRAME_BYTES` up to `(k + 1) * FRAME_BYTES`: frames go out in order
   * and each carries its own slice.
   */
  lemma {:induction false} EncodedFramesAt(pcm: seq<byte>, k: nat)
    requires |pcm| % FRAME_BYTES == 0 && k < |pcm| / FRAME_BYTES
    ensures k * FRAME_BYTES + FRAME_BYTES <= |pcm|
    ensures EncodedFrames(pcm)[k] == MuLaw.EncodedCodes(pcm[k * FRAME_BYTES..k * FRAME_BYTES + FRAME_BYTES])
    decreases |pcm|
  {
    var n := |pcm| - FRAME_BYTES;
    var lo := k * FRAME_BYTES;
    FrameInRange(k, |pcm|);
    var frame := pcm[lo..lo + FRAME_BYTES];
    if k < n / FRAME_BYTES {
      assert EncodedFrames(pcm)[k] == EncodedFrames(pcm[..n])[k] by {
        EncodedFramesLast(pcm);
      }
      assert EncodedFrames(pcm[..n])[k] == MuLaw.EncodedCodes(frame) by {
        EncodedFramesAt(pcm[..n], k);
        FrameInRange(k, n);
        assert pcm[..n][lo..lo + FRAME_BYTES] == frame;
      }
    } else {
      assert EncodedFrames(pcm)[k] == MuLaw.EncodedCodes(pcm[n..]) by {
        EncodedFramesLast(pcm);
      }
      assert lo == n;
    }
  }

  /** The frames of a non-empty whole-frame buffer end with the encoding of its last frame. */
  lemma EncodedFramesLast(pcm: seq<byte>)
    requires |pcm| % FRAME_BYTES == 0 && |pcm| > 0
    ensures |pcm| >= FRAME_BYTES
    ensures EncodedFrames(pcm)
         == EncodedFrames(pcm[..|pcm| - FRAME_BYTES]) + [MuLaw.EncodedCodes(pcm[|pcm| - FRAME_BYTES..])]
  {
  }

  /** Frame `k` of a whole-frame buffer of `len` bytes lies inside it. */
  lemma FrameInRange(k: nat, len: nat)
    requires len % FRAME_BYTES == 0 && k < len / FRAME_BYTES
    ensures k * FRAME_BYTES + FRAME_BYTES <= len
  {
  }

  /**
   * A whole playback sends `ceil(n / FRAME_BYTES)` frames of `FRAME_BYTES / 2`
   * codes for `n` bytes of resampled speech, and any prefix of it sends no
   * more.
   */
  lemma PlaybackFrameCount(audio: seq<byte>, offset: nat)
    requires offset % FRAME_BYTES == 0 && offset <= |Padded(audio)|
    ensures |EncodedFrames(Padded(audio))| == CeilDiv(|audio|, FRAME_BYTES)
    ensures |EncodedFrames(Padded(audio)[..offset])| <= CeilDiv(|audio|, FRAME_BYTES)
  {
  }

  /**
   * The bytes past the end of the speech are zero padding, and zero padding
   * is sent as mu-law silence: every code of a frame whose sample lies past
   * the end of the (whole-sample) speech is 0xFF.
   */
  lemma {:induction false} PaddingIsSilent(audio: seq<byte>, k: nat, j: nat)
    requires |audio| % 2 == 0
    requires k < |Padded(audio)| / FRAME_BYTES && j < FRAME_BYTES / 2
    requires |audio| <= k * FRAME_BYTES + 2 * j
    ensures EncodedFrames(Padded(audio))[k][j] == 0xFF
  {
    var padded := Padded(audio);
    EncodedFramesAt(padded, k);
    var slice := padded[k * FRAME_BYTES..k * FRAME_BYTES + FRAME_BYTES];
    assert slice[2 * j] == padded[k * FRAME_BYTES + 2 * j] == 0;
    assert slice[2 * j + 1] == padded[k * FRAME_BYTES + 2 * j + 1] == 0;
    assert Samples(slice)[j] == 0;
    MuLaw.ZeroIsSilence();
  }

  /**
   * The detector's two thresholds leave a band of frames that count as
   * speech but are too quiet to barge in: the single code 0xEA decodes to
   * the sample 212, whose RMS lies between 200 and 220. Code 0x80 decodes to
   * 32124, loud enough for both.
   */
  lemma QuietSpeechBand()
    ensures Vad.RmsAtLeast(FrameEnergy([0xEA]), VAD_THRESHOLD)
    ensures !Vad.RmsAtLeast(FrameEnergy([0xEA]), BARGE_IN_THRESHOLD)
    ensures Vad.RmsAtLeast(FrameEnergy([0x80]), BARGE_IN_THRESHOLD)
  {
    assert MuLaw.Inverted(0xEA) == 0x15 && MuLaw.ExponentField(0x15) == 1 && MuLaw.MantissaField(0x15) == 5;
    assert MuLaw.Pow2(1) == 2 && MuLaw.Pow2(4) == 16;
    SingleCodeEnergy(0xEA, 212);
    assert MuLaw.Inverted(0x80) == 0x7F && MuLaw.ExponentField(0x7F) == 7 && MuLaw.MantissaField(0x7F) == 15;
    assert MuLaw.Pow2(7) == 128 && MuLaw.Pow2(10) == 1024;
    SingleCodeEnergy(0x80, 32124);
  }

  /** A frame of one code that decodes to `v` has mean square `v * v`. */
  lemma SingleCodeEnergy(code: byte, v: int16)
    requires MuLaw.MuLawToLinear(code) == v
    ensures FrameEnergy([code]) == (v * v) as real
  {
    assert MuLaw.DecodedSamples([code]) == [v];
    assert Vad.SumSquares([v]) == Vad.SumSquares([]) + Vad.Square(v);
  }

  /** A text field of a log entry, or no detail when the value is `undefined`. */
  function OptionalText(key: string, value: Option<string>): (d: Detail)
    ensures value.None? <==> d == NoDetail
    ensures value.Some? ==> d == Text(key, value.value)
  {
    match value
    case None => NoDetail
    case Some(v) => Text(key, v)
  }

  /** `text.slice(0, 200)`. */
  function Prefix200(text: string): (r: string)
    ensures |r| == if |text| < 200 then |text| else 200
    ensures r == text[..|r|]
  {
    if |text| <= 200 then text else text[..200]
  }

  class TwilioSession {
    const metrics: MetricsLogger
    const stateMachine: SessionStateMachine
    var callSid: Option<string>
    var streamSid: Option<string>
    var collected: seq<seq<byte>>
    var speaking: bool
    var silenceFrames: nat
    var alive: bool
    var sttController: Controller
    var llmController: Controller
    var ttsController: Controller
    /** Utterances on the processing chain whose turn has not started yet, oldest first. */
    var pending: seq<seq<byte>>
    /** The turn at the head of the processing chain. */
    var turn: Turn
    /** Every mu-law frame handed to `sendMedia`, in order. */
    ghost var sent: seq<seq<byte>>
    /** Every provider call made, in order. */
    ghost var calls: seq<ProviderCall>
    /** The length of `sent` when the current playback began. */
    ghost var playStart: nat

    /** Which controllers are set at each point of a turn. */
    ghost predicate ControllersMatchTurn()
      reads this`turn, this`sttController, this`llmController, this`ttsController
    {
      match turn
      case Idle => sttController == Unset && llmController == Unset && ttsController == Unset
      case AwaitingTranscript => sttController.Live? && llmController == Unset && ttsController == Unset
      case AwaitingResponse(_) => sttController.Live? && llmController.Live? && ttsController == Unset
      case AwaitingSpeech => sttController.Live? && llmController.Live? && ttsController.Live?
      case Playing(_, _) => sttController.Live? && llmController.Live? && ttsController.Live?
    }

    /** During playback the frames sent so far are exactly the encoded whole frames before `offset`. */
    ghost predicate PlaybackValid()
      reads this`turn, this`sent, this`playStart
    {
      turn.Playing? ==>
        && |turn.padded| > 0 && |turn.padded| % FRAME_BYTES == 0
        && turn.offset % FRAME_BYTES == 0 && turn.offset <= |turn.padded|
        && playStart <= |sent|
        && sent[playStart..] == EncodedFrames(turn.padded[..turn.offset])
    }

    /** Every collected frame is whole 16-bit samples. */
    ghost predicate CollectedEven()
      reads this`collected
    {
      forall k :: 0 <= k < |collected| ==> |collected[k]| % 2 == 0
    }

    /** No queued utterance is empty, and each is whole 16-bit samples. */
    ghost predicate PendingValid()
      reads this`pending
    {
      forall k :: 0 <= k < |pending| ==> pending[k] != [] && |pending[k]| % 2 == 0
    }

    /**
     * The session invariant: the endpoint detector is speaking exactly when
     * it holds frames, and then they hold some audio; its silence count stays
     * below the limit while speaking; queued utterances are non-empty; the
     * controllers match the turn's progress; `SPEAKING` only happens once a
     * reply has been generated; and playback has sent exactly the frames
     * before its offset.
     */
    ghost predicate Valid()
      reads this`speaking, this`collected, this`silenceFrames, this`pending, this`turn,
               this`sttController, this`llmController, this`ttsController, this`sent, this`playStart, stateMachine
    {
      && stateMachine.logger == metrics
      && DetectorValid()
      && PendingValid()
      && ControllersMatchTurn()
      && (stateMachine.currentState == SPEAKING ==> turn.AwaitingSpeech? || turn.Playing?)
      && PlaybackValid()
    }

    /**
     * The endpoint detector's fields agree: speaking exactly when frames are
     * held, and then they hold some audio; the silence count stays at most
     * the limit, and below it while speaking.
     */
    ghost predicate DetectorValid()
      reads this`speaking, this`collected, this`silenceFrames
    {
      && (speaking <==> collected != [])
      && (speaking ==> collected[0] != [])
      && CollectedEven()
      && silenceFrames <= SILENCE_FRAMES
      && (speaking ==> silenceFrames < SILENCE_FRAMES)
    }

    /** A new session: `CONNECTED`, alive, nothing collected or queued, `session-start` logged. */
    constructor (sessionId: string)
      ensures Valid() && fresh(metrics) && fresh(stateMachine)
      ensures stateMachine.currentState == CONNECTED && alive
      ensures collected == [] && !speaking && silenceFrames == 0
      ensures sttController == Unset && llmController == Unset && ttsController == Unset
      ensures pending == [] && turn == Idle && sent == [] && calls == []
      ensures callSid == None && streamSid == None
      ensures metrics.events == [Entry(Info, "session-start", Text("streamPath", "/twilio/stream"))]
    {
      var logger := new MetricsLogger(sessionId);
      metrics := logger;
      stateMachine := new SessionStateMachine(logger);
      callSid, streamSid := None, None;
      collected, speaking, silenceFrames, alive := [], false, 0, true;
      sttController, llmController, ttsController := Unset, Unset, Unset;
      pending, turn := [], Idle;
      sent, calls, playStart := [], [], 0;
      new;
      metrics.Log(Info, "session-start", Text("streamPath", "/twilio/stream"));
    }

    /**
     * What handling a parsed message does, on its `event`: `start` as
     * `StartHandled`, `media` as `MediaMessageHandled`, `stop` as `StopHandled`,
     * and any other event as `UnknownHandled`.
     */
    twostate predicate MessageHandled(message: Message)
      reads this, stateMachine, metrics
    {
      match message
      case Start(c, s) => StartHandled(c, s)
      case Media(payload) => MediaMessageHandled(payload)
      case Stop(reason) => StopHandled(reason)
      case Unknown(event) => UnknownHandled(event)
    }

    /** A `start` message records the call and stream identifiers, reports `twilio-start`, and changes nothing else. */
    twostate predicate StartHandled(newCallSid: string, newStreamSid: string)
      reads this, stateMachine, metrics
    {
      && callSid == Some(newCallSid) && streamSid == Some(newStreamSid)
      && alive == old(alive) && collected == old(collected) && speaking == old(speaking)
      && silenceFrames == old(silenceFrames) && pending == old(pending)
      && sttController == old(sttController) && llmController == old(llmController) && ttsController == old(ttsController)
      && stateMachine.currentState == old(stateMachine.currentState)
      && metrics.events == old(metrics.events) + [Entry(Info, "twilio-start", Text("callSid", newCallSid))]
    }

    /**
     * A `stop` message reports `twilio-stop` with its reason, then closes the
     * session, which reports `session-end`; nothing else changes.
     */
    twostate predicate StopHandled(reason: Option<string>)
      reads this, stateMachine, metrics
    {
      && !alive && callSid == old(callSid) && streamSid == old(streamSid)
      && collected == old(collected) && speaking == old(speaking) && silenceFrames == old(silenceFrames)
      && pending == old(pending)
      && sttController == old(sttController) && llmController == old(llmController) && ttsController == old(ttsController)
      && stateMachine.currentState == old(stateMachine.currentState)
      && metrics.events == old(metrics.events)
         + [Entry(Info, "twilio-stop", OptionalText("reason", reason)),
            Entry(Info, "session-end", OptionalText("callSid", old(callSid)))]
    }

    /** A `media` message is handled as `MediaHandled` says; the session stays alive and keeps its ids. */
    twostate predicate MediaMessageHandled(payload: Option<seq<byte>>)
      reads this, stateMachine, metrics
    {
      MediaHandled(payload) && alive == old(alive) && callSid == old(callSid) && streamSid == old(streamSid)
    }

    /** Any other event is reported as `unknown-event` and changes nothing. */
    twostate predicate UnknownHandled(event: string)
      reads this, stateMachine, metrics
    {
      unchanged(this) && stateMachine.currentState == old(stateMachine.currentState)
      && metrics.events == old(metrics.events) + [Entry(Warn, "unknown-event", Text("event", event))]
    }

    /**
     * `handleRaw`: a closed session ignores every message; text that is not
     * JSON is reported as `malformed-event` (its first 200 characters) and
     * dropped; otherwise the message is dispatched on its `event`.
     */
    method HandleRaw(inbound: Inbound)
      requires Valid()
      modifies this`callSid, this`streamSid, this`collected, this`speaking, this`silenceFrames, this`alive, this`pending,
               this`sttController, this`llmController, this`ttsController, stateMachine, metrics
      ensures Valid()
      ensures !old(alive) ==>
                unchanged(this) && stateMachine.currentState == old(stateMachine.currentState)
                && metrics.events == old(metrics.events)
      ensures old(alive) && inbound.Malformed? ==>
                unchanged(this) && stateMachine.currentState == old(stateMachine.currentState)
                && metrics.events == old(metrics.events) + [Entry(Warn, "malformed-event", Text("text", Prefix200(inbound.text)))]
      ensures old(alive) && inbound.Parsed? ==> MessageHandled(inbound.message)
    {
      if !alive {
        return;
      }
      match inbound
      case Malformed(text) =>
        metrics.Log(Warn, "malformed-event", Text("text", Prefix200(text)));
      case Parsed(message) =>
        HandleMessage(message);
    }

    /** The `switch` of `handleRaw` on the event of a parsed message. */
    method HandleMessage(message: Message)
      requires Valid() && alive
      modifies this`callSid, this`streamSid, this`collected, this`speaking, this`silenceFrames, this`alive, this`pending,
               this`sttController, this`llmController, this`ttsController, stateMachine, metrics
      ensures Valid()
      ensures MessageHandled(message)
    {
      match message
      case Start(c, s) =>
        HandleStart(c, s);
      case Media(payload) =>
        HandleMediaMessage(payload);
      case Stop(reason) =>
        HandleStop(reason);
      case Unknown(event) =>
        metrics.Log(Warn, "unknown-event", Text("event", event));
        assert UnknownHandled(event);
    }

    /** A `media` message: `handleMedia`, which leaves the session's liveness and ids alone. */
    method HandleMediaMessage(payload: Option<seq<byte>>)
      requires Valid()
      modifies this`collected, this`speaking, this`silenceFrames, this`pending,
               this`sttController, this`llmController, this`ttsController, stateMachine, metrics
      ensures Valid()
      ensures MediaMessageHandled(payload)
    {
      HandleMedia(payload);
    }

    /** A `stop` message: reports `twilio-stop` with its reason, then closes the session. */
    method HandleStop(reason: Option<string>)
      requires Valid() && alive
      modifies this`alive, metrics
      ensures Valid() && !alive
      ensures metrics.events == old(metrics.events)
                + [Entry(Info, "twilio-stop", OptionalText("reason", reason)),
                   Entry(Info, "session-end", OptionalText("callSid", callSid))]
      ensures StopHandled(reason)
    {
      metrics.Log(Info, "twilio-stop", OptionalText("reason", reason));
      Close();
    }

    /** `handleStart`: records the call and stream identifiers and reports `twilio-start`. */
    method HandleStart(newCallSid: string, newStreamSid: string)
      requires Valid()
      modifies this`callSid, this`streamSid, metrics
      ensures Valid()
      ensures callSid == Some(newCallSid) && streamSid == Some(newStreamSid)
      ensures metrics.events == old(metrics.events) + [Entry(Info, "twilio-start", Text("callSid", newCallSid))]
      ensures StartHandled(newCallSid, newStreamSid)
    {
      callSid := Some(newCallSid);
      streamSid := Some(newStreamSid);
      metrics.Log(Info, "twilio-start", Text("callSid", newCallSid));
    }

    /**
     * What `handleMedia(payload)` does to the session. No payload changes
     * nothing. A frame loud enough for barge-in while `SPEAKING` aborts every
     * set controller, moves to `LISTENING` and is not kept. Otherwise the
     * controllers stay as they were, and: a frame at or above the speech
     * threshold is kept, resets the silence count and, if the detector was
     * not speaking yet, starts speech and moves to `LISTENING`; a quieter
     * frame during speech is kept and counted as silence, and the
     * `SILENCE_FRAMES`-th in a row ends the utterance, which is queued as the
     * concatenation of the kept frames; a quieter frame outside speech
     * changes nothing.
     */
    twostate predicate MediaHandled(payload: Option<seq<byte>>)
      reads this, stateMachine, metrics
    {
      && (payload.None? ==>
            unchanged(this) && stateMachine.currentState == old(stateMachine.currentState)
            && metrics.events == old(metrics.events))
      && (payload.Some? && old(stateMachine.currentState) == SPEAKING
          && Vad.RmsAtLeast(FrameEnergy(payload.value), BARGE_IN_THRESHOLD) ==>
            && stateMachine.currentState == LISTENING
            && sttController == Abort(old(sttController))
            && llmController == Abort(old(llmController))
            && ttsController == Abort(old(ttsController))
            && collected == old(collected) && speaking == old(speaking) && silenceFrames == old(silenceFrames)
            && pending == old(pending)
            && metrics.events == old(metrics.events) + [Entry(Event, "barge-in", NoDetail), TransitionEntry(SPEAKING, LISTENING)])
      && (payload.Some? && !(old(stateMachine.currentState) == SPEAKING
          && Vad.RmsAtLeast(FrameEnergy(payload.value), BARGE_IN_THRESHOLD)) ==>
            && sttController == old(sttController) && llmController == old(llmController) && ttsController == old(ttsController))
      && (payload.Some? && !(old(stateMachine.currentState) == SPEAKING
          && Vad.RmsAtLeast(FrameEnergy(payload.value), BARGE_IN_THRESHOLD))
          && Vad.RmsAtLeast(FrameEnergy(payload.value), VAD_THRESHOLD) ==>
            && collected == old(collected) + [DecodedFrame(payload.value)]
            && silenceFrames == 0 && speaking && pending == old(pending)
            && stateMachine.currentState == (if old(speaking) then old(stateMachine.currentState) else LISTENING)
            && metrics.events == old(metrics.events)
               + (if old(speaking) then [] else TransitionLog(old(stateMachine.currentState), LISTENING)))
      && (payload.Some? && !Vad.RmsAtLeast(FrameEnergy(payload.value), VAD_THRESHOLD) && old(speaking) ==>
            && silenceFrames == old(silenceFrames) + 1
            && stateMachine.currentState == old(stateMachine.currentState)
            && metrics.events == old(metrics.events)
            && (if old(silenceFrames) + 1 >= SILENCE_FRAMES
                then !speaking && collected == []
                     && pending == old(pending) + [Concat(old(collected) + [DecodedFrame(payload.value)])]
                else speaking && collected == old(collected) + [DecodedFrame(payload.value)]
                     && pending == old(pending)))
      && (payload.Some? && !Vad.RmsAtLeast(FrameEnergy(payload.value), VAD_THRESHOLD) && !old(speaking) ==>
            unchanged(this) && stateMachine.currentState == old(stateMachine.currentState)
            && metrics.events == old(metrics.events))
    }

    /**
     * `handleMedia`, the hysteresis endpoint detector: decodes the frame,
     * measures its energy and updates the detector as `MediaHandled` says.
     */
    method HandleMedia(payload: Option<seq<byte>>)
      requires Valid()
      modifies this`collected, this`speaking, this`silenceFrames, this`pending,
               this`sttController, this`llmController, this`ttsController, stateMachine, metrics
      ensures Valid()
      ensures MediaHandled(payload)
    {
      if payload.None? {
        return;
      }
      var decoded, energy := MeasureFrame(payload.value);
      if stateMachine.currentState == SPEAKING && Vad.RmsAtLeast(energy, BARGE_IN_THRESHOLD) {
        TriggerBargeIn();
        return;
      }
      if Vad.RmsAtLeast(energy, VAD_THRESHOLD) {
        LoudFrameNotEmpty(payload.value, VAD_THRESHOLD);
        KeepSpeechFrame(decoded);
      } else if speaking {
        KeepSilenceFrame(decoded);
      }
    }

    /**
     * The detector's blind spot during a reply. While `SPEAKING` with no
     * speech collected, a frame in the quiet-speech band (code 0xEA) is taken
     * as the start of speech: the session moves to `LISTENING` but the reply
     * is not aborted, so its playback goes on. A loud frame right after it
     * (code 0x80) then no longer barges in, because the state is no longer
     * `SPEAKING`; it is only collected as speech.
     */
    method QuietFrameDuringReply()
      requires Valid() && stateMachine.currentState == SPEAKING && !speaking && ttsController == Live(false)
      modifies this`collected, this`speaking, this`silenceFrames, this`pending,
               this`sttController, this`llmController, this`ttsController, stateMachine, metrics
      ensures Valid() && stateMachine.currentState == LISTENING
      ensures ttsController == Live(false) && turn == old(turn) && sent == old(sent)
      ensures speaking && collected == [DecodedFrame([0xEA]), DecodedFrame([0x80])]
    {
      QuietSpeechBand();
      HandleMedia(Some([0xEA]));
      HandleMedia(Some([0x80]));
    }

    /** Decodes a media payload to PCM and measures its energy. */
    method MeasureFrame(codes: seq<byte>) returns (decoded: seq<byte>, energy: real)
      ensures decoded == DecodedFrame(codes) && energy == FrameEnergy(codes)
    {
      decoded := MuLaw.DecodeMuLaw(codes);
      energy := Vad.ComputeRms(decoded);
    }

    /** A frame at or above the speech threshold: kept, silence count reset, speech started if need be. */
    method KeepSpeechFrame(decoded: seq<byte>)
      requires Valid() && decoded != [] && |decoded| % 2 == 0
      modifies this`collected, this`speaking, this`silenceFrames, stateMachine, metrics
      ensures Valid()
      ensures collected == old(collected) + [decoded] && silenceFrames == 0 && speaking
      ensures stateMachine.currentState == (if old(speaking) then old(stateMachine.currentState) else LISTENING)
      ensures metrics.events == old(metrics.events)
                + (if old(speaking) then [] else TransitionLog(old(stateMachine.currentState), LISTENING))
    {
      collected := collected + [decoded];
      silenceFrames := 0;
      if !speaking {
        speaking := true;
        stateMachine.Transition(LISTENING);
      }
    }

    /** A quieter frame during speech: kept and counted; the last allowed one ends the utterance. */
    method KeepSilenceFrame(decoded: seq<byte>)
      requires Valid() && speaking && |decoded| % 2 == 0
      modifies this`collected, this`speaking, this`silenceFrames, this`pending
      ensures Valid()
      ensures silenceFrames == old(silenceFrames) + 1
      ensures old(silenceFrames) + 1 >= SILENCE_FRAMES ==>
                !speaking && collected == [] && pending == old(pending) + [Concat(old(collected) + [decoded])]
      ensures old(silenceFrames) + 1 < SILENCE_FRAMES ==>
                speaking && collected == old(collected) + [decoded] && pending == old(pending)
    {
      collected := collected + [decoded];
      silenceFrames := silenceFrames + 1;
      if silenceFrames >= SILENCE_FRAMES {
        speaking := false;
        EmitUtterance();
      }
    }

    /**
     * `emitUtterance`: the collected frames, concatenated in order, join the
     * end of the processing chain, and the collection starts over. An empty
     * concatenation is never queued.
     */
    method EmitUtterance()
      requires CollectedEven() && PendingValid()
      modifies this`collected, this`pending
      ensures collected == [] && PendingValid()
      ensures pending == old(pending) + (if Concat(old(collected)) == [] then [] else [Concat(old(collected))])
    {
      var payload := Concat(collected);
      ConcatEven(collected);
      collected := [];
      if |payload| == 0 {
        return;
      }
      pending := pending + [payload];
    }

    /**
     * The processing chain starts the turn for the oldest queued utterance
     * once the previous turn is over. A closed session drops the utterance.
     * Otherwise the session moves to `TRANSCRIBING`, sets a transcription
     * controller and asks for a transcript of the utterance resampled to the
     * transcription rate.
     */
    method StartNextTurn()
      requires Valid() && turn == Idle && pending != []
      modifies this`pending, this`turn, this`sttController, this`calls, stateMachine, metrics
      ensures Valid()
      ensures pending == old(pending[1..])
      ensures !old(alive) ==>
                turn == Idle && calls == old(calls)
                && stateMachine.currentState == old(stateMachine.currentState)
                && metrics.events == old(metrics.events)
      ensures old(alive) ==>
                && turn == AwaitingTranscript && sttController == Live(false)
                && stateMachine.currentState == TRANSCRIBING
                && metrics.events == old(metrics.events) + TransitionLog(old(stateMachine.currentState), TRANSCRIBING)
                && calls == old(calls) + [Transcribe(Resample.ResampledBytes(old(pending[0]), SAMPLE_RATE, STT_SAMPLE_RATE), STT_SAMPLE_RATE, STT_LANGUAGE)]
    {
      var audio := pending[0];
      pending := pending[1..];
      if !alive {
        return;
      }
      StartTranscription(audio);
    }

    /** `processTurn` for a live session: `TRANSCRIBING`, then the transcription call for `audio`. */
    method StartTranscription(audio: seq<byte>)
      requires Valid() && turn == Idle && |audio| % 2 == 0
      modifies this`turn, this`sttController, this`calls, stateMachine, metrics
      ensures Valid()
      ensures turn == AwaitingTranscript && sttController == Live(false)
      ensures stateMachine.currentState == TRANSCRIBING
      ensures metrics.events == old(metrics.events) + TransitionLog(old(stateMachine.currentState), TRANSCRIBING)
      ensures calls == old(calls) + [Transcribe(Resample.ResampledBytes(audio, SAMPLE_RATE, STT_SAMPLE_RATE), STT_SAMPLE_RATE, STT_LANGUAGE)]
    {
      BeginTranscription();
      RequestTranscript(audio);
    }

    /** `processTurn` up to the transcription call: `TRANSCRIBING`, with a fresh transcription controller. */
    method BeginTranscription()
      requires Valid() && turn == Idle
      modifies this`turn, this`sttController, stateMachine, metrics
      ensures Valid()
      ensures turn == AwaitingTranscript && sttController == Live(false)
      ensures stateMachine.currentState == TRANSCRIBING
      ensures metrics.events == old(metrics.events) + TransitionLog(old(stateMachine.currentState), TRANSCRIBING)
    {
      stateMachine.Transition(TRANSCRIBING);
      sttController := Live(false);
      turn := AwaitingTranscript;
    }

    /** Resamples an utterance to the transcription rate and calls `transcribe` with it. */
    method RequestTranscript(audio: seq<byte>)
      requires Valid() && |audio| % 2 == 0
      modifies this`calls
      ensures Valid()
      ensures calls == old(calls) + [Transcribe(Resample.ResampledBytes(audio, SAMPLE_RATE, STT_SAMPLE_RATE), STT_SAMPLE_RATE, STT_LANGUAGE)]
    {
      var sttBuffer := Resample.ResampleBuffer(audio, SAMPLE_RATE, STT_SAMPLE_RATE);
      calls := calls + [Transcribe(sttBuffer, STT_SAMPLE_RATE, STT_LANGUAGE)];
    }

    /**
     * The transcription settles. A failure ends the turn and is reported as
     * `utterance-failure`; a blank transcript ends the turn with an
     * `empty-transcript` warning and no further provider call; otherwise the
     * session moves to `THINKING` and asks for a response to the transcript.
     */
    method OnTranscript(result: Settled<string>)
      requires Valid() && turn == AwaitingTranscript
      modifies this`turn, this`sttController, this`llmController, this`ttsController, this`calls, stateMachine, metrics
      ensures Valid()
      ensures result.Rejected? ==>
                && turn == Idle && calls == old(calls) && stateMachine.currentState == LISTENING
                && metrics.events == old(metrics.events) + TransitionLog(old(stateMachine.currentState), LISTENING)
                   + [Entry(Error, "utterance-failure", Text("error", result.error))]
      ensures result.Resolved? && IsBlank(result.value) ==>
                && turn == Idle && calls == old(calls) && stateMachine.currentState == LISTENING
                && metrics.events == old(metrics.events) + [Entry(Warn, "empty-transcript", NoDetail)]
                   + TransitionLog(old(stateMachine.currentState), LISTENING)
      ensures result.Resolved? && !IsBlank(result.value) ==>
                && turn == AwaitingResponse(result.value) && stateMachine.currentState == THINKING
                && sttController == old(sttController) && llmController == Live(false)
                && calls == old(calls) + [Generate(result.value)]
                && metrics.events == old(metrics.events) + TransitionLog(old(stateMachine.currentState), THINKING)
    {
      match result
      case Rejected(error) =>
        FailTurn(error);
      case Resolved(transcript) =>
        if IsBlank(transcript) {
          metrics.Log(Warn, "empty-transcript", NoDetail);
          FinishTurn();
          return;
        }
        stateMachine.Transition(THINKING);
        llmController := Live(false);
        calls := calls + [Generate(transcript)];
        turn := AwaitingResponse(transcript);
    }

    /**
     * The response settles. A failure ends the turn and is reported; a blank
     * response ends the turn with an `empty-response` warning and no
     * synthesis; otherwise its length is reported, the session moves to
     * `SPEAKING` and asks for speech at the synthesis rate.
     */
    method OnResponse(result: Settled<string>)
      requires Valid() && turn.AwaitingResponse?
      modifies this`turn, this`sttController, this`llmController, this`ttsController, this`calls, stateMachine, metrics
      ensures Valid()
      ensures result.Rejected? ==>
                && turn == Idle && calls == old(calls) && stateMachine.currentState == LISTENING
                && metrics.events == old(metrics.events) + TransitionLog(old(stateMachine.currentState), LISTENING)
                   + [Entry(Error, "utterance-failure", Text("error", result.error))]
      ensures result.Resolved? && IsBlank(result.value) ==>
                && turn == Idle && calls == old(calls) && stateMachine.currentState == LISTENING
                && metrics.events == old(metrics.events) + [Entry(Warn, "empty-response", Text("transcript", old(turn.transcript)))]
                   + TransitionLog(old(stateMachine.currentState), LISTENING)
      ensures result.Resolved? && !IsBlank(result.value) ==>
                && turn == AwaitingSpeech && stateMachine.currentState == SPEAKING
                && sttController == old(sttController) && llmController == old(llmController) && ttsController == Live(false)
                && calls == old(calls) + [Synthesize(result.value, TTS_SAMPLE_RATE)]
                && metrics.events == old(metrics.events) + [Entry(Event, "llm-response", Count("length", |result.value|))]
                   + TransitionLog(old(stateMachine.currentState), SPEAKING)
    {
      match result
      case Rejected(error) =>
        FailTurn(error);
      case Resolved(response) =>
        if IsBlank(response) {
          metrics.Log(Warn, "empty-response", Text("transcript", turn.transcript));
          FinishTurn();
          return;
        }
        metrics.Log(Event, "llm-response", Count("length", |response|));
        stateMachine.Transition(SPEAKING);
        ttsController := Live(false);
        calls := calls + [Synthesize(response, TTS_SAMPLE_RATE)];
        turn := AwaitingSpeech;
    }

    /**
     * The synthesis settles. A failure ends the turn and is reported; empty
     * audio ends the turn without sending anything; otherwise the audio is
     * resampled to the telephony rate, zero-padded to whole frames, and the
     * first pass of the playout loop runs at once.
     */
    method OnSpeech(result: Settled<seq<byte>>)
      requires Valid() && turn == AwaitingSpeech
      requires result.Resolved? ==> |result.value| % 2 == 0
      modifies this`turn, this`sttController, this`llmController, this`ttsController, this`sent, this`playStart, stateMachine, metrics
      ensures Valid()
      ensures result.Rejected? ==>
                && turn == Idle && sent == old(sent) && stateMachine.currentState == LISTENING
                && metrics.events == old(metrics.events) + TransitionLog(old(stateMachine.currentState), LISTENING)
                   + [Entry(Error, "utterance-failure", Text("error", result.error))]
      ensures result.Resolved? && result.value == [] ==>
                && turn == Idle && sent == old(sent) && stateMachine.currentState == LISTENING
                && metrics.events == old(metrics.events) + TransitionLog(old(stateMachine.currentState), LISTENING)
      ensures result.Resolved? && result.value != [] && old(alive) && !IsAborted(old(ttsController)) ==>
                && turn.Playing? && turn.offset == FRAME_BYTES <= |turn.padded|
                && turn.padded == Padded(Resample.ResampledBytes(result.value, TTS_SAMPLE_RATE, SAMPLE_RATE))
                && sent == old(sent) + [MuLaw.EncodedCodes(turn.padded[..FRAME_BYTES])]
                && stateMachine.currentState == old(stateMachine.currentState)
                && metrics.events == old(metrics.events)
                && sttController == old(sttController) && llmController == old(llmController) && ttsController == old(ttsController)
      ensures result.Resolved? && result.value != [] && (!old(alive) || IsAborted(old(ttsController))) ==>
                && turn == Idle && sent == old(sent) && stateMachine.currentState == LISTENING
                && metrics.events == old(metrics.events) + TransitionLog(old(stateMachine.currentState), LISTENING)
    {
      match result
      case Rejected(error) =>
        FailTurn(error);
      case Resolved(buffer) =>
        if |buffer| == 0 {
          FinishTurn();
          return;
        }
        StartPlayback(buffer);
    }

    /** `playAudio` on non-empty audio, up to its first sleep. */
    method StartPlayback(buffer: seq<byte>)
      requires Valid() && turn == AwaitingSpeech && buffer != [] && |buffer| % 2 == 0
      modifies this`turn, this`sttController, this`llmController, this`ttsController, this`sent, this`playStart, stateMachine, metrics
      ensures Valid()
      ensures old(alive) && !IsAborted(old(ttsController)) ==>
                && turn.Playing? && turn.offset == FRAME_BYTES <= |turn.padded|
                && turn.padded == Padded(Resample.ResampledBytes(buffer, TTS_SAMPLE_RATE, SAMPLE_RATE))
                && sent == old(sent) + [MuLaw.EncodedCodes(turn.padded[..FRAME_BYTES])]
                && stateMachine.currentState == old(stateMachine.currentState)
                && metrics.events == old(metrics.events)
                && sttController == old(sttController) && llmController == old(llmController) && ttsController == old(ttsController)
      ensures !(old(alive) && !IsAborted(old(ttsController))) ==>
                && turn == Idle && sent == old(sent) && stateMachine.currentState == LISTENING
                && metrics.events == old(metrics.events) + TransitionLog(old(stateMachine.currentState), LISTENING)
    {
      var padded := PadSpeech(buffer);
      turn := Playing(padded, 0);
      playStart := |sent|;
      assert sent[playStart..] == [];
      PlayStep();
    }

    /**
     * A rejected provider call: the `finally` of `processTurn` ends the turn,
     * then the chain's `catch` reports `utterance-failure`.
     */
    method FailTurn(error: string)
      requires Valid() && turn != Idle
      modifies this`turn, this`sttController, this`llmController, this`ttsController, stateMachine, metrics
      ensures Valid()
      ensures turn == Idle && stateMachine.currentState == LISTENING
      ensures sttController == Unset && llmController == Unset && ttsController == Unset
      ensures metrics.events == old(metrics.events) + TransitionLog(old(stateMachine.currentState), LISTENING)
                + [Entry(Error, "utterance-failure", Text("error", error))]
    {
      FinishTurn();
      metrics.Log(Error, "utterance-failure", Text("error", error));
    }

    /** Resamples synthesized speech to the telephony rate and zero-pads it to whole frames. */
    method PadSpeech(buffer: seq<byte>) returns (padded: seq<byte>)
      requires buffer != [] && |buffer| % 2 == 0
      ensures padded == Padded(Resample.ResampledBytes(buffer, TTS_SAMPLE_RATE, SAMPLE_RATE))
      ensures padded != [] && |padded| % FRAME_BYTES == 0
    {
      var normalized := Resample.ResampleBuffer(buffer, TTS_SAMPLE_RATE, SAMPLE_RATE);
      padded := Padded(normalized);
    }

    /**
     * One pass of the playout loop. Past the last frame, or once the session
     * is closed or the reply aborted, the loop stops and the turn ends.
     * Otherwise the next frame is encoded to mu-law and sent, and the offset
     * moves on by one frame.
     */
    method PlayStep()
      requires Valid() && turn.Playing?
      modifies this`turn, this`sttController, this`llmController, this`ttsController, this`sent, stateMachine, metrics
      ensures Valid()
      ensures old(turn.offset) < |old(turn.padded)| && old(alive) && !IsAborted(old(ttsController)) ==>
                && turn == Playing(old(turn.padded), old(turn.offset) + FRAME_BYTES)
                && sent == old(sent) + [NextFrame(old(turn.padded), old(turn.offset))]
                && stateMachine.currentState == old(stateMachine.currentState)
                && metrics.events == old(metrics.events)
                && sttController == old(sttController) && llmController == old(llmController) && ttsController == old(ttsController)
      ensures !(old(turn.offset) < |old(turn.padded)| && old(alive) && !IsAborted(old(ttsController))) ==>
                && turn == Idle && sent == old(sent) && stateMachine.currentState == LISTENING
                && metrics.events == old(metrics.events) + TransitionLog(old(stateMachine.currentState), LISTENING)
    {
      var padded, offset := turn.padded, turn.offset;
      if offset >= |padded| || !alive || IsAborted(ttsController) {
        FinishTurn();
        return;
      }
      SendFrame();
    }

    /** `sendMedia` of the next frame, encoded to mu-law, and the step of `offset` to the frame after it. */
    method SendFrame()
      requires Valid() && turn.Playing? && turn.offset < |turn.padded|
      modifies this`sent, this`turn
      ensures Valid()
      ensures turn == Playing(old(turn.padded), old(turn.offset) + FRAME_BYTES)
      ensures sent == old(sent) + [NextFrame(old(turn.padded), old(turn.offset))]
    {
      var padded, offset := turn.padded, turn.offset;
      NextFrameFits(offset, |padded|);
      var slice := padded[offset..offset + FRAME_BYTES];
      var muLaw := MuLaw.EncodeMuLaw(slice);
      EncodedFramesSnoc(padded, offset);
      sent := sent + [muLaw];
      turn := Playing(padded, offset + FRAME_BYTES);
    }

    /**
     * The `finally` of `processTurn`: every exit from a turn clears the three
     * controllers and moves to `LISTENING`.
     */
    method FinishTurn()
      requires Valid() && turn != Idle
      modifies this`turn, this`sttController, this`llmController, this`ttsController, stateMachine, metrics
      ensures Valid()
      ensures turn == Idle && stateMachine.currentState == LISTENING
      ensures sttController == Unset && llmController == Unset && ttsController == Unset
      ensures metrics.events == old(metrics.events) + TransitionLog(old(stateMachine.currentState), LISTENING)
    {
      ClearControllers();
      stateMachine.Transition(LISTENING);
      turn := Idle;
    }

    /** `clearControllers`. */
    method ClearControllers()
      modifies this`sttController, this`llmController, this`ttsController
      ensures sttController == Unset && llmController == Unset && ttsController == Unset
    {
      sttController, llmController, ttsController := Unset, Unset, Unset;
    }

    /**
     * `triggerBargeIn`: outside `SPEAKING` it does nothing; in `SPEAKING` it
     * reports `barge-in`, aborts every set controller and moves to `LISTENING`.
     */
    method TriggerBargeIn()
      requires Valid()
      modifies this`sttController, this`llmController, this`ttsController, stateMachine, metrics
      ensures Valid()
      ensures old(stateMachine.currentState) != SPEAKING ==>
                unchanged(this) && stateMachine.currentState == old(stateMachine.currentState)
                && metrics.events == old(metrics.events)
      ensures old(stateMachine.currentState) == SPEAKING ==>
                && stateMachine.currentState == LISTENING
                && sttController == Abort(old(sttController))
                && llmController == Abort(old(llmController))
                && ttsController == Abort(old(ttsController))
                && metrics.events == old(metrics.events) + [Entry(Event, "barge-in", NoDetail), TransitionEntry(SPEAKING, LISTENING)]
    {
      if stateMachine.currentState != SPEAKING {
        return;
      }
      metrics.Log(Event, "barge-in", NoDetail);
      sttController := Abort(sttController);
      llmController := Abort(llmController);
      ttsController := Abort(ttsController);
      stateMachine.Transition(LISTENING);
    }

    /**
     * `close`: the first call marks the session closed and reports
     * `session-end`; every later call does nothing.
     */
    method Close()
      requires Valid()
      modifies this`alive, metrics
      ensures Valid() && !alive
      ensures old(alive) ==> metrics.events == old(metrics.events) + [Entry(Info, "session-end", OptionalText("callSid", callSid))]
      ensures !old(alive) ==> unchanged(this) && metrics.events == old(metrics.events)
    {
      if !alive {
        return;
      }
      alive := false;
      metrics.Log(Info, "session-end", OptionalText("callSid", callSid));
    }
  }
}
