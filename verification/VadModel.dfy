// Streaming voice-activity endpointing as a state machine: what one flagged frame does.
module VadModel {
  import opened Wrappers
  import opened Arithmetic

  type U32 = x: int | 0 <= x < 0x1_0000_0000

  const ASR_SAMPLE_RATE := 16_000
  const MAX_CANDIDATE_MS := 60_000

  // Samples are only copied and compared.
  type Sample = real

  datatype Config = Config(
    frameDurationMs: U32, minSpeechMs: U32, minSilenceMs: U32, maxSegmentMs: U32, speechPaddingMs: U32)

  datatype ConfigError =
    | ZeroFrameDuration | ZeroMinSpeech | ZeroMinSilence | MaxBelowMinSpeech
    | CandidateOverflow | CandidateTooLong | BudgetBelowFrame | BudgetBelowMinSpeech

  function FramesForMs(ms: nat, frameMs: nat): nat {
    if ms == 0 || frameMs == 0 then 0 else DivCeil(ms, frameMs)
  }

  // The least number of frames that lasts at least as long.
  predicate RoundsUp(ms: nat, frameMs: nat, frames: nat) {
    ms <= frames * frameMs && (frames > 0 ==> (frames - 1) * frameMs < ms)
  }

  lemma FramesForMsIsCeil(ms: nat, frameMs: nat)
    requires frameMs > 0
    ensures RoundsUp(ms, frameMs, FramesForMs(ms, frameMs))
  {
    if ms > 0 {
      var q, r := (ms + frameMs - 1) / frameMs, (ms + frameMs - 1) % frameMs;
      assert ms + frameMs - 1 == q * frameMs + r;
      OneMore(q - 1, frameMs);
    }
  }

  function ValidateConfig(c: Config): Result<nat, ConfigError> {
    if c.frameDurationMs == 0 then Err(ZeroFrameDuration)
    else if c.minSpeechMs == 0 then Err(ZeroMinSpeech)
    else if c.minSilenceMs == 0 then Err(ZeroMinSilence)
    else if c.maxSegmentMs < c.minSpeechMs then Err(MaxBelowMinSpeech)
    else if c.speechPaddingMs + c.minSpeechMs >= 0x1_0000_0000 then Err(CandidateOverflow)
    else if c.speechPaddingMs + c.minSpeechMs > MAX_CANDIDATE_MS then Err(CandidateTooLong)
    else Ok(c.speechPaddingMs + c.minSpeechMs)
  }

  function ValidateBudget(c: Config, combinedMs: nat, frameSamples: nat): Result<(), ConfigError> {
    var samples := combinedMs * ASR_SAMPLE_RATE / 1000;
    if samples < frameSamples then Err(BudgetBelowFrame)
    else if samples < MinSpeechFrames(c) * frameSamples then Err(BudgetBelowMinSpeech)
    else Ok(())
  }

  function MinSpeechFrames(c: Config): nat {
    Max(FramesForMs(c.minSpeechMs, c.frameDurationMs), 1)
  }

  function MinSilenceFrames(c: Config): nat {
    Max(FramesForMs(c.minSilenceMs, c.frameDurationMs), 1)
  }

  function MaxSegmentFrames(c: Config): nat {
    FramesForMs(c.maxSegmentMs, c.frameDurationMs)
  }

  function PaddingFrames(c: Config): nat {
    FramesForMs(c.speechPaddingMs, c.frameDurationMs)
  }

  function Product(a: nat, b: nat): (r: nat) {
    a * b
  }

  function Quotient(a: nat, b: nat): (r: nat)
    requires b > 0
  {
    a / b
  }

  function MaxCandidateSamples(c: Config, frameSamples: nat): nat {
    if c.frameDurationMs == 0 || c.speechPaddingMs + c.minSpeechMs >= 0x1_0000_0000 then 0
    else Quotient(Product(c.speechPaddingMs + c.minSpeechMs, frameSamples), c.frameDurationMs)
  }

  // ----- State -----

  datatype Frame = Frame(start: nat, samples: seq<Sample>)

  datatype Phase = Idle | CandidateSpeech(speechFrames: nat) | InSegment(start: nat, silenceFrames: nat)

  datatype State = State(nextSample: nat, phase: Phase, preSpeech: seq<Frame>, candidate: seq<Frame>)

  datatype Event =
    | SegmentStarted(start: nat, samples: seq<Sample>)
    | Audio(samples: seq<Sample>)
    | SegmentFinal(start: nat, end: nat)

  const INITIAL := State(0, Idle, [], [])

  function SampleCount(frames: seq<Frame>): nat {
    if frames == [] then 0 else |frames[0].samples| + SampleCount(frames[1..])
  }

  function Joined(frames: seq<Frame>): seq<Sample> {
    if frames == [] then [] else frames[0].samples + Joined(frames[1..])
  }

  // Frames are dropped from the front until the rest fits.
  function Trimmed(frames: seq<Frame>, maxSamples: nat): seq<Frame> {
    if SampleCount(frames) > maxSamples && frames != [] then Trimmed(frames[1..], maxSamples) else frames
  }

  function Latest(frames: seq<Frame>, count: nat): seq<Frame> {
    if |frames| > count then frames[|frames| - count..] else frames
  }

  // ----- One frame -----

  function Remembered(c: Config, s: State, frame: Frame): State {
    s.(preSpeech := Latest(s.preSpeech + [frame], PaddingFrames(c)))
  }

  function Opened(c: Config, s: State, speechFrames: nat): (State, seq<Event>) {
    if speechFrames < MinSpeechFrames(c) then (s, [])
    else
      var start := if s.candidate == [] then s.nextSample else s.candidate[0].start;
      (s.(candidate := [], phase := InSegment(start, 0)), [SegmentStarted(start, Joined(s.candidate))])
  }

  function Speaking(
    c: Config, frameSamples: nat, s: State, frames: seq<Frame>, speechFrames: nat): (State, seq<Event>) {
    var candidate := Trimmed(frames, MaxCandidateSamples(c, frameSamples));
    Opened(c, s.(candidate := candidate, phase := CandidateSpeech(speechFrames)), speechFrames)
  }

  function PushIdle(c: Config, frameSamples: nat, s: State, isSpeech: bool, frame: Frame): (State, seq<Event>) {
    if isSpeech
    then Speaking(c, frameSamples, s.(preSpeech := []), s.preSpeech + [frame], 1)
    else (Remembered(c, s, frame), [])
  }

  function PushCandidate(
    c: Config, frameSamples: nat, s: State, isSpeech: bool, frame: Frame, speechFrames: nat): (State, seq<Event>) {
    if isSpeech
    then Speaking(c, frameSamples, s, s.candidate + [frame], speechFrames + 1)
    else (Remembered(c, s.(candidate := [], phase := Idle), frame), [])
  }

  function PushSegment(
    c: Config, frameSamples: nat, s: State, isSpeech: bool, frame: Frame, start: nat, silence: nat): (State, seq<Event>)
    requires frameSamples > 0
  {
    var silenceFrames := if isSpeech then 0 else silence + 1;
    var segmentFrames := (if s.nextSample >= start then s.nextSample - start else 0) / frameSamples;
    if silenceFrames >= MinSilenceFrames(c) || (MaxSegmentFrames(c) > 0 && segmentFrames >= MaxSegmentFrames(c))
    then (s.(phase := Idle, preSpeech := [], candidate := []),
      [Audio(frame.samples), SegmentFinal(start, s.nextSample)])
    else (Remembered(c, s.(phase := InSegment(start, silenceFrames)), frame), [Audio(frame.samples)])
  }

  function PushFlag(c: Config, frameSamples: nat, s: State, isSpeech: bool, samples: seq<Sample>): (State, seq<Event>)
    requires frameSamples > 0
  {
    var frame := Frame(s.nextSample, samples);
    var next := s.(nextSample := s.nextSample + |samples|);
    match s.phase
    case Idle => PushIdle(c, frameSamples, next, isSpeech, frame)
    case CandidateSpeech(n) => PushCandidate(c, frameSamples, next, isSpeech, frame, n)
    case InSegment(start, silence) => PushSegment(c, frameSamples, next, isSpeech, frame, start, silence)
  }

  function Finish(s: State): (State, seq<Event>) {
    (s.(phase := Idle, candidate := [], preSpeech := []),
     if s.phase.InSegment? then [SegmentFinal(s.phase.start, s.nextSample)] else [])
  }

  // ----- Runs -----

  datatype Op = Push(isSpeech: bool, samples: seq<Sample>) | Finished

  function Step(c: Config, frameSamples: nat, s: State, op: Op): (State, seq<Event>)
    requires frameSamples > 0
  {
    match op
    case Push(isSpeech, samples) => PushFlag(c, frameSamples, s, isSpeech, samples)
    case Finished => Finish(s)
  }

  // The state and all events after a run from the initial state.
  function Run(c: Config, frameSamples: nat, ops: seq<Op>): (State, seq<Event>)
    requires frameSamples > 0
  {
    if ops == [] then (INITIAL, [])
    else
      var n := |ops| - 1;
      var (s, events) := Run(c, frameSamples, ops[..n]);
      var (s', more) := Step(c, frameSamples, s, ops[n]);
      (s', events + more)
  }

  // All samples fed in a run.
  function Fed(ops: seq<Op>): seq<Sample> {
    if ops == [] then []
    else
      var n := |ops| - 1;
      Fed(ops[..n]) + if ops[n].Push? then ops[n].samples else []
  }

  // The flags of all frames fed in a run.
  function Flags(ops: seq<Op>): seq<bool> {
    if ops == [] then []
    else
      var n := |ops| - 1;
      Flags(ops[..n]) + if ops[n].Push? then [ops[n].isSpeech] else []
  }
}
