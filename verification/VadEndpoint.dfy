// The endpoint: the state machine in the form the program updates it, and the buffering that cuts
// arbitrary chunks of samples into frames for the detector.
module VadEndpoint {
  import opened Wrappers
  import opened VadModel

  class StreamingVadState {
    const config: Config
    const frameSamples: nat
    var nextSample: nat
    var phase: Phase
    var preSpeech: seq<Frame>
    var candidate: seq<Frame>

    constructor (config: Config, frameSamples: nat)
      ensures this.config == config && this.frameSamples == frameSamples && Value() == INITIAL
    {
      this.config, this.frameSamples := config, frameSamples;
      nextSample, phase, preSpeech, candidate := 0, Idle, [], [];
    }

    function Value(): State
      reads this
    {
      State(nextSample, phase, preSpeech, candidate)
    }

    method PushFlag(isSpeech: bool, samples: seq<Sample>) returns (events: seq<Event>)
      requires frameSamples > 0
      modifies this
      ensures (Value(), events) == VadModel.PushFlag(config, frameSamples, old(Value()), isSpeech, samples)
    {
      var frame := Frame(nextSample, samples);
      nextSample := nextSample + |samples|;
      match phase
      case Idle => events := PushIdle(isSpeech, frame);
      case CandidateSpeech(n) => events := PushCandidate(isSpeech, frame, n);
      case InSegment(start, silence) => events := PushSegment(isSpeech, frame, start, silence);
    }

    method PushIdle(isSpeech: bool, frame: Frame) returns (events: seq<Event>)
      modifies this
      ensures (Value(), events) == VadModel.PushIdle(config, frameSamples, old(Value()), isSpeech, frame)
    {
      events := [];
      if isSpeech {
        candidate := preSpeech + [frame];
        preSpeech := [];
        TrimCandidate();
        phase := CandidateSpeech(1);
        events := StartSegmentIfReady(1);
      } else {
        RememberPreSpeech(frame);
      }
    }

    method PushCandidate(isSpeech: bool, frame: Frame, n: nat) returns (events: seq<Event>)
      modifies this
      ensures (Value(), events) == VadModel.PushCandidate(config, frameSamples, old(Value()), isSpeech, frame, n)
    {
      events := [];
      if isSpeech {
        candidate := candidate + [frame];
        TrimCandidate();
        phase := CandidateSpeech(n + 1);
        events := StartSegmentIfReady(n + 1);
      } else {
        candidate := [];
        phase := Idle;
        RememberPreSpeech(frame);
      }
    }

    method PushSegment(isSpeech: bool, frame: Frame, start: nat, silence: nat) returns (events: seq<Event>)
      requires frameSamples > 0
      modifies this
      ensures (Value(), events) ==
        VadModel.PushSegment(config, frameSamples, old(Value()), isSpeech, frame, start, silence)
    {
      var silenceFrames := if isSpeech then 0 else silence + 1;
      var segmentFrames := (if nextSample >= start then nextSample - start else 0) / frameSamples;
      var limit := MaxSegmentFrames(config);
      if silenceFrames >= MinSilenceFrames(config) || (limit > 0 && segmentFrames >= limit) {
        phase := Idle;
        preSpeech := [];
        candidate := [];
        events := [Audio(frame.samples), SegmentFinal(start, nextSample)];
      } else {
        phase := InSegment(start, silenceFrames);
        RememberPreSpeech(frame);
        events := [Audio(frame.samples)];
      }
    }

    method StartSegmentIfReady(n: nat) returns (events: seq<Event>)
      modifies this
      ensures (Value(), events) == Opened(config, old(Value()), n)
    {
      if n < MinSpeechFrames(config) {
        return [];
      }
      var start := if candidate == [] then nextSample else candidate[0].start;
      var samples := Joined(candidate);
      candidate := [];
      phase := InSegment(start, 0);
      events := [SegmentStarted(start, samples)];
    }

    method RememberPreSpeech(frame: Frame)
      modifies `preSpeech
      ensures Value() == Remembered(config, old(Value()), frame)
    {
      preSpeech := preSpeech + [frame];
      ghost var all := preSpeech;
      while |preSpeech| > PaddingFrames(config)
        invariant Latest(preSpeech, PaddingFrames(config)) == Latest(all, PaddingFrames(config))
      {
        preSpeech := preSpeech[1..];
      }
    }

    method TrimCandidate()
      modifies `candidate
      ensures candidate == Trimmed(old(candidate), MaxCandidateSamples(config, frameSamples))
    {
      var max := MaxCandidateSamples(config, frameSamples);
      while SampleCount(candidate) > max
        invariant Trimmed(candidate, max) == Trimmed(old(candidate), max)
        decreases |candidate|
      {
        candidate := candidate[1..];
      }
    }

    method Finish() returns (events: seq<Event>)
      modifies this
      ensures (Value(), events) == VadModel.Finish(old(Value()))
    {
      events := if phase.InSegment? then [SegmentFinal(phase.start, nextSample)] else [];
      phase := Idle;
      candidate := [];
      preSpeech := [];
    }
  }

  // ----- Cutting chunks into frames -----

  // The detector is a deterministic state machine that classifies one frame, or fails.
  type Detector = int
  type Classifier = (Detector, seq<Sample>) -> (Detector, Option<bool>)

  datatype Endpoint = Endpoint(detector: Detector, state: State, pending: seq<Sample>)

  // The first pending frame goes through the detector and the state machine.
  function FrameProcessed(
    classify: Classifier, c: Config, frameSamples: nat, e: Endpoint): (Endpoint, Option<seq<Event>>)
    requires 0 < frameSamples <= |e.pending|
  {
    var frame, rest := e.pending[..frameSamples], e.pending[frameSamples..];
    var (detector, flag) := classify(e.detector, frame);
    if flag.None? then (Endpoint(detector, e.state, rest), None)
    else
      var (state, events) := VadModel.PushFlag(c, frameSamples, e.state, flag.value, frame);
      (Endpoint(detector, state, rest), Some(events))
  }

  // A failure discards the events before it.
  function Sequenced(events: seq<Event>, more: Option<seq<Event>>): Option<seq<Event>> {
    if more.Some? then Some(events + more.value) else None
  }

  lemma SequencedTwice(a: seq<Event>, b: seq<Event>, more: Option<seq<Event>>)
    ensures Sequenced(a, Sequenced(b, more)) == Sequenced(a + b, more)
    ensures Sequenced([], more) == more
  {
    if more.Some? {
      assert a + (b + more.value) == (a + b) + more.value;
      assert [] + more.value == more.value;
    }
  }

  // Processes every whole frame that is pending.
  function Drained(classify: Classifier, c: Config, frameSamples: nat, e: Endpoint): (Endpoint, Option<seq<Event>>)
    requires frameSamples > 0
    decreases |e.pending|
  {
    if |e.pending| < frameSamples then (e, Some([]))
    else
      var (next, events) := FrameProcessed(classify, c, frameSamples, e);
      if events.None? then (next, None)
      else
        var (e', more) := Drained(classify, c, frameSamples, next);
        (e', Sequenced(events.value, more))
  }

  function Pushed(
    classify: Classifier, c: Config, frameSamples: nat, e: Endpoint, samples: seq<Sample>)
    : (Endpoint, Option<seq<Event>>)
    requires frameSamples > 0
  {
    Drained(classify, c, frameSamples, e.(pending := e.pending + samples))
  }

  lemma {:induction false} DrainedLeavesLess(classify: Classifier, c: Config, frameSamples: nat, e: Endpoint)
    requires frameSamples > 0
    ensures Drained(classify, c, frameSamples, e).1.Some? ==>
      |Drained(classify, c, frameSamples, e).0.pending| < frameSamples
    decreases |e.pending|
  {
    if |e.pending| >= frameSamples {
      var (next, events) := FrameProcessed(classify, c, frameSamples, e);
      if events.Some? {
        DrainedLeavesLess(classify, c, frameSamples, next);
      }
    }
  }

  lemma FrameIsLocal(classify: Classifier, c: Config, frameSamples: nat, e: Endpoint, b: seq<Sample>)
    requires 0 < frameSamples <= |e.pending|
    ensures var (next, events) := FrameProcessed(classify, c, frameSamples, e);
      FrameProcessed(classify, c, frameSamples, e.(pending := e.pending + b)) ==
        (next.(pending := next.pending + b), events)
  {
    assert (e.pending + b)[..frameSamples] == e.pending[..frameSamples];
    assert (e.pending + b)[frameSamples..] == e.pending[frameSamples..] + b;
  }

  // The one outcome of a long chunk, told from its two parts.
  lemma {:induction false} DrainedInParts(
    classify: Classifier, c: Config, frameSamples: nat, e: Endpoint, b: seq<Sample>)
    requires frameSamples > 0
    ensures var (e1, r1) := Drained(classify, c, frameSamples, e);
      var whole := Drained(classify, c, frameSamples, e.(pending := e.pending + b));
      if r1.None? then whole == (e1.(pending := e1.pending + b), None)
      else
        var (e2, r2) := Pushed(classify, c, frameSamples, e1, b);
        whole == (e2, Sequenced(r1.value, r2))
    decreases |e.pending|
  {
    if |e.pending| < frameSamples {
      SequencedTwice([], [], Pushed(classify, c, frameSamples, e, b).1);
    } else {
      FrameIsLocal(classify, c, frameSamples, e, b);
      var (next, events) := FrameProcessed(classify, c, frameSamples, e);
      if events.Some? {
        DrainedInParts(classify, c, frameSamples, next, b);
        var (e1, r1) := Drained(classify, c, frameSamples, next);
        if r1.Some? {
          SequencedTwice(events.value, r1.value, Pushed(classify, c, frameSamples, e1, b).1);
        }
      }
    }
  }

  // Pushing a and then b is pushing a + b, for every split, as far as the detector does not fail;
  // and exactly what a failure changes.
  lemma ChunkingIndependent(
    classify: Classifier, c: Config, frameSamples: nat, e: Endpoint, a: seq<Sample>, b: seq<Sample>)
    requires frameSamples > 0
    ensures var (e1, r1) := Pushed(classify, c, frameSamples, e, a);
      var whole := Pushed(classify, c, frameSamples, e, a + b);
      if r1.None? then whole == (e1.(pending := e1.pending + b), None)
      else
        var (e2, r2) := Pushed(classify, c, frameSamples, e1, b);
        && |e1.pending| < frameSamples
        && whole == (e2, Sequenced(r1.value, r2))
  {
    assert e.pending + (a + b) == e.pending + a + b;
    DrainedInParts(classify, c, frameSamples, e.(pending := e.pending + a), b);
    DrainedLeavesLess(classify, c, frameSamples, e.(pending := e.pending + a));
  }

  function Resized(samples: seq<Sample>, n: nat): seq<Sample> {
    if |samples| >= n then samples[..n] else samples + seq(n - |samples|, _ => 0.0)
  }

  // The end of a stream: a failing detector counts as silence.
  function Closed(classify: Classifier, c: Config, frameSamples: nat, e: Endpoint): (Endpoint, seq<Event>)
    requires frameSamples > 0
  {
    var (detector, (s, events)) :=
      if e.pending != [] && !e.state.phase.Idle? then
        var (detector, flag) := classify(e.detector, Resized(e.pending, frameSamples));
        (detector, VadModel.PushFlag(c, frameSamples, e.state, flag == Some(true), e.pending))
      else (e.detector, (e.state, []));
    var (s', last) := VadModel.Finish(s);
    (Endpoint(detector, s', []), events + last)
  }

  class WebRtcStreamingVadEndpoint {
    const classify: Classifier
    const config: Config
    const frameSamples: nat
    var detector: Detector
    var state: StreamingVadState
    var pending: seq<Sample>

    constructor (classify: Classifier, config: Config, frameSamples: nat, detector: Detector)
      ensures this.classify == classify && this.config == config && this.frameSamples == frameSamples
      ensures Valid() && Value() == Endpoint(detector, INITIAL, []) && fresh(state)
    {
      this.classify, this.config, this.frameSamples, this.detector := classify, config, frameSamples, detector;
      state := new StreamingVadState(config, frameSamples);
      pending := [];
    }

    ghost predicate Valid()
      reads this, state
    {
      state.config == config && state.frameSamples == frameSamples
    }

    function Value(): Endpoint
      reads this, state
    {
      Endpoint(detector, state.Value(), pending)
    }

    method Push(samples: seq<Sample>, sampleRate: nat) returns (r: Option<seq<Event>>)
      requires Valid() && frameSamples > 0
      modifies this, state
      ensures Valid() && state == old(state)
      ensures sampleRate != ASR_SAMPLE_RATE ==> r.None? && Value() == old(Value())
      ensures sampleRate == ASR_SAMPLE_RATE ==>
        (Value(), r) == Pushed(classify, config, frameSamples, old(Value()), samples)
    {
      if sampleRate != ASR_SAMPLE_RATE {
        return None;
      }
      pending := pending + samples;
      var events: seq<Event> := [];
      ghost var goal := Drained(classify, config, frameSamples, Value());
      SequencedTwice([], [], goal.1);
      while |pending| >= frameSamples
        invariant Valid() && state == old(state)
        invariant goal == Rest(events)
        decreases |pending|
      {
        ghost var was := Value();
        var more := ProcessFrame();
        ghost var (end, rest) := Drained(classify, config, frameSamples, was);
        assert goal == (end, Sequenced(events, rest));
        if more.None? {
          return None;
        }
        SequencedTwice(events, more.value, Drained(classify, config, frameSamples, Value()).1);
        events := events + more.value;
      }
      assert events + [] == events;
      r := Some(events);
    }

    // What the endpoint will have done once it has drained its pending samples.
    ghost function Rest(events: seq<Event>): (Endpoint, Option<seq<Event>>)
      requires frameSamples > 0
      reads this, state
    {
      var (e, more) := Drained(classify, config, frameSamples, Value());
      (e, Sequenced(events, more))
    }

    method ProcessFrame() returns (r: Option<seq<Event>>)
      requires Valid() && 0 < frameSamples <= |pending|
      modifies this, state
      ensures Valid() && state == old(state)
      ensures (Value(), r) == FrameProcessed(classify, config, frameSamples, old(Value()))
    {
      var frame := pending[..frameSamples];
      pending := pending[frameSamples..];
      var (next, flag) := classify(detector, frame);
      detector := next;
      if flag.None? {
        return None;
      }
      var events := state.PushFlag(flag.value, frame);
      r := Some(events);
    }

    // The tail is classified as a frame padded with silence, or cut, but emitted as it is.
    method Finish() returns (events: seq<Event>)
      requires Valid() && frameSamples > 0
      modifies this, state
      ensures Valid() && state == old(state)
      ensures (Value(), events) == Closed(classify, config, frameSamples, old(Value()))
      ensures pending == [] && state.Value() == State(state.nextSample, Idle, [], [])
      ensures old(state.phase).Idle? ==>
        events == [] && detector == old(detector) && state.nextSample == old(state.nextSample)
    {
      events := [];
      if pending != [] && !state.phase.Idle? {
        var frame := pending;
        pending := [];
        var (next, flag) := classify(detector, Resized(frame, frameSamples));
        detector := next;
        events := state.PushFlag(flag == Some(true), frame);
      } else {
        pending := [];
      }
      var last := state.Finish();
      events := events + last;
    }
  }
}
