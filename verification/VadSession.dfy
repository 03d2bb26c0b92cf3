// Whole sessions of the endpoint: what its callers see of the state machine's results.
module VadSession {
  import opened Wrappers
  import opened VadModel
  import opened VadConservation
  import opened VadBounds
  import opened VadEndpoint

  // What a caller does with an endpoint: it feeds chunks of any size, and closes the stream.
  datatype Call = Feed(samples: seq<Sample>) | Close

  // The endpoint and all its events after a session; none if the detector failed in a push.
  function Played(classify: Classifier, c: Config, frameSamples: nat, detector: Detector, calls: seq<Call>)
    : (Endpoint, Option<seq<Event>>)
    requires frameSamples > 0
  {
    if calls == [] then (Endpoint(detector, INITIAL, []), Some([]))
    else
      var n := |calls| - 1;
      var (e, events) := Played(classify, c, frameSamples, detector, calls[..n]);
      if events.None? then (e, None)
      else
        var (e', more) := Answered(classify, c, frameSamples, e, calls[n]);
        (e', Sequenced(events.value, more))
  }

  function Answered(
    classify: Classifier, c: Config, frameSamples: nat, e: Endpoint, call: Call): (Endpoint, Option<seq<Event>>)
    requires frameSamples > 0
  {
    match call
    case Feed(samples) => Pushed(classify, c, frameSamples, e, samples)
    case Close =>
      var (e', events) := Closed(classify, c, frameSamples, e);
      (e', Some(events))
  }

  // The samples of a session that are not dropped: closing drops an incomplete frame when no
  // speech is under way.
  function Heard(classify: Classifier, c: Config, frameSamples: nat, detector: Detector, calls: seq<Call>): seq<Sample>
    requires frameSamples > 0
  {
    if calls == [] then []
    else
      var n := |calls| - 1;
      var before := Heard(classify, c, frameSamples, detector, calls[..n]);
      var e := Played(classify, c, frameSamples, detector, calls[..n]).0;
      match calls[n]
      case Feed(samples) => before + samples
      case Close => if e.state.phase.Idle? && |e.pending| <= |before| then before[..|before| - |e.pending|] else before
  }

  // ----- A session is a run -----

  // The endpoint is where the run of these operations leads, between frames.
  ghost predicate RunsTo(c: Config, frameSamples: nat, ops: seq<Op>, e: Endpoint, events: seq<Event>, fed: seq<Sample>)
    requires frameSamples > 0
  {
    && Run(c, frameSamples, ops) == (e.state, events)
    && Fed(ops) + e.pending == fed
    && WholeFramed(ops, frameSamples)
  }

  // Where the detector is after the frames of a run, short ones padded with silence.
  function DetectorAfter(classify: Classifier, frameSamples: nat, detector: Detector, ops: seq<Op>): Detector {
    if ops == [] then detector
    else
      var n := |ops| - 1;
      var d := DetectorAfter(classify, frameSamples, detector, ops[..n]);
      if ops[n].Push? then classify(d, Resized(ops[n].samples, frameSamples)).0 else d
  }

  // The flags of a run are the detector's verdicts on its frames, in order; a failure is silence.
  ghost predicate Verdicts(classify: Classifier, frameSamples: nat, detector: Detector, ops: seq<Op>) {
    ops == [] ||
    var n := |ops| - 1;
    && Verdicts(classify, frameSamples, detector, ops[..n])
    && (ops[n].Push? ==>
         var d := DetectorAfter(classify, frameSamples, detector, ops[..n]);
         ops[n].isSpeech == (classify(d, Resized(ops[n].samples, frameSamples)).1 == Some(true)))
  }

  ghost predicate Judged(classify: Classifier, frameSamples: nat, detector: Detector, ops: seq<Op>, now: Detector) {
    Verdicts(classify, frameSamples, detector, ops) && now == DetectorAfter(classify, frameSamples, detector, ops)
  }

  lemma JudgedOneMore(
    classify: Classifier, frameSamples: nat, detector: Detector, ops: seq<Op>, now: Detector, samples: seq<Sample>)
    requires Judged(classify, frameSamples, detector, ops, now)
    ensures var (next, flag) := classify(now, Resized(samples, frameSamples));
      Judged(classify, frameSamples, detector, ops + [Push(flag == Some(true), samples)], next)
    ensures Judged(classify, frameSamples, detector, ops + [Finished], now)
  {
    var (next, flag) := classify(now, Resized(samples, frameSamples));
    assert (ops + [Push(flag == Some(true), samples)])[..|ops|] == ops;
    assert (ops + [Finished])[..|ops|] == ops;
  }

  // Framed, and not after a short frame.
  ghost predicate WholeFramed(ops: seq<Op>, frameSamples: nat) {
    Framed(ops, frameSamples) && (ops != [] ==> Shortfall(ops[|ops| - 1], frameSamples) == 0)
  }

  lemma RunOneMore(c: Config, frameSamples: nat, ops: seq<Op>, op: Op)
    requires frameSamples > 0
    ensures var ((s, events), (s', more)) :=
        (Run(c, frameSamples, ops), Step(c, frameSamples, Run(c, frameSamples, ops).0, op));
      Run(c, frameSamples, ops + [op]) == (s', events + more)
    ensures Fed(ops + [op]) == Fed(ops) + if op.Push? then op.samples else []
  {
    assert (ops + [op])[..|ops|] == ops;
  }

  lemma FramedOneMore(ops: seq<Op>, op: Op, frameSamples: nat)
    requires WholeFramed(ops, frameSamples)
    requires op.Push? ==> |op.samples| <= frameSamples
    ensures Framed(ops + [op], frameSamples)
  {
  }

  lemma FramedFinished(ops: seq<Op>, frameSamples: nat)
    requires Framed(ops, frameSamples)
    ensures WholeFramed(ops + [Finished], frameSamples)
  {
  }

  // Adding one frame to a run.
  lemma FrameRuns(
    c: Config, frameSamples: nat, ops: seq<Op>, e: Endpoint, events: seq<Event>, fed: seq<Sample>,
    isSpeech: bool, frame: seq<Sample>, rest: seq<Sample>)
    requires frameSamples > 0 && RunsTo(c, frameSamples, ops, e, events, fed)
    requires e.pending == frame + rest && |frame| <= frameSamples
    ensures var ((s, more), ops') :=
      (PushFlag(c, frameSamples, e.state, isSpeech, frame), ops + [Push(isSpeech, frame)]);
      && Run(c, frameSamples, ops') == (s, events + more)
      && Fed(ops') + rest == fed
      && Framed(ops', frameSamples)
      && (|frame| == frameSamples ==> WholeFramed(ops', frameSamples))
  {
    RunOneMore(c, frameSamples, ops, Push(isSpeech, frame));
    FramedOneMore(ops, Push(isSpeech, frame), frameSamples);
    assert Fed(ops) + frame + rest == Fed(ops) + (frame + rest);
  }

  lemma FinishRuns(c: Config, frameSamples: nat, ops: seq<Op>, e: Endpoint, s: State, events: seq<Event>)
    requires frameSamples > 0 && Run(c, frameSamples, ops) == (s, events) && Framed(ops, frameSamples)
    requires e.pending == [] && e.state == VadModel.Finish(s).0
    ensures RunsTo(c, frameSamples, ops + [Finished], e, events + VadModel.Finish(s).1, Fed(ops))
  {
    RunOneMore(c, frameSamples, ops, Finished);
    FramedFinished(ops, frameSamples);
    assert Fed(ops + [Finished]) + e.pending == Fed(ops);
  }

  lemma {:induction false} DrainedRuns(
    classify: Classifier, c: Config, frameSamples: nat, detector: Detector, e: Endpoint, ops: seq<Op>,
    events: seq<Event>, fed: seq<Sample>)
    returns (ops': seq<Op>)
    requires frameSamples > 0 && RunsTo(c, frameSamples, ops, e, events, fed)
    requires Judged(classify, frameSamples, detector, ops, e.detector)
    requires Drained(classify, c, frameSamples, e).1.Some?
    ensures var (e', more) := Drained(classify, c, frameSamples, e);
      && RunsTo(c, frameSamples, ops', e', events + more.value, fed)
      && Judged(classify, frameSamples, detector, ops', e'.detector)
    decreases |e.pending|
  {
    if |e.pending| < frameSamples {
      assert events + [] == events;
      ops' := ops;
    } else {
      var frame, rest := e.pending[..frameSamples], e.pending[frameSamples..];
      var (next, more) := FrameProcessed(classify, c, frameSamples, e);
      var isSpeech := classify(e.detector, frame).1.value;
      JudgedOneMore(classify, frameSamples, detector, ops, e.detector, frame);
      assert Resized(frame, frameSamples) == frame;
      FrameRuns(c, frameSamples, ops, e, events, fed, isSpeech, frame, rest);
      ops' := DrainedRuns(
        classify, c, frameSamples, detector, next, ops + [Push(isSpeech, frame)], events + more.value, fed);
      SequencedTwice(events, more.value, Drained(classify, c, frameSamples, next).1);
    }
  }

  // What closing does, as operations: an incomplete frame is fed as it is when speech is under
  // way, with the detector's verdict on it padded with silence, and dropped otherwise.
  function Closing(classify: Classifier, frameSamples: nat, e: Endpoint): seq<Op> {
    if e.pending == [] || e.state.phase.Idle? then [Finished]
    else [Push(classify(e.detector, Resized(e.pending, frameSamples)).1 == Some(true), e.pending), Finished]
  }

  lemma PaddedWithSilence(samples: seq<Sample>, n: nat)
    ensures |Resized(samples, n)| == n
    ensures forall i :: 0 <= i < n ==> Resized(samples, n)[i] == if i < |samples| then samples[i] else 0.0
  {
  }

  lemma TailRuns(
    classify: Classifier, c: Config, frameSamples: nat, e: Endpoint, ops: seq<Op>, events: seq<Event>, fed: seq<Sample>)
    requires frameSamples > 0 && RunsTo(c, frameSamples, ops, e, events, fed) && |e.pending| < frameSamples
    requires e.pending != [] && !e.state.phase.Idle?
    ensures var (e', more) := Closed(classify, c, frameSamples, e);
      RunsTo(c, frameSamples, ops + Closing(classify, frameSamples, e), e', events + more, fed)
  {
    var (e', more) := Closed(classify, c, frameSamples, e);
    var isSpeech := classify(e.detector, Resized(e.pending, frameSamples)).1 == Some(true);
    assert e.pending == e.pending + [];
    FrameRuns(c, frameSamples, ops, e, events, fed, isSpeech, e.pending, []);
    var (s, first) := PushFlag(c, frameSamples, e.state, isSpeech, e.pending);
    var tail := ops + [Push(isSpeech, e.pending)];
    assert Fed(tail) == Fed(tail) + [];
    FinishRuns(c, frameSamples, tail, e', s, events + first);
    assert ops + Closing(classify, frameSamples, e) == tail + [Finished];
    assert events + first + VadModel.Finish(s).1 == events + more;
  }

  lemma ClosedIsJudged(
    classify: Classifier, c: Config, frameSamples: nat, detector: Detector, e: Endpoint, ops: seq<Op>)
    requires frameSamples > 0 && Judged(classify, frameSamples, detector, ops, e.detector)
    ensures Judged(
      classify, frameSamples, detector, ops + Closing(classify, frameSamples, e),
      Closed(classify, c, frameSamples, e).0.detector)
  {
    JudgedOneMore(classify, frameSamples, detector, ops, e.detector, e.pending);
    if e.pending != [] && !e.state.phase.Idle? {
      var (next, flag) := classify(e.detector, Resized(e.pending, frameSamples));
      var tail := ops + [Push(flag == Some(true), e.pending)];
      JudgedOneMore(classify, frameSamples, detector, tail, next, []);
      assert ops + Closing(classify, frameSamples, e) == tail + [Finished];
    }
  }

  lemma ClosedRuns(
    classify: Classifier, c: Config, frameSamples: nat, e: Endpoint, ops: seq<Op>, events: seq<Event>, fed: seq<Sample>)
    requires frameSamples > 0 && RunsTo(c, frameSamples, ops, e, events, fed) && |e.pending| < frameSamples
    ensures var (e', more) := Closed(classify, c, frameSamples, e);
      && e'.pending == [] && e'.state.phase.Idle?
      && RunsTo(c, frameSamples, ops + Closing(classify, frameSamples, e), e', events + more,
           if e.state.phase.Idle? then fed[..|fed| - |e.pending|] else fed)
  {
    if e.pending != [] && !e.state.phase.Idle? {
      TailRuns(classify, c, frameSamples, e, ops, events, fed);
    } else {
      var (e', more) := Closed(classify, c, frameSamples, e);
      FinishRuns(c, frameSamples, ops, e', e.state, events);
      assert more == VadModel.Finish(e.state).1;
      assert Fed(ops) == fed[..|fed| - |e.pending|];
    }
  }

  // A session in which the detector does not fail in a push is a run of the state machine, its
  // frames are of the detector's size except before a close, they are what was heard, and their flags
  // are the detector's verdicts.
  lemma {:induction false} SessionRuns(
    classify: Classifier, c: Config, frameSamples: nat, detector: Detector, calls: seq<Call>)
    returns (ops: seq<Op>)
    requires frameSamples > 0 && Played(classify, c, frameSamples, detector, calls).1.Some?
    ensures var (e, events) := Played(classify, c, frameSamples, detector, calls);
      && |e.pending| < frameSamples
      && RunsTo(c, frameSamples, ops, e, events.value, Heard(classify, c, frameSamples, detector, calls))
      && Judged(classify, frameSamples, detector, ops, e.detector)
  {
    if calls == [] {
      ops := [];
    } else {
      var n := |calls| - 1;
      ops := SessionRuns(classify, c, frameSamples, detector, calls[..n]);
      var (e, events) := Played(classify, c, frameSamples, detector, calls[..n]);
      var heard := Heard(classify, c, frameSamples, detector, calls[..n]);
      match calls[n]
      case Feed(samples) =>
        var fed := e.(pending := e.pending + samples);
        assert Fed(ops) + (e.pending + samples) == heard + samples;
        ops := DrainedRuns(classify, c, frameSamples, detector, fed, ops, events.value, heard + samples);
        DrainedLeavesLess(classify, c, frameSamples, fed);
      case Close =>
        ClosedRuns(classify, c, frameSamples, e, ops, events.value, heard);
        ClosedIsJudged(classify, c, frameSamples, detector, e, ops);
        ops := ops + Closing(classify, frameSamples, e);
    }
  }

  // ----- What callers may rely on -----

  // Every finished segment is exactly what was heard between its bounds, in order and disjoint.
  lemma SessionSegmentsAreExact(
    classify: Classifier, c: Config, frameSamples: nat, detector: Detector, calls: seq<Call>)
    requires frameSamples > 0 && Played(classify, c, frameSamples, detector, calls).1.Some?
    ensures var heard := Heard(classify, c, frameSamples, detector, calls);
      ExactSegments(Segments(Played(classify, c, frameSamples, detector, calls).1.value).0, heard, |heard|)
  {
    var ops := SessionRuns(classify, c, frameSamples, detector, calls);
    SegmentsAreExact(c, frameSamples, ops);
    var heard := Heard(classify, c, frameSamples, detector, calls);
    var segments := Segments(Run(c, frameSamples, ops).1).0;
    forall i | 0 <= i < |segments|
      ensures segments[i].end <= |heard| && segments[i].audio == heard[segments[i].start..segments[i].end]
    {
      assert Fed(ops) == heard[..|Fed(ops)|];
    }
  }

  // An event is within bounds for the flags up to the frame that caused it.
  ghost predicate WithinBounds(c: Config, frameSamples: nat, ops: seq<Op>, e: Event)
    requires frameSamples > 0
  {
    exists k :: 0 < k <= |ops| && EventBounded(c, frameSamples, e, Flags(ops[..k]), Shortfall(ops[k - 1], frameSamples))
  }

  lemma EarlierBounds(c: Config, frameSamples: nat, ops: seq<Op>, n: nat, e: Event)
    requires frameSamples > 0 && n <= |ops| && WithinBounds(c, frameSamples, ops[..n], e)
    ensures WithinBounds(c, frameSamples, ops, e)
  {
    var k :| 0 < k <= n &&
      EventBounded(c, frameSamples, e, Flags(ops[..n][..k]), Shortfall(ops[..n][k - 1], frameSamples));
    assert ops[..n][..k] == ops[..k];
  }

  lemma LatestBounds(c: Config, frameSamples: nat, ops: seq<Op>, events: seq<Event>, e: Event)
    requires frameSamples > 0 && ops != [] && e in events
    requires EventsBounded(c, frameSamples, events, Flags(ops), Shortfall(ops[|ops| - 1], frameSamples))
    ensures WithinBounds(c, frameSamples, ops, e)
  {
    assert ops[..|ops|] == ops;
  }

  lemma {:induction false} AllWithinBounds(c: Config, frameSamples: nat, ops: seq<Op>)
    requires Accepted(c, frameSamples) && frameSamples > 0 && Framed(ops, frameSamples)
    ensures forall e :: e in Run(c, frameSamples, ops).1 ==> WithinBounds(c, frameSamples, ops, e)
  {
    if ops != [] {
      var n := |ops| - 1;
      AllWithinBounds(c, frameSamples, ops[..n]);
      RunBounded(c, frameSamples, ops);
      var (s, events) := Run(c, frameSamples, ops[..n]);
      var more := Step(c, frameSamples, s, ops[n]).1;
      forall e | e in Run(c, frameSamples, ops).1
        ensures WithinBounds(c, frameSamples, ops, e)
      {
        assert e in events + more;
        if e in events {
          EarlierBounds(c, frameSamples, ops, n, e);
        } else {
          LatestBounds(c, frameSamples, ops, more, e);
        }
      }
    }
  }

  // Every event of a session is within bounds: a segment opens with the whole run of speech that
  // opened it and at most the padding before it, and lasts no longer than it may.
  lemma SessionWithinBounds(classify: Classifier, c: Config, frameSamples: nat, detector: Detector, calls: seq<Call>)
    returns (ops: seq<Op>)
    requires frameSamples > 0 && Accepted(c, frameSamples)
    requires Played(classify, c, frameSamples, detector, calls).1.Some?
    ensures var (e, events) := Played(classify, c, frameSamples, detector, calls);
      && Run(c, frameSamples, ops) == (e.state, events.value)
      && Framed(ops, frameSamples)
      && (forall event :: event in events.value ==> WithinBounds(c, frameSamples, ops, event))
      && Bounded(c, frameSamples, e.state, Flags(ops))
  {
    ops := SessionRuns(classify, c, frameSamples, detector, calls);
    AllWithinBounds(c, frameSamples, ops);
    RunBounded(c, frameSamples, ops);
  }

  // Playing a session on an endpoint, up to the first failure of the detector.
  method Play(classify: Classifier, c: Config, frameSamples: nat, detector: Detector, calls: seq<Call>)
    returns (r: Option<seq<Event>>)
    requires frameSamples > 0
    ensures r == Played(classify, c, frameSamples, detector, calls).1
    ensures r.Some? ==>
      var heard := Heard(classify, c, frameSamples, detector, calls);
      ExactSegments(Segments(r.value).0, heard, |heard|)
  {
    var endpoint := new WebRtcStreamingVadEndpoint(classify, c, frameSamples, detector);
    var events: seq<Event> := [];
    assert calls[..0] == [];
    for i := 0 to |calls|
      invariant endpoint.Valid() && fresh(endpoint) && fresh(endpoint.state)
      invariant endpoint.classify == classify && endpoint.config == c && endpoint.frameSamples == frameSamples
      invariant Played(classify, c, frameSamples, detector, calls[..i]) == (endpoint.Value(), Some(events))
    {
      PlayedOneMore(classify, c, frameSamples, detector, calls, i);
      var more;
      match calls[i] {
        case Feed(samples) =>
          more := endpoint.Push(samples, ASR_SAMPLE_RATE);
        case Close =>
          var last := endpoint.Finish();
          more := Some(last);
      }
      if more.None? {
        FailureStays(classify, c, frameSamples, detector, calls, i + 1);
        return None;
      }
      events := events + more.value;
    }
    assert calls[..|calls|] == calls;
    SessionSegmentsAreExact(classify, c, frameSamples, detector, calls);
    r := Some(events);
  }

  lemma PlayedOneMore(classify: Classifier, c: Config, frameSamples: nat, detector: Detector, calls: seq<Call>, n: nat)
    requires frameSamples > 0 && n < |calls|
    ensures var (e, events) := Played(classify, c, frameSamples, detector, calls[..n]);
      Played(classify, c, frameSamples, detector, calls[..n + 1]) ==
        if events.None? then (e, None)
        else
          var (e', more) := Answered(classify, c, frameSamples, e, calls[n]);
          (e', Sequenced(events.value, more))
  {
    assert calls[..n + 1][..n] == calls[..n];
  }

  lemma {:induction false} FailureStays(
    classify: Classifier, c: Config, frameSamples: nat, detector: Detector, calls: seq<Call>, n: nat)
    requires frameSamples > 0 && n <= |calls|
    requires Played(classify, c, frameSamples, detector, calls[..n]).1.None?
    ensures Played(classify, c, frameSamples, detector, calls).1.None?
    decreases |calls| - n
  {
    if n < |calls| {
      PlayedOneMore(classify, c, frameSamples, detector, calls, n);
      FailureStays(classify, c, frameSamples, detector, calls, n + 1);
    } else {
      assert calls[..n] == calls;
    }
  }
}
