// The one frame that may be longer than the detector's: after a failure of the detector more than
// a frame may be pending, and closing the stream feeds all of it at once.
module VadLongFrame {
  import opened Arithmetic
  import opened VadModel
  import opened VadConservation
  import opened VadBounds

  lemma {:induction false} SuffixCount(frames: seq<Frame>, n: nat)
    requires n <= |frames|
    ensures SampleCount(frames[n..]) <= SampleCount(frames)
  {
    if n > 0 {
      SuffixCount(frames[1..], n - 1);
      assert frames[1..][n - 1..] == frames[n..];
    } else {
      assert frames[0..] == frames;
    }
  }

  // Trimming keeps the last k frames exactly when they fit.
  lemma {:induction false} TrimmedExact(frames: seq<Frame>, maxSamples: nat, k: nat)
    requires 0 < k <= |frames|
    ensures |Trimmed(frames, maxSamples)| >= k <==> SampleCount(frames[|frames| - k..]) <= maxSamples
  {
    if SampleCount(frames) <= maxSamples {
      SuffixCount(frames, |frames| - k);
    } else if k == |frames| {
      assert frames[0..] == frames;
      var n := TrimmedIsSuffix(frames[1..], maxSamples);
    } else {
      TrimmedExact(frames[1..], maxSamples, k);
      assert frames[1..][|frames| - 1 - k..] == frames[|frames| - k..];
    }
  }

  lemma {:induction false} TrimmedCount(frames: seq<Frame>, maxSamples: nat)
    ensures SampleCount(Trimmed(frames, maxSamples)) <= maxSamples
  {
    if SampleCount(frames) > maxSamples {
      TrimmedCount(frames[1..], maxSamples);
    }
  }

  // The bounds for a segment that opens with a frame of `long` samples.  The run of speech that
  // opens it is in it exactly when it fits the candidate budget.
  ghost predicate LongStart(least: nat, most: nat, maxSamples: nat, frameSamples: nat, count: nat, long: nat) {
    var run := (least - 1) * frameSamples + long;
    && count <= maxSamples
    && count <= (most - 1) * frameSamples + long
    && (run <= count <==> run <= maxSamples)
  }

  ghost predicate LongEventBounded(c: Config, frameSamples: nat, e: Event, long: nat)
    requires frameSamples > 0
  {
    match e
    case SegmentStarted(start, samples) =>
      LongStart(MinSpeechFrames(c), MinSpeechFrames(c) + PaddingFrames(c), MaxCandidateSamples(c, frameSamples),
        frameSamples, |samples|, long)
    case Audio(samples) => |samples| <= long
    case SegmentFinal(start, end) =>
      start <= end <= start + LongestOpen(c, frameSamples) * frameSamples + long
  }

  ghost predicate AfterLong(c: Config, frameSamples: nat, s: State, long: nat)
    requires frameSamples > 0
  {
    s.phase.InSegment? ==>
      s.phase.start <= s.nextSample <= s.phase.start + LongestOpen(c, frameSamples) * frameSamples + long
  }

  lemma LastCount(full: seq<Frame>, last: Frame, from: nat, frameSamples: nat)
    requires FullFrames(full, frameSamples) && from <= |full|
    ensures SampleCount((full + [last])[from..]) == (|full| - from) * frameSamples + |last.samples|
  {
    assert (full + [last])[from..] == full[from..] + [last];
    CountOfConcat(full[from..], [last]);
    CountOfFull(full[from..], frameSamples);
  }

  lemma LongKeptAtMost(full: seq<Frame>, last: Frame, maxSamples: nat, frameSamples: nat, most: nat)
    requires FullFrames(full, frameSamples) && |full| + 1 <= most
    ensures SampleCount(Trimmed(full + [last], maxSamples)) <= (most - 1) * frameSamples + |last.samples|
  {
    var dropped := TrimmedIsSuffix(full + [last], maxSamples);
    if dropped <= |full| {
      LastCount(full, last, dropped, frameSamples);
      MulMonotone(|full| - dropped, most - 1, frameSamples);
    } else {
      MulMonotone(0, most - 1, frameSamples);
    }
  }

  // What is kept holds the last frame and the full ones of the run before it exactly when they fit.
  lemma LongKeptRun(full: seq<Frame>, last: Frame, maxSamples: nat, frameSamples: nat, least: nat)
    requires FullFrames(full, frameSamples) && 1 <= least <= |full| + 1
    ensures var run := (least - 1) * frameSamples + |last.samples|;
      run <= SampleCount(Trimmed(full + [last], maxSamples)) <==> run <= maxSamples
  {
    var frames := full + [last];
    TrimmedCount(frames, maxSamples);
    TrimmedExact(frames, maxSamples, least);
    LastCount(full, last, |frames| - least, frameSamples);
    var dropped := TrimmedIsSuffix(frames, maxSamples);
    if |frames| - dropped >= least {
      LastCount(full, last, dropped, frameSamples);
      MulMonotone(least - 1, |full| - dropped, frameSamples);
    }
  }

  lemma LongKept(full: seq<Frame>, last: Frame, maxSamples: nat, frameSamples: nat, least: nat, most: nat)
    requires FullFrames(full, frameSamples) && 1 <= least <= |full| + 1 <= most
    ensures LongStart(
      least, most, maxSamples, frameSamples, SampleCount(Trimmed(full + [last], maxSamples)), |last.samples|)
  {
    TrimmedCount(full + [last], maxSamples);
    LongKeptAtMost(full, last, maxSamples, frameSamples, most);
    LongKeptRun(full, last, maxSamples, frameSamples, least);
  }

  lemma LongSpeech(
    c: Config, frameSamples: nat, s: State, full: seq<Frame>, fed: seq<Sample>, samples: seq<Sample>)
    requires 0 < frameSamples <= |samples|
    requires FullFrames(full, frameSamples) && Tiles(full, fed) && s.nextSample == |fed + samples|
    requires MinSpeechFrames(c) <= |full| + 1 <= MinSpeechFrames(c) + PaddingFrames(c)
    ensures var (s', events) := Speaking(c, frameSamples, s, full + [Frame(|fed|, samples)], MinSpeechFrames(c));
      && AfterLong(c, frameSamples, s', |samples|)
      && |events| == 1
      && LongEventBounded(c, frameSamples, events[0], |samples|)
  {
    var last := Frame(|fed|, samples);
    LongKept(full, last, MaxCandidateSamples(c, frameSamples), frameSamples,
      MinSpeechFrames(c), MinSpeechFrames(c) + PaddingFrames(c));
    AppendTiles(full, fed, samples);
    TrimmedReaches(full + [last], fed + samples, MaxCandidateSamples(c, frameSamples));
    BudgetIsShort(c, frameSamples);
  }

  lemma BudgetIsShort(c: Config, frameSamples: nat)
    requires frameSamples > 0
    ensures MaxCandidateSamples(c, frameSamples) <= LongestOpen(c, frameSamples) * frameSamples + frameSamples
  {
    BelowNextFrame(MaxCandidateSamples(c, frameSamples), frameSamples, LongestOpen(c, frameSamples));
    OneMore(LongestOpen(c, frameSamples), frameSamples);
  }

  // Whatever the state between frames, a long frame keeps to these bounds.
  lemma LongFrameBounded(
    c: Config, frameSamples: nat, s: State, fed: seq<Sample>, l: Listener, op: Op, flags: seq<bool>)
    requires Accepted(c, frameSamples) && frameSamples > 0
    requires Bounded(c, frameSamples, s, flags) && InStep(s, fed, l)
    requires op.Push? && |op.samples| >= frameSamples
    ensures var (s', events) := Step(c, frameSamples, s, op);
      && AfterLong(c, frameSamples, s', |op.samples|)
      && forall e :: e in events ==> LongEventBounded(c, frameSamples, e, |op.samples|)
  {
    AcceptedBudget(c, frameSamples);
    if s.phase.InSegment? {
      var length := WholeFrames(s.nextSample - s.phase.start, frameSamples);
      MulMonotone(length, LongestOpen(c, frameSamples), frameSamples);
    } else if op.isSpeech {
      var full := if s.phase.Idle? then s.preSpeech else s.candidate;
      var n := if s.phase.Idle? then 1 else s.phase.speechFrames + 1;
      if n == MinSpeechFrames(c) {
        var next := s.(nextSample := s.nextSample + |op.samples|, preSpeech := []);
        LongSpeech(c, frameSamples, next, full, fed, op.samples);
      }
    }
  }
}
