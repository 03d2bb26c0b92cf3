// How much an accepted configuration retains, how early a segment may start and how long it lasts.
module VadBounds {
  import opened Arithmetic
  import opened VadModel
  import opened VadConservation

  // A configuration the endpoint accepts, for a detector whose frames last `frameDurationMs`.
  predicate Accepted(c: Config, frameSamples: nat) {
    && ValidateConfig(c).Ok?
    && frameSamples == ASR_SAMPLE_RATE * c.frameDurationMs / 1000
    && ValidateBudget(c, ValidateConfig(c).value, frameSamples).Ok?
  }

  // Whole frames that fit the candidate budget.
  function BudgetFrames(c: Config, frameSamples: nat): nat
    requires frameSamples > 0
  {
    MaxCandidateSamples(c, frameSamples) / frameSamples
  }

  lemma MulDivCancel(a: nat, b: nat)
    requires b > 0
    ensures a * b / b == a
  {
    FitsIffWithinQuotient(a, b, a * b);
    FitsIffWithinQuotient(a + 1, b, a * b);
    assert (a + 1) * b > a * b;
  }

  lemma FitsIffWithinQuotient(count: nat, size: nat, total: nat)
    requires size > 0
    ensures count * size <= total <==> count <= total / size
  {
    assert total == total / size * size + total % size;
    if count <= total / size {
      assert count * size <= total / size * size;
    } else {
      assert count * size >= (total / size + 1) * size;
    }
  }

  lemma AcceptedBudget(c: Config, frameSamples: nat)
    requires Accepted(c, frameSamples)
    ensures frameSamples > 0
    ensures MaxCandidateSamples(c, frameSamples) == 16 * (c.speechPaddingMs + c.minSpeechMs)
    ensures 1 <= MinSpeechFrames(c) <= BudgetFrames(c, frameSamples)
    ensures MaxSegmentFrames(c) >= 1
  {
    var combined := c.speechPaddingMs + c.minSpeechMs;
    assert frameSamples == 16 * c.frameDurationMs;
    MulDivCancel(16 * combined, c.frameDurationMs);
    assert combined * frameSamples == 16 * combined * c.frameDurationMs;
    assert combined * ASR_SAMPLE_RATE / 1000 == 16 * combined;
    FitsIffWithinQuotient(MinSpeechFrames(c), frameSamples, 16 * combined);
    CeilAtLeastOne(c.maxSegmentMs, c.frameDurationMs);
  }

  // What the checks of the endpoint amount to, in milliseconds and samples at 16 kHz.
  lemma AcceptedExact(c: Config, frameSamples: nat)
    ensures Accepted(c, frameSamples) <==>
      && c.frameDurationMs > 0 && c.minSpeechMs > 0 && c.minSilenceMs > 0
      && c.minSpeechMs <= c.maxSegmentMs
      && c.speechPaddingMs + c.minSpeechMs <= 60_000
      && frameSamples == 16 * c.frameDurationMs
      && frameSamples <= 16 * (c.speechPaddingMs + c.minSpeechMs)
      && MinSpeechFrames(c) * frameSamples <= 16 * (c.speechPaddingMs + c.minSpeechMs)
  {
  }

  lemma CeilAtLeastOne(a: nat, b: nat)
    requires a > 0 && b > 0
    ensures DivCeil(a, b) >= 1
  {
  }

  // ----- Full frames -----

  ghost predicate FullFrames(frames: seq<Frame>, frameSamples: nat) {
    forall i :: 0 <= i < |frames| ==> |frames[i].samples| == frameSamples
  }

  lemma {:induction false} CountOfFull(frames: seq<Frame>, frameSamples: nat)
    requires FullFrames(frames, frameSamples)
    ensures SampleCount(frames) == |frames| * frameSamples == |Joined(frames)|
  {
    if frames != [] {
      CountOfFull(frames[1..], frameSamples);
    }
  }

  lemma OverBudget(frames: seq<Frame>, frameSamples: nat, maxSamples: nat, fit: nat)
    requires FullFrames(frames, frameSamples) && frameSamples > 0
    requires fit == maxSamples / frameSamples
    ensures SampleCount(frames) > maxSamples <==> |frames| > fit
  {
    CountOfFull(frames, frameSamples);
    FitsIffWithinQuotient(|frames|, frameSamples, maxSamples);
  }

  // Trimming full frames keeps as many of the latest as fit.
  lemma {:induction false} TrimmedOfFull(frames: seq<Frame>, frameSamples: nat, maxSamples: nat, fit: nat)
    requires FullFrames(frames, frameSamples) && frameSamples > 0
    requires fit == maxSamples / frameSamples
    ensures Trimmed(frames, maxSamples) == Latest(frames, fit)
  {
    OverBudget(frames, frameSamples, maxSamples, fit);
    if |frames| > fit {
      TrimmedOfFull(frames[1..], frameSamples, maxSamples, fit);
    }
  }

  // ----- The invariant, with the flags fed so far -----

  ghost predicate EndsWithSpeech(flags: seq<bool>, n: nat) {
    n <= |flags| && forall i :: |flags| - n <= i < |flags| ==> flags[i]
  }

  ghost predicate Bounded(c: Config, frameSamples: nat, s: State, flags: seq<bool>)
    requires frameSamples > 0
  {
    && FullFrames(s.preSpeech, frameSamples)
    && FullFrames(s.candidate, frameSamples)
    && |s.preSpeech| <= PaddingFrames(c)
    && match s.phase
      case Idle => s.candidate == []
      case CandidateSpeech(n) =>
        && s.preSpeech == []
        && 1 <= n < MinSpeechFrames(c)
        && EndsWithSpeech(flags, n)
        && n <= |s.candidate| <= n + PaddingFrames(c)
        && |s.candidate| <= BudgetFrames(c, frameSamples)
      case InSegment(start, _) =>
        && s.candidate == []
        && start <= s.nextSample
        && WholeFrames(s.nextSample - start, frameSamples) <= LongestOpen(c, frameSamples)
        && s.nextSample - start == WholeFrames(s.nextSample - start, frameSamples) * frameSamples
  }

  function WholeFrames(samples: nat, frameSamples: nat): nat
    requires frameSamples > 0
  {
    samples / frameSamples
  }

  // Frames a segment may hold without having been closed.
  function LongestOpen(c: Config, frameSamples: nat): nat
    requires frameSamples > 0
  {
    var limit := MaxSegmentFrames(c);
    Max(if limit > 0 then limit - 1 else 0, BudgetFrames(c, frameSamples))
  }

  // A segment opens with the whole run of speech that opened it, and at most the padding before
  // it.  The last frame of a stream may be short.
  ghost predicate EventBounded(c: Config, frameSamples: nat, e: Event, flags: seq<bool>, short: nat)
    requires frameSamples > 0
  {
    match e
    case SegmentStarted(start, samples) =>
      && EndsWithSpeech(flags, MinSpeechFrames(c))
      && MinSpeechFrames(c) * frameSamples <= |samples| + short
      && |samples| + short <= (MinSpeechFrames(c) + PaddingFrames(c)) * frameSamples
      && |samples| <= MaxCandidateSamples(c, frameSamples)
    case Audio(samples) => |samples| <= frameSamples
    case SegmentFinal(start, end) =>
      start <= end <= start + (LongestOpen(c, frameSamples) + 1) * frameSamples
  }

  ghost predicate EventsBounded(c: Config, frameSamples: nat, events: seq<Event>, flags: seq<bool>, short: nat)
    requires frameSamples > 0
  {
    forall i :: 0 <= i < |events| ==> EventBounded(c, frameSamples, events[i], flags, short)
  }

  lemma SpeakingBounded(
    c: Config, frameSamples: nat, s: State, frames: seq<Frame>, fed: seq<Sample>, n: nat, flags: seq<bool>)
    requires Accepted(c, frameSamples) && frameSamples > 0
    requires FullFrames(frames, frameSamples) && Tiles(frames, fed) && s.nextSample == |fed|
    requires s.preSpeech == []
    requires 1 <= n <= MinSpeechFrames(c) && EndsWithSpeech(flags, n)
    requires n <= |frames| <= n + PaddingFrames(c)
    ensures var (s', events) := Speaking(c, frameSamples, s, frames, n);
      && Bounded(c, frameSamples, s', flags)
      && EventsBounded(c, frameSamples, events, flags, 0)
  {
    AcceptedBudget(c, frameSamples);
    var budget := BudgetFrames(c, frameSamples);
    TrimmedOfFull(frames, frameSamples, MaxCandidateSamples(c, frameSamples), budget);
    var candidate := Latest(frames, budget);
    assert n <= |candidate| <= budget;
    if n == MinSpeechFrames(c) {
      CountOfFull(candidate, frameSamples);
      TrimmedReaches(frames, fed, MaxCandidateSamples(c, frameSamples));
      FitsIffWithinQuotient(|candidate|, frameSamples, MaxCandidateSamples(c, frameSamples));
      MulMonotone(MinSpeechFrames(c), |candidate|, frameSamples);
      MulMonotone(|candidate|, MinSpeechFrames(c) + PaddingFrames(c), frameSamples);
      MulDivCancel(|candidate|, frameSamples);
    }
  }

  // One more full frame is one more whole frame; a partial one adds no more than that.
  lemma LengthGrows(length: nat, added: nat, frameSamples: nat)
    requires frameSamples > 0 && added <= frameSamples
    requires length == WholeFrames(length, frameSamples) * frameSamples
    ensures length + added <= (WholeFrames(length, frameSamples) + 1) * frameSamples
    ensures added == frameSamples ==>
      && WholeFrames(length + added, frameSamples) == WholeFrames(length, frameSamples) + 1
      && length + added == WholeFrames(length + added, frameSamples) * frameSamples
  {
    var n := WholeFrames(length, frameSamples);
    assert (n + 1) * frameSamples == n * frameSamples + frameSamples;
    MulDivCancel(n + 1, frameSamples);
  }

  lemma SegmentBounded(c: Config, frameSamples: nat, s: State, isSpeech: bool, samples: seq<Sample>, flags: seq<bool>)
    requires Accepted(c, frameSamples) && frameSamples > 0
    requires s.phase.InSegment? && Bounded(c, frameSamples, s, flags)
    requires |samples| <= frameSamples
    ensures var (s', events) := PushFlag(c, frameSamples, s, isSpeech, samples);
      && (|samples| == frameSamples ==> Bounded(c, frameSamples, s', flags + [isSpeech]))
      && EventsBounded(c, frameSamples, events, flags + [isSpeech], frameSamples - |samples|)
  {
    AcceptedBudget(c, frameSamples);
    var length := s.nextSample - s.phase.start;
    LengthGrows(length, |samples|, frameSamples);
    MulMonotone(WholeFrames(length, frameSamples) + 1, LongestOpen(c, frameSamples) + 1, frameSamples);
  }

  // ----- The short last frame -----

  lemma {:induction false} TrimmedFits(frames: seq<Frame>, maxSamples: nat, keep: nat)
    requires keep <= |frames| && SampleCount(frames[|frames| - keep..]) <= maxSamples
    ensures SampleCount(Trimmed(frames, maxSamples)) <= maxSamples
    ensures keep <= |Trimmed(frames, maxSamples)| <= |frames|
  {
    if SampleCount(frames) > maxSamples {
      assert keep != |frames| by {
        assert frames[0..] == frames;
      }
      assert frames[1..][|frames| - 1 - keep..] == frames[|frames| - keep..];
      TrimmedFits(frames[1..], maxSamples, keep);
    }
  }

  lemma {:induction false} CountOfConcat(a: seq<Frame>, b: seq<Frame>)
    ensures SampleCount(a + b) == SampleCount(a) + SampleCount(b)
  {
    if a == [] {
      assert a + b == b;
    } else {
      CountOfConcat(a[1..], b);
      assert (a + b)[1..] == a[1..] + b;
    }
  }

  // Full frames followed by one that is `short` samples short.
  lemma CountWithLast(full: seq<Frame>, last: Frame, from: nat, frameSamples: nat)
    requires FullFrames(full, frameSamples) && |last.samples| <= frameSamples && from <= |full|
    ensures SampleCount((full + [last])[from..]) + (frameSamples - |last.samples|) == (|full| + 1 - from) * frameSamples
  {
    assert (full + [last])[from..] == full[from..] + [last];
    CountOfConcat(full[from..], [last]);
    CountOfFull(full[from..], frameSamples);
    OneMore(|full| - from, frameSamples);
  }

  lemma {:induction false} JoinedCount(frames: seq<Frame>)
    ensures |Joined(frames)| == SampleCount(frames)
  {
    if frames != [] {
      JoinedCount(frames[1..]);
    }
  }

  // What is left of a stream after its short last frame: only `Finished` follows.
  ghost predicate AfterShort(c: Config, frameSamples: nat, s: State)
    requires frameSamples > 0
  {
    s.phase.InSegment? ==>
      s.phase.start <= s.nextSample <= s.phase.start + (LongestOpen(c, frameSamples) + 1) * frameSamples
  }

  // A segment that opens with trimmed frames reaches from the first of them to the end of the feed.
  lemma TrimmedReaches(frames: seq<Frame>, fed: seq<Sample>, maxSamples: nat)
    requires Tiles(frames, fed)
    ensures var kept := Trimmed(frames, maxSamples);
      && |Joined(kept)| == SampleCount(kept)
      && (kept != [] ==> kept[0].start + SampleCount(kept) == |fed|)
  {
    var dropped := TrimmedIsSuffix(frames, maxSamples);
    DropTiles(frames, fed, dropped);
    JoinedCount(frames[dropped..]);
    if dropped < |frames| {
      JoinedTiles(frames[dropped..], fed);
    }
  }

  lemma ShortKept(full: seq<Frame>, last: Frame, maxSamples: nat, frameSamples: nat, least: nat, most: nat)
    requires FullFrames(full, frameSamples) && |last.samples| <= frameSamples
    requires 1 <= least <= |full| + 1 <= most && least * frameSamples <= maxSamples
    ensures var kept := SampleCount(Trimmed(full + [last], maxSamples));
      && kept <= maxSamples
      && least * frameSamples <= kept + (frameSamples - |last.samples|) <= most * frameSamples
  {
    var frames := full + [last];
    CountWithLast(full, last, |frames| - least, frameSamples);
    TrimmedFits(frames, maxSamples, least);
    var dropped := TrimmedIsSuffix(frames, maxSamples);
    CountWithLast(full, last, dropped, frameSamples);
    MulMonotone(least, |frames| - dropped, frameSamples);
    MulMonotone(|frames| - dropped, most, frameSamples);
  }

  lemma SpeakingShort(
    c: Config, frameSamples: nat, s: State, full: seq<Frame>, fed: seq<Sample>, samples: seq<Sample>, n: nat,
    flags: seq<bool>)
    requires Accepted(c, frameSamples) && frameSamples > 0 && |samples| <= frameSamples
    requires FullFrames(full, frameSamples) && Tiles(full, fed) && s.nextSample == |fed + samples|
    requires 1 <= n <= MinSpeechFrames(c) && EndsWithSpeech(flags, n)
    requires n <= |full| + 1 <= n + PaddingFrames(c)
    ensures var (s', events) := Speaking(c, frameSamples, s, full + [Frame(|fed|, samples)], n);
      && AfterShort(c, frameSamples, s')
      && EventsBounded(c, frameSamples, events, flags, frameSamples - |samples|)
  {
    if n == MinSpeechFrames(c) {
      AcceptedBudget(c, frameSamples);
      var last, max := Frame(|fed|, samples), MaxCandidateSamples(c, frameSamples);
      FitsIffWithinQuotient(n, frameSamples, max);
      ShortKept(full, last, max, frameSamples, n, n + PaddingFrames(c));
      AppendTiles(full, fed, samples);
      TrimmedReaches(full + [last], fed + samples, max);
      BelowNextFrame(max, frameSamples, LongestOpen(c, frameSamples));
    }
  }

  lemma BelowNextFrame(total: nat, frameSamples: nat, n: nat)
    requires frameSamples > 0 && total / frameSamples <= n
    ensures total <= (n + 1) * frameSamples
  {
  }

  // ----- Runs -----

  function Shortfall(op: Op, frameSamples: nat): nat {
    if op.Push? && |op.samples| < frameSamples then frameSamples - |op.samples| else 0
  }

  // Frames have the detector's size, except that a short one may end a stream.
  ghost predicate Framed(ops: seq<Op>, frameSamples: nat) {
    && (forall i :: 0 <= i < |ops| ==> ops[i].Push? ==> |ops[i].samples| <= frameSamples)
    && (forall i :: 0 <= i < |ops| - 1 ==> Shortfall(ops[i], frameSamples) > 0 ==> ops[i + 1].Finished?)
  }

  // The bounds after one frame.
  ghost predicate StepBounded(c: Config, frameSamples: nat, s: State, events: seq<Event>, flags: seq<bool>, short: nat)
    requires frameSamples > 0
  {
    && (short == 0 ==> Bounded(c, frameSamples, s, flags))
    && (short > 0 ==> AfterShort(c, frameSamples, s))
    && EventsBounded(c, frameSamples, events, flags, short)
  }

  lemma PushSpeech(c: Config, frameSamples: nat, s: State, fed: seq<Sample>, l: Listener, op: Op, flags: seq<bool>)
    requires Accepted(c, frameSamples) && frameSamples > 0
    requires Bounded(c, frameSamples, s, flags) && InStep(s, fed, l)
    requires op.Push? && op.isSpeech && |op.samples| <= frameSamples && !s.phase.InSegment?
    ensures var (s', events) := Step(c, frameSamples, s, op);
      StepBounded(c, frameSamples, s', events, flags + [op.isSpeech], Shortfall(op, frameSamples))
  {
    AcceptedBudget(c, frameSamples);
    var next := s.(nextSample := s.nextSample + |op.samples|, preSpeech := []);
    var full := if s.phase.Idle? then s.preSpeech else s.candidate;
    var n := if s.phase.Idle? then 1 else s.phase.speechFrames + 1;
    if Shortfall(op, frameSamples) == 0 {
      AppendTiles(full, fed, op.samples);
      SpeakingBounded(c, frameSamples, next, full + [Frame(|fed|, op.samples)], fed + op.samples, n, flags + [true]);
    } else {
      SpeakingShort(c, frameSamples, next, full, fed, op.samples, n, flags + [true]);
    }
  }

  lemma PushInSegment(c: Config, frameSamples: nat, s: State, op: Op, flags: seq<bool>)
    requires Accepted(c, frameSamples) && frameSamples > 0
    requires Bounded(c, frameSamples, s, flags)
    requires op.Push? && |op.samples| <= frameSamples && s.phase.InSegment?
    ensures var (s', events) := Step(c, frameSamples, s, op);
      StepBounded(c, frameSamples, s', events, flags + [op.isSpeech], Shortfall(op, frameSamples))
  {
    SegmentBounded(c, frameSamples, s, op.isSpeech, op.samples, flags);
    var length := s.nextSample - s.phase.start;
    LengthGrows(length, |op.samples|, frameSamples);
    MulMonotone(WholeFrames(length, frameSamples) + 1, LongestOpen(c, frameSamples) + 1, frameSamples);
  }

  lemma PushBounded(c: Config, frameSamples: nat, s: State, fed: seq<Sample>, l: Listener, op: Op, flags: seq<bool>)
    requires Accepted(c, frameSamples) && frameSamples > 0
    requires Bounded(c, frameSamples, s, flags) && InStep(s, fed, l)
    requires op.Push? && |op.samples| <= frameSamples
    ensures var (s', events) := Step(c, frameSamples, s, op);
      StepBounded(c, frameSamples, s', events, flags + [op.isSpeech], Shortfall(op, frameSamples))
  {
    if s.phase.InSegment? {
      PushInSegment(c, frameSamples, s, op, flags);
    } else if op.isSpeech {
      PushSpeech(c, frameSamples, s, fed, l, op, flags);
    }
  }

  // Where a run may be: after a short frame, or within the bounds.
  ghost predicate RunState(c: Config, frameSamples: nat, ops: seq<Op>, s: State)
    requires frameSamples > 0
  {
    if ops != [] && Shortfall(ops[|ops| - 1], frameSamples) > 0
    then AfterShort(c, frameSamples, s)
    else Bounded(c, frameSamples, s, Flags(ops))
  }

  // Over every run of an accepted configuration the bounds hold of the state and of the last
  // events, hence of every event.
  lemma {:induction false} RunBounded(c: Config, frameSamples: nat, ops: seq<Op>)
    requires Accepted(c, frameSamples) && frameSamples > 0 && Framed(ops, frameSamples)
    ensures RunState(c, frameSamples, ops, Run(c, frameSamples, ops).0)
    ensures ops != [] ==>
      var n := |ops| - 1;
      EventsBounded(c, frameSamples, Step(c, frameSamples, Run(c, frameSamples, ops[..n]).0, ops[n]).1,
        Flags(ops), Shortfall(ops[n], frameSamples))
  {
    if ops != [] {
      var n := |ops| - 1;
      RunBounded(c, frameSamples, ops[..n]);
      var l := RunConserves(c, frameSamples, ops[..n]);
      var s := Run(c, frameSamples, ops[..n]).0;
      assert n > 0 ==> ops[..n][n - 1] == ops[n - 1];
      if ops[n].Push? {
        PushBounded(c, frameSamples, s, Fed(ops[..n]), l, ops[n], Flags(ops[..n]));
      } else {
        FinishBounded(c, frameSamples, ops[..n], s, Flags(ops));
      }
    }
  }

  lemma FinishBounded(c: Config, frameSamples: nat, ops: seq<Op>, s: State, flags: seq<bool>)
    requires frameSamples > 0 && RunState(c, frameSamples, ops, s)
    ensures Bounded(c, frameSamples, Finish(s).0, flags)
    ensures EventsBounded(c, frameSamples, Finish(s).1, flags, 0)
  {
    if s.phase.InSegment? && s.phase.start <= s.nextSample {
      var length := WholeFrames(s.nextSample - s.phase.start, frameSamples);
      if length <= LongestOpen(c, frameSamples) {
        MulMonotone(length, LongestOpen(c, frameSamples) + 1, frameSamples);
      }
    }
  }

  // Retained audio never exceeds the larger of the two buffers' limits.
  lemma RetainedBounded(c: Config, frameSamples: nat, s: State, flags: seq<bool>)
    requires Accepted(c, frameSamples) && frameSamples > 0 && Bounded(c, frameSamples, s, flags)
    ensures SampleCount(s.preSpeech) + SampleCount(s.candidate) <=
      Max(MaxCandidateSamples(c, frameSamples), PaddingFrames(c) * frameSamples)
  {
    CountOfFull(s.preSpeech, frameSamples);
    CountOfFull(s.candidate, frameSamples);
    MulMonotone(|s.preSpeech|, PaddingFrames(c), frameSamples);
    FitsIffWithinQuotient(|s.candidate|, frameSamples, MaxCandidateSamples(c, frameSamples));
  }
}
