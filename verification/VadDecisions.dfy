// When segments open and close, and with which frames: told from the flags fed, the configuration
// and the events reported so far, without the state of the machine.
module VadDecisions {
  import opened Wrappers
  import opened Arithmetic
  import opened VadModel

  // ----- What can be read off a history -----

  function TrailingSpeech(flags: seq<bool>): nat {
    if flags == [] || !flags[|flags| - 1] then 0 else TrailingSpeech(flags[..|flags| - 1]) + 1
  }

  function TrailingSilence(flags: seq<bool>): nat {
    if flags == [] || flags[|flags| - 1] then 0 else TrailingSilence(flags[..|flags| - 1]) + 1
  }

  // The silence before the speech at the end.
  function Quiet(flags: seq<bool>): nat {
    if flags != [] && flags[|flags| - 1] then Quiet(flags[..|flags| - 1]) else TrailingSilence(flags)
  }

  lemma {:induction false} TrailingSpeechExact(flags: seq<bool>, n: nat)
    ensures n <= TrailingSpeech(flags) <==>
      n <= |flags| && forall i :: |flags| - n <= i < |flags| ==> flags[i]
  {
    if n > 0 && flags != [] && flags[|flags| - 1] {
      TrailingSpeechExact(flags[..|flags| - 1], n - 1);
    }
  }

  lemma {:induction false} TrailingSilenceExact(flags: seq<bool>, n: nat)
    ensures n <= TrailingSilence(flags) <==>
      n <= |flags| && forall i :: |flags| - n <= i < |flags| ==> !flags[i]
  {
    if n > 0 && flags != [] && !flags[|flags| - 1] {
      TrailingSilenceExact(flags[..|flags| - 1], n - 1);
    }
  }

  lemma {:induction false} QuietExact(flags: seq<bool>)
    ensures TrailingSpeech(flags) <= |flags|
    ensures Quiet(flags) == TrailingSilence(flags[..|flags| - TrailingSpeech(flags)])
  {
    if flags != [] && flags[|flags| - 1] {
      QuietExact(flags[..|flags| - 1]);
      assert flags[..|flags| - 1][..|flags| - 1 - TrailingSpeech(flags[..|flags| - 1])] ==
        flags[..|flags| - TrailingSpeech(flags)];
    } else {
      assert flags[..|flags|] == flags;
    }
  }

  // The limits of a configuration in whole frames, rounded up.
  lemma LimitsInFrames(c: Config)
    requires c.frameDurationMs > 0
    ensures RoundsUp(c.speechPaddingMs, c.frameDurationMs, PaddingFrames(c))
    ensures RoundsUp(c.maxSegmentMs, c.frameDurationMs, MaxSegmentFrames(c))
    ensures c.minSpeechMs > 0 ==> RoundsUp(c.minSpeechMs, c.frameDurationMs, MinSpeechFrames(c))
    ensures c.minSilenceMs > 0 ==> RoundsUp(c.minSilenceMs, c.frameDurationMs, MinSilenceFrames(c))
    ensures MinSpeechFrames(c) >= 1 && MinSilenceFrames(c) >= 1
  {
    FramesForMsIsCeil(c.speechPaddingMs, c.frameDurationMs);
    FramesForMsIsCeil(c.maxSegmentMs, c.frameDurationMs);
    FramesForMsIsCeil(c.minSpeechMs, c.frameDurationMs);
    FramesForMsIsCeil(c.minSilenceMs, c.frameDurationMs);
  }

  // A segment is open when one has been started and not ended.
  predicate IsOpen(events: seq<Event>) {
    events != [] && !events[|events| - 1].SegmentFinal?
  }

  function OpenedAt(events: seq<Event>): nat {
    if events == [] then 0
    else if events[|events| - 1].SegmentStarted? then events[|events| - 1].start
    else OpenedAt(events[..|events| - 1])
  }

  // The events of the last operation.
  function LastEvents(c: Config, frameSamples: nat, ops: seq<Op>): seq<Event>
    requires frameSamples > 0 && ops != []
  {
    Step(c, frameSamples, Run(c, frameSamples, ops[..|ops| - 1]).0, ops[|ops| - 1]).1
  }

  // The flags since a segment or the stream last ended.
  function FlagsSince(c: Config, frameSamples: nat, ops: seq<Op>): seq<bool>
    requires frameSamples > 0
  {
    if ops == [] then []
    else
      var n := |ops| - 1;
      var events := LastEvents(c, frameSamples, ops);
      if ops[n].Finished? || (events != [] && events[|events| - 1].SegmentFinal?) then []
      else FlagsSince(c, frameSamples, ops[..n]) + [ops[n].isSpeech]
  }

  // Every frame fed, with its place in the stream.
  function FramesOf(ops: seq<Op>): seq<Frame> {
    if ops == [] then []
    else
      var n := |ops| - 1;
      FramesOf(ops[..n]) + if ops[n].Push? then [Frame(|Fed(ops[..n])|, ops[n].samples)] else []
  }

  // ----- What a history calls for -----

  // An open segment ends with the frame that completes the minimum silence or the longest length.
  predicate MustClose(c: Config, frameSamples: nat, flags: seq<bool>, length: nat) {
    || TrailingSilence(flags) >= MinSilenceFrames(c)
    || (MaxSegmentFrames(c) > 0 && length >= MaxSegmentFrames(c) * frameSamples)
  }

  // A segment opens with the run of speech and the silence before it, up to the padding, as far as
  // the latest of these frames fit the candidate budget.
  function Opening(c: Config, frameSamples: nat, since: seq<bool>, frames: seq<Frame>): seq<Frame> {
    Trimmed(Latest(frames, Reach(c, since)), MaxCandidateSamples(c, frameSamples))
  }

  function Reach(c: Config, since: seq<bool>): nat {
    TrailingSpeech(since) + Min(PaddingFrames(c), Quiet(since))
  }

  function StartOf(frames: seq<Frame>, end: nat): nat {
    if frames == [] then end else frames[0].start
  }

  // What the events, flags and frames of a run amount to.
  datatype History = History(
    end: nat, open: bool, start: nat, flags: seq<bool>, since: seq<bool>, frames: seq<Frame>)

  function HistoryOf(c: Config, frameSamples: nat, ops: seq<Op>): History
    requires frameSamples > 0
  {
    var events := Run(c, frameSamples, ops).1;
    History(|Fed(ops)|, IsOpen(events), OpenedAt(events), Flags(ops), FlagsSince(c, frameSamples, ops), FramesOf(ops))
  }

  // What pushing one more frame must report.
  function Due(c: Config, frameSamples: nat, h: History, isSpeech: bool, samples: seq<Sample>): seq<Event> {
    var end := h.end + |samples|;
    if h.open then
      if MustClose(c, frameSamples, h.flags + [isSpeech], if h.start <= end then end - h.start else 0)
      then [Audio(samples), SegmentFinal(h.start, end)]
      else [Audio(samples)]
    else
      var since := h.since + [isSpeech];
      if TrailingSpeech(since) == MinSpeechFrames(c)
      then
        var opening := Opening(c, frameSamples, since, h.frames + [Frame(h.end, samples)]);
        [SegmentStarted(StartOf(opening, end), Joined(opening))]
      else []
  }

  // ----- The machine follows the history -----

  ghost predicate Follows(c: Config, frameSamples: nat, s: State, h: History) {
    && s.nextSample == h.end
    && (s.phase.InSegment? <==> h.open)
    && match s.phase
      case InSegment(start, silence) => start == h.start && silence == TrailingSilence(h.flags)
      case Idle =>
        && TrailingSpeech(h.since) == 0
        && s.preSpeech == Latest(h.frames, Min(PaddingFrames(c), TrailingSilence(h.since)))
        && s.candidate == []
      case CandidateSpeech(n) =>
        && 0 < n == TrailingSpeech(h.since) < MinSpeechFrames(c)
        && s.preSpeech == []
        && s.candidate == Opening(c, frameSamples, h.since, h.frames)
  }

  function Extended(h: History, isSpeech: bool, samples: seq<Sample>, events: seq<Event>): History {
    var last := if events == [] then None else Some(events[|events| - 1]);
    History(
      h.end + |samples|,
      if last.Some? then !last.value.SegmentFinal? else h.open,
      if last.Some? && last.value.SegmentStarted? then last.value.start else h.start,
      h.flags + [isSpeech],
      if last.Some? && last.value.SegmentFinal? then [] else h.since + [isSpeech],
      h.frames + [Frame(h.end, samples)])
  }

  lemma LatestAppends(frames: seq<Frame>, n: nat, f: Frame)
    ensures Latest(frames, n) + [f] == Latest(frames + [f], n + 1)
  {
  }

  lemma LatestGrows(frames: seq<Frame>, n: nat, f: Frame, most: nat)
    ensures Latest(Latest(frames, Min(most, n)) + [f], most) == Latest(frames + [f], Min(most, n + 1))
  {
  }

  lemma {:induction false} TrimTwice(frames: seq<Frame>, f: Frame, most: nat)
    ensures Trimmed(Trimmed(frames, most) + [f], most) == Trimmed(frames + [f], most)
  {
    if SampleCount(frames) > most {
      TrimTwice(frames[1..], f, most);
      CountGrows(frames, f);
      assert (frames + [f])[1..] == frames[1..] + [f];
    }
  }

  lemma {:induction false} CountGrows(frames: seq<Frame>, f: Frame)
    ensures SampleCount(frames + [f]) >= SampleCount(frames)
  {
    if frames != [] {
      CountGrows(frames[1..], f);
      assert (frames + [f])[1..] == frames[1..] + [f];
    }
  }

  lemma SpeechCounts(since: seq<bool>)
    ensures TrailingSpeech(since + [true]) == TrailingSpeech(since) + 1
    ensures Quiet(since + [true]) == Quiet(since)
    ensures TrailingSpeech(since) == 0 ==> Quiet(since) == TrailingSilence(since)
  {
    assert (since + [true])[..|since|] == since;
  }

  // The frames a segment would open with, with one more frame of speech.
  lemma NextOpening(c: Config, frameSamples: nat, since: seq<bool>, frames: seq<Frame>, f: Frame)
    ensures Opening(c, frameSamples, since + [true], frames + [f]) ==
      Trimmed(Latest(frames, Reach(c, since)) + [f], MaxCandidateSamples(c, frameSamples))
  {
    SpeechCounts(since);
    assert Reach(c, since + [true]) == Reach(c, since) + 1;
    LatestAppends(frames, Reach(c, since), f);
  }

  function Buffered(s: State): seq<Frame> {
    if s.phase.Idle? then s.preSpeech else s.candidate
  }

  lemma PushIsSpeaking(c: Config, frameSamples: nat, s: State, samples: seq<Sample>)
    requires frameSamples > 0 && !s.phase.InSegment? && (s.phase.CandidateSpeech? ==> s.preSpeech == [])
    ensures PushFlag(c, frameSamples, s, true, samples) ==
      Speaking(
        c, frameSamples, s.(nextSample := s.nextSample + |samples|, preSpeech := []),
        Buffered(s) + [Frame(s.nextSample, samples)], (if s.phase.Idle? then 0 else s.phase.speechFrames) + 1)
  {
  }

  lemma NextCandidate(c: Config, frameSamples: nat, s: State, h: History, f: Frame)
    requires Follows(c, frameSamples, s, h) && !h.open
    ensures Trimmed(Buffered(s) + [f], MaxCandidateSamples(c, frameSamples)) ==
      Opening(c, frameSamples, h.since + [true], h.frames + [f])
  {
    NextOpening(c, frameSamples, h.since, h.frames, f);
    SpeechCounts(h.since);
    TrimTwice(Latest(h.frames, Reach(c, h.since)), f, MaxCandidateSamples(c, frameSamples));
  }

  lemma LengthReached(length: nat, frameSamples: nat, frames: nat)
    requires frameSamples > 0
    ensures length / frameSamples >= frames <==> length >= frames * frameSamples
  {
    var q, r := length / frameSamples, length % frameSamples;
    assert length == q * frameSamples + r;
    if q >= frames {
      MulMonotone(frames, q, frameSamples);
    } else {
      MulMonotone(q + 1, frames, frameSamples);
      OneMore(q, frameSamples);
    }
  }

  lemma SegmentFollows(c: Config, frameSamples: nat, s: State, h: History, isSpeech: bool, samples: seq<Sample>)
    requires frameSamples > 0 && Follows(c, frameSamples, s, h) && h.open
    ensures var (s', events) := PushFlag(c, frameSamples, s, isSpeech, samples);
      && events == Due(c, frameSamples, h, isSpeech, samples)
      && Follows(c, frameSamples, s', Extended(h, isSpeech, samples, events))
  {
    var end := h.end + |samples|;
    LengthReached(if h.start <= end then end - h.start else 0, frameSamples, MaxSegmentFrames(c));
    assert (h.flags + [isSpeech])[..|h.flags|] == h.flags;
  }

  lemma SilenceFollows(c: Config, frameSamples: nat, s: State, h: History, samples: seq<Sample>)
    requires frameSamples > 0 && Follows(c, frameSamples, s, h) && !h.open
    ensures var (s', events) := PushFlag(c, frameSamples, s, false, samples);
      && events == [] == Due(c, frameSamples, h, false, samples)
      && Follows(c, frameSamples, s', Extended(h, false, samples, events))
  {
    assert (h.since + [false])[..|h.since|] == h.since;
    LatestGrows(h.frames, TrailingSilence(h.since), Frame(h.end, samples), PaddingFrames(c));
    LatestGrows(h.frames, 0, Frame(h.end, samples), PaddingFrames(c));
    SpeechOrSilence(h.since);
  }

  lemma SpeechOrSilence(flags: seq<bool>)
    ensures TrailingSpeech(flags) == 0 || TrailingSilence(flags) == 0
  {
  }

  lemma SpeakingIsDue(
    c: Config, frameSamples: nat, s: State, h: History, frames: seq<Frame>, n: nat, samples: seq<Sample>)
    requires frameSamples > 0 && !h.open
    requires s.nextSample == h.end + |samples| && s.preSpeech == []
    requires n == TrailingSpeech(h.since + [true]) && 0 < n <= MinSpeechFrames(c)
    requires Trimmed(frames, MaxCandidateSamples(c, frameSamples)) ==
      Opening(c, frameSamples, h.since + [true], h.frames + [Frame(h.end, samples)])
    ensures var (s', events) := Speaking(c, frameSamples, s, frames, n);
      && events == Due(c, frameSamples, h, true, samples)
      && Follows(c, frameSamples, s', Extended(h, true, samples, events))
  {
    assert (h.flags + [true])[..|h.flags|] == h.flags;
  }

  lemma SpeechFollows(c: Config, frameSamples: nat, s: State, h: History, samples: seq<Sample>)
    requires frameSamples > 0 && Follows(c, frameSamples, s, h) && !h.open
    ensures var (s', events) := PushFlag(c, frameSamples, s, true, samples);
      && events == Due(c, frameSamples, h, true, samples)
      && Follows(c, frameSamples, s', Extended(h, true, samples, events))
  {
    var next := s.(nextSample := s.nextSample + |samples|, preSpeech := []);
    SpeechCounts(h.since);
    NextCandidate(c, frameSamples, s, h, Frame(h.end, samples));
    PushIsSpeaking(c, frameSamples, s, samples);
    SpeakingIsDue(
      c, frameSamples, next, h, Buffered(s) + [Frame(h.end, samples)], TrailingSpeech(h.since) + 1, samples);
  }

  lemma PushFollows(c: Config, frameSamples: nat, s: State, h: History, isSpeech: bool, samples: seq<Sample>)
    requires frameSamples > 0 && Follows(c, frameSamples, s, h)
    ensures var (s', events) := PushFlag(c, frameSamples, s, isSpeech, samples);
      && events == Due(c, frameSamples, h, isSpeech, samples)
      && Follows(c, frameSamples, s', Extended(h, isSpeech, samples, events))
  {
    if h.open {
      SegmentFollows(c, frameSamples, s, h, isSpeech, samples);
    } else if isSpeech {
      SpeechFollows(c, frameSamples, s, h, samples);
    } else {
      SilenceFollows(c, frameSamples, s, h, samples);
    }
  }

  // ----- Runs -----

  lemma LastOfOne(events: seq<Event>, e: Event)
    ensures IsOpen(events + [e]) == !e.SegmentFinal?
    ensures OpenedAt(events + [e]) == if e.SegmentStarted? then e.start else OpenedAt(events)
  {
    assert (events + [e])[..|events|] == events;
  }

  lemma LastOfConcat(events: seq<Event>, more: seq<Event>)
    requires |more| <= 2 && (|more| == 2 ==> !more[0].SegmentStarted? && more[1].SegmentFinal?)
    ensures IsOpen(events + more) == if more == [] then IsOpen(events) else !more[|more| - 1].SegmentFinal?
    ensures OpenedAt(events + more) ==
      if more != [] && more[|more| - 1].SegmentStarted? then more[|more| - 1].start else OpenedAt(events)
  {
    if more == [] {
      assert events + more == events;
    } else if |more| == 1 {
      LastOfOne(events, more[0]);
      assert events + more == events + [more[0]];
    } else {
      LastOfOne(events, more[0]);
      LastOfOne(events + [more[0]], more[1]);
      assert events + more == events + [more[0]] + [more[1]];
    }
  }

  lemma HistoryGrows(c: Config, frameSamples: nat, ops: seq<Op>, isSpeech: bool, samples: seq<Sample>)
    requires frameSamples > 0
    ensures var (s', more) := PushFlag(c, frameSamples, Run(c, frameSamples, ops).0, isSpeech, samples);
      && LastEvents(c, frameSamples, ops + [Push(isSpeech, samples)]) == more
      && Run(c, frameSamples, ops + [Push(isSpeech, samples)]).0 == s'
      && HistoryOf(c, frameSamples, ops + [Push(isSpeech, samples)]) ==
         Extended(HistoryOf(c, frameSamples, ops), isSpeech, samples, more)
  {
    assert (ops + [Push(isSpeech, samples)])[..|ops|] == ops;
    LastOfConcat(Run(c, frameSamples, ops).1, LastEvents(c, frameSamples, ops + [Push(isSpeech, samples)]));
  }

  lemma FinishedGrows(c: Config, frameSamples: nat, ops: seq<Op>)
    requires frameSamples > 0
    ensures var (s', more) := Finish(Run(c, frameSamples, ops).0);
      && LastEvents(c, frameSamples, ops + [Finished]) == more
      && Run(c, frameSamples, ops + [Finished]) == (s', Run(c, frameSamples, ops).1 + more)
      && |Fed(ops + [Finished])| == |Fed(ops)|
      && FlagsSince(c, frameSamples, ops + [Finished]) == []
  {
    assert (ops + [Finished])[..|ops|] == ops;
  }

  lemma {:induction false} RunFollows(c: Config, frameSamples: nat, ops: seq<Op>)
    requires frameSamples > 0
    ensures Follows(c, frameSamples, Run(c, frameSamples, ops).0, HistoryOf(c, frameSamples, ops))
  {
    if ops != [] {
      var before, op := ops[..|ops| - 1], ops[|ops| - 1];
      var s := Run(c, frameSamples, before).0;
      RunFollows(c, frameSamples, before);
      assert ops == before + [op];
      match op
      case Push(isSpeech, samples) =>
        PushFollows(c, frameSamples, s, HistoryOf(c, frameSamples, before), isSpeech, samples);
        HistoryGrows(c, frameSamples, before, isSpeech, samples);
      case Finished => FinishFollows(c, frameSamples, before);
    }
  }

  lemma FinishFollows(c: Config, frameSamples: nat, ops: seq<Op>)
    requires frameSamples > 0
    requires Follows(c, frameSamples, Run(c, frameSamples, ops).0, HistoryOf(c, frameSamples, ops))
    ensures Follows(
      c, frameSamples, Run(c, frameSamples, ops + [Finished]).0, HistoryOf(c, frameSamples, ops + [Finished]))
  {
    FinishedGrows(c, frameSamples, ops);
    LastOfConcat(Run(c, frameSamples, ops).1, Finish(Run(c, frameSamples, ops).0).1);
  }

  // A push reports exactly what the history calls for.
  lemma PushIsDue(c: Config, frameSamples: nat, ops: seq<Op>, isSpeech: bool, samples: seq<Sample>)
    requires frameSamples > 0
    ensures LastEvents(c, frameSamples, ops + [Push(isSpeech, samples)]) ==
      Due(c, frameSamples, HistoryOf(c, frameSamples, ops), isSpeech, samples)
  {
    RunFollows(c, frameSamples, ops);
    PushFollows(
      c, frameSamples, Run(c, frameSamples, ops).0, HistoryOf(c, frameSamples, ops), isSpeech, samples);
    HistoryGrows(c, frameSamples, ops, isSpeech, samples);
  }

  // The end of the stream ends an open segment, and reports nothing else.
  lemma FinishIsDue(c: Config, frameSamples: nat, ops: seq<Op>)
    requires frameSamples > 0
    ensures LastEvents(c, frameSamples, ops + [Finished]) ==
      var h := HistoryOf(c, frameSamples, ops);
      if h.open then [SegmentFinal(h.start, h.end)] else []
  {
    RunFollows(c, frameSamples, ops);
    FinishedGrows(c, frameSamples, ops);
  }

  // A segment is reported as ended exactly when one is open and its latest frames complete the
  // minimum silence, or it has reached its longest length.
  lemma ClosesExactly(c: Config, frameSamples: nat, ops: seq<Op>, isSpeech: bool, samples: seq<Sample>)
    requires frameSamples > 0
    ensures
      var h, flags := HistoryOf(c, frameSamples, ops), Flags(ops) + [isSpeech];
      var least, most := MinSilenceFrames(c), MaxSegmentFrames(c);
      (exists e :: e in LastEvents(c, frameSamples, ops + [Push(isSpeech, samples)]) && e.SegmentFinal?) <==>
        && h.open
        && (|| (least <= |flags| && forall i :: |flags| - least <= i < |flags| ==> !flags[i])
            || (most > 0 && h.end + |samples| >= h.start + most * frameSamples))
  {
    PushIsDue(c, frameSamples, ops, isSpeech, samples);
    TrailingSilenceExact(Flags(ops) + [isSpeech], MinSilenceFrames(c));
    DueCloses(c, frameSamples, HistoryOf(c, frameSamples, ops), isSpeech, samples);
  }

  lemma DueCloses(c: Config, frameSamples: nat, h: History, isSpeech: bool, samples: seq<Sample>)
    requires frameSamples > 0
    ensures (exists e :: e in Due(c, frameSamples, h, isSpeech, samples) && e.SegmentFinal?) <==>
      && h.open
      && (|| TrailingSilence(h.flags + [isSpeech]) >= MinSilenceFrames(c)
          || (MaxSegmentFrames(c) > 0 && h.end + |samples| >= h.start + MaxSegmentFrames(c) * frameSamples))
  {
    var due, most := Due(c, frameSamples, h, isSpeech, samples), MaxSegmentFrames(c);
    if most > 0 {
      OneIsLeast(most, frameSamples);
    }
    if |due| == 2 {
      assert due[1] in due;
    }
  }

  lemma OneIsLeast(n: nat, size: nat)
    requires n > 0 && size > 0
    ensures n * size > 0
  {
  }

  // A segment is reported as started exactly when none is open and the speech since the last end
  // has just lasted long enough.
  lemma OpensExactly(c: Config, frameSamples: nat, ops: seq<Op>, isSpeech: bool, samples: seq<Sample>)
    requires frameSamples > 0
    ensures
      (exists e :: e in LastEvents(c, frameSamples, ops + [Push(isSpeech, samples)]) && e.SegmentStarted?) <==>
        && !IsOpen(Run(c, frameSamples, ops).1)
        && TrailingSpeech(FlagsSince(c, frameSamples, ops) + [isSpeech]) == MinSpeechFrames(c)
  {
    PushIsDue(c, frameSamples, ops, isSpeech, samples);
    var due := Due(c, frameSamples, HistoryOf(c, frameSamples, ops), isSpeech, samples);
    assert |due| == 1 ==> due[0] in due;
  }
}
