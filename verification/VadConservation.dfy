// The emitted audio is exactly the fed audio, over every run.
module VadConservation {
  import opened Wrappers
  import opened VadModel

  // ----- Buffered frames tile the end of what was fed -----

  ghost predicate TileAt(frames: seq<Frame>, fed: seq<Sample>, i: nat)
    requires i < |frames|
  {
    var end := if i + 1 < |frames| then frames[i + 1].start else |fed|;
    && frames[i].start <= end <= |fed|
    && frames[i].samples == fed[frames[i].start..end]
  }

  ghost predicate Tiles(frames: seq<Frame>, fed: seq<Sample>) {
    forall i :: 0 <= i < |frames| ==> TileAt(frames, fed, i)
  }

  lemma {:induction false} JoinedTiles(frames: seq<Frame>, fed: seq<Sample>)
    requires Tiles(frames, fed) && frames != []
    ensures frames[0].start <= |fed| && Joined(frames) == fed[frames[0].start..]
  {
    assert TileAt(frames, fed, 0);
    if |frames| == 1 {
      assert frames[1..] == [];
    } else {
      DropTiles(frames, fed, 1);
      JoinedTiles(frames[1..], fed);
    }
  }

  lemma DropTiles(frames: seq<Frame>, fed: seq<Sample>, n: nat)
    requires Tiles(frames, fed) && n <= |frames|
    ensures Tiles(frames[n..], fed)
    ensures frames[n..] != [] ==> frames[0].start <= frames[n..][0].start
  {
    forall i | 0 <= i < |frames| - n
      ensures TileAt(frames[n..], fed, i)
    {
      assert TileAt(frames, fed, n + i);
    }
    if n < |frames| {
      StartsAscend(frames, fed, n);
    }
  }

  lemma {:induction false} StartsAscend(frames: seq<Frame>, fed: seq<Sample>, n: nat)
    requires Tiles(frames, fed) && n < |frames|
    ensures frames[0].start <= frames[n].start
  {
    if n > 0 {
      StartsAscend(frames, fed, n - 1);
      assert TileAt(frames, fed, n - 1);
    }
  }

  lemma AppendTiles(frames: seq<Frame>, fed: seq<Sample>, samples: seq<Sample>)
    requires Tiles(frames, fed)
    ensures Tiles(frames + [Frame(|fed|, samples)], fed + samples)
  {
    var all, fed' := frames + [Frame(|fed|, samples)], fed + samples;
    forall i | 0 <= i < |all|
      ensures TileAt(all, fed', i)
    {
      if i < |frames| {
        assert TileAt(frames, fed, i);
        var end := if i + 1 < |frames| then frames[i + 1].start else |fed|;
        assert fed'[all[i].start..end] == fed[all[i].start..end];
      }
    }
  }

  lemma {:induction false} TrimmedIsSuffix(frames: seq<Frame>, maxSamples: nat) returns (n: nat)
    ensures n <= |frames| && Trimmed(frames, maxSamples) == frames[n..]
  {
    if SampleCount(frames) > maxSamples && frames != [] {
      n := TrimmedIsSuffix(frames[1..], maxSamples);
      n := n + 1;
    } else {
      n := 0;
    }
  }

  // ----- A listener that checks the event stream against what was fed -----

  // Outside: no segment is open, and none may start before `from`.
  // Inside: the open segment has been heard up to `pos`.
  datatype Listener = Outside(from: nat) | Inside(start: nat, pos: nat)

  predicate SliceAt(fed: seq<Sample>, at: nat, samples: seq<Sample>) {
    at + |samples| <= |fed| && fed[at..at + |samples|] == samples
  }

  function Hear(l: Listener, e: Event, fed: seq<Sample>): Option<Listener> {
    match (l, e)
    case (Outside(from), SegmentStarted(start, samples)) =>
      if from <= start && SliceAt(fed, start, samples) then Some(Inside(start, start + |samples|)) else None
    case (Inside(start, pos), Audio(samples)) =>
      if SliceAt(fed, pos, samples) then Some(Inside(start, pos + |samples|)) else None
    case (Inside(start, pos), SegmentFinal(start', end)) =>
      if start' == start && end == pos then Some(Outside(pos)) else None
    case _ => None
  }

  function HearAll(l: Listener, events: seq<Event>, fed: seq<Sample>): Option<Listener> {
    if events == [] then Some(l)
    else
      var n := |events| - 1;
      match HearAll(l, events[..n], fed)
      case Some(l') => Hear(l', events[n], fed)
      case None => None
  }

  lemma {:induction false} HearMore(l: Listener, events: seq<Event>, more: seq<Event>, fed: seq<Sample>)
    requires HearAll(l, events, fed).Some?
    ensures HearAll(l, events + more, fed) == HearAll(HearAll(l, events, fed).value, more, fed)
  {
    if more == [] {
      assert events + more == events;
    } else {
      var n := |more| - 1;
      HearMore(l, events, more[..n], fed);
      assert (events + more)[..|events + more| - 1] == events + more[..n];
    }
  }

  lemma {:induction false} HearLonger(l: Listener, events: seq<Event>, fed: seq<Sample>, samples: seq<Sample>)
    requires HearAll(l, events, fed).Some?
    ensures HearAll(l, events, fed + samples) == HearAll(l, events, fed)
  {
    if events != [] {
      var n := |events| - 1;
      HearLonger(l, events[..n], fed, samples);
      var heard := HearAll(l, events[..n], fed).value;
      var e := events[n];
      var at := if heard.Inside? then heard.pos else if e.SegmentStarted? then e.start else 0;
      if !e.SegmentFinal? && at + |e.samples| <= |fed| {
        assert (fed + samples)[at..at + |e.samples|] == fed[at..at + |e.samples|];
      }
    }
  }

  // ----- The invariant of every run -----

  ghost predicate InStep(s: State, fed: seq<Sample>, l: Listener) {
    && s.nextSample == |fed|
    && Tiles(s.preSpeech, fed)
    && Tiles(s.candidate, fed)
    && match s.phase
      case InSegment(start, _) => l == Inside(start, |fed|) && s.candidate == []
      case Idle =>
        l.Outside? && l.from <= |fed| && s.candidate == [] && (s.preSpeech != [] ==> l.from <= s.preSpeech[0].start)
      case CandidateSpeech(_) =>
        l.Outside? && l.from <= |fed| && s.preSpeech == [] && (s.candidate != [] ==> l.from <= s.candidate[0].start)
  }

  lemma RememberTiles(c: Config, frames: seq<Frame>, fed: seq<Sample>, samples: seq<Sample>)
    requires Tiles(frames, fed)
    ensures var latest := Latest(frames + [Frame(|fed|, samples)], PaddingFrames(c));
      && Tiles(latest, fed + samples)
      && (latest != [] ==> (if frames == [] then |fed| else frames[0].start) <= latest[0].start)
  {
    var all := frames + [Frame(|fed|, samples)];
    AppendTiles(frames, fed, samples);
    if |all| > PaddingFrames(c) {
      DropTiles(all, fed + samples, |all| - PaddingFrames(c));
    }
  }

  lemma SpeakingInStep(
    c: Config, frameSamples: nat, s: State, frames: seq<Frame>, fed: seq<Sample>, samples: seq<Sample>, n: nat,
    from: nat)
    requires s.nextSample == |fed + samples| && Tiles(frames, fed) && s.preSpeech == []
    requires from <= |fed| && (frames != [] ==> from <= frames[0].start)
    ensures var (s', events) := Speaking(c, frameSamples, s, frames + [Frame(|fed|, samples)], n);
      var heard := HearAll(Outside(from), events, fed + samples);
      heard.Some? && InStep(s', fed + samples, heard.value)
  {
    var all, fed' := frames + [Frame(|fed|, samples)], fed + samples;
    AppendTiles(frames, fed, samples);
    TrimmedTiles(all, fed', MaxCandidateSamples(c, frameSamples));
    var (s', events) := Speaking(c, frameSamples, s, all, n);
    if events != [] {
      HearOne(Outside(from), events[0], fed');
    }
  }

  lemma TrimmedTiles(frames: seq<Frame>, fed: seq<Sample>, maxSamples: nat)
    requires Tiles(frames, fed) && frames != []
    ensures var kept := Trimmed(frames, maxSamples);
      && Tiles(kept, fed)
      && (kept != [] ==> frames[0].start <= kept[0].start <= |fed|)
      && SliceAt(fed, if kept == [] then |fed| else kept[0].start, Joined(kept))
      && (if kept == [] then |fed| else kept[0].start) + |Joined(kept)| == |fed|
  {
    var dropped := TrimmedIsSuffix(frames, maxSamples);
    DropTiles(frames, fed, dropped);
    if dropped < |frames| {
      JoinedTiles(frames[dropped..], fed);
    }
  }

  lemma HearOne(l: Listener, e: Event, fed: seq<Sample>)
    ensures HearAll(l, [e], fed) == Hear(l, e, fed)
  {
  }

  lemma HearTwo(l: Listener, a: Event, b: Event, fed: seq<Sample>)
    requires Hear(l, a, fed).Some?
    ensures HearAll(l, [a, b], fed) == Hear(Hear(l, a, fed).value, b, fed)
  {
    assert [a, b][..1] == [a];
    HearOne(l, a, fed);
  }

  lemma SegmentInStep(
    c: Config, frameSamples: nat, s: State, fed: seq<Sample>, l: Listener, isSpeech: bool, samples: seq<Sample>)
    requires frameSamples > 0 && s.phase.InSegment? && InStep(s, fed, l)
    ensures var (s', events) := PushFlag(c, frameSamples, s, isSpeech, samples);
      var heard := HearAll(l, events, fed + samples);
      heard.Some? && InStep(s', fed + samples, heard.value)
  {
    var (s', events) := PushFlag(c, frameSamples, s, isSpeech, samples);
    var fed' := fed + samples;
    RememberTiles(c, s.preSpeech, fed, samples);
    assert SliceAt(fed', |fed|, samples);
    HearOne(l, Audio(samples), fed');
    HearTwo(l, Audio(samples), SegmentFinal(s.phase.start, |fed'|), fed');
  }

  lemma StepInStep(c: Config, frameSamples: nat, s: State, fed: seq<Sample>, l: Listener, op: Op)
    requires frameSamples > 0 && InStep(s, fed, l)
    ensures var (s', events) := Step(c, frameSamples, s, op);
      var fed' := fed + if op.Push? then op.samples else [];
      var heard := HearAll(l, events, fed');
      heard.Some? && InStep(s', fed', heard.value)
  {
    match op
    case Finished =>
      assert fed + [] == fed;
      if s.phase.InSegment? {
        HearOne(l, SegmentFinal(s.phase.start, s.nextSample), fed);
      }
    case Push(isSpeech, samples) =>
      var next := s.(nextSample := s.nextSample + |samples|);
      match s.phase
      case InSegment(_, _) =>
        SegmentInStep(c, frameSamples, s, fed, l, isSpeech, samples);
      case Idle =>
        if isSpeech {
          SpeakingInStep(c, frameSamples, next.(preSpeech := []), s.preSpeech, fed, samples, 1, l.from);
        } else {
          RememberTiles(c, s.preSpeech, fed, samples);
        }
      case CandidateSpeech(n) =>
        if isSpeech {
          SpeakingInStep(c, frameSamples, next, s.candidate, fed, samples, n + 1, l.from);
        } else {
          RememberTiles(c, s.preSpeech, fed, samples);
        }
  }

  // Over every run the listener accepts the whole event stream.
  lemma {:induction false} RunConserves(c: Config, frameSamples: nat, ops: seq<Op>) returns (l: Listener)
    requires frameSamples > 0
    ensures HearAll(Outside(0), Run(c, frameSamples, ops).1, Fed(ops)) == Some(l)
    ensures InStep(Run(c, frameSamples, ops).0, Fed(ops), l)
  {
    if ops == [] {
      l := Outside(0);
    } else {
      var n := |ops| - 1;
      var before := RunConserves(c, frameSamples, ops[..n]);
      var (s, events) := Run(c, frameSamples, ops[..n]);
      var (s', more) := Step(c, frameSamples, s, ops[n]);
      StepInStep(c, frameSamples, s, Fed(ops[..n]), before, ops[n]);
      HearLonger(Outside(0), events, Fed(ops[..n]), if ops[n].Push? then ops[n].samples else []);
      HearMore(Outside(0), events, more, Fed(ops));
      l := HearAll(before, more, Fed(ops)).value;
    }
  }

  // ----- What an accepted stream says about its segments -----

  datatype Segment = Segment(start: nat, end: nat, audio: seq<Sample>)

  // The finished segments, and the audio of the open one.
  function Segments(events: seq<Event>): (seq<Segment>, seq<Sample>) {
    if events == [] then ([], [])
    else
      var n := |events| - 1;
      var (done, open) := Segments(events[..n]);
      match events[n]
      case SegmentStarted(_, samples) => (done, samples)
      case Audio(samples) => (done, open + samples)
      case SegmentFinal(start, end) => (done + [Segment(start, end, open)], [])
  }

  ghost predicate ExactSegments(segments: seq<Segment>, fed: seq<Sample>, limit: nat) {
    && (forall i :: 0 <= i < |segments| ==>
      && segments[i].start <= segments[i].end <= limit
      && segments[i].end <= |fed|
      && segments[i].audio == fed[segments[i].start..segments[i].end])
    && (forall i, j :: 0 <= i < j < |segments| ==> segments[i].end <= segments[j].start)
  }

  lemma {:induction false} AcceptedSegments(events: seq<Event>, fed: seq<Sample>)
    requires HearAll(Outside(0), events, fed).Some?
    ensures var (done, open) := Segments(events);
      match HearAll(Outside(0), events, fed).value
      case Outside(from) => ExactSegments(done, fed, from)
      case Inside(start, pos) =>
        ExactSegments(done, fed, start) && start <= pos <= |fed| && open == fed[start..pos]
  {
    if events != [] {
      var n := |events| - 1;
      AcceptedSegments(events[..n], fed);
      var (done, open) := Segments(events[..n]);
      if events[n].SegmentFinal? {
        OneMoreSegment(done, Segment(events[n].start, events[n].end, open), fed);
      }
    }
  }

  lemma OneMoreSegment(done: seq<Segment>, s: Segment, fed: seq<Sample>)
    requires ExactSegments(done, fed, s.start)
    requires s.start <= s.end <= |fed| && s.audio == fed[s.start..s.end]
    ensures ExactSegments(done + [s], fed, s.end)
  {
  }

  // Each segment is exactly what was fed between its bounds; segments are ordered and disjoint.
  lemma SegmentsAreExact(c: Config, frameSamples: nat, ops: seq<Op>)
    requires frameSamples > 0
    ensures ExactSegments(Segments(Run(c, frameSamples, ops).1).0, Fed(ops), |Fed(ops)|)
  {
    var l := RunConserves(c, frameSamples, ops);
    AcceptedSegments(Run(c, frameSamples, ops).1, Fed(ops));
  }
}
