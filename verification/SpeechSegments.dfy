// Batch segmentation: speech flags to padded audio segments.
module SpeechSegments {
  import opened Arithmetic
  import VadModel

  datatype Config = Config(frameDurationMs: nat, paddingMs: nat, minSpeechMs: nat, minSilenceMs: nat, mergeGapMs: nat)

  datatype Span = Span(start: nat, end: nat)

  function Frames(c: Config, ms: nat): nat {
    VadModel.FramesForMs(ms, c.frameDurationMs)
  }

  function MinSpeech(c: Config): nat {
    Max(Frames(c, c.minSpeechMs), 1)
  }

  // Durations count as the least number of frames that lasts as long, speech as at least one.
  lemma LimitsInFrames(c: Config, ms: nat)
    requires c.frameDurationMs > 0
    ensures VadModel.RoundsUp(ms, c.frameDurationMs, Frames(c, ms))
    ensures MinSpeech(c) >= 1
    ensures c.minSpeechMs > 0 ==> VadModel.RoundsUp(c.minSpeechMs, c.frameDurationMs, MinSpeech(c))
  {
    VadModel.FramesForMsIsCeil(ms, c.frameDurationMs);
    VadModel.FramesForMsIsCeil(c.minSpeechMs, c.frameDurationMs);
  }

  // ----- Runs of speech -----

  // A maximal run of speech frames.
  ghost predicate SpeechRun(flags: seq<bool>, s: Span) {
    && s.start < s.end <= |flags|
    && (forall i :: s.start <= i < s.end ==> flags[i])
    && (s.start > 0 ==> !flags[s.start - 1])
    && (s.end < |flags| ==> !flags[s.end])
  }

  ghost predicate LongRun(flags: seq<bool>, s: Span, least: nat) {
    SpeechRun(flags, s) && s.end - s.start >= least
  }

  // Spans in order, with at least one frame between them.
  ghost predicate Apart(spans: seq<Span>) {
    && (forall i :: 0 <= i < |spans| ==> spans[i].start < spans[i].end)
    && (forall i, j :: 0 <= i < j < |spans| ==> spans[i].end < spans[j].start)
  }

  // Exactly the long runs, in order.
  ghost predicate ExactRuns(flags: seq<bool>, least: nat, spans: seq<Span>) {
    && Apart(spans)
    && forall s :: s in spans <==> LongRun(flags, s, least)
  }

  method LongRuns(flags: seq<bool>, least: nat) returns (spans: seq<Span>)
    requires least >= 1
    ensures ExactRuns(flags, least, spans)
  {
    spans := [];
    var index := 0;
    while index < |flags|
      invariant 0 <= index <= |flags|
      invariant Scanned(flags, least, spans, index)
    {
      if !flags[index] {
        index := index + 1;
        continue;
      }
      var start := index;
      while index < |flags| && flags[index]
        invariant start <= index <= |flags|
        invariant forall i :: start <= i < index ==> flags[i]
      {
        index := index + 1;
      }
      RunScanned(flags, least, spans, start, index);
      if index - start >= least {
        spans := spans + [Span(start, index)];
      }
    }
  }

  // The long runs that start before the index have been found; the index is not inside a run.
  ghost predicate Scanned(flags: seq<bool>, least: nat, spans: seq<Span>, index: nat)
    requires index <= |flags|
  {
    && (index == 0 || index == |flags| || !flags[index] || !flags[index - 1])
    && Apart(spans)
    && (forall s :: s in spans ==> LongRun(flags, s, least) && s.end <= index)
    && (forall s :: LongRun(flags, s, least) && s.start < index ==> s in spans)
  }

  // A stretch of speech that ends in silence or with the flags holds the start of one run only.
  lemma RunIsUnique(flags: seq<bool>, start: nat, end: nat, s: Span)
    requires start < end <= |flags| && (forall i :: start <= i < end ==> flags[i])
    requires (start > 0 ==> !flags[start - 1]) && (end < |flags| ==> !flags[end])
    requires SpeechRun(flags, s) && start <= s.start < end
    ensures s == Span(start, end)
  {
  }

  lemma RunScanned(flags: seq<bool>, least: nat, spans: seq<Span>, start: nat, end: nat)
    requires start < end <= |flags| && least >= 1
    requires Scanned(flags, least, spans, start)
    requires forall i :: start <= i < end ==> flags[i]
    requires end < |flags| ==> !flags[end]
    ensures Scanned(flags, least, if end - start >= least then spans + [Span(start, end)] else spans, end)
  {
    forall s | LongRun(flags, s, least) && start <= s.start < end
      ensures s == Span(start, end)
    {
      RunIsUnique(flags, start, end, s);
    }
    assert SpeechRun(flags, Span(start, end));
    forall i | 0 <= i < |spans|
      ensures spans[i].end < start
    {
      assert spans[i] in spans;
    }
  }

  // ----- Merging close runs -----

  predicate Close(c: Config, previous: Span, next: Span) {
    var gap := if next.start >= previous.end then next.start - previous.end else 0;
    gap < Frames(c, c.minSilenceMs) || gap <= Frames(c, c.mergeGapMs)
  }

  // A non-empty group whose neighbours are all close.
  ghost predicate Chained(c: Config, group: seq<Span>) {
    group != [] && forall k :: 1 <= k < |group| ==> Close(c, group[k - 1], group[k])
  }

  ghost predicate Separate(c: Config, before: seq<Span>, after: seq<Span>)
    requires before != [] && after != []
  {
    !Close(c, before[|before| - 1], after[0])
  }

  function Flat(groups: seq<seq<Span>>): seq<Span> {
    if groups == [] then [] else Flat(groups[..|groups| - 1]) + groups[|groups| - 1]
  }

  function Hull(group: seq<Span>): Span
    requires group != []
  {
    Span(group[0].start, group[|group| - 1].end)
  }

  // The groups are the spans cut exactly where neighbours are not close.
  ghost predicate Grouped(c: Config, spans: seq<Span>, groups: seq<seq<Span>>) {
    && Flat(groups) == spans
    && (forall g :: 0 <= g < |groups| ==> Chained(c, groups[g]))
    && (forall g :: 1 <= g < |groups| ==> Separate(c, groups[g - 1], groups[g]))
  }

  // One merged span per group, from its first start to its last end.
  ghost predicate Hulls(merged: seq<Span>, groups: seq<seq<Span>>) {
    && |merged| == |groups|
    && forall g :: 0 <= g < |groups| ==> groups[g] != [] && merged[g] == Hull(groups[g])
  }

  method MergeClose(c: Config, spans: seq<Span>) returns (merged: seq<Span>, ghost groups: seq<seq<Span>>)
    requires Apart(spans)
    ensures Grouped(c, spans, groups) && Hulls(merged, groups)
  {
    merged, groups := [], [];
    var i := 0;
    while i < |spans|
      invariant 0 <= i <= |spans|
      invariant Grouped(c, spans[..i], groups) && Hulls(merged, groups)
    {
      var segment := spans[i];
      assert spans[..i + 1] == spans[..i] + [segment];
      if merged == [] {
        NewGroup(c, spans[..i], groups, segment);
        merged, groups := [segment], groups + [[segment]];
      } else {
        var previous := merged[|merged| - 1];
        LastOfFlat(groups);
        if Close(c, previous, segment) {
          GrowGroup(c, spans[..i], groups, segment);
          var end := if previous.end >= segment.end then previous.end else segment.end;
          merged := merged[|merged| - 1 := previous.(end := end)];
          groups := groups[|groups| - 1 := groups[|groups| - 1] + [segment]];
        } else {
          NewGroup(c, spans[..i], groups, segment);
          merged, groups := merged + [segment], groups + [[segment]];
        }
      }
      i := i + 1;
    }
    assert spans[..i] == spans;
  }

  lemma LastOfFlat(groups: seq<seq<Span>>)
    requires groups != [] && groups[|groups| - 1] != []
    ensures var group, all := groups[|groups| - 1], Flat(groups);
      all != [] && all[|all| - 1] == group[|group| - 1]
  {
  }

  lemma NewGroup(c: Config, spans: seq<Span>, groups: seq<seq<Span>>, segment: Span)
    requires Grouped(c, spans, groups)
    requires groups != [] ==> Separate(c, groups[|groups| - 1], [segment])
    ensures Grouped(c, spans + [segment], groups + [[segment]])
  {
  }

  lemma GrowGroup(c: Config, spans: seq<Span>, groups: seq<seq<Span>>, segment: Span)
    requires Grouped(c, spans, groups) && groups != []
    requires var group := groups[|groups| - 1];
      group != [] && Close(c, group[|group| - 1], segment)
    ensures var n := |groups| - 1;
      Grouped(c, spans + [segment], groups[n := groups[n] + [segment]])
  {
  }

  // ----- Padding -----

  datatype AudioSegment = AudioSegment(startSample: nat, endSample: nat)

  function Padded(c: Config, s: Span, totalFrames: nat, totalSamples: nat, frameSamples: nat): AudioSegment {
    var padding := Frames(c, c.paddingMs);
    var start := if s.start >= padding then s.start - padding else 0;
    var end := if s.end + padding <= totalFrames then s.end + padding else totalFrames;
    AudioSegment(start * frameSamples,
      if end * frameSamples <= totalSamples then end * frameSamples else totalSamples)
  }

  function PaddedAll(
    c: Config, spans: seq<Span>, totalFrames: nat, totalSamples: nat, frameSamples: nat): (r: seq<AudioSegment>)
    ensures |r| == |spans|
    ensures forall i :: 0 <= i < |r| ==> r[i] == Padded(c, spans[i], totalFrames, totalSamples, frameSamples)
  {
    if spans == [] then []
    else
      [Padded(c, spans[0], totalFrames, totalSamples, frameSamples)] +
      PaddedAll(c, spans[1..], totalFrames, totalSamples, frameSamples)
  }

  // As many frames as the samples need: the last one may be partial.
  ghost predicate CoversSamples(frames: nat, totalSamples: nat, frameSamples: nat) {
    frames > 0 && (frames - 1) * frameSamples < totalSamples <= frames * frameSamples
  }

  // A padded span is a non-empty interval inside the recording that covers the span.
  lemma PaddedCovers(c: Config, s: Span, frames: nat, totalSamples: nat, frameSamples: nat)
    requires CoversSamples(frames, totalSamples, frameSamples) && s.start < s.end <= frames
    ensures var a := Padded(c, s, frames, totalSamples, frameSamples);
      && a.startSample < a.endSample <= totalSamples
      && a.startSample <= s.start * frameSamples
      && (s.end * frameSamples <= a.endSample || a.endSample == totalSamples)
  {
    var padding := Frames(c, c.paddingMs);
    var start := if s.start >= padding then s.start - padding else 0;
    var end := if s.end + padding <= frames then s.end + padding else frames;
    assert frameSamples > 0;
    MulMonotone(start, s.start, frameSamples);
    MulMonotone(s.end, end, frameSamples);
    MulMonotone(start + 1, s.end, frameSamples);
    MulMonotone(start, frames - 1, frameSamples);
    assert (start + 1) * frameSamples == start * frameSamples + frameSamples;
  }

  // The padding goes on both sides, as far as the recording reaches.
  lemma PaddedExact(c: Config, s: Span, frames: nat, totalSamples: nat, frameSamples: nat)
    requires CoversSamples(frames, totalSamples, frameSamples) && s.start < s.end <= frames
    ensures var a, padding := Padded(c, s, frames, totalSamples, frameSamples), Frames(c, c.paddingMs);
      && (s.start >= padding ==> a.startSample + padding * frameSamples == s.start * frameSamples)
      && (s.start < padding ==> a.startSample == 0)
      && a.endSample == Min((s.end + padding) * frameSamples, totalSamples)
  {
    var padding := Frames(c, c.paddingMs);
    if s.start >= padding {
      Distributes(s.start - padding, padding, frameSamples);
    }
    if s.end + padding > frames {
      MulMonotone(frames, s.end + padding, frameSamples);
    }
  }

  lemma Distributes(a: nat, b: nat, size: nat)
    ensures a * size + b * size == (a + b) * size
  {
  }

  // Padding keeps the order of spans.
  lemma PaddedOrdered(c: Config, s: Span, t: Span, frames: nat, totalSamples: nat, frameSamples: nat)
    requires s.start <= t.start && s.end <= t.end
    ensures var a := Padded(c, s, frames, totalSamples, frameSamples);
      var b := Padded(c, t, frames, totalSamples, frameSamples);
      a.startSample <= b.startSample && a.endSample <= b.endSample
  {
    var padding := Frames(c, c.paddingMs);
    MulMonotone(
      if s.start >= padding then s.start - padding else 0,
      if t.start >= padding then t.start - padding else 0, frameSamples);
    MulMonotone(
      if s.end + padding <= frames then s.end + padding else frames,
      if t.end + padding <= frames then t.end + padding else frames, frameSamples);
  }

  // Padded neighbours do not overlap exactly when the gap between them holds both paddings.
  lemma PaddedApartExact(c: Config, s: Span, t: Span, frames: nat, totalSamples: nat, frameSamples: nat)
    requires CoversSamples(frames, totalSamples, frameSamples)
    requires s.start < s.end < t.start < t.end <= frames
    ensures var a := Padded(c, s, frames, totalSamples, frameSamples);
      var b := Padded(c, t, frames, totalSamples, frameSamples);
      a.endSample <= b.startSample <==> s.end + 2 * Frames(c, c.paddingMs) <= t.start
  {
    var padding := Frames(c, c.paddingMs);
    var end := if s.end + padding <= frames then s.end + padding else frames;
    var start := if t.start >= padding then t.start - padding else 0;
    MulMonotone(start, frames - 1, frameSamples);
    if end <= start {
      MulMonotone(end, start, frameSamples);
    } else {
      MulMonotone(start + 1, end, frameSamples);
      OneMore(start, frameSamples);
    }
  }

  // ----- The whole segmentation -----

  function Offset(groups: seq<seq<Span>>, g: nat): nat
    requires g <= |groups|
  {
    |Flat(groups[..g])|
  }

  lemma {:induction false} GroupInFlat(groups: seq<seq<Span>>, g: nat, k: nat)
    requires g < |groups| && k < |groups[g]|
    ensures Offset(groups, g + 1) == Offset(groups, g) + |groups[g]|
    ensures Offset(groups, g) + k < |Flat(groups)|
    ensures Flat(groups)[Offset(groups, g) + k] == groups[g][k]
  {
    var n := |groups| - 1;
    assert groups[..g + 1][..g] == groups[..g];
    if g < n {
      GroupInFlat(groups[..n], g, k);
      assert groups[..n][..g] == groups[..g];
    } else {
      assert groups[..g + 1] == groups;
    }
  }

  // The group a span belongs to.
  lemma {:induction false} Locate(groups: seq<seq<Span>>, i: nat) returns (g: nat)
    requires i < |Flat(groups)|
    ensures g < |groups| && Offset(groups, g) <= i < Offset(groups, g) + |groups[g]|
  {
    var n := |groups| - 1;
    if i < |Flat(groups[..n])| {
      g := Locate(groups[..n], i);
      assert groups[..n][..g] == groups[..g];
    } else {
      g := n;
    }
  }

  lemma {:induction false} OffsetsAscend(groups: seq<seq<Span>>, g: nat, h: nat)
    requires g < h < |groups| && groups[g] != []
    ensures Offset(groups, g) + |groups[g]| <= Offset(groups, h)
    decreases h
  {
    assert groups[..h][..h - 1] == groups[..h - 1];
    if g < h - 1 {
      OffsetsAscend(groups, g, h - 1);
    } else {
      GroupInFlat(groups, g, 0);
    }
  }

  // A merged span is a stretch of the spans, from the start of one to the end of another.
  lemma HullSpans(groups: seq<seq<Span>>, merged: seq<Span>, g: nat)
    requires Hulls(merged, groups) && g < |groups|
    ensures var first, last := Offset(groups, g), Offset(groups, g) + |groups[g]| - 1;
      && 0 <= first <= last < |Flat(groups)|
      && merged[g] == Span(Flat(groups)[first].start, Flat(groups)[last].end)
  {
    GroupInFlat(groups, g, 0);
    GroupInFlat(groups, g, |groups[g]| - 1);
  }

  // Merged spans are in order and apart.
  lemma HullsApart(groups: seq<seq<Span>>, merged: seq<Span>)
    requires Apart(Flat(groups)) && Hulls(merged, groups)
    ensures Apart(merged)
  {
    var spans := Flat(groups);
    forall g | 0 <= g < |merged|
      ensures merged[g].start < merged[g].end
    {
      HullSpans(groups, merged, g);
      var first, last := Offset(groups, g), Offset(groups, g) + |groups[g]| - 1;
      assert first < last ==> spans[first].end < spans[last].start;
    }
    forall g, h | 0 <= g < h < |merged|
      ensures merged[g].end < merged[h].start
    {
      HullSpans(groups, merged, g);
      HullSpans(groups, merged, h);
      OffsetsAscend(groups, g, h);
    }
  }

  // Every span lies in exactly one merged span.
  lemma SpanInOneHull(groups: seq<seq<Span>>, merged: seq<Span>, i: nat) returns (g: nat)
    requires Apart(Flat(groups)) && Hulls(merged, groups) && i < |Flat(groups)|
    ensures g < |merged| && merged[g].start <= Flat(groups)[i].start && Flat(groups)[i].end <= merged[g].end
    ensures forall h :: 0 <= h < |merged| && h != g ==>
      merged[h].end < Flat(groups)[i].start || Flat(groups)[i].end < merged[h].start
  {
    var spans := Flat(groups);
    g := Locate(groups, i);
    HullSpans(groups, merged, g);
    var first, last := Offset(groups, g), Offset(groups, g) + |groups[g]| - 1;
    assert first < i ==> spans[first].end < spans[i].start;
    assert i < last ==> spans[i].end < spans[last].start;
    forall h | 0 <= h < |merged| && h != g
      ensures merged[h].end < spans[i].start || spans[i].end < merged[h].start
    {
      HullSpans(groups, merged, h);
      if h < g {
        OffsetsAscend(groups, h, g);
      } else {
        OffsetsAscend(groups, g, h);
      }
    }
  }

  // Neighbouring merged spans are separated by enough silence, and by more than the merge gap.
  lemma HullGaps(c: Config, groups: seq<seq<Span>>, merged: seq<Span>, g: nat)
    requires Apart(Flat(groups)) && Grouped(c, Flat(groups), groups) && Hulls(merged, groups)
    requires 1 <= g < |merged|
    ensures merged[g].start >= merged[g - 1].end + Frames(c, c.minSilenceMs)
    ensures merged[g].start > merged[g - 1].end + Frames(c, c.mergeGapMs)
  {
  }

  // Neighbouring runs end up in one merged span exactly when the gap between them is shorter than
  // the minimum silence or at most the merge gap.
  lemma MergedExactly(c: Config, groups: seq<seq<Span>>, merged: seq<Span>, i: nat)
    requires Apart(Flat(groups)) && Grouped(c, Flat(groups), groups) && Hulls(merged, groups)
    requires i + 1 < |Flat(groups)|
    ensures var a, b := Flat(groups)[i], Flat(groups)[i + 1];
      (exists g :: 0 <= g < |merged| && merged[g].start <= a.start && b.end <= merged[g].end) <==>
      b.start - a.end < Frames(c, c.minSilenceMs) || b.start - a.end <= Frames(c, c.mergeGapMs)
  {
    var a, b := Flat(groups)[i], Flat(groups)[i + 1];
    assert a.end < b.start;
    var g := SpanInOneHull(groups, merged, i);
    var h := SpanInOneHull(groups, merged, i + 1);
    var p := Locate(groups, i);
    var q := Locate(groups, i + 1);
    LocatedHull(groups, merged, i, p, g);
    LocatedHull(groups, merged, i + 1, q, h);
    if g == h {
      CloseInGroup(c, groups, i, g);
    } else {
      ApartInGroups(c, groups, i, g, h);
    }
  }

  lemma CloseInGroup(c: Config, groups: seq<seq<Span>>, i: nat, g: nat)
    requires Grouped(c, Flat(groups), groups) && g < |groups| && i + 1 < |Flat(groups)|
    requires Offset(groups, g) <= i && i + 1 < Offset(groups, g) + |groups[g]|
    ensures Close(c, Flat(groups)[i], Flat(groups)[i + 1])
  {
    var k := i + 1 - Offset(groups, g);
    GroupInFlat(groups, g, k - 1);
    GroupInFlat(groups, g, k);
    assert Chained(c, groups[g]);
  }

  lemma ApartInGroups(c: Config, groups: seq<seq<Span>>, i: nat, g: nat, h: nat)
    requires Grouped(c, Flat(groups), groups) && g != h && i + 1 < |Flat(groups)|
    requires g < |groups| && Offset(groups, g) <= i < Offset(groups, g) + |groups[g]|
    requires h < |groups| && Offset(groups, h) <= i + 1 < Offset(groups, h) + |groups[h]|
    ensures !Close(c, Flat(groups)[i], Flat(groups)[i + 1])
  {
    forall k | 0 <= k < |groups|
      ensures groups[k] != []
    {
      assert Chained(c, groups[k]);
    }
    NextGroup(groups, i, g, h);
    assert Separate(c, groups[h - 1], groups[h]);
    GroupInFlat(groups, g, |groups[g]| - 1);
    GroupInFlat(groups, h, 0);
  }

  lemma LocatedHull(groups: seq<seq<Span>>, merged: seq<Span>, i: nat, p: nat, g: nat)
    requires Apart(Flat(groups)) && Hulls(merged, groups) && i < |Flat(groups)|
    requires p < |groups| && Offset(groups, p) <= i < Offset(groups, p) + |groups[p]|
    requires g < |merged|
    requires forall h :: 0 <= h < |merged| && h != g ==>
      merged[h].end < Flat(groups)[i].start || Flat(groups)[i].end < merged[h].start
    ensures p == g
  {
    var spans := Flat(groups);
    HullSpans(groups, merged, p);
    var first, last := Offset(groups, p), Offset(groups, p) + |groups[p]| - 1;
    assert first < i ==> spans[first].end < spans[i].start;
    assert i < last ==> spans[i].end < spans[last].start;
  }

  // The next span is in the same group or begins the next one.
  lemma NextGroup(groups: seq<seq<Span>>, i: nat, g: nat, h: nat)
    requires forall k :: 0 <= k < |groups| ==> groups[k] != []
    requires g < |groups| && Offset(groups, g) <= i < Offset(groups, g) + |groups[g]|
    requires h < |groups| && Offset(groups, h) <= i + 1 < Offset(groups, h) + |groups[h]|
    requires g != h
    ensures h == g + 1 && i + 1 == Offset(groups, h) == Offset(groups, g) + |groups[g]|
  {
    GroupInFlat(groups, g, 0);
    if h < g {
      OffsetsAscend(groups, h, g);
    } else {
      OffsetsAscend(groups, g, h);
      if g + 1 < h {
        OffsetsAscend(groups, g + 1, h);
      }
    }
  }

  method SegmentsFromSpeechFlags(flags: seq<bool>, totalSamples: nat, frameSamples: nat, c: Config)
    returns (segments: seq<AudioSegment>, ghost runs: seq<Span>, ghost merged: seq<Span>, ghost groups: seq<seq<Span>>)
    ensures flags == [] || totalSamples == 0 || frameSamples == 0 ==> segments == []
    ensures flags != [] && totalSamples > 0 && frameSamples > 0 ==>
      && ExactRuns(flags, MinSpeech(c), runs)
      && Grouped(c, runs, groups)
      && Hulls(merged, groups)
      && Apart(merged)
      && segments == PaddedAll(c, merged, |flags|, totalSamples, frameSamples)
    ensures CoversSamples(|flags|, totalSamples, frameSamples) ==> OrderedIntervals(segments, totalSamples)
    ensures CoversSamples(|flags|, totalSamples, frameSamples) && PaddingFits(c) ==> Disjoint(segments)
  {
    segments, runs, merged, groups := [], [], [], [];
    if flags == [] || totalSamples == 0 || frameSamples == 0 {
      return;
    }
    var long := LongRuns(flags, MinSpeech(c));
    var joined;
    joined, groups := MergeClose(c, long);
    runs, merged := long, joined;
    HullsApart(groups, merged);
    segments := PaddedAll(c, joined, |flags|, totalSamples, frameSamples);
    if CoversSamples(|flags|, totalSamples, frameSamples) {
      HullsInside(groups, merged, |flags|);
      IntervalsOrdered(c, merged, |flags|, totalSamples, frameSamples);
      if PaddingFits(c) {
        FittingIsDisjoint(c, flags, runs, merged, groups, totalSamples, frameSamples);
      }
    }
  }

  // ----- Overlapping segments -----

  ghost predicate Disjoint(segments: seq<AudioSegment>) {
    forall g :: 1 <= g < |segments| ==> segments[g - 1].endSample <= segments[g].startSample
  }

  // The shortest gap that keeps two runs from being merged.
  function LeastGap(c: Config): nat {
    Max(Frames(c, c.minSilenceMs), Frames(c, c.mergeGapMs) + 1)
  }

  // The configuration leaves room for the padding on both sides of every gap.
  predicate PaddingFits(c: Config) {
    2 * Frames(c, c.paddingMs) <= LeastGap(c)
  }

  ghost predicate Segmented(
    c: Config, flags: seq<bool>, runs: seq<Span>, merged: seq<Span>, groups: seq<seq<Span>>)
  {
    ExactRuns(flags, MinSpeech(c), runs) && Grouped(c, runs, groups) && Hulls(merged, groups)
  }

  lemma FittingIsDisjoint(
    c: Config, flags: seq<bool>, runs: seq<Span>, merged: seq<Span>, groups: seq<seq<Span>>, totalSamples: nat,
    frameSamples: nat)
    requires PaddingFits(c) && Segmented(c, flags, runs, merged, groups)
    requires CoversSamples(|flags|, totalSamples, frameSamples)
    ensures Disjoint(PaddedAll(c, merged, |flags|, totalSamples, frameSamples))
  {
    HullsApart(groups, merged);
    HullsInside(groups, merged, |flags|);
    forall g | 1 <= g < |merged|
      ensures Padded(c, merged[g - 1], |flags|, totalSamples, frameSamples).endSample <=
        Padded(c, merged[g], |flags|, totalSamples, frameSamples).startSample
    {
      HullGaps(c, groups, merged, g);
      PaddedApartExact(c, merged[g - 1], merged[g], |flags|, totalSamples, frameSamples);
    }
  }

  // Two runs of the least length with the least gap between them.
  function TwoRuns(least: nat, gap: nat): seq<bool> {
    seq(2 * least + gap, i => i < least || i >= least + gap)
  }

  lemma TwoRunsExact(least: nat, gap: nat)
    requires least >= 1 && gap >= 1
    ensures ExactRuns(TwoRuns(least, gap), least, [Span(0, least), Span(least + gap, 2 * least + gap)])
  {
    var flags, a, b := TwoRuns(least, gap), Span(0, least), Span(least + gap, 2 * least + gap);
    assert SpeechRun(flags, a) && SpeechRun(flags, b);
    forall s | LongRun(flags, s, least)
      ensures s == a || s == b
    {
      assert flags[s.start];
      if s.start < least {
        RunIsUnique(flags, 0, least, s);
      } else {
        RunIsUnique(flags, least + gap, 2 * least + gap, s);
      }
    }
  }

  lemma TwoRunsSegmented(c: Config, a: Span, b: Span)
    requires a == Span(0, MinSpeech(c))
    requires b == Span(MinSpeech(c) + LeastGap(c), 2 * MinSpeech(c) + LeastGap(c))
    ensures Segmented(c, TwoRuns(MinSpeech(c), LeastGap(c)), [a, b], [a, b], [[a], [b]])
  {
    TwoRunsExact(MinSpeech(c), LeastGap(c));
    TwoGroups(a, b);
  }

  lemma TwoGroups(a: Span, b: Span)
    ensures Flat([[a], [b]]) == [a, b]
  {
    assert [[a], [b]][..1] == [[a]];
    assert Flat([[a]]) == [a];
  }

  lemma PairDisjoint(c: Config, a: Span, b: Span, frames: nat, totalSamples: nat, frameSamples: nat)
    ensures Disjoint(PaddedAll(c, [a, b], frames, totalSamples, frameSamples)) <==>
      Padded(c, a, frames, totalSamples, frameSamples).endSample <=
        Padded(c, b, frames, totalSamples, frameSamples).startSample
  {
    var segments := PaddedAll(c, [a, b], frames, totalSamples, frameSamples);
    assert segments[0] == Padded(c, a, frames, totalSamples, frameSamples);
    assert segments[1] == Padded(c, b, frames, totalSamples, frameSamples);
  }

  // Without that room the padded segments of these flags overlap, one sample a frame.
  lemma TwoRunsOverlap(c: Config)
    requires !PaddingFits(c)
    ensures var least, gap := MinSpeech(c), LeastGap(c);
      var flags, a, b := TwoRuns(least, gap), Span(0, least), Span(least + gap, 2 * least + gap);
      && Segmented(c, flags, [a, b], [a, b], [[a], [b]])
      && CoversSamples(|flags|, |flags|, 1)
      && !Disjoint(PaddedAll(c, [a, b], |flags|, |flags|, 1))
  {
    var least, gap := MinSpeech(c), LeastGap(c);
    var frames, a, b := 2 * least + gap, Span(0, least), Span(least + gap, 2 * least + gap);
    TwoRunsSegmented(c, a, b);
    PaddedApartExact(c, a, b, frames, frames, 1);
    PairDisjoint(c, a, b, frames, frames, 1);
  }

  // Padded segments never overlap, whatever the recording, exactly when the padding fits.
  lemma DisjointExact(c: Config)
    ensures PaddingFits(c) <==>
      forall flags, runs, merged, groups, totalSamples, frameSamples ::
        Segmented(c, flags, runs, merged, groups) && CoversSamples(|flags|, totalSamples, frameSamples) ==>
        Disjoint(PaddedAll(c, merged, |flags|, totalSamples, frameSamples))
  {
    if PaddingFits(c) {
      forall flags, runs, merged, groups, totalSamples, frameSamples
        | Segmented(c, flags, runs, merged, groups) && CoversSamples(|flags|, totalSamples, frameSamples)
        ensures Disjoint(PaddedAll(c, merged, |flags|, totalSamples, frameSamples))
      {
        FittingIsDisjoint(c, flags, runs, merged, groups, totalSamples, frameSamples);
      }
    } else {
      TwoRunsOverlap(c);
    }
  }

  const DEFAULT := Config(30, 300, 300, 540, 150)

  // The default configuration merges gaps of less than 18 frames but pads with 10 on either side.
  lemma DefaultOverlaps()
    ensures LeastGap(DEFAULT) == 18 && Frames(DEFAULT, DEFAULT.paddingMs) == 10 && !PaddingFits(DEFAULT)
  {
  }

  ghost predicate OrderedIntervals(segments: seq<AudioSegment>, totalSamples: nat) {
    && (forall i :: 0 <= i < |segments| ==> segments[i].startSample < segments[i].endSample <= totalSamples)
    && (forall i, j :: 0 <= i < j < |segments| ==>
      segments[i].startSample <= segments[j].startSample && segments[i].endSample <= segments[j].endSample)
  }

  lemma HullsInside(groups: seq<seq<Span>>, merged: seq<Span>, frames: nat)
    requires Hulls(merged, groups)
    requires forall s :: s in Flat(groups) ==> s.end <= frames
    ensures forall g :: 0 <= g < |merged| ==> merged[g].end <= frames
  {
    forall g | 0 <= g < |merged|
      ensures merged[g].end <= frames
    {
      HullSpans(groups, merged, g);
      var last := Offset(groups, g) + |groups[g]| - 1;
      assert Flat(groups)[last] in Flat(groups);
    }
  }

  lemma IntervalsOrdered(c: Config, merged: seq<Span>, frames: nat, totalSamples: nat, frameSamples: nat)
    requires Apart(merged) && forall g :: 0 <= g < |merged| ==> merged[g].end <= frames
    requires CoversSamples(frames, totalSamples, frameSamples)
    ensures OrderedIntervals(PaddedAll(c, merged, frames, totalSamples, frameSamples), totalSamples)
  {
    var r := PaddedAll(c, merged, frames, totalSamples, frameSamples);
    forall i | 0 <= i < |r|
      ensures r[i].startSample < r[i].endSample <= totalSamples
    {
      PaddedCovers(c, merged[i], frames, totalSamples, frameSamples);
    }
    forall i, j | 0 <= i < j < |r|
      ensures r[i].startSample <= r[j].startSample && r[i].endSample <= r[j].endSample
    {
      assert merged[i].end < merged[j].start;
      PaddedOrdered(c, merged[i], merged[j], frames, totalSamples, frameSamples);
    }
  }
}
