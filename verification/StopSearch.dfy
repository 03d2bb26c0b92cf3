// Stop strings in a growing text: where they start, and how much text is safe to show before the
// rest has arrived.
module StopSearch {
  import opened Wrappers

  predicate OccursAt(text: string, stop: string, i: nat) {
    i + |stop| <= |text| && text[i..i + |stop|] == stop
  }

  ghost predicate StopAt(stops: seq<string>, text: string, i: nat) {
    exists stop :: stop in stops && OccursAt(text, stop, i)
  }

  // First occurrence of one stop, as `str::find` reports it.
  function Find(text: string, stop: string, from: nat := 0): (r: Option<nat>)
    ensures r.Some? ==> from <= r.value && OccursAt(text, stop, r.value)
    ensures forall i :: from <= i && (r.Some? ==> i < r.value) ==> !OccursAt(text, stop, i)
    decreases |text| - from
  {
    if from + |stop| > |text| then None
    else if text[from..from + |stop|] == stop then Some(from)
    else Find(text, stop, from + 1)
  }

  // Earliest position at which any of the stops starts.
  function EarliestStop(stops: seq<string>, text: string): (r: Option<nat>)
    ensures r.Some? ==> r.value <= |text| && StopAt(stops, text, r.value)
    ensures forall i, stop :: 0 <= i && (r.Some? ==> i < r.value) && stop in stops ==> !OccursAt(text, stop, i)
  {
    if stops == [] then None
    else match (Find(text, stops[0]), EarliestStop(stops[1..], text))
      case (Some(i), Some(j)) => assert OccursAt(text, stops[0], i); Some(if i <= j then i else j)
      case (Some(i), None) => assert OccursAt(text, stops[0], i); Some(i)
      case (None, rest) => rest
  }

  // ----- Text that may yet turn out to begin a stop -----

  // A stop starts at i, or would with the right continuation.
  ghost predicate StopMayStart(stops: seq<string>, text: string, i: nat)
    requires i <= |text|
  {
    exists stop :: stop in stops && (stop <= text[i..] || text[i..] <= stop)
  }

  ghost predicate Safe(stops: seq<string>, text: string, n: nat) {
    n <= |text| && forall i :: 0 <= i < n ==> !StopMayStart(stops, text, i)
  }

  // Safe means exactly what it should: whatever text follows, no stop starts that early.
  lemma SafeIsExact(stops: seq<string>, text: string, n: nat)
    requires n <= |text|
    ensures Safe(stops, text, n) <==> forall more: string, i :: 0 <= i < n ==> !StopAt(stops, text + more, i)
  {
    if Safe(stops, text, n) {
      forall more: string, i | 0 <= i < n
        ensures !StopAt(stops, text + more, i)
      {
        if StopAt(stops, text + more, i) {
          StopReaches(stops, text, more, i);
        }
      }
    }
    if forall more: string, i :: 0 <= i < n ==> !StopAt(stops, text + more, i) {
      forall i | 0 <= i < n
        ensures !StopMayStart(stops, text, i)
      {
        if StopMayStart(stops, text, i) {
          var more := Continuation(stops, text, i);
        }
      }
    }
  }

  lemma StopReaches(stops: seq<string>, text: string, more: string, i: nat)
    requires i <= |text| && StopAt(stops, text + more, i)
    ensures StopMayStart(stops, text, i)
  {
  }

  lemma OccurrenceReaches(text: string, more: string, stop: string, i: nat)
    requires i <= |text| && OccursAt(text + more, stop, i)
    ensures stop <= text[i..] || text[i..] <= stop
  {
  }

  lemma Continuation(stops: seq<string>, text: string, i: nat) returns (more: string)
    requires i <= |text| && StopMayStart(stops, text, i)
    ensures StopAt(stops, text + more, i)
  {
    var stop :| stop in stops && (stop <= text[i..] || text[i..] <= stop);
    more := if stop <= text[i..] then "" else stop[|text| - i..];
    assert OccursAt(text + more, stop, i);
  }

  // Only the withheld part needs searching: what has been shown cannot hold the start of a stop.
  lemma SearchPending(stops: seq<string>, shown: string, pending: string, piece: string)
    requires Safe(stops, shown + pending, |shown|)
    ensures var whole, part := EarliestStop(stops, shown + pending + piece), EarliestStop(stops, pending + piece);
      && (whole.Some? <==> part.Some?)
      && (part.Some? ==> whole.value == |shown| + part.value)
  {
    var text, rest := shown + pending + piece, pending + piece;
    assert text == shown + rest;
    forall i: nat, stop | stop in stops
      ensures i < |shown| ==> !OccursAt(text, stop, i)
      ensures OccursAt(rest, stop, i) <==> OccursAt(text, stop, |shown| + i)
    {
      if i < |shown| && OccursAt(text, stop, i) {
        assert StopAt(stops, text, i);
        StopReaches(stops, shown + pending, piece, i);
      }
      if |shown| + i + |stop| <= |text| {
        assert text[|shown| + i..|shown| + i + |stop|] == rest[i..i + |stop|];
      }
    }
    var whole, part := EarliestStop(stops, text), EarliestStop(stops, rest);
    if part.Some? {
      var stop :| stop in stops && OccursAt(rest, stop, part.value);
      assert OccursAt(text, stop, |shown| + part.value);
    }
    if whole.Some? {
      var stop :| stop in stops && OccursAt(text, stop, whole.value);
      assert whole.value >= |shown|;
      assert OccursAt(rest, stop, whole.value - |shown|);
    }
  }

  // ----- The longest suffix that is a prefix of a stop -----

  predicate EndsWithPrefix(text: string, stop: string, k: nat) {
    k <= |stop| && k <= |text| && text[|text| - k..] == stop[..k]
  }

  function LongestPrefixOf(text: string, stop: string, k: nat): (r: nat)
    requires k <= |stop|
    ensures r <= k && EndsWithPrefix(text, stop, r)
    ensures forall j :: r < j <= k ==> !EndsWithPrefix(text, stop, j)
  {
    if EndsWithPrefix(text, stop, k) then k
    else LongestPrefixOf(text, stop, k - 1)
  }

  function LongestStopPrefixSuffix(text: string, stops: seq<string>): (r: nat)
    ensures r <= |text|
    ensures r > 0 ==> exists stop :: stop in stops && EndsWithPrefix(text, stop, r)
    ensures forall stop, j: nat :: stop in stops && EndsWithPrefix(text, stop, j) ==> j <= r
  {
    if stops == [] then 0
    else
      var first, rest := LongestPrefixOf(text, stops[0], |stops[0]|), LongestStopPrefixSuffix(text, stops[1..]);
      if first >= rest then first else rest
  }

  // With no stop in the pending text, all but the withheld suffix is safe, and no more than that.
  lemma WithheldIsExact(stops: seq<string>, shown: string, pending: string, n: nat)
    requires Safe(stops, shown + pending, |shown|)
    requires EarliestStop(stops, pending).None?
    requires |shown| <= n <= |shown| + |pending|
    ensures Safe(stops, shown + pending, n) <==> n <= |shown| + |pending| - LongestStopPrefixSuffix(pending, stops)
  {
    var text, held := shown + pending, LongestStopPrefixSuffix(pending, stops);
    forall i | |shown| <= i < |text|
      ensures i < |text| - held ==> !StopMayStart(stops, text, i)
      ensures i == |text| - held ==> StopMayStart(stops, text, i)
    {
      assert text[i..] == pending[i - |shown|..];
      MayStartInPending(stops, pending, i - |shown|);
    }
    if n > |text| - held {
      assert StopMayStart(stops, text, |text| - held);
    }
  }

  lemma MayStartInPending(stops: seq<string>, pending: string, i: nat)
    requires EarliestStop(stops, pending).None?
    requires i < |pending|
    ensures i < |pending| - LongestStopPrefixSuffix(pending, stops) ==> !StopMayStart(stops, pending, i)
    ensures i == |pending| - LongestStopPrefixSuffix(pending, stops) ==> StopMayStart(stops, pending, i)
  {
    var held, rest := LongestStopPrefixSuffix(pending, stops), pending[i..];
    if StopMayStart(stops, pending, i) {
      var stop :| stop in stops && (stop <= rest || rest <= stop);
      assert stop <= rest ==> OccursAt(pending, stop, i);
      assert EndsWithPrefix(pending, stop, |rest|);
    }
    if |rest| == held {
      var stop :| stop in stops && EndsWithPrefix(pending, stop, held);
      assert rest <= stop;
    }
  }

  // ----- Streams of pieces -----

  function Join(pieces: seq<string>): string {
    if pieces == [] then "" else pieces[0] + Join(pieces[1..])
  }

  // What a reader of the whole text sees: the text up to the earliest stop, looked for again
  // after every piece.
  function Visible(stops: seq<string>, pieces: seq<string>, seen: string := ""): string {
    if pieces == [] then seen
    else
      var text := seen + pieces[0];
      match EarliestStop(stops, text)
      case Some(i) => text[..i]
      case None => Visible(stops, pieces[1..], text)
  }

  function CutAtStop(stops: seq<string>, text: string): string {
    match EarliestStop(stops, text)
    case Some(i) => text[..i]
    case None => text
  }

  // Whenever the start of a stop holds a whole stop, it also begins with one.
  ghost predicate PrefixCovered(stops: seq<string>) {
    forall stop, n: nat, i: nat :: stop in stops && n <= |stop| && StopAt(stops, stop[..n], i) ==>
      StopAt(stops, stop[..n], 0)
  }

  lemma CoveredStart(stops: seq<string>, text: string, longer: string, j: nat, stop: string, i: nat)
    requires PrefixCovered(stops)
    requires longer in stops && stop in stops
    requires j <= i && OccursAt(text, stop, i)
    requires text[j..] <= longer
    ensures StopAt(stops, text, j)
  {
    var head := longer[..|text| - j];
    assert text[j..] == head;
    assert head[i - j..i - j + |stop|] == text[i..i + |stop|];
    assert OccursAt(head, stop, i - j);
    assert StopAt(stops, head, i - j);
    assert StopAt(stops, head, 0);
    var first :| first in stops && OccursAt(head, first, 0);
    assert text[j..j + |first|] == head[..|first|];
    assert OccursAt(text, first, j);
  }

  lemma EarliestIsStable(stops: seq<string>, text: string, more: string)
    requires PrefixCovered(stops)
    requires EarliestStop(stops, text).Some?
    ensures EarliestStop(stops, text + more) == EarliestStop(stops, text)
  {
    var i := EarliestStop(stops, text).value;
    var stop :| stop in stops && OccursAt(text, stop, i);
    assert (text + more)[i..i + |stop|] == text[i..i + |stop|];
    assert OccursAt(text + more, stop, i);
    var j := EarliestStop(stops, text + more).value;
    if j < i {
      var longer :| longer in stops && OccursAt(text + more, longer, j);
      OccurrenceReaches(text, more, longer, j);
      assert longer <= text[j..] ==> OccursAt(text, longer, j);
      if !(longer <= text[j..]) {
        CoveredStart(stops, text, longer, j, stop, i);
      }
    }
  }

  lemma {:induction false} VisibleIsWholeTextSearch(stops: seq<string>, pieces: seq<string>, seen: string)
    requires PrefixCovered(stops)
    requires EarliestStop(stops, seen).None? || (seen == "" && pieces != [])
    ensures Visible(stops, pieces, seen) == CutAtStop(stops, seen + Join(pieces))
  {
    if pieces == [] {
      assert seen + Join(pieces) == seen;
    } else {
      var text := seen + pieces[0];
      assert seen + Join(pieces) == text + Join(pieces[1..]);
      if EarliestStop(stops, text).Some? {
        var i := EarliestStop(stops, text).value;
        EarliestIsStable(stops, text, Join(pieces[1..]));
        assert (text + Join(pieces[1..]))[..i] == text[..i];
      } else {
        VisibleIsWholeTextSearch(stops, pieces[1..], text);
      }
    }
  }

  // The visible text is independent of how the text is cut into pieces exactly for covered stops.
  lemma SplitIndependenceExact(stops: seq<string>)
    ensures (forall ps, qs :: Join(ps) == Join(qs) ==> Visible(stops, ps) == Visible(stops, qs)) <==>
      PrefixCovered(stops)
  {
    if PrefixCovered(stops) {
      forall ps, qs | Join(ps) == Join(qs)
        ensures Visible(stops, ps) == Visible(stops, qs)
      {
        VisibleOfText(stops, ps);
        VisibleOfText(stops, qs);
      }
    } else {
      var stop, n: nat, i: nat :|
        stop in stops && n <= |stop| && StopAt(stops, stop[..n], i) && !StopAt(stops, stop[..n], 0);
      JoinOfSplit(stop, n);
      VisibleOfOne(stops, stop);
      VisibleOfHead(stops, stop, n, i);
      var split, whole := [stop[..n], stop[n..]], [stop];
      assert Join(split) == Join(whole) && Visible(stops, split) != Visible(stops, whole);
    }
  }

  lemma JoinOfSplit(text: string, n: nat)
    requires n <= |text|
    ensures Join([text]) == text == Join([text[..n], text[n..]])
  {
    assert [text[..n], text[n..]][1..] == [text[n..]];
    assert Join([text[n..]]) == text[n..];
  }

  lemma VisibleOfOne(stops: seq<string>, stop: string)
    requires stop in stops
    ensures Visible(stops, [stop]) == ""
  {
    assert OccursAt(stop, stop, 0);
    assert "" + stop == stop;
    assert EarliestStop(stops, stop) == Some(0);
  }

  lemma VisibleOfHead(stops: seq<string>, stop: string, n: nat, i: nat)
    requires n <= |stop| && StopAt(stops, stop[..n], i) && !StopAt(stops, stop[..n], 0)
    ensures Visible(stops, [stop[..n], stop[n..]]) != ""
  {
    var head := stop[..n];
    assert "" + head == head;
    var inner :| inner in stops && OccursAt(head, inner, i);
    var r := EarliestStop(stops, head);
    assert r.Some? && r.value != 0;
    assert Visible(stops, [head, stop[n..]]) == head[..r.value];
  }

  lemma VisibleOfText(stops: seq<string>, pieces: seq<string>)
    requires PrefixCovered(stops)
    ensures Visible(stops, pieces) == CutAtStop(stops, Join(pieces))
  {
    if pieces != [] {
      VisibleIsWholeTextSearch(stops, pieces, "");
      assert "" + Join(pieces) == Join(pieces);
    }
  }

  // In particular when no stop contains another.
  lemma NoNestingIsCovered(stops: seq<string>)
    requires forall a, b, i: nat :: a in stops && b in stops && a != b ==> !OccursAt(a, b, i)
    ensures PrefixCovered(stops)
  {
    forall stop, n: nat, i: nat | stop in stops && n <= |stop| && StopAt(stops, stop[..n], i)
      ensures StopAt(stops, stop[..n], 0)
    {
      var inner :| inner in stops && OccursAt(stop[..n], inner, i);
      assert stop[i..i + |inner|] == stop[..n][i..i + |inner|];
      assert OccursAt(stop, inner, i);
      assert inner == stop && i == 0;
    }
  }
}
