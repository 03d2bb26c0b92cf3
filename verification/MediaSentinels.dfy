// Image sentinels in a rendered prompt: each is checked and replaced by the media marker, in an
// order that is remembered.  The rewriting can be undone.
module MediaSentinels {
  import opened Wrappers
  import opened Collections
  import opened StopSearch

  const MARKER := "<__orchion_media__>"
  const SENTINEL_PREFIX := "<__orchion_media_"
  const SENTINEL_SUFFIX := "__>"
  const INDEX_WIDTH := 8

  datatype RenderError =
    | MarkerCollision | MalformedSentinel | ExtraSentinel(index: nat) | DuplicateSentinel(index: nat)
    | MissingSentinel(index: nat)

  ghost predicate Contains(text: string, pattern: string) {
    exists i: nat :: OccursAt(text, pattern, i)
  }

  // ----- Eight-digit indices -----

  predicate IsDigit(c: char) {
    '0' <= c <= '9'
  }

  predicate AllDigits(s: string) {
    forall i :: 0 <= i < |s| ==> IsDigit(s[i])
  }

  function DigitOf(n: nat): (c: char)
    requires n < 10
    ensures IsDigit(c) && DigitValue(c) == n
  {
    '0' + n as char
  }

  function DigitValue(c: char): nat
    requires IsDigit(c)
  {
    (c - '0') as int
  }

  function Number(s: string): nat
    requires AllDigits(s)
  {
    if s == "" then 0 else Number(s[..|s| - 1]) * 10 + DigitValue(s[|s| - 1])
  }

  function Padded(n: nat, width: nat): string {
    if width == 0 then "" else Padded(n / 10, width - 1) + [DigitOf(n % 10)]
  }

  function Pow10(n: nat): nat {
    if n == 0 then 1 else 10 * Pow10(n - 1)
  }

  lemma {:induction false} PaddedDigits(n: nat, width: nat)
    ensures |Padded(n, width)| == width && AllDigits(Padded(n, width))
    ensures n < Pow10(width) ==> Number(Padded(n, width)) == n
  {
    if width > 0 {
      PaddedDigits(n / 10, width - 1);
      var s := Padded(n, width);
      assert s[..|s| - 1] == Padded(n / 10, width - 1);
    }
  }

  lemma {:induction false} NumberPadded(s: string)
    requires AllDigits(s)
    ensures Padded(Number(s), |s|) == s && Number(s) < Pow10(|s|)
  {
    if s != "" {
      var front, d := s[..|s| - 1], DigitValue(s[|s| - 1]);
      NumberPadded(front);
      assert Number(s) / 10 == Number(front) && Number(s) % 10 == d;
      assert DigitOf(d) == s[|s| - 1];
      assert s == front + [s[|s| - 1]];
    }
  }

  // Digits are read from the left, each worth ten of the next.
  lemma NumberAppends(s: string, c: char)
    requires AllDigits(s) && IsDigit(c)
    ensures AllDigits(s + [c]) && Number(s + [c]) == 10 * Number(s) + DigitValue(c)
  {
    assert (s + [c])[..|s|] == s;
  }

  function Sentinel(index: nat): string {
    SENTINEL_PREFIX + Padded(index, INDEX_WIDTH) + SENTINEL_SUFFIX
  }

  // ----- Prompts as text chunks around sentinels -----

  datatype Prompt = Prompt(chunks: seq<string>, order: seq<nat>)

  ghost predicate WellFormed(p: Prompt) {
    && |p.chunks| == |p.order| + 1
    && (forall i :: 0 <= i < |p.chunks| ==> !Contains(p.chunks[i], SENTINEL_PREFIX))
    && (forall i :: 0 <= i < |p.order| ==> p.order[i] < Pow10(INDEX_WIDTH))
  }

  function Between(p: Prompt): Prompt
    requires |p.chunks| == |p.order| + 1 && p.order != []
  {
    Prompt(p.chunks[1..], p.order[1..])
  }

  // With the sentinels in place, and with markers instead.
  function Rendered(p: Prompt): string
    requires |p.chunks| == |p.order| + 1
    decreases |p.order|
  {
    if p.order == [] then p.chunks[0] else p.chunks[0] + (Sentinel(p.order[0]) + Rendered(Between(p)))
  }

  function Marked(p: Prompt): string
    requires |p.chunks| == |p.order| + 1
    decreases |p.order|
  {
    if p.order == [] then p.chunks[0] else p.chunks[0] + (MARKER + Marked(Between(p)))
  }

  // ----- Where the patterns can occur -----

  lemma AngleOpensPrefix(k: nat)
    requires k < |SENTINEL_PREFIX|
    ensures SENTINEL_PREFIX[k] == '<' <==> k == 0
  {
  }

  lemma MarkerBeginsWithPrefix(text: string, i: nat)
    requires OccursAt(text, MARKER, i)
    ensures OccursAt(text, SENTINEL_PREFIX, i)
  {
    assert MARKER[..|SENTINEL_PREFIX|] == SENTINEL_PREFIX;
    assert text[i..i + |SENTINEL_PREFIX|] == text[i..i + |MARKER|][..|SENTINEL_PREFIX|];
  }

  // No pattern straddles the end of a chunk: only its first character is an angle.
  lemma NothingStraddles(chunk: string, rest: string, i: nat)
    requires !Contains(chunk, SENTINEL_PREFIX)
    requires rest != "" ==> rest[0] == '<'
    requires i < |chunk|
    ensures !OccursAt(chunk + rest, SENTINEL_PREFIX, i)
  {
    var text, n := chunk + rest, |SENTINEL_PREFIX|;
    if OccursAt(text, SENTINEL_PREFIX, i) {
      if i + n <= |chunk| {
        assert chunk[i..i + n] == text[i..i + n];
        assert OccursAt(chunk, SENTINEL_PREFIX, i);
      } else {
        var k := |chunk| - i;
        assert text[i..i + n][k] == rest[0];
        AngleOpensPrefix(k);
      }
    }
  }

  predicate OpensWithPrefix(pattern: string) {
    pattern == SENTINEL_PREFIX || pattern == MARKER
  }

  lemma NothingInChunk(chunk: string, pattern: string, rest: string, i: nat)
    requires !Contains(chunk, SENTINEL_PREFIX) && OpensWithPrefix(pattern)
    requires rest != "" ==> rest[0] == '<'
    requires i < |chunk|
    ensures !OccursAt(chunk + rest, pattern, i)
  {
    NothingStraddles(chunk, rest, i);
    if OccursAt(chunk + rest, pattern, i) && pattern == MARKER {
      MarkerBeginsWithPrefix(chunk + rest, i);
    }
  }

  lemma OccursThere(chunk: string, pattern: string, rest: string)
    requires pattern <= rest
    ensures OccursAt(chunk + rest, pattern, |chunk|)
  {
  }

  lemma FindAfterChunk(chunk: string, pattern: string, rest: string)
    requires !Contains(chunk, SENTINEL_PREFIX) && OpensWithPrefix(pattern)
    requires pattern <= rest && rest != "" && rest[0] == '<'
    ensures Find(chunk + rest, pattern) == Some(|chunk|)
  {
    OccursThere(chunk, pattern, rest);
    forall i: nat | i < |chunk|
      ensures !OccursAt(chunk + rest, pattern, i)
    {
      NothingInChunk(chunk, pattern, rest, i);
    }
    FindIs(chunk + rest, pattern, |chunk|);
  }

  lemma FindIs(text: string, pattern: string, at: nat)
    requires OccursAt(text, pattern, at)
    requires forall i: nat :: i < at ==> !OccursAt(text, pattern, i)
    ensures Find(text, pattern) == Some(at)
  {
  }

  lemma FindNothing(chunk: string, pattern: string)
    requires !Contains(chunk, SENTINEL_PREFIX) && OpensWithPrefix(pattern)
    ensures Find(chunk, pattern) == None
  {
    var r := Find(chunk, pattern);
    if r.Some? && pattern == MARKER {
      MarkerBeginsWithPrefix(chunk, r.value);
    }
  }

  // ----- Markers in the rewritten prompt -----

  // Non-overlapping matches, as the image projector counts them.
  function MarkerCount(text: string): nat
    decreases |text|
  {
    match Find(text, MARKER)
    case None => 0
    case Some(i) => 1 + MarkerCount(text[i + |MARKER|..])
  }

  // Puts the sentinels back, one marker after the other.
  function Restored(text: string, order: seq<nat>): string
    decreases |order|
  {
    match Find(text, MARKER)
    case None => text
    case Some(i) =>
      if order == [] then text
      else text[..i] + (Sentinel(order[0]) + Restored(text[i + |MARKER|..], order[1..]))
  }

  // Rewriting neither hides nor invents a marker, and can be undone.
  lemma {:induction false} MarkedIsInvertible(p: Prompt)
    requires WellFormed(p)
    ensures MarkerCount(Marked(p)) == |p.order|
    ensures Restored(Marked(p), p.order) == Rendered(p)
    decreases |p.order|
  {
    if p.order == [] {
      FindNothing(p.chunks[0], MARKER);
    } else {
      BetweenIsRest(p);
      MarkedIsInvertible(Between(p));
      FindAfterChunk(p.chunks[0], MARKER, MARKER + Marked(Between(p)));
      Cut(p.chunks[0], MARKER, Marked(Between(p)));
    }
  }

  // ----- Reading the sentinels -----

  function Parse(text: string): Option<Prompt>
    decreases |text|
  {
    match Find(text, SENTINEL_PREFIX)
    case None => Some(Prompt([text], []))
    case Some(i) =>
      var sentinel := text[i + |SENTINEL_PREFIX|..];
      match Find(sentinel, SENTINEL_SUFFIX)
      case None => None
      case Some(end) =>
        if end != INDEX_WIDTH || !AllDigits(sentinel[..end]) then None
        else
          match Parse(sentinel[end + |SENTINEL_SUFFIX|..])
          case None => None
          case Some(p) => Some(Prompt([text[..i]] + p.chunks, [Number(sentinel[..end])] + p.order))
  }

  lemma SuffixAfterDigits(digits: string, rest: string)
    requires AllDigits(digits) && SENTINEL_SUFFIX <= rest
    ensures Find(digits + rest, SENTINEL_SUFFIX) == Some(|digits|)
  {
    OccursThere(digits, SENTINEL_SUFFIX, rest);
    forall i: nat | i < |digits|
      ensures !OccursAt(digits + rest, SENTINEL_SUFFIX, i)
    {
      DigitIsNoSuffix(digits + rest, i);
    }
    FindIs(digits + rest, SENTINEL_SUFFIX, |digits|);
  }

  lemma DigitIsNoSuffix(text: string, i: nat)
    requires i < |text| && IsDigit(text[i])
    ensures !OccursAt(text, SENTINEL_SUFFIX, i)
  {
  }

  lemma Cut(a: string, b: string, c: string)
    ensures (a + (b + c))[..|a|] == a && (a + (b + c))[|a| + |b|..] == c
  {
  }

  lemma SentinelParts(index: nat, tail: string)
    ensures Sentinel(index) + tail == SENTINEL_PREFIX + (Padded(index, INDEX_WIDTH) + (SENTINEL_SUFFIX + tail))
  {
  }

  lemma ParseOne(chunk: string, index: nat, tail: string)
    requires !Contains(chunk, SENTINEL_PREFIX) && index < Pow10(INDEX_WIDTH)
    requires Parse(tail).Some?
    ensures Parse(chunk + (Sentinel(index) + tail)) ==
      Some(Prompt([chunk] + Parse(tail).value.chunks, [index] + Parse(tail).value.order))
  {
    var digits := Padded(index, INDEX_WIDTH);
    var sentinel := digits + (SENTINEL_SUFFIX + tail);
    PaddedDigits(index, INDEX_WIDTH);
    SentinelParts(index, tail);
    FindAfterChunk(chunk, SENTINEL_PREFIX, SENTINEL_PREFIX + sentinel);
    Cut(chunk, SENTINEL_PREFIX, sentinel);
    SuffixAfterDigits(digits, SENTINEL_SUFFIX + tail);
    Cut(digits, SENTINEL_SUFFIX, tail);
  }

  // Reading a rendered prompt gives back its chunks and indices.
  lemma {:induction false} ParseRendered(p: Prompt)
    requires WellFormed(p)
    ensures Parse(Rendered(p)) == Some(p)
    decreases |p.order|
  {
    if p.order == [] {
      FindNothing(p.chunks[0], SENTINEL_PREFIX);
      assert p == Prompt([p.chunks[0]], []);
    } else {
      BetweenIsRest(p);
      ParseRendered(Between(p));
      ParseOne(p.chunks[0], p.order[0], Rendered(Between(p)));
    }
  }

  lemma BetweenIsRest(p: Prompt)
    requires WellFormed(p) && p.order != []
    ensures WellFormed(Between(p))
    ensures Prompt([p.chunks[0]] + Between(p).chunks, [p.order[0]] + Between(p).order) == p
  {
  }

  lemma TextParts(text: string, i: nat, end: nat)
    requires OccursAt(text, SENTINEL_PREFIX, i)
    requires OccursAt(text[i + |SENTINEL_PREFIX|..], SENTINEL_SUFFIX, end)
    ensures var sentinel := text[i + |SENTINEL_PREFIX|..];
      text == text[..i] +
        (SENTINEL_PREFIX + (sentinel[..end] + (SENTINEL_SUFFIX + sentinel[end + |SENTINEL_SUFFIX|..])))
  {
  }

  // What is read is what was there.
  lemma {:induction false} ParseIsExact(text: string)
    requires Parse(text).Some?
    ensures WellFormed(Parse(text).value)
    ensures Rendered(Parse(text).value) == text
    decreases |text|
  {
    var found := Find(text, SENTINEL_PREFIX);
    if found.Some? {
      var sentinel := text[found.value + |SENTINEL_PREFIX|..];
      var digits, tail := sentinel[..INDEX_WIDTH], sentinel[INDEX_WIDTH + |SENTINEL_SUFFIX|..];
      ParseIsExact(tail);
      ChunkBeforeFirst(text, found.value);
      NumberPadded(digits);
      TextParts(text, found.value, INDEX_WIDTH);
      ExactStep(text[..found.value], digits, tail, Parse(tail).value);
    }
  }

  lemma ExactStep(chunk: string, digits: string, tail: string, rest: Prompt)
    requires WellFormed(rest) && Rendered(rest) == tail
    requires !Contains(chunk, SENTINEL_PREFIX)
    requires |digits| == INDEX_WIDTH && AllDigits(digits)
    requires Number(digits) < Pow10(INDEX_WIDTH) && Padded(Number(digits), INDEX_WIDTH) == digits
    ensures var p := Prompt([chunk] + rest.chunks, [Number(digits)] + rest.order);
      && WellFormed(p)
      && Rendered(p) == chunk + (SENTINEL_PREFIX + (digits + (SENTINEL_SUFFIX + tail)))
  {
    var p := Prompt([chunk] + rest.chunks, [Number(digits)] + rest.order);
    assert Between(p) == rest;
    WellFormedCons(p);
    SentinelParts(Number(digits), tail);
  }

  lemma ChunkBeforeFirst(text: string, i: nat)
    requires Find(text, SENTINEL_PREFIX) == Some(i)
    ensures !Contains(text[..i], SENTINEL_PREFIX)
  {
    forall j: nat
      ensures !OccursAt(text[..i], SENTINEL_PREFIX, j)
    {
      if OccursAt(text[..i], SENTINEL_PREFIX, j) {
        assert text[j..j + |SENTINEL_PREFIX|] == text[..i][j..j + |SENTINEL_PREFIX|];
        assert OccursAt(text, SENTINEL_PREFIX, j);
      }
    }
  }

  lemma WellFormedCons(p: Prompt)
    requires |p.chunks| == |p.order| + 1 && p.order != [] && WellFormed(Between(p))
    requires !Contains(p.chunks[0], SENTINEL_PREFIX) && p.order[0] < Pow10(INDEX_WIDTH)
    ensures WellFormed(p)
  {
  }

  // ----- Checking and rewriting a prompt -----

  ghost predicate IsPermutation(order: seq<nat>, n: nat) {
    && (forall i :: 0 <= i < |order| ==> order[i] < n)
    && (forall i, j :: 0 <= i < j < |order| ==> order[i] != order[j])
    && (forall k: nat :: k < n ==> k in order)
  }

  lemma PermutationLength(order: seq<nat>, n: nat)
    requires IsPermutation(order, n)
    ensures |order| == n
  {
    UpTo(n);
    DistinctCounts(order);
    assert Elements(order) == Below(n);
  }

  function Below(n: nat): set<nat> {
    if n == 0 then {} else Below(n - 1) + {n - 1}
  }

  lemma {:induction false} UpTo(n: nat)
    ensures |Below(n)| == n
    ensures forall k: nat :: k in Below(n) <==> k < n
  {
    if n > 0 {
      UpTo(n - 1);
    }
  }

  // A prompt the check should accept: no marker yet, and each image's sentinel exactly once.
  ghost predicate WellRendered(prompt: string, expected: nat, p: Prompt) {
    && !Contains(prompt, MARKER)
    && WellFormed(p)
    && IsPermutation(p.order, expected)
    && prompt == Rendered(p)
  }

  // On success the prompt with its sentinels replaced by markers, and the order of the images.
  method ValidateRenderedMedia(prompt: string, expected: nat) returns (r: Result<(string, seq<nat>), RenderError>)
    ensures r.Ok? <==> exists p :: WellRendered(prompt, expected, p)
    ensures r.Ok? ==>
      var (rendered, order) := r.value;
      && IsPermutation(order, expected) && |order| == expected
      && MarkerCount(rendered) == expected
      && Restored(rendered, order) == prompt
      && exists p :: WellRendered(prompt, expected, p) && order == p.order && rendered == Marked(p)
  {
    var order: seq<nat> := [];
    if Find(prompt, MARKER).Some? {
      return Err(MarkerCollision);
    }
    var rendered, remainder := "", prompt;
    var seen := seq(expected, _ => false);
    ghost var chunks: seq<string> := [];
    NothingPrepended(Parse(prompt));
    var offset := Find(remainder, SENTINEL_PREFIX);
    while offset.Some?
      invariant offset == Find(remainder, SENTINEL_PREFIX)
      invariant |chunks| == |order| && rendered == MarkedFront(chunks)
      invariant Parse(prompt) == Prepended(chunks, order, Parse(remainder))
      invariant Seen(seen, order, expected)
      decreases |remainder|
    {
      var sentinel := ReadSentinel(remainder, offset.value);
      if sentinel.None? {
        Rejected(prompt, expected);
        return Err(MalformedSentinel);
      }
      var (index, tail) := sentinel.value;
      var text := remainder[..offset.value];
      PrependedTwice(chunks, order, text, index, Parse(tail));
      if index >= expected || seen[index] {
        BadIndex(chunks + [text], order, index, Parse(tail), expected);
        Rejected(prompt, expected);
        return Err(if index >= expected then ExtraSentinel(index) else DuplicateSentinel(index));
      }
      SeenMore(seen, order, expected, index);
      MarkedFrontGrows(chunks, text);
      seen := seen[index := true];
      order := order + [index];
      chunks := chunks + [text];
      rendered := rendered + text + MARKER;
      remainder := tail;
      offset := Find(remainder, SENTINEL_PREFIX);
    }
    r := Conclude(prompt, expected, chunks, order, seen, rendered + remainder, remainder);
  }

  // Not a reading of sentinels that are a permutation of the images.
  ghost predicate Unacceptable(p: Option<Prompt>, expected: nat) {
    p.Some? ==> !IsPermutation(p.value.order, expected)
  }

  // Reads the sentinel at the offset, with the text after it.
  method ReadSentinel(text: string, offset: nat) returns (r: Option<(nat, string)>)
    requires Find(text, SENTINEL_PREFIX) == Some(offset)
    ensures r.None? ==> Parse(text).None?
    ensures r.Some? ==>
      && |r.value.1| < |text|
      && Parse(text) == Prepended([text[..offset]], [r.value.0], Parse(r.value.1))
  {
    var sentinel := text[offset + |SENTINEL_PREFIX|..];
    var end := Find(sentinel, SENTINEL_SUFFIX);
    if end.None? || end.value != INDEX_WIDTH || !AllDigits(sentinel[..end.value]) {
      return None;
    }
    r := Some((Number(sentinel[..end.value]), sentinel[end.value + |SENTINEL_SUFFIX|..]));
  }

  // No sentinel is left: all images must have been met.
  method Conclude(
    prompt: string, expected: nat, ghost chunks: seq<string>, order: seq<nat>, seen: seq<bool>, rendered: string,
    ghost last: string)
    returns (r: Result<(string, seq<nat>), RenderError>)
    requires Find(prompt, MARKER).None? && Find(last, SENTINEL_PREFIX).None?
    requires |chunks| == |order| && rendered == MarkedFront(chunks) + last
    requires Parse(prompt) == Prepended(chunks, order, Parse(last)) && Seen(seen, order, expected)
    ensures r.Ok? <==> exists p :: WellRendered(prompt, expected, p)
    ensures r.Ok? ==>
      && r.value == (rendered, order)
      && IsPermutation(order, expected) && |order| == expected
      && MarkerCount(rendered) == expected
      && Restored(rendered, order) == prompt
      && exists p :: WellRendered(prompt, expected, p) && order == p.order && rendered == Marked(p)
  {
    MarkedSplits(chunks, order, last);
    assert order + [] == order;
    var missing := FirstUnseen(seen, 0);
    if missing.Some? {
      Rejected(prompt, expected);
      return Err(MissingSentinel(missing.value));
    }
    AcceptedPrompt(prompt, expected, Prompt(chunks + [last], order));
    r := Ok((rendered, order));
  }

  function MarkedFront(chunks: seq<string>): string {
    if chunks == [] then "" else chunks[0] + (MARKER + MarkedFront(chunks[1..]))
  }

  lemma {:induction false} MarkedFrontGrows(chunks: seq<string>, text: string)
    ensures MarkedFront(chunks + [text]) == MarkedFront(chunks) + text + MARKER
  {
    if chunks == [] {
      assert [text][1..] == [] && chunks + [text] == [text];
    } else {
      MarkedFrontGrows(chunks[1..], text);
      assert (chunks + [text])[0] == chunks[0] && (chunks + [text])[1..] == chunks[1..] + [text];
      var front := MarkedFront(chunks[1..]);
      assert chunks[0] + (MARKER + (front + text + MARKER)) == chunks[0] + (MARKER + front) + text + MARKER;
    }
  }

  lemma {:induction false} MarkedSplits(chunks: seq<string>, order: seq<nat>, last: string)
    requires |chunks| == |order|
    ensures Marked(Prompt(chunks + [last], order)) == MarkedFront(chunks) + last
  {
    if chunks != [] {
      MarkedSplits(chunks[1..], order[1..], last);
      assert Between(Prompt(chunks + [last], order)) == Prompt(chunks[1..] + [last], order[1..]);
    }
  }

  function Prepended(chunks: seq<string>, order: seq<nat>, rest: Option<Prompt>): Option<Prompt> {
    if rest.None? then None else Some(Prompt(chunks + rest.value.chunks, order + rest.value.order))
  }

  lemma PrependedTwice(chunks: seq<string>, order: seq<nat>, text: string, index: nat, rest: Option<Prompt>)
    ensures Prepended(chunks, order, Prepended([text], [index], rest)) ==
      Prepended(chunks + [text], order + [index], rest)
  {
    if rest.Some? {
      assert chunks + ([text] + rest.value.chunks) == chunks + [text] + rest.value.chunks;
      assert order + ([index] + rest.value.order) == order + [index] + rest.value.order;
    }
  }

  lemma NothingPrepended(rest: Option<Prompt>)
    ensures Prepended([], [], rest) == rest
  {
    if rest.Some? {
      assert [] + rest.value.chunks == rest.value.chunks && [] + rest.value.order == rest.value.order;
    }
  }

  // The flags record which indices have been met, none of them twice.
  ghost predicate Seen(seen: seq<bool>, order: seq<nat>, expected: nat) {
    && |seen| == expected
    && (forall i :: 0 <= i < |order| ==> order[i] < expected)
    && (forall i, j :: 0 <= i < j < |order| ==> order[i] != order[j])
    && (forall k: nat :: k < expected ==> (seen[k] <==> k in order))
  }

  lemma SeenMore(seen: seq<bool>, order: seq<nat>, expected: nat, index: nat)
    requires Seen(seen, order, expected) && index < expected && !seen[index]
    ensures Seen(seen[index := true], order + [index], expected)
  {
  }

  function FirstUnseen(seen: seq<bool>, from: nat): (r: Option<nat>)
    requires from <= |seen|
    ensures r.Some? ==> r.value < |seen| && !seen[r.value]
    ensures r.None? ==> forall k :: from <= k < |seen| ==> seen[k]
    decreases |seen| - from
  {
    if from == |seen| then None
    else if !seen[from] then Some(from)
    else FirstUnseen(seen, from + 1)
  }

  lemma BadIndex(chunks: seq<string>, order: seq<nat>, index: nat, rest: Option<Prompt>, expected: nat)
    requires index >= expected || index in order
    ensures Unacceptable(Prepended(chunks, order + [index], rest), expected)
  {
    if rest.Some? {
      var all := order + [index] + rest.value.order;
      assert all[|order|] == index;
      if index in order {
        var i :| 0 <= i < |order| && order[i] == index;
        assert all[i] == index;
      }
    }
  }

  lemma Rejected(prompt: string, expected: nat)
    requires Unacceptable(Parse(prompt), expected)
    ensures forall p :: !WellRendered(prompt, expected, p)
  {
    forall p
      ensures !WellRendered(prompt, expected, p)
    {
      if WellRendered(prompt, expected, p) {
        ParseRendered(p);
      }
    }
  }

  lemma AcceptedPrompt(prompt: string, expected: nat, p: Prompt)
    requires Find(prompt, MARKER).None? && Parse(prompt) == Some(p) && IsPermutation(p.order, expected)
    ensures WellRendered(prompt, expected, p)
    ensures |p.order| == expected
    ensures MarkerCount(Marked(p)) == expected
    ensures Restored(Marked(p), p.order) == prompt
  {
    ParseIsExact(prompt);
    PermutationLength(p.order, expected);
    MarkedIsInvertible(p);
  }
}
