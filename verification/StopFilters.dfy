// The streaming stop filter: one path for plain text, one for tokens with log probabilities.
//
// Positions count characters.  The program counts UTF-8 bytes, but only ever cuts at the start of
// a stop, at the end of a stop prefix or at a token boundary, all of which are character boundaries.
module StopFilters {
  import opened Wrappers
  import opened StopSearch

  // The bytes reported with a token: those of its vocabulary entry, or the encoding of a text.
  datatype Bytes = Vocabulary(raw: seq<int>) | Utf8(text: string)

  // A likely alternative to the sampled token, with its log probability.
  datatype Alternative = Alternative(raw: seq<int>, logprob: real)

  datatype Token = Token(piece: string, bytes: Bytes, logprob: real, alternatives: seq<Alternative>)

  // A token as it is emitted: its bytes are those of the text shown.
  function Shown(token: Token, text: string): Token {
    token.(piece := text, bytes := Utf8(text))
  }

  function Text(tokens: seq<Token>): string {
    if tokens == [] then "" else tokens[0].piece + Text(tokens[1..])
  }

  lemma {:induction false} TextOfConcat(a: seq<Token>, b: seq<Token>)
    ensures Text(a + b) == Text(a) + Text(b)
  {
    if a == [] {
      assert a + b == b;
    } else {
      TextOfConcat(a[1..], b);
      assert (a + b)[0] == a[0] && (a + b)[1..] == a[1..] + b;
      Regrouped(a[0].piece, Text(a[1..]), Text(b), Text(a[1..] + b));
    }
  }

  function NonEmpty(tokens: seq<Token>): seq<Token> {
    if tokens == [] then []
    else if tokens[0].piece == "" then NonEmpty(tokens[1..])
    else [tokens[0]] + NonEmpty(tokens[1..])
  }

  // The non-empty tokens as they are emitted in full.
  function Shows(tokens: seq<Token>): seq<Token> {
    if tokens == [] then []
    else if tokens[0].piece == "" then Shows(tokens[1..])
    else [Shown(tokens[0], tokens[0].piece)] + Shows(tokens[1..])
  }

  lemma {:induction false} ShowsAreNonEmpty(tokens: seq<Token>)
    ensures |Shows(tokens)| == |NonEmpty(tokens)|
    ensures forall i :: 0 <= i < |Shows(tokens)| ==>
      && NonEmpty(tokens)[i].piece != ""
      && ShowsPart(Shows(tokens)[i], NonEmpty(tokens)[i])
      && Shows(tokens)[i].piece == NonEmpty(tokens)[i].piece
  {
    if tokens != [] {
      ShowsAreNonEmpty(tokens[1..]);
    }
  }

  lemma {:induction false} ShowsOfConcat(a: seq<Token>, b: seq<Token>)
    ensures Shows(a + b) == Shows(a) + Shows(b)
  {
    if a == [] {
      assert a + b == b;
    } else {
      ShowsOfConcat(a[1..], b);
      assert (a + b)[0] == a[0] && (a + b)[1..] == a[1..] + b;
      Regrouped([Shown(a[0], a[0].piece)], Shows(a[1..]), Shows(b), Shows(a[1..] + b));
    }
  }

  // An emitted token: a start of the pushed one's text, the bytes of that text, and the log
  // probabilities it was pushed with.
  ghost predicate ShowsPart(output: Token, token: Token) {
    && output.piece != ""
    && output.piece <= token.piece
    && output.bytes == Utf8(output.piece)
    && output.logprob == token.logprob
    && output.alternatives == token.alternatives
  }

  // Output tokens are the non-empty ones of `tokens` in order; the last may be cut short and later
  // ones may be missing.
  ghost predicate ShownUpTo(output: seq<Token>, tokens: seq<Token>) {
    var all := NonEmpty(tokens);
    && |output| <= |all|
    && (forall i :: 0 <= i < |output| ==> ShowsPart(output[i], all[i]))
    && (forall i :: 0 <= i < |output| - 1 ==> output[i].piece == all[i].piece)
  }

  // Output tokens are the first non-empty ones of `tokens`, all in full.
  ghost predicate ShownInFull(output: seq<Token>, tokens: seq<Token>) {
    var all := NonEmpty(tokens);
    && |output| <= |all|
    && forall i :: 0 <= i < |output| ==> ShowsPart(output[i], all[i]) && output[i].piece == all[i].piece
  }

  // Nothing but empty tokens is left out, and the order stays.
  lemma {:induction false} NonEmptyExact(tokens: seq<Token>, token: Token)
    ensures multiset(NonEmpty(tokens))[token] == if token.piece == "" then 0 else multiset(tokens)[token]
  {
    if tokens != [] {
      NonEmptyExact(tokens[1..], token);
      assert tokens == [tokens[0]] + tokens[1..];
    }
  }

  // ----- Taking the first characters off a token queue -----

  function Emit(tokens: seq<Token>, limit: nat, includePartial: bool): seq<Token> {
    if tokens == [] then []
    else
      var piece := tokens[0].piece;
      if piece == "" then Emit(tokens[1..], limit, includePartial)
      else if |piece| <= limit
      then [Shown(tokens[0], piece)] + Emit(tokens[1..], limit - |piece|, includePartial)
      else if includePartial && limit > 0 then [Shown(tokens[0], piece[..limit])]
      else []
  }

  function Keep(tokens: seq<Token>, limit: nat, includePartial: bool): seq<Token> {
    if tokens == [] then []
    else
      var piece := tokens[0].piece;
      if piece == "" then Keep(tokens[1..], limit, includePartial)
      else if |piece| <= limit then Keep(tokens[1..], limit - |piece|, includePartial)
      else if includePartial && limit > 0 then tokens[1..]
      else tokens
  }

  // Cutting inside a token shows exactly the first `limit` characters.
  lemma {:induction false} EmitCuts(tokens: seq<Token>, limit: nat)
    requires limit <= |Text(tokens)|
    ensures Text(Emit(tokens, limit, true)) == Text(tokens)[..limit]
    ensures limit == |Text(tokens)| ==> Keep(tokens, limit, true) == []
  {
    if tokens != [] {
      var piece, rest := tokens[0].piece, tokens[1..];
      if |piece| <= limit {
        EmitCuts(rest, limit - |piece|);
        assert Text(tokens)[..limit] == piece + Text(rest)[..limit - |piece|];
      } else if limit > 0 {
        assert Text([Shown(tokens[0], piece[..limit])]) == piece[..limit];
      }
    }
  }

  lemma {:induction false} EmitIsShown(tokens: seq<Token>, limit: nat)
    ensures ShownUpTo(Emit(tokens, limit, true), tokens)
  {
    if tokens != [] && |tokens[0].piece| <= limit {
      EmitIsShown(tokens[1..], limit - |tokens[0].piece|);
    }
  }

  // Keeping tokens whole splits the queue: nothing is lost, and the next token does not fit.
  lemma {:induction false} EmitSplits(tokens: seq<Token>, limit: nat)
    requires limit <= |Text(tokens)|
    ensures var output, kept := Emit(tokens, limit, false), Keep(tokens, limit, false);
      && Text(output) + Text(kept) == Text(tokens)
      && |Text(output)| <= limit
      && (kept != [] ==> |Text(output)| + |kept[0].piece| > limit)
  {
    if tokens != [] {
      var piece, rest := tokens[0].piece, tokens[1..];
      if |piece| <= limit {
        EmitSplits(rest, limit - |piece|);
        var output, kept := Emit(rest, limit - |piece|, false), Keep(rest, limit - |piece|, false);
        Regrouped(piece, Text(output), Text(kept), Text(rest));
      }
    }
  }

  lemma {:induction false} EmitKeepsTokens(tokens: seq<Token>, limit: nat)
    ensures Emit(tokens, limit, false) + Shows(Keep(tokens, limit, false)) == Shows(tokens)
  {
    if tokens != [] && |tokens[0].piece| <= limit {
      EmitKeepsTokens(tokens[1..], limit - |tokens[0].piece|);
    }
  }

  function Appended(output: seq<Token>, token: Token, text: string): (r: seq<Token>)
    ensures Text(r) == Text(output) + text
  {
    TextOfConcat(output, [Shown(token, text)]);
    assert Text([Shown(token, text)]) == text;
    output + [Shown(token, text)]
  }

  // Part of the queue has been taken; taking the rest of the limit from what is left completes it.
  ghost predicate Taking(
    all: seq<Token>, limit: nat, includePartial: bool, output: seq<Token>, consumed: nat, left: seq<Token>) {
    && consumed <= limit
    && output + Emit(left, limit - consumed, includePartial) == Emit(all, limit, includePartial)
    && Keep(left, limit - consumed, includePartial) == Keep(all, limit, includePartial)
  }

  lemma TakeOne(all: seq<Token>, limit: nat, includePartial: bool, output: seq<Token>, consumed: nat, left: seq<Token>)
    requires Taking(all, limit, includePartial, output, consumed, left) && left != []
    ensures var token, rest := left[0], left[1..];
      if token.piece == "" then Taking(all, limit, includePartial, output, consumed, rest)
      else if consumed + |token.piece| <= limit
      then Taking(all, limit, includePartial, Appended(output, token, token.piece), consumed + |token.piece|, rest)
      else if includePartial && consumed < limit
      then
        && Appended(output, token, token.piece[..limit - consumed]) == Emit(all, limit, includePartial)
        && rest == Keep(all, limit, includePartial)
      else
        && output == Emit(all, limit, includePartial)
        && [token] + rest == Keep(all, limit, includePartial)
  {
  }

  lemma {:induction false} NonEmptyOfConcat(a: seq<Token>, b: seq<Token>)
    ensures NonEmpty(a + b) == NonEmpty(a) + NonEmpty(b)
  {
    if a == [] {
      assert a + b == b;
    } else {
      NonEmptyOfConcat(a[1..], b);
      assert (a + b)[0] == a[0] && (a + b)[1..] == a[1..] + b;
      Regrouped([a[0]], NonEmpty(a[1..]), NonEmpty(b), NonEmpty(a[1..] + b));
    }
  }

  lemma ShownUpToLonger(output: seq<Token>, tokens: seq<Token>, k: nat)
    requires k <= |tokens| && ShownUpTo(output, tokens[..k])
    ensures ShownUpTo(output, tokens)
  {
    NonEmptyOfConcat(tokens[..k], tokens[k..]);
    assert tokens[..k] + tokens[k..] == tokens;
  }

  lemma Queued(released: seq<Token>, queue: seq<Token>, pushed: seq<Token>, token: Token)
    requires released + Shows(queue) == Shows(pushed)
    ensures Text(queue + [token]) == Text(queue) + token.piece
    ensures released + Shows(queue + [token]) == Shows(pushed + [token])
  {
    TextOfConcat(queue, [token]);
    ShowsOfConcat(queue, [token]);
    ShowsOfConcat(pushed, [token]);
    assert released + Shows(queue + [token]) == (released + Shows(queue)) + Shows([token]);
  }

  // Tokens shown in full, followed by tokens cut short.
  lemma ShownAfterFull(released: seq<Token>, output: seq<Token>, queue: seq<Token>, pushed: seq<Token>)
    requires released + Shows(queue) == Shows(pushed)
    requires ShownUpTo(output, queue)
    ensures ShownUpTo(released + output, pushed)
  {
    ShowsAreNonEmpty(queue);
    ShowsAreNonEmpty(pushed);
    var all, sum := NonEmpty(pushed), released + output;
    forall i | 0 <= i < |sum|
      ensures ShowsPart(sum[i], all[i]) && (i < |sum| - 1 ==> sum[i].piece == all[i].piece)
    {
      NextShown(released, queue, pushed, i);
    }
  }

  lemma NextShown(released: seq<Token>, queue: seq<Token>, pushed: seq<Token>, i: nat)
    requires released + Shows(queue) == Shows(pushed) && i < |Shows(pushed)|
    ensures i < |NonEmpty(pushed)| == |released| + |NonEmpty(queue)|
    ensures i < |released| ==>
      ShowsPart(released[i], NonEmpty(pushed)[i]) && released[i].piece == NonEmpty(pushed)[i].piece
    ensures i >= |released| ==>
      var token, from := NonEmpty(pushed)[i], NonEmpty(queue)[i - |released|];
      token.piece == from.piece && token.logprob == from.logprob && token.alternatives == from.alternatives
  {
    ShowsAreNonEmpty(queue);
    ShowsAreNonEmpty(pushed);
    assert Shows(pushed)[i] == if i < |released| then released[i] else Shows(queue)[i - |released|];
  }

  lemma ReleasedInFull(released: seq<Token>, queue: seq<Token>, pushed: seq<Token>)
    requires released + Shows(queue) == Shows(pushed)
    ensures ShownInFull(released, pushed)
  {
    ShowsAreNonEmpty(queue);
    ShowsAreNonEmpty(pushed);
    forall i | 0 <= i < |released|
      ensures ShowsPart(released[i], NonEmpty(pushed)[i]) && released[i].piece == NonEmpty(pushed)[i].piece
    {
      NextShown(released, queue, pushed, i);
    }
  }

  class StopFilter {
    const stops: seq<string>
    var pending: string
    var pendingTokens: seq<Token>

    // The text pushed and shown since the filter was created, flushed or stopped.
    ghost var seen: string
    ghost var shown: string
    // The tokens pushed since then, and the ones shown.
    ghost var pushed: seq<Token>
    ghost var released: seq<Token>

    constructor (stops: seq<string>)
      ensures Valid() && TokensValid() && this.stops == stops
      ensures seen == shown == "" && pushed == released == []
    {
      this.stops := stops;
      pending, pendingTokens := "", [];
      seen, shown, pushed, released := "", "", [], [];
    }

    // Nothing is lost or shown twice, and nothing shown can turn out to begin a stop.
    ghost predicate Valid()
      reads this
    {
      && seen == shown + pending
      && Safe(stops, seen, |shown|)
    }

    // The token queue spells the pending text, and the other non-empty tokens were shown in full.
    ghost predicate TokensValid()
      reads this
    {
      && Text(pendingTokens) == pending
      && released + Shows(pendingTokens) == Shows(pushed)
    }

    ghost method Forget()
      modifies `seen, `shown, `pushed, `released
      ensures seen == shown == "" && pushed == released == []
    {
      seen, shown, pushed, released := "", "", [], [];
    }

    method TakePrefix(n: nat) returns (output: Option<string>)
      requires n <= |pending|
      modifies `pending
      ensures OutputText(output) == old(pending)[..n] && pending == old(pending)[n..]
      ensures output.None? <==> n == 0
    {
      if n == 0 {
        return None;
      }
      output := Some(pending[..n]);
      pending := pending[n..];
    }

    // Stops at the first piece after which the text holds a stop, and then shows the text up to
    // the earliest one.  Until then it withholds the shortest suffix that could begin a stop.
    method PushPiece(piece: string) returns (stopped: bool, output: Option<string>)
      requires Valid()
      modifies this
      ensures Valid()
      ensures stopped <==> EarliestStop(stops, old(seen) + piece).Some?
      ensures stopped ==>
        && old(shown) + OutputText(output) == (old(seen) + piece)[..EarliestStop(stops, old(seen) + piece).value]
        && pending == "" && seen == shown == ""
      ensures !stopped ==>
        && seen == old(seen) + piece
        && shown == old(shown) + OutputText(output)
        && (pending != "" ==> !Safe(stops, seen, |shown| + 1))
    {
      pending := pending + piece;
      seen := seen + piece;
      Searched(stops, shown, old(pending), piece);
      assert seen == shown + pending;
      var index := EarliestStop(stops, pending);
      if index.Some? {
        output := TakePrefix(index.value);
        pending := "";
        Forget();
        return true, output;
      }
      output := Release();
      stopped := false;
    }

    // Shows all pending text that cannot begin a stop.
    method Release() returns (output: Option<string>)
      requires Valid() && EarliestStop(stops, pending).None?
      modifies `pending, `shown
      ensures Valid() && shown == old(shown) + OutputText(output)
      ensures pending != "" ==> !Safe(stops, seen, |shown| + 1)
    {
      var n := |pending| - LongestStopPrefixSuffix(pending, stops);
      Releasable(stops, shown, pending);
      Regrouped(shown, pending[..n], pending[n..], pending);
      output := TakePrefix(n);
      shown := shown + OutputText(output);
    }

    // The end of the stream: what was withheld is shown.
    method TakeFlush() returns (output: Option<string>)
      requires Valid()
      modifies this
      ensures Valid() && pending == "" && seen == shown == ""
      ensures old(shown) + OutputText(output) == old(seen)
    {
      output := TakePrefix(|pending|);
      Forget();
    }

    method TakeTokenPrefix(limit: nat, includePartial: bool) returns (output: seq<Token>)
      requires limit <= |pending|
      modifies `pending, `pendingTokens
      ensures output == Emit(old(pendingTokens), limit, includePartial)
      ensures pendingTokens == Keep(old(pendingTokens), limit, includePartial)
      ensures |Text(output)| <= |old(pending)| && pending == old(pending)[|Text(output)|..]
    {
      ghost var queue := pendingTokens;
      var consumed: nat := 0;
      output := [];
      while pendingTokens != []
        invariant pending == old(pending)
        invariant consumed == |Text(output)|
        invariant Taking(queue, limit, includePartial, output, consumed, pendingTokens)
        decreases |pendingTokens|
      {
        var token := pendingTokens[0];
        TakeOne(queue, limit, includePartial, output, consumed, pendingTokens);
        pendingTokens := pendingTokens[1..];
        if token.piece == "" {
          continue;
        }
        if consumed + |token.piece| <= limit {
          consumed := consumed + |token.piece|;
          output := Appended(output, token, token.piece);
          continue;
        }
        if includePartial && consumed < limit {
          output := Appended(output, token, token.piece[..limit - consumed]);
          consumed := limit;
        } else {
          pendingTokens := [token] + pendingTokens;
        }
        break;
      }
      if consumed > 0 {
        pending := pending[consumed..];
      }
    }

    // The token path: the same stop at the same piece, and the same text in all.
    method PushToken(token: Token) returns (stopped: bool, output: seq<Token>)
      requires Valid() && TokensValid()
      modifies this
      ensures Valid() && TokensValid()
      ensures stopped <==> EarliestStop(stops, old(seen) + token.piece).Some?
      ensures stopped ==>
        && old(shown) + Text(output) == (old(seen) + token.piece)[..EarliestStop(stops, old(seen) + token.piece).value]
        && ShownUpTo(old(released) + output, old(pushed) + [token])
        && pending == "" && pendingTokens == [] && seen == shown == "" && pushed == released == []
      ensures !stopped ==>
        && seen == old(seen) + token.piece
        && shown == old(shown) + Text(output)
        && pushed == old(pushed) + [token]
        && released == old(released) + output
        && ShownInFull(released, pushed)
        && (pending != "" ==> |pendingTokens| > 0 && !Safe(stops, seen, |shown| + |pendingTokens[0].piece|))
    {
      Queue(token);
      Searched(stops, shown, old(pending), token.piece);
      var index := EarliestStop(stops, pending);
      if index.Some? {
        output := TakeTokens(index.value);
        pending := "";
        pendingTokens := [];
        Forget();
        return true, output;
      }
      output := ReleaseTokens();
      ReleasedInFull(released, pendingTokens, pushed);
      stopped := false;
    }

    method Queue(token: Token)
      requires Valid() && TokensValid()
      modifies `pending, `pendingTokens, `seen, `pushed
      ensures pending == old(pending) + token.piece && pendingTokens == old(pendingTokens) + [token]
      ensures seen == old(seen) + token.piece == shown + pending && pushed == old(pushed) + [token]
      ensures TokensValid()
    {
      Queued(released, pendingTokens, pushed, token);
      Regrouped(shown, pending, token.piece, pending + token.piece);
      pending := pending + token.piece;
      pendingTokens := pendingTokens + [token];
      seen := seen + token.piece;
      pushed := pushed + [token];
    }

    // Shows the first characters of the pending text, the last token cut short.
    method TakeTokens(limit: nat) returns (output: seq<Token>)
      requires TokensValid() && limit <= |pending|
      modifies `pending, `pendingTokens
      ensures Text(output) == old(pending)[..limit]
      ensures ShownUpTo(released + output, pushed)
      ensures limit == |old(pending)| ==> pending == "" && pendingTokens == []
    {
      EmitCuts(pendingTokens, limit);
      EmitIsShown(pendingTokens, limit);
      ghost var queue := pendingTokens;
      output := TakeTokenPrefix(limit, true);
      ShownAfterFull(released, output, queue, pushed);
    }

    // Shows every whole token that cannot begin a stop.
    method ReleaseTokens() returns (output: seq<Token>)
      requires Valid() && TokensValid() && EarliestStop(stops, pending).None?
      modifies `pending, `pendingTokens, `shown, `released
      ensures Valid() && TokensValid()
      ensures shown == old(shown) + Text(output) && released == old(released) + output
      ensures pending != "" ==> |pendingTokens| > 0 && !Safe(stops, seen, |shown| + |pendingTokens[0].piece|)
    {
      var n := |pending| - LongestStopPrefixSuffix(pending, stops);
      ghost var (text, queue) := (pending, pendingTokens);
      WholeTokensReleased(stops, seen, shown, pending, queue, n);
      output := TakeTokenPrefix(n, false);
      Regrouped(shown, Text(output), Text(pendingTokens), text);
      Regrouped(released, output, Shows(pendingTokens), Shows(queue));
      shown := shown + Text(output);
      released := released + output;
    }

    method TakeTokenFlush() returns (output: seq<Token>)
      requires Valid() && TokensValid()
      modifies this
      ensures Valid() && TokensValid()
      ensures pending == "" && pendingTokens == [] && seen == shown == "" && pushed == released == []
      ensures old(shown) + Text(output) == old(seen)
      ensures ShownUpTo(old(released) + output, old(pushed))
    {
      output := TakeTokens(|pending|);
      Forget();
    }
  }

  // The search of the pending text finds what a search of the whole text finds.
  lemma Searched(stops: seq<string>, shown: string, pending: string, piece: string)
    requires Safe(stops, shown + pending, |shown|)
    ensures var whole, part := EarliestStop(stops, shown + pending + piece), EarliestStop(stops, pending + piece);
      && (whole.Some? <==> part.Some?)
      && (part.Some? ==>
        (shown + pending + piece)[..whole.value] == shown + (pending + piece)[..part.value])
    ensures Safe(stops, shown + (pending + piece), |shown|)
  {
    SearchPending(stops, shown, pending, piece);
    SafeForLonger(stops, shown + pending, piece, |shown|);
    assert shown + pending + piece == shown + (pending + piece);
  }

  // Releasing every whole token that is safe to show.
  lemma WholeTokensReleased(stops: seq<string>, seen: string, shown: string, pending: string, queue: seq<Token>, n: nat)
    requires seen == shown + pending && Safe(stops, seen, |shown|)
    requires EarliestStop(stops, pending).None?
    requires Text(queue) == pending
    requires n == |pending| - LongestStopPrefixSuffix(pending, stops)
    ensures var output, kept := Emit(queue, n, false), Keep(queue, n, false);
      && output + Shows(kept) == Shows(queue)
      && Text(output) + Text(kept) == pending
      && Safe(stops, seen, |shown| + |Text(output)|)
      && (Text(kept) != "" ==>
        |kept| > 0 && !Safe(stops, seen, |shown| + |Text(output)| + |kept[0].piece|))
  {
    EmitSplits(queue, n);
    EmitKeepsTokens(queue, n);
    Releasable(stops, shown, pending);
  }

  lemma Regrouped<T>(a: seq<T>, b: seq<T>, c: seq<T>, rest: seq<T>)
    requires b + c == rest
    ensures a + b + c == a + rest && c == rest[|b|..]
  {
  }

  // What may be shown of pending text without a stop.
  lemma Releasable(stops: seq<string>, shown: string, pending: string)
    requires Safe(stops, shown + pending, |shown|)
    requires EarliestStop(stops, pending).None?
    ensures var safe := |shown| + |pending| - LongestStopPrefixSuffix(pending, stops);
      forall n :: |shown| <= n <= |shown + pending| ==> (Safe(stops, shown + pending, n) <==> n <= safe)
  {
    forall n | |shown| <= n <= |shown + pending|
      ensures Safe(stops, shown + pending, n) <==> n <= |shown| + |pending| - LongestStopPrefixSuffix(pending, stops)
    {
      WithheldIsExact(stops, shown, pending, n);
    }
  }

  function OutputText(output: Option<string>): string {
    if output.Some? then output.value else ""
  }

  lemma SafeForLonger(stops: seq<string>, text: string, more: string, n: nat)
    requires Safe(stops, text, n)
    ensures Safe(stops, text + more, n)
  {
    forall i | 0 <= i < n
      ensures !StopMayStart(stops, text + more, i)
    {
      assert (text + more)[i..] == text[i..] + more;
      if StopMayStart(stops, text + more, i) {
        var rest := Continuation(stops, text + more, i);
        assert text + more + rest == text + (more + rest);
        StopReaches(stops, text, more + rest, i);
      }
    }
  }

  // ----- Whole streams -----

  function Pieces(tokens: seq<Token>): seq<string> {
    if tokens == [] then [] else [tokens[0].piece] + Pieces(tokens[1..])
  }

  // A stream of pieces up to the first stop, or to the end and then flushed.
  method FilterText(stops: seq<string>, pieces: seq<string>) returns (visible: string)
    ensures visible == Visible(stops, pieces)
  {
    var filter := new StopFilter(stops);
    var stopped, rest := false, pieces;
    visible := "";
    while rest != [] && !stopped
      invariant filter.Valid() && filter.stops == stops
      invariant stopped ==> filter.seen == filter.shown == "" && visible == Visible(stops, pieces)
      invariant !stopped ==> visible == filter.shown && Visible(stops, rest, filter.seen) == Visible(stops, pieces)
      decreases |rest|
    {
      var output;
      stopped, output := filter.PushPiece(rest[0]);
      visible := visible + OutputText(output);
      rest := rest[1..];
    }
    var suffix := filter.TakeFlush();
    visible := visible + OutputText(suffix);
  }

  lemma NextPiece(tokens: seq<Token>, k: nat)
    requires k < |tokens|
    ensures tokens[..k] + [tokens[k]] == tokens[..k + 1]
    ensures Pieces(tokens[k..]) == [tokens[k].piece] + Pieces(tokens[k + 1..])
  {
    assert tokens[k..][0] == tokens[k] && tokens[k..][1..] == tokens[k + 1..];
  }

  // The same stream with log probabilities shows the same text, as a run of the pushed tokens of
  // which only the last may be cut short.
  method FilterTokens(stops: seq<string>, tokens: seq<Token>) returns (visible: seq<Token>)
    ensures Text(visible) == Visible(stops, Pieces(tokens))
    ensures ShownUpTo(visible, tokens)
  {
    var filter := new StopFilter(stops);
    var stopped, k := false, 0;
    visible := [];
    assert tokens[0..] == tokens;
    while k < |tokens| && !stopped
      invariant k <= |tokens| && filter.Valid() && filter.TokensValid() && filter.stops == stops
      invariant stopped ==>
        && filter.seen == filter.shown == "" && filter.pushed == filter.released == []
        && Text(visible) == Visible(stops, Pieces(tokens)) && ShownUpTo(visible, tokens)
      invariant !stopped ==>
        && visible == filter.released && Text(visible) == filter.shown && filter.pushed == tokens[..k]
        && Visible(stops, Pieces(tokens[k..]), filter.seen) == Visible(stops, Pieces(tokens))
    {
      var output;
      ghost var before := visible;
      NextPiece(tokens, k);
      stopped, output := filter.PushToken(tokens[k]);
      visible := visible + output;
      TextOfConcat(before, output);
      k := k + 1;
      if stopped {
        ShownUpToLonger(visible, tokens, k);
      }
    }
    ghost var before := visible;
    var suffix := filter.TakeTokenFlush();
    visible := visible + suffix;
    TextOfConcat(before, suffix);
    if stopped {
      assert suffix == [];
    } else {
      assert tokens[..k] == tokens;
    }
  }
}
