// The semantic delta stream: successive parser snapshots of a growing reply are turned into deltas
// that rebuild the final message.
module SemanticStream {
  import opened Wrappers

  datatype ToolCall = ToolCall(id: string, name: string, arguments: string)

  datatype Message = Message(content: string, reasoning: string, toolCalls: seq<ToolCall>)

  // What has been emitted for one tool call; unnamed until it has been announced.
  datatype Emission = Emission(id: string, name: Option<string>, arguments: string)

  datatype Delta =
    | Reasoning(text: string)
    | Text(text: string)
    | Tool(index: nat, id: Option<string>, name: Option<string>, arguments: string)

  datatype StreamError =
    | RevisedReasoning | RevisedContent | RevisedArguments | RevisedMetadata
    | RemovedCall | RemovedEmission | NamelessCall

  // ----- Reading a delta stream -----

  function TextOf(log: seq<Delta>): string {
    if log == [] then ""
    else
      var d := log[|log| - 1];
      TextOf(log[..|log| - 1]) + if d.Text? then d.text else ""
  }

  function ReasoningOf(log: seq<Delta>): string {
    if log == [] then ""
    else
      var d := log[|log| - 1];
      ReasoningOf(log[..|log| - 1]) + if d.Reasoning? then d.text else ""
  }

  function ToolDeltas(log: seq<Delta>, index: nat): (deltas: seq<Delta>)
    ensures forall k :: 0 <= k < |deltas| ==> deltas[k].Tool? && deltas[k].index == index
  {
    if log == [] then []
    else
      var d := log[|log| - 1];
      ToolDeltas(log[..|log| - 1], index) + if d.Tool? && d.index == index then [d] else []
  }

  function Arguments(deltas: seq<Delta>): string {
    if deltas == [] then ""
    else
      var d := deltas[|deltas| - 1];
      Arguments(deltas[..|deltas| - 1]) + if d.Tool? then d.arguments else ""
  }

  // A client reads a tool call's id and name off its first delta and joins the arguments.
  function ToolOf(log: seq<Delta>, index: nat): ToolCall {
    var deltas := ToolDeltas(log, index);
    if deltas != [] && deltas[0].id.Some? && deltas[0].name.Some?
    then ToolCall(deltas[0].id.value, deltas[0].name.value, Arguments(deltas))
    else ToolCall("", "", "")
  }

  function Rebuilt(log: seq<Delta>, calls: nat): Message {
    Message(TextOf(log), ReasoningOf(log), seq(calls, i requires 0 <= i < calls => ToolOf(log, i)))
  }

  // The deltas of one tool call are exactly what its emission records: nothing before it is
  // announced, then its id and name once, in the first delta, and its arguments in pieces.
  ghost predicate Records(e: Emission, deltas: seq<Delta>) {
    if e.name.None? then deltas == []
    else
      && deltas != []
      && (forall k :: 0 <= k < |deltas| ==>
        && deltas[k].Tool?
        && deltas[k].id == (if k == 0 then Some(e.id) else None)
        && deltas[k].name == (if k == 0 then e.name else None))
      && Arguments(deltas) == e.arguments
  }

  lemma Logged(log: seq<Delta>, d: Delta)
    ensures TextOf(log + [d]) == TextOf(log) + if d.Text? then d.text else ""
    ensures ReasoningOf(log + [d]) == ReasoningOf(log) + if d.Reasoning? then d.text else ""
    ensures forall i :: ToolDeltas(log + [d], i) == ToolDeltas(log, i) + if d.Tool? && d.index == i then [d] else []
  {
  }

  lemma RecordsMore(e: Emission, deltas: seq<Delta>, index: nat, more: string)
    requires Records(e, deltas) && e.name.Some?
    ensures Records(e.(arguments := e.arguments + more), deltas + [Tool(index, None, None, more)])
  {
  }

  lemma RecordsFirst(e: Emission, index: nat)
    requires e.name.Some?
    ensures Records(e, [Tool(index, Some(e.id), e.name, e.arguments)])
  {
  }

  // ----- Stable tool ids -----

  function HexDigit(n: nat): char
    requires n < 16
  {
    "0123456789abcdef"[n]
  }

  function Hex(n: nat, digits: nat): string {
    if digits == 0 then "" else Hex(n / 16, digits - 1) + [HexDigit(n % 16)]
  }

  const ID_PREFIX := "call_orchion_"
  const ID_DIGITS: nat := 16

  // As the format "call_orchion_{:016x}" prints it.
  function GeneratedId(counter: nat): string {
    ID_PREFIX + Hex(counter, ID_DIGITS)
  }

  // The last digit is the one of the units.
  lemma HexAppends(n: nat, d: nat, digits: nat)
    requires d < 16
    ensures Hex(16 * n + d, digits + 1) == Hex(n, digits) + [HexDigit(d)]
  {
    assert (16 * n + d) / 16 == n && (16 * n + d) % 16 == d;
  }

  // Digits from ten on are lower-case letters.
  lemma DigitsAreLowerCase(d: nat)
    requires d < 16
    ensures HexDigit(d) == if d < 10 then '0' + d as char else 'a' + (d - 10) as char
  {
  }

  function Pow16(digits: nat): (r: nat)
    ensures r > 0
  {
    if digits == 0 then 1 else 16 * Pow16(digits - 1)
  }

  lemma {:induction false} HexInjective(a: nat, b: nat, digits: nat)
    requires a < Pow16(digits) && b < Pow16(digits)
    requires Hex(a, digits) == Hex(b, digits)
    ensures a == b
  {
    if digits > 0 {
      var x, y := Hex(a / 16, digits - 1), Hex(b / 16, digits - 1);
      HexLength(a / 16, digits - 1);
      HexLength(b / 16, digits - 1);
      assert (x + [HexDigit(a % 16)])[..digits - 1] == x && (y + [HexDigit(b % 16)])[..digits - 1] == y;
      assert (x + [HexDigit(a % 16)])[digits - 1] == (y + [HexDigit(b % 16)])[digits - 1];
      HexInjective(a / 16, b / 16, digits - 1);
      DigitsDiffer(a % 16, b % 16);
    }
  }

  lemma {:induction false} HexLength(n: nat, digits: nat)
    ensures |Hex(n, digits)| == digits
  {
    if digits > 0 {
      HexLength(n / 16, digits - 1);
    }
  }

  lemma DigitsDiffer(a: nat, b: nat)
    requires a < 16 && b < 16
    ensures HexDigit(a) == HexDigit(b) ==> a == b
  {
  }

  // Ids generated from different values of a 64-bit counter differ.
  lemma GeneratedIdsDiffer(a: nat, b: nat)
    requires a < Pow16(ID_DIGITS) && b < Pow16(ID_DIGITS) && a != b
    ensures GeneratedId(a) != GeneratedId(b)
  {
    if GeneratedId(a) == GeneratedId(b) {
      assert Hex(a, ID_DIGITS) == GeneratedId(a)[|ID_PREFIX|..] && Hex(b, ID_DIGITS) == GeneratedId(b)[|ID_PREFIX|..];
      HexInjective(a, b, ID_DIGITS);
    }
  }

  // How many of the calls from one position to another came without an id.
  function Missing(calls: seq<ToolCall>, from: nat, to: nat): nat
    requires to <= |calls|
  {
    if to <= from then 0 else Missing(calls, from, to - 1) + if calls[to - 1].id == "" then 1 else 0
  }

  lemma {:induction false} MissingGrows(calls: seq<ToolCall>, from: nat, i: nat, j: nat)
    requires from <= i < j <= |calls| && calls[i].id == ""
    ensures Missing(calls, from, i) < Missing(calls, from, j)
  {
    if i < j - 1 {
      MissingGrows(calls, from, i, j - 1);
    }
  }

  // The id a call is first given: its own, or one generated from the next value of the counter.
  function FirstId(calls: seq<ToolCall>, known: nat, counter: nat, i: nat): (id: string)
    requires i < |calls|
    ensures id != ""
  {
    if calls[i].id != "" then calls[i].id else GeneratedId(counter + Missing(calls, known, i))
  }

  // Calls that came without an id are given different ones.
  lemma FirstIdsDiffer(calls: seq<ToolCall>, known: nat, counter: nat, i: nat, j: nat)
    requires known <= i < j < |calls| && calls[i].id == calls[j].id == ""
    requires counter + Missing(calls, known, |calls|) <= Pow16(ID_DIGITS)
    ensures FirstId(calls, known, counter, i) != FirstId(calls, known, counter, j)
  {
    MissingGrows(calls, known, i, j);
    MissingGrows(calls, known, j, |calls|);
    GeneratedIdsDiffer(counter + Missing(calls, known, i), counter + Missing(calls, known, j));
  }

  // So are calls of different snapshots, in one reply or in several: the counter has moved on.
  lemma LaterIdsDiffer(
    calls: seq<ToolCall>, known: nat, counter: nat, i: nat, later: seq<ToolCall>, known': nat, counter': nat, j: nat)
    requires known <= i < |calls| && calls[i].id == ""
    requires known' <= j < |later| && later[j].id == ""
    requires counter + Missing(calls, known, |calls|) <= counter'
    requires counter' + Missing(later, known', |later|) <= Pow16(ID_DIGITS)
    ensures FirstId(calls, known, counter, i) != FirstId(later, known', counter', j)
  {
    var a, b := counter + Missing(calls, known, i), counter' + Missing(later, known', j);
    MissingGrows(calls, known, i, |calls|);
    MissingGrows(later, known', j, |later|);
    assert a < b < Pow16(ID_DIGITS);
    GeneratedIdsDiffer(a, b);
  }

  method NewId(calls: seq<ToolCall>, ghost known: nat, ghost first: nat, i: nat, counter: nat)
    returns (id: string, counter': nat)
    requires known <= i < |calls| && counter == first + Missing(calls, known, i)
    ensures id == FirstId(calls, known, first, i)
    ensures counter' == first + Missing(calls, known, i + 1)
  {
    id, counter' := calls[i].id, counter;
    if id == "" {
      id, counter' := GeneratedId(counter), counter + 1;
    }
  }

  // Gives every call the id it was first seen with, generating one where the model gave none.
  method StabilizeToolIds(calls: seq<ToolCall>, ids: seq<string>, counter: nat)
    returns (calls': seq<ToolCall>, ids': seq<string>, counter': nat)
    ensures |calls'| == |calls| && ids <= ids'
    ensures |ids'| == if |ids| >= |calls| then |ids| else |calls|
    ensures forall i :: 0 <= i < |calls| ==> calls'[i] == calls[i].(id := ids'[i])
    ensures forall i {:trigger FirstId(calls, |ids|, counter, i)} :: |ids| <= i < |calls| ==>
      ids'[i] == FirstId(calls, |ids|, counter, i)
    ensures counter' == counter + Missing(calls, |ids|, |calls|)
  {
    calls', ids', counter' := calls, ids, counter;
    var index := 0;
    while index < |calls'|
      invariant 0 <= index <= |calls'| == |calls|
      invariant ids <= ids' && |ids'| == if |ids| >= index then |ids| else index
      invariant counter' == counter + Missing(calls, |ids|, index)
      invariant forall i :: index <= i < |calls| ==> calls'[i] == calls[i]
      invariant forall i :: 0 <= i < index ==> calls'[i] == calls[i].(id := ids'[i])
      invariant forall i {:trigger FirstId(calls, |ids|, counter, i)} :: |ids| <= i < index ==>
        ids'[i] == FirstId(calls, |ids|, counter, i)
    {
      if index < |ids'| {
        calls' := calls'[index := calls'[index].(id := ids'[index])];
      } else {
        var id;
        id, counter' := NewId(calls, |ids|, counter, index, counter');
        calls' := calls'[index := calls'[index].(id := id)];
        ids' := ids' + [id];
      }
      index := index + 1;
    }
  }

  // ----- Accepting a snapshot -----

  // The next snapshot only adds to the text already emitted.
  predicate Extends(previous: string, current: string) {
    previous <= current
  }

  function Suffix(previous: string, current: string): Option<string>
    requires Extends(previous, current)
  {
    if previous == current then None else Some(current[|previous|..])
  }

  lemma SuffixCompletes(previous: string, current: string)
    requires Extends(previous, current)
    ensures var suffix := Suffix(previous, current);
      if suffix.Some? then previous + suffix.value == current else previous == current
  {
  }

  // Whether a call is announced now: at the end, or once its name is one of the known tools or its
  // arguments have begun.
  predicate Announces(call: ToolCall, isPartial: bool, toolNames: seq<string>) {
    !isPartial || call.name in toolNames || call.arguments != ""
  }

  predicate CallAccepted(e: Emission, call: ToolCall, isPartial: bool, toolNames: seq<string>) {
    if e.name.None? then Announces(call, isPartial, toolNames) ==> call.name != ""
    else e.name == Some(call.name) && Extends(e.arguments, call.arguments)
  }

  function EmissionAt(emissions: seq<Emission>, i: nat): Emission {
    if i < |emissions| then emissions[i] else Emission("", None, "")
  }

  predicate CallsAccepted(
    emissions: seq<Emission>, calls: seq<ToolCall>, n: nat, isPartial: bool, toolNames: seq<string>)
    requires n <= |calls|
  {
    forall i :: 0 <= i < n ==> CallAccepted(EmissionAt(emissions, i), calls[i], isPartial, toolNames)
  }

  predicate Accepted(
    previous: Message, emissions: seq<Emission>, current: Message, isPartial: bool, toolNames: seq<string>) {
    && Extends(previous.reasoning, current.reasoning)
    && Extends(previous.content, current.content)
    && |previous.toolCalls| <= |current.toolCalls|
    && |emissions| <= |current.toolCalls|
    && CallsAccepted(emissions, current.toolCalls, |current.toolCalls|, isPartial, toolNames)
  }

  // The emission after an accepted snapshot: unannounced, or the call as it now is.
  predicate Emitted(e: Emission, call: ToolCall) {
    e.name.Some? ==> e == Emission(call.id, Some(call.name), call.arguments)
  }

  predicate CallsEmitted(emissions: seq<Emission>, calls: seq<ToolCall>, n: nat, isPartial: bool)
    requires n <= |emissions| && n <= |calls|
  {
    forall i :: 0 <= i < n ==> Emitted(emissions[i], calls[i]) && (!isPartial ==> emissions[i].name.Some?)
  }

  // Announced are the calls that were before, all of them at the end, and before that the ones whose
  // name is a known tool's or whose arguments have begun.
  ghost predicate AnnouncedNow(
    was: seq<Emission>, emissions: seq<Emission>, calls: seq<ToolCall>, n: nat, isPartial: bool,
    toolNames: seq<string>)
    requires n <= |emissions| && n <= |calls|
  {
    forall i :: 0 <= i < n ==>
      (emissions[i].name.Some? <==>
        || (i < |was| && was[i].name.Some?)
        || !isPartial || calls[i].name in toolNames || calls[i].arguments != "")
  }

  // The same, as a client can tell: a call has deltas once it is announced.
  ghost predicate HeardNow(
    was: seq<Delta>, log: seq<Delta>, calls: seq<ToolCall>, isPartial: bool, toolNames: seq<string>)
  {
    forall i {:trigger ToolDeltas(log, i)} :: 0 <= i < |calls| ==>
      (ToolDeltas(log, i) != [] <==>
        || ToolDeltas(was, i) != []
        || !isPartial || calls[i].name in toolNames || calls[i].arguments != "")
  }

  lemma AnnouncedIsHeard(
    was: seq<Emission>, before: seq<Delta>, emissions: seq<Emission>, log: seq<Delta>, calls: seq<ToolCall>,
    isPartial: bool, toolNames: seq<string>)
    requires RecordsAll(was, before) && RecordsAll(emissions, log) && |emissions| == |calls|
    requires AnnouncedNow(was, emissions, calls, |calls|, isPartial, toolNames)
    ensures HeardNow(before, log, calls, isPartial, toolNames)
  {
    forall i | 0 <= i < |calls|
      ensures ToolDeltas(log, i) != [] <==>
        || ToolDeltas(before, i) != []
        || !isPartial || calls[i].name in toolNames || calls[i].arguments != ""
    {
      assert RecordsAt(was, before, i) && RecordsAt(emissions, log, i);
    }
  }

  class SemanticParser {
    const toolNames: seq<string>
    var previous: Message
    var toolIds: seq<string>
    var emissions: seq<Emission>

    // Every delta delivered so far.
    ghost var log: seq<Delta>

    constructor (toolNames: seq<string>)
      ensures Valid() && this.toolNames == toolNames && log == [] && previous == Message("", "", [])
    {
      this.toolNames := toolNames;
      previous, toolIds, emissions, log := Message("", "", []), [], [], [];
    }

    // The deltas delivered amount to the last snapshot, as far as its calls have been announced.
    ghost predicate Valid()
      reads this
    {
      && TextOf(log) == previous.content
      && ReasoningOf(log) == previous.reasoning
      && |toolIds| == |emissions| == |previous.toolCalls|
      && (forall i :: 0 <= i < |emissions| ==>
        && Emitted(emissions[i], previous.toolCalls[i])
        && previous.toolCalls[i].id == toolIds[i])
      && RecordsAll(emissions, log)
    }

    // Takes the parser's reading of all text generated so far.  `counter` is the program-wide
    // counter behind generated ids.
    method Push(parsed: Message, isPartial: bool, counter: nat)
      returns (r: Result<seq<Delta>, StreamError>, counter': nat)
      requires Valid()
      modifies this
      ensures r.Ok? <==> Accepted(old(previous), old(emissions), parsed, isPartial, toolNames)
      ensures r == Err(RevisedMetadata) ==> Renamed(old(emissions), parsed)
      ensures counter' == counter + Missing(parsed.toolCalls, |old(toolIds)|, |parsed.toolCalls|)
      ensures old(toolIds) <= toolIds && |toolIds| >= |parsed.toolCalls|
      ensures forall i {:trigger FirstId(parsed.toolCalls, |old(toolIds)|, counter, i)} ::
        |old(toolIds)| <= i < |parsed.toolCalls| ==>
          toolIds[i] == FirstId(parsed.toolCalls, |old(toolIds)|, counter, i)
      ensures r.Ok? ==>
        && Valid()
        && log == old(log) + r.value
        && previous.content == parsed.content
        && previous.reasoning == parsed.reasoning
        && |previous.toolCalls| == |parsed.toolCalls|
        && (forall i :: 0 <= i < |parsed.toolCalls| ==> previous.toolCalls[i] == parsed.toolCalls[i].(id := toolIds[i]))
      ensures r.Ok? ==> HeardNow(old(log), log, parsed.toolCalls, isPartial, toolNames)
      ensures r.Ok? && !isPartial ==> Rebuilt(log, |previous.toolCalls|) == previous
    {
      var calls, ids;
      calls, ids, counter' := StabilizeToolIds(parsed.toolCalls, toolIds, counter);
      toolIds := ids;
      var current := parsed.(toolCalls := calls);
      AcceptedIgnoresIds(previous, emissions, parsed, current, isPartial, toolNames);
      r := SemanticDiffs(current, isPartial);
      if r.Ok? {
        AnnouncedIsHeard(
          old(emissions), log, emissions, log + r.value, parsed.toolCalls, isPartial, toolNames);
        previous := current;
        log := log + r.value;
        if !isPartial {
          RebuiltIsMessage(emissions, log, previous);
        }
      }
    }

    // The end of the reply: every call is announced, and the deltas rebuild the message.
    method Finish(parsed: Message, counter: nat) returns (r: Result<seq<Delta>, StreamError>, counter': nat)
      requires Valid()
      modifies this
      ensures r.Ok? <==> Accepted(old(previous), old(emissions), parsed, false, toolNames)
      ensures counter' == counter + Missing(parsed.toolCalls, |old(toolIds)|, |parsed.toolCalls|)
      ensures old(toolIds) <= toolIds && |toolIds| >= |parsed.toolCalls|
      ensures forall i {:trigger FirstId(parsed.toolCalls, |old(toolIds)|, counter, i)} ::
        |old(toolIds)| <= i < |parsed.toolCalls| ==>
          toolIds[i] == FirstId(parsed.toolCalls, |old(toolIds)|, counter, i)
      ensures r.Ok? ==>
        && Valid()
        && log == old(log) + r.value
        && Rebuilt(log, |previous.toolCalls|) == previous
        && previous.content == parsed.content
        && previous.reasoning == parsed.reasoning
        && |previous.toolCalls| == |parsed.toolCalls|
        && (forall i :: 0 <= i < |parsed.toolCalls| ==> previous.toolCalls[i] == parsed.toolCalls[i].(id := toolIds[i]))
    {
      r, counter' := Push(parsed, false, counter);
    }

    method SemanticDiffs(current: Message, isPartial: bool) returns (r: Result<seq<Delta>, StreamError>)
      requires TextOf(log) == previous.content && ReasoningOf(log) == previous.reasoning
      requires |emissions| == |previous.toolCalls| && RecordsAll(emissions, log)
      requires forall i :: 0 <= i < |emissions| && i < |current.toolCalls| && emissions[i].name.Some? ==>
        emissions[i].id == current.toolCalls[i].id
      modifies `emissions
      ensures r.Ok? <==> Accepted(previous, old(emissions), current, isPartial, toolNames)
      ensures r == Err(RevisedMetadata) ==> Renamed(old(emissions), current)
      ensures r.Ok? ==>
        && TextOf(log + r.value) == current.content
        && ReasoningOf(log + r.value) == current.reasoning
        && |emissions| == |current.toolCalls|
        && RecordsAll(emissions, log + r.value)
        && CallsEmitted(emissions, current.toolCalls, |emissions|, isPartial)
        && AnnouncedNow(old(emissions), emissions, current.toolCalls, |emissions|, isPartial, toolNames)
    {
      if !Extends(previous.reasoning, current.reasoning) {
        return Err(RevisedReasoning);
      }
      if !Extends(previous.content, current.content) {
        return Err(RevisedContent);
      }
      if |current.toolCalls| < |previous.toolCalls| {
        return Err(RemovedCall);
      }
      if |current.toolCalls| < |emissions| {
        return Err(RemovedEmission);
      }
      var deltas := TextDiffs(current);
      r := ToolDiffs(current, isPartial, deltas);
    }

    method TextDiffs(current: Message) returns (deltas: seq<Delta>)
      requires TextOf(log) == previous.content && ReasoningOf(log) == previous.reasoning
      requires RecordsAll(emissions, log)
      requires Extends(previous.reasoning, current.reasoning) && Extends(previous.content, current.content)
      ensures TextOf(log + deltas) == current.content && ReasoningOf(log + deltas) == current.reasoning
      ensures RecordsAll(emissions, log + deltas)
    {
      deltas := [];
      assert log + deltas == log;
      SuffixCompletes(previous.reasoning, current.reasoning);
      SuffixCompletes(previous.content, current.content);
      var reasoning := Suffix(previous.reasoning, current.reasoning);
      if reasoning.Some? {
        LoggedAll(emissions, log, deltas, Reasoning(reasoning.value));
        deltas := deltas + [Reasoning(reasoning.value)];
      }
      var content := Suffix(previous.content, current.content);
      if content.Some? {
        LoggedAll(emissions, log, deltas, Text(content.value));
        deltas := deltas + [Text(content.value)];
      }
    }

    method ToolDiffs(current: Message, isPartial: bool, before: seq<Delta>) returns (r: Result<seq<Delta>, StreamError>)
      requires |emissions| <= |current.toolCalls| && RecordsAll(emissions, log + before)
      requires forall i :: 0 <= i < |emissions| && emissions[i].name.Some? ==>
        emissions[i].id == current.toolCalls[i].id
      modifies `emissions
      ensures r.Ok? <==> CallsAccepted(old(emissions), current.toolCalls, |current.toolCalls|, isPartial, toolNames)
      ensures r == Err(RevisedMetadata) ==> Renamed(old(emissions), current)
      ensures r.Ok? ==>
        && TextOf(log + r.value) == TextOf(log + before)
        && ReasoningOf(log + r.value) == ReasoningOf(log + before)
        && RecordsAll(emissions, log + r.value)
        && |emissions| == |current.toolCalls|
        && CallsEmitted(emissions, current.toolCalls, |current.toolCalls|, isPartial)
        && AnnouncedNow(old(emissions), emissions, current.toolCalls, |current.toolCalls|, isPartial, toolNames)
    {
      ghost var was := emissions;
      var deltas := before;
      var i := 0;
      while i < |current.toolCalls|
        invariant 0 <= i <= |current.toolCalls|
        invariant |emissions| == if |was| >= i then |was| else i
        invariant forall j :: i <= j < |was| ==> emissions[j] == was[j]
        invariant CallsAccepted(was, current.toolCalls, i, isPartial, toolNames)
        invariant CallsEmitted(emissions, current.toolCalls, i, isPartial)
        invariant AnnouncedNow(was, emissions, current.toolCalls, i, isPartial, toolNames)
        invariant RecordsAll(emissions, log + deltas)
        invariant TextOf(log + deltas) == TextOf(log + before)
        invariant ReasoningOf(log + deltas) == ReasoningOf(log + before)
      {
        var call := current.toolCalls[i];
        assert EmissionAt(emissions, i) == EmissionAt(was, i);
        var step := ProcessCall(i, call, isPartial, log + deltas);
        if step.Err? {
          return Err(step.error);
        }
        if step.value.Some? {
          ToolLogged(log, deltas, step.value.value);
          deltas := deltas + [step.value.value];
        }
        i := i + 1;
      }
      r := Ok(deltas);
    }

    // One call of the snapshot against what has been emitted for it.
    method ProcessCall(index: nat, call: ToolCall, isPartial: bool, ghost all: seq<Delta>)
      returns (r: Result<Option<Delta>, StreamError>)
      requires index <= |emissions| && RecordsAll(emissions, all)
      requires index < |emissions| && emissions[index].name.Some? ==> emissions[index].id == call.id
      modifies `emissions
      ensures r.Ok? <==> CallAccepted(EmissionAt(old(emissions), index), call, isPartial, toolNames)
      ensures r == Err(RevisedMetadata) ==>
        index < |old(emissions)| && old(emissions)[index].name.Some? && old(emissions)[index].name != Some(call.name)
      ensures r.Ok? ==>
        && |emissions| == (if index == |old(emissions)| then index + 1 else |old(emissions)|)
        && (forall j :: 0 <= j < |old(emissions)| && j != index ==> emissions[j] == old(emissions)[j])
        && Emitted(emissions[index], call)
        && (emissions[index].name.Some? <==>
             || (index < |old(emissions)| && old(emissions)[index].name.Some?)
             || !isPartial || call.name in toolNames || call.arguments != "")
        && RecordsAll(emissions, if r.value.Some? then all + [r.value.value] else all)
        && (r.value.Some? ==> r.value.value.Tool?)
    {
      ghost var was := emissions;
      if index == |emissions| {
        emissions := emissions + [Emission(call.id, None, "")];
        NewEmission(was, index, call.id, all);
      }
      var e := emissions[index];
      if e.name.None? {
        if Announces(call, isPartial, toolNames) {
          if call.name == "" {
            return Err(NamelessCall);
          }
          var d := Tool(index, Some(call.id), Some(call.name), call.arguments);
          FirstDelta(emissions, index, Emission(call.id, Some(call.name), call.arguments), all);
          emissions := emissions[index := Emission(call.id, Some(call.name), call.arguments)];
          return Ok(Some(d));
        }
        return Ok(None);
      }
      if e.id != call.id || e.name != Some(call.name) {
        return Err(RevisedMetadata);
      }
      if !Extends(e.arguments, call.arguments) {
        return Err(RevisedArguments);
      }
      var more := Suffix(e.arguments, call.arguments);
      if more.Some? && more.value != "" {
        assert e.arguments + more.value == call.arguments;
        MoreArguments(emissions, index, more.value, all);
        emissions := emissions[index := e.(arguments := call.arguments)];
        return Ok(Some(Tool(index, None, None, more.value)));
      }
      return Ok(None);
    }
  }

  ghost predicate RecordsAt(emissions: seq<Emission>, log: seq<Delta>, i: nat) {
    Records(EmissionAt(emissions, i), ToolDeltas(log, i))
  }

  ghost predicate RecordsAll(emissions: seq<Emission>, log: seq<Delta>) {
    forall i: nat :: RecordsAt(emissions, log, i)
  }

  lemma NewEmission(emissions: seq<Emission>, index: nat, id: string, log: seq<Delta>)
    requires RecordsAll(emissions, log) && index == |emissions|
    ensures RecordsAll(emissions + [Emission(id, None, "")], log)
  {
    forall i: nat
      ensures RecordsAt(emissions + [Emission(id, None, "")], log, i)
    {
      assert RecordsAt(emissions, log, i);
    }
  }

  lemma FirstDelta(emissions: seq<Emission>, index: nat, e: Emission, log: seq<Delta>)
    requires RecordsAll(emissions, log) && index < |emissions|
    requires emissions[index].name.None? && e.name.Some?
    ensures RecordsAll(emissions[index := e], log + [Tool(index, Some(e.id), e.name, e.arguments)])
  {
    var d := Tool(index, Some(e.id), e.name, e.arguments);
    var emissions', log' := emissions[index := e], log + [d];
    Logged(log, d);
    RecordsFirst(e, index);
    forall i: nat
      ensures RecordsAt(emissions', log', i)
    {
      assert RecordsAt(emissions, log, i);
      assert ToolDeltas(log', i) == if i == index then [d] else ToolDeltas(log, i);
    }
  }

  lemma MoreArguments(emissions: seq<Emission>, index: nat, more: string, log: seq<Delta>)
    requires RecordsAll(emissions, log) && index < |emissions| && emissions[index].name.Some?
    ensures RecordsAll(
      emissions[index := emissions[index].(arguments := emissions[index].arguments + more)],
      log + [Tool(index, None, None, more)])
  {
    var d, e := Tool(index, None, None, more), emissions[index].(arguments := emissions[index].arguments + more);
    var emissions', log' := emissions[index := e], log + [d];
    Logged(log, d);
    forall i: nat
      ensures RecordsAt(emissions', log', i)
    {
      assert RecordsAt(emissions, log, i);
      if i == index {
        RecordsMore(emissions[index], ToolDeltas(log, index), index, more);
      } else {
        assert ToolDeltas(log', i) == ToolDeltas(log, i);
      }
    }
  }

  // A call that has been announced came back under another name.
  ghost predicate Renamed(emissions: seq<Emission>, current: Message) {
    exists i :: 0 <= i < |emissions| && i < |current.toolCalls| &&
      emissions[i].name.Some? && emissions[i].name != Some(current.toolCalls[i].name)
  }

  lemma ToolLogged(log: seq<Delta>, deltas: seq<Delta>, d: Delta)
    requires d.Tool?
    ensures log + (deltas + [d]) == log + deltas + [d]
    ensures TextOf(log + (deltas + [d])) == TextOf(log + deltas)
    ensures ReasoningOf(log + (deltas + [d])) == ReasoningOf(log + deltas)
  {
    assert log + (deltas + [d]) == log + deltas + [d];
    Logged(log + deltas, d);
  }

  lemma LoggedAll(emissions: seq<Emission>, log: seq<Delta>, deltas: seq<Delta>, d: Delta)
    requires RecordsAll(emissions, log + deltas) && !d.Tool?
    ensures RecordsAll(emissions, log + (deltas + [d]))
    ensures TextOf(log + (deltas + [d])) == TextOf(log + deltas) + if d.Text? then d.text else ""
    ensures ReasoningOf(log + (deltas + [d])) == ReasoningOf(log + deltas) + if d.Reasoning? then d.text else ""
  {
    assert log + (deltas + [d]) == log + deltas + [d];
    Logged(log + deltas, d);
    forall i: nat
      ensures RecordsAt(emissions, log + (deltas + [d]), i)
    {
      assert RecordsAt(emissions, log + deltas, i);
      assert ToolDeltas(log + deltas + [d], i) == ToolDeltas(log + deltas, i);
    }
  }

  lemma AcceptedIgnoresIds(
    previous: Message, emissions: seq<Emission>, parsed: Message, current: Message, isPartial: bool,
    toolNames: seq<string>)
    requires current == parsed.(toolCalls := current.toolCalls) && |current.toolCalls| == |parsed.toolCalls|
    requires forall i :: 0 <= i < |parsed.toolCalls| ==>
      current.toolCalls[i] == parsed.toolCalls[i].(id := current.toolCalls[i].id)
    ensures Accepted(previous, emissions, parsed, isPartial, toolNames) <==>
      Accepted(previous, emissions, current, isPartial, toolNames)
  {
  }

  lemma RebuiltIsMessage(emissions: seq<Emission>, log: seq<Delta>, message: Message)
    requires RecordsAll(emissions, log)
    requires TextOf(log) == message.content && ReasoningOf(log) == message.reasoning
    requires |emissions| == |message.toolCalls|
    requires forall i :: 0 <= i < |emissions| ==> emissions[i].name.Some? && Emitted(emissions[i], message.toolCalls[i])
    ensures Rebuilt(log, |message.toolCalls|) == message
  {
    forall i | 0 <= i < |message.toolCalls|
      ensures ToolOf(log, i) == message.toolCalls[i]
    {
      assert RecordsAt(emissions, log, i);
    }
  }
}
