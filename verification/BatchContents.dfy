// What a planned batch holds, told from the slots themselves: which token each entry carries, at
// which position, and which tokens are left for later.
module BatchContents {
  import opened Wrappers
  import opened Arithmetic
  import opened BatchPlanning

  // ----- The slots' own terms -----

  // Has a sampled token to feed back, and nothing queued for its client.
  predicate Decodable(s: Slot) {
    s.Active? && !s.active.flushing && s.active.pendingDecode.Some? && s.active.nextPosition <= I32_MAX
  }

  // Prefilling stops at the capture point of the prefix cache, if there is one ahead.
  function PromptEnd(a: ActiveSlot): nat {
    match a.cacheCaptureAt
    case Some(at) => at
    case None => |a.tokens|
  }

  // The prompt token at the position is still to be fed.
  predicate Waiting(s: Slot, position: nat) {
    && s.Active? && !s.active.flushing && s.active.pendingDecode.None?
    && s.active.prefillCursor <= position < PromptEnd(s.active)
  }

  predicate DecodesSlot(s: Slot, e: BatchEntry) {
    && Decodable(s)
    && s.active.pendingDecode == Some(e.token)
    && e.position == s.active.nextPosition
    && e.logits
  }

  // The k-th prompt token left, sampled from if it ends the prompt and anything is to be generated.
  predicate PrefillsSlot(s: Slot, e: BatchEntry, k: nat) {
    && Waiting(s, e.position)
    && e.position == s.active.prefillCursor + k
    && e.position < |s.active.tokens|
    && e.token == s.active.tokens[e.position]
    && (e.logits <==> e.position + 1 == |s.active.tokens| && s.active.maxTokens > 0)
  }

  function EarlierOf(entries: seq<BatchEntry>, j: nat): set<nat>
    requires j < |entries|
  {
    set k: nat | k < j && entries[k].slot == entries[j].slot
  }

  ghost predicate RightEntry(slots: seq<Slot>, entries: seq<BatchEntry>, j: nat)
    requires j < |entries|
  {
    var e := entries[j];
    && e.slot < |slots|
    && match e.kind
      case Decode => DecodesSlot(slots[e.slot], e)
      case Prefill => PrefillsSlot(slots[e.slot], e, |EarlierOf(entries, j)|)
  }

  // ----- The planner's functions in these terms -----

  lemma LeftIsWaiting(s: Slot, k: nat)
    ensures k < RemainingPrefill(s) <==> s.Active? && Waiting(s, s.active.prefillCursor + k)
  {
  }

  lemma PrefillOfSlot(s: Slot, slot: nat, k: nat)
    requires Servable(s) && k < RemainingPrefill(s)
    ensures PrefillEntry(s, slot, k).Some?
    ensures var e := PrefillEntry(s, slot, k).value;
      e.slot == slot && e.kind == Prefill && PrefillsSlot(s, e, k)
  {
    assert PrefillEntry(s, slot, k).Some?;
  }

  lemma DecodeOfSlot(s: Slot, slot: nat)
    ensures DecodingEntry(s, slot).Some? <==> Decodable(s)
    ensures DecodingEntry(s, slot).Some? ==>
      var e := DecodingEntry(s, slot).value;
      e.slot == slot && e.kind == Decode && DecodesSlot(s, e)
  {
  }

  // ----- Counting entries -----

  lemma {:induction false} OfCounts(entries: seq<BatchEntry>, slot: nat)
    ensures |Of(entries, slot)| == |set k: nat | k < |entries| && entries[k].slot == slot|
  {
    var here := set k: nat | k < |entries| && entries[k].slot == slot;
    if entries != [] {
      var n := |entries| - 1;
      OfCounts(entries[..n], slot);
      var before := set k: nat | k < |entries[..n]| && entries[..n][k].slot == slot;
      assert here == if entries[n].slot == slot then before + {n} else before;
    } else {
      assert here == {};
    }
  }

  lemma EarlierCounts(entries: seq<BatchEntry>, j: nat)
    requires j < |entries|
    ensures |EarlierOf(entries, j)| == |Of(entries[..j], entries[j].slot)|
  {
    OfCounts(entries[..j], entries[j].slot);
    assert EarlierOf(entries, j) == set k: nat | k < |entries[..j]| && entries[..j][k].slot == entries[j].slot;
  }

  lemma {:induction false} OfConcat(a: seq<BatchEntry>, b: seq<BatchEntry>, slot: nat)
    ensures Of(a + b, slot) == Of(a, slot) + Of(b, slot)
  {
    if b == [] {
      assert a + b == a;
    } else {
      var n := |b| - 1;
      OfConcat(a, b[..n], slot);
      assert (a + b)[..|a + b| - 1] == a + b[..n];
    }
  }

  lemma {:induction false} OfNone(entries: seq<BatchEntry>, slot: nat)
    requires forall e :: e in entries ==> e.slot != slot
    ensures Of(entries, slot) == []
  {
    if entries != [] {
      OfNone(entries[..|entries| - 1], slot);
    }
  }

  // ----- Every entry is right -----

  lemma DecodeIsRight(slots: seq<Slot>, entries: seq<BatchEntry>, j: nat)
    requires j < |entries| && entries[j] in Decodes(slots, |slots|)
    ensures entries[j].kind == Decode && RightEntry(slots, entries, j)
  {
    var decodes := Decodes(slots, |slots|);
    DecodesOrdered(slots, |slots|);
    var k :| 0 <= k < |decodes| && decodes[k] == entries[j];
    assert DecodeOf(slots, |slots|, decodes[k]);
    DecodeOfSlot(slots[entries[j].slot], entries[j].slot);
  }

  lemma NoDecodesOf(slots: seq<Slot>, slot: nat)
    requires slot < |slots| && RemainingPrefill(slots[slot]) > 0
    ensures Of(Decodes(slots, |slots|), slot) == []
  {
    var decodes := Decodes(slots, |slots|);
    DecodesOrdered(slots, |slots|);
    forall e | e in decodes
      ensures e.slot != slot
    {
      var k :| 0 <= k < |decodes| && decodes[k] == e;
      assert DecodeOf(slots, |slots|, decodes[k]);
    }
    OfNone(decodes, slot);
  }

  lemma PrefillIsRight(slots: seq<Slot>, start: nat, part: seq<BatchEntry>, i: nat)
    requires AllServable(slots) && start < |slots| && PrefillPart(slots, start, part) && i < |part|
    ensures var entries, j := Decodes(slots, |slots|) + part, |Decodes(slots, |slots|)| + i;
      entries[j].kind == Prefill && RightEntry(slots, entries, j)
  {
    var decodes, e := Decodes(slots, |slots|), part[i];
    var entries, j := decodes + part, |decodes| + i;
    var slot, at := e.slot, |Of(part[..i], e.slot)|;
    var count := |Of(part, slot)|;
    assert part[i] in part;
    assert SlotTaken(slots[slot], slot, part, count);
    PositionInOf(part, i);
    RunExact(slots[slot], slot, 0, count);
    PrefillOfSlot(slots[slot], slot, at);
    NoDecodesOf(slots, slot);
    EarlierCounts(entries, j);
    assert entries[..j] == decodes + part[..i];
    OfConcat(decodes, part[..i], slot);
  }

  lemma DecodesAreRight(slots: seq<Slot>, entries: seq<BatchEntry>, n: nat, j: nat)
    requires j < n <= |Decodes(slots, |slots|)| && n <= |entries|
    requires entries[..n] == Decodes(slots, |slots|)[..n]
    ensures entries[j].kind == Decode && RightEntry(slots, entries, j)
    ensures forall i :: 0 <= i < j ==> entries[i].kind == Decode && entries[i].slot < entries[j].slot
  {
    var decodes := Decodes(slots, |slots|);
    DecodesOrdered(slots, |slots|);
    forall i | 0 <= i <= j
      ensures entries[i] == decodes[i] && entries[i].kind == Decode
      ensures i < j ==> entries[i].slot < entries[j].slot
    {
      assert entries[..n][i] == decodes[..n][i] && entries[..n][j] == decodes[..n][j];
      DecodeIsRight(slots, entries, i);
    }
    DecodeIsRight(slots, entries, j);
  }

  lemma PlanInTwo(slots: seq<Slot>, capacity: nat, cursor: nat, plan: BatchPlan)
    requires GoodPlan(slots, capacity, cursor, plan)
    ensures var decodes := Decodes(slots, |slots|);
      var n := Min(|decodes|, |plan.entries|);
      && |plan.entries| <= capacity
      && plan.entries[..n] == decodes[..n]
      && (|plan.entries| > n ==>
           && n == |decodes| && slots != []
           && plan.entries == decodes + plan.entries[n..]
           && PrefillPart(slots, Start(cursor, |slots|), plan.entries[n..]))
  {
  }

  lemma PlanIsRight(slots: seq<Slot>, capacity: nat, cursor: nat, plan: BatchPlan, j: nat)
    requires AllServable(slots) && GoodPlan(slots, capacity, cursor, plan) && j < |plan.entries|
    ensures RightEntry(slots, plan.entries, j)
    ensures forall i :: 0 <= i < j && plan.entries[j].kind == Decode ==>
      plan.entries[i].kind == Decode && plan.entries[i].slot < plan.entries[j].slot
  {
    PlanInTwo(slots, capacity, cursor, plan);
    var n := Min(|Decodes(slots, |slots|)|, |plan.entries|);
    if j < n {
      DecodesAreRight(slots, plan.entries, n, j);
    } else {
      PrefillIsRight(slots, Start(cursor, |slots|), plan.entries[n..], j - n);
    }
  }

  // ----- Nothing is left out while there is room -----

  lemma {:induction false} DecodesComplete(slots: seq<Slot>, n: nat, i: nat)
    requires i < n <= |slots| && Decodable(slots[i])
    ensures DecodingEntry(slots[i], i).Some? && DecodingEntry(slots[i], i).value in Decodes(slots, n)
  {
    DecodeOfSlot(slots[i], i);
    if i < n - 1 {
      DecodesComplete(slots, n - 1, i);
    }
  }

  function Counts(slots: seq<Slot>, part: seq<BatchEntry>): seq<nat> {
    seq(|slots|, i requires 0 <= i < |slots| => |Of(part, i)|)
  }

  lemma {:induction false} PartIsCounted(slots: seq<Slot>, part: seq<BatchEntry>)
    requires forall e :: e in part ==> e.slot < |slots|
    ensures Sum(Counts(slots, part)) == |part|
  {
    if part == [] {
      SumOfZeros(Counts(slots, part));
    } else {
      var n := |part| - 1;
      var before, slot := Counts(slots, part[..n]), part[n].slot;
      assert part[n] in part;
      PartIsCounted(slots, part[..n]);
      SumUpdate(before, slot, 1);
      assert Counts(slots, part) == before[slot := before[slot] + 1];
    }
  }

  lemma {:induction false} SumIsTight(slots: seq<Slot>, counts: seq<nat>, i: nat)
    requires |counts| == |slots| && i < |slots|
    requires forall k :: 0 <= k < |slots| ==> counts[k] <= RemainingPrefill(slots[k])
    requires Sum(counts) == TotalPrefill(slots)
    ensures counts[i] == RemainingPrefill(slots[i])
  {
    var n := |slots| - 1;
    SumAgainstTotal(slots[..n], counts[..n]);
    if i < n {
      SumIsTight(slots[..n], counts[..n], i);
    }
  }

  lemma AllPrefilled(slots: seq<Slot>, start: nat, part: seq<BatchEntry>, i: nat, position: nat) returns (at: nat)
    requires AllServable(slots) && start < |slots| && PrefillPart(slots, start, part)
    requires |part| == TotalPrefill(slots)
    requires i < |slots| && Waiting(slots[i], position)
    ensures at < |part| && part[at].slot == i && part[at].kind == Prefill && part[at].position == position
  {
    var count, k := |Of(part, i)|, position - slots[i].active.prefillCursor;
    forall m | 0 <= m < |slots|
      ensures Counts(slots, part)[m] <= RemainingPrefill(slots[m])
    {
      assert SlotTaken(slots[m], m, part, |Of(part, m)|);
    }
    PartIsCounted(slots, part);
    SumIsTight(slots, Counts(slots, part), i);
    assert SlotTaken(slots[i], i, part, count);
    LeftIsWaiting(slots[i], k);
    RunExact(slots[i], i, 0, count);
    PrefillOfSlot(slots[i], i, k);
    at := OfIsFrom(part, i, k);
  }

  lemma {:induction false} OfIsFrom(entries: seq<BatchEntry>, slot: nat, k: nat) returns (at: nat)
    requires k < |Of(entries, slot)|
    ensures at < |entries| && entries[at] == Of(entries, slot)[k] && entries[at].slot == slot
  {
    var n := |entries| - 1;
    if k < |Of(entries[..n], slot)| {
      at := OfIsFrom(entries[..n], slot, k);
    } else {
      at := n;
    }
  }

  ghost predicate HasEntry(entries: seq<BatchEntry>, slot: nat, kind: EntryKind, position: nat) {
    exists j :: 0 <= j < |entries| &&
      entries[j].slot == slot && entries[j].kind == kind && entries[j].position == position
  }

  // A batch that is not full holds every token that could have been in it.
  lemma PlanIsComplete(slots: seq<Slot>, capacity: nat, cursor: nat, plan: BatchPlan, i: nat, position: nat)
    requires AllServable(slots) && GoodPlan(slots, capacity, cursor, plan) && i < |slots|
    ensures |plan.entries| <= capacity
    ensures |plan.entries| < capacity && Decodable(slots[i]) ==>
      HasEntry(plan.entries, i, Decode, slots[i].active.nextPosition)
    ensures |plan.entries| < capacity && Waiting(slots[i], position) ==> HasEntry(plan.entries, i, Prefill, position)
  {
    var decodes := Decodes(slots, |slots|);
    if |plan.entries| < capacity {
      var part := plan.entries[|decodes|..];
      assert plan.entries == decodes + part;
      if Decodable(slots[i]) {
        DecodesComplete(slots, |slots|, i);
        DecodeOfSlot(slots[i], i);
        var k :| 0 <= k < |decodes| && decodes[k] == DecodingEntry(slots[i], i).value;
        assert plan.entries[k] == decodes[k];
      }
      if Waiting(slots[i], position) {
        var at := AllPrefilled(slots, Start(cursor, |slots|), part, i, position);
        assert plan.entries[|decodes| + at] == part[at];
      }
    }
  }
}
