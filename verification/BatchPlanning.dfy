// The batch planner: one token for every decoding slot first, then prompt tokens for the slots
// still prefilling, starting from a rotating cursor.
module BatchPlanning {
  import opened Wrappers
  import opened Arithmetic

  const I32_MAX := 0x7fff_ffff

  // An occupied slot.  `flushing` says that output of an earlier tick is still queued.
  datatype ActiveSlot = ActiveSlot(
    tokens: seq<int>, prefillCursor: nat, cacheCaptureAt: Option<nat>,
    pendingDecode: Option<int>, nextPosition: nat, maxTokens: nat, flushing: bool)

  // Vacant, reserved and draining slots contribute nothing to a batch.
  datatype Slot = Inactive | Active(active: ActiveSlot)

  datatype EntryKind = Decode | Prefill

  datatype BatchEntry = BatchEntry(slot: nat, token: int, position: nat, logits: bool, kind: EntryKind)

  datatype BatchPlan = BatchPlan(entries: seq<BatchEntry>, nextPrefillSlot: nat)

  function DecodingEntry(s: Slot, slot: nat): Option<BatchEntry> {
    if s.Inactive? || s.active.flushing || s.active.pendingDecode.None? || s.active.nextPosition > I32_MAX
    then None
    else Some(BatchEntry(slot, s.active.pendingDecode.value, s.active.nextPosition, true, Decode))
  }

  function RemainingPrefill(s: Slot): nat {
    if s.Inactive? || s.active.flushing || s.active.pendingDecode.Some? then 0
    else
      var end := if s.active.cacheCaptureAt.Some? then s.active.cacheCaptureAt.value else |s.active.tokens|;
      if end < s.active.prefillCursor then 0 else end - s.active.prefillCursor
  }

  function PrefillEntry(s: Slot, slot: nat, offset: nat): Option<BatchEntry> {
    if s.Inactive? then None
    else
      var index := s.active.prefillCursor + offset;
      if index >= |s.active.tokens| || index > I32_MAX then None
      else
        var logits := index + 1 == |s.active.tokens| && s.active.maxTokens > 0;
        Some(BatchEntry(slot, s.active.tokens[index], index, logits, Prefill))
  }

  // Every token the slot says it has left can be placed.
  ghost predicate Servable(s: Slot) {
    forall offset: nat, slot: nat :: offset < RemainingPrefill(s) ==> PrefillEntry(s, slot, offset).Some?
  }

  ghost predicate AllServable(slots: seq<Slot>) {
    forall i :: 0 <= i < |slots| ==> Servable(slots[i])
  }

  // That is: what is left ends within the prompt and within the positions a batch can number.
  lemma ServableExact(s: Slot)
    ensures Servable(s) <==>
      || RemainingPrefill(s) == 0
      || s.active.prefillCursor + RemainingPrefill(s) <= Min(|s.active.tokens|, I32_MAX + 1)
  {
    var left := RemainingPrefill(s);
    if Servable(s) && left > 0 {
      assert PrefillEntry(s, 0, left - 1).Some?;
    }
  }

  // ----- What a plan has to be -----

  function Decodes(slots: seq<Slot>, n: nat): seq<BatchEntry>
    requires n <= |slots|
  {
    if n == 0 then []
    else
      var rest, last := Decodes(slots, n - 1), DecodingEntry(slots[n - 1], n - 1);
      if last.Some? then rest + [last.value] else rest
  }

  // Decode entries come in slot order, one a slot, and only from slots with nothing to prefill.
  ghost predicate DecodesInOrder(slots: seq<Slot>, n: nat, entries: seq<BatchEntry>)
    requires n <= |slots|
  {
    && (forall k :: 0 <= k < |entries| ==> DecodeOf(slots, n, entries[k]))
    && (forall j, k :: 0 <= j < k < |entries| ==> entries[j].slot < entries[k].slot)
  }

  ghost predicate DecodeOf(slots: seq<Slot>, n: nat, e: BatchEntry)
    requires n <= |slots|
  {
    && e.slot < n
    && Some(e) == DecodingEntry(slots[e.slot], e.slot)
    && RemainingPrefill(slots[e.slot]) == 0
  }

  lemma {:induction false} DecodesOrdered(slots: seq<Slot>, n: nat)
    requires n <= |slots|
    ensures DecodesInOrder(slots, n, Decodes(slots, n))
  {
    if n > 0 {
      DecodesOrdered(slots, n - 1);
      var rest, all := Decodes(slots, n - 1), Decodes(slots, n);
      forall k | 0 <= k < |all|
        ensures DecodeOf(slots, n, all[k])
      {
        assert k < |rest| ==> all[k] == rest[k] && DecodeOf(slots, n - 1, rest[k]);
      }
    }
  }

  function TotalPrefill(slots: seq<Slot>): nat {
    if slots == [] then 0 else TotalPrefill(slots[..|slots| - 1]) + RemainingPrefill(slots[|slots| - 1])
  }

  // The next `count` prompt tokens of a slot, in order, as far as they can be placed.
  function PrefillRun(s: Slot, slot: nat, from: nat, count: nat): seq<BatchEntry> {
    if count == 0 then []
    else
      var rest, last := PrefillRun(s, slot, from, count - 1), PrefillEntry(s, slot, from + count - 1);
      if last.Some? then rest + [last.value] else rest
  }

  lemma {:induction false} RunExact(s: Slot, slot: nat, from: nat, count: nat)
    requires Servable(s) && from + count <= RemainingPrefill(s)
    ensures |PrefillRun(s, slot, from, count)| == count
    ensures forall k :: 0 <= k < count ==>
      Some(PrefillRun(s, slot, from, count)[k]) == PrefillEntry(s, slot, from + k)
  {
    if count > 0 {
      RunExact(s, slot, from, count - 1);
      assert PrefillEntry(s, slot, from + count - 1).Some?;
    }
  }

  lemma {:induction false} RunContinues(s: Slot, slot: nat, done: nat, more: nat)
    ensures PrefillRun(s, slot, 0, done) + PrefillRun(s, slot, done, more) == PrefillRun(s, slot, 0, done + more)
  {
    if more > 0 {
      RunContinues(s, slot, done, more - 1);
    }
  }

  lemma {:induction false} RunInSlot(s: Slot, slot: nat, from: nat, count: nat)
    ensures forall e :: e in PrefillRun(s, slot, from, count) ==> e.slot == slot
  {
    if count > 0 {
      RunInSlot(s, slot, from, count - 1);
    }
  }

  function Of(entries: seq<BatchEntry>, slot: nat): seq<BatchEntry> {
    if entries == [] then []
    else
      var rest, last := Of(entries[..|entries| - 1], slot), entries[|entries| - 1];
      if last.slot == slot then rest + [last] else rest
  }

  // The remainder modulo n of a position less than one turn too far.
  function Wrap(a: nat, n: nat): (r: nat)
    requires a < 2 * n
    ensures r < n
  {
    if a < n then a else a - n
  }

  lemma WrapIsMod(a: nat, n: nat)
    requires a < 2 * n
    ensures Wrap(a, n) == a % n
  {
  }

  // Slots with prompt tokens left, in the order the cursor meets them.
  function Eligible(slots: seq<Slot>, start: nat, offset: nat): (eligible: seq<nat>)
    requires start < |slots| && offset <= |slots|
    ensures forall k :: 0 <= k < |eligible| ==> eligible[k] < |slots| && RemainingPrefill(slots[eligible[k]]) > 0
    decreases |slots| - offset
  {
    if offset == |slots| then []
    else
      var slot := Wrap(start + offset, |slots|);
      var rest := Eligible(slots, start, offset + 1);
      if RemainingPrefill(slots[slot]) > 0 then [slot] + rest else rest
  }

  // The part holds exactly the first `count` prompt tokens the slot has left, in order.
  ghost predicate SlotTaken(s: Slot, slot: nat, part: seq<BatchEntry>, count: nat) {
    count <= RemainingPrefill(s) && Of(part, slot) == PrefillRun(s, slot, 0, count)
  }

  // The prefill part of a batch: for each slot a prefix of what it has left, the first one in
  // cursor order served first.
  ghost predicate PrefillPart(slots: seq<Slot>, start: nat, part: seq<BatchEntry>)
    requires start < |slots|
  {
    && (forall e :: e in part ==> e.slot < |slots|)
    && (forall i {:trigger Of(part, i)} :: 0 <= i < |slots| ==> SlotTaken(slots[i], i, part, |Of(part, i)|))
    && (part != [] ==>
      var eligible := Eligible(slots, start, 0);
      eligible != [] && part[0].slot == eligible[0])
  }

  // What the first k slots in cursor order get in a round on top of `part`: each a chunk, as far
  // as it has that much left and the capacity lasts.
  function Given(
    slots: seq<Slot>, eligible: seq<nat>, k: nat, capacity: nat, chunk: nat, part: seq<BatchEntry>, consumed: seq<nat>)
    : seq<BatchEntry>
    requires k <= |eligible| && InRange(eligible, |slots|) && |consumed| == |slots|
  {
    if k == 0 then part
    else
      var before, slot := Given(slots, eligible, k - 1, capacity, chunk, part, consumed), eligible[k - 1];
      var left := Room(RemainingPrefill(slots[slot]), consumed[slot]);
      before + PrefillRun(slots[slot], slot, consumed[slot], Min(Min(left, chunk), Room(capacity, |before|)))
  }

  ghost predicate InRange(eligible: seq<nat>, n: nat) {
    forall k :: 0 <= k < |eligible| ==> eligible[k] < n
  }

  function Zeros(n: nat): seq<nat> {
    seq(n, _ => 0)
  }

  function FirstRound(slots: seq<Slot>, eligible: seq<nat>, k: nat, capacity: nat, chunk: nat): seq<BatchEntry>
    requires k <= |eligible| && InRange(eligible, |slots|)
  {
    Given(slots, eligible, k, capacity, chunk, [], Zeros(|slots|))
  }

  function Room(capacity: nat, used: nat): nat {
    if used < capacity then capacity - used else 0
  }

  function Chunk(capacity: nat, eligible: seq<nat>): (r: nat)
    ensures capacity > 0 ==> r > 0
  {
    Share(capacity, if eligible == [] then 1 else |eligible|)
  }

  // The slots with prompt tokens left share the capacity evenly before any gets more.
  ghost predicate SharedPart(slots: seq<Slot>, start: nat, capacity: nat, part: seq<BatchEntry>)
    requires start < |slots|
  {
    var eligible := Eligible(slots, start, 0);
    FirstRound(slots, eligible, |eligible|, capacity, Chunk(capacity, eligible)) <= part
  }

  // The cursor moves past the first slot served.
  function NextCursor(slots: seq<Slot>, start: nat): nat
    requires start < |slots|
  {
    var eligible := Eligible(slots, start, 0);
    if eligible == [] then start else Wrap(eligible[0] + 1, |slots|)
  }

  ghost predicate ValidPlan(slots: seq<Slot>, capacity: nat, cursor: nat, plan: BatchPlan) {
    var decodes := Decodes(slots, |slots|);
    && |plan.entries| == Min(capacity, |decodes| + TotalPrefill(slots))
    && if slots == [] || capacity <= |decodes| then
        plan.entries == decodes[..Min(capacity, |decodes|)] && plan.nextPrefillSlot == cursor
      else
        var start := Start(cursor, |slots|);
        && |decodes| <= |plan.entries|
        && plan.entries[..|decodes|] == decodes
        && PrefillPart(slots, start, plan.entries[|decodes|..])
        && plan.nextPrefillSlot == NextCursor(slots, start)
  }

  // The slot at which the cursor stands.
  function Start(cursor: nat, n: nat): (r: nat)
    requires n > 0
    ensures r < n
  {
    if cursor < n then cursor else Start(cursor - n, n)
  }

  lemma {:induction false} StartIsMod(cursor: nat, n: nat)
    requires n > 0
    ensures Start(cursor, n) == cursor % n
  {
    if cursor >= n {
      StartIsMod(cursor - n, n);
      ModOfLess(cursor, n);
    }
  }

  ghost predicate EvenPlan(slots: seq<Slot>, capacity: nat, cursor: nat, plan: BatchPlan) {
    var decodes := |Decodes(slots, |slots|)|;
    slots != [] && decodes < capacity ==>
      && decodes <= |plan.entries|
      && SharedPart(slots, Start(cursor, |slots|), capacity - decodes, plan.entries[decodes..])
  }

  ghost predicate GoodPlan(slots: seq<Slot>, capacity: nat, cursor: nat, plan: BatchPlan) {
    ValidPlan(slots, capacity, cursor, plan) && EvenPlan(slots, capacity, cursor, plan)
  }

  // ----- Planning one batch -----

  method CollectDecodes(slots: seq<Slot>, capacity: nat) returns (entries: seq<BatchEntry>)
    requires capacity > 0 || Decodes(slots, |slots|) == []
    ensures entries == Decodes(slots, |slots|)[..Min(capacity, |Decodes(slots, |slots|)|)]
    ensures |entries| < capacity ==> entries == Decodes(slots, |slots|)
  {
    entries := [];
    var i := 0;
    while i < |slots|
      invariant 0 <= i <= |slots|
      invariant entries == Decodes(slots, i)
      invariant |entries| < capacity || (capacity == 0 && entries == [])
    {
      DecodesGrow(slots, i + 1, |slots|);
      var entry := DecodingEntry(slots[i], i);
      if entry.Some? {
        entries := entries + [entry.value];
        if |entries| == capacity {
          return;
        }
      }
      i := i + 1;
    }
  }

  // With no capacity at all there must be no decoding slot: the program subtracts the number of
  // decode entries from the capacity.
  method PlanBatch(slots: seq<Slot>, capacity: nat, cursor: nat) returns (plan: BatchPlan)
    requires capacity > 0 || Decodes(slots, |slots|) == []
    requires AllServable(slots)
    ensures GoodPlan(slots, capacity, cursor, plan)
  {
    var entries := CollectDecodes(slots, capacity);
    if |entries| == capacity || slots == [] {
      PlanIsFull(slots, capacity, cursor);
      return BatchPlan(entries, cursor);
    }

    plan := PlanWithRoom(slots, capacity, cursor, entries);
  }

  method PlanWithRoom(slots: seq<Slot>, capacity: nat, cursor: nat, entries: seq<BatchEntry>) returns (plan: BatchPlan)
    requires AllServable(slots) && slots != []
    requires entries == Decodes(slots, |slots|) && |entries| < capacity
    ensures GoodPlan(slots, capacity, cursor, plan)
  {
    var start := Start(cursor, |slots|);
    var eligible := Eligible(slots, start, 0);
    var part := FillPrefill(slots, start, eligible, capacity - |entries|, Chunk(capacity - |entries|, eligible));
    var next := AdvanceCursor(slots, start, eligible);
    plan := BatchPlan(entries + part, next);
    assert plan.entries[..|entries|] == entries && plan.entries[|entries|..] == part;
  }

  method AdvanceCursor(slots: seq<Slot>, start: nat, eligible: seq<nat>) returns (next: nat)
    requires start < |slots| && eligible == Eligible(slots, start, 0)
    ensures next == NextCursor(slots, start)
  {
    next := start;
    if eligible != [] {
      next := (eligible[0] + 1) % |slots|;
      WrapIsMod(eligible[0] + 1, |slots|);
    }
  }

  lemma PlanIsFull(slots: seq<Slot>, capacity: nat, cursor: nat)
    requires slots == [] || |Decodes(slots, |slots|)| >= capacity
    ensures var plan := BatchPlan(Decodes(slots, |slots|)[..Min(capacity, |Decodes(slots, |slots|)|)], cursor);
      GoodPlan(slots, capacity, cursor, plan)
  {
  }

  lemma {:induction false} DecodesGrow(slots: seq<Slot>, i: nat, n: nat)
    requires i <= n <= |slots|
    ensures |Decodes(slots, i)| <= |Decodes(slots, n)| && Decodes(slots, n)[..|Decodes(slots, i)|] == Decodes(slots, i)
  {
    if i < n {
      DecodesGrow(slots, i, n - 1);
    }
  }

  // ----- Book-keeping of the prefill rounds -----

  function Sum(counts: seq<nat>): nat {
    if counts == [] then 0 else Sum(counts[..|counts| - 1]) + counts[|counts| - 1]
  }

  lemma {:induction false} SumUpdate(counts: seq<nat>, i: nat, more: nat)
    requires i < |counts|
    ensures Sum(counts[i := counts[i] + more]) == Sum(counts) + more
  {
    var n := |counts| - 1;
    var updated := counts[i := counts[i] + more];
    if i == n {
      assert updated[..n] == counts[..n];
    } else {
      SumUpdate(counts[..n], i, more);
      assert updated[..n] == counts[..n][i := counts[i] + more];
    }
  }

  lemma {:induction false} SumOfZeros(counts: seq<nat>)
    requires forall i :: 0 <= i < |counts| ==> counts[i] == 0
    ensures Sum(counts) == 0
  {
    if counts != [] {
      SumOfZeros(counts[..|counts| - 1]);
    }
  }

  lemma {:induction false} SumAgainstTotal(slots: seq<Slot>, counts: seq<nat>)
    requires |counts| == |slots|
    requires forall i :: 0 <= i < |slots| ==> counts[i] <= RemainingPrefill(slots[i])
    ensures Sum(counts) <= TotalPrefill(slots)
    ensures (forall i :: 0 <= i < |slots| ==> counts[i] == RemainingPrefill(slots[i])) ==>
      Sum(counts) == TotalPrefill(slots)
  {
    if slots != [] {
      SumAgainstTotal(slots[..|slots| - 1], counts[..|slots| - 1]);
    }
  }

  lemma {:induction false} OfAppend(part: seq<BatchEntry>, run: seq<BatchEntry>, slot: nat, i: nat)
    requires forall e :: e in run ==> e.slot == slot
    ensures Of(part + run, i) == Of(part, i) + if i == slot then run else []
  {
    if run == [] {
      assert part + run == part;
    } else {
      var n := |run| - 1;
      OfAppend(part, run[..n], slot, i);
      assert (part + run)[..|part + run| - 1] == part + run[..n];
    }
  }

  ghost predicate Consumed(slots: seq<Slot>, part: seq<BatchEntry>, consumed: seq<nat>) {
    && |consumed| == |slots|
    && |part| == Sum(consumed)
    && (forall e :: e in part ==> e.slot < |slots|)
    && (forall i {:trigger SlotTaken(slots[i], i, part, consumed[i])} :: 0 <= i < |slots| ==>
      SlotTaken(slots[i], i, part, consumed[i]))
  }

  lemma ConsumeMore(slots: seq<Slot>, part: seq<BatchEntry>, consumed: seq<nat>, slot: nat, take: nat)
    requires AllServable(slots)
    requires Consumed(slots, part, consumed)
    requires slot < |slots| && consumed[slot] + take <= RemainingPrefill(slots[slot])
    ensures Consumed(
      slots, part + PrefillRun(slots[slot], slot, consumed[slot], take), consumed[slot := consumed[slot] + take])
  {
    var run, consumed' := PrefillRun(slots[slot], slot, consumed[slot], take), consumed[slot := consumed[slot] + take];
    SumUpdate(consumed, slot, take);
    RunExact(slots[slot], slot, consumed[slot], take);
    RunInSlot(slots[slot], slot, consumed[slot], take);
    RunContinues(slots[slot], slot, consumed[slot], take);
    forall i | 0 <= i < |slots|
      ensures SlotTaken(slots[i], i, part + run, consumed'[i])
    {
      OfAppend(part, run, slot, i);
      assert SlotTaken(slots[i], i, part, consumed[i]);
    }
  }

  // An equal share of `a` for each of `b`, rounded up.
  function Share(a: nat, b: nat): (r: nat)
    requires b > 0
    ensures a > 0 ==> r > 0
  {
    if a <= b then (if a == 0 then 0 else 1) else Share(a - b, b) + 1
  }

  lemma {:induction false} ShareIsDivCeil(a: nat, b: nat)
    requires b > 0
    ensures Share(a, b) == DivCeil(a, b)
  {
    if a == 0 {
      QuotientIs(b - 1, b, 0, b - 1);
    } else if a <= b {
      QuotientIs(a + b - 1, b, 1, a - 1);
    } else {
      ShareIsDivCeil(a - b, b);
      var q, r := (a - 1) / b, (a - 1) % b;
      assert a + b - 1 == (q + 1) * b + r;
      QuotientIs(a + b - 1, b, q + 1, r);
    }
  }

  ghost predicate StartsAt(part: seq<BatchEntry>, eligible: seq<nat>) {
    part != [] ==> eligible != [] && part[0].slot == eligible[0]
  }

  // Hands the capacity left out in rounds of at most `chunk` tokens a slot.
  method FillPrefill(slots: seq<Slot>, start: nat, eligible: seq<nat>, capacity: nat, chunk: nat)
    returns (part: seq<BatchEntry>)
    requires start < |slots| && capacity > 0 && chunk > 0 && eligible == Eligible(slots, start, 0)
    requires AllServable(slots)
    ensures PrefillPart(slots, start, part)
    ensures FirstRound(slots, eligible, |eligible|, capacity, chunk) <= part
    ensures |part| == Min(capacity, TotalPrefill(slots))
  {
    part := [];
    var consumed := Zeros(|slots|);
    SumOfZeros(consumed);
    EligibleDistinct(slots, start, 0);
    while |part| < capacity
      invariant |part| <= capacity
      invariant Consumed(slots, part, consumed) && StartsAt(part, eligible)
      invariant
        || (part == [] && consumed == Zeros(|slots|))
        || FirstRound(slots, eligible, |eligible|, capacity, chunk) <= part
      decreases capacity - |part|
    {
      var progressed;
      part, consumed, progressed := FillRound(slots, eligible, capacity, chunk, part, consumed);
      if !progressed {
        NothingLeft(slots, start, part, consumed);
        break;
      }
    }
    ConsumedIsPart(slots, start, part, consumed);
  }

  lemma NothingLeft(slots: seq<Slot>, start: nat, part: seq<BatchEntry>, consumed: seq<nat>)
    requires start < |slots| && Consumed(slots, part, consumed)
    requires Exhausted(slots, Eligible(slots, start, 0), consumed, |Eligible(slots, start, 0)|)
    ensures |part| == TotalPrefill(slots)
  {
    EligibleMembers(slots, start);
    forall i | 0 <= i < |slots|
      ensures consumed[i] == RemainingPrefill(slots[i])
    {
      assert SlotTaken(slots[i], i, part, consumed[i]);
      assert i in Eligible(slots, start, 0) <==> RemainingPrefill(slots[i]) > 0;
    }
    SumAgainstTotal(slots, consumed);
  }

  lemma ConsumedIsPart(slots: seq<Slot>, start: nat, part: seq<BatchEntry>, consumed: seq<nat>)
    requires start < |slots| && AllServable(slots)
    requires Consumed(slots, part, consumed) && StartsAt(part, Eligible(slots, start, 0))
    ensures PrefillPart(slots, start, part)
    ensures |part| <= TotalPrefill(slots)
  {
    forall i | 0 <= i < |slots|
      ensures consumed[i] <= RemainingPrefill(slots[i])
      ensures SlotTaken(slots[i], i, part, |Of(part, i)|)
    {
      assert SlotTaken(slots[i], i, part, consumed[i]);
      RunExact(slots[i], i, 0, consumed[i]);
    }
    SumAgainstTotal(slots, consumed);
  }

  // The first k slots of the round have nothing left.
  ghost predicate Exhausted(slots: seq<Slot>, eligible: seq<nat>, consumed: seq<nat>, k: nat)
    requires |consumed| == |slots| && k <= |eligible|
  {
    forall j :: 0 <= j < k ==> eligible[j] < |slots| && consumed[eligible[j]] == RemainingPrefill(slots[eligible[j]])
  }

  method FillRound(
    slots: seq<Slot>, eligible: seq<nat>, capacity: nat, chunk: nat, part0: seq<BatchEntry>, consumed0: seq<nat>)
    returns (part: seq<BatchEntry>, consumed: seq<nat>, progressed: bool)
    requires AllServable(slots) && DistinctSlots(eligible) && InRange(eligible, |slots|)
    requires forall k :: 0 <= k < |eligible| ==> eligible[k] < |slots| && RemainingPrefill(slots[eligible[k]]) > 0
    requires Consumed(slots, part0, consumed0) && StartsAt(part0, eligible)
    requires |part0| < capacity && chunk > 0
    ensures Consumed(slots, part, consumed) && StartsAt(part, eligible)
    ensures part0 <= part && |part| <= capacity && (progressed <==> |part| > |part0|)
    ensures !progressed ==> Exhausted(slots, eligible, consumed, |eligible|)
    ensures part == Given(slots, eligible, |eligible|, capacity, chunk, part0, consumed0)
  {
    part, consumed, progressed := part0, consumed0, false;
    var k := 0;
    while k < |eligible|
      invariant 0 <= k <= |eligible|
      invariant Consumed(slots, part, consumed) && StartsAt(part, eligible)
      invariant part0 <= part && |part| < capacity && (progressed <==> |part| > |part0|)
      invariant k > 0 ==> part != []
      invariant !progressed ==> Exhausted(slots, eligible, consumed, k)
      invariant InRound(slots, eligible, k, capacity, chunk, part0, consumed0, part, consumed)
    {
      ghost var before, was := part, consumed;
      var take;
      part, consumed, take := Serve(slots, eligible, k, capacity, chunk, part, consumed);
      progressed := progressed || take > 0;
      RoundGrows(slots, eligible, k, capacity, chunk, part0, consumed0, before, was, part, consumed);
      if |part| == capacity {
        RoundIsFull(slots, eligible, k + 1, capacity, chunk, part0, consumed0);
        break;
      }
      k := k + 1;
    }
  }

  ghost predicate DistinctSlots(eligible: seq<nat>) {
    forall j, k :: 0 <= j < k < |eligible| ==> eligible[j] != eligible[k]
  }

  lemma {:induction false} EligibleDistinct(slots: seq<Slot>, start: nat, offset: nat)
    requires start < |slots| && offset <= |slots|
    ensures DistinctSlots(Eligible(slots, start, offset))
    decreases |slots| - offset
  {
    if offset < |slots| {
      var rest, slot := Eligible(slots, start, offset + 1), Wrap(start + offset, |slots|);
      EligibleDistinct(slots, start, offset + 1);
      EligibleFrom(slots, start, offset + 1, slot);
      DistinctCons(slot, rest);
    }
  }

  lemma DistinctCons(slot: nat, rest: seq<nat>)
    requires DistinctSlots(rest)
    ensures slot !in rest ==> DistinctSlots([slot] + rest)
  {
  }

  // The round has served its first k slots.
  ghost predicate InRound(
    slots: seq<Slot>, eligible: seq<nat>, k: nat, capacity: nat, chunk: nat,
    part0: seq<BatchEntry>, consumed0: seq<nat>, part: seq<BatchEntry>, consumed: seq<nat>)
  {
    && k <= |eligible| && InRange(eligible, |slots|) && |consumed0| == |consumed| == |slots|
    && part == Given(slots, eligible, k, capacity, chunk, part0, consumed0)
    && (forall j :: k <= j < |eligible| ==> consumed[eligible[j]] == consumed0[eligible[j]])
  }

  lemma RoundGrows(
    slots: seq<Slot>, eligible: seq<nat>, k: nat, capacity: nat, chunk: nat,
    part0: seq<BatchEntry>, consumed0: seq<nat>,
    part: seq<BatchEntry>, consumed: seq<nat>, part': seq<BatchEntry>, consumed': seq<nat>)
    requires InRound(slots, eligible, k, capacity, chunk, part0, consumed0, part, consumed)
    requires k < |eligible| && DistinctSlots(eligible)
    requires Served(slots, eligible[k], capacity, chunk, part, consumed, part', consumed')
    ensures InRound(slots, eligible, k + 1, capacity, chunk, part0, consumed0, part', consumed')
  {
  }

  lemma {:induction false} RoundIsFull(
    slots: seq<Slot>, eligible: seq<nat>, k: nat, capacity: nat, chunk: nat, part0: seq<BatchEntry>,
    consumed0: seq<nat>)
    requires k <= |eligible| && InRange(eligible, |slots|) && |consumed0| == |slots|
    requires |Given(slots, eligible, k, capacity, chunk, part0, consumed0)| >= capacity
    ensures Given(slots, eligible, |eligible|, capacity, chunk, part0, consumed0) ==
      Given(slots, eligible, k, capacity, chunk, part0, consumed0)
    decreases |eligible| - k
  {
    if k < |eligible| {
      RoundIsFull(slots, eligible, k + 1, capacity, chunk, part0, consumed0);
    }
  }

  // One slot gets the next tokens it has left, at most a chunk and no more than fit.
  ghost predicate Served(
    slots: seq<Slot>, slot: nat, capacity: nat, chunk: nat,
    part: seq<BatchEntry>, consumed: seq<nat>, part': seq<BatchEntry>, consumed': seq<nat>)
  {
    && slot < |slots| == |consumed| == |consumed'|
    && consumed[slot] <= RemainingPrefill(slots[slot])
    && var take := Min(Min(RemainingPrefill(slots[slot]) - consumed[slot], chunk), Room(capacity, |part|));
      && part' == part + PrefillRun(slots[slot], slot, consumed[slot], take)
      && consumed' == consumed[slot := consumed[slot] + take]
  }

  method Serve(
    slots: seq<Slot>, eligible: seq<nat>, k: nat, capacity: nat, chunk: nat, part0: seq<BatchEntry>,
    consumed0: seq<nat>)
    returns (part: seq<BatchEntry>, consumed: seq<nat>, take: nat)
    requires AllServable(slots)
    requires k < |eligible| && eligible[k] < |slots| && RemainingPrefill(slots[eligible[k]]) > 0
    requires Consumed(slots, part0, consumed0) && StartsAt(part0, eligible) && (k > 0 ==> part0 != [])
    requires |part0| < capacity && chunk > 0
    ensures Consumed(slots, part, consumed) && StartsAt(part, eligible) && part != []
    ensures |part| <= capacity && Served(slots, eligible[k], capacity, chunk, part0, consumed0, part, consumed)
    ensures |part| == |part0| + take
    ensures take == 0 ==> consumed == consumed0 && consumed[eligible[k]] == RemainingPrefill(slots[eligible[k]])
  {
    var slot := eligible[k];
    assert SlotTaken(slots[slot], slot, part0, consumed0[slot]);
    var available := RemainingPrefill(slots[slot]) - consumed0[slot];
    take := Min(Min(available, chunk), capacity - |part0|);
    ServeSlot(slots, eligible, part0, consumed0, k, take);
    part := part0 + PrefillRun(slots[slot], slot, consumed0[slot], take);
    consumed := consumed0[slot := consumed0[slot] + take];
  }

  lemma ServeSlot(slots: seq<Slot>, eligible: seq<nat>, part: seq<BatchEntry>, consumed: seq<nat>, k: nat, take: nat)
    requires AllServable(slots)
    requires Consumed(slots, part, consumed) && StartsAt(part, eligible)
    requires k < |eligible| && eligible[k] < |slots| && (k > 0 ==> part != [])
    requires consumed[eligible[k]] + take <= RemainingPrefill(slots[eligible[k]])
    ensures var slot := eligible[k];
      var part' := part + PrefillRun(slots[slot], slot, consumed[slot], take);
      var consumed' := consumed[slot := consumed[slot] + take];
      && Consumed(slots, part', consumed')
      && StartsAt(part', eligible)
      && (part == [] ==> consumed[slot] == 0)
      && |part'| == |part| + take
      && (take == 0 ==> consumed' == consumed)
  {
    var slot := eligible[k];
    assert SlotTaken(slots[slot], slot, part, consumed[slot]);
    ConsumeMore(slots, part, consumed, slot, take);
    RunInSlot(slots[slot], slot, consumed[slot], take);
    RunExact(slots[slot], slot, 0, consumed[slot]);
    RunExact(slots[slot], slot, consumed[slot], take);
  }

  // ----- The share of each slot -----

  function Chunks(k: nat, chunk: nat): nat {
    if k == 0 then 0 else Chunks(k - 1, chunk) + chunk
  }

  lemma {:induction false} RoundSize(slots: seq<Slot>, eligible: seq<nat>, k: nat, capacity: nat, chunk: nat)
    requires AllServable(slots)
    requires k <= |eligible| && InRange(eligible, |slots|)
    ensures |FirstRound(slots, eligible, k, capacity, chunk)| <= Chunks(k, chunk)
  {
    if k > 0 {
      RoundSize(slots, eligible, k - 1, capacity, chunk);
      var slot, before := eligible[k - 1], FirstRound(slots, eligible, k - 1, capacity, chunk);
      RunExact(slots[slot], slot, 0, Min(Min(RemainingPrefill(slots[slot]), chunk), Room(capacity, |before|)));
    }
  }

  lemma {:induction false} RoundIsPrefix(
    slots: seq<Slot>, eligible: seq<nat>, k: nat, n: nat, capacity: nat, chunk: nat)
    requires k <= n <= |eligible| && InRange(eligible, |slots|)
    ensures FirstRound(slots, eligible, k, capacity, chunk) <= FirstRound(slots, eligible, n, capacity, chunk)
  {
    if k < n {
      RoundIsPrefix(slots, eligible, k, n - 1, capacity, chunk);
    }
  }

  lemma {:induction false} OfPrefix(part: seq<BatchEntry>, whole: seq<BatchEntry>, slot: nat)
    requires part <= whole
    ensures |Of(part, slot)| <= |Of(whole, slot)|
  {
    if part != whole {
      OfPrefix(part, whole[..|whole| - 1], slot);
    }
  }

  lemma ShareInRound(slots: seq<Slot>, eligible: seq<nat>, k: nat, capacity: nat, chunk: nat)
    requires AllServable(slots)
    requires k < |eligible| && InRange(eligible, |slots|)
    requires |FirstRound(slots, eligible, k, capacity, chunk)| + chunk <= capacity
    ensures |Of(FirstRound(slots, eligible, k + 1, capacity, chunk), eligible[k])| >=
      Min(RemainingPrefill(slots[eligible[k]]), chunk)
  {
    var before, slot := FirstRound(slots, eligible, k, capacity, chunk), eligible[k];
    var take := Min(RemainingPrefill(slots[slot]), chunk);
    RunExact(slots[slot], slot, 0, take);
    RunInSlot(slots[slot], slot, 0, take);
    OfAppend(before, PrefillRun(slots[slot], slot, 0, take), slot, slot);
  }

  // The slot that is k-th in cursor order gets a whole chunk, or all it has left, if chunks for it
  // and the ones before it fit.
  lemma FairShare(slots: seq<Slot>, start: nat, capacity: nat, part: seq<BatchEntry>, k: nat)
    requires AllServable(slots) && start < |slots|
    requires SharedPart(slots, start, capacity, part)
    requires k < |Eligible(slots, start, 0)|
    requires Chunks(k + 1, Chunk(capacity, Eligible(slots, start, 0))) <= capacity
    ensures var eligible := Eligible(slots, start, 0);
      |Of(part, eligible[k])| >= Min(RemainingPrefill(slots[eligible[k]]), Chunk(capacity, eligible))
  {
    var eligible := Eligible(slots, start, 0);
    var chunk := Chunk(capacity, eligible);
    RoundSize(slots, eligible, k, capacity, chunk);
    ShareInRound(slots, eligible, k, capacity, chunk);
    RoundIsPrefix(slots, eligible, k + 1, |eligible|, capacity, chunk);
    OfPrefix(FirstRound(slots, eligible, k + 1, capacity, chunk), part, eligible[k]);
  }

  // ----- The rotating cursor -----

  // How far ahead of the cursor a slot is.
  function Distance(cursor: nat, slot: nat, n: nat): nat
    requires slot < n
  {
    Ahead(Start(cursor, n), slot, n)
  }

  function Ahead(start: nat, slot: nat, n: nat): nat
    requires start < n && slot < n
  {
    if slot >= start then slot - start else slot + n - start
  }

  lemma {:induction false} EligibleFrom(slots: seq<Slot>, start: nat, offset: nat, i: nat)
    requires start < |slots| && offset <= |slots| && i < |slots|
    ensures i in Eligible(slots, start, offset) <==>
      offset <= Ahead(start, i, |slots|) && RemainingPrefill(slots[i]) > 0
    decreases |slots| - offset
  {
    if offset < |slots| {
      EligibleFrom(slots, start, offset + 1, i);
    }
  }

  lemma EligibleMembers(slots: seq<Slot>, start: nat)
    requires start < |slots|
    ensures forall i :: 0 <= i < |slots| ==> (i in Eligible(slots, start, 0) <==> RemainingPrefill(slots[i]) > 0)
  {
    forall i | 0 <= i < |slots|
      ensures i in Eligible(slots, start, 0) <==> RemainingPrefill(slots[i]) > 0
    {
      EligibleFrom(slots, start, 0, i);
    }
  }

  // The first slot served is the eligible one nearest to the cursor.
  lemma {:induction false} FirstIsNearest(slots: seq<Slot>, start: nat, offset: nat, slot: nat)
    requires start < |slots| && slot < |slots|
    requires offset <= Ahead(start, slot, |slots|) && RemainingPrefill(slots[slot]) > 0
    ensures Eligible(slots, start, offset) != []
    ensures offset <= Ahead(start, Eligible(slots, start, offset)[0], |slots|) <= Ahead(start, slot, |slots|)
    decreases |slots| - offset
  {
    if RemainingPrefill(slots[Wrap(start + offset, |slots|)]) == 0 {
      FirstIsNearest(slots, start, offset + 1, slot);
    }
  }

  // A slot that is not served first comes strictly nearer.
  lemma CursorApproaches(slots: seq<Slot>, start: nat, slot: nat)
    requires start < |slots| && slot < |slots| && RemainingPrefill(slots[slot]) > 0
    ensures Eligible(slots, start, 0) != []
    ensures NextCursor(slots, start) < |slots|
    ensures Eligible(slots, start, 0)[0] == slot ||
      Ahead(NextCursor(slots, start), slot, |slots|) < Ahead(start, slot, |slots|)
  {
    FirstIsNearest(slots, start, 0, slot);
    var n, first := |slots|, Eligible(slots, start, 0)[0];
    assert first != slot ==> Ahead(start, first, n) < Ahead(start, slot, n);
  }

  datatype Round = Round(slots: seq<Slot>, capacity: nat, cursor: nat, plan: BatchPlan)

  // A round while the slot has prompt tokens left.
  ghost predicate Waits(r: Round, n: nat, slot: nat) {
    && |r.slots| == n && slot < n
    && AllServable(r.slots)
    && ValidPlan(r.slots, r.capacity, r.cursor, r.plan)
    && RemainingPrefill(r.slots[slot]) > 0
  }

  // The batch has room for prompt tokens after the decodes.
  predicate HasRoom(r: Round) {
    |Decodes(r.slots, |r.slots|)| < r.capacity
  }

  function Roomy(rounds: seq<Round>): nat {
    if rounds == [] then 0 else (if HasRoom(rounds[0]) then 1 else 0) + Roomy(rounds[1..])
  }

  ghost predicate ServedFirst(r: Round, slot: nat) {
    var d := |Decodes(r.slots, |r.slots|)|;
    d < |r.plan.entries| && r.plan.entries[d].slot == slot
  }

  // A round that is full of decodes leaves the cursor where it is; any other serves the slot first
  // or comes strictly nearer.
  lemma RoundApproaches(r: Round, n: nat, slot: nat)
    requires Waits(r, n, slot)
    ensures !HasRoom(r) ==> r.plan.nextPrefillSlot == r.cursor
    ensures HasRoom(r) ==>
      || ServedFirst(r, slot)
      || Distance(r.plan.nextPrefillSlot, slot, n) < Distance(r.cursor, slot, n)
  {
    if !HasRoom(r) {
      return;
    }
    var start := Start(r.cursor, n);
    CursorApproaches(r.slots, start, slot);
    TotalCovers(r.slots, slot);
    var d := |Decodes(r.slots, n)|;
    assert r.plan.entries[d..][0] == r.plan.entries[d];
  }

  lemma {:induction false} TotalCovers(slots: seq<Slot>, slot: nat)
    requires slot < |slots|
    ensures RemainingPrefill(slots[slot]) <= TotalPrefill(slots)
  {
    if slot < |slots| - 1 {
      TotalCovers(slots[..|slots| - 1], slot);
    }
  }

  ghost predicate RoomyServedFirst(rounds: seq<Round>, k: nat, slot: nat)
    requires k < |rounds|
  {
    HasRoom(rounds[k]) && ServedFirst(rounds[k], slot)
  }

  // No starvation: whatever the other slots do, a slot with prompt tokens left is served first
  // after at most as many rounds with room as there are slots ahead of it.
  lemma {:induction false} NoStarvation(rounds: seq<Round>, n: nat, slot: nat)
    requires slot < n
    requires forall r :: r in rounds ==> Waits(r, n, slot)
    requires forall k :: 0 <= k < |rounds| - 1 ==> rounds[k + 1].cursor == rounds[k].plan.nextPrefillSlot
    requires rounds != [] && Roomy(rounds) > Distance(rounds[0].cursor, slot, n)
    ensures exists k :: 0 <= k < |rounds| && RoomyServedFirst(rounds, k, slot) &&
              Roomy(rounds[..k]) <= Distance(rounds[0].cursor, slot, n)
  {
    RoundApproaches(rounds[0], n, slot);
    if RoomyServedFirst(rounds, 0, slot) {
      assert Roomy(rounds[..0]) == 0;
    } else {
      assert rounds[1..] != [];
      assert rounds[1].cursor == rounds[0].plan.nextPrefillSlot;
      NoStarvation(rounds[1..], n, slot);
      var k :| 0 <= k < |rounds[1..]| && RoomyServedFirst(rounds[1..], k, slot) &&
        Roomy(rounds[1..][..k]) <= Distance(rounds[1].cursor, slot, n);
      assert rounds[..k + 1][1..] == rounds[1..][..k];
      assert RoomyServedFirst(rounds, k + 1, slot);
    }
  }

  // The bound for any cursor: as many rounds with room as there are slots.
  lemma NoStarvationWithin(rounds: seq<Round>, n: nat, slot: nat)
    requires slot < n
    requires forall r :: r in rounds ==> Waits(r, n, slot)
    requires forall k :: 0 <= k < |rounds| - 1 ==> rounds[k + 1].cursor == rounds[k].plan.nextPrefillSlot
    requires Roomy(rounds) >= n
    ensures exists k :: 0 <= k < |rounds| && RoomyServedFirst(rounds, k, slot) && Roomy(rounds[..k]) < n
  {
    NoStarvation(rounds, n, slot);
  }

  // ----- Sampling targets -----

  // Where to sample after the batch: the entries that ask for logits, by raw batch index.
  function LogitsTargets(entries: seq<BatchEntry>): (r: Option<seq<(nat, nat)>>) {
    if entries == [] then Some([])
    else
      var n: nat := |entries| - 1;
      var rest := LogitsTargets(entries[..n]);
      if rest.None? || !entries[n].logits then rest
      else if n > I32_MAX then None
      else Some(rest.value + [(n, entries[n].slot)])
  }

  lemma {:induction false} LogitsTargetsExact(entries: seq<BatchEntry>)
    ensures LogitsTargets(entries).None? <==> exists k :: I32_MAX < k < |entries| && entries[k].logits
    ensures LogitsTargets(entries).Some? ==>
      var targets := LogitsTargets(entries).value;
      && (forall t :: t in targets <==> t.0 < |entries| && entries[t.0].logits && t.1 == entries[t.0].slot)
      && (forall j, k :: 0 <= j < k < |targets| ==> targets[j].0 < targets[k].0)
  {
    if entries != [] {
      LogitsTargetsExact(entries[..|entries| - 1]);
    }
  }

  lemma {:induction false} PositionInOf(part: seq<BatchEntry>, j: nat)
    requires j < |part|
    ensures var at := |Of(part[..j], part[j].slot)|;
      at < |Of(part, part[j].slot)| && Of(part, part[j].slot)[at] == part[j]
  {
    var n := |part| - 1;
    if j < n {
      PositionInOf(part[..n], j);
      assert part[..n][..j] == part[..j];
    }
  }

  lemma {:induction false} PositionsDiffer(part: seq<BatchEntry>, j: nat, k: nat)
    requires j < k <= |part|
    ensures |Of(part[..j], part[j].slot)| < |Of(part[..k], part[j].slot)|
    decreases k
  {
    assert part[..k][..k - 1] == part[..k - 1];
    if j < k - 1 {
      PositionsDiffer(part, j, k - 1);
    }
  }

  // A slot is sampled at most once per batch.
  lemma OneTargetPerSlot(slots: seq<Slot>, capacity: nat, cursor: nat, plan: BatchPlan, j: nat, k: nat)
    requires AllServable(slots)
    requires ValidPlan(slots, capacity, cursor, plan)
    requires j < k < |plan.entries| && plan.entries[j].logits && plan.entries[k].logits
    ensures plan.entries[j].slot != plan.entries[k].slot
  {
    var decodes := Decodes(slots, |slots|);
    var d := |decodes|;
    DecodesOrdered(slots, |slots|);
    assert j < d ==> plan.entries[j] == decodes[j];
    if slots != [] && d < capacity && d <= k {
      var part := plan.entries[d..];
      assert part[k - d] == plan.entries[k];
      if d <= j {
        assert part[j - d] == plan.entries[j];
        OnePrefillTarget(slots, Start(cursor, |slots|), part, j - d, k - d);
      } else {
        assert part[k - d] in part;
        PositionInOf(part, k - d);
      }
    }
  }

  lemma OnePrefillTarget(slots: seq<Slot>, start: nat, part: seq<BatchEntry>, j: nat, k: nat)
    requires start < |slots| && AllServable(slots)
    requires PrefillPart(slots, start, part)
    requires j < k < |part| && part[j].logits && part[k].logits
    ensures part[j].slot != part[k].slot
  {
    if part[j].slot == part[k].slot {
      PositionInOf(part, j);
      PositionInOf(part, k);
      PositionsDiffer(part, j, k);
      var slot := part[j].slot;
      var run := Of(part, slot);
      LogitsAtEnd(slots[slot], slot, |run|, |Of(part[..j], slot)|);
      LogitsAtEnd(slots[slot], slot, |run|, |Of(part[..k], slot)|);
    }
  }

  lemma LogitsAtEnd(s: Slot, slot: nat, count: nat, at: nat)
    requires Servable(s) && at < count <= RemainingPrefill(s) && |PrefillRun(s, slot, 0, count)| == count
    ensures PrefillRun(s, slot, 0, count)[at].logits ==> s.active.prefillCursor + at + 1 == |s.active.tokens|
  {
  }
}
