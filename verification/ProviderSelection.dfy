// One provider per deployment: which source a deployment's artifacts are downloaded from, and when
// the choice becomes final.
module ProviderSelection {
  import opened Wrappers

  datatype Source = HuggingFace | ModelScope | Auto

  // What a deployment needs: the candidate sources in order, and for each artifact the source its
  // recipe insists on, if any.
  datatype Plan = Plan(candidates: seq<Source>, required: seq<Option<Source>>)

  datatype Selection = Selection(source: Source, resolved: bool, committed: bool, rejected: seq<Source>)

  datatype DownloadError = Retryable | Terminal | Exhausted

  // The recipes of all artifacts allow the source.
  ghost predicate Allowed(plan: Plan, source: Source) {
    source in plan.candidates && AllowedBy(plan.required, source)
  }

  ghost predicate ValidSelection(plan: Plan, s: Option<Selection>) {
    s.Some? ==>
      && Allowed(plan, s.value.source)
      && (!s.value.resolved ==> s.value.committed && s.value.rejected == [])
  }

  // What one call may do to the selection, whatever the providers answer.
  ghost predicate Call(plan: Plan, s: Option<Selection>, r: Result<Source, DownloadError>, s': Option<Selection>) {
    && ValidSelection(plan, s')
    && (r.Ok? ==> s'.Some? && s'.value.committed && s'.value.source == r.value)
    && (s.Some? && s.value.committed ==> s'.Some? && s'.value.committed && s'.value.source == s.value.source)
    && (r.Err? && s'.Some? && s'.value.committed ==> s.Some? && s.value.committed)
  }

  // Over any calls for one deployment, every artifact comes from the same provider.
  lemma {:induction false} OneProvider(
    plan: Plan, states: seq<Option<Selection>>, results: seq<Result<Source, DownloadError>>, i: nat, j: nat)
    requires |states| == |results| + 1
    requires forall k :: 0 <= k < |results| ==> Call(plan, states[k], results[k], states[k + 1])
    requires i <= j < |results| && results[i].Ok? && results[j].Ok?
    ensures results[i] == results[j]
    ensures states[j + 1].Some? && states[j + 1].value.committed && states[j + 1].value.source == results[i].value
    ensures Allowed(plan, results[j].value)
  {
    assert Call(plan, states[j], results[j], states[j + 1]);
    if i < j {
      CommittedStays(plan, states, results, i, j);
    }
  }

  lemma {:induction false} CommittedStays(
    plan: Plan, states: seq<Option<Selection>>, results: seq<Result<Source, DownloadError>>, i: nat, j: nat)
    requires |states| == |results| + 1
    requires forall k :: 0 <= k < |results| ==> Call(plan, states[k], results[k], states[k + 1])
    requires i < j < |states| && results[i].Ok?
    ensures states[j].Some? && states[j].value.committed && states[j].value.source == results[i].value
    decreases j
  {
    assert Call(plan, states[j - 1], results[j - 1], states[j]);
    if i < j - 1 {
      CommittedStays(plan, states, results, i, j - 1);
    }
  }

  // ----- The retry measure -----

  function Left(plan: Plan, rejected: seq<Source>): set<Source> {
    set s | s in plan.candidates && s !in rejected
  }

  // Every retry rejects a fresh source, or leaves a source that had been rejected before.
  function Measure(plan: Plan, s: Option<Selection>): nat {
    if s.None? then 2 * |Left(plan, [])| + 2
    else 2 * |Left(plan, s.value.rejected)| + if s.value.source in s.value.rejected then 1 else 0
  }

  lemma RejectingShrinks(plan: Plan, source: Source, rejected: seq<Source>)
    requires source in plan.candidates && source !in rejected
    ensures |Left(plan, rejected + [source])| + 1 == |Left(plan, rejected)|
  {
    assert Left(plan, rejected + [source]) == Left(plan, rejected) - {source};
  }

  // ----- What the world answers -----

  // A failure may be worth another provider, or not.
  datatype Failure = Retry | Fatal

  datatype Cached = Hit | Miss | Broken(error: DownloadError)

  // The answers to the n-th question, for the source (and the artifact) it is about.
  datatype World = World(
    known: Source -> bool,
    cached: (nat, Source) -> Cached,
    offers: (nat, Source, nat) -> Option<Failure>,
    downloads: (nat, Source) -> Option<Failure>)

  function ErrorOf(failure: Failure): DownloadError {
    if failure.Retry? then Retryable else Terminal
  }

  // What stands in the way of artifact k and the ones after it: the recipe, or the provider's answer.
  function ProblemFrom(w: World, required: seq<Option<Source>>, n: nat, source: Source, k: nat): Option<Failure>
    requires k <= |required|
    decreases |required| - k
  {
    if k == |required| then None
    else if required[k].Some? && required[k].value != source then Some(Retry)
    else if w.offers(n, source, k).Some? then w.offers(n, source, k)
    else ProblemFrom(w, required, n, source, k + 1)
  }

  lemma {:induction false} NoProblemExact(w: World, required: seq<Option<Source>>, n: nat, source: Source, k: nat)
    requires k <= |required|
    ensures ProblemFrom(w, required, n, source, k).None? <==>
      forall i :: k <= i < |required| ==>
        (required[i].Some? ==> required[i].value == source) && w.offers(n, source, i).None?
    decreases |required| - k
  {
    if k < |required| {
      NoProblemExact(w, required, n, source, k + 1);
    }
  }

  function Problem(w: World, plan: Plan, n: nat, source: Source): Option<Failure> {
    ProblemFrom(w, plan.required, n, source, 0)
  }

  // A candidate to pass over: rejected, unknown, or with a problem another one may not have.
  predicate PassedOver(w: World, plan: Plan, n: nat, rejected: seq<Source>, source: Source) {
    source in rejected || !w.known(source) || Problem(w, plan, n, source) == Some(Retry)
  }

  // The first candidate that need not be passed over decides.
  ghost predicate Chosen(
    w: World, plan: Plan, n: nat, candidates: seq<Source>, rejected: seq<Source>, r: Result<Source, DownloadError>)
  {
    if forall i :: 0 <= i < |candidates| ==> PassedOver(w, plan, n, rejected, candidates[i]) then r == Err(Exhausted)
    else exists i :: 0 <= i < |candidates| && Decides(w, plan, n, candidates, rejected, i, r)
  }

  ghost predicate Decides(
    w: World, plan: Plan, n: nat, candidates: seq<Source>, rejected: seq<Source>, i: nat,
    r: Result<Source, DownloadError>)
    requires i < |candidates|
  {
    && FirstLeft(w, plan, n, candidates, rejected, i)
    && r == if Problem(w, plan, n, candidates[i]).None? then Ok(candidates[i]) else Err(Terminal)
  }

  ghost predicate FirstLeft(w: World, plan: Plan, n: nat, candidates: seq<Source>, rejected: seq<Source>, i: nat)
    requires i < |candidates|
  {
    && !PassedOver(w, plan, n, rejected, candidates[i])
    && forall j :: 0 <= j < i ==> PassedOver(w, plan, n, rejected, candidates[j])
  }

  class DeploymentSelection {
    const plan: Plan
    const world: World
    var selection: Option<Selection>
    // How many questions have been asked.
    var clock: nat

    constructor (plan: Plan, world: World)
      ensures this.plan == plan && this.world == world && selection == None && clock == 0 && Valid()
    {
      this.plan, this.world, selection, clock := plan, world, None, 0;
    }

    ghost predicate Valid()
      reads this
    {
      ValidSelection(plan, selection)
    }

    // The rejected sources were before, or have failed a download since.
    ghost predicate RejectedSince(was: Option<Selection>, start: nat)
      reads this
    {
      selection.Some? ==> forall s :: s in selection.value.rejected ==>
        || (was.Some? && s in was.value.rejected)
        || exists n :: start <= n < clock && world.downloads(n, s) == Some(Retry)
    }

    // A source has answered with a failure that ends the call.
    ghost predicate FatalSince(start: nat)
      reads this
    {
      exists n, s :: start <= n < clock &&
        (world.downloads(n, s) == Some(Fatal) || Problem(world, plan, n, s) == Some(Fatal))
    }

    // The source has delivered the artifact, or had it in its cache.
    ghost predicate ServedSince(start: nat, source: Source)
      reads this
    {
      exists n :: start <= n < clock && (world.downloads(n, source).None? || world.cached(n, source) == Hit)
    }

    // Downloads one artifact of the deployment.  Without a final source it does not give up on a
    // failure worth another provider until every candidate is rejected or passed over.
    method Download() returns (r: Result<Source, DownloadError>, ghost broken: bool)
      requires Valid()
      modifies this
      ensures Valid() && Call(plan, old(selection), r, selection) && clock >= old(clock)
      ensures RejectedSince(old(selection), old(clock))
      ensures r.Ok? ==> ServedSince(old(clock), r.value)
      ensures r == Err(Terminal) && !broken ==> FatalSince(old(clock))
      ensures r == Err(Retryable) && !broken ==> old(selection).Some? && old(selection).value.committed
      ensures r == Err(Exhausted) && !broken ==> clock > 0 && forall s :: s in plan.candidates ==>
        || (old(selection).Some? && !old(selection).value.resolved && s != old(selection).value.source)
        || PassedOver(world, plan, clock - 1, if selection.Some? then selection.value.rejected else [], s)
    {
      broken := false;
      var cached := ReuseCached();
      if cached.Some? {
        broken := cached.value.Err?;
        return cached.value, broken;
      }
      ghost var before := selection;
      while true
        invariant Valid() && clock >= old(clock) && RejectedSince(old(selection), old(clock))
        invariant selection.None? ==> old(selection).None?
        invariant selection.Some? && !selection.value.resolved ==> selection == old(selection)
        invariant before.Some? && before.value.committed ==>
          selection.Some? && selection.value.committed && selection.value.source == before.value.source
        invariant selection.Some? && selection.value.committed ==> before.Some? && before.value.committed
        decreases Measure(plan, selection)
      {
        ghost var start := Measure(plan, selection);
        if selection.None? || !selection.value.resolved {
          var failed := Resolve();
          if failed.Some? {
            return Err(failed.value), broken;
          }
        }
        assert Measure(plan, selection) <= start;
        var source, committed := selection.value.source, selection.value.committed;
        var outcome := world.downloads(clock, source);
        clock := clock + 1;
        if !outcome.Some? {
          selection := Some(selection.value.(committed := true));
          assert world.downloads(clock - 1, source).None?;
          return Ok(source), broken;
        }
        assert world.downloads(clock - 1, source) == outcome;
        if committed || outcome.value.Fatal? {
          return Err(ErrorOf(outcome.value)), broken;
        }
        var failed := Replace(old(selection), old(clock));
        if failed.Some? {
          return Err(failed.value), broken;
        }
      }
    }

    // The source has just failed a download: it is rejected, and another candidate selected.
    method Replace(ghost was: Option<Selection>, ghost start: nat) returns (failed: Option<DownloadError>)
      requires Valid() && selection.Some? && selection.value.resolved && !selection.value.committed
      requires start < clock && world.downloads(clock - 1, selection.value.source) == Some(Retry)
      requires RejectedSince(was, start)
      modifies this
      ensures Valid() && clock == old(clock) + 1 && RejectedSince(was, start)
      ensures selection.Some? && selection.value.resolved && !selection.value.committed
      ensures failed.None? ==> Measure(plan, selection) < Measure(plan, old(selection))
      ensures failed.Some? ==> !failed.value.Retryable?
      ensures failed == Some(Terminal) ==> FatalSince(start)
      ensures failed == Some(Exhausted) ==>
        forall s :: s in plan.candidates ==> PassedOver(world, plan, clock - 1, selection.value.rejected, s)
    {
      var source := selection.value.source;
      if source !in selection.value.rejected {
        RejectingShrinks(plan, source, selection.value.rejected);
        selection := Some(selection.value.(rejected := selection.value.rejected + [source]));
      }
      var next := Preflight(plan.candidates, selection.value.rejected);
      if next.Err? {
        return Some(next.error);
      }
      selection := Some(selection.value.(source := next.value, resolved := true));
      failed := None;
    }

    // Looks for the artifact in the cache: under the selected source, or under any allowed one,
    // which is then selected for good.
    method ReuseCached() returns (r: Option<Result<Source, DownloadError>>)
      requires Valid()
      modifies this
      ensures Valid() && clock == old(clock) + 1
      ensures r.None? || r.value.Err? ==> selection == old(selection)
      ensures r.Some? ==> Call(plan, old(selection), r.value, selection)
      ensures r.Some? && r.value.Ok? ==>
        && world.cached(old(clock), r.value.value) == Hit
        && ServedSince(old(clock), r.value.value)
        && (old(selection).Some? ==> r.value.value == old(selection).value.source)
        && (selection.Some? ==> forall s :: s in selection.value.rejected ==>
             old(selection).Some? && s in old(selection).value.rejected)
      ensures r.None? ==> forall s :: s in plan.candidates && AllowedBy(plan.required, s) ==>
        (old(selection).Some? && s != old(selection).value.source) || world.cached(old(clock), s) == Miss
    {
      var now := clock;
      clock := clock + 1;
      var sources := if selection.Some? then [selection.value.source]
        else AllowedSources(plan.candidates, plan.required);
      var i := 0;
      while i < |sources|
        invariant 0 <= i <= |sources|
        invariant selection == old(selection) && clock == now + 1
        invariant forall j :: 0 <= j < i ==> world.cached(now, sources[j]) == Miss
      {
        match world.cached(now, sources[i]) {
          case Broken(error) => return Some(Err(error));
          case Miss =>
          case Hit =>
            selection := Some(
              if selection.Some? then selection.value.(committed := true) else Selection(sources[i], false, true, []));
            return Some(Ok(sources[i]));
        }
        i := i + 1;
      }
      assert forall s :: s in sources ==> world.cached(now, s) == Miss;
      r := None;
    }

    // Asks the providers for the file plan: of the selected source only, once there is one.
    method Resolve() returns (failed: Option<DownloadError>)
      requires Valid() && (selection.None? || !selection.value.resolved)
      modifies this
      ensures Valid() && clock == old(clock) + 1
      ensures failed.Some? ==> selection == old(selection) && !failed.value.Retryable?
      ensures failed == Some(Terminal) ==> FatalSince(old(clock))
      ensures failed == Some(Exhausted) ==> forall s :: s in plan.candidates ==>
        || (old(selection).Some? && s != old(selection).value.source)
        || PassedOver(world, plan, old(clock), [], s)
      ensures failed.None? ==>
        && selection.Some? && selection.value.resolved && selection.value.rejected == []
        && selection.value.committed == (old(selection).Some? && old(selection).value.committed)
        && (old(selection).Some? ==> selection.value.source == old(selection).value.source)
    {
      var candidates := if selection.Some? then [selection.value.source] else plan.candidates;
      var committed := selection.Some? && selection.value.committed;
      var answer := Preflight(candidates, []);
      if answer.Err? {
        return Some(answer.error);
      }
      selection := Some(Selection(answer.value, true, committed, []));
      failed := None;
    }

    // The first candidate that has not been rejected and can provide every artifact, unless one
    // before it fails for good.
    method Preflight(candidates: seq<Source>, rejected: seq<Source>) returns (r: Result<Source, DownloadError>)
      requires forall s :: s in candidates ==> s in plan.candidates
      modifies `clock
      ensures clock == old(clock) + 1
      ensures Chosen(world, plan, old(clock), candidates, rejected, r)
      ensures r.Ok? ==> r.value in candidates && r.value !in rejected && Allowed(plan, r.value)
      ensures r.Err? ==> !r.error.Retryable?
      ensures r == Err(Terminal) ==> FatalSince(old(clock))
      ensures r == Err(Exhausted) ==>
        forall s :: s in candidates ==> PassedOver(world, plan, old(clock), rejected, s)
    {
      var now := clock;
      clock := clock + 1;
      var i := 0;
      while i < |candidates|
        invariant 0 <= i <= |candidates|
        invariant clock == now + 1
        invariant forall j :: 0 <= j < i ==> PassedOver(world, plan, now, rejected, candidates[j])
      {
        var source := candidates[i];
        if source !in rejected && world.known(source) {
          var problem := PreflightArtifacts(source, now);
          NoProblemExact(world, plan.required, now, source, 0);
          if problem.None? {
            assert Decides(world, plan, now, candidates, rejected, i, Ok(source));
            return Ok(source);
          }
          if problem.value.Fatal? {
            assert Decides(world, plan, now, candidates, rejected, i, Err(Terminal));
            assert Problem(world, plan, now, source) == Some(Fatal);
            return Err(ErrorOf(problem.value));
          }
        }
        i := i + 1;
      }
      r := Err(Exhausted);
    }

    method PreflightArtifacts(source: Source, now: nat) returns (problem: Option<Failure>)
      ensures problem == Problem(world, plan, now, source)
    {
      var i := 0;
      while i < |plan.required|
        invariant 0 <= i <= |plan.required|
        invariant ProblemFrom(world, plan.required, now, source, i) == Problem(world, plan, now, source)
      {
        if plan.required[i].Some? && plan.required[i].value != source {
          return Some(Retry);
        }
        var answer := world.offers(now, source, i);
        if answer.Some? {
          return answer;
        }
        i := i + 1;
      }
      problem := None;
    }
  }

  predicate AllowedBy(required: seq<Option<Source>>, source: Source) {
    forall i :: 0 <= i < |required| ==> required[i].None? || required[i].value == source
  }

  function AllowedSources(candidates: seq<Source>, required: seq<Option<Source>>): (sources: seq<Source>)
    ensures forall s :: s in sources <==> s in candidates && AllowedBy(required, s)
  {
    if candidates == [] then []
    else
      (if AllowedBy(required, candidates[0]) then [candidates[0]] else []) + AllowedSources(candidates[1..], required)
  }
}
