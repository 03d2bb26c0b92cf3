// Serial history of the cache, and of the model lock that every LLM publication rewrites.
module LockHistory {
  import opened Wrappers
  import opened Collections
  import opened CachePublication

  const MODELS_LOCK := "orchion-models.lock"

  // ----- The cache is the committed publications, in order -----

  ghost predicate Run(disks: seq<Disk>, steps: seq<Step>) {
    && |disks| == |steps| + 1
    && forall i :: 0 <= i < |steps| ==> Next(disks[i], steps[i], disks[i + 1])
  }

  // The content staged by the last committed publication that lists the path.
  function LastCommitted(steps: seq<Step>, p: Path): Option<Content> {
    if steps == [] then None
    else
      var last := steps[|steps| - 1];
      if last.PublicationStep? && last.committed && p in last.paths && p in last.staged
      then Some(last.staged[p])
      else LastCommitted(steps[..|steps| - 1], p)
  }

  lemma {:induction false} SerialHistory(disks: seq<Disk>, steps: seq<Step>, p: Path)
    requires Run(disks, steps)
    ensures var first, last := Recovered(disks[0]), Recovered(disks[|steps|]);
      match LastCommitted(steps, p)
      case Some(content) => p in last && last[p] == content
      case None => (p in last <==> p in first) && (p in first ==> last[p] == first[p])
  {
    if steps != [] {
      var n := |steps| - 1;
      assert Run(disks[..n + 1], steps[..n]);
      SerialHistory(disks[..n + 1], steps[..n], p);
      assert Next(disks[n], steps[n], disks[n + 1]);
    }
  }

  // ----- The model lock -----

  // No lock file reads as an empty lock; any other content must be a lock.
  function Deployments(files: Files): Option<map<string, int>> {
    if MODELS_LOCK !in files then Some(map[])
    else match files[MODELS_LOCK]
      case LockFile(deployments) => Some(deployments)
      case Blob(_) => None
  }

  // The lock with one deployment set and all others as they were.
  function MergedLock(files: Files, fingerprint: string, entry: int): (r: Option<Content>)
    ensures r.None? <==> Deployments(files).None?
    ensures r.Some? ==>
      var was, now := Deployments(files).value, Deployments(files[MODELS_LOCK := r.value]);
      && now.Some?
      && now.value.Keys == was.Keys + {fingerprint}
      && now.value[fingerprint] == entry
      && (forall other :: other in was && other != fingerprint ==> now.value[other] == was[other])
  {
    match Deployments(files)
    case Some(deployments) => Some(LockFile(deployments[fingerprint := entry]))
    case None => None
  }

  function WithLock(paths: seq<Path>): (r: seq<Path>)
    ensures forall p :: p in r <==> p in paths || p == MODELS_LOCK
    ensures Distinct(paths) ==> Distinct(r)
  {
    if MODELS_LOCK in paths then paths else [MODELS_LOCK] + paths
  }

  // The lock as the merge takes it: a lock file that cannot be looked up (`blind`) counts as absent.
  function SeenLock(files: Files, blind: bool): Files {
    if blind then files - {MODELS_LOCK} else files
  }

  function StagedWith(staged: Files, lock: Option<Content>): Files {
    if lock.Some? then staged[MODELS_LOCK := lock.value] else staged
  }

  predicate LookupFails(io: Io) {
    io.Refused? || io.Late?
  }

  // Once committed, the model's files are live as staged, the lock has the deployment added, and
  // nothing else has changed.
  ghost predicate LlmPublished(
    before: Files, seen: Files, paths: seq<Path>, staged: Files, fingerprint: string, entry: int, live: Files)
  {
    && (forall p :: p in paths && p != MODELS_LOCK ==> p in staged && p in live && live[p] == staged[p])
    && (forall p :: p !in paths && p != MODELS_LOCK ==>
          (p in live <==> p in before) && (p in before ==> live[p] == before[p]))
    && Deployments(seen).Some?
    && Deployments(live) == Some(Deployments(seen).value[fingerprint := entry])
  }

  // Merges the deployment into the lock that is live now, then publishes it with the other files.
  // The merge comes before the recovery that starts the publication.
  method PublishLlm(disk: CacheDisk, paths: seq<Path>, staged: Files, fingerprint: string, entry: int)
    returns (r: Publication, ghost committed: bool, ghost first: bool, ghost last: bool, ghost blind: bool)
    requires ValidDisk(disk.View())
    modifies disk
    ensures ValidDisk(disk.View())
    ensures blind <==> LookupFails(disk.faults(old(disk.clock)))
    ensures first ==> IsCommitted(old(disk.View())) && !disk.markerReads(old(disk.recoveries))
    ensures last ==> committed && !disk.markerReads(old(disk.recoveries) + 1)
    ensures MergedLock(SeenLock(old(disk.live), blind), fingerprint, entry).None? ==>
      !r.Published? && !committed && disk.View() == old(disk.View())
    ensures Outcome(
      old(disk.View()), WithLock(paths),
      StagedWith(staged, MergedLock(SeenLock(old(disk.live), blind), fingerprint, entry)),
      disk.View(), committed, first, last)
    ensures !first && !last && (disk.manifestFirst || (!committed && !IsCommitted(old(disk.View())))) ==>
      var staged' := StagedWith(staged, MergedLock(SeenLock(old(disk.live), blind), fingerprint, entry));
      Next(old(disk.View()), PublicationStep(WithLock(paths), staged', committed), disk.View())
    ensures r.Published? ==> committed && !last
    ensures committed && !last ==>
      LlmPublished(
        Recovered(Taken(old(disk.View()), first)), SeenLock(old(disk.live), blind), paths, staged, fingerprint, entry,
        disk.live)
    ensures
      && disk.SmoothSince(old(disk.clock)) && Distinct(paths) && Deployments(old(disk.live)).Some?
      && (forall p :: p in paths && p != MODELS_LOCK ==> p in staged)
      ==> r.Published?
  {
    committed, first, last := false, false, false;
    var io, lock;
    io, lock, blind := StageLock(disk, fingerprint, entry);
    if !io.Fine? {
      return Stopped(io), committed, first, last, blind;
    }
    if lock.None? {
      return PublicationFailed, committed, first, last, blind;
    }
    PublishedFiles(Recovered(disk.View()), SeenLock(disk.live, blind), paths, staged, fingerprint, entry);
    PublishedFiles(Recovered(Unmarked(disk.View())), SeenLock(disk.live, blind), paths, staged, fingerprint, entry);
    r, committed, first, last := disk.Publish(WithLock(paths), StagedWith(staged, lock));
  }

  // Looks the lock up, reads it, merges the deployment and writes the result to the staged files.
  method StageLock(disk: CacheDisk, fingerprint: string, entry: int)
    returns (io: Io, lock: Option<Content>, ghost blind: bool)
    modifies disk`clock
    ensures disk.clock > old(disk.clock) && (disk.SmoothSince(old(disk.clock)) ==> io.Fine?)
    ensures blind <==> LookupFails(disk.faults(old(disk.clock)))
    ensures io.Fine? ==> lock == MergedLock(SeenLock(disk.live, blind), fingerprint, entry)
  {
    lock := None;
    io := disk.Operate();
    blind := LookupFails(io);
    if io.PowerLoss? {
      return;
    }
    var found := io.Fine? && MODELS_LOCK in disk.live;
    if found {
      io := disk.Operate();
      if !io.Fine? {
        return;
      }
    }
    lock := MergedLock(if found then disk.live else disk.live - {MODELS_LOCK}, fingerprint, entry);
    MergeOfSeen(disk.live, found, blind, fingerprint, entry);
    io := Fine;
    if lock.Some? {
      io := disk.Operate();
    }
  }

  lemma MergeOfSeen(live: Files, found: bool, blind: bool, fingerprint: string, entry: int)
    requires found <==> !blind && MODELS_LOCK in live
    ensures MergedLock(if found then live else live - {MODELS_LOCK}, fingerprint, entry) ==
      MergedLock(SeenLock(live, blind), fingerprint, entry)
  {
  }

  lemma PublishedFiles(
    before: Files, seen: Files, paths: seq<Path>, staged: Files, fingerprint: string, entry: int)
    requires MergedLock(seen, fingerprint, entry).Some?
    ensures var staged' := StagedWith(staged, MergedLock(seen, fingerprint, entry));
      (forall p :: p in WithLock(paths) ==> p in staged') ==>
      LlmPublished(before, seen, paths, staged, fingerprint, entry, Install(before, WithLock(paths), staged'))
  {
  }

  // A merge without looking is right exactly when the lock holds no other deployment.
  lemma BlindMergeExact(files: Files, fingerprint: string, entry: int)
    ensures MergedLock(SeenLock(files, true), fingerprint, entry) == MergedLock(files, fingerprint, entry) <==>
      Deployments(files).Some? && Deployments(files).value.Keys <= {fingerprint}
  {
    var alone: map<string, int> := map[fingerprint := entry];
    if Deployments(files).Some? {
      var all := Deployments(files).value[fingerprint := entry];
      assert all.Keys == Deployments(files).value.Keys + {fingerprint};
      assert alone.Keys == {fingerprint};
      if Deployments(files).value.Keys <= {fingerprint} {
        assert all == alone;
      }
    }
  }

  // The lock file is out of place: an interrupted publication moved or created it.
  predicate LockDisplaced(d: Disk) {
    && IsPending(d)
    && var entries := d.transaction.value.manifest.value;
      || Restores(entries, d.transaction.value.backup, MODELS_LOCK)
      || (MODELS_LOCK in d.live && Entry(MODELS_LOCK, false) in entries)
  }

  lemma LockInPlace(d: Disk)
    requires !LockDisplaced(d)
    ensures Deployments(d.live) == Deployments(Recovered(d))
  {
  }

  datatype Deployment = Deployment(fingerprint: string, entry: int)

  // A step that leaves the lock alone, or the LLM publication of `call` on a lock that is in place.
  ghost predicate LockStep(d: Disk, step: Step, call: Deployment) {
    step.PublicationStep? && MODELS_LOCK in step.paths ==>
      && !LockDisplaced(d)
      && MODELS_LOCK in step.staged
      && Some(step.staged[MODELS_LOCK]) == MergedLock(d.live, call.fingerprint, call.entry)
  }

  function CommittedDeployments(first: map<string, int>, steps: seq<Step>, calls: seq<Deployment>): map<string, int>
    requires |steps| == |calls|
  {
    if steps == [] then first
    else
      var n := |steps| - 1;
      var rest := CommittedDeployments(first, steps[..n], calls[..n]);
      if steps[n].PublicationStep? && steps[n].committed && MODELS_LOCK in steps[n].paths
      then rest[calls[n].fingerprint := calls[n].entry]
      else rest
  }

  // No update is lost and none appears from nowhere, as long as each publication merges into a
  // lock that is in place.
  lemma {:induction false} LockHistoryExact(disks: seq<Disk>, steps: seq<Step>, calls: seq<Deployment>)
    requires Run(disks, steps) && |calls| == |steps|
    requires forall i :: 0 <= i < |steps| ==> LockStep(disks[i], steps[i], calls[i])
    requires Deployments(Recovered(disks[0])).Some?
    ensures Deployments(Recovered(disks[|steps|])) ==
      Some(CommittedDeployments(Deployments(Recovered(disks[0])).value, steps, calls))
  {
    if steps != [] {
      var n := |steps| - 1;
      assert Run(disks[..n + 1], steps[..n]);
      LockHistoryExact(disks[..n + 1], steps[..n], calls[..n]);
      assert LockStep(disks[n], steps[n], calls[n]);
      assert Next(disks[n], steps[n], disks[n + 1]);
      if steps[n].PublicationStep? && steps[n].committed && MODELS_LOCK in steps[n].paths {
        LockInPlace(disks[n]);
      }
    }
  }

  ghost predicate Committed(steps: seq<Step>, calls: seq<Deployment>, fingerprint: string)
    requires |steps| == |calls|
  {
    exists i :: 0 <= i < |steps| && steps[i].PublicationStep? && steps[i].committed &&
      MODELS_LOCK in steps[i].paths && calls[i].fingerprint == fingerprint
  }

  // The keys of the lock: those it started with and exactly the committed fingerprints.
  lemma {:induction false} CommittedKeys(
    first: map<string, int>, steps: seq<Step>, calls: seq<Deployment>, fingerprint: string)
    requires |steps| == |calls|
    ensures fingerprint in CommittedDeployments(first, steps, calls) <==>
      fingerprint in first || Committed(steps, calls, fingerprint)
  {
    if steps != [] {
      var n := |steps| - 1;
      CommittedKeys(first, steps[..n], calls[..n], fingerprint);
      if Committed(steps[..n], calls[..n], fingerprint) {
        var i :| 0 <= i < n && steps[..n][i].PublicationStep? && steps[..n][i].committed &&
          MODELS_LOCK in steps[..n][i].paths && calls[..n][i].fingerprint == fingerprint;
        assert calls[i].fingerprint == fingerprint;
      }
      if Committed(steps, calls, fingerprint) {
        var i :| 0 <= i < |steps| && steps[i].PublicationStep? && steps[i].committed &&
          MODELS_LOCK in steps[i].paths && calls[i].fingerprint == fingerprint;
        if i < n {
          assert calls[..n][i].fingerprint == fingerprint;
        }
      }
    }
  }

  // ----- Merging into a displaced lock -----

  // Whether merging into a displaced lock does no harm: it was moved away and empty, or the
  // undone publication only repeated what it held.
  ghost predicate SameLock(before: Files, call: Deployment, d: Disk)
    requires Deployments(before).Some?
  {
    var was := Deployments(before).value;
    if MODELS_LOCK in d.live
    then call.fingerprint in was && was[call.fingerprint] == call.entry
    else was == map[]
  }

  // An LLM publication was interrupted before its commit marker, or its rollback was.  Whatever
  // has become of the other paths, merging into the live lock is right for every later deployment
  // exactly when the lock is in place or that does no harm.
  lemma DisplacedLockExact(before: Files, paths: seq<Path>, staged: Files, call: Deployment, d: Disk)
    requires IsPending(d) && d.transaction.value.manifest.value == ManifestFor(paths, before)
    requires PathInFlight(before, staged, d.live, d.transaction.value.backup, MODELS_LOCK)
    requires Recovered(d) == before
    requires MODELS_LOCK in paths && MODELS_LOCK in staged
    requires Some(staged[MODELS_LOCK]) == MergedLock(before, call.fingerprint, call.entry)
    ensures (forall fingerprint, entry ::
        MergedLock(d.live, fingerprint, entry) == MergedLock(Recovered(d), fingerprint, entry)) <==>
      !LockDisplaced(d) || SameLock(before, call, d)
  {
    var was, now := Deployments(before).value, Deployments(d.live).value;
    if !LockDisplaced(d) {
      LockInPlace(d);
    } else if SameLock(before, call, d) {
      assert now == was;
    } else if MODELS_LOCK in d.live {
      var other := call.fingerprint + "'";
      assert |other| != |call.fingerprint|;
      MergeDiffers(was, now, call.fingerprint, other);
      assert MergedLock(d.live, other, 0) != MergedLock(before, other, 0);
    } else {
      var odd :| odd in was;
      var other := odd + "'";
      assert |other| != |odd|;
      MergeDiffers(was, now, odd, other);
      assert MergedLock(d.live, other, 0) != MergedLock(before, other, 0);
    }
  }

  // Merging another key keeps a difference.
  lemma MergeDiffers(a: map<string, int>, b: map<string, int>, key: string, other: string)
    requires other != key
    requires key in a && key in b ==> a[key] != b[key]
    requires key in a || key in b
    ensures a[other := 0] != b[other := 0]
  {
    assert key in a <==> key in a[other := 0];
    assert key in b <==> key in b[other := 0];
    assert key in a ==> a[other := 0][key] == a[key];
    assert key in b ==> b[other := 0][key] == b[key];
  }

  // Two crash points of publishing "b" over a lock that holds "a".  Merging "c" into what is live
  // then drops "a" at one of them and keeps the undone "b" at the other.
  lemma DisplacedLockLosesUpdates()
    ensures
      var before: Files := map[MODELS_LOCK := LockFile(map["a" := 1])];
      var staged: Files := map[MODELS_LOCK := LockFile(map["a" := 1, "b" := 2])];
      var pending := Some(Transaction(Some(ManifestFor([MODELS_LOCK], before)), false, before));
      var moved, installed := Disk(map[], pending), Disk(staged, pending);
      && InFlight(before, [MODELS_LOCK], staged, moved)
      && InFlight(before, [MODELS_LOCK], staged, installed)
      && MergedLock(before, "c", 3) == Some(LockFile(map["a" := 1, "c" := 3]))
      && MergedLock(moved.live, "c", 3) == Some(LockFile(map["c" := 3]))
      && MergedLock(installed.live, "c", 3) == Some(LockFile(map["a" := 1, "b" := 2, "c" := 3]))
  {
  }
}
