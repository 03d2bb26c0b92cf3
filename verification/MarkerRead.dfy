// Recovery takes a commit marker that it cannot read for a missing one, and rolls a committed
// publication back.  When that changes what the cache holds, and when it does not.
module MarkerRead {
  import opened Wrappers
  import opened CachePublication
  import opened CleanupOrder

  // Carried through, a recovery that misread the marker keeps the cache exactly when there is no
  // manifest left, or a rollback would restore the same files.
  lemma MisreadExact(d: Disk)
    requires ValidDisk(d) && IsCommitted(d)
    ensures Recovered(Unmarked(d)) == Recovered(d) <==>
      var t := d.transaction.value;
      t.manifest.None? || Harmless(t.manifest.value, d.live, t.backup)
  {
    var t := d.transaction.value;
    if t.manifest.Some? {
      RollbackIsIdentity(t.manifest.value, d.live, t.backup);
    }
  }

  // For what deferred cleanup may have left of a publication.
  lemma MisreadOfRemnant(before: Files, paths: seq<Path>, staged: Files, t': Transaction)
    requires forall p :: p in paths ==> p in staged
    requires Remnant(CommittedTransaction(before, paths), t')
    ensures var live := Install(before, paths, staged);
      Recovered(Unmarked(Disk(live, Some(t')))) == live <==>
        || t'.manifest.None?
        || forall p :: p in paths ==> p in before && (p in t'.backup ==> before[p] == staged[p])
  {
    CommittedRemnantExact(before, paths, staged, t'.(committed := false));
  }

  // With the whole transaction directory in place: only when the publication changed nothing.
  lemma MisreadOfPublication(before: Files, paths: seq<Path>, staged: Files)
    requires forall p :: p in paths ==> p in staged
    ensures var live := Install(before, paths, staged);
      Recovered(Unmarked(Disk(live, Some(CommittedTransaction(before, paths))))) == live <==>
        forall p :: p in paths ==> p in before && before[p] == staged[p]
  {
    MisreadOfRemnant(before, paths, staged, CommittedTransaction(before, paths));
  }

  // The next disk operation that undoes an entry.
  ghost predicate UndoStep(e: Entry, d: Disk, d': Disk)
    requires d.transaction.Some?
  {
    var t, p := d.transaction.value, e.path;
    if p in d.live
    then (e.hadTarget ==> p in t.backup) && d' == d.(live := d.live - {p})
    else e.hadTarget && p in t.backup && d' == Disk(d.live[p := t.backup[p]], Some(t.(backup := t.backup - {p})))
  }

  // A rollback after a misread may also be interrupted, and the marker be readable the next time.
  // What was moved until then stays as it is: no interruption does harm exactly when the rollback
  // has nothing to do.  It leaves the disk alone up to the first entry for which it has.
  lemma InterruptedMisreadExact(d: Disk)
    requires ValidDisk(d) && IsCommitted(d) && d.transaction.value.manifest.Some?
    ensures Untouched(d) <==>
      forall e, d' :: e in d.transaction.value.manifest.value && UndoStep(e, d, d') ==> Recovered(d') == Recovered(d)
  {
    var t := d.transaction.value;
    var entries := t.manifest.value;
    if !Untouched(d) {
      var e :| e in entries && !Settled(e, d.live, t.backup);
      var p := e.path;
      var d' := if p in d.live
        then d.(live := d.live - {p})
        else Disk(d.live[p := t.backup[p]], Some(t.(backup := t.backup - {p})));
      assert UndoStep(e, d, d');
      assert p in Recovered(d') <==> p !in Recovered(d);
    }
  }

  // A reported publication of one new and one changed file, its cleanup deferred: a misread undoes it.
  lemma MisreadLosesPublication()
    ensures
      var before: Files := map["a" := Blob(0)];
      var staged: Files := map["a" := Blob(1), "b" := Blob(2)];
      var d := Disk(staged, Some(CommittedTransaction(before, ["a", "b"])));
      && Install(before, ["a", "b"], staged) == staged
      && Recovered(d) == staged
      && Recovered(Unmarked(d)) == before
  {
    var before: Files := map["a" := Blob(0)];
    var staged: Files := map["a" := Blob(1), "b" := Blob(2)];
    var entries := ManifestFor(["a", "b"], before);
    assert Entry("a", true) in entries && Entry("b", false) in entries;
    assert CommittedTransaction(before, ["a", "b"]).backup == before;
    assert RolledBack(entries, staged, before) == before;
  }

  // A file is published over an equal one.  A misread is harmless when the rollback is carried
  // through, but loses the file when it stops half way and the next recovery reads the marker.
  lemma InterruptedMisreadLosesFile()
    ensures
      var same: Files := map["a" := Blob(0)];
      var t := CommittedTransaction(same, ["a"]);
      && Install(same, ["a"], same) == same
      && Recovered(Unmarked(Disk(same, Some(t)))) == same
      && UndoStep(Entry("a", true), Disk(same, Some(t)), Disk(map[], Some(t)))
      && Recovered(Disk(map[], Some(t))) == map[]
  {
    var same: Files := map["a" := Blob(0)];
    MisreadOfPublication(same, ["a"], same);
    assert CommittedTransaction(same, ["a"]).backup == same;
    assert same - {"a"} == map[];
  }
}
