// Deleting the transaction directory is not atomic: it goes entry by entry and may stop anywhere.
// After a rollback every order is harmless.  After a commit an order is harmless exactly when the
// manifest goes before the commit marker, or nothing is left for a rollback to change.
module CleanupOrder {
  import opened Wrappers
  import opened CachePublication

  function After(t: Transaction, order: seq<Name>): Transaction {
    if order == [] then t else Without(After(t, order[..|order| - 1]), order[|order| - 1])
  }

  lemma {:induction false} AfterIs(t: Transaction, order: seq<Name>)
    ensures After(t, order).manifest == if ManifestFile in order then None else t.manifest
    ensures After(t, order).committed == (t.committed && CommitMarker !in order)
    ensures forall p :: p in After(t, order).backup <==> p in t.backup && BackupOf(p) !in order
    ensures Remnant(t, After(t, order))
  {
    if order != [] {
      var init, last := order[..|order| - 1], order[|order| - 1];
      AfterIs(t, init);
      assert order == init + [last];
    }
  }

  // A deletion of everything in the directory, each entry once.
  ghost predicate Empties(order: seq<Name>, t: Transaction) {
    && (forall i, j :: 0 <= i < j < |order| ==> order[i] != order[j])
    && (forall name :: name in order <==> name in Names(t))
  }

  ghost predicate Precedes(order: seq<Name>, a: Name, b: Name) {
    exists i, j :: 0 <= i < j < |order| && order[i] == a && order[j] == b
  }

  lemma PrecedingGoesFirst(order: seq<Name>, a: Name, b: Name, k: nat)
    requires forall i, j :: 0 <= i < j < |order| ==> order[i] != order[j]
    requires Precedes(order, a, b)
    requires k <= |order| && b in order[..k]
    ensures a in order[..k]
  {
  }

  ghost predicate SafeThroughout(live: Files, t: Transaction, order: seq<Name>) {
    forall k :: 0 <= k <= |order| ==> Recovered(Disk(live, Some(After(t, order[..k])))) == live
  }

  // A rollback of what is left would change nothing.
  ghost predicate Harmless(entries: seq<Entry>, live: Files, backup: Files) {
    forall e :: e in entries ==>
      if e.hadTarget
      then e.path in backup ==> e.path in live && live[e.path] == backup[e.path]
      else e.path !in live
  }

  lemma RollbackIsIdentity(entries: seq<Entry>, live: Files, backup: Files)
    requires Consistent(entries)
    ensures RolledBack(entries, live, backup) == live <==> Harmless(entries, live, backup)
  {
  }

  // What is left of any committed transaction is harmless exactly when it still shows the marker, no
  // longer shows the manifest, or would roll back to the same files.
  lemma RemnantExact(d: Disk, t': Transaction)
    requires ValidDisk(d) && IsCommitted(d) && Remnant(d.transaction.value, t')
    ensures Recovered(Disk(d.live, Some(t'))) == Recovered(d) <==>
      t'.committed || t'.manifest.None? || Harmless(t'.manifest.value, d.live, t'.backup)
  {
    if t'.manifest.Some? {
      RollbackIsIdentity(t'.manifest.value, d.live, t'.backup);
    }
  }

  // After a committed publication, per crash point: the remains are harmless exactly when they
  // still show the marker, no longer show the manifest, or would roll back to the same files.
  lemma CommittedRemnantExact(before: Files, paths: seq<Path>, staged: Files, t': Transaction)
    requires forall p :: p in paths ==> p in staged
    requires Remnant(CommittedTransaction(before, paths), t')
    ensures Recovered(Disk(Install(before, paths, staged), Some(t'))) == Install(before, paths, staged) <==>
      || t'.committed
      || t'.manifest.None?
      || forall p :: p in paths ==> p in before && (p in t'.backup ==> before[p] == staged[p])
  {
    var live, entries := Install(before, paths, staged), ManifestFor(paths, before);
    RollbackIsIdentity(entries, live, t'.backup);
    if !t'.committed && t'.manifest.Some? {
      assert t'.manifest == Some(entries);
      if Harmless(entries, live, t'.backup) {
        forall p | p in paths
          ensures p in before && (p in t'.backup ==> before[p] == staged[p])
        {
          assert Entry(p, p in before) in entries;
        }
      }
    }
  }

  // The exact order condition for deleting a committed transaction.
  lemma CommittedCleanupExact(before: Files, paths: seq<Path>, staged: Files, order: seq<Name>)
    requires forall p :: p in paths ==> p in staged
    requires Empties(order, CommittedTransaction(before, paths))
    ensures SafeThroughout(Install(before, paths, staged), CommittedTransaction(before, paths), order) <==>
      || Precedes(order, ManifestFile, CommitMarker)
      || forall p :: p in paths ==>
           p in before && (before[p] != staged[p] ==> Precedes(order, BackupOf(p), CommitMarker))
  {
    var t, live := CommittedTransaction(before, paths), Install(before, paths, staged);
    assert CommitMarker in Names(t) && ManifestFile in Names(t);
    var m :| 0 <= m < |order| && order[m] == CommitMarker;
    if !Precedes(order, ManifestFile, CommitMarker) {
      MarkerFirst(before, paths, staged, order, m);
    } else {
      forall k | 0 <= k <= |order|
        ensures Recovered(Disk(live, Some(After(t, order[..k])))) == live
      {
        AfterIs(t, order[..k]);
        CommittedRemnantExact(before, paths, staged, After(t, order[..k]));
        if CommitMarker in order[..k] {
          PrecedingGoesFirst(order, ManifestFile, CommitMarker, k);
        }
      }
    }
  }

  lemma MarkerFirst(before: Files, paths: seq<Path>, staged: Files, order: seq<Name>, m: nat)
    requires forall p :: p in paths ==> p in staged
    requires Empties(order, CommittedTransaction(before, paths))
    requires m < |order| && order[m] == CommitMarker
    requires !Precedes(order, ManifestFile, CommitMarker)
    ensures SafeThroughout(Install(before, paths, staged), CommittedTransaction(before, paths), order) <==>
      forall p :: p in paths ==>
        p in before && (before[p] != staged[p] ==> Precedes(order, BackupOf(p), CommitMarker))
  {
    var t, live := CommittedTransaction(before, paths), Install(before, paths, staged);
    if SafeThroughout(live, t, order) {
      var cut := order[..m + 1];
      AfterIs(t, cut);
      assert cut[m] == CommitMarker;
      assert ManifestFile !in cut;
      assert Recovered(Disk(live, Some(After(t, cut)))) == live;
      CommittedRemnantExact(before, paths, staged, After(t, cut));
      forall p | p in paths
        ensures p in before && (before[p] != staged[p] ==> Precedes(order, BackupOf(p), CommitMarker))
      {
        if p in before && before[p] != staged[p] {
          assert p in t.backup && BackupOf(p) in cut;
          var i :| 0 <= i < |cut| && cut[i] == BackupOf(p);
          assert order[i] == BackupOf(p) && i < m;
        }
      }
    }
    if forall p :: p in paths ==>
        p in before && (before[p] != staged[p] ==> Precedes(order, BackupOf(p), CommitMarker)) {
      forall k | 0 <= k <= |order|
        ensures Recovered(Disk(live, Some(After(t, order[..k])))) == live
      {
        var left := After(t, order[..k]);
        AfterIs(t, order[..k]);
        CommittedRemnantExact(before, paths, staged, left);
        if !left.committed {
          forall p | p in paths && before[p] != staged[p]
            ensures p !in left.backup
          {
            PrecedingGoesFirst(order, BackupOf(p), CommitMarker, k);
          }
        }
      }
    }
  }

  // Once a rollback has undone every entry, the directory may be deleted in any order.
  lemma RollbackCleanupSafe(d: Disk, order: seq<Name>)
    requires IsPending(d)
    requires forall e :: e in d.transaction.value.manifest.value ==> Settled(e, d.live, d.transaction.value.backup)
    ensures SafeThroughout(d.live, d.transaction.value, order)
  {
    forall k | 0 <= k <= |order|
      ensures Recovered(Disk(d.live, Some(After(d.transaction.value, order[..k])))) == d.live
    {
      AfterIs(d.transaction.value, order[..k]);
      RemnantOfSettled(d, After(d.transaction.value, order[..k]));
    }
  }

  // Why the order matters: two files are published and reported, the marker goes first and the
  // deletion stops there.  The next recovery brings one old file back and deletes the other.
  lemma MarkerFirstLosesPublication()
    ensures
      var before: Files := map["a" := Blob(0)];
      var staged: Files := map["a" := Blob(1), "b" := Blob(2)];
      var t := CommittedTransaction(before, ["a", "b"]);
      && Install(before, ["a", "b"], staged) == staged
      && Recovered(Disk(staged, Some(t))) == staged
      && Recovered(Disk(staged, Some(After(t, [CommitMarker])))) == before
      && Recovered(Disk(staged, Some(After(t, [CommitMarker, BackupOf("a")])))) == map["a" := Blob(1)]
  {
    var before: Files := map["a" := Blob(0)];
    var staged: Files := map["a" := Blob(1), "b" := Blob(2)];
    var t := CommittedTransaction(before, ["a", "b"]);
    var entries := ManifestFor(["a", "b"], before);
    assert Entry("a", true) in entries && Entry("b", false) in entries;
    var one, two := [CommitMarker], [CommitMarker, BackupOf("a")];
    assert one[..0] == [] && two[..1] == one;
    assert After(t, one) == Without(t, CommitMarker);
    assert After(t, two) == Without(After(t, one), BackupOf("a"));
    assert t.backup == before;
    assert RolledBack(entries, staged, before) == before;
    assert RolledBack(entries, staged, before - {"a"}) == map["a" := Blob(1)];
  }
}
