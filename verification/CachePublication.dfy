// The journalled publication of staged files into the model cache.
//
// A publication writes a manifest, moves every old target into the transaction directory, moves
// every staged file into place, writes the commit marker and then deletes the transaction
// directory.  Every disk operation may be refused, may take effect and still report an error, or
// may be the one at which power is lost.  `Recovered` gives the meaning of a disk: the cache a
// completed recovery would leave behind.
module CachePublication {
  import opened Wrappers
  import opened Collections

  type Path = string

  // File contents, compared by value.  The model lock is the one file whose content is interpreted.
  datatype Content = Blob(digest: int) | LockFile(deployments: map<string, int>)

  type Files = map<Path, Content>

  datatype Entry = Entry(path: Path, hadTarget: bool)

  datatype Transaction = Transaction(manifest: Option<seq<Entry>>, committed: bool, backup: Files)

  datatype Disk = Disk(live: Files, transaction: Option<Transaction>)

  // ----- The meaning of a disk -----

  // A backup that the manifest says to put back.
  predicate Restores(entries: seq<Entry>, backup: Files, p: Path) {
    p in backup && Entry(p, true) in entries
  }

  // A live file that is not one the transaction created.
  predicate Keeps(entries: seq<Entry>, live: Files, p: Path) {
    p in live && Entry(p, false) !in entries
  }

  function RolledBack(entries: seq<Entry>, live: Files, backup: Files): Files {
    map p | p in live.Keys + backup.Keys && (Restores(entries, backup, p) || Keeps(entries, live, p)) ::
      if Restores(entries, backup, p) then backup[p] else live[p]
  }

  predicate IsCommitted(d: Disk) {
    d.transaction.Some? && d.transaction.value.committed
  }

  // An interrupted transaction that recovery has to undo.
  predicate IsPending(d: Disk) {
    d.transaction.Some? && !d.transaction.value.committed && d.transaction.value.manifest.Some?
  }

  function Recovered(d: Disk): Files {
    if IsPending(d)
    then RolledBack(d.transaction.value.manifest.value, d.live, d.transaction.value.backup)
    else d.live
  }

  // The disk as recovery takes it when the commit marker cannot be read.
  function Unmarked(d: Disk): Disk {
    if d.transaction.Some? then d.(transaction := Some(d.transaction.value.(committed := false))) else d
  }

  // The disk as recovery takes it.
  function Taken(d: Disk, misread: bool): Disk {
    if misread then Unmarked(d) else d
  }

  ghost predicate Consistent(entries: seq<Entry>) {
    forall p :: Entry(p, true) in entries ==> Entry(p, false) !in entries
  }

  ghost predicate ValidDisk(d: Disk) {
    d.transaction.Some? && d.transaction.value.manifest.Some? ==>
      Consistent(d.transaction.value.manifest.value)
  }

  // ----- What rollback does to one path -----

  lemma DiscardKeepsMeaning(entries: seq<Entry>, live: Files, live': Files, backup: Files, p: Path)
    requires live' - {p} == live - {p}
    requires Restores(entries, backup, p) || (Entry(p, false) in entries && Entry(p, true) !in entries)
    ensures RolledBack(entries, live', backup) == RolledBack(entries, live, backup)
  {
    var a, b := RolledBack(entries, live', backup), RolledBack(entries, live, backup);
    forall q
      ensures q in a <==> q in b
      ensures q in a && q in b ==> a[q] == b[q]
    {
      if q != p {
        assert q in live' <==> q in live' - {p};
        assert q in live <==> q in live - {p};
        assert q in live ==> live[q] == (live - {p})[q];
        assert q in live' ==> live'[q] == (live' - {p})[q];
      }
    }
  }

  lemma RestoreKeepsMeaning(entries: seq<Entry>, live: Files, backup: Files, p: Path)
    requires Consistent(entries) && Restores(entries, backup, p)
    ensures RolledBack(entries, live[p := backup[p]], backup - {p}) == RolledBack(entries, live, backup)
  {
  }

  // Rollback has nothing left to do for this entry.
  predicate Settled(e: Entry, live: Files, backup: Files) {
    if e.hadTarget then e.path !in backup else e.path !in live
  }

  lemma StaysSettled(entries: seq<Entry>, e: Entry, live: Files, backup: Files, live': Files, backup': Files)
    requires Consistent(entries) && e in entries
    requires live' - {e.path} == live - {e.path} && (backup' == backup || backup' == backup - {e.path})
    requires Settled(e, live', backup')
    ensures forall other :: other in entries && Settled(other, live, backup) ==> Settled(other, live', backup')
  {
    forall other | other in entries && Settled(other, live, backup)
      ensures Settled(other, live', backup')
    {
      assert other.path != e.path ==> (other.path in live' <==> other.path in live' - {e.path});
      assert other.path != e.path ==> (other.path in live <==> other.path in live - {e.path});
      if other.path == e.path && other != e {
        assert false;
      }
    }
  }

  // Rolling the transaction back would not touch a single file.
  ghost predicate Untouched(d: Disk) {
    d.transaction.Some? && d.transaction.value.manifest.Some? ==>
      forall e :: e in d.transaction.value.manifest.value ==> Settled(e, d.live, d.transaction.value.backup)
  }

  lemma SettledMeansLive(entries: seq<Entry>, live: Files, backup: Files)
    requires forall e :: e in entries ==> Settled(e, live, backup)
    ensures RolledBack(entries, live, backup) == live
  {
  }

  // ----- Deleting the transaction directory entry by entry -----

  datatype Name = ManifestFile | CommitMarker | BackupOf(path: Path)

  function Names(t: Transaction): set<Name> {
    (if t.manifest.Some? then {ManifestFile} else {}) +
    (if t.committed then {CommitMarker} else {}) +
    (set p | p in t.backup :: BackupOf(p))
  }

  function Without(t: Transaction, name: Name): Transaction {
    match name
    case ManifestFile => t.(manifest := None)
    case CommitMarker => t.(committed := false)
    case BackupOf(p) => t.(backup := t.backup - {p})
  }

  lemma WithoutShrinks(t: Transaction, name: Name)
    requires name in Names(t)
    ensures Names(Without(t, name)) == Names(t) - {name}
    ensures Remnant(t, Without(t, name))
  {
  }

  // What an interrupted deletion may leave of a transaction directory.
  ghost predicate Remnant(t: Transaction, t': Transaction) {
    && (t'.manifest == t.manifest || t'.manifest == None)
    && (t'.committed ==> t.committed)
    && t'.backup.Keys <= t.backup.Keys
    && (forall p :: p in t'.backup ==> t'.backup[p] == t.backup[p])
  }

  // The manifest disappeared no later than the commit marker.
  predicate ManifestWentFirst(t: Transaction, t': Transaction) {
    t.committed && !t'.committed ==> t'.manifest.None?
  }

  lemma RemnantOfSettled(d: Disk, t': Transaction)
    requires IsPending(d) && Remnant(d.transaction.value, t')
    requires forall e :: e in d.transaction.value.manifest.value ==> Settled(e, d.live, d.transaction.value.backup)
    ensures Recovered(Disk(d.live, Some(t'))) == d.live
  {
  }

  // ----- Disk operations and their failures -----

  // Fine: took effect.  Refused: no effect, error.  Late: took effect, then an error (a directory
  // sync).  PowerLoss: the process dies before the operation.
  datatype Io = Fine | Refused | Late | PowerLoss

  datatype Recovery = Complete | Deferred | RecoveryFailed | RecoveryCrashed

  datatype Publication = Published | Busy | PublicationFailed | PublicationCrashed

  // ----- What a publication is meant to do -----

  function ManifestFor(paths: seq<Path>, live: Files): (entries: seq<Entry>)
    ensures Consistent(entries)
    ensures forall p, had :: Entry(p, had) in entries <==> p in paths && had == (p in live)
  {
    var entries := seq(|paths|, i requires 0 <= i < |paths| => Entry(paths[i], paths[i] in live));
    assert forall p, had | p in paths && had == (p in live) :: Entry(p, had) in entries by {
      forall p, had | p in paths && had == (p in live)
        ensures Entry(p, had) in entries
      {
        var i :| 0 <= i < |paths| && paths[i] == p;
        assert entries[i] == Entry(p, had);
      }
    }
    entries
  }

  function Install(live: Files, paths: seq<Path>, staged: Files): Files {
    live + map p | p in paths && p in staged :: staged[p]
  }

  // One call under the publication lock, with whether it got as far as the commit marker.
  datatype Step = RecoveryStep | PublicationStep(paths: seq<Path>, staged: Files, committed: bool)

  function Effect(files: Files, step: Step): Files {
    if step.PublicationStep? && step.committed then Install(files, step.paths, step.staged) else files
  }

  // What a call may do to a disk, however it ends.
  ghost predicate Next(d: Disk, step: Step, d': Disk) {
    ValidDisk(d) && ValidDisk(d') && Recovered(d') == Effect(Recovered(d), step)
  }

  function CommittedTransaction(before: Files, paths: seq<Path>): Transaction {
    Transaction(Some(ManifestFor(paths, before)), true, map p | p in before && p in paths :: before[p])
  }

  // One listed path while a publication is moving files: its old content is in exactly one place,
  // and whatever else stands at the target is the staged content.
  ghost predicate PathInFlight(before: Files, staged: Files, live: Files, backup: Files, p: Path) {
    if p in before && p !in backup
    then p in live && live[p] == before[p]
    else
      && (p in before <==> p in backup)
      && (p in before ==> backup[p] == before[p])
      && (p in live ==> p in staged && live[p] == staged[p])
  }

  ghost predicate InFlight(before: Files, paths: seq<Path>, staged: Files, d: Disk) {
    && IsPending(d)
    && d.transaction.value.manifest.value == ManifestFor(paths, before)
    && (forall p :: p in paths ==> PathInFlight(before, staged, d.live, d.transaction.value.backup, p))
    && (forall p :: p !in paths ==>
          && p !in d.transaction.value.backup
          && (p in d.live <==> p in before)
          && (p in before ==> d.live[p] == before[p]))
  }

  // At every point before the commit marker a recovery gives back the cache as it was.
  lemma InFlightRecovers(before: Files, paths: seq<Path>, staged: Files, d: Disk)
    requires InFlight(before, paths, staged, d)
    ensures Recovered(d) == before
  {
  }

  lemma MovedAside(before: Files, paths: seq<Path>, staged: Files, d: Disk, p: Path)
    requires InFlight(before, paths, staged, d)
    requires p in paths && p in d.live && p in before && p !in d.transaction.value.backup
    ensures var t := d.transaction.value;
      InFlight(before, paths, staged, Disk(d.live - {p}, Some(t.(backup := t.backup[p := d.live[p]]))))
  {
    var t := d.transaction.value;
    forall q | q in paths
      ensures PathInFlight(before, staged, d.live - {p}, t.backup[p := d.live[p]], q)
    {
      assert PathInFlight(before, staged, d.live, t.backup, q);
    }
  }

  lemma AllInstalled(before: Files, paths: seq<Path>, staged: Files, d: Disk)
    requires InFlight(before, paths, staged, d)
    requires forall p :: p in paths ==> p in d.live && p in staged && d.live[p] == staged[p]
    requires forall p :: p in paths && p in before ==> p in d.transaction.value.backup
    ensures d == Disk(Install(before, paths, staged), Some(CommittedTransaction(before, paths).(committed := false)))
  {
    var t := CommittedTransaction(before, paths);
    forall p
      ensures p in d.transaction.value.backup <==> p in t.backup
      ensures p in d.transaction.value.backup && p in t.backup ==> d.transaction.value.backup[p] == t.backup[p]
    {
      assert p in paths ==> PathInFlight(before, staged, d.live, d.transaction.value.backup, p);
    }
    assert d.transaction.value.backup == t.backup;
    assert d.live == Install(before, paths, staged);
  }

  // How a publication reports a failure before any file has moved.
  function Stopped(io: Io): Publication {
    if io.PowerLoss? then PublicationCrashed else PublicationFailed
  }

  // What a publication leaves, in every order in which directories may be deleted and whichever
  // markers were misread.  Only the remnant of a committed transaction is left to the order.
  ghost predicate Outcome(
    d: Disk, paths: seq<Path>, staged: Files, d': Disk, committed: bool, first: bool, last: bool)
  {
    var before := Recovered(Taken(d, first));
    && (first ==> IsCommitted(d))
    && (last ==> committed)
    && (committed ==> forall p :: p in paths ==> p in staged)
    && (committed && !last ==>
         && d'.live == Install(before, paths, staged)
         && (d'.transaction.Some? ==> Remnant(CommittedTransaction(before, paths), d'.transaction.value)))
    && (last || (!committed && (first || !IsCommitted(d))) ==> Recovered(Taken(d', first || last)) == before)
    && (!committed && !first && IsCommitted(d) ==>
         || Recovered(d') == d.live
         || (d'.live == d.live && d'.transaction.Some? && Remnant(d.transaction.value, d'.transaction.value)))
  }

  // ----- The cache directory -----

  class CacheDisk {
    var live: Files
    var transaction: Option<Transaction>
    // Whether the file system happens to delete a directory's manifest before its commit marker.
    const manifestFirst: bool

    // What will become of each disk operation, and whether each recovery can read a commit marker.
    const faults: nat -> Io
    const markerReads: nat -> bool
    // How many operations and recoveries there have been.
    var clock: nat
    var recoveries: nat

    constructor (files: Files, manifestFirst: bool, faults: nat -> Io, markerReads: nat -> bool)
      ensures View() == Disk(files, None) && clock == recoveries == 0
      ensures this.manifestFirst == manifestFirst && this.faults == faults && this.markerReads == markerReads
    {
      live, transaction, this.manifestFirst := files, None, manifestFirst;
      this.faults, this.markerReads, clock, recoveries := faults, markerReads, 0, 0;
    }

    // No operation since the given one has failed.
    ghost predicate SmoothSince(start: nat)
      reads this
    {
      forall n {:trigger faults(n)} :: start <= n < clock ==> faults(n).Fine?
    }

    method Operate() returns (io: Io)
      modifies `clock
      ensures io == faults(old(clock)) && clock == old(clock) + 1
    {
      io, clock := faults(clock), clock + 1;
    }

    function View(): Disk
      reads this
    {
      Disk(live, transaction)
    }

    // Removing a directory can fail half way, leaving other content at its path.
    method RemoveTarget(p: Path) returns (io: Io)
      modifies `live, `clock
      ensures clock == old(clock) + 1 && io == faults(old(clock))
      ensures live - {p} == old(live) - {p}
      ensures p !in old(live) ==> live == old(live)
      ensures io.Fine? ==> p !in live
    {
      io := Operate();
      var torn: bool := *;
      if io.Fine? && p in live {
        live := live - {p};
      } else if p in live && torn && !io.Refused? {
        var partial: Option<Content> := *;
        live := if partial.Some? then live[p := partial.value] else live - {p};
      }
    }

    method RestoreBackup(p: Path) returns (io: Io)
      requires transaction.Some? && p in transaction.value.backup
      modifies `live, `transaction, `clock
      ensures clock == old(clock) + 1 && io == faults(old(clock))
      ensures io.Fine? || io.Late? ==>
        && live == old(live)[p := old(transaction).value.backup[p]]
        && transaction == Some(old(transaction).value.(backup := old(transaction).value.backup - {p}))
      ensures io.Refused? || io.PowerLoss? ==> View() == old(View())
    {
      io := Operate();
      if io.Fine? || io.Late? {
        var t := transaction.value;
        live := live[p := t.backup[p]];
        transaction := Some(t.(backup := t.backup - {p}));
      }
    }

    // Deletes the transaction directory, one entry after another.  `Late` stands for the failed
    // sync of the state directory after the deletion.
    method RemoveTransaction() returns (io: Io)
      requires transaction.Some?
      modifies `transaction, `clock
      ensures clock > old(clock) && (SmoothSince(old(clock)) ==> io.Fine?)
      ensures io.Fine? || io.Late? <==> transaction.None?
      ensures transaction.Some? ==> Remnant(old(transaction).value, transaction.value)
      ensures transaction.Some? && manifestFirst ==> ManifestWentFirst(old(transaction).value, transaction.value)
    {
      while Names(transaction.value) != {}
        invariant transaction.Some? && clock >= old(clock)
        invariant Remnant(old(transaction).value, transaction.value)
        invariant manifestFirst ==> ManifestWentFirst(old(transaction).value, transaction.value)
        decreases |Names(transaction.value)|
      {
        io := Operate();
        if io.PowerLoss? || io.Refused? {
          return;
        }
        var name := NextName(Names(transaction.value));
        WithoutShrinks(transaction.value, name);
        transaction := Some(Without(transaction.value, name));
      }
      io := Operate();
      if io.Fine? || io.Late? {
        transaction := None;
      }
    }

    // The order in which a directory is walked is up to the file system.
    method NextName(names: set<Name>) returns (name: Name)
      requires names != {}
      ensures name in names
      ensures manifestFirst && ManifestFile in names ==> name != CommitMarker
    {
      if manifestFirst && ManifestFile in names {
        name :| name in names && name != CommitMarker;
      } else {
        name :| name in names;
      }
    }

    // Rolls an interrupted transaction back, or finishes deleting a committed one.  A marker whose
    // content cannot be read counts as no marker (`misread`).
    method Recover() returns (r: Recovery, ghost misread: bool)
      requires ValidDisk(View())
      modifies this
      ensures ValidDisk(View())
      ensures clock > old(clock) && recoveries == old(recoveries) + 1
      ensures SmoothSince(old(clock)) ==> r.Complete?
      ensures misread ==> IsCommitted(old(View())) && !markerReads(old(recoveries)) && !r.Deferred?
      ensures IsCommitted(old(View())) && markerReads(old(recoveries)) ==> live == old(live)
      ensures IsCommitted(old(View())) && !markerReads(old(recoveries)) && faults(old(clock)).Fine? ==> misread
      ensures r.Complete? ==> View() == Disk(Recovered(Taken(old(View()), misread)), None)
      ensures r.Deferred? ==> IsCommitted(old(View()))
      ensures IsCommitted(View()) ==> IsCommitted(old(View()))
      ensures !misread && (manifestFirst || !IsCommitted(old(View()))) ==> Next(old(View()), RecoveryStep, View())
      ensures !misread && IsCommitted(old(View())) ==>
        && live == old(live)
        && (transaction.Some? ==> Remnant(old(transaction).value, transaction.value))
      ensures misread ==>
        && Recovered(Unmarked(View())) == Recovered(Unmarked(old(View())))
        && (Untouched(old(View())) ==> live == old(live))
    {
      misread := false;
      var readable := markerReads(recoveries);
      recoveries := recoveries + 1;
      var stat := Operate();
      if !stat.Fine? {
        return if stat.PowerLoss? then RecoveryCrashed else RecoveryFailed, misread;
      }
      if transaction.None? {
        return Complete, misread;
      }
      if transaction.value.committed && readable {
        var io := RemoveTransaction();
        match io
        case Fine => return Complete, misread;
        case Refused => return Deferred, misread;
        case Late => return RecoveryFailed, misread;
        case PowerLoss => return RecoveryCrashed, misread;
      }
      misread := transaction.value.committed;
      if transaction.value.manifest.Some? {
        var outcome := Rollback();
        if !outcome.Complete? {
          return outcome, misread;
        }
      }
      ghost var settled := Unmarked(View());
      var io := RemoveTransaction();
      if transaction.Some? && IsPending(settled) {
        RemnantOfSettled(settled, transaction.value.(committed := false));
      }
      match io
      case Fine => r := Complete;
      case Refused => r := RecoveryFailed;
      case Late => r := RecoveryFailed;
      case PowerLoss => r := RecoveryCrashed;
    }

    // Walks the manifest, undoing each entry.  Restarting it after any failure is harmless.
    method Rollback() returns (r: Recovery)
      requires ValidDisk(View()) && transaction.Some? && transaction.value.manifest.Some?
      modifies `live, `transaction, `clock
      ensures clock >= old(clock) && (SmoothSince(old(clock)) ==> r.Complete?)
      ensures r.Complete? || r.RecoveryFailed? || r.RecoveryCrashed?
      ensures ValidDisk(View()) && transaction.Some?
      ensures transaction.value.manifest == old(transaction).value.manifest
      ensures transaction.value.committed == old(transaction).value.committed
      ensures Recovered(Unmarked(View())) == Recovered(Unmarked(old(View())))
      ensures Untouched(old(View())) ==> live == old(live)
      ensures r.Complete? ==> live == Recovered(Unmarked(old(View()))) && Untouched(View())
    {
      var entries := transaction.value.manifest.value;
      var i := 0;
      while i < |entries|
        invariant 0 <= i <= |entries| && clock >= old(clock)
        invariant transaction.Some? && transaction.value.manifest == Some(entries)
        invariant transaction.value.committed == old(transaction).value.committed
        invariant Recovered(Unmarked(View())) == Recovered(Unmarked(old(View())))
        invariant Untouched(old(View())) ==> View() == old(View())
        invariant forall j :: 0 <= j < i ==> Settled(entries[j], live, transaction.value.backup)
      {
        var io := Undo(entries, entries[i]);
        if !io.Fine? {
          return if io.PowerLoss? then RecoveryCrashed else RecoveryFailed;
        }
        i := i + 1;
      }
      SettledMeansLive(entries, live, transaction.value.backup);
      r := Complete;
    }

    // Puts back the old target of one entry, or removes the new one.
    method Undo(entries: seq<Entry>, e: Entry) returns (io: Io)
      requires transaction.Some? && transaction.value.manifest == Some(entries)
      requires Consistent(entries) && e in entries
      modifies `live, `transaction, `clock
      ensures clock >= old(clock) && (SmoothSince(old(clock)) ==> io.Fine?)
      ensures transaction.Some? && transaction.value.manifest == Some(entries)
      ensures transaction.value.committed == old(transaction).value.committed
      ensures Recovered(Unmarked(View())) == Recovered(Unmarked(old(View())))
      ensures Settled(e, old(live), old(transaction).value.backup) ==> View() == old(View())
      ensures io.Fine? ==> Settled(e, live, transaction.value.backup)
      ensures io.Fine? ==> forall other ::
        other in entries && Settled(other, old(live), old(transaction).value.backup) ==>
        Settled(other, live, transaction.value.backup)
    {
      ghost var was := View();
      io := Fine;
      if e.hadTarget {
        if e.path in transaction.value.backup {
          io := RemoveTarget(e.path);
          DiscardKeepsMeaning(entries, was.live, live, transaction.value.backup, e.path);
          if !io.Fine? {
            return;
          }
          RestoreKeepsMeaning(entries, live, transaction.value.backup, e.path);
          io := RestoreBackup(e.path);
        }
      } else {
        io := RemoveTarget(e.path);
        DiscardKeepsMeaning(entries, was.live, live, transaction.value.backup, e.path);
      }
      if io.Fine? {
        StaysSettled(entries, e, was.live, was.transaction.value.backup, live, transaction.value.backup);
      }
    }

    // First loop of a publication: every existing target moves into the transaction directory.
    method BackUpTargets(paths: seq<Path>, ghost before: Files, ghost staged: Files) returns (io: Io)
      requires View() == Disk(before, Some(Transaction(Some(ManifestFor(paths, before)), false, map[])))
      modifies `live, `transaction, `clock
      ensures clock >= old(clock) && (SmoothSince(old(clock)) ==> io.Fine?)
      ensures InFlight(before, paths, staged, View())
      ensures io.Fine? ==> forall p :: p in paths ==> p !in live
    {
      var i := 0;
      io := Fine;
      while i < |paths|
        invariant 0 <= i <= |paths| && clock >= old(clock) && io.Fine?
        invariant InFlight(before, paths, staged, View())
        invariant forall p :: p in paths ==> (p in live <==> p in before && p !in transaction.value.backup)
        invariant forall j :: 0 <= j < i ==> paths[j] !in live
      {
        var p := paths[i];
        if p in live {
          io := Operate();
          if io.Fine? || io.Late? {
            MovedAside(before, paths, staged, View(), p);
            var t := transaction.value;
            transaction := Some(t.(backup := t.backup[p := live[p]]));
            live := live - {p};
          }
          if !io.Fine? {
            return;
          }
        }
        i := i + 1;
      }
    }

    // Second loop: every staged file moves to its target.
    method InstallStaged(paths: seq<Path>, ghost before: Files, staged: Files) returns (io: Io)
      requires InFlight(before, paths, staged, View())
      requires forall p :: p in paths ==> p !in live
      modifies `live, `clock
      ensures clock >= old(clock)
      ensures SmoothSince(old(clock)) && Distinct(paths) && (forall p :: p in paths ==> p in staged) ==> io.Fine?
      ensures InFlight(before, paths, staged, View())
      ensures io.Fine? ==>
        && (forall p :: p in paths ==> p in staged)
        && View() == Disk(
             Install(before, paths, staged), Some(CommittedTransaction(before, paths).(committed := false)))
    {
      var left := staged;
      var i := 0;
      io := Fine;
      while i < |paths|
        invariant 0 <= i <= |paths| && clock >= old(clock) && io.Fine?
        invariant InFlight(before, paths, staged, View())
        invariant forall p :: p in paths ==> (p in live <==> p in paths[..i])
        invariant forall p :: p in left <==> p in staged && p !in paths[..i]
        invariant forall p :: p in left ==> left[p] == staged[p]
        invariant forall p :: p in paths[..i] ==> p in staged
      {
        var p := paths[i];
        assert PathInFlight(before, staged, live, transaction.value.backup, p);
        io := Operate();
        assert Distinct(paths) ==> p !in paths[..i];
        if p !in left && (io.Fine? || io.Late?) {
          io := Refused;
        }
        if io.Fine? || io.Late? {
          live := live[p := left[p]];
          left := left - {p};
        }
        if !io.Fine? {
          return;
        }
        assert paths[..i + 1] == paths[..i] + [p];
        i := i + 1;
      }
      assert paths[..i] == paths;
      AllInstalled(before, paths, staged, View());
    }

    // Publishes the listed staged files, or leaves the cache as it was.  `first` and `last` say
    // whether the recovery at the start, or the one after a failure, misread a commit marker.
    method Publish(paths: seq<Path>, staged: Files)
      returns (r: Publication, ghost committed: bool, ghost first: bool, ghost last: bool)
      requires ValidDisk(View())
      modifies this
      ensures ValidDisk(View())
      ensures Outcome(old(View()), paths, staged, View(), committed, first, last)
      ensures first ==> !markerReads(old(recoveries))
      ensures last ==> !markerReads(old(recoveries) + 1)
      ensures clock > old(clock)
      ensures SmoothSince(old(clock)) && Distinct(paths) && (forall p :: p in paths ==> p in staged) ==>
        r.Published? && committed && !last && transaction.None?
      ensures r.Published? ==> committed && !last
      ensures r.Busy? ==> live == old(live) && IsCommitted(old(View()))
      ensures !first && !last && (manifestFirst || (!committed && !IsCommitted(old(View())))) ==>
        Next(old(View()), PublicationStep(paths, staged, committed), View())
    {
      committed, last := false, false;
      var recovery;
      recovery, first := Recover();
      match recovery {
        case Complete =>
        case Deferred => return Busy, committed, first, last;
        case RecoveryFailed => return PublicationFailed, committed, first, last;
        case RecoveryCrashed => return PublicationCrashed, committed, first, last;
      }
      r, committed, last := Transact(paths, staged);
    }

    // A publication into a cache without a transaction.
    method Transact(paths: seq<Path>, staged: Files) returns (r: Publication, ghost committed: bool, ghost last: bool)
      requires transaction.None?
      modifies this
      ensures ValidDisk(View())
      ensures last ==> committed && !markerReads(old(recoveries))
      ensures clock > old(clock)
      ensures SmoothSince(old(clock)) && Distinct(paths) && (forall p :: p in paths ==> p in staged) ==>
        r.Published? && committed && !last && transaction.None?
      ensures (r.Published? ==> committed && !last) && !r.Busy?
      ensures committed ==> forall p :: p in paths ==> p in staged
      ensures committed && !last ==>
        && live == Install(old(live), paths, staged)
        && (transaction.Some? ==> Remnant(CommittedTransaction(old(live), paths), transaction.value))
      ensures !committed ==> !IsCommitted(View()) && Recovered(View()) == old(live)
      ensures last ==> Recovered(Unmarked(View())) == old(live)
      ensures !last && manifestFirst ==>
        Recovered(View()) == if committed then Install(old(live), paths, staged) else old(live)
    {
      committed, last := false, false;
      ghost var before := live;
      var io := Begin(paths);
      if !io.Fine? {
        return Stopped(io), committed, last;
      }
      io, committed := MoveAndCommit(paths, before, staged);
      if io.PowerLoss? {
        return PublicationCrashed, committed, last;
      }
      if !io.Fine? {
        var recovery;
        recovery, last := Recover();
        return if recovery.RecoveryCrashed? then PublicationCrashed else PublicationFailed, committed, last;
      }
      io := RemoveTransaction();
      match io
      case Fine => r := Published;
      case Refused => r := Published;
      case Late => r := PublicationFailed;
      case PowerLoss => r := PublicationCrashed;
    }

    // Creates the transaction directory and writes the manifest.
    method Begin(paths: seq<Path>) returns (io: Io)
      requires transaction.None?
      modifies `transaction, `clock
      ensures clock > old(clock) && (SmoothSince(old(clock)) ==> io.Fine?)
      ensures ValidDisk(View()) && !IsCommitted(View()) && Recovered(View()) == live
      ensures io.Fine? ==> transaction == Some(Transaction(Some(ManifestFor(paths, live)), false, map[]))
    {
      io := Operate();
      if io.Fine? || io.Late? {
        transaction := Some(Transaction(None, false, map[]));
      }
      if !io.Fine? {
        return;
      }
      var entries := ManifestFor(paths, live);
      io := Operate();
      if io.Fine? || io.Late? {
        transaction := Some(Transaction(Some(entries), false, map[]));
        assert InFlight(live, paths, map[], View());
        InFlightRecovers(live, paths, map[], View());
      }
    }

    // Moves all files and writes the commit marker.
    method MoveAndCommit(paths: seq<Path>, ghost before: Files, staged: Files) returns (io: Io, ghost committed: bool)
      requires View() == Disk(before, Some(Transaction(Some(ManifestFor(paths, before)), false, map[])))
      modifies `live, `transaction, `clock
      ensures clock >= old(clock)
      ensures SmoothSince(old(clock)) && Distinct(paths) && (forall p :: p in paths ==> p in staged) ==> io.Fine?
      ensures ValidDisk(View()) && transaction.Some? && Recovered(Unmarked(View())) == before
      ensures committed == transaction.value.committed && (io.Fine? ==> committed)
      ensures committed ==>
        && (forall p :: p in paths ==> p in staged)
        && View() == Disk(Install(before, paths, staged), Some(CommittedTransaction(before, paths)))
    {
      committed := false;
      io := BackUpTargets(paths, before, staged);
      if io.Fine? {
        io := InstallStaged(paths, before, staged);
      }
      InFlightRecovers(before, paths, staged, View());
      assert Unmarked(View()) == View();
      if io.Fine? {
        ghost var unmarked := View();
        io := Operate();
        if io.Fine? || io.Late? {
          transaction := Some(transaction.value.(committed := true));
          committed := true;
          assert Unmarked(View()) == unmarked;
        }
      }
    }
  }
}
