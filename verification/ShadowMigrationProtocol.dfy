/** The migration and recovery procedures themselves, run against an environment that may fail at every step. */
module ShadowMigration {
  import opened Prelude
  import opened ShadowMigrationState

  datatype Recovery = Nothing | Completion | Restoration | Discard
  datatype Status = NotNeeded | Migrated | AlreadyMigrated | Recovered

  /** A disk, and what was live when its active migration began. */
  datatype Moment = Moment(disk: Disk, origin: Live)

  /** Every moment satisfies the invariant, and every step between two moments is an allowed one. */
  ghost predicate History(trace: seq<Moment>, rules: Rules) {
    && |trace| > 0
    && Inv(trace[|trace| - 1].disk, trace[|trace| - 1].origin, rules)
    && (|trace| > 1 ==>
          && History(trace[..|trace| - 1], rules)
          && StepOk(trace[|trace| - 2].disk, trace[|trace| - 1].disk, rules)
          && (trace[|trace| - 2].disk.journal.Some? ==> trace[|trace| - 2].origin == trace[|trace| - 1].origin))
  }

  lemma {:induction false} HistoryAt(trace: seq<Moment>, rules: Rules, i: nat)
    requires History(trace, rules) && i < |trace|
    ensures Inv(trace[i].disk, trace[i].origin, rules)
    ensures i + 1 < |trace| ==> StepOk(trace[i].disk, trace[i + 1].disk, rules)
  {
    if i + 2 < |trace| || (i < |trace| - 1 && i + 1 < |trace| - 1) {
      HistoryAt(trace[..|trace| - 1], rules, i);
    } else if i + 2 == |trace| {
      HistoryAt(trace[..|trace| - 1], rules, i);
    }
  }

  /** A step extends the history. */
  lemma HistoryExtended(trace: seq<Moment>, next: Moment, rules: Rules)
    requires History(trace, rules) && Inv(next.disk, next.origin, rules)
    requires StepOk(trace[|trace| - 1].disk, next.disk, rules)
    requires trace[|trace| - 1].disk.journal.Some? ==> trace[|trace| - 1].origin == next.origin
    ensures History(trace + [next], rules)
  {
    assert (trace + [next])[..|trace + [next]| - 1] == trace;
  }

  class Installation {
    var disk: Disk
    var faults: seq<Fault>
    const rules: Rules
    ghost var origin: Live
    ghost var trace: seq<Moment>  // every disk so far, one per step that changed it

    ghost predicate Valid()
      reads this
    {
      && History(trace, rules)
      && trace[|trace| - 1] == Moment(disk, origin)
      && Inv(disk, origin, rules)
    }

    /** A process starts on whatever disk an earlier one left. */
    constructor (disk: Disk, rules: Rules, faults: seq<Fault>, ghost origin: Live)
      requires Inv(disk, origin, rules)
      ensures Valid() && this.disk == disk && this.rules == rules && this.faults == faults && this.origin == origin
    {
      this.disk, this.rules, this.faults, this.origin := disk, rules, faults, origin;
      this.trace := [Moment(disk, origin)];
    }

    method NextFault() returns (fault: Fault)
      modifies this`faults
      ensures old(faults) == [] ==> faults == [] && fault == Proceed
    {
      fault := Proceed;
      if faults != [] {
        fault, faults := faults[0], faults[1..];
      }
    }

    /** One atomic change of the disk. */
    method Commit(next: Disk) returns (r: Outcome<()>)
      requires Valid() && Inv(next, origin, rules) && StepOk(disk, next, rules)
      modifies this`disk, this`faults, this`trace
      ensures Valid() && old(trace) <= trace
      ensures disk == if r.Done? then next else old(disk)
      ensures old(faults) == [] ==> faults == [] && r.Done?
    {
      var fault := NextFault();
      match fault
      case ThrowNow => return Threw;
      case CrashNow => return Crashed;
      case Proceed =>
        HistoryExtended(trace, Moment(next, origin), rules);
        disk := next;
        trace := trace + [Moment(next, origin)];
        return Done(());
    }

    /** One step that only reads, or writes a file this model does not track. */
    method Touch() returns (r: Outcome<()>)
      modifies this`faults
      ensures old(faults) == [] ==> faults == [] && r.Done?
    {
      var fault := NextFault();
      r := match fault case ThrowNow => Threw case CrashNow => Crashed case Proceed => Done(());
    }

    /** Comparing a file with a recorded artifact: a file that cannot be read does not match. */
    method ArtifactMatches(equal: bool) returns (r: Outcome<bool>)
      modifies this`faults
      ensures !r.Threw? && (r.Done? && r.value ==> equal)
      ensures old(faults) == [] ==> faults == [] && r == Done(equal)
    {
      var fault := NextFault();
      r := match fault case ThrowNow => Done(false) case CrashNow => Crashed case Proceed => Done(equal);
    }

    method ActiveMatchesCandidate(journal: Journal) returns (r: Outcome<bool>)
      modifies this`faults
      ensures !r.Threw?
      ensures r.Done? && r.value ==> journal.candidate.Some? && Matches(disk.live, journal.candidate.value)
      ensures old(faults) == [] ==>
                && faults == []
                && r == Done(journal.candidate.Some? && Matches(disk.live, journal.candidate.value))
    {
      if journal.candidate.None? {
        return Done(false);
      }
      var config :- ArtifactMatches(disk.live.config == Some(journal.candidate.value.config));
      if !config {
        return Done(false);
      }
      r := ArtifactMatches(disk.live.database == Some(journal.candidate.value.database));
    }

    method WriteJournal(journal: Journal) returns (r: Outcome<()>)
      requires Valid() && disk.journal.Some? && disk.journal.value.id == journal.id
      requires Inv(disk.(journal := Some(journal)), origin, rules)
      modifies this`disk, this`faults, this`trace
      ensures Valid() && old(trace) <= trace
      ensures disk == if r.Done? then old(disk).(journal := Some(journal)) else old(disk)
      ensures old(faults) == [] ==> faults == [] && r.Done?
    {
      r := Commit(disk.(journal := Some(journal)));
    }

    /** Renames the active journal out of the way, never over an existing archive. */
    method ArchiveJournal(journal: Journal, reason: Reason) returns (r: Outcome<()>)
      requires Valid() && disk.journal.Some? && disk.journal.value.id == journal.id
      modifies this`disk, this`faults, this`trace
      ensures Valid() && old(trace) <= trace
      ensures disk == if r.Done?
                      then old(disk).(journal := None,
                                      archive := old(disk).archive[(journal.id, reason) := old(disk).journal.value])
                      else old(disk)
      ensures old(faults) == [] ==> faults == [] && r.Done?
    {
      var _ :- Touch();
      if (journal.id, reason) in disk.archive {
        return Threw;
      }
      r := Commit(disk.(journal := None, archive := disk.archive[(journal.id, reason) := disk.journal.value]));
    }

    method AssertRecoverable(journal: Journal) returns (r: Outcome<()>)
      modifies this`faults
      ensures r.Done? ==> Recoverable(disk, journal)
      ensures old(faults) == [] ==> faults == [] && (Recoverable(disk, journal) ==> r.Done?)
    {
      var _ :- Touch();
      r := if Recoverable(disk, journal) then Done(()) else Threw;
    }

    method AssertCandidate(journal: Journal) returns (r: Outcome<()>)
      modifies this`faults
      ensures r.Done? ==> HasCandidate(disk, journal)
      ensures old(faults) == [] ==> faults == [] && (HasCandidate(disk, journal) ==> r.Done?)
    {
      var _ :- Touch();
      r := if HasCandidate(disk, journal) then Done(()) else Threw;
    }

    /** Both live files pass full validation and still are the candidate afterwards. */
    method ValidateActiveCandidate(journal: Journal) returns (r: Outcome<()>)
      modifies this`faults
      ensures r.Done? ==> HasCandidate(disk, journal) && Matches(disk.live, journal.candidate.value)
      ensures r.Done? ==> rules.ValidContents(Effective(journal.candidate.value.database, disk.live.wal))
      ensures old(faults) == [] ==>
                && faults == []
                && (HasCandidate(disk, journal) && Matches(disk.live, journal.candidate.value)
                    && rules.ValidConfig(journal.candidate.value.config)
                    && rules.ValidContents(Effective(journal.candidate.value.database, disk.live.wal))
                    ==> r.Done?)
    {
      var _ :- AssertCandidate(journal);
      var _ :- Touch();
      if disk.live.config.None? || !rules.ValidConfig(disk.live.config.value) {
        return Threw;
      }
      var _ :- Touch();
      if disk.live.database.None? || !rules.ValidContents(Effective(disk.live.database.value, disk.live.wal)) {
        return Threw;
      }
      var same :- ActiveMatchesCandidate(journal);
      r := if same then Done(()) else Threw;
    }

    ghost predicate MayReplaceDatabase()
      reads this
    {
      && Armed(disk, rules)
      && (|| disk.journal.value.phase == RecoveryRequired
          || (disk.journal.value.phase == Activating
              && disk.live.config == Some(disk.journal.value.candidate.value.config)))
    }

    /** Removes the write-ahead log, then the shared-memory index. */
    method RemoveSqliteSidecars() returns (r: Outcome<()>)
      requires Valid() && MayReplaceDatabase()
      modifies this`disk, this`faults, this`trace
      ensures Valid() && old(trace) <= trace && MayReplaceDatabase()
      ensures disk == old(disk).(live := disk.live)
      ensures disk.live == old(disk).live.(wal := disk.live.wal, shm := disk.live.shm)
      ensures r.Done? ==> NoSidecars(disk.live)
      ensures old(faults) == [] ==> faults == [] && r.Done?
    {
      if disk.live.wal.Some? {
        var _ :- Commit(disk.(live := disk.live.(wal := None)));
      }
      if disk.live.shm {
        var _ :- Commit(disk.(live := disk.live.(shm := false)));
      }
      return Done(());
    }

    /** Copies a file beside the live configuration, renames it over, then reads the result back. */
    method ReplaceConfig(file: Option<Config>) returns (r: Outcome<()>)
      requires Valid() && Armed(disk, rules)
      requires file.Some? ==> Inv(disk.(live := disk.live.(config := file)), origin, rules)
      modifies this`disk, this`faults, this`trace
      ensures Valid() && old(trace) <= trace
      ensures disk == old(disk) || (file.Some? && disk == old(disk).(live := old(disk).live.(config := file)))
      ensures r.Done? ==> file.Some? && disk.live.config == file
      ensures old(faults) == [] ==> faults == [] && (file.Some? ==> r.Done?)
    {
      var _ :- Touch();
      if file.None? {
        return Threw;
      }
      var _ :- Commit(disk.(live := disk.live.(config := file)));
      r := Touch();
    }

    /** The same for the main database file. */
    method ReplaceDatabase(file: Option<Image>) returns (r: Outcome<()>)
      requires Valid() && Armed(disk, rules)
      requires file.Some? ==> Inv(disk.(live := disk.live.(database := file)), origin, rules)
      modifies this`disk, this`faults, this`trace
      ensures Valid() && old(trace) <= trace
      ensures disk == old(disk) || (file.Some? && disk == old(disk).(live := old(disk).live.(database := file)))
      ensures r.Done? ==> file.Some? && disk.live.database == file
      ensures old(faults) == [] ==> faults == [] && (file.Some? ==> r.Done?)
    {
      var _ :- Touch();
      if file.None? {
        return Threw;
      }
      var _ :- Commit(disk.(live := disk.live.(database := file)));
      r := Touch();
    }

    /** Puts the backup database back, without the sidecars of whatever it replaces. */
    method RestoreDatabase(journal: Journal) returns (r: Outcome<()>)
      requires Valid() && disk.journal == Some(journal) && journal.phase == RecoveryRequired
      requires journal.source.value.database.Some? && disk.live.config == origin.config
      modifies this`disk, this`faults, this`trace
      ensures Valid() && old(trace) <= trace
      ensures disk == old(disk).(live := disk.live)
      ensures r.Done? ==> disk.live == RestoredLive(old(disk).live, journal.source.value)
      ensures old(faults) == [] ==> faults == [] && r.Done?
    {
      var _ :- RemoveSqliteSidecars();
      var _ :- ReplaceDatabase(disk.backups[journal.id].database);
      var same :- ArtifactMatches(disk.live.database == journal.source.value.database);
      r := if same then Done(()) else Threw;
    }

    /** Removes the candidate database where none was before. */
    method RemoveDatabase(journal: Journal) returns (r: Outcome<()>)
      requires Valid() && disk.journal == Some(journal) && journal.phase == RecoveryRequired
      requires journal.source.value.database.None? && disk.live.config == origin.config
      modifies this`disk, this`faults, this`trace
      ensures Valid() && old(trace) <= trace
      ensures disk == old(disk).(live := disk.live)
      ensures r.Done? ==> disk.live == RestoredLive(old(disk).live, journal.source.value)
      ensures old(faults) == [] ==> faults == [] && r.Done?
    {
      if disk.live.database.None? {
        return Done(());
      }
      var _ :- RemoveSqliteSidecars();
      r := Commit(disk.(live := disk.live.(database := None)));
    }

    /** Refuses to remove a database that was absent before the migration unless it is the candidate. */
    method AssertRemovable(journal: Journal) returns (r: Outcome<()>)
      modifies this`faults
      ensures old(faults) == [] ==>
                && faults == []
                && (journal.candidate.Some? && disk.live.database == Some(journal.candidate.value.database) ==> r.Done?)
    {
      if journal.candidate.None? {
        return Threw;
      }
      var ours :- ArtifactMatches(disk.live.database == Some(journal.candidate.value.database));
      r := if ours then Done(()) else Threw;
    }

    method RestoreConfig(journal: Journal) returns (r: Outcome<()>)
      requires Valid() && disk.journal == Some(journal) && journal.phase == RecoveryRequired
      modifies this`disk, this`faults, this`trace
      ensures Valid() && old(trace) <= trace
      ensures disk == old(disk) || disk == old(disk).(live := old(disk).live.(config := origin.config))
      ensures r.Done? ==> disk.live.config == origin.config == Some(journal.source.value.config)
      ensures old(faults) == [] ==> faults == [] && r.Done?
    {
      BackupConfigFits(disk, origin, rules);
      r := ReplaceConfig(disk.backups[journal.id].config);
    }

    method RestoreFromBackup(journal: Journal) returns (r: Outcome<()>)
      requires Valid() && disk.journal == Some(journal) && journal.phase == RecoveryRequired
      modifies this`disk, this`faults, this`trace
      ensures Valid() && old(trace) <= trace
      ensures disk == old(disk).(live := disk.live)
      ensures r.Done? ==> disk.live == RestoredLive(old(disk).live, journal.source.value)
      ensures old(faults) == [] ==> faults == [] && r.Done?
    {
      var _ :- AssertRecoverable(journal);
      if journal.source.value.database.None? && disk.live.database.Some? {
        var _ :- AssertRemovable(journal);
      }
      var _ :- RestoreConfig(journal);
      if journal.source.value.database.Some? {
        r := RestoreDatabase(journal);
      } else {
        r := RemoveDatabase(journal);
      }
    }

    /** Removes the staged files one by one; only a crash is noticed. */
    method CleanupCompletedStaging(journal: Journal) returns (r: Outcome<()>)
      requires Valid() && disk.journal == Some(journal) && journal.phase == Completed
      modifies this`disk, this`faults, this`trace
      ensures Valid() && old(trace) <= trace
      ensures disk == old(disk).(staging := disk.staging) && !r.Threw?
      ensures old(faults) == [] ==> faults == [] && r.Done? && disk.staging == old(disk).staging - {journal.id}
    {
      r := Done(());
      if journal.id in disk.staging {
        var files := disk.staging[journal.id];
        r := Commit(disk.(staging := disk.staging[journal.id := files.(config := None)]));
        if r.Done? {
          r := Commit(disk.(staging := disk.staging - {journal.id}));
        }
        if r.Threw? {
          r := Done(());
        }
      }
    }

    /** The candidate is live: prove it once more, then say so. */
    method CompleteActivation(journal: Journal) returns (r: Outcome<()>)
      requires Valid() && disk.journal == Some(journal) && DuringActivation(journal.phase)
      requires Matches(disk.live, journal.candidate.value)
      modifies this`disk, this`faults, this`trace
      ensures Valid() && old(trace) <= trace
      ensures CandidateLive(disk, journal) || Pending(disk, journal)
      ensures r.Done? ==> CandidateLive(disk, journal)
      ensures disk.archive == old(disk).archive
      ensures r.Done? ==> CanRecover(old(disk), rules)
      ensures old(faults) == [] ==>
                && faults == []
                && (r.Done? <==> CanRecover(old(disk), rules))
                && disk == if r.Done? then RecoveredDisk(old(disk)) else old(disk)
    {
      var _ :- ValidateActiveCandidate(journal);
      r := CommitToCandidate(journal);
    }

    /** Writes the two phases that commit to a live candidate, and drops its staging. */
    method CommitToCandidate(journal: Journal) returns (r: Outcome<()>)
      requires Valid() && disk.journal == Some(journal) && DuringActivation(journal.phase)
      requires Matches(disk.live, journal.candidate.value)
      modifies this`disk, this`faults, this`trace
      ensures Valid() && old(trace) <= trace
      ensures CandidateLive(disk, journal) || Pending(disk, journal)
      ensures r.Done? ==> CandidateLive(disk, journal)
      ensures disk.archive == old(disk).archive
      ensures old(faults) == [] ==> faults == [] && r.Done? && disk == RecoveredDisk(old(disk))
    {
      RecoveryCommits(disk);
      var _ :- WriteCompletion(journal);
      r := CleanupCompletedStaging(journal.(phase := Completed));
    }

    method WriteCompletion(journal: Journal) returns (r: Outcome<()>)
      requires Valid() && disk.journal == Some(journal) && DuringActivation(journal.phase)
      requires Matches(disk.live, journal.candidate.value)
      modifies this`disk, this`faults, this`trace
      ensures Valid() && old(trace) <= trace
      ensures disk == old(disk).(journal := disk.journal)
      ensures disk.journal == Some(journal.(phase := Completed)) || Pending(disk, journal)
      ensures r.Done? ==> disk.journal == Some(journal.(phase := Completed))
      ensures old(faults) == [] ==> faults == [] && r.Done?
    {
      LiveCandidateCommits(disk, origin, rules);
      var _ :- WriteJournal(journal.(phase := ActiveValidated));
      LiveCandidateCommits(disk, origin, rules);
      r := WriteJournal(journal.(phase := Completed));
    }

    /** Puts the source back, then archives the journal. */
    method Undo(journal: Journal, reason: Reason) returns (r: Outcome<()>)
      requires Valid() && disk.journal == Some(journal) && journal.phase == RecoveryRequired
      modifies this`disk, this`faults, this`trace
      ensures Valid() && old(trace) <= trace
      ensures r.Done? ==> disk == UndoneDisk(old(disk), reason)
      ensures !r.Done? ==> disk == old(disk).(live := disk.live)
      ensures old(faults) == [] ==> faults == [] && r.Done?
    {
      var _ :- RestoreFromBackup(journal);
      r := ArchiveJournal(journal, reason);
    }

    /** The candidate is not live. */
    method RestoreSource(journal: Journal) returns (r: Outcome<()>)
      requires Valid() && disk.journal == Some(journal) && DuringActivation(journal.phase)
      modifies this`disk, this`faults, this`trace
      ensures Valid() && old(trace) <= trace
      ensures r.Done? ==> SourceRestored(disk, origin, journal, RecoveredSource)
      ensures !r.Done? ==> Pending(disk, journal)
      ensures disk.archive.Keys <= old(disk).archive.Keys + {(journal.id, RecoveredSource)}
      ensures old(faults) == [] ==> faults == [] && r.Done?
      ensures old(faults) == [] && !Matches(old(disk).live, journal.candidate.value) ==>
                disk == RecoveredDisk(old(disk))
    {
      var required := journal.(phase := RecoveryRequired);
      InterruptionAsksForRecovery(disk, origin, rules);
      if !Matches(disk.live, journal.candidate.value) {
        RecoveryUndoes(disk);
      }
      var _ :- WriteJournal(required);
      UndoneIsSource(disk, origin, rules, RecoveredSource);
      r := Undo(required, RecoveredSource);
    }

    /** Decides an interrupted migration one way or the other. */
    method RecoverIncompleteJournal() returns (r: Outcome<Recovery>)
      requires Valid()
      modifies this`disk, this`faults, this`trace
      ensures Valid() && old(trace) <= trace
      // Nothing to decide: nothing happens.
      ensures old(disk).journal.None? || old(disk).journal.value.phase == Completed ==>
                disk == old(disk) && (r.Done? ==> r.value == Nothing)
      // Activation never began: the live files are what they were, and the journal can only leave for the archive.
      ensures old(disk).journal.Some? && BeforeActivation(old(disk).journal.value.phase) ==>
                && disk.live == old(disk).live
                && (disk == old(disk) || disk == RecoveredDisk(old(disk)))
                && (r.Done? ==> r.value == Discard && disk.journal.None?)
      // Activation began: all or nothing, or still undecided with both generations intact.
      ensures old(disk).journal.Some? && DuringActivation(old(disk).journal.value.phase) ==>
                var journal := old(disk).journal.value;
                && (Settled(disk, origin, journal) || Pending(disk, journal))
                && (r.Done? ==> Settled(disk, origin, journal) && r.value in {Completion, Restoration})
                && (r.Done? ==> (r.value == Completion <==> CandidateLive(disk, journal)))
      // No other journal is archived or becomes active.
      ensures forall key :: key in disk.archive ==>
                key in old(disk).archive || (old(disk).journal.Some? && key.0 == old(disk).journal.value.id)
      ensures disk.journal.Some? ==> old(disk).journal.Some? && disk.journal.value.id == old(disk).journal.value.id
      // Undisturbed, it is refused exactly where the validation of an active candidate refuses, and then changes nothing.
      ensures old(faults) == [] ==>
                && faults == []
                && (r.Done? <==> CanRecover(old(disk), rules))
                && disk == if r.Done? then RecoveredDisk(old(disk)) else old(disk)
    {
      var _ :- Touch();
      if disk.journal.None? || disk.journal.value.phase == Completed {
        return Done(Nothing);
      }
      var journal := disk.journal.value;
      if BeforeActivation(journal.phase) {
        var _ :- ArchiveJournal(journal, AbandonedBeforeActivation);
        return Done(Discard);
      }
      r := DecideActivation(journal);
    }

    /** Completes an activation whose candidate is live, and undoes any other. */
    method DecideActivation(journal: Journal) returns (r: Outcome<Recovery>)
      requires Valid() && disk.journal == Some(journal) && DuringActivation(journal.phase)
      modifies this`disk, this`faults, this`trace
      ensures Valid() && old(trace) <= trace
      ensures Settled(disk, origin, journal) || Pending(disk, journal)
      ensures r.Done? ==> Settled(disk, origin, journal) && r.value in {Completion, Restoration}
      ensures r.Done? ==> (r.value == Completion <==> CandidateLive(disk, journal))
      ensures disk.archive.Keys <= old(disk).archive.Keys + {(journal.id, RecoveredSource)}
      ensures old(faults) == [] ==>
                && faults == []
                && (r.Done? <==> CanRecover(old(disk), rules))
                && disk == if r.Done? then RecoveredDisk(old(disk)) else old(disk)
    {
      var _ :- AssertRecoverable(journal);
      var active :- ActiveMatchesCandidate(journal);
      if active {
        var _ :- CompleteActivation(journal);
        return Done(Completion);
      }
      var _ :- RestoreSource(journal);
      return Done(Restoration);
    }

    /** One start after an activation that is decided or can still be. */
    method RecoverOnce(schedule: seq<Fault>, ghost journal: Journal) returns (r: Outcome<Recovery>)
      requires Valid() && DuringActivation(journal.phase) && journal.candidate.Some?
      requires Settled(disk, origin, journal) || Pending(disk, journal)
      modifies this`disk, this`faults, this`trace
      ensures Valid() && old(trace) <= trace
      ensures Settled(disk, origin, journal) || Pending(disk, journal)
      ensures r.Done? ==> Settled(disk, origin, journal)
      ensures schedule == [] ==> (r.Done? <==> CanRecover(disk, rules))
      ensures schedule == [] && !r.Done? ==> Ambiguous(origin, journal.candidate.value, rules)
    {
      faults := schedule;
      r := RecoverIncompleteJournal();
      if schedule == [] && !r.Done? {
        RefusedIsAmbiguous(disk, origin, rules);
      }
    }

    /** Several starts in a row, each under its own schedule of failures. */
    method RecoverAcrossRestarts(schedules: seq<seq<Fault>>) returns (r: Outcome<Recovery>)
      requires Valid() && schedules != []
      requires disk.journal.Some? && DuringActivation(disk.journal.value.phase)
      modifies this`disk, this`faults, this`trace
      ensures Valid() && old(trace) <= trace
      ensures var journal := old(disk).journal.value;
              && (Settled(disk, origin, journal) || Pending(disk, journal))
              && (r.Done? ==> Settled(disk, origin, journal))
      // Once failures stop, one more start decides, unless the former database is ambiguous and was left so.
      ensures schedules[|schedules| - 1] == [] ==>
                && (r.Done? <==> CanRecover(disk, rules))
                && (!Ambiguous(origin, old(disk).journal.value.candidate.value, rules) ==> r.Done?)
    {
      ghost var journal := disk.journal.value;
      r := Crashed;
      for i := 0 to |schedules|
        invariant Valid() && old(trace) <= trace
        invariant Settled(disk, origin, journal) || Pending(disk, journal)
        invariant r.Done? ==> Settled(disk, origin, journal)
        invariant i > 0 && schedules[i - 1] == [] ==>
                    && (r.Done? <==> CanRecover(disk, rules))
                    && (!Ambiguous(origin, journal.candidate.value, rules) ==> r.Done?)
      {
        r := RecoverOnce(schedules[i], journal);
      }
    }

    /** Writes one file of a backup that nothing relies on yet, and reads it back. */
    method WriteBackup(id: nat, backup: Backup) returns (r: Outcome<()>)
      requires Valid() && disk.journal.Some? && disk.journal.value.phase == Prepared
      modifies this`disk, this`faults, this`trace
      ensures Valid() && old(trace) <= trace
      ensures r.Done? ==> disk == old(disk).(backups := old(disk).backups[id := backup])
      ensures !r.Done? ==> disk == old(disk).(backups := disk.backups)
      ensures old(faults) == [] ==> faults == [] && r.Done?
    {
      var _ :- Commit(disk.(backups := disk.backups[id := backup]));
      r := Touch();
    }

    method CreateBackups(journal: Journal, layout: nat) returns (r: Outcome<Artifacts>)
      requires Valid() && disk.journal == Some(journal) && journal.phase == Prepared
      modifies this`disk, this`faults, this`trace
      ensures Valid() && old(trace) <= trace
      ensures disk == old(disk).(backups := disk.backups)
      ensures r.Done? ==> Recoverable(disk, journal.(source := Some(r.value))) && Faithful(r.value, origin)
      // The backup holds what the log says, where there is one.
      ensures r.Done? && origin.database.Some? ==>
                && r.value.database.Some?
                && r.value.database.value.contents == if origin.wal.Some? then origin.wal.value
                                                      else origin.database.value.contents
      ensures r.Done? ==> disk.live.config.Some? && r.value == SourceOf(disk.live, layout)
      ensures old(faults) == [] ==> faults == [] && !r.Crashed? && (r.Done? <==> disk.live.config.Some?)
    {
      var _ :- Touch();
      var live := disk.live;
      if live.config.None? {
        return Threw;
      }
      var backup := Backup(live.config, None, None, None);
      var _ :- WriteBackup(journal.id, backup);
      if live.database.Some? {
        backup := backup.(database := Some(Image(Effective(live.database.value, live.wal), layout)));
        var _ :- WriteBackup(journal.id, backup);
      }
      if live.credentials.Some? {
        backup := backup.(credentials := live.credentials);
        var _ :- WriteBackup(journal.id, backup);
      }
      return Done(Artifacts(live.config.value, backup.database, backup.credentials));
    }

    method WriteManifest(journal: Journal, manifest: Manifest) returns (r: Outcome<()>)
      requires Valid() && disk.journal == Some(journal) && BeforeActivation(journal.phase) && journal.phase != Prepared
      modifies this`disk, this`faults, this`trace
      ensures Valid() && old(trace) <= trace
      ensures disk == old(disk).(backups := disk.backups)
      ensures old(faults) == [] ==> faults == [] && r.Done?
    {
      var backup := disk.backups[journal.id].(manifest := Some(manifest));
      r := Commit(disk.(backups := disk.backups[journal.id := backup]));
    }

    /** Writes the staged files and reads them back. */
    method WriteStaging(id: nat, staging: Staging) returns (r: Outcome<()>)
      requires Valid() && disk.journal.Some? && disk.journal.value.phase == BackupVerified
      modifies this`disk, this`faults, this`trace
      ensures Valid() && old(trace) <= trace
      ensures r.Done? ==> disk == old(disk).(staging := old(disk).staging[id := staging])
      ensures !r.Done? ==> disk == old(disk).(staging := disk.staging)
      ensures old(faults) == [] ==> faults == [] && r.Done?
    {
      var _ :- Commit(disk.(staging := disk.staging[id := staging]));
      r := Touch();
    }

    /** Builds the candidate from the backup alone and validates it where it is staged. */
    method StageCandidate(journal: Journal) returns (r: Outcome<Candidate>)
      requires Valid() && disk.journal == Some(journal) && journal.phase == BackupVerified
      modifies this`disk, this`faults, this`trace
      ensures Valid() && old(trace) <= trace
      ensures disk == old(disk).(staging := disk.staging)
      ensures r.Done? ==> HasCandidate(disk, journal.(candidate := Some(r.value))) && rules.ValidCandidate(r.value)
      ensures r.Done? ==> Converted(journal.(candidate := Some(r.value)), rules)
      ensures old(faults) == [] ==> faults == [] && !r.Crashed? && (r.Done? <==> Convertible(journal.source.value, rules))
    {
      var source := journal.source.value;
      var config := rules.migrateConfig(source.config);
      if config.None? {
        return Threw;
      }
      var _ :- WriteStaging(journal.id, Staging(config, None));
      if !rules.ValidConfig(config.value) {
        return Threw;
      }
      if source.database.Some? {
        var _ :- WriteStaging(journal.id, Staging(config, source.database));
      }
      var database := rules.migrateDatabase(source.database);
      if database.None? {
        return Threw;
      }
      var _ :- WriteStaging(journal.id, Staging(config, database));
      if !rules.ValidContents(database.value.contents) {
        return Threw;
      }
      return Done(Candidate(config.value, database.value));
    }

    /** Backs the live files up and verifies the backup. */
    method BackUp(blank: Journal, layout: nat) returns (r: Outcome<Journal>)
      requires Valid() && disk.journal == Some(blank) && blank.phase == Prepared
      modifies this`disk, this`faults, this`trace
      ensures Valid() && old(trace) <= trace
      ensures disk.journal.Some? && BeforeActivation(disk.journal.value.phase) && disk.journal.value.id == blank.id
      ensures r.Done? ==> disk.journal == Some(r.value) && r.value.phase == BackupVerified
      ensures r.Done? ==> origin.config.Some? && r.value.source == Some(SourceOf(origin, layout))
      ensures old(faults) == [] ==> faults == [] && !r.Crashed? && (r.Done? <==> origin.config.Some?)
    {
      var source :- CreateBackups(blank, layout);
      var journal := blank.(source := Some(source));
      var _ :- AssertRecoverable(journal);
      journal := journal.(phase := BackupVerified);
      var _ :- WriteJournal(journal);
      return Done(journal);
    }

    /** Stages a candidate and validates it, with the live files still untouched. */
    method Stage(verified: Journal) returns (r: Outcome<Journal>)
      requires Valid() && disk.journal == Some(verified) && verified.phase == BackupVerified
      modifies this`disk, this`faults, this`trace
      ensures Valid() && old(trace) <= trace
      ensures disk.journal.Some? && BeforeActivation(disk.journal.value.phase) && disk.journal.value.id == verified.id
      ensures r.Done? ==> disk.journal == Some(r.value) && r.value.phase == StagedValidated
      ensures r.Done? ==> r.value.source == verified.source
      ensures old(faults) == [] ==> faults == [] && !r.Crashed? && (r.Done? <==> Convertible(verified.source.value, rules))
    {
      var manifest := Manifest(verified.source.value, CONFIG_SCHEMA_VERSION, DATABASE_SCHEMA_VERSION, None);
      var _ :- WriteManifest(verified, manifest);
      var candidate :- StageCandidate(verified);
      var journal := verified.(candidate := Some(candidate), phase := Staged);
      var _ :- WriteJournal(journal);
      r := ReportStaged(journal, manifest);
    }

    /** Records what the staged files were proved to be. */
    method ReportStaged(staged: Journal, manifest: Manifest) returns (r: Outcome<Journal>)
      requires Valid() && disk.journal == Some(staged) && staged.phase == Staged
      modifies this`disk, this`faults, this`trace
      ensures Valid() && old(trace) <= trace
      ensures disk.journal.Some? && BeforeActivation(disk.journal.value.phase) && disk.journal.value.id == staged.id
      ensures r.Done? ==> disk.journal == Some(r.value) && r.value.phase == StagedValidated
      ensures r.Done? ==> r.value.source == staged.source
      ensures old(faults) == [] ==> faults == [] && r.Done?
    {
      var _ :- Touch();
      var _ :- WriteManifest(staged, manifest.(validated := Some((CONFIG_SCHEMA_VERSION, DATABASE_SCHEMA_VERSION))));
      var journal := staged.(phase := StagedValidated);
      var _ :- WriteJournal(journal);
      return Done(journal);
    }

    /** The only part that replaces live files: configuration, then sidecars, then database. */
    method ReplaceLiveFiles(journal: Journal) returns (r: Outcome<()>)
      requires Valid() && disk.journal == Some(journal) && journal.phase == Activating && disk.live == origin
      modifies this`disk, this`faults, this`trace
      ensures Valid() && old(trace) <= trace
      ensures disk == old(disk).(live := disk.live)
      ensures r.Done? ==> Matches(disk.live, journal.candidate.value) && NoSidecars(disk.live)
      ensures old(faults) == [] ==> faults == [] && r.Done?
    {
      var _ :- ReplaceConfig(disk.staging[journal.id].config);
      var same :- ArtifactMatches(disk.live.config == Some(journal.candidate.value.config));
      if !same {
        return Threw;
      }
      r := InstallDatabase(journal);
    }

    /** Drops the former sidecars before the candidate takes the main file's place. */
    method InstallDatabase(journal: Journal) returns (r: Outcome<()>)
      requires Valid() && disk.journal == Some(journal) && journal.phase == Activating && MayReplaceDatabase()
      requires disk.live == origin.(config := Some(journal.candidate.value.config))
      modifies this`disk, this`faults, this`trace
      ensures Valid() && old(trace) <= trace
      ensures disk == old(disk).(live := disk.live)
      ensures r.Done? ==> Matches(disk.live, journal.candidate.value) && NoSidecars(disk.live)
      ensures old(faults) == [] ==> faults == [] && r.Done?
    {
      var _ :- RemoveSqliteSidecars();
      var _ :- ReplaceDatabase(disk.staging[journal.id].database);
      var same :- ArtifactMatches(disk.live.database == Some(journal.candidate.value.database));
      r := if same then Done(()) else Threw;
    }

    /** Validates what is live, then commits to it. */
    method ConfirmActivation(journal: Journal) returns (r: Outcome<()>)
      requires Valid() && disk.journal == Some(journal) && journal.phase == Activating
      requires Matches(disk.live, journal.candidate.value)
      modifies this`disk, this`faults, this`trace
      ensures Valid() && old(trace) <= trace
      ensures disk.journal.Some? && disk.journal.value.id == journal.id && disk.live == old(disk).live
      ensures Undecided(disk, journal.id) || MigratedFrom(disk, origin, journal.id, rules)
      ensures r.Threw? ==> disk.journal.value.phase != Completed
      ensures r.Done? ==> CandidateLive(disk, journal)
      ensures old(faults) == [] && NoSidecars(disk.live) ==> faults == [] && r.Done?
    {
      var confirmed := journal.(phase := ActiveValidated);
      var _ :- WriteJournal(confirmed);
      var _ :- ValidateActiveCandidate(confirmed);
      confirmed := confirmed.(phase := Completed);
      var _ :- WriteJournal(confirmed);
      r := CleanupCompletedStaging(confirmed);
    }

    method Activate(staged: Journal) returns (r: Outcome<()>)
      requires Valid() && disk.journal == Some(staged) && staged.phase == StagedValidated
      modifies this`disk, this`faults, this`trace
      ensures Valid() && old(trace) <= trace
      ensures disk.journal.Some? && disk.journal.value.id == staged.id
      ensures Undecided(disk, staged.id) || MigratedFrom(disk, origin, staged.id, rules)
      ensures r.Threw? ==> disk.journal.value.phase != Completed
      ensures r.Done? ==> CandidateLive(disk, staged) && NoSidecars(disk.live)
      ensures r.Done? ==> disk.live.credentials == origin.credentials && Converted(staged, rules)
      ensures old(faults) == [] ==> faults == [] && r.Done?
    {
      var _ :- AssertCandidate(staged);
      var journal := staged.(phase := Activating);
      var _ :- WriteJournal(journal);
      var _ :- ReplaceLiveFiles(journal);
      r := ConfirmActivation(journal);
    }

    /** The body of the try block. */
    method Attempt(blank: Journal, layout: nat) returns (r: Outcome<()>)
      requires Valid() && disk.journal == Some(blank) && blank.phase == Prepared
      modifies this`disk, this`faults, this`trace
      ensures Valid() && old(trace) <= trace
      ensures disk.journal.Some? && disk.journal.value.id == blank.id
      ensures Undecided(disk, blank.id) || MigratedFrom(disk, origin, blank.id, rules)
      ensures r.Threw? ==> disk.journal.value.phase != Completed
      ensures r.Done? ==> CandidateLive(disk, disk.journal.value) && ConvertedLive(disk.live, origin, layout, rules)
      ensures old(faults) == [] ==> faults == [] && (r.Done? <==> Migratable(origin, layout, rules))
      ensures old(faults) == [] && !r.Done? ==> r.Threw? && BeforeActivation(disk.journal.value.phase)
    {
      var verified :- BackUp(blank, layout);
      var staged :- Stage(verified);
      r := Activate(staged);
    }

    /** The catch block: what is on disk, not what was in memory, says whether live files were touched. */
    method HandleFailure() returns (r: Outcome<Status>)
      requires Valid() && disk.journal.Some? && disk.journal.value.phase != Completed
      modifies this`disk, this`faults, this`trace
      ensures Valid() && old(trace) <= trace && !r.Done?
      ensures BeforeActivation(old(disk).journal.value.phase) ==> disk == old(disk)
      ensures DuringActivation(old(disk).journal.value.phase) ==>
                var journal := old(disk).journal.value;
                SourceRestored(disk, origin, journal, RecoveredAfterFailure) || Pending(disk, journal)
      // A failure that is the last one is undone at once.
      ensures old(faults) == [] && DuringActivation(old(disk).journal.value.phase) ==>
                SourceRestored(disk, origin, old(disk).journal.value, RecoveredAfterFailure)
    {
      var _ :- Touch();
      var journal := disk.journal.value;
      if BeforeActivation(journal.phase) {
        var _ :- WriteJournal(journal);
        return Threw;
      }
      journal := journal.(phase := RecoveryRequired);
      var _ :- WriteJournal(journal);
      r := RestoreAfterFailure(journal);
    }

    /** Undoes a failed activation; where that fails too, the journal keeps asking for recovery. */
    method RestoreAfterFailure(journal: Journal) returns (r: Outcome<Status>)
      requires Valid() && disk.journal == Some(journal) && journal.phase == RecoveryRequired
      modifies this`disk, this`faults, this`trace
      ensures Valid() && old(trace) <= trace && !r.Done?
      ensures SourceRestored(disk, origin, journal, RecoveredAfterFailure) || Pending(disk, journal)
      ensures old(faults) == [] ==> SourceRestored(disk, origin, journal, RecoveredAfterFailure)
    {
      UndoneIsSource(disk, origin, rules, RecoveredAfterFailure);
      var undo := Undo(journal, RecoveredAfterFailure);
      match undo
      case Done(_) => return Threw;
      case Crashed => return Crashed;
      case Threw =>
        var _ :- WriteJournal(journal);
        return Threw;
    }

    /** Records a new migration; whatever is live now is the generation it starts from. */
    method Begin(journal: Journal) returns (r: Outcome<()>)
      requires Valid() && disk.journal.None? && journal.phase == Prepared
      requires Unarchived(disk, journal.id)
      modifies this
      ensures Valid() && old(trace) <= trace
      ensures disk == if r.Done? then old(disk).(journal := Some(journal)) else old(disk)
      ensures r.Done? ==> origin == disk.live
      ensures !r.Done? ==> origin == old(origin)
      ensures old(faults) == [] ==> faults == [] && r.Done?
    {
      var fault := NextFault();
      match fault
      case ThrowNow => return Threw;
      case CrashNow => return Crashed;
      case Proceed =>
        HistoryExtended(trace, Moment(disk.(journal := Some(journal)), disk.live), rules);
        disk, origin := disk.(journal := Some(journal)), disk.live;
        trace := trace + [Moment(disk, origin)];
        return Done(());
    }

    method PerformMigration(id: nat, layout: nat) returns (r: Outcome<Status>)
      requires Valid() && disk.journal.None?
      requires Unarchived(disk, id)
      modifies this
      ensures Valid() && old(trace) <= trace
      ensures r.Done? ==>
                && r.value == Migrated
                && disk.journal.Some? && disk.journal.value.id == id
                && CandidateLive(disk, disk.journal.value)
                && NoSidecars(disk.live)
      // Every failure leaves the former generation live, restored, or restorable.
      ensures !r.Done? && disk.journal.None? ==>
                || disk == old(disk)
                || (exists journal: Journal :: journal.id == id
                      && SourceRestored(disk, old(disk).live, journal, RecoveredAfterFailure))
      ensures !r.Done? && disk.journal.Some? ==> origin == old(disk).live && disk.journal.value.id == id
      // Wherever the process died, either the migration is over or its journal says that it is not.
      ensures Decided(disk, old(disk), id, rules) || Undecided(disk, id)
      ensures r.Done? ==> MigratedFrom(disk, old(disk).live, id, rules)
      ensures r.Done? ==> ConvertedLive(disk.live, old(disk).live, layout, rules)
      ensures r.Threw? && disk.journal.Some? ==> disk.journal.value.phase != Completed
      // Undisturbed, it succeeds exactly where there is something to convert and both conversions are accepted.
      ensures old(faults) == [] ==> (r == Done(Migrated) <==> Migratable(old(disk).live, layout, rules))
      ensures old(faults) == [] && !r.Done? ==>
                NotActivated(disk, old(disk).live)
    {
      var journal := Journal(id, Prepared, None, None);
      var _ :- Begin(journal);
      var attempt := Attempt(journal, layout);
      match attempt
      case Done(_) => r := Done(Migrated);
      case Crashed => r := Crashed;
      case Threw => r := HandleFailure();
    }

    /** One recovery after a migration, whatever became of it. */
    method Resume(schedule: seq<Fault>, ghost before: Disk, ghost id: nat) returns (r: Outcome<Recovery>)
      requires Valid() && (Decided(disk, before, id, rules) || (Undecided(disk, id) && origin == before.live))
      modifies this`disk, this`faults, this`trace
      ensures Valid() && old(trace) <= trace
      ensures Decided(disk, before, id, rules) || Undecided(disk, id)
      ensures Decided(old(disk), before, id, rules) ==> disk == old(disk)
      ensures NotActivated(old(disk), before.live) ==> NotActivated(disk, before.live)
      ensures r.Done? ==> Decided(disk, before, id, rules)
      ensures schedule == [] ==> (r.Done? <==> CanRecover(disk, rules))
    {
      faults := schedule;
      r := RecoverIncompleteJournal();
    }

    /**
     A whole migration and every start after it, each under any schedule of failures and crashes. When a recovery
     returns, either the candidate pair is live under a completed journal, or the pair of before is live and the journal
     is archived, never a mix; until then the journal says that the migration is not over. A start without failures is
     refused only for a database that already was the candidate's, under a log that does not validate.
     */
    method MigrateThenRecover(id: nat, layout: nat, schedules: seq<seq<Fault>>) returns (r: Outcome<Recovery>)
      requires Valid() && disk.journal.None? && Unarchived(disk, id) && schedules != []
      modifies this
      ensures Valid() && old(trace) <= trace
      ensures Decided(disk, old(disk), id, rules) || Undecided(disk, id)
      ensures r.Done? ==> Decided(disk, old(disk), id, rules)
      ensures schedules[|schedules| - 1] == [] ==>
                && (r.Done? <==> CanRecover(disk, rules))
                && (!r.Done? ==> Ambiguous(old(disk).live, disk.journal.value.candidate.value, rules))
      // A migration that nothing disturbs leaves the conversion where there is one, whatever the starts after it do.
      ensures old(faults) == [] ==>
                && (Migratable(old(disk).live, layout, rules) ==>
                      && MigratedFrom(disk, old(disk).live, id, rules)
                      && ConvertedLive(disk.live, old(disk).live, layout, rules))
                && (!Migratable(old(disk).live, layout, rules) ==> NotActivated(disk, old(disk).live))
    {
      ghost var before := disk;
      var attempt := PerformMigration(id, layout);
      r := Crashed;
      for i := 0 to |schedules|
        invariant Valid() && old(trace) <= trace
        invariant Decided(disk, before, id, rules) || (Undecided(disk, id) && origin == before.live)
        invariant r.Done? ==> Decided(disk, before, id, rules)
        invariant i > 0 && schedules[i - 1] == [] ==> (r.Done? <==> CanRecover(disk, rules))
        invariant old(faults) == [] && Migratable(before.live, layout, rules) ==>
                    MigratedFrom(disk, before.live, id, rules) && ConvertedLive(disk.live, before.live, layout, rules)
        invariant old(faults) == [] && !Migratable(before.live, layout, rules) ==> NotActivated(disk, before.live)
      {
        r := Resume(schedules[i], before, id);
      }
      if !CanRecover(disk, rules) {
        RefusedIsAmbiguous(disk, origin, rules);
      }
    }

    /** Whether the live configuration is of this runtime's schema; a newer or a malformed one throws. */
    method ConfigIsCanonical() returns (r: Outcome<bool>)
      requires disk.live.config.Some?
      modifies this`faults
      ensures r.Done? ==> (r.value <==> rules.ValidConfig(disk.live.config.value))
      ensures var config := disk.live.config.value;
              && (r.Done? ==> rules.ValidConfig(config) || config.schema < CONFIG_SCHEMA_VERSION)
              && (old(faults) == [] ==>
                    faults == [] && (r.Done? <==> rules.ValidConfig(config) || config.schema < CONFIG_SCHEMA_VERSION))
    {
      var _ :- Touch();
      var config := disk.live.config.value;
      if config.schema == CONFIG_SCHEMA_VERSION {
        return if rules.acceptsConfig(config) then Done(true) else Threw;
      }
      return if config.schema > CONFIG_SCHEMA_VERSION then Threw else Done(false);
    }

    method DatabaseIsCanonical() returns (r: Outcome<bool>)
      requires disk.live.database.Some?
      modifies this`faults
      ensures r.Done? ==> DatabaseIs(disk.live, rules, true) && (r.value <==> DatabaseIs(disk.live, rules, false))
      ensures old(faults) == [] ==> faults == [] && (r.Done? <==> DatabaseIs(disk.live, rules, true))
    {
      var _ :- Touch();
      var contents := Effective(disk.live.database.value, disk.live.wal);
      if contents.schema == DATABASE_SCHEMA_VERSION {
        return if rules.acceptsContents(contents) then Done(true) else Threw;
      }
      return if contents.schema > DATABASE_SCHEMA_VERSION then Threw else Done(false);
    }

    /** Whether a completed journal, its backup and its manifest prove that the previous schema was migrated. */
    method ProvesPreviousConfig(journal: Journal, schema: nat, canonicalDatabase: bool) returns (r: Outcome<bool>)
      requires disk.journal == Some(journal)
      modifies this`faults
      ensures r.Done? && r.value ==> canonicalDatabase && ProvesPrevious(disk, schema)
      ensures old(faults) == [] ==>
                faults == [] && (canonicalDatabase && ProvesPrevious(disk, schema) ==> r == Done(true))
    {
      if journal.phase != Completed || schema + 1 != CONFIG_SCHEMA_VERSION || !canonicalDatabase {
        return Done(false);
      }
      var _ :- AssertRecoverable(journal);
      var _ :- Touch();
      var manifest := disk.backups[journal.id].manifest;
      if manifest.None? || manifest.value.validated.None? {
        return Threw;
      }
      return Done(&& manifest.value.targetConfig == schema
                  && manifest.value.targetDatabase == DATABASE_SCHEMA_VERSION
                  && manifest.value.validated.value == (schema, DATABASE_SCHEMA_VERSION)
                  && manifest.value.source == journal.source.value);
    }

    /** What the live files say: nothing to do and why, or a migration that is due. */
    method ReadLiveFiles() returns (r: Outcome<Option<Status>>)
      requires disk.journal.None? || disk.journal.value.phase == Completed
      modifies this`faults
      ensures r == Done(None) ==> Due(disk, rules)
      ensures r.Done? && r.value.Some? ==>
                NothingDue(disk, rules) && r.value.value == if disk.journal.Some? then AlreadyMigrated else NotNeeded
      ensures old(faults) == [] ==> (r.Done? <==> Due(disk, rules) || NothingDue(disk, rules))
      ensures old(faults) == [] ==> faults == []
    {
      var _ :- Touch();
      var completed := disk.journal.Some?;
      if completed && (disk.live.config.None? || disk.live.database.None?) {
        return Threw;
      }
      if disk.live.config.None? {
        return if disk.live.database.None? then Done(Some(NotNeeded)) else Threw;
      }
      var canonicalConfig :- ConfigIsCanonical();
      var canonicalDatabase := false;
      if disk.live.database.Some? {
        canonicalDatabase :- DatabaseIsCanonical();
      }
      var upgrade := false;
      if completed && !canonicalConfig {
        upgrade :- ProvesPreviousConfig(disk.journal.value, disk.live.config.value.schema, canonicalDatabase);
      }
      if completed && (!canonicalConfig || !canonicalDatabase) && !upgrade {
        return Threw;
      }
      if canonicalConfig && (disk.live.database.None? || canonicalDatabase) {
        return Done(Some(if completed then AlreadyMigrated else NotNeeded));
      }
      return Done(None);
    }

    /** The rest of a start, once no migration is undecided. */
    method Start(id: nat, layout: nat) returns (r: Outcome<Status>)
      requires Valid() && Unarchived(disk, id)
      requires disk.journal.None? || (disk.journal.value.phase == Completed && disk.journal.value.id != id)
      modifies this
      ensures Valid() && old(trace) <= trace
      ensures r.Done? ==> disk.journal.None? || disk.journal.value.phase == Completed
      ensures r.Done? && r.value != Migrated ==> disk == old(disk) && r.value != Recovered
      ensures r == Done(Migrated) ==>
                && disk.journal.Some? && disk.journal.value.id == id
                && CandidateLive(disk, disk.journal.value)
                && NoSidecars(disk.live)
      // What a successful start leaves is never a stale generation beside a completed journal.
      ensures r.Done? && disk.journal.Some? && r.value != Migrated ==>
                && r.value == AlreadyMigrated
                && disk.live.config.Some? && rules.ValidConfig(disk.live.config.value)
                && disk.live.database.Some?
                && rules.ValidContents(Effective(disk.live.database.value, disk.live.wal))
      ensures r == Done(Migrated) ==> Due(old(disk), rules) && ConvertedLive(disk.live, old(disk).live, layout, rules)
      // Undisturbed, it migrates exactly what has to be migrated and can be, and otherwise returns over current files.
      ensures old(faults) == [] ==>
                && (r == Done(Migrated) <==> Due(old(disk), rules) && Migratable(old(disk).live, layout, rules))
                && (r == Done(AlreadyMigrated) <==> NothingDue(old(disk), rules) && old(disk).journal.Some?)
                && (r == Done(NotNeeded) <==> NothingDue(old(disk), rules) && old(disk).journal.None?)
    {
      var status :- ReadLiveFiles();
      if status.Some? {
        return Done(status.value);
      }
      if disk.journal.Some? {
        var _ :- ArchiveJournal(disk.journal.value, SupersededBySchemaUpgrade);
      }
      r := PerformMigration(id, layout);
    }

    /** A whole start of the program: recovery first, then a migration if one is needed. */
    method RunGuardianShadowMigration(id: nat, layout: nat) returns (r: Outcome<Status>)
      requires Valid() && Unarchived(disk, id)
      requires disk.journal.Some? ==> disk.journal.value.id != id
      modifies this
      ensures Valid() && old(trace) <= trace
      ensures r.Done? ==> disk.journal.None? || disk.journal.value.phase == Completed
      ensures r == Done(Migrated) || r == Done(Recovered) ==>
                disk.journal.Some? && CandidateLive(disk, disk.journal.value)
      // A start that returns has decided any interrupted activation, before doing anything else.
      ensures r.Done? && old(disk).journal.Some? && DuringActivation(old(disk).journal.value.phase) ==>
                exists i :: |old(trace)| <= i + 1 <= |trace|
                            && Settled(trace[i].disk, old(origin), old(disk).journal.value)
      ensures r == Done(Migrated) && old(disk).journal.None? ==>
                ConvertedLive(disk.live, old(disk).live, layout, rules)
      // Undisturbed, it migrates what recovery leaves, exactly where that has to be migrated and can be.
      ensures old(faults) == [] ==>
                (r == Done(Migrated) <==>
                   && CanRecover(old(disk), rules) && !Recovers(old(disk))
                   && Due(RecoveredDisk(old(disk)), rules)
                   && Migratable(RecoveredDisk(old(disk)).live, layout, rules))
    {
      if disk.journal.None? && disk.live.config.None? {
        return if disk.live.database.None? then Done(NotNeeded) else Threw;
      }
      var recovery :- RecoverIncompleteJournal();
      ghost var decided := |trace| - 1;
      assert trace[decided].disk == disk;
      if recovery == Completion {
        return Done(Recovered);
      }
      r := Start(id, layout);
    }
  }

  /** Whatever log stands beside it, an older installation is migrated by its first undisturbed start. */
  method OlderInstallationMigrates(before: Live, after: Live, rules: Rules, id: nat, layout: nat)
    returns (installation: Installation, r: Outcome<Status>)
    requires before.config.Some? && before.database.Some? && after.config.Some? && after.database.Some?
    requires before.config.value.schema < 6 && after.config.value.schema == 6 && rules.acceptsConfig(after.config.value)
    requires var read := if before.wal.Some? then before.wal.value else before.database.value.contents;
             read.schema < 7 && rules.migrateDatabase(Some(Image(read, layout))) == after.database
    requires rules.migrateConfig(before.config.value) == after.config && after.credentials == before.credentials
    requires after.database.value.contents.schema == 7 && rules.acceptsContents(after.database.value.contents)
    requires after.wal.None? && !after.shm
    ensures fresh(installation) && installation.Valid() && r == Done(Migrated) && installation.disk.live == after
  {
    installation := new Installation(Disk(before, None, map[], map[], map[]), rules, [], before);
    r := installation.RunGuardianShadowMigration(id, layout);
  }
}
