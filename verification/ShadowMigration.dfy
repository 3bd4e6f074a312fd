/**
 The journaled replacement of a configuration file and a SQLite file. Every read, atomic write, rename and
 unlink is one step, and the environment may let the step happen, make it throw, or kill the process before it.
 */
module ShadowMigrationState {
  import opened Prelude

  const CONFIG_SCHEMA_VERSION: nat := 6
  const DATABASE_SCHEMA_VERSION: nat := 7

  /** A configuration file: its declared schema version and everything else in it. */
  datatype Config = Config(schema: nat, body: nat)

  /** The logical content of a database, as SQLite reads it. */
  datatype Contents = Contents(schema: nat, rows: nat)

  /** The bytes of a main database file: logical content in some physical layout. */
  datatype Image = Image(contents: Contents, layout: nat)

  /** The files Guardian runs on. A write-ahead log overrides what the main file says. */
  datatype Live = Live(config: Option<Config>, database: Option<Image>, wal: Option<Contents>, shm: bool,
                       credentials: Option<nat>)

  datatype Phase = Prepared | BackupVerified | Staged | StagedValidated | Activating | ActiveValidated
                 | Completed | RecoveryRequired

  datatype Artifacts = Artifacts(config: Config, database: Option<Image>, credentials: Option<nat>)
  datatype Candidate = Candidate(config: Config, database: Image)
  datatype Journal = Journal(id: nat, phase: Phase, source: Option<Artifacts>, candidate: Option<Candidate>)

  datatype Reason = AbandonedBeforeActivation | RecoveredSource | RecoveredAfterFailure | SupersededBySchemaUpgrade

  /** The schema versions a migration proved, kept beside its backup. */
  datatype Manifest = Manifest(source: Artifacts, targetConfig: nat, targetDatabase: nat, validated: Option<(nat, nat)>)

  datatype Backup = Backup(config: Option<Config>, database: Option<Image>, credentials: Option<nat>,
                           manifest: Option<Manifest>)
  datatype Staging = Staging(config: Option<Config>, database: Option<Image>)

  datatype Disk = Disk(live: Live, journal: Option<Journal>, archive: map<(nat, Reason), Journal>,
                       backups: map<nat, Backup>, staging: map<nat, Staging>)

  /** Validation and conversion, which the protocol only calls. */
  datatype Rules = Rules(acceptsConfig: Config -> bool, acceptsContents: Contents -> bool,
                         migrateConfig: Config -> Option<Config>, migrateDatabase: Option<Image> -> Option<Image>)
  {
    predicate ValidConfig(config: Config) {
      config.schema == CONFIG_SCHEMA_VERSION && acceptsConfig(config)
    }

    predicate ValidContents(contents: Contents) {
      contents.schema == DATABASE_SCHEMA_VERSION && acceptsContents(contents)
    }

    predicate ValidCandidate(candidate: Candidate) {
      ValidConfig(candidate.config) && ValidContents(candidate.database.contents)
    }
  }

  /** What a reader of the live database sees. */
  function Effective(image: Image, wal: Option<Contents>): Contents {
    if wal.Some? then wal.value else image.contents
  }

  /** What SQLite's backup of a live database holds: what a reader sees, in a layout of its own. */
  function Snapshot(live: Live, layout: nat): Option<Image> {
    if live.database.Some? then Some(Image(Effective(live.database.value, live.wal), layout)) else None
  }

  /** The generation a migration backs up. */
  function SourceOf(live: Live, layout: nat): Artifacts
    requires live.config.Some?
  {
    Artifacts(live.config.value, Snapshot(live, layout), live.credentials)
  }

  /** Both files replaced by their conversions, which stand alone, and nothing else touched. */
  predicate ConvertedLive(after: Live, before: Live, layout: nat, rules: Rules) {
    && before.config.Some?
    && after == Live(rules.migrateConfig(before.config.value), rules.migrateDatabase(Snapshot(before, layout)), None,
                     false, before.credentials)
  }

  /** Both conversions of a source exist and are accepted. */
  predicate Convertible(source: Artifacts, rules: Rules) {
    var config, database := rules.migrateConfig(source.config), rules.migrateDatabase(source.database);
    config.Some? && rules.ValidConfig(config.value) && database.Some? && rules.ValidContents(database.value.contents)
  }

  /** There is a configuration, and what is live can be converted. */
  predicate Migratable(live: Live, layout: nat, rules: Rules) {
    live.config.Some? && Convertible(SourceOf(live, layout), rules)
  }

  /** A database as far as there is one: of this schema or an older one, or exactly of this one. */
  predicate DatabaseIs(live: Live, rules: Rules, orOlder: bool) {
    live.database.Some? ==>
      var contents := Effective(live.database.value, live.wal);
      rules.ValidContents(contents) || (orOlder && contents.schema < DATABASE_SCHEMA_VERSION)
  }

  /** The files a runtime of this version starts on as they are. */
  predicate Current(live: Live, rules: Rules) {
    live.config.Some? && rules.ValidConfig(live.config.value) && DatabaseIs(live, rules, false)
  }

  /** The files it starts on, as they are or after a migration. */
  predicate Readable(live: Live, rules: Rules) {
    && live.config.Some?
    && (rules.ValidConfig(live.config.value) || live.config.value.schema < CONFIG_SCHEMA_VERSION)
    && DatabaseIs(live, rules, true)
  }

  /** The journal, its backup and its manifest prove that a migration to the previous configuration schema completed. */
  predicate ProvesPrevious(disk: Disk, schema: nat) {
    && disk.journal.Some? && disk.journal.value.phase == Completed && schema + 1 == CONFIG_SCHEMA_VERSION
    && Recoverable(disk, disk.journal.value)
    && var manifest := disk.backups[disk.journal.value.id].manifest;
       manifest == Some(Manifest(disk.journal.value.source.value, schema, DATABASE_SCHEMA_VERSION,
                                 Some((schema, DATABASE_SCHEMA_VERSION))))
  }

  /** A start has to migrate, and beside a completed journal may. */
  predicate Due(disk: Disk, rules: Rules) {
    && Readable(disk.live, rules) && !Current(disk.live, rules)
    && (disk.journal.Some? ==>
          disk.live.database.Some? && DatabaseIs(disk.live, rules, false)
          && ProvesPrevious(disk, disk.live.config.value.schema))
  }

  /** A start leaves things as they are: current files, beside a completed journal both of them, or a new installation. */
  predicate NothingDue(disk: Disk, rules: Rules) {
    if disk.journal.Some? then Current(disk.live, rules) && disk.live.database.Some?
    else Current(disk.live, rules) || (disk.live.config.None? && disk.live.database.None?)
  }

  predicate NoSidecars(live: Live) {
    live.wal.None? && !live.shm
  }

  predicate Matches(live: Live, candidate: Candidate) {
    live.config == Some(candidate.config) && live.database == Some(candidate.database)
  }

  /** The backup files are exactly what the journal recorded. */
  predicate Recoverable(disk: Disk, journal: Journal) {
    && journal.source.Some?
    && journal.id in disk.backups
    && disk.backups[journal.id].config == Some(journal.source.value.config)
    && (journal.source.value.database.Some? ==> disk.backups[journal.id].database == journal.source.value.database)
    && (journal.source.value.credentials.Some? ==>
          disk.backups[journal.id].credentials == journal.source.value.credentials)
  }

  /** The staged files are exactly what the journal recorded. */
  predicate HasCandidate(disk: Disk, journal: Journal) {
    && journal.candidate.Some?
    && journal.id in disk.staging
    && disk.staging[journal.id] == Staging(Some(journal.candidate.value.config), Some(journal.candidate.value.database))
  }

  /** The recorded source is the generation that was live when the migration began. */
  predicate Faithful(source: Artifacts, origin: Live) {
    && origin.config == Some(source.config)
    && source.credentials == origin.credentials
    && (source.database.Some? <==> origin.database.Some?)
    && (source.database.Some? ==> source.database.value.contents == Effective(origin.database.value, origin.wal))
  }

  /** The original main file, possibly with some of its sidecars already removed. */
  predicate Former(live: Live, origin: Live) {
    && live.database == origin.database
    && (live.wal == origin.wal || live.wal.None?)
    && (live.shm ==> origin.shm)
  }

  /** A replacement main file, standing alone. */
  predicate Replaced(live: Live, image: Image) {
    live.database == Some(image) && NoSidecars(live)
  }

  /** Everything activation, restoration and their interruptions can leave live. */
  predicate Transitional(live: Live, origin: Live, source: Artifacts, candidate: Candidate) {
    && live.credentials == origin.credentials
    && (live.config == origin.config || live.config == Some(candidate.config))
    && (|| Former(live, origin)
        || Replaced(live, candidate.database)
        || (source.database.Some? && Replaced(live, source.database.value)))
  }

  /** Activation alone replaces the configuration first and the database last. */
  predicate ActivationPrefix(live: Live, origin: Live, candidate: Candidate) {
    || live == origin
    || (&& live.config == Some(candidate.config)
        && live.credentials == origin.credentials
        && (Former(live, origin) || Replaced(live, candidate.database)))
  }

  /** The candidate is the conversion of the recorded source. */
  predicate Converted(journal: Journal, rules: Rules) {
    && journal.source.Some? && journal.candidate.Some?
    && rules.migrateConfig(journal.source.value.config) == Some(journal.candidate.value.config)
    && rules.migrateDatabase(journal.source.value.database) == Some(journal.candidate.value.database)
  }

  predicate BeforeActivation(phase: Phase) {
    phase == Prepared || phase == BackupVerified || phase == Staged || phase == StagedValidated
  }

  predicate DuringActivation(phase: Phase) {
    phase == Activating || phase == ActiveValidated || phase == RecoveryRequired
  }

  /** A journal that still commits the installation to one of its two generations, both of them intact. */
  predicate Armed(disk: Disk, rules: Rules) {
    && disk.journal.Some?
    && DuringActivation(disk.journal.value.phase)
    && Recoverable(disk, disk.journal.value)
    && HasCandidate(disk, disk.journal.value)
    && rules.ValidCandidate(disk.journal.value.candidate.value)
    && Converted(disk.journal.value, rules)
  }

  predicate Unarchived(disk: Disk, id: nat) {
    forall reason: Reason :: (id, reason) !in disk.archive
  }

  predicate BackedUp(disk: Disk, journal: Journal, origin: Live) {
    disk.live == origin && Recoverable(disk, journal) && Faithful(journal.source.value, origin)
  }

  /** An interrupted activation: Armed, and live in one of the states activation or restoration passes through. */
  predicate Interrupted(disk: Disk, journal: Journal, origin: Live, rules: Rules)
    requires disk.journal == Some(journal)
  {
    && Armed(disk, rules)
    && Faithful(journal.source.value, origin)
    && Transitional(disk.live, origin, journal.source.value, journal.candidate.value)
  }

  predicate PhaseInv(disk: Disk, journal: Journal, origin: Live, rules: Rules)
    requires disk.journal == Some(journal)
  {
    match journal.phase
    case Prepared => disk.live == origin
    case BackupVerified => BackedUp(disk, journal, origin)
    case Activating =>
      Interrupted(disk, journal, origin, rules) && ActivationPrefix(disk.live, origin, journal.candidate.value)
    case ActiveValidated =>
      Interrupted(disk, journal, origin, rules) && Matches(disk.live, journal.candidate.value)
    case RecoveryRequired => Interrupted(disk, journal, origin, rules)
    case Completed => true
    case _ =>  // staged, whether or not its report is written
      && BackedUp(disk, journal, origin)
      && HasCandidate(disk, journal)
      && rules.ValidCandidate(journal.candidate.value)
      && Converted(journal, rules)
  }

  /** What the disk satisfies between any two steps, given what was live when the active migration began. */
  predicate Inv(disk: Disk, origin: Live, rules: Rules) {
    disk.journal.Some? ==>
      Unarchived(disk, disk.journal.value.id) && PhaseInv(disk, disk.journal.value, origin, rules)
  }

  /** What every single step does. */
  predicate StepOk(before: Disk, after: Disk, rules: Rules) {
    && (before.live != after.live ==> Armed(before, rules) && after.journal == before.journal)
    && (before.journal.Some? && after.journal.Some? ==> before.journal.value.id == after.journal.value.id)
    && (forall key :: key in before.archive ==> key in after.archive && after.archive[key] == before.archive[key])
    && (forall id :: id in before.backups ==> id in after.backups)
  }

  /** The candidate generation is live and the journal says so. */
  predicate CandidateLive(disk: Disk, journal: Journal) {
    && journal.candidate.Some?
    && disk.journal == Some(journal.(phase := Completed))
    && Matches(disk.live, journal.candidate.value)
  }

  /** The source generation is live: the same configuration, and the same database content or none. */
  predicate SourceLive(live: Live, origin: Live, source: Artifacts) {
    && live.config == origin.config
    && live.credentials == origin.credentials
    && live.database == source.database
    && (match origin.database
        case None => live.database.None? && (live.wal == origin.wal || live.wal.None?)
        case Some(former) =>
          && live.database.Some?
          && NoSidecars(live)
          && Effective(live.database.value, live.wal) == Effective(former, origin.wal))
  }

  predicate SourceRestored(disk: Disk, origin: Live, journal: Journal, reason: Reason) {
    && disk.journal.None?
    && journal.source.Some?
    && SourceLive(disk.live, origin, journal.source.value)
    && (journal.id, reason) in disk.archive
    && disk.archive[(journal.id, reason)].id == journal.id
  }

  /** The candidate generation is live, and it is the validated conversion of the generation that was live before. */
  predicate MigratedFrom(disk: Disk, origin: Live, id: nat, rules: Rules) {
    && disk.journal.Some? && disk.journal.value.id == id
    && CandidateLive(disk, disk.journal.value)
    && Converted(disk.journal.value, rules)
    && rules.ValidCandidate(disk.journal.value.candidate.value)
    && Faithful(disk.journal.value.source.value, origin)
  }

  /** The same configuration and credentials, and a database that reads the same, or none. */
  predicate SameGeneration(live: Live, origin: Live) {
    && live.config == origin.config && live.credentials == origin.credentials
    && (live.database.Some? <==> origin.database.Some?)
    && (live.database.Some? ==>
          Effective(live.database.value, live.wal) == Effective(origin.database.value, origin.wal))
  }

  /** The generation of before is live: the migration never began, or its journal has left for the archive. */
  predicate SourceKept(disk: Disk, before: Disk, id: nat) {
    && disk.journal.None?
    && SameGeneration(disk.live, before.live)
    && (|| disk == before
        || (id, AbandonedBeforeActivation) in disk.archive
        || (id, RecoveredSource) in disk.archive
        || (id, RecoveredAfterFailure) in disk.archive)
  }

  /** A migration that began on one disk is over, one way or the other. */
  predicate Decided(disk: Disk, before: Disk, id: nat, rules: Rules) {
    MigratedFrom(disk, before.live, id, rules) || SourceKept(disk, before, id)
  }

  /** Activation has not begun, so the live files are those of before. */
  predicate NotActivated(disk: Disk, origin: Live) {
    disk.live == origin && (disk.journal.Some? ==> BeforeActivation(disk.journal.value.phase))
  }

  /** It is not over, and its journal says so. */
  predicate Undecided(disk: Disk, id: nat) {
    disk.journal.Some? && disk.journal.value.id == id && disk.journal.value.phase != Completed
  }

  /** The all-or-nothing outcome of an activation that began under the given journal. */
  predicate Settled(disk: Disk, origin: Live, journal: Journal) {
    || CandidateLive(disk, journal)
    || SourceRestored(disk, origin, journal, RecoveredSource)
    || SourceRestored(disk, origin, journal, RecoveredAfterFailure)
  }

  /** The activation is still undecided, and what is needed to decide it either way is intact. */
  predicate Pending(disk: Disk, journal: Journal) {
    && disk.journal.Some?
    && DuringActivation(disk.journal.value.phase)
    && disk.journal.value.(phase := journal.phase) == journal
  }

  function RestoredLive(live: Live, source: Artifacts): Live {
    if source.database.Some? then
      live.(config := Some(source.config), database := source.database, wal := None, shm := false)
    else if live.database.None? then
      live.(config := Some(source.config))
    else
      live.(config := Some(source.config), database := None, wal := None, shm := false)
  }

  /** What an undisturbed recovery makes of a disk. */
  function RecoveredDisk(disk: Disk): Disk {
    if disk.journal.None? || disk.journal.value.phase == Completed then disk
    else
      var journal := disk.journal.value;
      if BeforeActivation(journal.phase) then
        disk.(journal := None, archive := disk.archive[(journal.id, AbandonedBeforeActivation) := journal])
      else if journal.candidate.Some? && Matches(disk.live, journal.candidate.value) then
        disk.(journal := Some(journal.(phase := Completed)), staging := disk.staging - {journal.id})
      else if journal.source.Some? then
        UndoneDisk(disk.(journal := Some(journal.(phase := RecoveryRequired))), RecoveredSource)
      else disk
  }

  /** An undisturbed recovery would complete an interrupted activation. */
  predicate Recovers(disk: Disk) {
    disk.journal.Some? && DuringActivation(disk.journal.value.phase) && disk.journal.value.candidate.Some?
    && Matches(disk.live, disk.journal.value.candidate.value)
  }

  /** An undisturbed recovery can be refused only by the validation of an already active candidate. */
  predicate CanRecover(disk: Disk, rules: Rules) {
    disk.journal.Some? && DuringActivation(disk.journal.value.phase) && disk.journal.value.candidate.Some?
    && Matches(disk.live, disk.journal.value.candidate.value) ==>
      rules.ValidContents(Effective(disk.journal.value.candidate.value.database, disk.live.wal))
  }

  /** The source back in place and the journal archived. */
  function UndoneDisk(disk: Disk, reason: Reason): Disk
    requires disk.journal.Some? && disk.journal.value.source.Some?
  {
    var journal := disk.journal.value;
    disk.(live := RestoredLive(disk.live, journal.source.value),
          journal := None,
          archive := disk.archive[(journal.id, reason) := journal])
  }

  /** Putting the backup back over anything an activation leaves live restores the source generation. */
  lemma UndoneIsSource(disk: Disk, origin: Live, rules: Rules, reason: Reason)
    requires Inv(disk, origin, rules)
    requires disk.journal.Some? && DuringActivation(disk.journal.value.phase)
    ensures SourceRestored(UndoneDisk(disk, reason), origin, disk.journal.value, reason)
  {
  }

  /** A former main file that already is the candidate's, under a log with which it does not validate. */
  predicate Ambiguous(origin: Live, candidate: Candidate, rules: Rules) {
    && origin.database == Some(candidate.database)
    && origin.wal.Some? && !rules.ValidContents(origin.wal.value)
  }

  lemma RefusedIsAmbiguous(disk: Disk, origin: Live, rules: Rules)
    requires Inv(disk, origin, rules) && !CanRecover(disk, rules)
    ensures Ambiguous(origin, disk.journal.value.candidate.value, rules)
  {
  }

  /** The interruption between the replacement of the configuration and the removal of the sidecars. */
  function ConfigReplaced(disk: Disk): Disk
    requires disk.journal.Some? && disk.journal.value.candidate.Some?
  {
    disk.(live := disk.live.(config := Some(disk.journal.value.candidate.value.config)))
  }

  /**
   Every interruption of an activation, and of its recovery, can be recovered from once failures stop, exactly when the
   former database is not an ambiguous one. Otherwise an interruption right behind the configuration's replacement is
   taken for an active candidate, and its validation throws at every start.
   */
  lemma RecoveryTerminatesIff(begun: Disk, rules: Rules)
    requires Inv(begun, begun.live, rules)
    requires begun.journal.Some? && begun.journal.value.phase == Activating
    ensures !Ambiguous(begun.live, begun.journal.value.candidate.value, rules) <==>
            forall disk: Disk :: Interrupts(disk, begun, rules) ==> CanRecover(disk, rules)
  {
    forall disk: Disk | Interrupts(disk, begun, rules) && !CanRecover(disk, rules)
      ensures Ambiguous(begun.live, begun.journal.value.candidate.value, rules)
    {
      RefusedIsAmbiguous(disk, begun.live, rules);
    }
    if Ambiguous(begun.live, begun.journal.value.candidate.value, rules) {
      assert Interrupts(ConfigReplaced(begun), begun, rules);
    }
  }

  /** Over a live candidate the journal may say that it is validated, and then that it is complete. */
  lemma LiveCandidateCommits(disk: Disk, origin: Live, rules: Rules)
    requires Inv(disk, origin, rules)
    requires disk.journal.Some? && DuringActivation(disk.journal.value.phase)
    requires Matches(disk.live, disk.journal.value.candidate.value)
    ensures Inv(disk.(journal := Some(disk.journal.value.(phase := ActiveValidated))), origin, rules)
    ensures Inv(disk.(journal := Some(disk.journal.value.(phase := Completed))), origin, rules)
  {
  }

  /** An undisturbed recovery over a live candidate leaves this. */
  lemma RecoveryCommits(disk: Disk)
    requires disk.journal.Some? && DuringActivation(disk.journal.value.phase) && disk.journal.value.candidate.Some?
    requires Matches(disk.live, disk.journal.value.candidate.value)
    ensures var journal := disk.journal.value;
            RecoveredDisk(disk)
            == disk.(journal := Some(journal.(phase := Completed)), staging := disk.staging - {journal.id})
  {
  }

  /** And this otherwise. */
  lemma RecoveryUndoes(disk: Disk)
    requires disk.journal.Some? && DuringActivation(disk.journal.value.phase) && disk.journal.value.candidate.Some?
    requires !Matches(disk.live, disk.journal.value.candidate.value) && disk.journal.value.source.Some?
    ensures var required := disk.journal.value.(phase := RecoveryRequired);
            RecoveredDisk(disk) == UndoneDisk(disk.(journal := Some(required)), RecoveredSource)
  {
  }

  /** Putting the configuration of the backup back is a move of recovery. */
  lemma BackupConfigFits(disk: Disk, origin: Live, rules: Rules)
    requires Inv(disk, origin, rules) && disk.journal.Some? && disk.journal.value.phase == RecoveryRequired
    ensures disk.backups[disk.journal.value.id].config == Some(disk.journal.value.source.value.config)
    ensures var config := disk.backups[disk.journal.value.id].config;
            Armed(disk, rules) && Inv(disk.(live := disk.live.(config := config)), origin, rules)
            && config == origin.config
  {
  }

  /** A journal that has stopped saying so keeps the invariant too. */
  lemma InterruptionAsksForRecovery(disk: Disk, origin: Live, rules: Rules)
    requires Inv(disk, origin, rules)
    requires disk.journal.Some? && DuringActivation(disk.journal.value.phase)
    ensures Inv(disk.(journal := Some(disk.journal.value.(phase := RecoveryRequired))), origin, rules)
  {
  }

  /** Whatever an interruption left, an undisturbed recovery ends in one of the two generations. */
  lemma RecoveredIsSettled(disk: Disk, origin: Live, rules: Rules)
    requires Inv(disk, origin, rules)
    requires disk.journal.Some? && DuringActivation(disk.journal.value.phase)
    ensures Settled(RecoveredDisk(disk), origin, disk.journal.value)
    ensures CandidateLive(RecoveredDisk(disk), disk.journal.value)
            <==> Matches(disk.live, disk.journal.value.candidate.value)
  {
    var required := disk.(journal := Some(disk.journal.value.(phase := RecoveryRequired)));
    UndoneIsSource(required, origin, rules, RecoveredSource);
  }

  /** Recovering a recovered disk changes nothing, and the invariant survives recovery. */
  lemma RecoveryIsIdempotent(disk: Disk, origin: Live, rules: Rules)
    requires Inv(disk, origin, rules)
    ensures RecoveredDisk(RecoveredDisk(disk)) == RecoveredDisk(disk)
    ensures Inv(RecoveredDisk(disk), origin, rules)
    ensures RecoveredDisk(disk).journal.None? || RecoveredDisk(disk).journal.value.phase == Completed
  {
    if disk.journal.Some? && disk.journal.value.phase != Completed && !BeforeActivation(disk.journal.value.phase) {
      RecoveredIsSettled(disk, origin, rules);
    }
  }

  /** A disk that an interruption of an activation, or of its recovery, can leave. */
  predicate Interrupts(disk: Disk, begun: Disk, rules: Rules) {
    begun.journal.Some? && Pending(disk, begun.journal.value) && Inv(disk, begun.live, rules)
  }

  /** One from which recovery completes the migration. */
  predicate ReachesCompletion(disk: Disk, begun: Disk, rules: Rules) {
    Interrupts(disk, begun, rules) && CanRecover(disk, rules) && CandidateLive(RecoveredDisk(disk), begun.journal.value)
  }

  /** The former main file differs from the candidate's, or nothing beside it survives where recovery completes. */
  predicate Separable(origin: Live, candidate: Candidate, rules: Rules) {
    || origin.database != Some(candidate.database)
    || (!origin.shm && (origin.wal.None? || !rules.ValidContents(origin.wal.value)))
  }

  /** The later interruption at which the log is gone and the index is not. */
  function LogRemoved(disk: Disk): Disk
    requires disk.journal.Some? && disk.journal.value.candidate.Some?
  {
    ConfigReplaced(disk).(live := ConfigReplaced(disk).live.(wal := None))
  }

  /**
   A completed migration never keeps a sidecar of the former database, under any interruption, exactly when the former
   main file differs from the candidate's, or has no index and no log with which it validates: recovery compares the
   main files only, so a former main file that already is the candidate's is taken for it with its sidecars in place.
   */
  lemma FormerSidecarsGoneIff(begun: Disk, rules: Rules)
    requires Inv(begun, begun.live, rules)
    requires begun.journal.Some? && begun.journal.value.phase == Activating
    ensures Separable(begun.live, begun.journal.value.candidate.value, rules) <==>
            forall disk: Disk :: ReachesCompletion(disk, begun, rules) ==> NoSidecars(RecoveredDisk(disk).live)
  {
    var candidate := begun.journal.value.candidate.value;
    forall disk: Disk | ReachesCompletion(disk, begun, rules) && Separable(begun.live, candidate, rules)
      ensures NoSidecars(RecoveredDisk(disk).live)
    {
      RecoveredIsSettled(disk, begun.live, rules);
    }
    if !Separable(begun.live, candidate, rules) {
      var stopped := if begun.live.shm then LogRemoved(begun) else ConfigReplaced(begun);
      RecoveredIsSettled(stopped, begun.live, rules);
      assert ReachesCompletion(stopped, begun, rules);
    }
  }

  /** The activation of a migration whose database is already converted, with this log beside it. */
  function ExampleBegun(log: Contents): Disk {
    var image := Image(Contents(DATABASE_SCHEMA_VERSION, 1), 0);
    var origin := Live(Some(Config(5, 0)), Some(image), Some(log), true, None);
    var candidate := Candidate(Config(CONFIG_SCHEMA_VERSION, 0), image);
    var source := Artifacts(Config(5, 0), Some(Image(log, 0)), None);
    Disk(origin, Some(Journal(9, Activating, Some(source), Some(candidate))), map[],
         map[9 := Backup(Some(Config(5, 0)), source.database, None, None)],
         map[9 := Staging(Some(candidate.config), Some(image))])
  }

  /** Conversion to the current versions that keeps one row, and validation that wants no more than that. */
  function ExampleRules(): Rules {
    Rules(_ => true, (contents: Contents) => contents.rows == 1, _ => Some(Config(CONFIG_SCHEMA_VERSION, 0)),
          _ => Some(Image(Contents(DATABASE_SCHEMA_VERSION, 1), 0)))
  }

  /** One such run: the former file is already the candidate's, its log is still there, and recovery completes. */
  lemma KeptSidecarExample()
    ensures var begun := ExampleBegun(Contents(DATABASE_SCHEMA_VERSION, 1));
            && begun.journal.value.phase == Activating && Inv(begun, begun.live, ExampleRules())
            && ReachesCompletion(ConfigReplaced(begun), begun, ExampleRules())
            && !NoSidecars(RecoveredDisk(ConfigReplaced(begun)).live)
  {
  }

  /** With a log of two rows, every undisturbed recovery of the same interruption is refused. */
  lemma StuckRecoveryExample()
    ensures var begun := ExampleBegun(Contents(DATABASE_SCHEMA_VERSION, 2));
            && begun.journal.value.phase == Activating && Inv(begun, begun.live, ExampleRules())
            && Interrupts(ConfigReplaced(begun), begun, ExampleRules())
            && !CanRecover(ConfigReplaced(begun), ExampleRules())
  {
  }
}
