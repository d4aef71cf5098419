/** The staged commit of a config file, with its faults and with another process on the same disk. */
module ConfigWriter {
  import opened Wrappers
  import opened Profiles
  import opened ProfileIds
  import opened ConfigMutations
  import Json

  type Bytes = seq<Json.Byte>

  // ---- the disk ----

  /** A backup is `plain` when it is a regular file that only its owner may use. */
  datatype BackupFile = BackupFile(bytes: Bytes, plain: bool)

  datatype Disk = Disk(main: Option<Bytes>, backup: Option<BackupFile>, temps: map<nat, Bytes>)

  type History = h: seq<Disk> | h != [] witness [Disk(None, None, map[])]

  datatype Failpoint =
    | BackupTempCreate | BackupWrite | BackupFileSync | BackupRename | BackupDirectorySync
    | MainTempCreate | MainWrite | MainFileSync | MainPreRename | MainPostRename | MainDirectorySync
    | MainObservationLoad

  /** The system calls between the failpoints. */
  datatype Call =
    | ReadMain | ReadBackup | OpenBackupDirectory | OpenBackupTemp | WriteBackupTemp | SyncBackupTemp | RenameBackup
    | ReadBackupAgain | SyncBackupDirectory | OpenMainDirectory | OpenMainTemp | WriteMainTemp | SyncMainTemp
    | ReadMainAgain | RenameMain | SyncMainDirectory | ReadMainObserved | RemoveTemp

  datatype Operation = At(point: Failpoint) | Of(call: Call)

  /**
   What may go wrong: the operations that fail, what a failed write leaves in a file, what another process
   writes to the main file just before it is read again, and the backup another process may put in the way.
   */
  datatype Environment = Environment(
    fails: Operation -> bool, partial: Bytes, otherMain: Option<Option<Bytes>>, otherBackup: Option<BackupFile>)

  datatype SourceVersion = Missing | V1 | V2

  datatype Parsed = Parsed(config: Config, version: SourceVersion)

  /** The TOML reader and writer, and the check of a profile apart from its id. */
  datatype Format = Format(
    parse: Bytes -> Option<Parsed>, encode: Config -> Option<Bytes>, draftOk: ConnectionProfile -> bool)

  /** What is written is read back as it was, as version 2. */
  ghost predicate Sound(format: Format) {
    && (forall config: Config | config.version == CURRENT_CONFIG_VERSION && format.encode(config).Some? ::
          format.parse(format.encode(config).value) == Some(Parsed(config, V2)))
    && (forall bytes: Bytes | format.parse(bytes).Some? :: format.parse(bytes).value.version != Missing)
  }

  datatype Loaded = Loaded(config: Config, version: SourceVersion, original: Option<Bytes>)

  datatype ConfigError =
    | Io
    | Unreadable
    | Unwritable
    | MigrationConfirmationRequired
    | BackupConflict
    | Refused(error: MutationError)
    | Changed
    | InvalidProfile
    | NotCommitted(stage: Failpoint)

  datatype CommitState = Committed | CommittedDurabilityUnknown

  datatype Outcome = Outcome(state: CommitState, observed: Option<Loaded>, backedUp: bool, profileId: string)

  // ---- what every step leaves alone ----

  /** The main file is what it was, or what another process made of it. */
  ghost predicate MainLeft(before: Option<Bytes>, main: Option<Bytes>, env: Environment) {
    main == before || (env.otherMain.Some? && main == env.otherMain.value)
  }

  /** A backup that was there is never touched; one that was not is the original or another's. */
  ghost predicate BackupLeft(before: Option<BackupFile>, backup: Option<BackupFile>, original: Bytes, env: Environment) {
    if before.Some? then backup == before
    else backup.None? || backup == Some(BackupFile(original, true)) || backup == env.otherBackup
  }

  /** What the main file holds, read by the format; without one, an empty config. */
  function SourceOf(main: Option<Bytes>, format: Format): Option<Parsed> {
    if main.None? then Some(Parsed(Config(CURRENT_CONFIG_VERSION, []), Missing)) else format.parse(main.value)
  }

  /** The main file is of version 1. */
  predicate Migrates(main: Option<Bytes>, format: Format) {
    SourceOf(main, format).Some? && SourceOf(main, format).value.version == V1
  }

  function BytesOf(main: Option<Bytes>): Bytes {
    if main.Some? then main.value else []
  }

  /**
   A moment of a commit: the main file is untouched by the writer, or is the new text, whole; and it is new
   only when, for a migration, the backup holds the original. An existing backup is never touched.
   */
  ghost predicate SafePoint(start: Disk, env: Environment, format: Format, text: Option<Bytes>, h: Disk) {
    && (|| MainLeft(start.main, h.main, env)
        || (&& text.Some? && h.main == text
            && (Migrates(start.main, format) ==> h.backup.Some? && Some(h.backup.value.bytes) == start.main)))
    && BackupLeft(start.backup, h.backup, BytesOf(start.main), env)
  }

  /** While a backup is made, the main file stays and the backup is not overwritten. */
  ghost predicate BackupSteps(start: Disk, env: Environment, original: Bytes, before: seq<Disk>, after: seq<Disk>) {
    && before <= after
    && (forall i | |before| <= i < |after| ::
          after[i].main == start.main && BackupLeft(start.backup, after[i].backup, original, env))
  }

  /** While the main file is written, the backup stays and the main file is old or new, never in between. */
  ghost predicate MainSteps(start: Disk, env: Environment, text: Option<Bytes>, before: seq<Disk>, after: seq<Disk>) {
    && before <= after
    && (forall i | |before| <= i < |after| ::
          && after[i].backup == start.backup
          && (MainLeft(start.main, after[i].main, env) || (text.Some? && after[i].main == text)))
  }

  lemma MainStepsJoin(start: Disk, middle: Disk, env: Environment, text: Option<Bytes>, a: seq<Disk>, b: seq<Disk>,
                      c: seq<Disk>)
    requires MainSteps(start, env, text, a, b) && MainSteps(middle, env, text, b, c)
    requires middle.main == start.main && middle.backup == start.backup
    ensures MainSteps(start, env, text, a, c)
  {
  }

  lemma MainStepsMore(start: Disk, env: Environment, text: Option<Bytes>, a: seq<Disk>, b: seq<Disk>, c: seq<Disk>,
                      last: Disk)
    requires MainSteps(start, env, text, a, b) && (c == b || c == b + [last])
    requires last.backup == start.backup
             && (MainLeft(start.main, last.main, env) || (text.Some? && last.main == text))
    ensures MainSteps(start, env, text, a, c)
  {
  }

  lemma BackupStepsJoin(start: Disk, middle: Disk, env: Environment, original: Bytes, a: seq<Disk>, b: seq<Disk>,
                        c: seq<Disk>)
    requires BackupSteps(start, env, original, a, b) && BackupSteps(middle, env, original, b, c)
    requires middle.main == start.main && middle.backup == start.backup
    ensures BackupSteps(start, env, original, a, c)
  {
  }

  lemma NothingDone(disk: Disk, env: Environment, original: Bytes, history: seq<Disk>)
    ensures BackupLeft(disk.backup, disk.backup, original, env) && BackupSteps(disk, env, original, history, history)
  {
  }

  /** A name that was drawn is behind the names to come, whether its file is still there or not. */
  lemma OneTemp(before: map<nat, Bytes>, after: map<nat, Bytes>, temp: nat, free: bool)
    requires after - {temp} == before && (free ==> forall name | name >= temp :: name !in before)
    ensures free ==> forall name | name >= temp + 1 :: name !in after
  {
    assert forall name | name in after && name != temp :: name in after - {temp};
  }

  lemma BackupStepsMore(start: Disk, env: Environment, original: Bytes, a: seq<Disk>, b: seq<Disk>, c: seq<Disk>,
                        last: Disk)
    requires BackupSteps(start, env, original, a, b) && (c == b || c == b + [last])
    requires last.main == start.main && BackupLeft(start.backup, last.backup, original, env)
    ensures BackupSteps(start, env, original, a, c)
  {
  }

  /** An error of the backup: its stage, or an unnamed call, failed, or there is another backup. */
  ghost predicate BackupError(env: Environment, error: ConfigError) {
    match error
    case NotCommitted(BackupTempCreate) => env.fails(At(BackupTempCreate))
    case NotCommitted(BackupWrite) => env.fails(At(BackupWrite)) || env.fails(Of(WriteBackupTemp))
    case NotCommitted(BackupFileSync) => env.fails(At(BackupFileSync)) || env.fails(Of(SyncBackupTemp))
    case NotCommitted(BackupRename) => env.fails(At(BackupRename)) || env.fails(Of(RenameBackup))
    case NotCommitted(BackupDirectorySync) => env.fails(At(BackupDirectorySync)) || env.fails(Of(SyncBackupDirectory))
    case _ => error == Io || error == BackupConflict
  }

  /** An error of the main file: its stage, or an unnamed call, failed, or another process changed it. */
  ghost predicate MainError(env: Environment, error: ConfigError) {
    match error
    case NotCommitted(MainTempCreate) => env.fails(At(MainTempCreate))
    case NotCommitted(MainWrite) => env.fails(At(MainWrite)) || env.fails(Of(WriteMainTemp))
    case NotCommitted(MainFileSync) => env.fails(At(MainFileSync)) || env.fails(Of(SyncMainTemp))
    case NotCommitted(MainPreRename) => env.fails(At(MainPreRename)) || env.fails(Of(RenameMain))
    case _ => error == Io || error == Changed
  }

  ghost predicate IsLoaded(main: Option<Bytes>, format: Format, loaded: Loaded) {
    loaded.original == main && SourceOf(main, format) == Some(Parsed(loaded.config, loaded.version))
  }

  ghost predicate Work(env: Environment, operations: set<Operation>) {
    forall operation | operation in operations :: !env.fails(operation)
  }

  /** Up to the rename of the main file nothing fails, and it is not changed by another process. */
  ghost predicate MainWorks(env: Environment, main: Option<Bytes>) {
    && Work(env, {Of(ReadMain), Of(OpenMainDirectory), At(MainTempCreate), Of(OpenMainTemp), At(MainWrite),
                  Of(WriteMainTemp), At(MainFileSync), Of(SyncMainTemp), At(MainPreRename), Of(ReadMainAgain),
                  Of(RenameMain)})
    && (env.otherMain.None? || env.otherMain.value == main)
  }

  /** A backup that is there is a plain copy; one that is not is made, or is there as one when it is to be renamed. */
  ghost predicate BackupWorks(env: Environment, backup: Option<BackupFile>, original: Bytes) {
    && Work(env, {Of(ReadBackup), Of(OpenBackupDirectory), At(BackupDirectorySync), Of(SyncBackupDirectory)})
    && (backup.Some? ==> backup == Some(BackupFile(original, true)))
    && (backup.None? ==>
          && Work(env, {At(BackupTempCreate), Of(OpenBackupTemp), At(BackupWrite), Of(WriteBackupTemp),
                        At(BackupFileSync), Of(SyncBackupTemp), At(BackupRename)})
          && (if env.otherBackup.None? then !env.fails(Of(RenameBackup))
              else !env.fails(Of(ReadBackupAgain)) && env.otherBackup == Some(BackupFile(original, true))))
  }

  /** What `mutate_path` needs of the disk, of its caller and of everything it calls. */
  ghost predicate Ready(env: Environment, disk: Disk, format: Format, mutation: Mutation, confirmed: bool) {
    var loaded := SourceOf(disk.main, format);
    && loaded.Some? && ValidIdentity(loaded.value.config) && ValidMutation(mutation, format.draftOk)
    && (forall error :: !Fails(loaded.value.config.profiles, mutation, error))
    && MainWorks(env, disk.main)
    && (loaded.value.version == V1 ==> confirmed && BackupWorks(env, disk.backup, BytesOf(disk.main)))
  }

  /** Why a mutation ends with an error. */
  ghost predicate WhyNotReady(env: Environment, disk: Disk, format: Format, mutation: Mutation, confirmed: bool,
                              error: ConfigError)
  {
    var loaded := SourceOf(disk.main, format);
    match error
    case Io => true
    case Unreadable => loaded.None?
    case Unwritable => exists config: Config :: format.encode(config).None?
    case InvalidProfile =>
      loaded.Some? && !(ValidIdentity(loaded.value.config) && ValidMutation(mutation, format.draftOk))
    case MigrationConfirmationRequired => Migrates(disk.main, format) && !confirmed
    case BackupConflict =>
      && Migrates(disk.main, format)
      && var backup := if disk.backup.Some? then disk.backup else env.otherBackup;
      backup.Some? && backup != Some(BackupFile(BytesOf(disk.main), true))
    case Refused(refused) => loaded.Some? && Fails(loaded.value.config.profiles, mutation, refused)
    case Changed => env.otherMain.Some? && env.otherMain.value != disk.main
    case NotCommitted(stage) =>
      || env.fails(At(stage))
      || exists call | env.fails(Of(call)) ::
           (stage, call) in {(BackupWrite, WriteBackupTemp), (BackupFileSync, SyncBackupTemp),
                             (BackupRename, RenameBackup), (BackupDirectorySync, SyncBackupDirectory),
                             (MainWrite, WriteMainTemp), (MainFileSync, SyncMainTemp), (MainPreRename, RenameMain)}
  }

  class ConfigWriter {
    /** Every state the disk has been in; the last is the one it is in, so there is no change that is not here. */
    var history: History
    var sequence: nat

    function Now(): Disk
      reads this
    {
      history[|history| - 1]
    }

    /** The names of the temporary files to come are not taken. */
    ghost predicate NoTempsAhead()
      reads this
    {
      forall name | name >= sequence :: name !in Now().temps
    }

    constructor (disk: Disk)
      ensures history == [disk]
    {
      history := [disk];
      sequence := 1;
    }

    method Change(to: Disk)
      modifies this`history
      ensures history == old(history) + [to]
    {
      history := history + [to];
    }

    /** `load_path`. */
    method LoadPath(env: Environment, format: Format, call: Call) returns (result: Result<Loaded, ConfigError>)
      ensures result.Ok? ==> IsLoaded(Now().main, format, result.value)
      ensures env.fails(Of(call)) ==> result == Err(Io)
      ensures !env.fails(Of(call)) && Now().main.None? ==> result == Ok(Loaded(Config(2, []), Missing, None))
      ensures !env.fails(Of(call)) && Now().main.Some? ==>
                var parsed := format.parse(Now().main.value);
                result == if parsed.None? then Err(Unreadable)
                          else Ok(Loaded(parsed.value.config, parsed.value.version, Now().main))
    {
      if env.fails(Of(call)) {
        return Err(Io);
      }
      if Now().main.None? {
        return Ok(Loaded(Config(CURRENT_CONFIG_VERSION, []), Missing, None));
      }
      var parsed := format.parse(Now().main.value);
      if parsed.None? {
        return Err(Unreadable);
      }
      return Ok(Loaded(parsed.value.config, parsed.value.version, Now().main));
    }

    /** `create_temp`: a new, empty file. */
    method CreateTemp(env: Environment, call: Call) returns (temp: Option<nat>)
      modifies this
      ensures temp.None? ==> Now() == old(Now()) && history == old(history)
      ensures temp.Some? ==> && temp.value !in old(Now().temps)
                             && Now() == old(Now()).(temps := old(Now().temps)[temp.value := []])
                             && history == old(history) + [Now()]
      ensures sequence == old(sequence) + 1
      ensures temp == if env.fails(Of(call)) || old(sequence) in old(Now().temps) then None else Some(old(sequence))
    {
      var name := sequence;
      sequence := sequence + 1;
      if env.fails(Of(call)) || name in Now().temps {
        return None;
      }
      Change(Now().(temps := Now().temps[name := []]));
      return Some(name);
    }

    /** `write_all` and `flush`: all of it, or some part. */
    method WriteTemp(env: Environment, call: Call, temp: nat, bytes: Bytes) returns (ok: bool)
      requires temp in Now().temps
      modifies this`history
      ensures Now() == old(Now()).(temps := old(Now().temps)[temp := if ok then bytes else env.partial])
      ensures history == old(history) + [Now()]
      ensures ok <==> !env.fails(Of(call))
    {
      ok := !env.fails(Of(call));
      Change(Now().(temps := Now().temps[temp := if ok then bytes else env.partial]));
    }

    /** What `TempCleanup` does when it is dropped while armed. */
    method Cleanup(env: Environment, temp: nat)
      modifies this`history
      ensures Now() == old(Now()).(temps := if env.fails(Of(RemoveTemp)) then old(Now().temps) else old(Now().temps) - {temp})
      ensures history == old(history) || history == old(history) + [Now()]
    {
      if !env.fails(Of(RemoveTemp)) {
        Change(Now().(temps := Now().temps - {temp}));
      }
    }

    /** `read_existing_backup`. */
    method ReadExistingBackup(env: Environment, call: Call) returns (result: Result<Option<Bytes>, ConfigError>)
      ensures result == if env.fails(Of(call)) then Err(Io)
                        else if Now().backup.None? then Ok(None)
                        else if !Now().backup.value.plain then Err(BackupConflict)
                        else Ok(Some(Now().backup.value.bytes))
    {
      if env.fails(Of(call)) {
        return Err(Io);
      }
      if Now().backup.None? {
        return Ok(None);
      }
      if !Now().backup.value.plain {
        return Err(BackupConflict);
      }
      return Ok(Some(Now().backup.value.bytes));
    }

    /** What holds of a step of the backup, whatever goes wrong in it. */
    twostate predicate OnlyBackup(env: Environment, original: Bytes)
      reads this
    {
      && Now().main == old(Now().main) && BackupLeft(old(Now().backup), Now().backup, original, env)
      && BackupSteps(old(Now()), env, original, old(history), history)
    }

    /** The part of `write_backup` while its cleanup guard lives; `renamed` is when the guard is disarmed. */
    method StageBackup(env: Environment, original: Bytes, temp: nat) returns (error: Option<ConfigError>, renamed: bool)
      requires temp in Now().temps && Now().backup.None?
      modifies this`history
      ensures OnlyBackup(env, original)
      ensures Now().temps - {temp} == old(Now().temps) - {temp} && (renamed ==> temp !in Now().temps)
      ensures error.None? ==> Now().backup == Some(BackupFile(original, true))
      ensures renamed <==> error.None? && env.otherBackup.None?
      ensures error.None? <==>
                && !env.fails(At(BackupWrite)) && !env.fails(Of(WriteBackupTemp)) && !env.fails(At(BackupFileSync))
                && !env.fails(Of(SyncBackupTemp)) && !env.fails(At(BackupRename))
                && (if env.otherBackup.None? then !env.fails(Of(RenameBackup))
                    else !env.fails(Of(ReadBackupAgain)) && env.otherBackup == Some(BackupFile(original, true)))
      ensures error.Some? ==> BackupError(env, error.value)
      ensures error == Some(BackupConflict) ==>
                env.otherBackup.Some? && env.otherBackup != Some(BackupFile(original, true))
    {
      if env.fails(At(BackupWrite)) {
        return Some(NotCommitted(BackupWrite)), false;
      }
      var written := WriteTemp(env, WriteBackupTemp, temp, original);
      if !written {
        return Some(NotCommitted(BackupWrite)), false;
      }
      if env.fails(At(BackupFileSync)) || env.fails(Of(SyncBackupTemp)) {
        return Some(NotCommitted(BackupFileSync)), false;
      }
      if env.fails(At(BackupRename)) {
        return Some(NotCommitted(BackupRename)), false;
      }
      if env.otherBackup.Some? {
        Change(Now().(backup := env.otherBackup));
      }
      if Now().backup.Some? {
        var existing := ReadExistingBackup(env, ReadBackupAgain);
        if existing.Err? {
          return Some(existing.error), false;
        }
        if existing.value != Some(original) {
          return Some(BackupConflict), false;
        }
        return None, false;
      }
      if env.fails(Of(RenameBackup)) {
        return Some(NotCommitted(BackupRename)), false;
      }
      Change(Now().(backup := Some(BackupFile(Now().temps[temp], true)), temps := Now().temps - {temp}));
      return None, true;
    }

    /** The part of `write_backup` that makes a backup where there is none. */
    method MakeBackup(env: Environment, original: Bytes) returns (error: Option<ConfigError>)
      requires Now().backup.None?
      modifies this
      ensures OnlyBackup(env, original)
      ensures !env.fails(Of(RemoveTemp)) ==> Now().temps == old(Now().temps)
      ensures error.None? ==> Now().backup == Some(BackupFile(original, true))
      ensures old(NoTempsAhead()) ==> NoTempsAhead()
      ensures error.Some? ==> BackupError(env, error.value)
      ensures error == Some(BackupConflict) ==>
                env.otherBackup.Some? && env.otherBackup != Some(BackupFile(original, true))
      ensures error.None? <==>
                && !env.fails(Of(OpenBackupDirectory)) && !env.fails(At(BackupTempCreate))
                && !env.fails(Of(OpenBackupTemp)) && old(sequence) !in old(Now().temps)
                && !env.fails(At(BackupWrite)) && !env.fails(Of(WriteBackupTemp)) && !env.fails(At(BackupFileSync))
                && !env.fails(Of(SyncBackupTemp)) && !env.fails(At(BackupRename))
                && (if env.otherBackup.None? then !env.fails(Of(RenameBackup))
                    else !env.fails(Of(ReadBackupAgain)) && env.otherBackup == Some(BackupFile(original, true)))
                && !env.fails(At(BackupDirectorySync)) && !env.fails(Of(SyncBackupDirectory))
    {
      hide BackupLeft, BackupSteps;
      NothingDone(Now(), env, original, history);
      if env.fails(Of(OpenBackupDirectory)) {
        return Some(Io);
      }
      if env.fails(At(BackupTempCreate)) {
        return Some(NotCommitted(BackupTempCreate));
      }
      var temp := CreateTemp(env, OpenBackupTemp);
      if temp.None? {
        return Some(Io);
      }
      ghost var created, first := Now(), history;
      BackupStepsMore(old(Now()), env, original, old(history), old(history), first, created);
      var renamed;
      error, renamed := StageBackup(env, original, temp.value);
      ghost var staged := history;
      BackupStepsJoin(old(Now()), created, env, original, old(history), first, staged);
      if error.None? && (env.fails(At(BackupDirectorySync)) || env.fails(Of(SyncBackupDirectory))) {
        error := Some(NotCommitted(BackupDirectorySync));
      }
      assert created.temps - {temp.value} == old(Now().temps);
      if !renamed {
        Cleanup(env, temp.value);
        BackupStepsMore(old(Now()), env, original, old(history), staged, history, Now());
      } else {
        assert Now().temps == Now().temps - {temp.value};
      }
      OneTemp(old(Now().temps), Now().temps, temp.value, old(NoTempsAhead()));
    }

    /** `write_backup`. */
    method WriteBackup(env: Environment, original: Bytes) returns (error: Option<ConfigError>)
      modifies this
      ensures OnlyBackup(env, original)
      ensures !env.fails(Of(RemoveTemp)) ==> Now().temps == old(Now().temps)
      ensures error.None? ==> Now().backup == Some(BackupFile(original, true))
      ensures old(NoTempsAhead()) ==> NoTempsAhead()
      ensures error.Some? ==> BackupError(env, error.value)
      ensures error == Some(BackupConflict) ==>
                var backup := if old(Now().backup).Some? then old(Now().backup) else env.otherBackup;
                backup.Some? && backup != Some(BackupFile(original, true))
      ensures error.None? && old(Now().backup).None? ==> old(sequence) !in old(Now().temps)
      ensures (old(Now().backup).None? ==> old(sequence) !in old(Now().temps)) ==>
                (error.None? <==> BackupWorks(env, old(Now().backup), original))
    {
      var existing := ReadExistingBackup(env, ReadBackup);
      if existing.Err? {
        return Some(existing.error);
      }
      if existing.value.Some? {
        if existing.value.value != original {
          return Some(BackupConflict);
        }
        if env.fails(Of(OpenBackupDirectory)) {
          return Some(Io);
        }
        if env.fails(At(BackupDirectorySync)) || env.fails(Of(SyncBackupDirectory)) {
          return Some(NotCommitted(BackupDirectorySync));
        }
        return None;
      }
      error := MakeBackup(env, original);
    }

    /** What holds of a step of the main file, whatever goes wrong in it. */
    twostate predicate OnlyMain(env: Environment, text: Option<Bytes>)
      reads this
    {
      && Now().backup == old(Now().backup)
      && MainSteps(old(Now()), env, text, old(history), history)
    }

    /** The part of `write_main` while its cleanup guard lives. */
    method StageMain(env: Environment, encoded: Bytes, expected: Option<Bytes>, temp: nat)
      returns (error: Option<ConfigError>, renamed: bool)
      requires temp in Now().temps
      modifies this`history
      ensures OnlyMain(env, if renamed then Some(encoded) else None)
      ensures Now().temps - {temp} == old(Now().temps) - {temp} && (renamed ==> temp !in Now().temps)
      ensures renamed <==> error.None?
      ensures error.Some? ==> MainError(env, error.value)
      ensures renamed ==> Now().main == Some(encoded)
      ensures !renamed ==> MainLeft(old(Now().main), Now().main, env)
      ensures renamed <==>
                && !env.fails(At(MainWrite)) && !env.fails(Of(WriteMainTemp)) && !env.fails(At(MainFileSync))
                && !env.fails(Of(SyncMainTemp)) && !env.fails(At(MainPreRename)) && !env.fails(Of(ReadMainAgain))
                && !env.fails(Of(RenameMain))
                && expected == if env.otherMain.Some? then env.otherMain.value else old(Now().main)
      ensures error == Some(Changed) ==>
                expected != if env.otherMain.Some? then env.otherMain.value else old(Now().main)
    {
      if env.fails(At(MainWrite)) {
        return Some(NotCommitted(MainWrite)), false;
      }
      var written := WriteTemp(env, WriteMainTemp, temp, encoded);
      if !written {
        return Some(NotCommitted(MainWrite)), false;
      }
      if env.fails(At(MainFileSync)) || env.fails(Of(SyncMainTemp)) {
        return Some(NotCommitted(MainFileSync)), false;
      }
      if env.fails(At(MainPreRename)) {
        return Some(NotCommitted(MainPreRename)), false;
      }
      if env.otherMain.Some? {
        Change(Now().(main := env.otherMain.value));
      }
      if env.fails(Of(ReadMainAgain)) {
        return Some(Io), false;
      }
      if Now().main != expected {
        return Some(Changed), false;
      }
      if env.fails(Of(RenameMain)) {
        return Some(NotCommitted(MainPreRename)), false;
      }
      Change(Now().(main := Some(Now().temps[temp]), temps := Now().temps - {temp}));
      return None, true;
    }

    /** `write_main`. */
    method WriteMain(env: Environment, encoded: Bytes, expected: Option<Bytes>)
      returns (result: Result<CommitState, ConfigError>)
      modifies this
      ensures OnlyMain(env, if result.Ok? then Some(encoded) else None)
      ensures !env.fails(Of(RemoveTemp)) ==> Now().temps == old(Now().temps)
      ensures result.Ok? ==> Now().main == Some(encoded)
      ensures result.Err? ==> MainLeft(old(Now().main), Now().main, env) && MainError(env, result.error)
      ensures result == Err(Changed) ==>
                expected != if env.otherMain.Some? then env.otherMain.value else old(Now().main)
      ensures result.Ok? <==>
                && !env.fails(Of(OpenMainDirectory)) && !env.fails(At(MainTempCreate)) && !env.fails(Of(OpenMainTemp))
                && old(sequence) !in old(Now().temps)
                && !env.fails(At(MainWrite)) && !env.fails(Of(WriteMainTemp)) && !env.fails(At(MainFileSync))
                && !env.fails(Of(SyncMainTemp)) && !env.fails(At(MainPreRename)) && !env.fails(Of(ReadMainAgain))
                && !env.fails(Of(RenameMain))
                && expected == if env.otherMain.Some? then env.otherMain.value else old(Now().main)
      ensures result.Ok? ==>
                (result.value == Committed <==> && !env.fails(At(MainPostRename)) && !env.fails(At(MainDirectorySync))
                                                && !env.fails(Of(SyncMainDirectory)))
    {
      if env.fails(Of(OpenMainDirectory)) {
        return Err(Io);
      }
      if env.fails(At(MainTempCreate)) {
        return Err(NotCommitted(MainTempCreate));
      }
      var temp := CreateTemp(env, OpenMainTemp);
      if temp.None? {
        return Err(Io);
      }
      ghost var created, first := Now(), history;
      assert created.temps - {temp.value} == old(Now().temps);
      var error, renamed := StageMain(env, encoded, expected, temp.value);
      ghost var staged := history;
      ghost var text := if renamed then Some(encoded) else None;
      MainStepsMore(old(Now()), env, text, old(history), old(history), first, created);
      MainStepsJoin(old(Now()), created, env, text, old(history), first, staged);
      assert Now().temps - {temp.value} == old(Now().temps);
      if !renamed {
        Cleanup(env, temp.value);
        MainStepsMore(old(Now()), env, text, old(history), staged, history, Now());
        return Err(error.value);
      }
      assert Now().temps == Now().temps - {temp.value};
      if env.fails(At(MainPostRename)) {
        return Ok(CommittedDurabilityUnknown);
      }
      if env.fails(At(MainDirectorySync)) || env.fails(Of(SyncMainDirectory)) {
        return Ok(CommittedDurabilityUnknown);
      }
      return Ok(Committed);
    }

    /** `observe_main`. */
    method ObserveMain(env: Environment, format: Format) returns (observed: Option<Loaded>)
      ensures observed.Some? ==> && Now().main.Some? && observed.value.version == V2 && observed.value.original == Now().main
                                 && format.parse(Now().main.value) == Some(Parsed(observed.value.config, V2))
      ensures observed.Some? <==>
                && !env.fails(At(MainObservationLoad)) && !env.fails(Of(ReadMainObserved)) && Now().main.Some?
                && format.parse(Now().main.value).Some? && format.parse(Now().main.value).value.version == V2
                && ValidIdentity(format.parse(Now().main.value).value.config)
    {
      if env.fails(At(MainObservationLoad)) {
        return None;
      }
      var loaded := LoadPath(env, format, ReadMainObserved);
      if loaded.Err? || !ValidIdentity(loaded.value.config) || loaded.value.version != V2 {
        return None;
      }
      return Some(loaded.value);
    }

    /**
     What `mutate_path` promises of success: the main file was replaced by exactly the encoding of the config with
     the mutation applied, over exactly the bytes that were read, and what is observed is that config.
     */
    twostate predicate Replaced(env: Environment, format: Format, config: Config, mutation: Mutation, outcome: Outcome)
      reads this
    {
      exists after ::
        var changed := Config(CURRENT_CONFIG_VERSION, after);
        && Applied(config.profiles, mutation, after, outcome.profileId)
        && ValidIdentity(changed)
        && format.encode(changed).Some? && Now().main == format.encode(changed)
        && (env.otherMain.None? || env.otherMain.value == old(Now().main))
        && outcome.observed == (if env.fails(At(MainObservationLoad)) || env.fails(Of(ReadMainObserved)) then None
                                else Some(Loaded(changed, V2, Now().main)))
        && (outcome.state == Committed <==>
              && outcome.observed.Some? && !env.fails(At(MainPostRename)) && !env.fails(At(MainDirectorySync))
              && !env.fails(Of(SyncMainDirectory)))
    }

    /** Each state of the disk since the start is a safe one, for this new text of the main file or for none. */
    twostate predicate AlwaysSafe(env: Environment, format: Format, text: Option<Bytes>)
      reads this
    {
      && old(history) <= history
      && forall i | |old(history)| <= i < |history| :: SafePoint(old(Now()), env, format, text, history[i])
    }

    /** The first half of `mutate_path`: what is read is checked, and backed up where it must be. */
    method Prepare(env: Environment, format: Format, mutation: Mutation, confirmed: bool)
      returns (result: Result<Loaded, ConfigError>)
      requires Sound(format)
      modifies this
      ensures result.Ok? ==> IsLoaded(old(Now().main), format, result.value)
      ensures result.Ok? ==> ValidIdentity(result.value.config) && ValidMutation(mutation, format.draftOk)
      ensures OnlyBackup(env, BytesOf(old(Now().main)))
      ensures !env.fails(Of(RemoveTemp)) ==> Now().temps == old(Now().temps)
      ensures result.Ok? && Migrates(old(Now().main), format) ==>
                confirmed && old(Now().main).Some? && Now().backup == Some(BackupFile(old(Now().main).value, true))
      ensures Migrates(old(Now().main), format) && !confirmed ==> result.Err? && history == old(history)
      ensures result.Err? ==> WhyNotReady(env, old(Now()), format, mutation, confirmed, result.error)
      ensures old(NoTempsAhead()) ==> NoTempsAhead()
      ensures result.Ok? ==> !env.fails(Of(ReadMain))
      ensures result.Ok? && result.value.version == V1 ==>
                confirmed && BackupWorks(env, old(Now().backup), BytesOf(old(Now().main)))
      ensures old(NoTempsAhead()) && old(Ready(env, Now(), format, mutation, confirmed)) ==> result.Ok?
    {
      hide ValidIdentity, ValidMutation, Fails;
      var read := LoadPath(env, format, ReadMain);
      if read.Err? {
        return read;
      }
      if !ValidIdentity(read.value.config) || !ValidMutation(mutation, format.draftOk) {
        return Err(InvalidProfile);
      }
      if read.value.version == V1 {
        if !confirmed {
          return Err(MigrationConfirmationRequired);
        }
        var failed := WriteBackup(env, BytesOf(read.value.original));
        if failed.Some? {
          return Err(failed.value);
        }
      }
      return read;
    }

    /** The second half: the mutation is applied, written and observed. */
    method Commit(env: Environment, format: Format, loaded: Loaded, mutation: Mutation)
      returns (result: Result<Outcome, ConfigError>)
      requires Sound(format) && loaded.original == Now().main
      requires ValidIdentity(loaded.config) && ValidMutation(mutation, format.draftOk)
      modifies this
      ensures OnlyMain(env, if result.Ok? then Now().main else None)
      ensures !env.fails(Of(RemoveTemp)) ==> Now().temps == old(Now().temps)
      ensures result.Err? ==> MainLeft(old(Now().main), Now().main, env)
      ensures result.Err? ==> match result.error
                              case Refused(error) => Fails(loaded.config.profiles, mutation, error)
                              case Unwritable => exists config: Config :: format.encode(config).None?
                              case error =>
                                && MainError(env, error)
                                && (error == Changed ==> env.otherMain.Some? && env.otherMain.value != old(Now().main))
      ensures result.Ok? ==> Replaced(env, format, loaded.config, mutation, result.value)
      ensures result.Ok? ==> (result.value.backedUp <==> loaded.version == V1)
      ensures result.Ok? && !env.fails(Of(ReadMain)) ==> MainWorks(env, old(Now().main))
      ensures result.Ok? ==> forall error :: !Fails(loaded.config.profiles, mutation, error)
      ensures old(sequence) !in old(Now().temps) && MainWorks(env, old(Now().main))
              && (forall error :: !Fails(loaded.config.profiles, mutation, error))
              && (forall config: Config :: format.encode(config).Some?)
              ==>
                result.Ok?
    {
      hide ValidIdentity, ValidMutation, Applied, Fails;
      var applied, id := ApplyMutation(loaded.config.profiles, mutation);
      if applied.Err? {
        return Err(Refused(applied.error));
      }
      var config := Config(CURRENT_CONFIG_VERSION, applied.value);
      MutationKept(loaded.config, mutation, format.draftOk, applied.value, id);
      if !ValidIdentity(config) {
        return Err(InvalidProfile);
      }
      var text := format.encode(config);
      if text.None? {
        return Err(Unwritable);
      }
      var written := WriteMain(env, text.value, loaded.original);
      if written.Err? {
        return Err(written.error);
      }
      var observed := ObserveMain(env, format);
      var state := if observed.None? then CommittedDurabilityUnknown else written.value;
      result := Ok(Outcome(state, observed, loaded.version == V1, id));
      assert format.parse(text.value) == Some(Parsed(config, V2));
    }

    /** `mutate_path`. */
    method MutatePath(env: Environment, format: Format, mutation: Mutation, confirmed: bool)
      returns (result: Result<Outcome, ConfigError>)
      requires Sound(format)
      modifies this
      ensures AlwaysSafe(env, format, if result.Ok? then Now().main else None)
      ensures result.Err? ==> MainLeft(old(Now().main), Now().main, env)
      ensures result.Ok? ==>
                && SourceOf(old(Now().main), format).Some?
                && Replaced(env, format, SourceOf(old(Now().main), format).value.config, mutation, result.value)
      ensures result.Ok? ==> (result.value.backedUp <==> Migrates(old(Now().main), format))
      ensures result.Ok? && result.value.backedUp ==>
                confirmed && old(Now().main).Some? && Now().backup == Some(BackupFile(old(Now().main).value, true))
      ensures !env.fails(Of(RemoveTemp)) ==> Now().temps == old(Now().temps)
      ensures Migrates(old(Now().main), format) && !confirmed ==> result.Err? && history == old(history)
      ensures result.Err? ==> WhyNotReady(env, old(Now()), format, mutation, confirmed, result.error)
      ensures result.Ok? ==> old(Ready(env, Now(), format, mutation, confirmed))
      ensures old(Ready(env, Now(), format, mutation, confirmed)) && old(NoTempsAhead())
              && (forall config: Config :: format.encode(config).Some?)
              ==>
                result.Ok?
    {
      hide ValidIdentity, ValidMutation, Applied, Fails, Sound;
      var read := Prepare(env, format, mutation, confirmed);
      if read.Err? {
        return Err(read.error);
      }
      result := Commit(env, format, read.value, mutation);
    }
  }

  lemma MutationKept(config: Config, mutation: Mutation, draftOk: ConnectionProfile -> bool,
                     after: seq<ConnectionProfile>, id: string)
    requires ValidIdentity(config) && ValidMutation(mutation, draftOk) && Applied(config.profiles, mutation, after, id)
    requires mutation.CreateAuto? && ValidId(mutation.baseId) ==> ValidId(id)
    ensures ValidIdentity(Config(CURRENT_CONFIG_VERSION, after))
  {
    hide ValidId, Applied, ValidIdentity;
    MutationKeepsIdentity(config, mutation, draftOk, after, id);
  }
}
