/** applyMigrations: bring a database to the schema version of this build, one transaction a migration
    file, over any number of failures and restarts and under builds old and new. */
module Migrations {
  import opened Prelude
  import GoText

  /** A directory entry; script stands for the schema change its SQL makes. */
  datatype File = File(name: string, isDir: bool, script: int)

  /** What becomes of the transaction of one file: nothing goes wrong, or it fails and rolls back. */
  datatype Env = Env(readVersionFails: bool, readDirFails: bool, transactionFails: seq<bool>)

  datatype MigrationError = NewerSchema | ReadFailed | BadName | NotSequential | TransactionFailed | WrongCount

  /** The number before the first '_' of a file name, if there is one. */
  function VersionOf(name: string): Result<int, MigrationError> {
    match GoText.IndexOf(name, '_')
    case None => Err(BadName)
    case Some(i) =>
      match GoText.Atoi(name[..i])
      case None => Err(NotSequential)
      case Some(v) => Ok(v)
  }

  /** What stands before the first '_' decides: it must be a decimal number, and without a '_' there is none. */
  lemma VersionIsThePrefix(prefix: string, rest: string)
    requires '_' !in prefix
    ensures VersionOf(prefix) == Err(BadName)
    ensures VersionOf(prefix + ("_" + rest))
         == match GoText.Atoi(prefix) case None => Err(NotSequential) case Some(v) => Ok(v)
  {
    var name := prefix + ("_" + rest);
    GoText.IndexOfIsFirst(prefix, '_');
    GoText.IndexOfIsFirst(name, '_');
    assert name[|prefix|] == '_' && name[..|prefix|] == prefix;
    assert forall i :: 0 <= i < |prefix| ==> name[i] == prefix[i] && prefix[i] in prefix;
  }

  predicate IsMigration(f: File) {
    !f.isDir && GoText.HasSuffix(f.name, ".sql")
  }

  /** The migration files of a directory listing, in order. */
  function MigrationsOf(files: seq<File>): seq<File> {
    if files == [] then []
    else (if IsMigration(files[0]) then [files[0]] else []) + MigrationsOf(files[1..])
  }

  /** Every build ships the same script under the same number. */
  ghost predicate FollowsCatalog(files: seq<File>, catalog: int -> int) {
    forall f :: f in files && IsMigration(f) && VersionOf(f.name).Ok? ==> f.script == catalog(VersionOf(f.name).value)
  }

  /** The schema of version v: scripts 1..v, in order, each once. */
  function SchemaOf(catalog: int -> int, v: int): seq<int> {
    if v <= 0 then [] else SchemaOf(catalog, v - 1) + [catalog(v)]
  }

  /** What the database holds: PRAGMA user_version and the scripts applied so far. */
  datatype State = State(userVersion: int, schema: seq<int>)

  ghost predicate UpToVersion(s: State, catalog: int -> int) {
    s.schema == SchemaOf(catalog, s.userVersion)
  }

  /** One transaction: script and version become durable together or not at all. */
  function MigrateTx(s: State, script: int, version: int, fails: bool): State {
    if fails then s else State(version, s.schema + [script])
  }

  /** The loop over the remaining files, after lastVersion files of a listing were accepted. */
  function ApplyFiles(s: State, files: seq<File>, fails: seq<bool>, current: int, lastVersion: int,
                      supported: int): (State, Option<MigrationError>)
    requires |fails| == |files|
    decreases |files|
  {
    if files == [] then (s, if lastVersion != supported then Some(WrongCount) else None)
    else if !IsMigration(files[0]) then ApplyFiles(s, files[1..], fails[1..], current, lastVersion, supported)
    else
      match VersionOf(files[0].name)
      case Err(e) => (s, Some(e))
      case Ok(version) =>
        if version != lastVersion + 1 then (s, Some(NotSequential))
        else if version <= current then ApplyFiles(s, files[1..], fails[1..], current, version, supported)
        else if fails[0] then (s, Some(TransactionFailed))
        else
          var next := MigrateTx(s, files[0].script, version, false);
          ApplyFiles(next, files[1..], fails[1..], current, version, supported)
  }

  /** One start of a build: its files, sorted by name, and its CurrentSchemaVersion. */
  datatype Start = Start(files: seq<File>, supported: int, env: Env)

  predicate WellFormed(b: Start) {
    b.supported > 0 && |b.env.transactionFails| == |b.files|
  }

  function Open(s: State, b: Start): (State, Option<MigrationError>)
    requires WellFormed(b)
  {
    if b.env.readVersionFails then (s, Some(ReadFailed))
    else if s.userVersion > b.supported then (s, Some(NewerSchema))
    else if b.env.readDirFails then (s, Some(ReadFailed))
    else ApplyFiles(s, b.files, b.env.transactionFails, s.userVersion, 0, b.supported)
  }

  // ---- the migration as it runs ------------------------------------------------------------------------

  class Database {
    var userVersion: int
    var schema: seq<int>

    constructor (userVersion: int, schema: seq<int>)
      ensures this.userVersion == userVersion && this.schema == schema
    {
      this.userVersion, this.schema := userVersion, schema;
    }

    function View(): State
      reads this
    {
      State(userVersion, schema)
    }

    method Migrate(script: int, version: int, fails: bool) returns (ok: bool)
      modifies this
      ensures ok == !fails && View() == MigrateTx(old(View()), script, version, fails)
    {
      var savedSchema, savedVersion := schema, userVersion;
      schema := schema + [script];
      userVersion := version;
      if fails {
        schema, userVersion := savedSchema, savedVersion;
        return false;
      }
      return true;
    }

    method ApplyMigrations(b: Start) returns (r: Option<MigrationError>)
      requires WellFormed(b)
      modifies this
      ensures (View(), r) == Open(old(View()), b)
    {
      if b.env.readVersionFails { return Some(ReadFailed); }
      var currentVersion := userVersion;
      if currentVersion > b.supported { return Some(NewerSchema); }
      if b.env.readDirFails { return Some(ReadFailed); }
      ghost var goal := Open(View(), b);
      var lastVersion := 0;
      for i := 0 to |b.files|
        invariant goal == ApplyFiles(View(), b.files[i..], b.env.transactionFails[i..], currentVersion,
            lastVersion, b.supported)
      {
        assert b.files[i..][1..] == b.files[i + 1..] && b.env.transactionFails[i..][1..]
          == b.env.transactionFails[i + 1..];
        var entry := b.files[i];
        if entry.isDir || !GoText.HasSuffix(entry.name, ".sql") { continue; }
        var version := VersionOf(entry.name);
        if version.Err? { return Some(version.error); }
        if version.value != lastVersion + 1 { return Some(NotSequential); }
        lastVersion := version.value;
        if version.value <= currentVersion { continue; }
        var ok := Migrate(entry.script, version.value, b.env.transactionFails[i]);
        if !ok { return Some(TransactionFailed); }
      }
      if lastVersion != b.supported { return Some(WrongCount); }
      return None;
    }
  }

  // ---- what any number of starts keeps -----------------------------------------------------------------

  /** Where the loop stands: version and schema agree, and the version is the last one applied. */
  ghost predicate LoopOk(s: State, catalog: int -> int, current: int, lastVersion: int) {
    && UpToVersion(s, catalog)
    && lastVersion >= 0
    && s.userVersion == if lastVersion > 0 && lastVersion > current then lastVersion else current
  }

  lemma {:induction false} LoopKeeps(s: State, files: seq<File>, fails: seq<bool>, current: int, lastVersion: int,
                                     supported: int, catalog: int -> int)
    requires |fails| == |files| && LoopOk(s, catalog, current, lastVersion) && FollowsCatalog(files, catalog)
    ensures var (next, r) := ApplyFiles(s, files, fails, current, lastVersion, supported);
            && UpToVersion(next, catalog)
            && next.userVersion >= s.userVersion
            && (r.None? ==> next.userVersion == if supported > 0 && supported > current then supported else current)
    decreases |files|
  {
    if files != [] {
      assert files[0] in files;
      if IsMigration(files[0]) {
        match VersionOf(files[0].name)
        case Err(_) =>
        case Ok(version) =>
          if version == lastVersion + 1 {
            var next := if version <= current then s else MigrateTx(s, files[0].script, version, false);
            LoopKeeps(next, files[1..], fails[1..], current, version, supported, catalog);
          }
      } else {
        LoopKeeps(s, files[1..], fails[1..], current, lastVersion, supported, catalog);
      }
    }
  }

  /** The migration files of a listing are numbered from + 1, from + 2, ... */
  ghost predicate SequentialAfter(files: seq<File>, from: int) {
    forall i :: 0 <= i < |MigrationsOf(files)| ==> VersionOf(MigrationsOf(files)[i].name) == Ok(from + i + 1)
  }

  /** Every transaction the loop would start for a file above the current version goes through. */
  ghost predicate NeededSucceed(files: seq<File>, fails: seq<bool>, current: int)
    requires |fails| == |files|
  {
    forall i :: 0 <= i < |files| && IsMigration(files[i]) && VersionOf(files[i].name).Ok? && fails[i]
      ==> VersionOf(files[i].name).value <= current
  }

  /** File by file: the next number is next in line, and its transaction succeeds if it is needed. */
  ghost predicate Clean(files: seq<File>, fails: seq<bool>, current: int, lastVersion: int, supported: int)
    requires |fails| == |files|
    decreases |files|
  {
    if files == [] then lastVersion == supported
    else if !IsMigration(files[0]) then Clean(files[1..], fails[1..], current, lastVersion, supported)
    else
      && VersionOf(files[0].name) == Ok(lastVersion + 1)
      && (fails[0] ==> lastVersion + 1 <= current)
      && Clean(files[1..], fails[1..], current, lastVersion + 1, supported)
  }

  lemma {:induction false} LoopSucceedsWhenClean(s: State, files: seq<File>, fails: seq<bool>, current: int,
                                                 lastVersion: int, supported: int)
    requires |fails| == |files|
    ensures ApplyFiles(s, files, fails, current, lastVersion, supported).1.None?
       <==> Clean(files, fails, current, lastVersion, supported)
    decreases |files|
  {
    if files != [] {
      if !IsMigration(files[0]) {
        LoopSucceedsWhenClean(s, files[1..], fails[1..], current, lastVersion, supported);
      } else if VersionOf(files[0].name) == Ok(lastVersion + 1) {
        var next := if lastVersion + 1 <= current then s else MigrateTx(s, files[0].script, lastVersion + 1, false);
        LoopSucceedsWhenClean(next, files[1..], fails[1..], current, lastVersion + 1, supported);
      }
    }
  }

  lemma {:induction false} CleanMeaning(files: seq<File>, fails: seq<bool>, current: int, lastVersion: int,
                                        supported: int)
    requires |fails| == |files|
    ensures Clean(files, fails, current, lastVersion, supported)
       <==> && SequentialAfter(files, lastVersion) && lastVersion + |MigrationsOf(files)| == supported
            && NeededSucceed(files, fails, current)
    decreases |files|
  {
    if files != [] {
      HeadAndTail(files, fails, current);
      if IsMigration(files[0]) {
        SequentialHead(files, lastVersion);
        CleanMeaning(files[1..], fails[1..], current, lastVersion + 1, supported);
      } else {
        SkippedHead(files, lastVersion);
        CleanMeaning(files[1..], fails[1..], current, lastVersion, supported);
      }
    }
  }

  /** The loop succeeds exactly when the files are numbered without gaps up to the supported version and
      no transaction it needs fails. */
  lemma LoopSucceedsExactly(s: State, files: seq<File>, fails: seq<bool>, current: int, lastVersion: int,
                            supported: int)
    requires |fails| == |files|
    ensures ApplyFiles(s, files, fails, current, lastVersion, supported).1.None?
       <==> && SequentialAfter(files, lastVersion) && lastVersion + |MigrationsOf(files)| == supported
            && NeededSucceed(files, fails, current)
  {
    LoopSucceedsWhenClean(s, files, fails, current, lastVersion, supported);
    CleanMeaning(files, fails, current, lastVersion, supported);
  }

  lemma SkippedHead(files: seq<File>, from: int)
    requires files != [] && !IsMigration(files[0])
    ensures MigrationsOf(files) == MigrationsOf(files[1..])
    ensures SequentialAfter(files, from) <==> SequentialAfter(files[1..], from)
  {
  }

  lemma HeadAndTail(files: seq<File>, fails: seq<bool>, current: int)
    requires |fails| == |files| > 0
    ensures NeededSucceed(files, fails, current)
       <==> && (IsMigration(files[0]) && VersionOf(files[0].name).Ok? && fails[0] ==>
                  VersionOf(files[0].name).value <= current)
            && NeededSucceed(files[1..], fails[1..], current)
  {
    if NeededSucceed(files[1..], fails[1..], current) {
      forall i | 0 < i < |files| && IsMigration(files[i]) && VersionOf(files[i].name).Ok? && fails[i]
        ensures VersionOf(files[i].name).value <= current
      {
        assert files[1..][i - 1] == files[i] && fails[1..][i - 1] == fails[i];
      }
    }
    if NeededSucceed(files, fails, current) {
      forall i | 0 <= i < |files| - 1 && IsMigration(files[1..][i]) && VersionOf(files[1..][i].name).Ok?
                 && fails[1..][i]
        ensures VersionOf(files[1..][i].name).value <= current
      {
        assert files[1..][i] == files[i + 1] && fails[1..][i] == fails[i + 1];
      }
    }
  }

  lemma SequentialHead(files: seq<File>, from: int)
    requires files != [] && IsMigration(files[0])
    ensures SequentialAfter(files, from)
        <==> VersionOf(files[0].name) == Ok(from + 1) && SequentialAfter(files[1..], from + 1)
  {
    var ms, rest := MigrationsOf(files), MigrationsOf(files[1..]);
    assert ms == [files[0]] + rest;
    if SequentialAfter(files, from) {
      assert VersionOf(ms[0].name) == Ok(from + 0 + 1);
      forall i | 0 <= i < |rest|
        ensures VersionOf(rest[i].name) == Ok(from + 1 + i + 1)
      {
        assert rest[i] == ms[i + 1];
      }
    }
    if VersionOf(files[0].name) == Ok(from + 1) && SequentialAfter(files[1..], from + 1) {
      forall i | 0 <= i < |ms| ensures VersionOf(ms[i].name) == Ok(from + i + 1) {
        if i > 0 { assert ms[i] == rest[i - 1]; }
      }
    }
  }

  /** A start succeeds exactly when the schema is not newer than the build, nothing it reads or needs
      fails, and its files are numbered 1..supported; and then the schema is the supported one. */
  lemma OpenSucceedsExactly(s: State, b: Start, catalog: int -> int)
    requires WellFormed(b) && UpToVersion(s, catalog) && FollowsCatalog(b.files, catalog)
    ensures Open(s, b).1.None?
       <==> && s.userVersion <= b.supported && !b.env.readVersionFails && !b.env.readDirFails
            && SequentialAfter(b.files, 0) && |MigrationsOf(b.files)| == b.supported
            && NeededSucceed(b.files, b.env.transactionFails, s.userVersion)
    ensures Open(s, b).1.None? ==> Open(s, b).0 == State(b.supported, SchemaOf(catalog, b.supported))
    ensures s.userVersion > b.supported ==> Open(s, b).0 == s && Open(s, b).1.Some?
  {
    LoopKeeps(s, b.files, b.env.transactionFails, s.userVersion, 0, b.supported, catalog);
    LoopSucceedsExactly(s, b.files, b.env.transactionFails, s.userVersion, 0, b.supported);
  }

  // ---- where a start stops -----------------------------------------------------------------------------

  /** What is wrong with a file where number next is expected: its name, its number, or its transaction, if that is
      needed. */
  function ObstacleAt(f: File, fails: bool, current: int, next: int): Option<MigrationError> {
    if !IsMigration(f) then None
    else
      match VersionOf(f.name)
      case Err(e) => Some(e)
      case Ok(version) =>
        if version != next then Some(NotSequential)
        else if version > current && fails then Some(TransactionFailed) else None
  }

  /** How many of the first i files are migrations. */
  function MigrationsBefore(files: seq<File>, i: nat): nat
    requires i <= |files|
  {
    if i == 0 then 0 else MigrationsBefore(files[1..], i - 1) + (if IsMigration(files[0]) then 1 else 0)
  }

  /** File i is the first with something wrong. */
  ghost predicate FirstObstacle(files: seq<File>, fails: seq<bool>, current: int, lastVersion: int, i: nat,
                                error: MigrationError)
    requires |fails| == |files|
  {
    && i < |files|
    && ObstacleAt(files[i], fails[i], current, lastVersion + MigrationsBefore(files, i) + 1) == Some(error)
    && forall j: nat :: j < i ==> NoObstacle(files, fails, current, lastVersion, j)
  }

  ghost predicate NoObstacle(files: seq<File>, fails: seq<bool>, current: int, lastVersion: int, j: nat)
    requires |fails| == |files| && j < |files|
  {
    ObstacleAt(files[j], fails[j], current, lastVersion + MigrationsBefore(files, j) + 1).None?
  }

  lemma LaterObstacle(files: seq<File>, fails: seq<bool>, current: int, lastVersion: int, i: nat,
                      error: MigrationError)
    requires |fails| == |files| && FirstObstacle(files, fails, current, lastVersion, i, error) && i > 0
    ensures FirstObstacle(files[1..], fails[1..], current, lastVersion + MigrationsBefore(files, 1), i - 1, error)
  {
    var next := lastVersion + MigrationsBefore(files, 1);
    CountsOn(files, i);
    forall j: nat | j < i - 1 ensures NoObstacle(files[1..], fails[1..], current, next, j) {
      CountsOn(files, j + 1);
      assert NoObstacle(files, fails, current, lastVersion, j + 1);
      assert files[1..][j] == files[j + 1] && fails[1..][j] == fails[j + 1];
    }
    assert files[1..][i - 1] == files[i] && fails[1..][i - 1] == fails[i];
  }

  lemma CountsOn(files: seq<File>, i: nat)
    requires 0 < i <= |files|
    ensures MigrationsBefore(files, i) == MigrationsBefore(files, 1) + MigrationsBefore(files[1..], i - 1)
  {
    assert MigrationsBefore(files[1..], 0) == 0;
  }

  /** A file with nothing wrong is passed over or applied. */
  lemma OneFile(s: State, files: seq<File>, fails: seq<bool>, current: int, lastVersion: int, supported: int)
    returns (next: State)
    requires |fails| == |files| > 0 && ObstacleAt(files[0], fails[0], current, lastVersion + 1).None?
    ensures next == if !IsMigration(files[0]) || lastVersion + 1 <= current then s
                    else MigrateTx(s, files[0].script, lastVersion + 1, false)
    ensures IsMigration(files[0]) ==> VersionOf(files[0].name) == Ok(lastVersion + 1)
    ensures ApplyFiles(s, files, fails, current, lastVersion, supported)
         == ApplyFiles(next, files[1..], fails[1..], current, lastVersion + MigrationsBefore(files, 1), supported)
  {
    assert MigrationsBefore(files[1..], 0) == 0;
    next := if !IsMigration(files[0]) || lastVersion + 1 <= current then s
            else MigrateTx(s, files[0].script, lastVersion + 1, false);
  }

  lemma StopsHere(s: State, files: seq<File>, fails: seq<bool>, current: int, lastVersion: int, supported: int,
                  error: MigrationError)
    requires |fails| == |files| > 0 && ObstacleAt(files[0], fails[0], current, lastVersion + 1) == Some(error)
    ensures ApplyFiles(s, files, fails, current, lastVersion, supported) == (s, Some(error))
  {
  }

  lemma OneMore(s: State, next: State, f: File, catalog: int -> int, current: int, lastVersion: int)
    requires LoopOk(s, catalog, current, lastVersion) && f.script == catalog(lastVersion + 1)
    requires next == if lastVersion + 1 <= current then s else MigrateTx(s, f.script, lastVersion + 1, false)
    ensures LoopOk(next, catalog, current, lastVersion + 1)
  {
  }

  lemma {:induction false} LoopStops(s: State, files: seq<File>, fails: seq<bool>, current: int, lastVersion: int,
                                     supported: int, catalog: int -> int, i: nat, error: MigrationError)
    requires |fails| == |files| && LoopOk(s, catalog, current, lastVersion) && FollowsCatalog(files, catalog)
    requires FirstObstacle(files, fails, current, lastVersion, i, error)
    ensures var (next, r) := ApplyFiles(s, files, fails, current, lastVersion, supported);
            r == Some(error) && LoopOk(next, catalog, current, lastVersion + MigrationsBefore(files, i))
    decreases |files|
  {
    if i == 0 {
      StopsHere(s, files, fails, current, lastVersion, supported, error);
    } else {
      assert NoObstacle(files, fails, current, lastVersion, 0);
      assert files[0] in files && forall f :: f in files[1..] ==> f in files;
      var next := OneFile(s, files, fails, current, lastVersion, supported);
      if IsMigration(files[0]) { OneMore(s, next, files[0], catalog, current, lastVersion); }
      LaterObstacle(files, fails, current, lastVersion, i, error);
      CountsOn(files, i);
      LoopStops(next, files[1..], fails[1..], current, lastVersion + MigrationsBefore(files, 1), supported, catalog,
                i - 1, error);
    }
  }

  /** A start that reads version and files stops with the error of the first file with something wrong, and the schema
      then holds every migration before that file, or the old ones if these are more. */
  lemma FailedStartKeepsEarlierFiles(s: State, b: Start, catalog: int -> int, i: nat, error: MigrationError)
    requires WellFormed(b) && UpToVersion(s, catalog) && FollowsCatalog(b.files, catalog)
    requires !b.env.readVersionFails && !b.env.readDirFails && s.userVersion <= b.supported
    requires FirstObstacle(b.files, b.env.transactionFails, s.userVersion, 0, i, error)
    ensures var reached := MigrationsBefore(b.files, i);
            var version := if reached > 0 && reached > s.userVersion then reached else s.userVersion;
            Open(s, b) == (State(version, SchemaOf(catalog, version)), Some(error))
  {
    LoopStops(s, b.files, b.env.transactionFails, s.userVersion, 0, b.supported, catalog, i, error);
  }

  function RunStarts(s: State, starts: seq<Start>): State
    requires forall b :: b in starts ==> WellFormed(b)
    decreases |starts|
  {
    if starts == [] then s else RunStarts(Open(s, starts[0]).0, starts[1..])
  }

  /** Over any number of starts, by builds old and new, with any transactions failing: the schema is always
      exactly migrations 1..user_version in order, each once, and user_version never decreases. */
  lemma {:induction false} SchemaAlwaysMatchesVersion(s: State, starts: seq<Start>, catalog: int -> int)
    requires UpToVersion(s, catalog)
    requires forall b :: b in starts ==> WellFormed(b) && FollowsCatalog(b.files, catalog)
    ensures UpToVersion(RunStarts(s, starts), catalog) && RunStarts(s, starts).userVersion >= s.userVersion
    decreases |starts|
  {
    if starts != [] {
      var b := starts[0];
      assert b in starts;
      LoopKeeps(s, b.files, b.env.transactionFails, s.userVersion, 0, b.supported, catalog);
      SchemaAlwaysMatchesVersion(Open(s, b).0, starts[1..], catalog);
    }
  }
}
