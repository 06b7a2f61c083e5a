/**
 * The storage façade: for every storage target of a model it builds the per-target state
 * (cycler name, file-key inventory, retention count), picks a backend driver by the
 * configured type, and runs open -> upload -> retention hand-off -> close; it aggregates
 * the failures of several targets; and it lists and downloads through the model's
 * default storage.
 *
 * Backend drivers are not modelled: each target's driver is a `Driver` value holding
 * the replies it gives to `open`, `upload`, `list` and `download`. What the façade does
 * to the outside world is recorded as a trace of `Event`s, so that "never uploads",
 * "still closes" and "calls the cycler exactly once" are statements about traces. The
 * retention cycler itself is not modelled either: its invocation is recorded with its
 * arguments (`CyclerRan`).
 *
 * A Go panic (a failed directory read while building a target, or calling `open` on the
 * nil backend left by an unknown storage type) is the outcome `Panicked`; it unwinds
 * out of `Run` at once.
 */
module Storage {
  import opened Wrappers
  import Text
  import Paths

  /** A point in time (Go's `time.Time`), as an integer. */
  type Time = int

  /** Metadata of one stored artifact, as a backend lists it. */
  datatype FileItem = FileItem(filename: string, size: int, lastModified: Time)

  /**
   * A storage sub-configuration: its type tag (`Type`), its instance name (`Name`), and
   * its integer settings, `None` when the section carries no settings (a nil viper).
   */
  datatype SubConfig = SubConfig(kind: string, name: string, settings: Option<map<string, int>>)

  /**
   * What the façade reads of a model's configuration. `storages` is Go's `Storages` map
   * as (key, sub-configuration) pairs in the order the map happens to be iterated; that
   * order is unspecified in Go, so nothing below relies on a particular one.
   */
  datatype ModelConfig = ModelConfig(name: string, storages: seq<(string, SubConfig)>, defaultStorage: string)

  /** One entry of a directory listing. */
  datatype DirEntry = DirEntry(name: string, isDir: bool)

  /** What `os.Stat` and `os.ReadDir` find at a path. */
  datatype PathState =
    | NoDirectory                        // the path is missing or is not a directory
    | Directory(entries: seq<DirEntry>)  // a readable directory and its entries, in listing order
    | UnreadableDirectory(reason: string)

  datatype Error =
    | DriverError(reason: string)        // an error a backend driver returned
    | ReadDirFailed(reason: string)
    | StorageNotFound(name: string)      // "Storage <name> not found"
    | Aggregate(errors: seq<Error>)      // "Storage errors: [...]"

  datatype Panic =
    | ConstructionFailed(cause: Error)   // `new` panics when `newBase` fails
    | NilStorage(kind: string)           // `open` called on the nil backend of an unknown type

  datatype Outcome<T> = Done(value: T) | Failed(error: Error) | Panicked(panic: Panic)

  /** The replies a target's backend driver gives, one per operation. */
  datatype Driver = Driver(
    open: Option<Error>,
    upload: Option<Error>,
    list: Result<seq<FileItem>, Error>,
    download: Result<string, Error>)

  /** The backend variants; `S3` serves both Amazon S3 and MinIO. */
  datatype Backend = Local | FTP | SCP | SFTP | S3(service: string)

  /** The arguments of one call of the retention cycler. */
  datatype CyclerCall = CyclerCall(cycler: string, newFileKey: string, fileKeys: seq<string>, keep: int)

  /** What the façade does to a backend, in order. */
  datatype Event =
    | Opened
    | Uploaded(fileKey: string)
    | CyclerRan(call: CyclerCall)
    | Listed(parent: string)
    | DownloadRequested(fileKey: string)
    | Closed

  /** The per-target state `newBase` builds. */
  datatype Base = Base(archivePath: string, fileKeys: seq<string>, keep: int, cyclerName: string)

  /** One target's attempt within `Run`: the storage key and what happened to its backend. */
  datatype Attempt = Attempt(storage: string, events: seq<Event>)

  // ---------------------------------------------------------------------------
  // newBase

  /**
   * The cycler's name: the model's name alone when the storage has no name (the older
   * `store_with` configuration), otherwise `<model>_<storage>`.
   */
  function CyclerName(modelName: string, storageName: string): (name: string)
  {
    if storageName == "" then modelName else modelName + "_" + storageName
  }

  /** The retention count: the `keep` setting, 0 when it or the whole settings section is absent. */
  function Keep(settings: Option<map<string, int>>): (keep: int)
  {
    match settings
    case None => 0
    case Some(m) => if "keep" in m then m["keep"] else 0
  }

  /** The file key of an entry of the archive directory: `<base of archivePath>/<entry name>`. */
  function EntryKey(archivePath: string, e: DirEntry): string
  {
    Paths.Join(Paths.Base(archivePath), e.name)
  }

  /** The keys of the non-directory entries, in listing order. */
  function FileKeys(archivePath: string, entries: seq<DirEntry>): (keys: seq<string>)
  {
    if entries == [] then []
    else
      var last := entries[|entries| - 1];
      FileKeys(archivePath, entries[..|entries| - 1])
      + (if last.isDir then [] else [EntryKey(archivePath, last)])
  }

  /** How many entries are not directories. */
  function FileCount(entries: seq<DirEntry>): nat
  {
    if entries == [] then 0
    else FileCount(entries[..|entries| - 1]) + (if entries[|entries| - 1].isDir then 0 else 1)
  }

  /** `newBase`, as a value: the base built from the state of the archive path. */
  function BaseOf(modelName: string, archivePath: string, cfg: SubConfig, stat: PathState): (r: Result<Base, Error>)
  {
    var name := CyclerName(modelName, cfg.name);
    var keep := Keep(cfg.settings);
    match stat
    case NoDirectory => Success(Base(archivePath, [], keep, name))
    case Directory(entries) => Success(Base(archivePath, FileKeys(archivePath, entries), keep, name))
    case UnreadableDirectory(reason) => Failure(ReadDirFailed(reason))
  }

  /**
   * Go's `newBase`: names the cycler, reads the retention count, and, when the archive
   * path is a directory, collects a key for each of its non-directory entries.
   */
  method NewBase(modelName: string, archivePath: string, cfg: SubConfig, stat: PathState)
    returns (r: Result<Base, Error>)
    ensures r == BaseOf(modelName, archivePath, cfg, stat)
  {
    var keys: seq<string> := [];
    if stat.UnreadableDirectory? {
      return Failure(ReadDirFailed(stat.reason));
    }
    if stat.Directory? {
      var entries := stat.entries;
      var i := 0;
      while i < |entries|
        invariant 0 <= i <= |entries|
        invariant keys == FileKeys(archivePath, entries[..i])
      {
        assert entries[..i + 1][..i] == entries[..i];
        if !entries[i].isDir {
          keys := keys + [Paths.Join(Paths.Base(archivePath), entries[i].name)];
        }
        i := i + 1;
      }
      assert entries[..i] == entries;
    }
    r := Success(Base(archivePath, keys, Keep(cfg.settings), CyclerName(modelName, cfg.name)));
  }

  /** There is one key per non-directory entry. */
  lemma {:induction false} FileKeysCount(archivePath: string, entries: seq<DirEntry>)
    ensures |FileKeys(archivePath, entries)| == FileCount(entries)
  {
    if entries != [] {
      FileKeysCount(archivePath, entries[..|entries| - 1]);
    }
  }

  /**
   * Listing order is kept: the `i`-th entry, when it is not a directory, gives the key
   * at the position that counts the non-directory entries before it. In particular
   * every non-directory entry's key is in the inventory.
   */
  lemma {:induction false} FileKeysInOrder(archivePath: string, entries: seq<DirEntry>, i: nat)
    requires i < |entries| && !entries[i].isDir
    ensures FileCount(entries[..i]) < |FileKeys(archivePath, entries)|
    ensures FileKeys(archivePath, entries)[FileCount(entries[..i])] == EntryKey(archivePath, entries[i])
  {
    var init := entries[..|entries| - 1];
    FileKeysCount(archivePath, entries);
    FileKeysCount(archivePath, init);
    if i == |entries| - 1 {
      assert entries[..i] == init;
    } else {
      assert init[..i] == entries[..i];
      FileKeysInOrder(archivePath, init, i);
    }
  }

  /** Every key in the inventory comes from a non-directory entry: `i` is one such entry. */
  lemma {:induction false} FileKeysSource(archivePath: string, entries: seq<DirEntry>, k: string) returns (i: nat)
    requires k in FileKeys(archivePath, entries)
    ensures i < |entries| && !entries[i].isDir && EntryKey(archivePath, entries[i]) == k
  {
    var init := entries[..|entries| - 1];
    if k in FileKeys(archivePath, init) {
      i := FileKeysSource(archivePath, init, k);
      assert entries[i] == init[i];
    } else {
      i := |entries| - 1;
    }
  }

  /**
   * What `newBase` promises: the cycler name, the retention count, and an inventory that
   * is empty unless the archive path is a readable directory.
   */
  lemma BaseFacts(modelName: string, archivePath: string, cfg: SubConfig, stat: PathState)
    ensures BaseOf(modelName, archivePath, cfg, stat).Failure? <==> stat.UnreadableDirectory?
    ensures BaseOf(modelName, archivePath, cfg, stat).Success? ==>
              var b := BaseOf(modelName, archivePath, cfg, stat).value;
              && b.archivePath == archivePath
              && b.cyclerName == (if cfg.name == "" then modelName else modelName + "_" + cfg.name)
              && b.keep == (if cfg.settings.Some? && "keep" in cfg.settings.value then cfg.settings.value["keep"] else 0)
              && (b.fileKeys != [] ==> stat.Directory?)
  {
  }

  // ---------------------------------------------------------------------------
  // new: backend dispatch

  /** The storage types that have a backend. */
  const Kinds: set<string> := {"local", "ftp", "scp", "sftp", "s3", "minio"}

  /** The type switch of `new`; `None` is the nil backend left after logging "has not implement". */
  function Dispatch(kind: string): (backend: Option<Backend>)
  {
    match kind
    case "local" => Some(Local)
    case "ftp" => Some(FTP)
    case "scp" => Some(SCP)
    case "sftp" => Some(SFTP)
    case "s3" => Some(S3("s3"))
    case "minio" => Some(S3("minio"))
    case _ => None
  }

  /**
   * Exactly the six known types get a backend; "s3" and "minio" share the S3 backend,
   * which records the type as its service; different types never get the same backend.
   */
  lemma DispatchFacts(kind: string, other: string)
    ensures Dispatch(kind).Some? <==> kind in Kinds
    ensures Dispatch(kind).Some? && Dispatch(kind).value.S3? ==> Dispatch(kind).value.service == kind
    ensures Dispatch(kind).Some? && Dispatch(kind) == Dispatch(other) ==> kind == other
  {
  }

  /** Go's `new`: the base, then the backend; a failed base is a panic. */
  function New(modelName: string, archivePath: string, cfg: SubConfig, stat: PathState)
    : (r: Result<(Base, Option<Backend>), Panic>)
  {
    match BaseOf(modelName, archivePath, cfg, stat)
    case Failure(e) => Failure(ConstructionFailed(e))
    case Success(base) => Success((base, Dispatch(cfg.kind)))
  }

  /**
   * `new` panics exactly when the archive directory cannot be read, carrying that read
   * error; otherwise it leaves a nil backend exactly for an unknown storage type.
   */
  lemma NewFacts(modelName: string, archivePath: string, cfg: SubConfig, stat: PathState)
    ensures New(modelName, archivePath, cfg, stat).Failure? <==> stat.UnreadableDirectory?
    ensures stat.UnreadableDirectory? ==>
              New(modelName, archivePath, cfg, stat) == Failure(ConstructionFailed(ReadDirFailed(stat.reason)))
    ensures New(modelName, archivePath, cfg, stat).Success? ==>
              (New(modelName, archivePath, cfg, stat).value.1.None? <==> cfg.kind !in Kinds)
  {
    DispatchFacts(cfg.kind, cfg.kind);
  }

  // ---------------------------------------------------------------------------
  // runModel: one target

  /**
   * Go's `runModel`: the new file key is the base name of the archive path; open the
   * backend (stop on failure), upload (on failure close and stop), hand the inventory
   * to the cycler, close.
   */
  function RunModel(modelName: string, archivePath: string, cfg: SubConfig, stat: PathState, driver: Driver)
    : (r: (Outcome<()>, seq<Event>))
    ensures r.1 == [] <==> r.0.Panicked?
    ensures r.0.Failed? ==> driver.open == Some(r.0.error) || driver.upload == Some(r.0.error)
  {
    var newFileKey := Paths.Base(archivePath);
    match New(modelName, archivePath, cfg, stat)
    case Failure(p) => (Panicked(p), [])
    case Success((base, backend)) =>
      if backend.None? then (Panicked(NilStorage(cfg.kind)), [])
      else if driver.open.Some? then (Failed(driver.open.value), [Opened])
      else if driver.upload.Some? then (Failed(driver.upload.value), [Opened, Uploaded(newFileKey), Closed])
      else
        var call := CyclerCall(base.cyclerName, newFileKey, base.fileKeys, base.keep);
        (Done(()), [Opened, Uploaded(newFileKey), CyclerRan(call), Closed])
  }

  /** The cycler calls in a trace, in order. */
  function CyclerCalls(events: seq<Event>): seq<CyclerCall>
  {
    if events == [] then []
    else (if events[0].CyclerRan? then [events[0].call] else []) + CyclerCalls(events[1..])
  }

  /** A backend is opened only when it could be built, and opening is the first thing done to it. */
  lemma RunModelOpens(modelName: string, archivePath: string, cfg: SubConfig, stat: PathState, driver: Driver)
    ensures var ev := RunModel(modelName, archivePath, cfg, stat, driver).1;
            && (Opened in ev <==> !stat.UnreadableDirectory? && cfg.kind in Kinds)
            && (ev != [] ==> ev[0] == Opened)
  {
    RunModelTrace(modelName, archivePath, cfg, stat, driver);
    var ev := RunModel(modelName, archivePath, cfg, stat, driver).1;
    if !stat.UnreadableDirectory? && cfg.kind in Kinds {
      assert ev[0] == Opened;
    }
  }

  /** A backend is closed exactly when its `open` succeeded, and closing is the last thing done to it. */
  lemma RunModelCloses(modelName: string, archivePath: string, cfg: SubConfig, stat: PathState, driver: Driver)
    ensures var ev := RunModel(modelName, archivePath, cfg, stat, driver).1;
            && (Closed in ev <==> Opened in ev && driver.open.None?)
            && (Closed in ev ==> ev[|ev| - 1] == Closed)
  {
    RunModelTrace(modelName, archivePath, cfg, stat, driver);
    var ev := RunModel(modelName, archivePath, cfg, stat, driver).1;
    if !stat.UnreadableDirectory? && cfg.kind in Kinds && driver.open.None? {
      assert ev[|ev| - 1] == Closed;
      assert ev[0] == Opened;
    }
  }

  /** Only the archive's base name is uploaded, and only after a successful open. */
  lemma RunModelUploads(modelName: string, archivePath: string, cfg: SubConfig, stat: PathState, driver: Driver)
    ensures var ev := RunModel(modelName, archivePath, cfg, stat, driver).1;
            forall k :: Uploaded(k) in ev ==> k == Paths.Base(archivePath) && driver.open.None?
  {
    RunModelTrace(modelName, archivePath, cfg, stat, driver);
    var ev := RunModel(modelName, archivePath, cfg, stat, driver).1;
    var key := Paths.Base(archivePath);
    if stat.UnreadableDirectory? || cfg.kind !in Kinds {
      assert ev == [];
    } else if driver.open.Some? {
      assert ev == [Opened];
    } else {
      assert forall e :: e in ev ==> !e.Uploaded? || e == Uploaded(key);
    }
  }

  /**
   * The session discipline of one target: a backend is opened only when it could be
   * built; it is closed exactly when its `open` succeeded, and closing is the last thing
   * done to it; only the archive's base name is uploaded, and only after a successful open.
   */
  lemma RunModelSession(modelName: string, archivePath: string, cfg: SubConfig, stat: PathState, driver: Driver)
    ensures var (_, ev) := RunModel(modelName, archivePath, cfg, stat, driver);
            && (Opened in ev <==> !stat.UnreadableDirectory? && cfg.kind in Kinds)
            && (ev != [] ==> ev[0] == Opened)
            && (Closed in ev <==> Opened in ev && driver.open.None?)
            && (Closed in ev ==> ev[|ev| - 1] == Closed)
            && (forall k :: Uploaded(k) in ev ==> k == Paths.Base(archivePath) && driver.open.None?)
  {
    RunModelOpens(modelName, archivePath, cfg, stat, driver);
    RunModelCloses(modelName, archivePath, cfg, stat, driver);
    RunModelUploads(modelName, archivePath, cfg, stat, driver);
  }

  /**
   * The result of one target: a failed `open` is returned and nothing is uploaded or
   * closed; a failed upload is returned and the cycler is not called; otherwise the
   * result is success and the cycler is called exactly once, with the new key, the
   * inventory and the retention count of the target's base.
   */
  lemma RunModelResult(modelName: string, archivePath: string, cfg: SubConfig, stat: PathState, driver: Driver)
    ensures var (out, ev) := RunModel(modelName, archivePath, cfg, stat, driver);
            && (out.Panicked? <==> stat.UnreadableDirectory? || cfg.kind !in Kinds)
            && (!out.Panicked? && driver.open.Some? ==> out == Failed(driver.open.value) && ev == [Opened])
            && (!out.Panicked? && driver.open.None? && driver.upload.Some? ==>
                  out == Failed(driver.upload.value) && CyclerCalls(ev) == [] && Closed in ev)
            && (out.Done? <==> !out.Panicked? && driver.open.None? && driver.upload.None?)
            && (out.Done? ==>
                  var base := BaseOf(modelName, archivePath, cfg, stat).value;
                  CyclerCalls(ev) == [CyclerCall(base.cyclerName, Paths.Base(archivePath), base.fileKeys, base.keep)])
            && (!out.Done? ==> CyclerCalls(ev) == [])
  {
    RunModelTrace(modelName, archivePath, cfg, stat, driver);
    var key := Paths.Base(archivePath);
    assert CyclerCalls([Closed]) == [];
    assert CyclerCalls([Uploaded(key), Closed]) == [];
    assert CyclerCalls([Opened, Uploaded(key), Closed]) == [];
    assert CyclerCalls([Opened]) == [];
    if BaseOf(modelName, archivePath, cfg, stat).Success? {
      var base := BaseOf(modelName, archivePath, cfg, stat).value;
      var call := CyclerCall(base.cyclerName, key, base.fileKeys, base.keep);
      assert CyclerCalls([CyclerRan(call), Closed]) == [call];
      assert CyclerCalls([Uploaded(key), CyclerRan(call), Closed]) == [call];
    }
  }

  /** The trace of one target, case by case. */
  lemma RunModelTrace(modelName: string, archivePath: string, cfg: SubConfig, stat: PathState, driver: Driver)
    ensures var (out, ev) := RunModel(modelName, archivePath, cfg, stat, driver);
            var key := Paths.Base(archivePath);
            if stat.UnreadableDirectory? || cfg.kind !in Kinds then out.Panicked? && ev == []
            else if driver.open.Some? then out == Failed(driver.open.value) && ev == [Opened]
            else if driver.upload.Some? then out == Failed(driver.upload.value) && ev == [Opened, Uploaded(key), Closed]
            else
              var base := BaseOf(modelName, archivePath, cfg, stat).value;
              out == Done(())
              && ev == [Opened, Uploaded(key), CyclerRan(CyclerCall(base.cyclerName, key, base.fileKeys, base.keep)), Closed]
  {
    DispatchFacts(cfg.kind, cfg.kind);
  }

  // ---------------------------------------------------------------------------
  // Run: every target of a model

  /** What runModel did for one storage target: the key, the result and the trace. */
  datatype TargetRun = TargetRun(storage: string, out: Outcome<()>, events: seq<Event>)

  /** runModel for the target `t`, a (key, sub-configuration) pair of the model's storages. */
  function RunTarget(modelName: string, archivePath: string, stat: PathState, drivers: string -> Driver,
                     t: (string, SubConfig)): TargetRun
  {
    var (out, events) := RunModel(modelName, archivePath, t.1, stat, drivers(t.0));
    TargetRun(t.0, out, events)
  }

  /** runModel for every target, in iteration order. */
  function TargetRuns(model: ModelConfig, archivePath: string, stat: PathState, drivers: string -> Driver)
    : seq<TargetRun>
  {
    seq(|model.storages|, j requires 0 <= j < |model.storages| =>
      RunTarget(model.name, archivePath, stat, drivers, model.storages[j]))
  }

  /** The aggregate result once every target has been attempted. */
  function Verdict(errors: seq<Error>): Outcome<()>
  {
    if errors == [] then Done(()) else Failed(Aggregate(errors))
  }

  /**
   * `Run`'s loop from the `i`-th target on, with the failures and attempts so far: a
   * panic ends it at once; with a single target a failure ends it too; otherwise a
   * failure is collected and the loop goes on.
   */
  function RunLoop(runs: seq<TargetRun>, i: nat, errors: seq<Error>, log: seq<Attempt>)
    : (Outcome<()>, seq<Attempt>)
    requires i <= |runs|
    decreases |runs| - i
  {
    if i == |runs| then (Verdict(errors), log)
    else
      var r := runs[i];
      var log' := log + [Attempt(r.storage, r.events)];
      match r.out
      case Panicked(p) => (Panicked(p), log')
      case Failed(e) => if |runs| == 1 then (Failed(e), log') else RunLoop(runs, i + 1, errors + [e], log')
      case Done(_) => RunLoop(runs, i + 1, errors, log')
  }

  /** `Run`'s result and attempts, given what each target does when it is run. */
  function RunOf(runs: seq<TargetRun>): (Outcome<()>, seq<Attempt>)
  {
    RunLoop(runs, 0, [], [])
  }

  function RunSpec(model: ModelConfig, archivePath: string, stat: PathState, drivers: string -> Driver)
    : (Outcome<()>, seq<Attempt>)
  {
    RunOf(TargetRuns(model, archivePath, stat, drivers))
  }

  /**
   * Go's `Run`: runs every storage target of the model in iteration order. With one
   * target its failure is returned as it is; with several, failures are collected and
   * reported together once every target has been tried.
   */
  method Run(model: ModelConfig, archivePath: string, stat: PathState, drivers: string -> Driver)
    returns (out: Outcome<()>, log: seq<Attempt>)
    ensures (out, log) == RunSpec(model, archivePath, stat, drivers)
  {
    ghost var runs := TargetRuns(model, archivePath, stat, drivers);
    var errors: seq<Error> := [];
    log := [];
    var n := |model.storages|;
    var i := 0;
    while i < n
      invariant 0 <= i <= n == |runs|
      invariant RunLoop(runs, i, errors, log) == RunOf(runs)
    {
      var (key, cfg) := model.storages[i];
      var (res, ev) := RunModel(model.name, archivePath, cfg, stat, drivers(key));
      assert runs[i] == TargetRun(key, res, ev);
      log := log + [Attempt(key, ev)];
      if res.Panicked? {
        return Panicked(res.panic), log;
      }
      if res.Failed? {
        if n == 1 {
          return Failed(res.error), log;
        }
        errors := errors + [res.error];
      }
      i := i + 1;
    }
    if |errors| != 0 {
      return Failed(Aggregate(errors)), log;
    }
    return Done(()), log;
  }

  /** The errors of the failed targets from the `i`-th on, in attempt order. */
  function FailuresFrom(runs: seq<TargetRun>, i: nat): seq<Error>
    requires i <= |runs|
    decreases |runs| - i
  {
    if i == |runs| then []
    else (if runs[i].out.Failed? then [runs[i].out.error] else []) + FailuresFrom(runs, i + 1)
  }

  /** The attempts of the targets from the `i`-th on. */
  function AttemptsFrom(runs: seq<TargetRun>, i: nat): (r: seq<Attempt>)
    requires i <= |runs|
    ensures |r| == |runs| - i
    decreases |runs| - i
  {
    if i == |runs| then [] else [Attempt(runs[i].storage, runs[i].events)] + AttemptsFrom(runs, i + 1)
  }

  lemma {:induction false} RunLoopNoPanic(runs: seq<TargetRun>, i: nat, errors: seq<Error>, log: seq<Attempt>)
    requires i <= |runs| != 1
    requires forall j :: i <= j < |runs| ==> !runs[j].out.Panicked?
    ensures RunLoop(runs, i, errors, log) == (Verdict(errors + FailuresFrom(runs, i)), log + AttemptsFrom(runs, i))
    decreases |runs| - i
  {
    if i == |runs| {
      assert errors + [] == errors && log + [] == log;
    } else {
      var r := runs[i];
      var log' := log + [Attempt(r.storage, r.events)];
      var errors' := if r.out.Failed? then errors + [r.out.error] else errors;
      RunLoopNoPanic(runs, i + 1, errors', log');
      assert errors' + FailuresFrom(runs, i + 1) == errors + FailuresFrom(runs, i);
      assert log' + AttemptsFrom(runs, i + 1) == log + AttemptsFrom(runs, i);
    }
  }

  /**
   * With zero or several targets and no panic, every target is attempted, in order, and
   * the result is the aggregate of the failures in attempt order, or success when none failed.
   */
  lemma RunAttemptsAll(runs: seq<TargetRun>)
    requires |runs| != 1
    requires forall j :: 0 <= j < |runs| ==> !runs[j].out.Panicked?
    ensures RunOf(runs) == (Verdict(FailuresFrom(runs, 0)), AttemptsFrom(runs, 0))
  {
    RunLoopNoPanic(runs, 0, [], []);
    assert [] + FailuresFrom(runs, 0) == FailuresFrom(runs, 0);
    assert [] + AttemptsFrom(runs, 0) == AttemptsFrom(runs, 0);
  }

  /** With a single target, `Run` returns that target's own result, unwrapped. */
  lemma RunSingle(runs: seq<TargetRun>)
    requires |runs| == 1
    ensures RunOf(runs) == (runs[0].out, [Attempt(runs[0].storage, runs[0].events)])
  {
    var r := runs[0];
    var log := [] + [Attempt(r.storage, r.events)];
    assert log == [Attempt(r.storage, r.events)];
    if r.out.Done? {
      assert r.out.value == ();
      assert RunLoop(runs, 1, [], log) == (Done(()), log);
    }
  }

  /** Without targets, `Run` does nothing and succeeds. */
  lemma RunNone(model: ModelConfig, archivePath: string, stat: PathState, drivers: string -> Driver)
    requires |model.storages| == 0
    ensures RunSpec(model, archivePath, stat, drivers) == (Done(()), [])
  {
  }

  lemma {:induction false} RunLoopPanic(runs: seq<TargetRun>, i: nat, p: nat, errors: seq<Error>, log: seq<Attempt>)
    requires i <= p < |runs|
    requires runs[p].out.Panicked?
    requires forall j :: i <= j < p ==> !runs[j].out.Panicked?
    requires |runs| == 1 ==> i == p
    ensures RunLoop(runs, i, errors, log) == (runs[p].out, log + AttemptsFrom(runs, i)[..p + 1 - i])
    decreases p - i
  {
    var r := runs[i];
    var log' := log + [Attempt(r.storage, r.events)];
    var rest := AttemptsFrom(runs, i + 1);
    assert AttemptsFrom(runs, i) == [Attempt(r.storage, r.events)] + rest;
    if i < p {
      var errors' := if r.out.Failed? then errors + [r.out.error] else errors;
      assert RunLoop(runs, i, errors, log) == RunLoop(runs, i + 1, errors', log');
      RunLoopPanic(runs, i + 1, p, errors', log');
      assert AttemptsFrom(runs, i)[..p + 1 - i] == [Attempt(r.storage, r.events)] + rest[..p - i];
      assert log' + rest[..p - i] == log + AttemptsFrom(runs, i)[..p + 1 - i];
    } else {
      assert AttemptsFrom(runs, i)[..1] == [Attempt(r.storage, r.events)];
    }
  }

  /** A panic in a target ends `Run` right there: later targets are not attempted. */
  lemma RunStopsAtPanic(runs: seq<TargetRun>, p: nat)
    requires p < |runs| && runs[p].out.Panicked?
    requires forall j :: 0 <= j < p ==> !runs[j].out.Panicked?
    ensures RunOf(runs) == (runs[p].out, AttemptsFrom(runs, 0)[..p + 1])
  {
    RunLoopPanic(runs, 0, p, [], []);
    assert [] + AttemptsFrom(runs, 0)[..p + 1] == AttemptsFrom(runs, 0)[..p + 1];
  }

  lemma {:induction false} RunLoopKinds(runs: seq<TargetRun>, i: nat, errors: seq<Error>, log: seq<Attempt>)
    requires i <= |runs|
    requires |runs| == 1 ==> errors == []
    ensures RunLoop(runs, i, errors, log).0.Panicked? <==> exists j :: i <= j < |runs| && runs[j].out.Panicked?
    ensures RunLoop(runs, i, errors, log).0.Done? <==>
              errors == [] && forall j :: i <= j < |runs| ==> runs[j].out.Done?
    decreases |runs| - i
  {
    if i < |runs| {
      var r := runs[i];
      var log' := log + [Attempt(r.storage, r.events)];
      if r.out.Failed? && |runs| != 1 {
        RunLoopKinds(runs, i + 1, errors + [r.out.error], log');
      } else if r.out.Done? {
        RunLoopKinds(runs, i + 1, errors, log');
      }
    }
  }

  /**
   * The kind of `Run`'s result depends only on which targets do what: it panics exactly
   * when some target panics, and it succeeds exactly when every target succeeds; so the
   * result is an error exactly when some target failed and none panicked.
   */
  lemma RunVerdict(runs: seq<TargetRun>)
    ensures RunOf(runs).0.Panicked? <==> exists r :: r in runs && r.out.Panicked?
    ensures RunOf(runs).0.Done? <==> forall r :: r in runs ==> r.out.Done?
  {
    RunLoopKinds(runs, 0, [], []);
    forall r | r in runs
      ensures exists j :: 0 <= j < |runs| && runs[j] == r
    {
      var j :| 0 <= j < |runs| && runs[j] == r;
    }
  }

  /** A target's run is in the model's runs exactly when the target is in its storages. */
  lemma TargetRunsMembers(model: ModelConfig, archivePath: string, stat: PathState, drivers: string -> Driver,
                          t: (string, SubConfig))
    requires t in model.storages
    ensures RunTarget(model.name, archivePath, stat, drivers, t) in TargetRuns(model, archivePath, stat, drivers)
  {
    var j :| 0 <= j < |model.storages| && model.storages[j] == t;
    assert TargetRuns(model, archivePath, stat, drivers)[j] == RunTarget(model.name, archivePath, stat, drivers, t);
  }

  /**
   * Go leaves the iteration order of the storages map unspecified: whether `Run`
   * succeeds, fails or panics is the same for every order of the same targets.
   */
  lemma RunVerdictOrderFree(m1: ModelConfig, m2: ModelConfig, archivePath: string, stat: PathState,
                            drivers: string -> Driver)
    requires m1.name == m2.name
    requires multiset(m1.storages) == multiset(m2.storages)
    ensures RunSpec(m1, archivePath, stat, drivers).0.Done? == RunSpec(m2, archivePath, stat, drivers).0.Done?
    ensures RunSpec(m1, archivePath, stat, drivers).0.Panicked? == RunSpec(m2, archivePath, stat, drivers).0.Panicked?
  {
    var runs1, runs2 := TargetRuns(m1, archivePath, stat, drivers), TargetRuns(m2, archivePath, stat, drivers);
    RunVerdict(runs1);
    RunVerdict(runs2);
    forall r | r in runs1
      ensures r in runs2
    {
      var j :| 0 <= j < |runs1| && runs1[j] == r;
      var t := m1.storages[j];
      assert t in multiset(m2.storages);
      TargetRunsMembers(m2, archivePath, stat, drivers, t);
    }
    forall r | r in runs2
      ensures r in runs1
    {
      var j :| 0 <= j < |runs2| && runs2[j] == r;
      var t := m2.storages[j];
      assert t in multiset(m1.storages);
      TargetRunsMembers(m1, archivePath, stat, drivers, t);
    }
  }

  // ---------------------------------------------------------------------------
  // List and Download through the default storage

  /** The storage keys, in iteration order. */
  function KeysOf(storages: seq<(string, SubConfig)>): seq<string>
  {
    if storages == [] then [] else [storages[0].0] + KeysOf(storages[1..])
  }

  /** The map lookup `model.Storages[key]`. */
  function Lookup(storages: seq<(string, SubConfig)>, key: string): (r: Option<SubConfig>)
    ensures r.Some? <==> key in KeysOf(storages)
    ensures r.Some? ==> (key, r.value) in storages
  {
    if storages == [] then None
    else if storages[0].0 == key then Some(storages[0].1)
    else Lookup(storages[1..], key)
  }

  /** The path `List` asks the backend for: an empty parent means the root. */
  function ListParent(parent: string): string
  {
    if parent == "" then "/" else parent
  }

  /**
   * `List` up to its sort: look up the default storage ("not found" when missing), build
   * its backend (the base built for the empty archive path has no inventory and cannot
   * fail), open it, list, close.
   */
  function ListPlan(model: ModelConfig, parent: string, drivers: string -> Driver)
    : (r: (Outcome<seq<FileItem>>, seq<Event>))
    ensures r.0.Done? ==> drivers(model.defaultStorage).list == Success(r.0.value)
    ensures r.0.Failed? ==>
              || r.0.error == StorageNotFound(model.defaultStorage)
              || drivers(model.defaultStorage).open == Some(r.0.error)
              || drivers(model.defaultStorage).list == Failure(r.0.error)
  {
    match Lookup(model.storages, model.defaultStorage)
    case None => (Failed(StorageNotFound(model.defaultStorage)), [])
    case Some(cfg) =>
      var driver := drivers(model.defaultStorage);
      if Dispatch(cfg.kind).None? then (Panicked(NilStorage(cfg.kind)), [])
      else if driver.open.Some? then (Failed(driver.open.value), [Opened])
      else
        var events := [Opened, Listed(ListParent(parent)), Closed];
        match driver.list
        case Failure(e) => (Failed(e), events)
        case Success(items) => (Done(items), events)
  }

  /** Go's `Download`: look up the default storage, open its backend, ask for the file, close. */
  function Download(model: ModelConfig, fileKey: string, drivers: string -> Driver)
    : (r: (Outcome<string>, seq<Event>))
    ensures r.0.Done? ==> drivers(model.defaultStorage).download == Success(r.0.value)
    ensures r.0.Failed? ==>
              || r.0.error == StorageNotFound(model.defaultStorage)
              || drivers(model.defaultStorage).open == Some(r.0.error)
              || drivers(model.defaultStorage).download == Failure(r.0.error)
  {
    match Lookup(model.storages, model.defaultStorage)
    case None => (Failed(StorageNotFound(model.defaultStorage)), [])
    case Some(cfg) =>
      var driver := drivers(model.defaultStorage);
      if Dispatch(cfg.kind).None? then (Panicked(NilStorage(cfg.kind)), [])
      else if driver.open.Some? then (Failed(driver.open.value), [Opened])
      else
        var events := [Opened, DownloadRequested(fileKey), Closed];
        match driver.download
        case Failure(e) => (Failed(e), events)
        case Success(url) => (Done(url), events)
  }

  /**
   * Once the default storage's backend is open, `Download` returns the backend's own
   * reply: its URL on success, its error on failure.
   */
  lemma DownloadPassThrough(model: ModelConfig, fileKey: string, drivers: string -> Driver)
    requires Lookup(model.storages, model.defaultStorage).Some?
    requires Dispatch(Lookup(model.storages, model.defaultStorage).value.kind).Some?
    requires drivers(model.defaultStorage).open.None?
    ensures var reply := drivers(model.defaultStorage).download;
            var out := Download(model, fileKey, drivers).0;
            && (out.Done? <==> reply.Success?)
            && (reply.Success? ==> out.value == reply.value)
            && (reply.Failure? ==> out == Failed(reply.error))
  {
  }

  /**
   * Once the default storage's backend is open, `List` works on exactly what the backend
   * lists, and a listing error is returned as it is.
   */
  lemma ListPassThrough(model: ModelConfig, parent: string, drivers: string -> Driver)
    requires Lookup(model.storages, model.defaultStorage).Some?
    requires Dispatch(Lookup(model.storages, model.defaultStorage).value.kind).Some?
    requires drivers(model.defaultStorage).open.None?
    ensures var reply := drivers(model.defaultStorage).list;
            var out := ListPlan(model, parent, drivers).0;
            && (out.Done? <==> reply.Success?)
            && (reply.Success? ==> out.value == reply.value)
            && (reply.Failure? ==> out == Failed(reply.error))
  {
  }

  /**
   * When the default storage is not among the model's storages, `List` and `Download`
   * report "Storage <name> not found" and touch no backend; otherwise they do not.
   */
  lemma DefaultStorageMissing(model: ModelConfig, parent: string, fileKey: string, drivers: string -> Driver)
    ensures model.defaultStorage !in KeysOf(model.storages) <==>
              ListPlan(model, parent, drivers) == (Failed(StorageNotFound(model.defaultStorage)), [])
    ensures model.defaultStorage !in KeysOf(model.storages) <==>
              Download(model, fileKey, drivers) == (Failed(StorageNotFound(model.defaultStorage)), [])
  {
  }

  /**
   * `List` and `Download` use the default storage's backend in one session: opened
   * first, closed last exactly when opening succeeded, and one request (the listing of
   * the parent, "/" for an empty one, or the download of the key) in between.
   */
  lemma LookupSessions(model: ModelConfig, parent: string, fileKey: string, drivers: string -> Driver)
    ensures var ev := ListPlan(model, parent, drivers).1;
            var driver := drivers(model.defaultStorage);
            || ev == []
            || (ev == [Opened] && driver.open.Some?)
            || (ev == [Opened, Listed(if parent == "" then "/" else parent), Closed] && driver.open.None?)
    ensures var ev := Download(model, fileKey, drivers).1;
            var driver := drivers(model.defaultStorage);
            || ev == []
            || (ev == [Opened] && driver.open.Some?)
            || (ev == [Opened, DownloadRequested(fileKey), Closed] && driver.open.None?)
  {
  }

  /**
   * The comparison `List` sorts with: `x` goes before `y` when it was modified later, or
   * at the same time with a greater file name.
   */
  predicate Newer(x: FileItem, y: FileItem)
  {
    x.lastModified > y.lastModified || (x.lastModified == y.lastModified && Text.Less(y.filename, x.filename))
  }

  /** What `sort.Slice` guarantees: no item is `Newer` than one placed before it. */
  predicate NewestFirst(s: seq<FileItem>)
  {
    forall i, j :: 0 <= i < j < |s| ==> !Newer(s[j], s[i])
  }

  lemma NewerIrreflexive(x: FileItem)
    ensures !Newer(x, x)
  {
    Text.LessIrreflexive(x.filename);
  }

  lemma NewerAsymmetric(x: FileItem, y: FileItem)
    ensures Newer(x, y) ==> !Newer(y, x)
  {
    Text.LessAsymmetric(x.filename, y.filename);
  }

  /** "Not newer" is transitive: the sort order is a total preorder. */
  lemma NotNewerTransitive(x: FileItem, y: FileItem, z: FileItem)
    requires !Newer(y, x) && !Newer(z, y)
    ensures !Newer(z, x)
  {
    if z.lastModified == x.lastModified && Text.Less(x.filename, z.filename) {
      Text.LessTotal(x.filename, y.filename);
      if Text.Less(y.filename, x.filename) {
        Text.LessTransitive(y.filename, x.filename, z.filename);
      }
    }
  }

  /** The index of an item of `a[from..]` that no other item there is newer than. */
  method NewestFrom(a: array<FileItem>, from: nat) returns (m: nat)
    requires from < a.Length
    ensures from <= m < a.Length
    ensures forall k :: from <= k < a.Length ==> !Newer(a[k], a[m])
  {
    m := from;
    NewerIrreflexive(a[m]);
    var j := from + 1;
    while j < a.Length
      invariant from <= m < j <= a.Length
      invariant forall k :: from <= k < j ==> !Newer(a[k], a[m])
    {
      if Newer(a[j], a[m]) {
        NewerAsymmetric(a[j], a[m]);
        forall k | from <= k < j
          ensures !Newer(a[k], a[j])
        {
          NotNewerTransitive(a[j], a[m], a[k]);
        }
        NewerIrreflexive(a[j]);
        m := j;
      }
      j := j + 1;
    }
  }

  /** The first `i` items of `s` are in order. */
  predicate SortedUpTo(s: seq<FileItem>, i: nat)
    requires i <= |s|
  {
    forall p, q :: 0 <= p < q < i ==> !Newer(s[q], s[p])
  }

  /** No item from position `i` on is newer than an item before `i`. */
  predicate PrefixFirst(s: seq<FileItem>, i: nat)
    requires i <= |s|
  {
    forall p, q :: 0 <= p < i <= q < |s| ==> !Newer(s[q], s[p])
  }

  /** One step of selection sort: swapping the newest remaining item to position `i` extends the sorted prefix. */
  lemma SelectStep(s: seq<FileItem>, i: nat, m: nat)
    requires i <= m < |s|
    requires SortedUpTo(s, i) && PrefixFirst(s, i)
    requires forall k :: i <= k < |s| ==> !Newer(s[k], s[m])
    ensures var t := s[i := s[m]][m := s[i]];
            SortedUpTo(t, i + 1) && PrefixFirst(t, i + 1) && multiset(t) == multiset(s)
  {
    var t := s[i := s[m]][m := s[i]];
    forall p, q | 0 <= p < q < i + 1
      ensures !Newer(t[q], t[p])
    {
      if q < i {
        assert t[q] == s[q] && t[p] == s[p];
      } else {
        assert t[q] == s[m] && t[p] == s[p];
      }
    }
    forall p, q | 0 <= p < i + 1 <= q < |t|
      ensures !Newer(t[q], t[p])
    {
      var k := if q == m then i else q;
      assert t[q] == s[k];
      if p < i {
        assert t[p] == s[p];
      } else {
        assert t[p] == s[m];
      }
    }
  }

  /** `List`'s in-place sort: newest first, ties broken by the greater file name first. */
  method SortNewestFirst(a: array<FileItem>)
    modifies a
    ensures NewestFirst(a[..])
    ensures multiset(a[..]) == old(multiset(a[..]))
  {
    var i := 0;
    while i < a.Length
      invariant 0 <= i <= a.Length
      invariant SortedUpTo(a[..], i) && PrefixFirst(a[..], i)
      invariant multiset(a[..]) == old(multiset(a[..]))
    {
      var m := NewestFrom(a, i);
      SelectStep(a[..], i, m);
      a[i], a[m] := a[m], a[i];
      i := i + 1;
    }
    assert SortedUpTo(a[..], a.Length);
  }

  /**
   * Go's `List`: on success the backend's items, newest first (ties: greater file name
   * first); every failure, and the "not found" case, as the plan says.
   */
  method List(model: ModelConfig, parent: string, drivers: string -> Driver)
    returns (out: Outcome<seq<FileItem>>, events: seq<Event>)
    ensures var (plan, ev) := ListPlan(model, parent, drivers);
            && events == ev
            && (out.Done? <==> plan.Done?)
            && (!plan.Done? ==> out == plan)
            && (out.Done? ==> NewestFirst(out.value) && multiset(out.value) == multiset(plan.value))
  {
    var (plan, ev) := ListPlan(model, parent, drivers);
    events := ev;
    if !plan.Done? {
      return plan, events;
    }
    var items := plan.value;
    var a := new FileItem[|items|](k requires 0 <= k < |items| => items[k]);
    assert a[..] == items;
    SortNewestFirst(a);
    out := Done(a[..]);
  }

  /** The first item of a sorted listing is the latest: nothing was modified after it. */
  lemma NewestFirstHeadIsLatest(s: seq<FileItem>)
    requires NewestFirst(s) && |s| > 0
    ensures forall i :: 0 <= i < |s| ==> s[i].lastModified <= s[0].lastModified
  {
    forall i | 0 < i < |s|
      ensures s[i].lastModified <= s[0].lastModified
    {
      assert !Newer(s[i], s[0]);
    }
  }
}
