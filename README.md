# vtsbackup backup agent: storage façade, compressor entry point and agent commands

vtsbackup is a backup agent. For each configured *model*, it dumps databases and files into a dump directory. It compresses that directory into one timestamped archive. It then stores the archive on every storage target of the model. Each target is local disk, FTP, SCP, SFTP, S3 or MinIO, and each keeps a retention count (`keep`). This project models the agent's core and proves properties of it.

The model covers:

- **The storage façade** (`storage.dfy`, module `Storage`).
  - `newBase` builds a target's cycler name, its retention count and the inventory of file keys in the archive directory.
  - `new` picks the backend by the storage type.
  - `runModel` opens the backend, uploads, hands the inventory to the retention cycler and closes.
  - `Run` runs every target of a model. A single target's error is returned as it is. The errors of several targets are aggregated.
  - `List` lists through the model's default storage, newest first. `Download` also goes through the default storage.
- **The compressor entry point** (`compressor.dfy`, module `Compressor`).
  - The archive path is `<dump path>/<YYYY.MM.DD.hh.mm.ss><ext>`.
  - The compressor is selected by type, and the result of its `perform` is returned.
- **The agent's commands** (`agent.dfy`, module `Agent`).
  - Which models `perform` runs.
  - How the PIDs of running agents are read from `ps aux` and from `pgrep -f vtsbackup.*run`.
  - The checks on the download menu's number and on the confirmation answer.
- **Go library functions the core relies on.**
  - `text.dfy`, module `Text`: `strings.Split`, `strings.Fields`, `strings.TrimSpace`, `strings.Contains`, `strconv.Atoi` and `strconv.Itoa`, and string order.
  - `paths.dfy`, module `Paths`: `filepath.Base`, `path.Join` and `filepath.Join`.

How the outside world is modelled:

- **Backend drivers** are not modelled. Each target's driver is a `Driver` value: the replies it gives to `open`, `upload`, `list` and `download`.
- **Effects on a backend** are a trace of `Event`s: opened, uploaded, cycler ran (with its arguments), listed, download requested, closed.
- **The file system** at the archive path is a `PathState` value. It is either no directory, a readable directory with its entries, or an unreadable directory.
- **Go panics** are the `Panicked` outcome. There are two: a failed directory read inside `new`, and `open` on the nil backend left by an unknown storage type.
- **`Run` over storage targets.** Go's map iteration order is unspecified. The targets are therefore a sequence in an arbitrary order, and `Storage.RunVerdictOrderFree` shows that the verdict does not depend on that order.
- **The current time** is a `Clock` parameter.
- **Command output and user input** are parameters: the output of `ps` and `pgrep`, the number read from the terminal and the confirmation answer.

## Model

| member | source | states |
|---|---|---|
| Storage.NewBase | storage/base.go:57-96 | returns exactly `BaseOf`: the failure of an unreadable directory, or the base with the keys of the non-directory entries in listing order |
| Storage.BaseFacts | storage/base.go:58-93 | the build fails exactly for an unreadable directory. The cycler is named after the model alone when the storage has no name, and `<model>_<storage>` otherwise. `keep` is the `keep` setting, or 0 when there are no settings or no `keep`. Keys only come from a directory |
| Storage.FileKeysCount | storage/base.go:74-80 | there is one key per non-directory entry |
| Storage.FileKeysInOrder | storage/base.go:74-80 | the key of the i-th file entry is `<base of archive path>/<entry name>`. It sits at the position given by the number of file entries before it, so listing order is kept |
| Storage.FileKeysSource | storage/base.go:74-80 | every key comes from some non-directory entry |
| Storage.DispatchFacts | storage/base.go:104-120 | exactly the six known types get a backend. "s3" and "minio" share the S3 backend, which records the type as its service. Two different types never get the same backend |
| Storage.NewFacts | storage/base.go:98-123 | `new` panics exactly when the archive directory cannot be read, and the panic carries the read error. Otherwise the backend is nil exactly for an unknown type |
| Storage.RunModel | storage/base.go:126-146 | no backend is touched exactly when `runModel` panics, and every error it returns is the driver's own `open` or `upload` error, passed through unchanged |
| Storage.RunModelTrace | storage/base.go:126-146 | the whole case table of `runModel`. Panic with no backend activity; or a failed open and no close; or a failed upload, then close; or upload, one cycler call with the new key, the inventory and `keep`, then close |
| Storage.RunModelSession | storage/base.go:133-144 | the backend is opened exactly when construction succeeds. Open comes first. Close happens exactly when the open succeeded, and it comes last. The only key uploaded is the base name of the archive path |
| Storage.RunModelOpens | storage/base.go:130-136 | a backend is opened exactly when it could be built, and opening is the first thing done to it |
| Storage.RunModelCloses | storage/base.go:133-137 | the backend is closed exactly when its `open` succeeded, and the close is the last thing done to it (the deferred close) |
| Storage.RunModelUploads | storage/base.go:129-139 | the only key ever uploaded is the base name of the archive path, and only after a successful open |
| Storage.RunModelResult | storage/base.go:126-146 | panic exactly for an unreadable directory or an unknown type. An open or upload error is returned as it is. Success exactly when both succeed. The cycler runs once, with the base's name, inventory and `keep`, on success and never otherwise |
| Storage.Run | storage/base.go:148-170 | the loop computes exactly `RunSpec`, the reference definition stated over the per-target runs |
| Storage.RunAttemptsAll | storage/base.go:152-169 | without a panic and with a target count other than 1, every target is attempted in order. The result is success when no target failed, and otherwise the aggregate of all failures in order |
| Storage.RunSingle | storage/base.go:156-157 | with exactly one target, that target's outcome is returned unwrapped |
| Storage.RunNone | storage/base.go:165-169 | a model without targets succeeds and touches no backend |
| Storage.RunStopsAtPanic | storage/base.go:153-154 | a panic in a target ends `Run` with that panic. The attempts are exactly those up to and including that target |
| Storage.RunVerdict | storage/base.go:148-170 | `Run` panics exactly when some target panics. It succeeds exactly when every target succeeds |
| Storage.RunVerdictOrderFree | storage/base.go:153 | two iteration orders of the same targets give the same verdict (success, failure or panic) |
| Storage.Lookup | storage/base.go:174 | the default storage is found exactly when its key is configured, and then the configuration is that key's |
| Storage.DefaultStorageMissing | storage/base.go:172-218 | `List` and `Download` each report "Storage <name> not found" and touch no backend, exactly when the default storage is not configured |
| Storage.LookupSessions | storage/base.go:172-218 | `List` and `Download` either touch no backend, or open and stop at a failed open (no close), or open, list `parent` ("/" when empty) or ask for the file, then close |
| Storage.ListPlan | storage/base.go:173-189 | a successful listing is exactly the backend's `list` reply. A failure is "not found", the backend's `open` error or its `list` error |
| Storage.ListPassThrough | storage/base.go:186-189 | once the default storage's backend is open, `List` succeeds exactly when the backend's `list` does, works on exactly the items the backend lists, and returns a `list` error as it is |
| Storage.Download | storage/base.go:205-218 | a successful download returns exactly the backend's `download` reply. A failure is "not found", the backend's `open` error or its `download` error |
| Storage.DownloadPassThrough | storage/base.go:214 | once the default storage's backend is open, `Download` returns the backend's reply: its URL exactly when the backend succeeds, and its error otherwise |
| Storage.NewerAsymmetric | storage/base.go:192-197 | the sort order is asymmetric |
| Storage.NotNewerTransitive | storage/base.go:192-197 | "not newer" is transitive, so the order is a strict weak order |
| Storage.NewestFrom | storage/base.go:191-197 | returns the position of an item that no later item is newer than |
| Storage.SelectStep | storage/base.go:191-197 | one selection step extends the sorted prefix and keeps the multiset of items |
| Storage.SortNewestFirst | storage/base.go:191-197 | the array ends up newest first (by modification time, then by file name, both descending), and it is a permutation of the input |
| Storage.List | storage/base.go:172-203 | the backend trace is that of `ListPlan`. Failures and panics are those of `ListPlan`. On success the items are exactly the listed ones, sorted newest first |
| Storage.NewestFirstHeadIsLatest | storage/base.go:191-197 | after the sort, the first item has the latest modification time |
| Paths.Base | storage/base.go:129 | `filepath.Base` is never empty, and it is "/" or holds no slash |
| Paths.BaseOfJoin | storage/base.go:78 | the base of `Join(dir, elem)` is `elem`, for any slash-free non-empty entry name |
| Paths.Join | storage/base.go:78 | the joined path ends with the element |
| Compressor.Timestamp | compressor/base.go:16 | the layout `2006.01.02.15.04.05` holds no slash. For a four-digit year it is the six fields, zero-padded to 4,2,2,2,2,2 digits and dot-separated, 19 characters long |
| Compressor.ArchiveFilePath | compressor/base.go:15-17 | the archive path ends with the timestamp followed by the extension. With an empty dump path it is exactly that name |
| Compressor.ArtifactKey | compressor/base.go:15-17 | the base name of the archive path is the timestamp followed by the extension, for a slash-free extension |
| Compressor.NameOrderIsTimeOrder | compressor/base.go:16 | for years 0..9999, one artifact name sorts before another exactly when its time is earlier |
| Compressor.NamesInjective | compressor/base.go:16 | for years 0..9999, different times give different artifact names |
| Compressor.ArchivePathOrder | compressor/base.go:15-17 | in one dump directory, one archive path sorts before another exactly when its time is earlier |
| Compressor.GroupsOrder | compressor/base.go:16 | zero-padded fixed-width fields compare as text exactly as the numbers compare lexicographically |
| Compressor.Run | compressor/base.go:19-41 | every compression type, "tgz" or any other, runs the Tgz compressor, and its path and error are returned unchanged |
| Agent.FirstUnknown | main.go:311-317 | finds the first requested name that no model has, with every earlier name registered; finds none exactly when all names are registered |
| Agent.SelectionFacts | main.go:305-318 | selection fails exactly when a requested name is unknown, and it reports the first unknown name. On success every selected model is registered. The selection is the whole registry exactly when no name was requested, and otherwise the requested names in order |
| Agent.Perform | main.go:99 | the requested names are the `--model` flag values followed by the arguments. An unknown name returns its error before any model is performed. Otherwise the selected models are all performed in order, with no error returned and each failure logged |
| Agent.FailureLogMembers | main.go:320-324 | a failure is logged exactly for each performed model whose run failed, with that model's own error |
| Agent.FailureLogAppend | main.go:320-324 | the log of a run over two batches is the first batch's log followed by the second's |
| Agent.ListBackupAgents | main.go:329-350 | an error when `ps` fails. Otherwise the PIDs of the qualifying lines, in line order |
| Agent.PsLinePid | main.go:339-346 | a line that does not mention "vtsbackup", or mentions "grep", names no PID. A PID that is named is a 64-bit integer |
| Agent.PsLineNamesPid | main.go:339-346 | a `ps aux` row made of a user name, white space and the decimal PID, then white space or the end, which mentions "vtsbackup" and not "grep", names exactly that PID |
| Agent.PsPidsMembers | main.go:337-348 | a PID is reported exactly when some line mentions "vtsbackup", does not mention "grep", and has a second field that parses to that PID. Every reported PID is a 64-bit integer |
| Agent.PsPidsAppend | main.go:337-348 | line order is kept: the PIDs of two blocks of lines are those of the first block, then those of the second |
| Agent.FindBackupAgentPids | main.go:377-398 | exactly `PgrepPids`. Exit status 1 gives no PIDs and no error. Any other failure is an error. Otherwise the trimmed output is split into lines, and the first line that is not a number makes the call fail |
| Agent.ParsePidsFailureStands | main.go:389-395 | a line that is not a number ends the parse with that line's error, whatever follows |
| Agent.ParsePidsSuccess | main.go:389-397 | parsing succeeds exactly when every line is a number. The i-th PID is then the i-th line's number |
| Agent.ParsePidsAccepts | main.go:389-395 | parsing succeeds exactly when every line is a number |
| Agent.ParsePidsValues | main.go:389-397 | after a successful parse there is one PID per line, and the i-th PID is the i-th line's number |
| Agent.ParsePidsFirstBadLine | main.go:389-393 | a failed parse names the first line that is not a number |
| Agent.PgrepRoundTrip | main.go:377-398 | printing non-negative 64-bit PIDs one per line, with a final newline, and reading them back gives exactly the printed PIDs |
| Agent.ChooseFacts | main.go:542-554 | a choice is valid exactly when a number was read between 0 and the number of files. 0 cancels. The number `i + 1` shown beside the i-th file selects that file |
| Agent.Choose | main.go:545-554 | a selected file is one of the listed files, and the choice cancels only when the number read is 0 |
| Agent.ProceedExactly | main.go:558-564 | the download goes ahead exactly for the answers "", "y" and "Y" |
| Agent.Proceed | main.go:561 | the download goes ahead only for an answer of at most one character |
| Text.SplitJoin | main.go:337 | joining the pieces of `strings.Split` with the separator gives back the input |
| Text.JoinSplit | main.go:389 | splitting pieces joined with a separator that none of them contains gives back the pieces |
| Text.Split | main.go:337 | `strings.Split` gives at least one piece, and no piece contains the separator |
| Text.Fields | main.go:340 | every field of `strings.Fields` is non-empty and contains no white space |
| Text.FieldsSkipSpace | main.go:340 | leading white space does not change the fields |
| Text.FieldsWordThen | main.go:340 | a non-empty run of non-white-space at the start, ended by white space or by the end, is the first field. The remaining fields are those of the rest |
| Text.FieldsWordSpace | main.go:340 | a word, a white-space character and a rest give the word followed by the fields of the rest |
| Text.FieldsAllSpace | main.go:340 | a string of white space only has no fields |
| Text.WordOf | main.go:340 | the first word of a run of non-white-space followed by white space, or by nothing, is that run |
| Text.TrimSpaceDropsSpace | main.go:389 | `strings.TrimSpace` removes only white space, before and after |
| Text.TrimSpaceEnds | main.go:389 | a non-empty result of `strings.TrimSpace` neither starts nor ends with white space |
| Text.ContainsAt | main.go:339 | `strings.Contains` holds exactly when the substring occurs at some position |
| Text.Atoi | main.go:342 | `strconv.Atoi` on a 64-bit platform: every value it returns fits in 64 bits, and it returns nothing for an empty string or for one with a non-digit after the first character |
| Text.AtoiNumeral | main.go:342 | `strconv.Atoi` accepts exactly the numerals (an optional `+` or `-`, then at least one digit and nothing else) whose value fits in 64 bits. It returns that value: the digits' value, negated after a `-` |
| Text.AtoiPlus | main.go:342 | a leading `+` is accepted and changes nothing: `+digits` reads as `digits` does |
| Text.AtoiItoa | main.go:390 | `strconv.Atoi` reads back every 64-bit integer `strconv.Itoa` prints |
| Text.ToLowerAscii | main.go:561 | lower-casing maps 'A'..'Z' to 'a'..'z', leaves every other character alone and keeps the length |
| Text.LessTransitive | storage/base.go:194 | string order (Go's `>` on file names) is transitive |
| Text.LessTotal | storage/base.go:194 | two strings are equal or one sorts before the other |
| Text.FixedOrder | compressor/base.go:16 | numbers zero-padded to the same width compare as text as they compare as numbers |

## Left out

- Backend drivers (local, FTP, SCP, SFTP, S3/MinIO), their `delete` and the retention `Cycler` body are not part of this model. A driver is a value of scripted replies. A cycler run is recorded with its arguments.
- The compressor's `perform` (tar and gzip) is a parameter of `Compressor.Run`. The working directory change at compressor/base.go:33 is a process-global side effect and is not modelled.
- Logging is not modelled: the "has not implement" message, the per-model failure log line's format and the Info lines. Error messages are constructors, not formatted text.
- The configuration file name inside "model ... not found" is not modelled.
- `Storage.List`/`Storage.ListPlan`: a failure returns no items. Go returns `nil` after a failed open and an empty slice after a failed list or a missing default storage. Both have length 0, and the model does not tell them apart.
- `Storage.ListPlan`/`Storage.Download`: the backend is built for the empty archive path, where `os.Stat` fails. That build can never fail, so it is not spelled out.
- The file system is a value that does not change during `Run`. Every target sees the same `PathState`.
- `os.ReadDir`'s name order is not modelled. The listing is an input, kept in the order given.
- `sort.Slice` is not a stable sort, and its exact output order among equal items is not modelled. `Storage.SortNewestFirst` is a selection sort with the same comparator. It promises the property Go's sort promises: newest first, and a permutation of the input.
- Times are integers, so time zones and daylight-saving time are not modelled. `Compressor.NameOrderIsTimeOrder`, `Compressor.NamesInjective` and `Compressor.ArchivePathOrder` are proved only for years 0..9999. Go prints other years in more or fewer digits, and text order then differs from time order.
- `Text.ToLowerAscii` lower-cases ASCII letters only. Go's `strings.ToLower` maps all of Unicode. No non-ASCII character lower-cases to 'y', so `Agent.ProceedExactly` holds for Go as well.
- `Paths.Join` does not model Go's final `Clean`. It joins with one slash after trimming the directory's trailing slashes, and it returns a lone non-empty argument unchanged. Go would also collapse repeated slashes inside the path (`Join("a//b", "x")` is `a/b/x` in Go and `a//b/x` here), remove `.` and `..` elements, and clean a lone argument. The core uses only the last element of a joined path, which `Clean` leaves as it is for the slash-free entry names and timestamps the core joins (`Paths.BaseOfJoin`).
- Running external commands is not modelled: `ps`, `pgrep` and their exit codes are `CommandResult` values. Sending signals, reloading, the daemon and scheduler, the HTTP download of the returned URL and terminal printing are not part of this model.
- `Text.Atoi` does not model Go's distinction between a syntax error and a range error. Both give `None`.
