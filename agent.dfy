/**
 * The command-line agent's own decisions: which models a `perform` run executes, how
 * the PIDs of running agents are read from `ps aux` and `pgrep` output, and how the
 * download menu's number and confirmation answer are checked.
 *
 * The model registry, the outcome of performing a model, the output of the external
 * commands and the user's answers are all parameters; nothing here runs a process or
 * reads a terminal.
 */
module Agent {
  import opened Wrappers
  import Text
  import Storage

  datatype AgentError =
    | ModelNotFound(name: string)          // "model <name> not found in <config file>"
    | CommandFailed(result: CommandResult) // the external command did not produce output
    | BadPid(line: string)                 // "error parsing PID: ..."

  /** What running an external command with `Output()` gives. */
  datatype CommandResult =
    | Output(stdout: string)               // it ran and exited with status 0
    | ExitStatus(code: int)                // it ran and exited with another status
    | CouldNotRun(reason: string)          // it could not be started

  // ---------------------------------------------------------------------------
  // perform

  /**
   * The position of the first requested name that no registered model has; `None` when
   * every requested name is registered.
   */
  function FirstUnknown(registry: seq<string>, names: seq<string>): (r: Option<nat>)
    ensures r.None? ==> forall j :: 0 <= j < |names| ==> names[j] in registry
    ensures r.Some? ==> r.value < |names| && names[r.value] !in registry
                        && forall j :: 0 <= j < r.value ==> names[j] in registry
  {
    if names == [] then None
    else if names[0] !in registry then Some(0)
    else
      match FirstUnknown(registry, names[1..])
      case None => None
      case Some(i) => Some(i + 1)
  }

  /** The first unknown name is the one no earlier name precedes as unknown. */
  lemma FirstUnknownIs(registry: seq<string>, names: seq<string>, i: nat)
    requires i < |names| && names[i] !in registry
    requires forall j :: 0 <= j < i ==> names[j] in registry
    ensures FirstUnknown(registry, names) == Some(i)
  {
    var r := FirstUnknown(registry, names);
    if r.Some? && r.value < i {
      assert names[r.value] in registry;
    }
  }

  /** No unknown name is found when every name is registered. */
  lemma FirstUnknownNone(registry: seq<string>, names: seq<string>)
    requires forall j :: 0 <= j < |names| ==> names[j] in registry
    ensures FirstUnknown(registry, names) == None
  {
    var r := FirstUnknown(registry, names);
    if r.Some? {
      assert names[r.value] in registry;
    }
  }

  /**
   * The models a `perform` run executes: every registered model when no name is given,
   * otherwise the requested ones in request order, unless a name is unknown.
   */
  function Selection(registry: seq<string>, names: seq<string>): (r: Result<seq<string>, AgentError>)
  {
    if names == [] then Success(registry)
    else
      match FirstUnknown(registry, names)
      case Some(i) => Failure(ModelNotFound(names[i]))
      case None => Success(names)
  }

  /** The failures a `perform` run logs, in order: each failed model with its error. */
  function FailureLog(models: seq<string>, results: string -> Option<string>): (log: seq<(string, string)>)
  {
    if models == [] then []
    else
      var m := models[|models| - 1];
      FailureLog(models[..|models| - 1], results) + (if results(m).Some? then [(m, results(m).value)] else [])
  }

  /**
   * Go's `perform`, given the `--model` flag values and the positional arguments (the
   * requested names are the flag values followed by the arguments), the registered
   * model names, and what performing each model returns (`Some` error or `None`). It
   * reports which models were performed and which failures were logged.
   */
  method Perform(registry: seq<string>, flagValues: seq<string>, args: seq<string>, results: string -> Option<string>)
    returns (err: Option<AgentError>, performed: seq<string>, logged: seq<(string, string)>)
    ensures match Selection(registry, flagValues + args)
            case Failure(e) => err == Some(e) && performed == [] && logged == []
            case Success(models) => err == None && performed == models && logged == FailureLog(models, results)
  {
    var names := flagValues + args;
    var models: seq<string> := [];
    err, performed, logged := None, [], [];
    if |names| == 0 {
      models := registry;
    } else {
      var i := 0;
      while i < |names|
        invariant 0 <= i <= |names|
        invariant models == names[..i]
        invariant forall j :: 0 <= j < i ==> names[j] in registry
      {
        if names[i] !in registry {
          FirstUnknownIs(registry, names, i);
          return Some(ModelNotFound(names[i])), [], [];
        }
        models := models + [names[i]];
        i := i + 1;
      }
      assert models == names;
      FirstUnknownNone(registry, names);
    }
    var k := 0;
    while k < |models|
      invariant 0 <= k <= |models|
      invariant performed == models[..k]
      invariant logged == FailureLog(models[..k], results)
    {
      var m := models[k];
      assert models[..k + 1][..k] == models[..k];
      var r := results(m);
      performed := performed + [m];
      if r.Some? {
        logged := logged + [(m, r.value)];
      }
      k := k + 1;
    }
    assert models[..k] == models;
  }

  /**
   * Selection fails exactly when some requested name is unknown, and then it names the
   * first unknown one; when it succeeds every selected model is registered, and the
   * selection is the whole registry exactly when no name was requested.
   */
  lemma SelectionFacts(registry: seq<string>, names: seq<string>)
    ensures Selection(registry, names).Failure? <==> exists j :: 0 <= j < |names| && names[j] !in registry
    ensures Selection(registry, names).Failure? ==>
              exists j :: 0 <= j < |names| && names[j] !in registry
                          && Selection(registry, names).error == ModelNotFound(names[j])
                          && forall k :: 0 <= k < j ==> names[k] in registry
    ensures Selection(registry, names).Success? ==>
              var models := Selection(registry, names).value;
              && (forall m :: m in models ==> m in registry)
              && (models == if names == [] then registry else names)
  {
    match FirstUnknown(registry, names)
    case None =>
    case Some(i) =>
      assert names[i] !in registry;
  }

  /**
   * A failure is logged exactly for each performed model whose run failed, with its own
   * error; one entry per failed run, in the order the models were performed.
   */
  lemma {:induction false} FailureLogMembers(models: seq<string>, results: string -> Option<string>, m: string, e: string)
    ensures (m, e) in FailureLog(models, results) <==> m in models && results(m) == Some(e)
  {
    if models != [] {
      var init := models[..|models| - 1];
      var last := models[|models| - 1];
      FailureLogMembers(init, results, m, e);
      assert models == init + [last];
    }
  }

  /** Performing one model after others only adds that model's failure, at the end of the log. */
  lemma {:induction false} FailureLogAppend(models: seq<string>, more: seq<string>, results: string -> Option<string>)
    ensures FailureLog(models + more, results) == FailureLog(models, results) + FailureLog(more, results)
    decreases |more|
  {
    if more == [] {
      assert models + more == models;
    } else {
      var init := more[..|more| - 1];
      FailureLogAppend(models, init, results);
      assert (models + more)[..|models + more| - 1] == models + init;
    }
  }

  // ---------------------------------------------------------------------------
  // listBackupAgents: `ps aux`

  /**
   * The PID a line of `ps aux` output names: its second field, when the line mentions
   * "vtsbackup", does not mention "grep", has at least two fields, and that field is a number.
   */
  function PsLinePid(line: string): (pid: Option<int>)
    ensures !Text.Contains(line, "vtsbackup") || Text.Contains(line, "grep") ==> pid.None?
    ensures pid.Some? ==> Text.MinInt64 <= pid.value <= Text.MaxInt64
  {
    if Text.Contains(line, "vtsbackup") && !Text.Contains(line, "grep") then
      var fields := Text.Fields(line);
      if |fields| > 1 then Text.Atoi(fields[1]) else None
    else None
  }

  /**
   * A `ps aux` row reads as its PID: a line that starts with a user name, a white-space
   * character and the decimal PID, followed by white space or nothing, mentions
   * "vtsbackup" and does not mention "grep", names that PID.
   */
  lemma PsLineNamesPid(user: string, sp: char, pid: int, rest: string)
    requires user != [] && Text.NoSpace(user) && Text.IsSpace(sp)
    requires 0 <= pid <= Text.MaxInt64
    requires rest == [] || Text.IsSpace(rest[0])
    requires var line := user + [sp] + Text.Itoa(pid) + rest;
             Text.Contains(line, "vtsbackup") && !Text.Contains(line, "grep")
    ensures PsLinePid(user + [sp] + Text.Itoa(pid) + rest) == Some(pid)
  {
    var digits := Text.Itoa(pid);
    var line := user + [sp] + digits + rest;
    assert Text.NoSpace(digits) by {
      forall i | 0 <= i < |digits|
        ensures !Text.IsSpace(digits[i])
      {
        assert Text.IsDigit(digits[i]);
      }
    }
    assert line == user + [sp] + (digits + rest);
    Text.FieldsWordSpace(user, sp, digits + rest);
    Text.FieldsWordThen(digits, rest);
    assert Text.Fields(line)[1] == digits;
    Text.AtoiItoa(pid);
  }

  /** What each line names, in line order. */
  function LinePids(lines: seq<string>): (r: seq<Option<int>>)
    ensures |r| == |lines|
  {
    if lines == [] then [] else LinePids(lines[..|lines| - 1]) + [PsLinePid(lines[|lines| - 1])]
  }

  /** Entry `i` is what line `i` names. */
  lemma {:induction false} LinePidsAt(lines: seq<string>, i: nat)
    requires i < |lines|
    ensures LinePids(lines)[i] == PsLinePid(lines[i])
  {
    if i < |lines| - 1 {
      LinePidsAt(lines[..|lines| - 1], i);
    }
  }

  /** The values present in a sequence of optional values, in order. */
  function Present(vals: seq<Option<int>>): seq<int>
  {
    if vals == [] then []
    else
      var last := vals[|vals| - 1];
      Present(vals[..|vals| - 1]) + (if last.Some? then [last.value] else [])
  }

  /** The PIDs of the qualifying lines, in line order. */
  function PsPids(lines: seq<string>): seq<int>
  {
    Present(LinePids(lines))
  }

  /**
   * Go's `listBackupAgents`: the PIDs of the vtsbackup processes `ps aux` lists, or an
   * error when `ps` fails.
   */
  method ListBackupAgents(ps: CommandResult) returns (r: Result<seq<int>, AgentError>)
    ensures !ps.Output? ==> r == Failure(CommandFailed(ps))
    ensures ps.Output? ==> r == Success(PsPids(Text.Split(ps.stdout, '\n')))
  {
    if !ps.Output? {
      return Failure(CommandFailed(ps));
    }
    var lines := Text.Split(ps.stdout, '\n');
    ghost var named := LinePids(lines);
    var pids: seq<int> := [];
    var i := 0;
    while i < |lines|
      invariant 0 <= i <= |lines|
      invariant pids == Present(named[..i])
    {
      var line := lines[i];
      assert named[..i + 1][..i] == named[..i];
      LinePidsAt(lines, i);
      if Text.Contains(line, "vtsbackup") && !Text.Contains(line, "grep") {
        var fields := Text.Fields(line);
        if |fields| > 1 {
          var pid := Text.Atoi(fields[1]);
          if pid.Some? {
            pids := pids + [pid.value];
          }
        }
      }
      i := i + 1;
    }
    assert named[..i] == named;
    return Success(pids);
  }

  /** A value is present exactly when some entry holds it. */
  lemma {:induction false} PresentMembers(vals: seq<Option<int>>, p: int)
    ensures p in Present(vals) <==> Some(p) in vals
  {
    if vals != [] {
      var init := vals[..|vals| - 1];
      PresentMembers(init, p);
      assert vals == init + [vals[|vals| - 1]];
    }
  }

  /** Presence respects concatenation: order is kept. */
  lemma {:induction false} PresentAppend(first: seq<Option<int>>, second: seq<Option<int>>)
    ensures Present(first + second) == Present(first) + Present(second)
    decreases |second|
  {
    if second == [] {
      assert first + second == first;
    } else {
      var init := second[..|second| - 1];
      PresentAppend(first, init);
      assert (first + second)[..|first + second| - 1] == first + init;
    }
  }

  /**
   * A PID is reported exactly when some line of the output names it, and every reported
   * PID is a 64-bit integer.
   */
  lemma PsPidsMembers(lines: seq<string>, p: int)
    ensures p in PsPids(lines) <==> exists i :: 0 <= i < |lines| && PsLinePid(lines[i]) == Some(p)
    ensures p in PsPids(lines) ==> Text.MinInt64 <= p <= Text.MaxInt64
  {
    var named := LinePids(lines);
    PresentMembers(named, p);
    if Some(p) in named {
      var i :| 0 <= i < |named| && named[i] == Some(p);
      LinePidsAt(lines, i);
    }
    if exists i :: 0 <= i < |lines| && PsLinePid(lines[i]) == Some(p) {
      var i :| 0 <= i < |lines| && PsLinePid(lines[i]) == Some(p);
      LinePidsAt(lines, i);
      assert named[i] == Some(p);
    }
  }

  /** What two blocks of lines name is what the first names, then what the second names. */
  lemma {:induction false} LinePidsAppend(first: seq<string>, second: seq<string>)
    ensures LinePids(first + second) == LinePids(first) + LinePids(second)
    decreases |second|
  {
    if second == [] {
      assert first + second == first;
    } else {
      var init := second[..|second| - 1];
      var last := second[|second| - 1];
      LinePidsAppend(first, init);
      assert (first + second)[..|first + second| - 1] == first + init;
      assert (first + second)[|first + second| - 1] == last;
      assert LinePids(first) + LinePids(init) + [PsLinePid(last)]
          == LinePids(first) + (LinePids(init) + [PsLinePid(last)]);
    }
  }

  /** Line order is kept: the PIDs of two blocks of lines are those of the first block, then those of the second. */
  lemma PsPidsAppend(first: seq<string>, second: seq<string>)
    ensures PsPids(first + second) == PsPids(first) + PsPids(second)
  {
    LinePidsAppend(first, second);
    PresentAppend(LinePids(first), LinePids(second));
  }

  // ---------------------------------------------------------------------------
  // findBackupAgentPIDs: `pgrep -f "vtsbackup.*run"`

  /** Every line must be a number: the PIDs in line order, or the first line that is not one. */
  function ParsePids(lines: seq<string>): (r: Result<seq<int>, AgentError>)
  {
    if lines == [] then Success([])
    else
      match ParsePids(lines[..|lines| - 1])
      case Failure(e) => Failure(e)
      case Success(pids) =>
        match Text.Atoi(lines[|lines| - 1])
        case None => Failure(BadPid(lines[|lines| - 1]))
        case Some(p) => Success(pids + [p])
  }

  /**
   * What `findBackupAgentPIDs` returns: no PIDs and no error when `pgrep` exits with
   * status 1 (nothing matched); the command's error for any other failure; otherwise the
   * lines of the trimmed output, each of which must be a number.
   */
  function PgrepPids(pgrep: CommandResult): (r: Result<seq<int>, AgentError>)
  {
    match pgrep
    case ExitStatus(code) => if code == 1 then Success([]) else Failure(CommandFailed(pgrep))
    case CouldNotRun(_) => Failure(CommandFailed(pgrep))
    case Output(out) => ParsePids(Text.Split(Text.TrimSpace(out), '\n'))
  }

  /** A failure found in the first lines stands, whatever lines follow. */
  lemma {:induction false} ParsePidsFailureStands(lines: seq<string>, k: nat)
    requires k <= |lines| && ParsePids(lines[..k]).Failure?
    ensures ParsePids(lines) == ParsePids(lines[..k])
  {
    if k < |lines| {
      var init := lines[..|lines| - 1];
      assert init[..k] == lines[..k];
      ParsePidsFailureStands(init, k);
    } else {
      assert lines[..k] == lines;
    }
  }

  /** Go's `findBackupAgentPIDs`, stopping at the first line that is not a number. */
  method FindBackupAgentPids(pgrep: CommandResult) returns (r: Result<seq<int>, AgentError>)
    ensures r == PgrepPids(pgrep)
  {
    if pgrep.ExitStatus? && pgrep.code == 1 {
      return Success([]);
    }
    if !pgrep.Output? {
      return Failure(CommandFailed(pgrep));
    }
    var lines := Text.Split(Text.TrimSpace(pgrep.stdout), '\n');
    var pids: seq<int> := [];
    var i := 0;
    while i < |lines|
      invariant 0 <= i <= |lines|
      invariant ParsePids(lines[..i]) == Success(pids)
    {
      assert lines[..i + 1][..i] == lines[..i];
      var pid := Text.Atoi(lines[i]);
      if pid.None? {
        ParsePidsFailureStands(lines, i + 1);
        return Failure(BadPid(lines[i]));
      }
      pids := pids + [pid.value];
      i := i + 1;
    }
    assert lines[..i] == lines;
    return Success(pids);
  }

  /** Parsing succeeds exactly when every line is a number. */
  lemma {:induction false} ParsePidsAccepts(lines: seq<string>)
    ensures ParsePids(lines).Success? <==> forall i :: 0 <= i < |lines| ==> Text.Atoi(lines[i]).Some?
  {
    if lines != [] {
      var init, last := lines[..|lines| - 1], lines[|lines| - 1];
      ParsePidsAccepts(init);
      if ParsePids(init).Failure? {
        assert ParsePids(lines).Failure?;
        var j :| 0 <= j < |init| && Text.Atoi(init[j]).None?;
        assert lines[j] == init[j];
      } else if Text.Atoi(last).None? {
        assert ParsePids(lines).Failure?;
        assert lines[|lines| - 1] == last;
      } else {
        assert ParsePids(lines).Success?;
        forall i | 0 <= i < |lines|
          ensures Text.Atoi(lines[i]).Some?
        {
          if i < |init| {
            assert lines[i] == init[i];
          }
        }
      }
    }
  }

  /** After a successful parse the `i`-th PID is the `i`-th line's number. */
  lemma {:induction false} ParsePidsValues(lines: seq<string>)
    requires ParsePids(lines).Success?
    ensures var pids := ParsePids(lines).value;
            |pids| == |lines| && forall i :: 0 <= i < |lines| ==> Text.Atoi(lines[i]) == Some(pids[i])
  {
    if lines != [] {
      var init, last := lines[..|lines| - 1], lines[|lines| - 1];
      ParsePidsValues(init);
      var pids, p := ParsePids(init).value, Text.Atoi(last).value;
      assert ParsePids(lines).value == pids + [p];
      forall i | 0 <= i < |lines|
        ensures Text.Atoi(lines[i]) == Some((pids + [p])[i])
      {
        if i < |init| {
          assert lines[i] == init[i];
        }
      }
    }
  }

  /**
   * Parsing succeeds exactly when every line is a number, and then the `i`-th PID is the
   * `i`-th line's number.
   */
  lemma ParsePidsSuccess(lines: seq<string>)
    ensures ParsePids(lines).Success? <==> forall i :: 0 <= i < |lines| ==> Text.Atoi(lines[i]).Some?
    ensures ParsePids(lines).Success? ==>
              var pids := ParsePids(lines).value;
              |pids| == |lines| && forall i :: 0 <= i < |lines| ==> Text.Atoi(lines[i]) == Some(pids[i])
  {
    ParsePidsAccepts(lines);
    if ParsePids(lines).Success? {
      ParsePidsValues(lines);
    }
  }

  /** When parsing fails, it reports the first line that is not a number. */
  lemma {:induction false} ParsePidsFirstBadLine(lines: seq<string>) returns (i: nat)
    requires ParsePids(lines).Failure?
    ensures i < |lines| && Text.Atoi(lines[i]).None?
    ensures forall j :: 0 <= j < i ==> Text.Atoi(lines[j]).Some?
    ensures ParsePids(lines) == Failure(BadPid(lines[i]))
  {
    var init := lines[..|lines| - 1];
    if ParsePids(init).Failure? {
      i := ParsePidsFirstBadLine(init);
      assert lines[i] == init[i];
      assert forall j :: 0 <= j < i ==> lines[j] == init[j];
    } else {
      i := |lines| - 1;
      ParsePidsSuccess(init);
      assert forall j :: 0 <= j < i ==> lines[j] == init[j];
    }
  }

  /** The PIDs, one decimal number per line, as `pgrep` prints them. */
  function PgrepLines(pids: seq<int>): (lines: seq<string>)
    ensures |lines| == |pids|
  {
    if pids == [] then [] else [Text.Itoa(pids[0])] + PgrepLines(pids[1..])
  }

  /**
   * Reading `pgrep`'s output back gives the PIDs it printed: for any non-empty list of
   * non-negative 64-bit PIDs, each printed on its own line, `findBackupAgentPIDs`
   * returns exactly that list.
   */
  lemma PgrepRoundTrip(pids: seq<int>)
    requires |pids| >= 1
    requires forall i :: 0 <= i < |pids| ==> 0 <= pids[i] <= Text.MaxInt64
    ensures PgrepPids(Output(Text.JoinWith(PgrepLines(pids), '\n') + "\n")) == Success(pids)
  {
    var lines := PgrepLines(pids);
    PgrepLinesDigits(pids);
    var body := Text.JoinWith(lines, '\n');
    Text.JoinWithEnds(lines, '\n');
    Text.JoinSplit(lines, '\n');
    TrimNewline(body);
    ParsePidsOfPrinted(pids);
  }

  /** Every printed PID is a non-empty run of digits, so it holds no newline. */
  lemma {:induction false} PgrepLinesDigits(pids: seq<int>)
    requires forall i :: 0 <= i < |pids| ==> pids[i] >= 0
    ensures forall i :: 0 <= i < |pids| ==>
              PgrepLines(pids)[i] != [] && Text.AllDigits(PgrepLines(pids)[i]) && '\n' !in PgrepLines(pids)[i]
  {
    if pids != [] {
      PgrepLinesDigits(pids[1..]);
      forall i | 0 <= i < |pids|
        ensures PgrepLines(pids)[i] != [] && Text.AllDigits(PgrepLines(pids)[i]) && '\n' !in PgrepLines(pids)[i]
      {
        var l := PgrepLines(pids)[i];
        if i > 0 {
          assert l == PgrepLines(pids[1..])[i - 1];
        }
        assert forall c :: c in l ==> Text.IsDigit(c);
      }
    }
  }

  /** Trimming text that starts and ends with a digit, followed by a newline, drops just the newline. */
  lemma TrimNewline(s: string)
    requires s != [] && Text.IsDigit(s[0]) && Text.IsDigit(s[|s| - 1])
    ensures Text.TrimSpace(s + "\n") == s
  {
    var t := s + "\n";
    assert Text.LeadingSpace(t) == 0;
    assert t[..|t| - 1] == s;
    assert Text.TrailingSpace(t[..|t| - 1]) == 0;
    assert Text.TrailingSpace(t) == 1;
    assert t[0..] == t;
  }

  lemma {:induction false} ParsePidsOfPrinted(pids: seq<int>)
    requires forall i :: 0 <= i < |pids| ==> 0 <= pids[i] <= Text.MaxInt64
    ensures ParsePids(PgrepLines(pids)) == Success(pids)
  {
    var lines := PgrepLines(pids);
    forall i | 0 <= i < |lines|
      ensures Text.Atoi(lines[i]) == Some(pids[i])
    {
      PgrepLineAt(pids, i);
      Text.AtoiItoa(pids[i]);
    }
    ParsePidsSuccess(lines);
    var parsed := ParsePids(lines).value;
    assert |parsed| == |pids|;
    assert forall i :: 0 <= i < |pids| ==> parsed[i] == pids[i];
    assert parsed == pids;
  }

  lemma {:induction false} PgrepLineAt(pids: seq<int>, i: nat)
    requires i < |pids|
    ensures PgrepLines(pids)[i] == Text.Itoa(pids[i])
  {
    if i > 0 {
      PgrepLineAt(pids[1..], i - 1);
    }
  }

  // ---------------------------------------------------------------------------
  // downloadBackupFile: the menu number and the confirmation

  datatype MenuChoice = InvalidChoice | Cancelled | Selected(file: Storage.FileItem)

  /**
   * The check of the number read for the download menu (`None` when no number could be
   * read): 0 cancels, 1 to the number of files picks that file, anything else is invalid.
   */
  function Choose(scanned: Option<int>, files: seq<Storage.FileItem>): (choice: MenuChoice)
    ensures choice.Selected? ==> choice.file in files
    ensures choice.Cancelled? ==> scanned == Some(0)
  {
    if scanned.None? || scanned.value < 0 || scanned.value > |files| then InvalidChoice
    else if scanned.value == 0 then Cancelled
    else Selected(files[scanned.value - 1])
  }

  /**
   * A choice is valid exactly when a number was read and lies between 0 and the number
   * of files; it cancels exactly for 0; and the number shown beside the `i`-th file of
   * the menu (`i + 1`) selects that file.
   */
  lemma ChooseFacts(scanned: Option<int>, files: seq<Storage.FileItem>)
    ensures Choose(scanned, files) != InvalidChoice <==> scanned.Some? && 0 <= scanned.value <= |files|
    ensures Choose(scanned, files) == Cancelled <==> scanned == Some(0)
    ensures forall i :: 0 <= i < |files| ==> Choose(Some(i + 1), files) == Selected(files[i])
  {
  }

  /** The confirmation check: the download goes ahead unless the answer is non-empty and does not lower-case to "y". */
  function Proceed(confirm: string): (go: bool)
    ensures go ==> |confirm| <= 1
  {
    !(Text.ToLowerAscii(confirm) != "y" && confirm != "")
  }

  /** The download goes ahead exactly for the answers "", "y" and "Y". */
  lemma ProceedExactly(confirm: string)
    ensures Proceed(confirm) <==> confirm == "" || confirm == "y" || confirm == "Y"
  {
    var lower := Text.ToLowerAscii(confirm);
    if lower == "y" {
      assert |confirm| == 1;
      assert confirm == [confirm[0]];
    }
    if confirm == "Y" {
      assert lower[0] == 'y';
    }
  }
}
