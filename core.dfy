/**
 * qimba/core.py: `Job`, an external command run with checks on its input and
 * output files and append-only logging, and `Mapping`, the sample mapping
 * table with `Sample ID`, `Forward` and `Reverse` columns.
 *
 * The file system is a `FileSystem` object: the paths that exist, the text of
 * the files the model appends to, the open append handles and the commands
 * launched so far. Paths are opaque strings. What the launched process does
 * (exit code, the text it prints, the files it creates) and the clock are
 * parameters.
 */
module Core {
  import opened Wrappers
  import opened Text
  import Formats

  // ---------------------------------------------------------------------
  // File system
  // ---------------------------------------------------------------------

  /** A snapshot of the file system as far as `Job.run` touches it. */
  datatype FsState = FsState(
    existing: set<string>,
    logs: map<string, string>,
    handles: multiset<string>,
    spawned: seq<seq<string>>)

  /** The text of file `p`; a file the model never wrote to reads as empty. */
  function Content(st: FsState, p: string): string
  {
    if p in st.logs then st.logs[p] else ""
  }

  /** `Path.mkdir(parents=True, exist_ok=True)` on directory `d`. */
  function MakeDir(st: FsState, d: string): FsState
  {
    st.(existing := st.existing + {d})
  }

  /** `open(p, 'a')`: creates the file when absent, keeps its text, and holds a handle. */
  function OpenAppend(st: FsState, p: string): FsState
  {
    st.(existing := st.existing + {p}, logs := st.logs[p := Content(st, p)], handles := st.handles + multiset{p})
  }

  /** A write through an append handle adds `text` at the end of the file. */
  function AppendText(st: FsState, p: string, text: string): FsState
  {
    st.(logs := st.logs[p := Content(st, p) + text])
  }

  function CloseHandle(st: FsState, p: string): FsState
  {
    st.(handles := st.handles - multiset{p})
  }

  /** What a launched process does, as far as the model can see. */
  datatype Process = Process(code: int, out: string, err: string, creates: set<string>)

  /** Python truthiness of an optional log path: given and not empty. */
  predicate Active(log: Option<string>)
  {
    log.Some? && log.value != ""
  }

  /**
   * `subprocess.run`: the command is recorded as launched, each stream goes to
   * its log file when there is one (stderr first), and the files the process
   * creates exist afterwards.
   */
  function Spawn(st: FsState, cmd: seq<string>, proc: Process, errLog: Option<string>, outLog: Option<string>): FsState
  {
    var st1 := if Active(errLog) then AppendText(st, errLog.value, proc.err) else st;
    var st2 := if Active(outLog) then AppendText(st1, outLog.value, proc.out) else st1;
    st2.(existing := st2.existing + proc.creates, spawned := st2.spawned + [cmd])
  }

  lemma ContentAppend(st: FsState, p: string, text: string, q: string)
    ensures Content(AppendText(st, p, text), q) == Content(st, q) + (if p == q then text else "")
  {
  }

  /** `with open(p, 'a') as f: f.write(text)` */
  function WriteOnce(st: FsState, p: string, text: string): FsState
  {
    CloseHandle(AppendText(OpenAppend(st, p), p, text), p)
  }

  lemma WriteOnceContent(st: FsState, p: string, text: string, q: string)
    ensures Content(WriteOnce(st, p, text), q) == Content(st, q) + (if p == q then text else "")
    ensures q in st.logs ==> q in WriteOnce(st, p, text).logs
  {
    ContentAppend(OpenAppend(st, p), p, text, q);
  }

  /** On a file that exists, a one-off write leaves everything but the text as it was. */
  lemma WriteOnceRest(st: FsState, p: string, text: string)
    requires p in st.existing
    ensures WriteOnce(st, p, text) == st.(logs := WriteOnce(st, p, text).logs)
  {
    assert st.existing + {p} == st.existing;
    assert (st.handles + multiset{p}) - multiset{p} == st.handles;
  }

  lemma MultisetSwap(b: multiset<string>, e: multiset<string>, o: multiset<string>)
    ensures b + (e + o) == (b + o) + e
  {
  }

  lemma MultisetCancel(b: multiset<string>, x: string)
    ensures (b + multiset{x}) - multiset{x} == b
  {
  }

  lemma AppendAssoc(a: string, b: string, c: string)
    ensures a + (b + c) == (a + b) + c
  {
  }

  lemma AppendPrefix(a: string, b: string)
    ensures a <= a + b
  {
  }

  class FileSystem {
    var existing: set<string>
    var logs: map<string, string>
    var handles: multiset<string>
    var spawned: seq<seq<string>>

    function State(): FsState
      reads this
    {
      FsState(existing, logs, handles, spawned)
    }

    constructor (existing: set<string>, logs: map<string, string>)
      ensures State() == FsState(existing, logs, multiset{}, [])
    {
      this.existing := existing;
      this.logs := logs;
      this.handles := multiset{};
      this.spawned := [];
    }

    predicate Exists(p: string)
      reads this
    {
      p in existing
    }

    method MakeDirs(d: string)
      modifies this
      ensures State() == MakeDir(old(State()), d)
    {
      existing := existing + {d};
    }

    method Open(p: string)
      modifies this
      ensures State() == OpenAppend(old(State()), p)
    {
      existing := existing + {p};
      logs := logs[p := Content(State(), p)];
      handles := handles + multiset{p};
    }

    method Write(p: string, text: string)
      requires p in handles
      modifies this
      ensures State() == AppendText(old(State()), p, text)
    {
      logs := logs[p := Content(State(), p) + text];
    }

    method Close(p: string)
      requires p in handles
      modifies this
      ensures State() == CloseHandle(old(State()), p)
    {
      handles := handles - multiset{p};
    }

    /** Launches `cmd`; a stream with a log writes through that log's open handle. */
    method Launch(cmd: seq<string>, proc: Process, errLog: Option<string>, outLog: Option<string>)
      requires Active(errLog) ==> errLog.value in handles
      requires Active(outLog) ==> outLog.value in handles
      modifies this
      ensures State() == Spawn(old(State()), cmd, proc, errLog, outLog)
    {
      if Active(errLog) {
        Write(errLog.value, proc.err);
      }
      if Active(outLog) {
        Write(outLog.value, proc.out);
      }
      existing := existing + proc.creates;
      spawned := spawned + [cmd];
    }
  }

  // ---------------------------------------------------------------------
  // Job
  // ---------------------------------------------------------------------

  /** A command given as an argument list, or as one line for a shell-style splitter. */
  datatype Command = Argv(args: seq<string>) | Line(text: string)

  /** The `CompletedProcess`: output is captured only for a stream without a log. */
  datatype Completed = Completed(args: seq<string>, returncode: int, stdout: Option<string>, stderr: Option<string>)

  datatype JobError =
    | InputNotFound(path: string)               // FileNotFoundError
    | CalledProcessError(returncode: int, cmd: seq<string>)
    | OutputNotCreated(path: string)            // RuntimeError

  /** The first path of `paths` that does not exist, if any. */
  function FirstMissing(paths: seq<string>, existing: set<string>): (r: Option<string>)
    ensures r.None? <==> forall i :: 0 <= i < |paths| ==> paths[i] in existing
    ensures r.Some? ==> r.value in paths && r.value !in existing
    decreases |paths|
  {
    if |paths| == 0 then None
    else if paths[0] !in existing then Some(paths[0])
    else
      assert forall i :: 1 <= i < |paths| ==> paths[i] == paths[1..][i - 1];
      FirstMissing(paths[1..], existing)
  }

  /** The path reported is the first one missing: every path before it exists. */
  lemma {:induction false} FirstMissingAt(paths: seq<string>, existing: set<string>) returns (k: nat)
    requires FirstMissing(paths, existing).Some?
    ensures k < |paths| && paths[k] == FirstMissing(paths, existing).value
    ensures forall j :: 0 <= j < k ==> paths[j] in existing
    decreases |paths|
  {
    if paths[0] !in existing {
      return 0;
    }
    var k' := FirstMissingAt(paths[1..], existing);
    k := k' + 1;
  }

  /** `c * n` */
  function Repeat(c: char, n: nat): (r: string)
    ensures |r| == n && forall i :: 0 <= i < n ==> r[i] == c
  {
    if n == 0 then "" else [c] + Repeat(c, n - 1)
  }

  /** `'=' * 80`, the rule around a log header. */
  const Rule: string := Repeat('=', 80)

  /** The block written to each log before the command runs. */
  function Header(timestamp: string, command: seq<string>): string
  {
    "\n" + Rule + "\n" + timestamp + "\nCommand: " + Join(" ", command) + "\n" + Rule + "\n"
  }

  function Captured(log: Option<string>, text: string): Option<string>
  {
    if Active(log) then None else Some(text)
  }

  class Job {
    const command: seq<string>
    const requiredInput: seq<string>
    const requiredOutput: seq<string>
    const logStderr: Option<string>
    const logStdout: Option<string>
    const shell: bool

    /** A string command goes through `split` (shell-style splitting); a list is kept. */
    constructor (command: Command, requiredInput: Option<seq<string>>, requiredOutput: Option<seq<string>>,
                 logStderr: Option<string>, logStdout: Option<string>, shell: bool, split: string -> seq<string>)
      ensures this.command == match command case Argv(args) => args case Line(text) => split(text)
      ensures this.requiredInput == requiredInput.GetOr([]) && this.requiredOutput == requiredOutput.GetOr([])
      ensures this.logStderr == logStderr && this.logStdout == logStdout && this.shell == shell
    {
      this.command := match command case Argv(args) => args case Line(text) => split(text);
      this.requiredInput := requiredInput.GetOr([]);
      this.requiredOutput := requiredOutput.GetOr([]);
      this.logStderr := logStderr;
      this.logStdout := logStdout;
      this.shell := shell;
    }

    /** `str(job)`: the arguments joined by single spaces. */
    function Str(): string
    {
      Join(" ", command)
    }

    /** Splitting `str(job)` on spaces gives the command back when no argument holds a space. */
    lemma StrSplitsBack()
      requires |command| >= 1
      requires forall i :: 0 <= i < |command| ==> ' ' !in command[i]
      ensures Split(Str(), ' ') == command
    {
      assert " " == [' '];
      SplitJoin(command, ' ');
    }

    /** The log handles `run` holds while the process runs. */
    function LogHandles(): multiset<string>
    {
      (if Active(logStderr) then multiset{logStderr.value} else multiset{})
      + (if Active(logStdout) then multiset{logStdout.value} else multiset{})
    }

    function MadeLogDirs(st: FsState): FsState
    {
      var st1 := if Active(logStderr) then MakeDir(st, Parent(logStderr.value)) else st;
      if Active(logStdout) then MakeDir(st1, Parent(logStdout.value)) else st1
    }

    function OpenedLogs(st: FsState): FsState
    {
      var st1 := if Active(logStderr) then OpenAppend(st, logStderr.value) else st;
      if Active(logStdout) then OpenAppend(st1, logStdout.value) else st1
    }

    function WroteHeaders(st: FsState, header: string): FsState
    {
      var st1 := if Active(logStderr) then WriteOnce(st, logStderr.value, header) else st;
      if Active(logStdout) then WriteOnce(st1, logStdout.value, header) else st1
    }

    function ClosedLogs(st: FsState): FsState
    {
      var st1 := if Active(logStderr) then CloseHandle(st, logStderr.value) else st;
      if Active(logStdout) then CloseHandle(st1, logStdout.value) else st1
    }

    /** The file system after the process ran, before the handles are closed. */
    function Ran(st: FsState, header: string, proc: Process): FsState
    {
      Spawn(WroteHeaders(OpenedLogs(MadeLogDirs(st)), header), command, proc, logStderr, logStdout)
    }

    /** `run(check)`: its outcome and the file system afterwards. */
    function RunSpec(st: FsState, check: bool, timestamp: string, proc: Process): (Result<Completed, JobError>, FsState)
    {
      match FirstMissing(requiredInput, st.existing)
      case Some(p) => (Err(InputNotFound(p)), st)
      case None =>
        var ran := Ran(st, Header(timestamp, command), proc);
        (RunResult(ran, check, proc), ClosedLogs(ran))
    }

    /** What `run` returns or raises once the process has run, given the file system then. */
    function RunResult(ran: FsState, check: bool, proc: Process): Result<Completed, JobError>
    {
      if check && proc.code != 0 then Err(CalledProcessError(proc.code, command))
      else match FirstMissing(requiredOutput, ran.existing)
        case Some(p) => Err(OutputNotCreated(p))
        case None => Ok(Completed(command, proc.code, Captured(logStdout, proc.out), Captured(logStderr, proc.err)))
    }

    /** The loop of `_validate_inputs` and `_validate_outputs`: the first path that does not exist. */
    static method FindMissing(fs: FileSystem, paths: seq<string>) returns (missing: Option<string>)
      ensures missing == FirstMissing(paths, fs.existing)
    {
      var i := 0;
      while i < |paths|
        invariant 0 <= i <= |paths|
        invariant FirstMissing(paths, fs.existing) == FirstMissing(paths[i..], fs.existing)
      {
        if !fs.Exists(paths[i]) {
          return Some(paths[i]);
        }
        assert paths[i..][1..] == paths[i + 1..];
        i := i + 1;
      }
      return None;
    }

    method ValidateInputs(fs: FileSystem) returns (r: Outcome<JobError>)
      ensures r.Pass? <==> forall i :: 0 <= i < |requiredInput| ==> requiredInput[i] in fs.existing
      ensures r.Fail? ==> r.error == InputNotFound(FirstMissing(requiredInput, fs.existing).value)
    {
      var missing := FindMissing(fs, requiredInput);
      r := if missing.Some? then Fail(InputNotFound(missing.value)) else Pass;
    }

    method ValidateOutputs(fs: FileSystem) returns (r: Outcome<JobError>)
      ensures r.Pass? <==> forall i :: 0 <= i < |requiredOutput| ==> requiredOutput[i] in fs.existing
      ensures r.Fail? ==> r.error == OutputNotCreated(FirstMissing(requiredOutput, fs.existing).value)
    {
      var missing := FindMissing(fs, requiredOutput);
      r := if missing.Some? then Fail(OutputNotCreated(missing.value)) else Pass;
    }

    method EnsureLogDirs(fs: FileSystem)
      modifies fs
      ensures fs.State() == MadeLogDirs(old(fs.State()))
    {
      if Active(logStderr) {
        fs.MakeDirs(Parent(logStderr.value));
      }
      if Active(logStdout) {
        fs.MakeDirs(Parent(logStdout.value));
      }
    }

    method OpenLogs(fs: FileSystem)
      modifies fs
      ensures fs.State() == OpenedLogs(old(fs.State()))
      ensures fs.handles == old(fs.handles) + LogHandles()
    {
      if Active(logStderr) {
        fs.Open(logStderr.value);
      }
      if Active(logStdout) {
        fs.Open(logStdout.value);
      }
    }

    method WriteCommandToLogs(fs: FileSystem, timestamp: string)
      modifies fs
      ensures fs.State() == WroteHeaders(old(fs.State()), Header(timestamp, command))
      ensures fs.handles == old(fs.handles)
    {
      var header := Header(timestamp, command);
      if Active(logStderr) {
        fs.Open(logStderr.value);
        fs.Write(logStderr.value, header);
        fs.Close(logStderr.value);
      }
      if Active(logStdout) {
        fs.Open(logStdout.value);
        fs.Write(logStdout.value, header);
        fs.Close(logStdout.value);
      }
    }

    method CloseLogs(fs: FileSystem)
      requires LogHandles() <= fs.handles
      modifies fs
      ensures fs.State() == ClosedLogs(old(fs.State()))
    {
      if Active(logStderr) {
        fs.Close(logStderr.value);
      }
      if Active(logStdout) {
        assert logStdout.value in fs.handles;
        fs.Close(logStdout.value);
      }
    }

    /** `run(check)`; `timestamp` stands for the clock and `proc` for what the process does. */
    method Run(fs: FileSystem, check: bool, timestamp: string, proc: Process) returns (r: Result<Completed, JobError>)
      modifies fs
      ensures (r, fs.State()) == RunSpec(old(fs.State()), check, timestamp, proc)
    {
      var inputs := ValidateInputs(fs);
      if inputs.Fail? {
        return Err(inputs.error);
      }
      ghost var st := fs.State();
      assert FirstMissing(requiredInput, st.existing).None?;
      EnsureLogDirs(fs);
      OpenLogs(fs);
      WriteCommandToLogs(fs, timestamp);
      fs.Launch(command, proc, logStderr, logStdout);
      ghost var ran := fs.State();
      assert ran == Ran(st, Header(timestamp, command), proc);
      if check && proc.code != 0 {
        CloseLogs(fs);
        r := Err(CalledProcessError(proc.code, command));
        assert r == RunResult(ran, check, proc);
        return;
      }
      var outputs := ValidateOutputs(fs);
      CloseLogs(fs);
      if outputs.Fail? {
        r := Err(outputs.error);
      } else {
        r := Ok(Completed(command, proc.code, Captured(logStdout, proc.out), Captured(logStderr, proc.err)));
      }
      assert r == RunResult(ran, check, proc);
    }

    /** The paths `run` makes exist besides what the process creates: each log's directory and the log itself. */
    function LogPaths(): set<string>
    {
      (if Active(logStderr) then {Parent(logStderr.value), logStderr.value} else {})
      + (if Active(logStdout) then {Parent(logStdout.value), logStdout.value} else {})
    }

    predicate ToErr(q: string)
    {
      Active(logStderr) && logStderr.value == q
    }

    predicate ToOut(q: string)
    {
      Active(logStdout) && logStdout.value == q
    }

    /** The headers written to file `q`: one for each log that names it. */
    function HeaderGrowth(q: string, header: string): string
    {
      (if ToErr(q) then header else "") + (if ToOut(q) then header else "")
    }

    /** What the process prints to file `q`: its stderr, then its stdout. */
    function OutputGrowth(q: string, proc: Process): string
    {
      (if ToErr(q) then proc.err else "") + (if ToOut(q) then proc.out else "")
    }

    /** The text `run` adds to file `q`: the headers first, then what the process printed to it. */
    function LogGrowth(q: string, header: string, proc: Process): string
    {
      HeaderGrowth(q, header) + OutputGrowth(q, proc)
    }

    lemma OpenedContent(st: FsState, q: string)
      ensures var st1 := OpenedLogs(MadeLogDirs(st));
        Content(st1, q) == Content(st, q) && (q in st.logs ==> q in st1.logs)
    {
    }

    lemma OpenedHandles(st: FsState)
      ensures OpenedLogs(MadeLogDirs(st)).handles == st.handles + LogHandles()
    {
    }

    lemma OpenedExisting(st: FsState)
      ensures OpenedLogs(MadeLogDirs(st)).existing == st.existing + LogPaths()
    {
    }

    lemma OpenedSpawned(st: FsState)
      ensures OpenedLogs(MadeLogDirs(st)).spawned == st.spawned
    {
    }

    lemma WroteContent(st: FsState, header: string, q: string)
      ensures var st1 := WroteHeaders(st, header);
        Content(st1, q) == Content(st, q) + HeaderGrowth(q, header) && (q in st.logs ==> q in st1.logs)
    {
      var e1 := if Active(logStderr) then WriteOnce(st, logStderr.value, header) else st;
      if Active(logStderr) {
        WriteOnceContent(st, logStderr.value, header, q);
      }
      if Active(logStdout) {
        WriteOnceContent(e1, logStdout.value, header, q);
      }
      AppendAssoc(Content(st, q), if ToErr(q) then header else "", if ToOut(q) then header else "");
    }

    /** Writing the headers opens and closes its own handles, on files that already exist. */
    lemma WroteRest(st: FsState, header: string)
      requires Active(logStderr) ==> logStderr.value in st.existing
      requires Active(logStdout) ==> logStdout.value in st.existing
      ensures WroteHeaders(st, header) == st.(logs := WroteHeaders(st, header).logs)
    {
      var e1 := if Active(logStderr) then WriteOnce(st, logStderr.value, header) else st;
      if Active(logStderr) {
        WriteOnceRest(st, logStderr.value, header);
      }
      if Active(logStdout) {
        WriteOnceRest(e1, logStdout.value, header);
      }
    }

    lemma SpawnContent(st: FsState, proc: Process, q: string)
      ensures var st1 := Spawn(st, command, proc, logStderr, logStdout);
        Content(st1, q) == Content(st, q) + OutputGrowth(q, proc) && (q in st.logs ==> q in st1.logs)
    {
      var e1 := if Active(logStderr) then AppendText(st, logStderr.value, proc.err) else st;
      if Active(logStderr) {
        ContentAppend(st, logStderr.value, proc.err, q);
      }
      if Active(logStdout) {
        ContentAppend(e1, logStdout.value, proc.out, q);
      }
      AppendAssoc(Content(st, q), if ToErr(q) then proc.err else "", if ToOut(q) then proc.out else "");
    }

    lemma SpawnRest(st: FsState, proc: Process)
      ensures var st1 := Spawn(st, command, proc, logStderr, logStdout);
        st1 == st.(logs := st1.logs, existing := st.existing + proc.creates, spawned := st.spawned + [command])
    {
    }

    lemma ClosedSteps(st: FsState, base: multiset<string>)
      requires st.handles == base + LogHandles()
      ensures ClosedLogs(st) == st.(handles := base)
    {
      var e := if Active(logStderr) then multiset{logStderr.value} else multiset{};
      var o := if Active(logStdout) then multiset{logStdout.value} else multiset{};
      MultisetSwap(base, e, o);
      if Active(logStderr) {
        MultisetCancel(base + o, logStderr.value);
      }
      if Active(logStdout) {
        MultisetCancel(base, logStdout.value);
      }
    }

    lemma ClosedKeepsFiles(st: FsState)
      ensures ClosedLogs(st) == st.(handles := ClosedLogs(st).handles)
    {
    }

    /** What `run` does to each file's text up to the point where it closes its handles. */
    lemma RanContent(st: FsState, header: string, proc: Process, q: string)
      ensures Content(Ran(st, header, proc), q) == Content(st, q) + LogGrowth(q, header, proc)
      ensures q in st.logs ==> q in Ran(st, header, proc).logs
    {
      var st1 := OpenedLogs(MadeLogDirs(st));
      OpenedContent(st, q);
      WroteContent(st1, header, q);
      SpawnContent(WroteHeaders(st1, header), proc, q);
      AppendAssoc(Content(st, q), HeaderGrowth(q, header), OutputGrowth(q, proc));
    }

    /**
     * A missing input stops `run` before anything happens: the first missing
     * input is reported, and no directory is made, no log written and nothing
     * launched.
     */
    lemma RunInputMissing(st: FsState, check: bool, timestamp: string, proc: Process, k: nat)
      requires k < |requiredInput| && requiredInput[k] !in st.existing
      requires forall j :: 0 <= j < k ==> requiredInput[j] in st.existing
      ensures RunSpec(st, check, timestamp, proc) == (Err(InputNotFound(requiredInput[k])), st)
    {
      var i := FirstMissingAt(requiredInput, st.existing);
      assert !(i < k) && !(k < i);
    }

    /**
     * Once the inputs exist the command is launched exactly once, each log's
     * directory and file exist, the files the process made exist, and every
     * handle `run` opened is closed again.
     */
    lemma RunEffects(st: FsState, check: bool, timestamp: string, proc: Process)
      requires forall i :: 0 <= i < |requiredInput| ==> requiredInput[i] in st.existing
      ensures var after := RunSpec(st, check, timestamp, proc).1;
        && after.spawned == st.spawned + [command]
        && after.handles == st.handles
        && after.existing == st.existing + LogPaths() + proc.creates
    {
      var header := Header(timestamp, command);
      var st1 := OpenedLogs(MadeLogDirs(st));
      OpenedHandles(st);
      OpenedExisting(st);
      OpenedSpawned(st);
      var st2 := WroteHeaders(st1, header);
      WroteRest(st1, header);
      SpawnRest(st2, proc);
      var ran := Ran(st, header, proc);
      ClosedSteps(ran, st.handles);
    }

    /** Files are only ever appended to: every file keeps its old text as a prefix. */
    lemma RunAppendsOnly(st: FsState, check: bool, timestamp: string, proc: Process, q: string)
      ensures var after := RunSpec(st, check, timestamp, proc).1;
        && (q in st.logs ==> q in after.logs)
        && Content(st, q) <= Content(after, q)
    {
      if FirstMissing(requiredInput, st.existing).None? {
        var header := Header(timestamp, command);
        RanContent(st, header, proc, q);
        ClosedKeepsFiles(Ran(st, header, proc));
        AppendPrefix(Content(st, q), LogGrowth(q, header, proc));
      }
    }

    /**
     * Each log named gets the header block right after its old text, and
     * its new text is exactly the old text, the headers written to it, then
     * what the process printed to it.
     */
    lemma RunWritesHeader(st: FsState, check: bool, timestamp: string, proc: Process, log: Option<string>)
      requires forall i :: 0 <= i < |requiredInput| ==> requiredInput[i] in st.existing
      requires log == logStderr || log == logStdout
      requires Active(log)
      ensures var after := RunSpec(st, check, timestamp, proc).1;
        Content(st, log.value) + Header(timestamp, command) <= Content(after, log.value)
      ensures var after := RunSpec(st, check, timestamp, proc).1;
        Content(after, log.value) == Content(st, log.value) + LogGrowth(log.value, Header(timestamp, command), proc)
    {
      var header := Header(timestamp, command);
      var q := log.value;
      RanContent(st, header, proc, q);
      ClosedKeepsFiles(Ran(st, header, proc));
      var again := if ToErr(q) && ToOut(q) then header else "";
      assert HeaderGrowth(q, header) == header + again;
      var out := OutputGrowth(q, proc);
      AppendAssoc(header, again, out);
      AppendAssoc(Content(st, q), header, again + out);
      AppendPrefix(Content(st, q) + header, again + out);
    }

    /**
     * The outcome of `run` once the inputs exist: with `check` a non-zero exit
     * raises `CalledProcessError` and the outputs are not looked at; otherwise
     * the outputs are checked whatever the exit code, the first missing one
     * raising `RuntimeError`, and the result captures the streams that have no
     * log.
     */
    lemma RunOutcome(st: FsState, check: bool, timestamp: string, proc: Process)
      requires forall i :: 0 <= i < |requiredInput| ==> requiredInput[i] in st.existing
      ensures var r := RunSpec(st, check, timestamp, proc).0;
              var after := RunSpec(st, check, timestamp, proc).1;
        && (check && proc.code != 0 ==> r == Err(CalledProcessError(proc.code, command)))
        && (!check || proc.code == 0 ==>
              && (r.Ok? <==> forall i :: 0 <= i < |requiredOutput| ==> requiredOutput[i] in after.existing)
              && (r.Ok? ==> r.value == Completed(command, proc.code, Captured(logStdout, proc.out), Captured(logStderr, proc.err)))
              && (r.Err? ==> r.error.OutputNotCreated? && r.error.path in requiredOutput && r.error.path !in after.existing
                             && FirstMissing(requiredOutput, after.existing) == Some(r.error.path)))
    {
      var ran := Ran(st, Header(timestamp, command), proc);
      assert RunSpec(st, check, timestamp, proc).1.existing == ran.existing;
      var m := FirstMissing(requiredOutput, ran.existing);
    }
  }

  // ---------------------------------------------------------------------
  // Mapping
  // ---------------------------------------------------------------------

  datatype MappingError =
    | EmptyMapping                                  // no header line
    | MissingMappingColumns(missing: set<string>)
    | MappingWidth(line: nat, expected: nat, got: nat)
    | DuplicateSampleId(id: string)
    | ForwardNotFound(id: string, path: string)
    | ReverseNotFound(id: string, path: string)
    | UnknownSample(id: string)                     // KeyError of the lookups

  const MappingRequired: set<string> := {"Sample ID", "Forward", "Reverse"}

  /** The samples read so far: ids in file order and each id's row as a column-to-cell dict. */
  datatype MappingTable = MappingTable(order: seq<string>, samples: map<string, map<string, string>>)

  datatype LoadedMapping = LoadedMapping(columns: seq<string>, table: MappingTable)

  /** The column index names the three required columns and real positions only. */
  predicate Indexes(columns: seq<string>, m: map<string, nat>)
  {
    MappingRequired <= m.Keys && forall c :: c in m ==> m[c] < |columns|
  }

  function RowData(m: map<string, nat>, row: seq<string>): (data: map<string, string>)
    requires forall c :: c in m ==> m[c] < |row|
    ensures data.Keys == m.Keys
    ensures forall c :: c in m ==> data[c] == row[m[c]]
  {
    map c | c in m :: row[m[c]]
  }

  /** One data row on line `line`. */
  function ReadMappingRow(columns: seq<string>, m: map<string, nat>, existing: set<string>,
                          t: MappingTable, row: seq<string>, line: nat): Result<MappingTable, MappingError>
    requires Indexes(columns, m)
  {
    if |row| != |columns| then Err(MappingWidth(line, |columns|, |row|))
    else
      var id := row[m["Sample ID"]];
      if id in t.samples then Err(DuplicateSampleId(id))
      else
        var data := RowData(m, row);
        if data["Forward"] !in existing then Err(ForwardNotFound(id, data["Forward"]))
        else if data["Reverse"] !in existing then Err(ReverseNotFound(id, data["Reverse"]))
        else Ok(MappingTable(t.order + [id], t.samples[id := data]))
  }

  /** The data rows, the first on line 2, stopping at the first error. */
  function MappingRows(columns: seq<string>, m: map<string, nat>, existing: set<string>,
                       rows: seq<seq<string>>): Result<MappingTable, MappingError>
    requires Indexes(columns, m)
    decreases |rows|
  {
    if |rows| == 0 then Ok(MappingTable([], map[]))
    else
      match MappingRows(columns, m, existing, rows[..|rows| - 1])
      case Err(e) => Err(e)
      case Ok(t) => ReadMappingRow(columns, m, existing, t, rows[|rows| - 1], |rows| + 1)
  }

  function ColumnSet(columns: seq<string>): set<string>
  {
    set c | c in columns
  }

  /** `_load_mapping` on a table of rows; `existing` is the set of paths that exist. */
  function LoadMapping(table: seq<seq<string>>, existing: set<string>): Result<LoadedMapping, MappingError>
  {
    if |table| == 0 then Err(EmptyMapping)
    else
      var columns := table[0];
      var missing := MappingRequired - ColumnSet(columns);
      if missing != {} then Err(MissingMappingColumns(missing))
      else
        var m := Formats.ColumnIndex(columns);
        RequiredIndexed(columns);
        match MappingRows(columns, m, existing, table[1..])
        case Err(e) => Err(e)
        case Ok(t) => Ok(LoadedMapping(columns, t))
  }

  predicate Distinct(s: seq<string>)
  {
    forall i, j :: 0 <= i < j < |s| ==> s[i] != s[j]
  }

  /** What a loaded mapping keeps: every id once, each sample's dict over the columns, keyed by its own id. */
  ghost predicate Keyed(columns: seq<string>, t: MappingTable)
  {
    && Distinct(t.order)
    && (forall id :: id in t.samples <==> id in t.order)
    && forall id :: id in t.samples ==>
         && t.samples[id].Keys == ColumnSet(columns)
         && "Sample ID" in t.samples[id] && t.samples[id]["Sample ID"] == id
  }

  /** Every sample's read files exist. */
  ghost predicate ReadsExist(t: MappingTable, existing: set<string>)
  {
    forall id :: id in t.samples ==>
      && "Forward" in t.samples[id] && t.samples[id]["Forward"] in existing
      && "Reverse" in t.samples[id] && t.samples[id]["Reverse"] in existing
  }

  lemma ColumnKeys(columns: seq<string>)
    ensures Formats.ColumnIndex(columns).Keys == ColumnSet(columns)
  {
    var m := Formats.ColumnIndex(columns);
    forall c | c in ColumnSet(columns) ensures c in m {
      var i :| 0 <= i < |columns| && columns[i] == c;
    }
  }

  /** A header with the three required columns gives an index over exactly its columns. */
  lemma RequiredIndexed(columns: seq<string>)
    requires MappingRequired - ColumnSet(columns) == {}
    ensures Formats.ColumnIndex(columns).Keys == ColumnSet(columns)
    ensures Indexes(columns, Formats.ColumnIndex(columns))
  {
    ColumnKeys(columns);
    forall c | c in MappingRequired ensures c in ColumnSet(columns) {
      assert c !in MappingRequired - ColumnSet(columns);
    }
  }

  /**
   * Loaded rows: one sample per data row in file order, every row as wide as
   * the header, ids distinct, each dict over all columns and keyed by its own
   * `Sample ID`, and both read files present.
   */
  lemma {:induction false} MappingRowsShape(columns: seq<string>, m: map<string, nat>, existing: set<string>, rows: seq<seq<string>>)
    requires Indexes(columns, m)
    requires m.Keys == ColumnSet(columns)
    requires MappingRows(columns, m, existing, rows).Ok?
    ensures var t := MappingRows(columns, m, existing, rows).value;
      && |t.order| == |rows|
      && (forall i :: 0 <= i < |rows| ==> |rows[i]| == |columns| && t.order[i] == rows[i][m["Sample ID"]])
      && Keyed(columns, t)
      && ReadsExist(t, existing)
    decreases |rows|
  {
    if |rows| > 0 {
      var init := rows[..|rows| - 1];
      MappingRowsShape(columns, m, existing, init);
      var t := MappingRows(columns, m, existing, init).value;
      var row := rows[|rows| - 1];
      var t' := MappingRows(columns, m, existing, rows).value;
      var id := row[m["Sample ID"]];
      assert t' == MappingTable(t.order + [id], t.samples[id := RowData(m, row)]);
      forall i | 0 <= i < |rows| - 1 ensures rows[i] == init[i] {
      }
    }
  }

  /**
   * Loaded contents: the dict stored for the i-th data row is exactly that
   * row's cells, column by column.
   */
  lemma {:induction false} MappingRowsData(columns: seq<string>, m: map<string, nat>, existing: set<string>, rows: seq<seq<string>>)
    requires Indexes(columns, m)
    requires MappingRows(columns, m, existing, rows).Ok?
    ensures var t := MappingRows(columns, m, existing, rows).value;
      && |t.order| == |rows|
      && forall i :: 0 <= i < |rows| ==>
           && |rows[i]| == |columns|
           && t.order[i] in t.samples
           && t.samples[t.order[i]] == RowData(m, rows[i])
    decreases |rows|
  {
    if |rows| > 0 {
      var init := rows[..|rows| - 1];
      MappingRowsData(columns, m, existing, init);
      var t := MappingRows(columns, m, existing, init).value;
      var row := rows[|rows| - 1];
      MappingRowsLast(columns, m, existing, rows);
      var id := row[m["Sample ID"]];
      StoredRows(t, id, RowData(m, row), m, init);
      forall i | 0 <= i < |rows| - 1 ensures rows[i] == init[i] {
      }
    }
  }

  /** A load that succeeds is the load of all rows but the last, then that row stored under its new id. */
  lemma MappingRowsLast(columns: seq<string>, m: map<string, nat>, existing: set<string>, rows: seq<seq<string>>)
    requires Indexes(columns, m)
    requires |rows| > 0 && MappingRows(columns, m, existing, rows).Ok?
    ensures MappingRows(columns, m, existing, rows[..|rows| - 1]).Ok?
    ensures var t, row := MappingRows(columns, m, existing, rows[..|rows| - 1]).value, rows[|rows| - 1];
      && |row| == |columns| && row[m["Sample ID"]] !in t.samples
      && MappingRows(columns, m, existing, rows).value
         == MappingTable(t.order + [row[m["Sample ID"]]], t.samples[row[m["Sample ID"]] := RowData(m, row)])
  {
  }

  /** Storing a new id keeps what the earlier rows stored under theirs. */
  lemma StoredRows(t: MappingTable, id: string, data: map<string, string>, m: map<string, nat>, init: seq<seq<string>>)
    requires |t.order| == |init| && id !in t.samples
    requires forall i :: 0 <= i < |init| ==> t.order[i] in t.samples
    requires forall i :: 0 <= i < |init| ==> forall c :: c in m ==> m[c] < |init[i]|
    requires forall i :: 0 <= i < |init| ==> t.samples[t.order[i]] == RowData(m, init[i])
    ensures var t' := MappingTable(t.order + [id], t.samples[id := data]);
      forall i :: 0 <= i < |init| ==> t'.samples[t'.order[i]] == RowData(m, init[i])
  {
  }

  /**
   * A failed load names the row it failed on: the rows before it were read,
   * and a duplicate names that row's id, which was read before; a missing
   * forward file names a new id and its forward cell, which does not exist;
   * a missing reverse file names a new id whose forward file exists, and its
   * reverse cell, which does not.
   */
  lemma {:induction false} MappingRowsRowError(columns: seq<string>, m: map<string, nat>, existing: set<string>, rows: seq<seq<string>>)
    returns (k: nat)
    requires Indexes(columns, m)
    requires MappingRows(columns, m, existing, rows).Err?
    ensures k < |rows| && MappingRows(columns, m, existing, rows[..k]).Ok?
    ensures var e, t, row := MappingRows(columns, m, existing, rows).error, MappingRows(columns, m, existing, rows[..k]).value, rows[k];
      && (e.MappingWidth? ==> e.line == k + 2 && e.expected == |columns| && e.got == |row| != |columns|)
      && (e.DuplicateSampleId? ==> |row| == |columns| && e.id == row[m["Sample ID"]] && e.id in t.samples)
      && (e.ForwardNotFound? ==>
            && |row| == |columns| && e.id == row[m["Sample ID"]] && e.id !in t.samples
            && e.path == row[m["Forward"]] && e.path !in existing)
      && (e.ReverseNotFound? ==>
            && |row| == |columns| && e.id == row[m["Sample ID"]] && e.id !in t.samples
            && row[m["Forward"]] in existing && e.path == row[m["Reverse"]] && e.path !in existing)
      && (e.MappingWidth? || e.DuplicateSampleId? || e.ForwardNotFound? || e.ReverseNotFound?)
    decreases |rows|
  {
    var init := rows[..|rows| - 1];
    match MappingRows(columns, m, existing, init)
    case Err(_) =>
      k := MappingRowsRowError(columns, m, existing, init);
      assert init[..k] == rows[..k] && init[k] == rows[k];
    case Ok(_) =>
      k := |rows| - 1;
      assert rows[..k] == init;
  }

  /**
   * A width error names the first row whose width differs from the header's,
   * on its line number counted from 2; the rows before it were read.
   */
  lemma {:induction false} MappingRowsWidthError(columns: seq<string>, m: map<string, nat>, existing: set<string>, rows: seq<seq<string>>)
    requires Indexes(columns, m)
    requires MappingRows(columns, m, existing, rows).Err? && MappingRows(columns, m, existing, rows).error.MappingWidth?
    ensures var e := MappingRows(columns, m, existing, rows).error;
      && 2 <= e.line <= |rows| + 1
      && e.expected == |columns| && e.got == |rows[e.line - 2]| != |columns|
      && MappingRows(columns, m, existing, rows[..e.line - 2]).Ok?
    decreases |rows|
  {
    var init := rows[..|rows| - 1];
    var e := MappingRows(columns, m, existing, rows).error;
    match MappingRows(columns, m, existing, init)
    case Err(e0) =>
      MappingRowsWidthError(columns, m, existing, init);
      assert init[..e.line - 2] == rows[..e.line - 2];
    case Ok(_) =>
      assert rows[..|rows| - 1] == init;
  }

  /** Every row of a table that loads has the header's width, and every data row is a sample. */
  lemma LoadMappingShape(table: seq<seq<string>>, existing: set<string>)
    requires LoadMapping(table, existing).Ok?
    ensures var l := LoadMapping(table, existing).value;
      && l.columns == table[0]
      && MappingRequired <= ColumnSet(l.columns)
      && |l.table.order| == |table| - 1
      && (forall i :: 1 <= i < |table| ==> |table[i]| == |table[0]|)
      && Keyed(l.columns, l.table)
      && ReadsExist(l.table, existing)
      && (forall i :: 1 <= i < |table| ==>
            l.table.samples[l.table.order[i - 1]] == RowData(Formats.ColumnIndex(table[0]), table[i]))
  {
    var columns := table[0];
    var m := Formats.ColumnIndex(columns);
    RequiredIndexed(columns);
    MappingRowsShape(columns, m, existing, table[1..]);
    MappingRowsData(columns, m, existing, table[1..]);
    forall i | 1 <= i < |table| ensures |table[i]| == |table[0]| {
      assert table[i] == table[1..][i - 1];
    }
  }

  /** The ids of `order` whose dict has `attr` mapped to `value`, in order. */
  function MatchingIds(order: seq<string>, samples: map<string, map<string, string>>, attr: string, value: string): (ids: seq<string>)
    ensures forall x :: x in ids <==> x in order && x in samples && attr in samples[x] && samples[x][attr] == value
    ensures Distinct(order) ==> Distinct(ids)
    ensures |ids| <= |order|
    decreases |order|
  {
    if |order| == 0 then []
    else
      var init := order[..|order| - 1];
      var id := order[|order| - 1];
      var ids := MatchingIds(init, samples, attr, value);
      assert forall x :: x in init ==> x in order;
      if id in samples && attr in samples[id] && samples[id][attr] == value then
        assert Distinct(order) ==> id !in init;
        ids + [id]
      else ids
  }

  /** Where in `order` the ids `MatchingIds` lists sit. */
  ghost function MatchingPositions(order: seq<string>, samples: map<string, map<string, string>>, attr: string, value: string): seq<nat>
    decreases |order|
  {
    if |order| == 0 then []
    else
      var n := |order| - 1;
      var id := order[n];
      MatchingPositions(order[..n], samples, attr, value)
        + (if id in samples && attr in samples[id] && samples[id][attr] == value then [n] else [])
  }

  /** The listed ids sit at increasing positions of `order`. */
  lemma {:induction false} MatchingPositionsAt(order: seq<string>, samples: map<string, map<string, string>>, attr: string, value: string)
    ensures var r, pos := MatchingIds(order, samples, attr, value), MatchingPositions(order, samples, attr, value);
      |pos| == |r|
      && (forall i :: 0 <= i < |pos| ==> pos[i] < |order| && order[pos[i]] == r[i])
      && (forall i, j :: 0 <= i < j < |pos| ==> pos[i] < pos[j])
    decreases |order|
  {
    if |order| > 0 {
      var n := |order| - 1;
      var init, id := order[..n], order[n];
      var hit := id in samples && attr in samples[id] && samples[id][attr] == value;
      MatchingPositionsAt(init, samples, attr, value);
      var r, pos := MatchingIds(init, samples, attr, value), MatchingPositions(init, samples, attr, value);
      assert MatchingIds(order, samples, attr, value) == r + (if hit then [id] else []);
      assert MatchingPositions(order, samples, attr, value) == pos + (if hit then [n] else []);
      forall i | 0 <= i < |pos| ensures init[pos[i]] == order[pos[i]] {
      }
    }
  }

  /** `get_samples_by_attr` lists the matching ids in iteration order. */
  lemma MatchingIdsOrder(order: seq<string>, samples: map<string, map<string, string>>, attr: string, value: string)
    ensures var r := MatchingIds(order, samples, attr, value);
      forall i, j :: 0 <= i < j < |r| ==>
        exists p, q :: 0 <= p < q < |order| && order[p] == r[i] && order[q] == r[j]
  {
    var r, pos := MatchingIds(order, samples, attr, value), MatchingPositions(order, samples, attr, value);
    MatchingPositionsAt(order, samples, attr, value);
    forall i, j | 0 <= i < j < |r|
      ensures exists p, q :: 0 <= p < q < |order| && order[p] == r[i] && order[q] == r[j]
    {
      assert pos[i] < pos[j] && order[pos[i]] == r[i] && order[pos[j]] == r[j];
    }
  }

  lemma DistinctCard(s: seq<string>)
    requires Distinct(s)
    ensures |set x | x in s| == |s|
  {
    if |s| > 0 {
      var init := s[..|s| - 1];
      DistinctCard(init);
      assert (set x | x in s) == (set x | x in init) + {s[|s| - 1]};
    }
  }

  class Mapping {
    var columns: seq<string>
    var order: seq<string>
    var samples: map<string, map<string, string>>

    ghost predicate Valid()
      reads this
    {
      Keyed(columns, MappingTable(order, samples))
    }

    constructor ()
      ensures columns == [] && order == [] && samples == map[]
      ensures Valid()
    {
      columns := [];
      order := [];
      samples := map[];
    }

    /**
     * `Mapping(path)`: a new mapping loaded from `table`, or the error
     * `_load_mapping` raises.
     */
    static method Open(table: seq<seq<string>>, existing: set<string>) returns (r: Result<Mapping, MappingError>)
      ensures LoadMapping(table, existing).Err? <==> r.Err?
      ensures r.Err? ==> r.error == LoadMapping(table, existing).error
      ensures r.Ok? ==> fresh(r.value) && r.value.Valid()
                        && r.value.columns == LoadMapping(table, existing).value.columns
                        && MappingTable(r.value.order, r.value.samples) == LoadMapping(table, existing).value.table
    {
      var mapping := new Mapping();
      var loaded := mapping.LoadRows(table, existing);
      if loaded.Fail? {
        return Err(loaded.error);
      }
      LoadMappingShape(table, existing);
      return Ok(mapping);
    }

    function Table(): MappingTable
      reads this
    {
      MappingTable(order, samples)
    }

    /** `_load_mapping`: the header, its column index, then each data row in turn. */
    method LoadRows(table: seq<seq<string>>, existing: set<string>) returns (r: Outcome<MappingError>)
      requires order == [] && samples == map[]
      modifies this
      ensures LoadMapping(table, existing).Err? <==> r.Fail?
      ensures r.Fail? ==> r.error == LoadMapping(table, existing).error
      ensures r.Pass? ==> columns == LoadMapping(table, existing).value.columns
                          && Table() == LoadMapping(table, existing).value.table
    {
      if |table| == 0 {
        return Fail(EmptyMapping);
      }
      columns := table[0];
      var missing := MappingRequired - ColumnSet(columns);
      if missing != {} {
        return Fail(MissingMappingColumns(missing));
      }
      var m := Formats.ColumnIndex(columns);
      RequiredIndexed(columns);
      var rows := table[1..];
      var i := 0;
      while i < |rows|
        invariant 0 <= i <= |rows|
        invariant columns == table[0]
        invariant MappingRows(columns, m, existing, rows[..i]) == Ok(Table())
      {
        MappingRowsNext(columns, m, existing, rows, i);
        var added := AddRow(m, existing, rows[i], i + 2);
        if added.Fail? {
          MappingRowsStop(columns, m, existing, rows, i + 1, added.error);
          return added;
        }
        i := i + 1;
      }
      assert rows[..i] == rows;
      return Pass;
    }

    /** The body of the row loop of `_load_mapping`, on the row at line `line`. */
    method AddRow(m: map<string, nat>, existing: set<string>, row: seq<string>, line: nat) returns (r: Outcome<MappingError>)
      requires Indexes(columns, m)
      modifies this
      ensures columns == old(columns)
      ensures ReadMappingRow(columns, m, existing, old(Table()), row, line).Err? <==> r.Fail?
      ensures r.Fail? ==> r.error == ReadMappingRow(columns, m, existing, old(Table()), row, line).error
      ensures r.Pass? ==> Table() == ReadMappingRow(columns, m, existing, old(Table()), row, line).value
    {
      if |row| != |columns| {
        return Fail(MappingWidth(line, |columns|, |row|));
      }
      var id := row[m["Sample ID"]];
      if id in samples {
        return Fail(DuplicateSampleId(id));
      }
      var data := map c | c in m :: row[m[c]];
      if data["Forward"] !in existing {
        return Fail(ForwardNotFound(id, data["Forward"]));
      }
      if data["Reverse"] !in existing {
        return Fail(ReverseNotFound(id, data["Reverse"]));
      }
      order := order + [id];
      samples := samples[id := data];
      return Pass;
    }

    /** `get_sample_attr`: an unknown id is an error; a missing attribute is `None`. */
    function GetSampleAttr(id: string, attr: string): (r: Result<Option<string>, MappingError>)
      reads this
      ensures r.Err? <==> id !in samples
      ensures r.Err? ==> r.error == UnknownSample(id)
      ensures r.Ok? ==> (r.value.Some? <==> attr in samples[id])
      ensures r.Ok? && r.value.Some? ==> r.value.value == samples[id][attr]
    {
      if id !in samples then Err(UnknownSample(id))
      else if attr in samples[id] then Ok(Some(samples[id][attr]))
      else Ok(None)
    }

    /** `get_samples_by_attr`: over every column, `Sample ID`, `Forward` and `Reverse` included. */
    function GetSamplesByAttr(attr: string, value: string): (ids: seq<string>)
      reads this
    {
      MatchingIds(order, samples, attr, value)
    }

    /** Selecting on the `Sample ID` column finds exactly that sample. */
    lemma SelectById(id: string)
      requires Valid()
      requires id in samples
      ensures GetSamplesByAttr("Sample ID", id) == [id]
    {
      var ids := GetSamplesByAttr("Sample ID", id);
      assert "Sample ID" in samples[id];
      assert (set x | x in ids) == {id};
      DistinctCard(ids);
      assert ids[0] in ids;
    }

    /** `__getitem__`: the sample's whole dict, or an error for an unknown id. */
    function GetItem(id: string): (r: Result<map<string, string>, MappingError>)
      reads this
      ensures r.Err? <==> id !in samples
      ensures r.Err? ==> r.error == UnknownSample(id)
      ensures r.Ok? ==> r.value == samples[id]
    {
      if id in samples then Ok(samples[id]) else Err(UnknownSample(id))
    }

    /** `__contains__` */
    predicate Contains(id: string)
      reads this
    {
      id in samples
    }

    /** `__iter__`: the sample ids in the order they were read. */
    function Ids(): seq<string>
      reads this
    {
      order
    }

    /** `__len__`: the number of samples, each counted once. */
    function Len(): (n: nat)
      reads this
      ensures Valid() ==> n == |samples.Keys|
    {
      LenIsCount();
      |order|
    }

    lemma LenIsCount()
      ensures Valid() ==> |order| == |samples.Keys|
    {
      if Valid() {
        DistinctCard(order);
        assert samples.Keys == set x | x in order;
      }
    }
  }

  /** One more row: the load so far, then that row on its line. */
  lemma MappingRowsNext(columns: seq<string>, m: map<string, nat>, existing: set<string>, rows: seq<seq<string>>, i: nat)
    requires Indexes(columns, m)
    requires i < |rows|
    ensures MappingRows(columns, m, existing, rows[..i + 1]) ==
      match MappingRows(columns, m, existing, rows[..i])
      case Err(e) => Err(e)
      case Ok(t) => ReadMappingRow(columns, m, existing, t, rows[i], i + 2)
  {
    assert rows[..i + 1][..i] == rows[..i];
  }

  /** Once a prefix of the rows fails, the whole load fails with the same error. */
  lemma MappingRowsStop(columns: seq<string>, m: map<string, nat>, existing: set<string>, rows: seq<seq<string>>, i: nat, e: MappingError)
    requires Indexes(columns, m)
    requires i <= |rows|
    requires MappingRows(columns, m, existing, rows[..i]) == Err(e)
    ensures MappingRows(columns, m, existing, rows) == Err(e)
  {
    var k := i;
    while k < |rows|
      invariant i <= k <= |rows|
      invariant MappingRows(columns, m, existing, rows[..k]) == Err(e)
    {
      assert rows[..k + 1][..k] == rows[..k];
      k := k + 1;
    }
    assert rows[..k] == rows;
  }
}
