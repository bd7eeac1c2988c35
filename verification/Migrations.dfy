/**
 The migration runner: which files it lists, and what any sequence of runs that fail or crash
 at any point leaves of the bookkeeping table, of the schema and of the order of execution.
 */
module Migrations {
  import opened Text
  import opened Ordering

  // ---- The file list ------------------------------------------------------------------

  /** An entry of the embedded directory. */
  datatype Entry = Entry(name: string, isDir: bool)

  predicate IsMigration(entry: Entry) {
    !entry.isDir && HasSuffix(entry.name, ".sql")
  }

  lemma MigrationNames(entries: seq<Entry>, name: string)
    ensures (exists i | 0 <= i < |entries| :: IsMigration(entries[i]) && entries[i].name == name) <==>
              && |name| >= 4 && name[|name| - 4..] == ".sql"
              && exists i | 0 <= i < |entries| :: entries[i] == Entry(name, false)
  {
    if i :| 0 <= i < |entries| && IsMigration(entries[i]) && entries[i].name == name {
      assert entries[i] == Entry(name, false);
    }
    if i :| 0 <= i < |entries| && entries[i] == Entry(name, false) {
      assert HasSuffix(name, ".sql") <==> IsMigration(entries[i]);
    }
  }

  /** listMigrationFiles: the names of the plain `.sql` files, in ascending order. */
  method ListMigrationFiles(entries: seq<Entry>) returns (out: seq<string>)
    requires forall i, j | 0 <= i < j < |entries| :: entries[i].name != entries[j].name
    ensures Ascending(out)
    ensures forall name :: name in out <==>
              && |name| >= 4 && name[|name| - 4..] == ".sql"
              && exists i | 0 <= i < |entries| :: entries[i] == Entry(name, false)
  {
    out := [];
    for k := 0 to |entries|
      invariant Distinct(out)
      invariant forall name :: name in out <==>
                exists i | 0 <= i < k :: IsMigration(entries[i]) && entries[i].name == name
    {
      if IsMigration(entries[k]) {
        assert entries[k].name !in out;
        out := out + [entries[k].name];
      }
    }
    forall name
      ensures (exists i | 0 <= i < |entries| :: IsMigration(entries[i]) && entries[i].name == name) <==>
                && |name| >= 4 && name[|name| - 4..] == ".sql"
                && exists i | 0 <= i < |entries| :: entries[i] == Entry(name, false)
    {
      MigrationNames(entries, name);
    }
    SortAscends(out);
    out := Sort(out);
  }

  // ---- One run ------------------------------------------------------------------------

  /** The files in order, the statements of each, and what a statement does to the schema; None is an SQL error. */
  datatype Setup<!S> = Setup(files: seq<string>, script: string -> seq<string>, step: (S, string) -> Option<S>)

  /** An execution of file number `file`, and whether its bookkeeping row landed. */
  datatype Execution = Execution(file: nat, recorded: bool)

  /** The bookkeeping table, the schema, and the executions so far. */
  datatype State<S> = State(recorded: set<string>, schema: S, log: seq<Execution>)

  /**
   What a run meets. `read` are the rows the SELECT delivered: an error while reading them goes
   unnoticed and only cuts them short. `stop(i)` is the number of statements of file i after which
   the run fails or crashes, if it does; `recordOk(i)` whether the INSERT for file i gets through.
   */
  datatype Fault = Fault(createOk: bool, queryOk: bool, scanOk: bool, read: set<string>,
                         stop: nat -> Option<nat>, recordOk: nat -> bool)

  /** The schema after the first statements of a script, up to an error or the end; `done` tells which. */
  datatype Progress<S> = Progress(schema: S, done: bool)

  function Execute<S>(setup: Setup<S>, schema: S, script: seq<string>): (r: Progress<S>) {
    if script == [] then Progress(schema, true)
    else
      match setup.step(schema, script[0])
      case None => Progress(schema, false)
      case Some(next) => Execute(setup, next, script[1..])
  }

  /** Executing takes one step per statement, in order, up to the first that fails; done means that none did. */
  lemma {:induction false} ExecuteSteps<S>(setup: Setup<S>, schema: S, script: seq<string>) returns (schemas: seq<S>)
    ensures 1 <= |schemas| <= |script| + 1 && schemas[0] == schema
    ensures forall i | 0 <= i < |schemas| - 1 :: setup.step(schemas[i], script[i]) == Some(schemas[i + 1])
    ensures var (p, last) := (Execute(setup, schema, script), |schemas| - 1);
            && p.schema == schemas[last] && (p.done <==> last == |script|)
            && (!p.done ==> setup.step(schemas[last], script[last]) == None)
    decreases |script|
  {
    schemas := [schema];
    if script != [] && setup.step(schema, script[0]).Some? {
      var rest := ExecuteSteps(setup, setup.step(schema, script[0]).value, script[1..]);
      schemas := schemas + rest;
      forall i | 0 <= i < |schemas| - 1 ensures setup.step(schemas[i], script[i]) == Some(schemas[i + 1]) {
        if i > 0 {
          assert script[1..][i - 1] == script[i];
        }
      }
    }
  }

  /** A script that may be cut short: it is only done when it was not. */
  function ExecuteUntil<S>(setup: Setup<S>, schema: S, script: seq<string>, stop: Option<nat>): Progress<S> {
    if stop == None then Execute(setup, schema, script)
    else Execute(setup, schema, script[..if stop.value < |script| then stop.value else |script|]).(done := false)
  }

  /** The loop of ApplyMigrations from file i on. */
  function From<S>(setup: Setup<S>, st: State<S>, fault: Fault, i: nat): (r: (State<S>, bool))
    requires i <= |setup.files|
    decreases |setup.files| - i
  {
    if i == |setup.files| then (st, true)
    else
      var name := setup.files[i];
      if name in fault.read then From(setup, st, fault, i + 1)
      else
        var p := ExecuteUntil(setup, st.schema, setup.script(name), fault.stop(i));
        if p.done && fault.recordOk(i) && name !in st.recorded then
          From(setup, State(st.recorded + {name}, p.schema, st.log + [Execution(i, true)]), fault, i + 1)
        else (st.(schema := p.schema, log := st.log + [Execution(i, false)]), false)
  }

  function Run<S>(setup: Setup<S>, st: State<S>, fault: Fault): (State<S>, bool) {
    if !fault.createOk || !fault.queryOk || !fault.scanOk then (st, false) else From(setup, st, fault, 0)
  }

  class Db<S> {
    var st: State<S>
    const setup: Setup<S>

    constructor (setup: Setup<S>, st: State<S>)
      ensures this.setup == setup && this.st == st
    {
      this.setup, this.st := setup, st;
    }

    /** One statement after the other; what was executed before an error or a crash stays. */
    method Exec(script: seq<string>, stop: Option<nat>) returns (done: bool)
      modifies this
      ensures var p := ExecuteUntil(setup, old(st.schema), script, stop);
              st == old(st).(schema := p.schema) && done == p.done
    {
      var limit := if stop.Some? && stop.value < |script| then stop.value else |script|;
      var k := 0;
      ghost var part := script[..limit];
      while k < limit
        invariant k <= limit && part == script[..limit] && st == old(st).(schema := st.schema)
        invariant Execute(setup, st.schema, part[k..]) == Execute(setup, old(st.schema), part)
      {
        assert part[k..][1..] == part[k + 1..];
        var next := setup.step(st.schema, script[k]);
        if next.None? {
          assert stop == None ==> part == script;
          return false;
        }
        st := st.(schema := next.value);
        k := k + 1;
      }
      assert stop == None ==> part == script;
      done := stop == None;
    }

    method ApplyMigrations(fault: Fault) returns (ok: bool)
      modifies this
      ensures (st, ok) == Run(setup, old(st), fault)
    {
      if !fault.createOk || !fault.queryOk || !fault.scanOk {
        return false;
      }
      var applied := fault.read;
      for i := 0 to |setup.files|
        invariant From(setup, st, fault, i) == From(setup, old(st), fault, 0)
      {
        var name := setup.files[i];
        if name !in applied {
          var before := st;
          var done := Exec(setup.script(name), fault.stop(i));
          st := st.(log := st.log + [Execution(i, false)]);
          if !done || !fault.recordOk(i) || name in st.recorded {
            return false;
          }
          st := State(st.recorded + {name}, st.schema, before.log + [Execution(i, true)]);
        }
      }
      ok := true;
    }
  }

  // ---- Any number of runs -------------------------------------------------------------

  /** The names of the first n files. */
  function Names(files: seq<string>, n: nat): (s: set<string>)
    requires n <= |files|
  {
    set i | 0 <= i < n :: files[i]
  }

  /** The executions go through the files in order; only the one whose record did not land is repeated, and at once. */
  predicate Orderly(log: seq<Execution>, n: nat) {
    if log == [] then n == 0
    else
      var last := log[|log| - 1];
      n == (if last.recorded then last.file + 1 else last.file) && Orderly(log[..|log| - 1], last.file)
  }

  /** An orderly log entry by entry: it starts at file 0 and moves on exactly behind a record that landed. */
  lemma {:induction false} OrderlySteps(log: seq<Execution>, n: nat)
    requires Orderly(log, n)
    ensures log != [] ==> log[0].file == 0
    ensures forall i | 0 <= i < |log| - 1 :: log[i + 1].file == if log[i].recorded then log[i].file + 1 else log[i].file
    ensures forall i, j | 0 <= i < j < |log| ::
            log[i].file <= log[j].file && (log[i].recorded ==> log[i].file < log[j].file)
    ensures forall i | 0 <= i < |log| :: if log[i].recorded then log[i].file < n else log[i].file <= n
  {
    if log != [] {
      var init, last := log[..|log| - 1], log[|log| - 1];
      OrderlySteps(init, last.file);
      assert forall i | 0 <= i < |init| :: init[i] == log[i];
      if |init| > 0 {
        var prev := init[|init| - 1];
        assert last.file == if prev.recorded then prev.file + 1 else prev.file;
      }
    }
  }

  /** A schema from which running all of a script ends in the schema of the clean run, restarts or not. */
  function Clean<S>(setup: Setup<S>, start: S, n: nat): Progress<S>
    requires n <= |setup.files|
  {
    if n == 0 then Progress(start, true)
    else
      var before := Clean(setup, start, n - 1);
      if before.done then Execute(setup, before.schema, setup.script(setup.files[n - 1])) else before
  }

  /** A script may be started over after any part of it was executed, the whole included. */
  ghost predicate RestartSafe<S(!new)>(setup: Setup<S>) {
    forall i, s: S, k: nat | 0 <= i < |setup.files| && k <= |setup.script(setup.files[i])| ::
      Restarts(setup, setup.script(setup.files[i]), s, k)
  }

  predicate Restarts<S(==)>(setup: Setup<S>, script: seq<string>, s: S, k: nat)
    requires k <= |script|
  {
    Execute(setup, Execute(setup, s, script[..k]).schema, script) == Execute(setup, s, script)
  }

  /** Where some runs have got to: the first n files are recorded, and the log is orderly. */
  predicate Tidy<S>(setup: Setup<S>, st: State<S>, n: nat) {
    n <= |setup.files| && st.recorded == Names(setup.files, n) && Orderly(st.log, n)
  }

  /** The schema after n recorded files: file n still leads where it leads in the clean run. */
  predicate OnTrack<S(==)>(setup: Setup<S>, start: S, schema: S, n: nat)
    requires n <= |setup.files|
  {
    && Clean(setup, start, n).done
    && if n == |setup.files| then schema == Clean(setup, start, n).schema
       else Execute(setup, schema, setup.script(setup.files[n])) == Clean(setup, start, n + 1)
  }

  lemma OneMoreName(files: seq<string>, n: nat)
    requires Ascending(files) && n < |files|
    ensures files[n] !in Names(files, n) && Names(files, n + 1) == Names(files, n) + {files[n]}
  {
    forall i | 0 <= i < n ensures files[i] != files[n] {
      AscendingIsDistinct(files, i, n);
    }
  }

  lemma NamesBelow(files: seq<string>, m: nat, i: nat)
    requires Ascending(files) && m <= |files| && i < |files|
    ensures files[i] in Names(files, m) <==> i < m
  {
    if files[i] in Names(files, m) {
      var j :| 0 <= j < m && files[j] == files[i];
      if j < i {
        AscendingIsDistinct(files, j, i);
      } else if i < j {
        AscendingIsDistinct(files, i, j);
      }
    }
  }

  lemma OrderlyOneMore(log: seq<Execution>, n: nat, landed: bool)
    requires Orderly(log, n)
    ensures Orderly(log + [Execution(n, landed)], if landed then n + 1 else n)
  {
    var all := log + [Execution(n, landed)];
    assert all[..|all| - 1] == log;
  }

  /** Recorded files are skipped. */
  lemma {:induction false} SkipRecorded<S>(setup: Setup<S>, st: State<S>, fault: Fault, m: nat, i: nat)
    requires Ascending(setup.files) && i <= m <= |setup.files| && fault.read == Names(setup.files, m)
    ensures From(setup, st, fault, i) == From(setup, st, fault, m)
    decreases m - i
  {
    if i < m {
      NamesBelow(setup.files, m, i);
      SkipRecorded(setup, st, fault, m, i + 1);
    }
  }

  /** A partial execution of a restart-safe script does no harm. */
  lemma PartDoesNoHarm<S(!new)>(setup: Setup<S>, schema: S, n: nat, stop: Option<nat>)
    requires RestartSafe(setup) && n < |setup.files|
    ensures var script := setup.script(setup.files[n]);
            Execute(setup, ExecuteUntil(setup, schema, script, stop).schema, script) == Execute(setup, schema, script)
  {
    var script := setup.script(setup.files[n]);
    var k := if stop.Some? && stop.value < |script| then stop.value else |script|;
    assert Restarts(setup, script, schema, k);
    assert script[..|script|] == script;
  }

  /** What the loop makes of file n, the first not recorded. */
  lemma NextFile<S>(setup: Setup<S>, st: State<S>, fault: Fault, m: nat, n: nat)
    requires Ascending(setup.files) && m <= n < |setup.files|
             && fault.read == Names(setup.files, m) && Tidy(setup, st, n)
    ensures var p := ExecuteUntil(setup, st.schema, setup.script(setup.files[n]), fault.stop(n));
            var landed := p.done && fault.recordOk(n);
            var next := State(if landed then st.recorded + {setup.files[n]} else st.recorded,
                              p.schema, st.log + [Execution(n, landed)]);
            && Tidy(setup, next, if landed then n + 1 else n)
            && From(setup, st, fault, n) == if landed then From(setup, next, fault, n + 1) else (next, false)
  {
    NamesBelow(setup.files, m, n);
    NamesBelow(setup.files, n, n);
    OneMoreName(setup.files, n);
    var p := ExecuteUntil(setup, st.schema, setup.script(setup.files[n]), fault.stop(n));
    OrderlyOneMore(st.log, n, p.done && fault.recordOk(n));
  }

  /** The same by cases: the run stops at file n, or goes on behind it. */
  lemma StopOrGoOn<S>(setup: Setup<S>, st: State<S>, fault: Fault, m: nat, n: nat)
    returns (landed: bool, next: State<S>)
    requires Ascending(setup.files) && m <= n < |setup.files|
             && fault.read == Names(setup.files, m) && Tidy(setup, st, n)
    ensures Tidy(setup, next, if landed then n + 1 else n)
    ensures From(setup, st, fault, n) == if landed then From(setup, next, fault, n + 1) else (next, false)
  {
    NextFile(setup, st, fault, m, n);
    var p := ExecuteUntil(setup, st.schema, setup.script(setup.files[n]), fault.stop(n));
    landed := p.done && fault.recordOk(n);
    next := State(if landed then st.recorded + {setup.files[n]} else st.recorded,
                  p.schema, st.log + [Execution(n, landed)]);
  }

  /**
   The loop from the first file not recorded, with any scripts: it gets to some later file, and to
   the end when it reports success.
   */
  lemma {:induction false} FromKeeps<S>(setup: Setup<S>, st: State<S>, fault: Fault, m: nat, n: nat) returns (n': nat)
    requires Ascending(setup.files) && m <= n <= |setup.files|
             && fault.read == Names(setup.files, m) && Tidy(setup, st, n)
    ensures n <= n' && Tidy(setup, From(setup, st, fault, n).0, n')
    ensures From(setup, st, fault, n).1 <==> n' == |setup.files|
    decreases |setup.files| - n
  {
    n' := n;
    if n < |setup.files| {
      var landed, next := StopOrGoOn(setup, st, fault, m, n);
      if landed {
        n' := FromKeeps(setup, next, fault, m, n + 1);
      }
    }
  }

  /** With restart-safe scripts the schema stays on its way to the clean one, too. */
  lemma {:induction false} FromStaysOnTrack<S(!new)>(setup: Setup<S>, start: S, st: State<S>, fault: Fault,
                                                     m: nat, n: nat, n': nat)
    requires Ascending(setup.files) && RestartSafe(setup)
    requires m <= n <= |setup.files| && fault.read == Names(setup.files, m)
             && Tidy(setup, st, n) && OnTrack(setup, start, st.schema, n)
    requires Tidy(setup, From(setup, st, fault, n).0, n')
    ensures OnTrack(setup, start, From(setup, st, fault, n).0.schema, n')
    decreases |setup.files| - n
  {
    if n == |setup.files| {
      OneCount(st.log, n, n');
    } else {
      NextFile(setup, st, fault, m, n);
      PartDoesNoHarm(setup, st.schema, n, fault.stop(n));
      var p := ExecuteUntil(setup, st.schema, setup.script(setup.files[n]), fault.stop(n));
      if p.done && fault.recordOk(n) {
        FromStaysOnTrack(setup, start, State(st.recorded + {setup.files[n]}, p.schema, st.log + [Execution(n, true)]),
                         fault, m, n + 1, n');
      } else {
        OneCount(st.log + [Execution(n, false)], n, n');
      }
    }
  }

  /** Whether a run reaches its loop. */
  predicate Starts(fault: Fault) {
    fault.createOk && fault.queryOk && fault.scanOk
  }

  /** One run with all recorded names read, from anywhere to somewhere no earlier; past the end it does nothing. */
  lemma RunKeeps<S>(setup: Setup<S>, st: State<S>, fault: Fault, n: nat) returns (n': nat)
    requires Ascending(setup.files) && Tidy(setup, st, n) && fault.read == st.recorded
    ensures n <= n' && Tidy(setup, Run(setup, st, fault).0, n')
    ensures Run(setup, st, fault).1 <==> Starts(fault) && n' == |setup.files|
    ensures n == |setup.files| ==> Run(setup, st, fault).0 == st
  {
    n' := n;
    if Starts(fault) {
      SkipRecorded(setup, st, fault, n, 0);
      n' := FromKeeps(setup, st, fault, n, n);
    }
  }

  lemma RunStaysOnTrack<S(!new)>(setup: Setup<S>, start: S, st: State<S>, fault: Fault, n: nat, n': nat)
    requires Ascending(setup.files) && RestartSafe(setup) && Tidy(setup, st, n) && fault.read == st.recorded
    requires OnTrack(setup, start, st.schema, n) && Tidy(setup, Run(setup, st, fault).0, n')
    ensures OnTrack(setup, start, Run(setup, st, fault).0.schema, n')
  {
    if Starts(fault) {
      SkipRecorded(setup, st, fault, n, 0);
      FromStaysOnTrack(setup, start, st, fault, n, n, n');
    } else {
      OneCount(st.log, n, n');
    }
  }

  /** The state after a sequence of runs. */
  function Runs<S>(setup: Setup<S>, st: State<S>, faults: seq<Fault>): State<S> {
    if faults == [] then st
    else Run(setup, Runs(setup, st, faults[..|faults| - 1]), faults[|faults| - 1]).0
  }

  /** Every run read all the names recorded when it started. */
  predicate ReadAll<S>(setup: Setup<S>, st: State<S>, faults: seq<Fault>) {
    faults == [] ||
    (var init := faults[..|faults| - 1];
     ReadAll(setup, st, init) && faults[|faults| - 1].read == Runs(setup, st, init).recorded)
  }

  predicate LastSucceeded<S>(setup: Setup<S>, st: State<S>, faults: seq<Fault>) {
    faults != [] && Run(setup, Runs(setup, st, faults[..|faults| - 1]), faults[|faults| - 1]).1
  }

  function Fresh<S>(start: S): State<S> {
    State({}, start, [])
  }

  /**
   Whatever the scripts are and whatever fails or crashes, the recorded files are a prefix of the
   list and the executions are orderly; a run that reports success has recorded them all.
   */
  lemma {:induction false} RunsKeep<S>(setup: Setup<S>, start: S, faults: seq<Fault>) returns (n: nat)
    requires Ascending(setup.files) && ReadAll(setup, Fresh(start), faults)
    ensures Tidy(setup, Runs(setup, Fresh(start), faults), n)
    ensures LastSucceeded(setup, Fresh(start), faults) ==> n == |setup.files|
  {
    n := 0;
    if faults != [] {
      var init := faults[..|faults| - 1];
      var m := RunsKeep(setup, start, init);
      n := RunKeeps(setup, Runs(setup, Fresh(start), init), faults[|faults| - 1], m);
    }
  }

  /** With restart-safe scripts the schema is one from which going on ends in the clean schema. */
  lemma {:induction false} RunsStayOnTrack<S(!new)>(setup: Setup<S>, start: S, faults: seq<Fault>, n: nat)
    requires Ascending(setup.files) && RestartSafe(setup) && ReadAll(setup, Fresh(start), faults)
    requires Tidy(setup, Runs(setup, Fresh(start), faults), n)
    ensures OnTrack(setup, start, Runs(setup, Fresh(start), faults).schema, n)
  {
    if faults != [] {
      var init := faults[..|faults| - 1];
      var m := RunsKeep(setup, start, init);
      RunsStayOnTrack(setup, start, init, m);
      RunStaysOnTrack(setup, start, Runs(setup, Fresh(start), init), faults[|faults| - 1], m, n);
    }
  }

  ghost predicate Faultless(fault: Fault) {
    && fault.createOk && fault.queryOk && fault.scanOk
    && forall i: nat :: fault.stop(i) == None && fault.recordOk(i)
  }

  lemma {:induction false} CleanSoFar<S>(setup: Setup<S>, start: S, k: nat, n: nat)
    requires k <= n <= |setup.files| && Clean(setup, start, n).done
    ensures Clean(setup, start, k).done
    decreases n - k
  {
    if k < n {
      CleanSoFar(setup, start, k + 1, n);
    }
  }

  lemma {:induction false} FaultlessFinishes<S>(setup: Setup<S>, start: S, st: State<S>, fault: Fault, n: nat)
    requires Ascending(setup.files) && Tidy(setup, st, n) && OnTrack(setup, start, st.schema, n)
    requires Faultless(fault) && fault.read == {} && Clean(setup, start, |setup.files|).done
    ensures From(setup, st, fault, n).1
    ensures From(setup, st, fault, n).0.recorded == Names(setup.files, |setup.files|)
    ensures From(setup, st, fault, n).0.schema == Clean(setup, start, |setup.files|).schema
    decreases |setup.files| - n
  {
    if n < |setup.files| {
      CleanSoFar(setup, start, n + 1, |setup.files|);
      NextFile(setup, st, fault, 0, n);
      var p := Execute(setup, st.schema, setup.script(setup.files[n]));
      if n + 1 < |setup.files| {
        assert Clean(setup, start, n + 2) == Execute(setup, p.schema, setup.script(setup.files[n + 1]));
      }
      FaultlessFinishes(setup, start,
                        State(st.recorded + {setup.files[n]}, p.schema, st.log + [Execution(n, true)]), fault, n + 1);
    }
  }

  /** Once a run reports success, table and schema are what one clean run makes, and any further run changes nothing. */
  lemma SuccessIsClean<S(!new)>(setup: Setup<S>, start: S, faults: seq<Fault>, clean: Fault, further: Fault)
    requires Ascending(setup.files) && RestartSafe(setup)
    requires ReadAll(setup, Fresh(start), faults) && LastSucceeded(setup, Fresh(start), faults)
    requires Faultless(clean) && clean.read == {}
    requires further.read == Runs(setup, Fresh(start), faults).recorded
    ensures var (end, once) := (Runs(setup, Fresh(start), faults), Run(setup, Fresh(start), clean));
            && once.1 && end.schema == once.0.schema && end.recorded == once.0.recorded
            && Run(setup, end, further).0 == end
  {
    var n := RunsKeep(setup, start, faults);
    RunsStayOnTrack(setup, start, faults, n);
    var n' := RunKeeps(setup, Runs(setup, Fresh(start), faults), further, n);
    FaultlessFinishes(setup, start, Fresh(start), clean, 0);
  }

  // ---- Rows cut short -----------------------------------------------------------------

  lemma {:induction false} SkipRead<S>(setup: Setup<S>, st: State<S>, fault: Fault, i: nat, k: nat)
    requires i <= k <= |setup.files| && forall j | i <= j < k :: setup.files[j] in fault.read
    ensures From(setup, st, fault, i) == From(setup, st, fault, k)
    decreases k - i
  {
    if i < k {
      SkipRead(setup, st, fault, i + 1, k);
    }
  }

  /**
   Rows cut short: the first recorded file that was not read is executed again, and the run fails on
   its primary key.
   */
  lemma TruncatedReadRepeats<S>(setup: Setup<S>, st: State<S>, fault: Fault, n: nat, k: nat)
    requires Tidy(setup, st, n) && k < n && Starts(fault)
    requires setup.files[k] !in fault.read && forall j | 0 <= j < k :: setup.files[j] in fault.read
    ensures var (after, ok) := Run(setup, st, fault);
            && !ok && after.recorded == st.recorded && after.log == st.log + [Execution(k, false)]
            && forall n': nat :: !Orderly(after.log, n')
  {
    SkipRead(setup, st, fault, 0, k);
    var log := st.log + [Execution(k, false)];
    assert log[..|log| - 1] == st.log && log[|log| - 1] == Execution(k, false);
    forall n': nat | Orderly(log, n') ensures false {
      OneCount(st.log, n, k);
    }
  }

  lemma {:induction false} OneCount(log: seq<Execution>, m: nat, n: nat)
    requires Orderly(log, m) && Orderly(log, n)
    ensures m == n
  {
  }

  ghost predicate HasOrder(log: seq<Execution>) {
    exists n: nat :: Orderly(log, n)
  }

  /** A run that reaches its loop has read every recorded name. */
  predicate ReadsEnough<S>(st: State<S>, fault: Fault) {
    Starts(fault) ==> st.recorded <= fault.read
  }

  lemma {:induction false} FirstUnread(files: seq<string>, read: set<string>, n: nat) returns (k: nat)
    requires n <= |files| && !(Names(files, n) <= read)
    ensures k < n && files[k] !in read && forall j | 0 <= j < k :: files[j] in read
  {
    if Names(files, n - 1) <= read {
      k := n - 1;
      forall j | 0 <= j < k ensures files[j] in read {
        assert files[j] in Names(files, n - 1);
      }
      var name :| name in Names(files, n) && name !in read;
      var i :| 0 <= i < n && files[i] == name;
    } else {
      k := FirstUnread(files, read, n - 1);
    }
  }

  /**
   One run leaves the log orderly exactly when no recorded file is missing from what it read. A
   SELECT invents no rows.
   */
  lemma OrderlyIffReadsEnough<S>(setup: Setup<S>, st: State<S>, fault: Fault, n: nat)
    requires Ascending(setup.files) && Tidy(setup, st, n) && fault.read <= st.recorded
    ensures HasOrder(Run(setup, st, fault).0.log) <==> ReadsEnough(st, fault)
  {
    if !Starts(fault) {
      assert Orderly(st.log, n);
    } else if st.recorded <= fault.read {
      var n' := RunKeeps(setup, st, fault, n);
    } else {
      var k := FirstUnread(setup.files, fault.read, n);
      TruncatedReadRepeats(setup, st, fault, n, k);
    }
  }

  /** Every run read only names that were recorded. */
  predicate ReadsOnly<S>(setup: Setup<S>, st: State<S>, faults: seq<Fault>) {
    faults == [] ||
    (var init := faults[..|faults| - 1];
     ReadsOnly(setup, st, init) && faults[|faults| - 1].read <= Runs(setup, st, init).recorded)
  }

  /** Every run that reached its loop read all names recorded when it started. */
  predicate AllReadEnough<S>(setup: Setup<S>, st: State<S>, faults: seq<Fault>) {
    faults == [] ||
    (var init := faults[..|faults| - 1];
     AllReadEnough(setup, st, init) && ReadsEnough(Runs(setup, st, init), faults[|faults| - 1]))
  }

  lemma {:induction false} LogGrows<S>(setup: Setup<S>, st: State<S>, fault: Fault, i: nat)
    requires i <= |setup.files|
    ensures st.log <= From(setup, st, fault, i).0.log
    decreases |setup.files| - i
  {
    if i < |setup.files| {
      var name := setup.files[i];
      if name in fault.read {
        LogGrows(setup, st, fault, i + 1);
      } else {
        var p := ExecuteUntil(setup, st.schema, setup.script(name), fault.stop(i));
        if p.done && fault.recordOk(i) && name !in st.recorded {
          LogGrows(setup, State(st.recorded + {name}, p.schema, st.log + [Execution(i, true)]), fault, i + 1);
        }
      }
    }
  }

  lemma {:induction false} OrderOfPrefix(log: seq<Execution>, more: seq<Execution>)
    requires HasOrder(more) && log <= more
    ensures HasOrder(log)
  {
    var n: nat :| Orderly(more, n);
    if log != more {
      assert Orderly(more[..|more| - 1], more[|more| - 1].file);
      OrderOfPrefix(log, more[..|more| - 1]);
    }
  }

  /** Over any sequence of runs the log is orderly exactly when every run that reached its loop read enough. */
  lemma {:induction false} RunsOrderlyIff<S>(setup: Setup<S>, start: S, faults: seq<Fault>)
    requires Ascending(setup.files) && ReadsOnly(setup, Fresh(start), faults)
    ensures HasOrder(Runs(setup, Fresh(start), faults).log) <==> AllReadEnough(setup, Fresh(start), faults)
    ensures AllReadEnough(setup, Fresh(start), faults) ==>
              exists n: nat :: Tidy(setup, Runs(setup, Fresh(start), faults), n)
  {
    if faults == [] {
      assert Orderly([], 0) && Tidy(setup, Fresh(start), 0);
    } else {
      var init, last := faults[..|faults| - 1], faults[|faults| - 1];
      var before := Runs(setup, Fresh(start), init);
      RunsOrderlyIff(setup, start, init);
      if AllReadEnough(setup, Fresh(start), init) {
        var n: nat :| Tidy(setup, before, n);
        OrderlyIffReadsEnough(setup, before, last, n);
        if !Starts(last) {
          assert Tidy(setup, Run(setup, before, last).0, n);
        } else if before.recorded <= last.read {
          var n' := RunKeeps(setup, before, last, n);
        }
      } else {
        LogGrows(setup, before, last, 0);
        if HasOrder(Run(setup, before, last).0.log) {
          OrderOfPrefix(before.log, Run(setup, before, last).0.log);
        }
      }
    }
  }

  // ---- Scripts that cannot be started over --------------------------------------------

  lemma {:induction false} RecordedGrows<S>(setup: Setup<S>, st: State<S>, fault: Fault, i: nat)
    requires i <= |setup.files|
    ensures st.recorded <= From(setup, st, fault, i).0.recorded
    decreases |setup.files| - i
  {
    if i < |setup.files| {
      var name := setup.files[i];
      if name in fault.read {
        RecordedGrows(setup, st, fault, i + 1);
      } else {
        var p := ExecuteUntil(setup, st.schema, setup.script(name), fault.stop(i));
        if p.done && fault.recordOk(i) && name !in st.recorded {
          RecordedGrows(setup, State(st.recorded + {name}, p.schema, st.log + [Execution(i, true)]), fault, i + 1);
        }
      }
    }
  }

  /** A faultless run records the next file exactly when its script runs to the end on the schema found. */
  lemma FaultlessRecordsIff<S>(setup: Setup<S>, st: State<S>, fault: Fault, n: nat)
    requires Ascending(setup.files) && Tidy(setup, st, n) && n < |setup.files|
    requires Faultless(fault) && fault.read == st.recorded
    ensures var p := Execute(setup, st.schema, setup.script(setup.files[n]));
            && (setup.files[n] in Run(setup, st, fault).0.recorded <==> p.done)
            && (!p.done ==>
                Run(setup, st, fault) == (State(st.recorded, p.schema, st.log + [Execution(n, false)]), false))
  {
    SkipRecorded(setup, st, fault, n, 0);
    NextFile(setup, st, fault, n, n);
    NamesBelow(setup.files, n, n);
    var p := Execute(setup, st.schema, setup.script(setup.files[n]));
    if p.done {
      var next := State(st.recorded + {setup.files[n]}, p.schema, st.log + [Execution(n, true)]);
      RecordedGrows(setup, next, fault, n + 1);
    }
  }

  /**
   After a lost record the file is recorded by the next faultless run exactly when its script can be
   run a second time.
   */
  lemma LostRecordBlocks<S>(setup: Setup<S>, st: State<S>, lost: Fault, fault: Fault, n: nat)
    requires Ascending(setup.files) && Tidy(setup, st, n) && n < |setup.files|
    requires Starts(lost) && lost.read == st.recorded && lost.stop(n) == None && !lost.recordOk(n)
    requires Faultless(fault) && fault.read == st.recorded
    ensures var script := setup.script(setup.files[n]);
            var after := Run(setup, st, lost).0;
            && after == State(st.recorded, Execute(setup, st.schema, script).schema, st.log + [Execution(n, false)])
            && (setup.files[n] in Run(setup, after, fault).0.recorded <==> Execute(setup, after.schema, script).done)
  {
    SkipRecorded(setup, st, lost, n, 0);
    NextFile(setup, st, lost, n, n);
    FaultlessRecordsIff(setup, Run(setup, st, lost).0, fault, n);
  }

  /** The schema that k failing executions of a script leave. */
  function Retried<S>(setup: Setup<S>, schema: S, script: seq<string>, k: nat): S {
    if k == 0 then schema else Execute(setup, Retried(setup, schema, script, k - 1), script).schema
  }

  /**
   Faultless runs, however many, leave the file unrecorded exactly when none of the executions they
   start on the schemas left behind by the ones before gets to the end.
   */
  lemma {:induction false} FaultlessRunsBlockedIff<S>(setup: Setup<S>, st: State<S>, faults: seq<Fault>, n: nat)
    requires Ascending(setup.files) && Tidy(setup, st, n) && n < |setup.files|
    requires (forall i | 0 <= i < |faults| :: Faultless(faults[i])) && ReadAll(setup, st, faults)
    ensures var script := setup.script(setup.files[n]);
            && (setup.files[n] !in Runs(setup, st, faults).recorded <==>
                  forall i | 0 <= i < |faults| :: !Execute(setup, Retried(setup, st.schema, script, i), script).done)
            && (setup.files[n] !in Runs(setup, st, faults).recorded ==>
                  && Tidy(setup, Runs(setup, st, faults), n)
                  && Runs(setup, st, faults).schema == Retried(setup, st.schema, script, |faults|))
  {
    NamesBelow(setup.files, n, n);
    if faults != [] {
      var init, last := faults[..|faults| - 1], faults[|faults| - 1];
      var before := Runs(setup, st, init);
      FaultlessRunsBlockedIff(setup, st, init, n);
      if setup.files[n] in before.recorded {
        RecordedGrows(setup, before, last, 0);
      } else {
        FaultlessRecordsIff(setup, before, last, n);
        OrderlyOneMore(before.log, n, false);
      }
    }
  }

  /** Schemas from which the script never gets to the end, and which even a part of it never leaves. */
  ghost predicate Traps<S(!new)>(setup: Setup<S>, script: seq<string>, bad: S -> bool) {
    forall s: S | bad(s) :: Trapped(setup, script, bad, s)
  }

  ghost predicate Trapped<S>(setup: Setup<S>, script: seq<string>, bad: S -> bool, s: S) {
    !Execute(setup, s, script).done && forall k | 0 <= k <= |script| :: bad(Execute(setup, s, script[..k]).schema)
  }

  /** From such a schema no sequence of runs, whatever its faults, ever records the file or reports success. */
  lemma {:induction false} TrappedForGood<S(!new)>(setup: Setup<S>, st: State<S>, faults: seq<Fault>, n: nat,
                                                   bad: S -> bool)
    requires Ascending(setup.files) && Tidy(setup, st, n) && n < |setup.files| && ReadAll(setup, st, faults)
    requires Traps(setup, setup.script(setup.files[n]), bad) && bad(st.schema)
    ensures var end := Runs(setup, st, faults);
            && Tidy(setup, end, n) && end.recorded == st.recorded && bad(end.schema)
            && !LastSucceeded(setup, st, faults)
  {
    if faults != [] {
      var init, last := faults[..|faults| - 1], faults[|faults| - 1];
      var before := Runs(setup, st, init);
      TrappedForGood(setup, st, init, n, bad);
      if Starts(last) {
        SkipRecorded(setup, before, last, n, 0);
        NextFile(setup, before, last, n, n);
        var script := setup.script(setup.files[n]);
        assert Trapped(setup, script, bad, before.schema);
        assert script[..|script|] == script;
      }
    }
  }

  // ---- Scripts that alter tables ------------------------------------------------------

  /** What a statement does to the columns there are; `Other` is one that can be repeated. */
  datatype Effect = AddColumn(column: string) | DropColumn(column: string) | Other

  /** SQLite has no ADD COLUMN IF NOT EXISTS and no DROP COLUMN IF EXISTS: both fail the second time. */
  function Alter(columns: set<string>, effect: Effect): Option<set<string>> {
    match effect
    case AddColumn(c) => if c in columns then None else Some(columns + {c})
    case DropColumn(c) => if c in columns then Some(columns - {c}) else None
    case Other => Some(columns)
  }

  /** Migrations as what they do to the columns. */
  function ColumnSetup(files: seq<string>, script: string -> seq<string>,
                       effect: string -> Effect): Setup<set<string>> {
    Setup(files, script, (columns, statement) => Alter(columns, effect(statement)))
  }

  /** The schemas from which a statement fails. */
  predicate Blocks(effect: Effect, columns: set<string>) {
    match effect
    case AddColumn(c) => c in columns
    case DropColumn(c) => c !in columns
    case Other => false
  }

  /** The statement that would take back what this one did. */
  function Opposite(effect: Effect): Effect {
    match effect
    case AddColumn(c) => DropColumn(c)
    case DropColumn(c) => AddColumn(c)
    case Other => Other
  }

  /** Statement i alters a column, and none of the script takes that back. */
  predicate AltersForGood(script: seq<string>, effect: string -> Effect, i: nat) {
    && i < |script| && effect(script[i]) != Other
    && forall j | 0 <= j < |script| :: effect(script[j]) != Opposite(effect(script[i]))
  }

  lemma {:induction false} ExecuteConcat<S>(setup: Setup<S>, schema: S, a: seq<string>, b: seq<string>)
    requires Execute(setup, schema, a).done
    ensures Execute(setup, schema, a + b) == Execute(setup, Execute(setup, schema, a).schema, b)
    decreases |a|
  {
    if a == [] {
      assert a + b == b;
    } else {
      assert (a + b)[1..] == a[1..] + b;
      ExecuteConcat(setup, setup.step(schema, a[0]).value, a[1..], b);
    }
  }

  /** A blocked column stays blocked through statements that do not take it back, up to an error or the end. */
  lemma {:induction false} StaysBlocked(files: seq<string>, scripts: string -> seq<string>, effect: string -> Effect,
                                        blocked: Effect, columns: set<string>, script: seq<string>)
    requires Blocks(blocked, columns) && forall j | 0 <= j < |script| :: effect(script[j]) != Opposite(blocked)
    ensures var p := Execute(ColumnSetup(files, scripts, effect), columns, script);
            && Blocks(blocked, p.schema)
            && ((exists j | 0 <= j < |script| :: effect(script[j]) == blocked) ==> !p.done)
    decreases |script|
  {
    if script != [] {
      var next := Alter(columns, effect(script[0]));
      if next.Some? {
        StaysBlocked(files, scripts, effect, blocked, next.value, script[1..]);
        if j :| 0 <= j < |script| && effect(script[j]) == blocked {
          assert j > 0 && script[1..][j - 1] == script[j];
        }
      }
    }
  }

  /** Such a script traps: from a schema its statement i fails on, it never gets to the end and never leads away. */
  lemma AlteringScriptTraps(files: seq<string>, scripts: string -> seq<string>, effect: string -> Effect,
                            script: seq<string>, i: nat)
    requires AltersForGood(script, effect, i)
    ensures Traps(ColumnSetup(files, scripts, effect), script, columns => Blocks(effect(script[i]), columns))
  {
    var setup, bad := ColumnSetup(files, scripts, effect), columns => Blocks(effect(script[i]), columns);
    forall columns: set<string> | bad(columns) ensures Trapped(setup, script, bad, columns) {
      StaysBlocked(files, scripts, effect, effect(script[i]), columns, script);
      forall k | 0 <= k <= |script| ensures bad(Execute(setup, columns, script[..k]).schema) {
        StaysBlocked(files, scripts, effect, effect(script[i]), columns, script[..k]);
      }
    }
  }

  /** Once statement i was executed, its column is blocked, wherever the script was cut behind it. */
  lemma AlteredIsBlocked(files: seq<string>, scripts: string -> seq<string>, effect: string -> Effect,
                         columns: set<string>, script: seq<string>, i: nat, k: nat)
    requires AltersForGood(script, effect, i) && i < k <= |script|
    requires Execute(ColumnSetup(files, scripts, effect), columns, script[..i + 1]).done
    ensures Blocks(effect(script[i]), Execute(ColumnSetup(files, scripts, effect), columns, script[..k]).schema)
  {
    var setup := ColumnSetup(files, scripts, effect);
    assert script[..i + 1] == script[..i] + [script[i]] && script[..k] == script[..i + 1] + script[i + 1..k];
    DoneBefore(setup, columns, script[..i], [script[i]]);
    ExecuteConcat(setup, columns, script[..i], [script[i]]);
    var before := Execute(setup, columns, script[..i]).schema;
    assert Execute(setup, before, [script[i]]).schema == Alter(before, effect(script[i])).value;
    ExecuteConcat(setup, columns, script[..i + 1], script[i + 1..k]);
    StaysBlocked(files, scripts, effect, effect(script[i]),
                 Execute(setup, columns, script[..i + 1]).schema, script[i + 1..k]);
  }

  lemma {:induction false} DoneBefore<S>(setup: Setup<S>, schema: S, a: seq<string>, b: seq<string>)
    requires Execute(setup, schema, a + b).done
    ensures Execute(setup, schema, a).done
    decreases |a|
  {
    if a != [] {
      assert (a + b)[0] == a[0] && (a + b)[1..] == a[1..] + b;
      DoneBefore(setup, setup.step(schema, a[0]).value, a[1..], b);
    }
  }

  /** The run executed statement i of file n, and the record of the file did not land. */
  predicate Unrecorded(setup: Setup<set<string>>, st: State<set<string>>, fault: Fault, n: nat, i: nat)
    requires n < |setup.files|
  {
    var script := setup.script(setup.files[n]);
    && Starts(fault) && fault.read == st.recorded
    && i < |script| && Execute(setup, st.schema, script[..i + 1]).done
    && (fault.stop(n).Some? ==> fault.stop(n).value > i)
    && (ExecuteUntil(setup, st.schema, script, fault.stop(n)).done ==> !fault.recordOk(n))
  }

  /**
   A script that adds or drops a column blocks every later run once the statement was executed and the
   file was not recorded, whether a later statement, the record, or the process failed.
   */
  lemma AlterBlocksForGood(files: seq<string>, scripts: string -> seq<string>, effect: string -> Effect,
                           st: State<set<string>>, lost: Fault, faults: seq<Fault>, n: nat, i: nat)
    requires var setup := ColumnSetup(files, scripts, effect);
             && Ascending(files) && Tidy(setup, st, n) && n < |files|
             && AltersForGood(scripts(files[n]), effect, i) && Unrecorded(setup, st, lost, n, i)
             && ReadAll(setup, Run(setup, st, lost).0, faults)
    ensures var setup := ColumnSetup(files, scripts, effect);
            && Runs(setup, Run(setup, st, lost).0, faults).recorded == st.recorded
            && !LastSucceeded(setup, Run(setup, st, lost).0, faults)
  {
    var setup, script := ColumnSetup(files, scripts, effect), scripts(files[n]);
    SkipRecorded(setup, st, lost, n, 0);
    NextFile(setup, st, lost, n, n);
    var cut := if lost.stop(n).Some? && lost.stop(n).value < |script| then lost.stop(n).value else |script|;
    assert script[..|script|] == script;
    AlteredIsBlocked(files, scripts, effect, st.schema, script, i, cut);
    AlteringScriptTraps(files, scripts, effect, script, i);
    TrappedForGood(setup, Run(setup, st, lost).0, faults, n, columns => Blocks(effect(script[i]), columns));
  }

  lemma {:induction false} OthersGetThrough(files: seq<string>, scripts: string -> seq<string>,
                                            effect: string -> Effect, columns: set<string>, script: seq<string>)
    requires forall j | 0 <= j < |script| :: effect(script[j]) == Other
    ensures Execute(ColumnSetup(files, scripts, effect), columns, script).done
    decreases |script|
  {
    if script != [] {
      OthersGetThrough(files, scripts, effect, columns, script[1..]);
    }
  }

  /** A script that takes back none of its changes runs a second time if and only if it alters no column. */
  lemma RunsTwiceIff(files: seq<string>, scripts: string -> seq<string>, effect: string -> Effect,
                     columns: set<string>, script: seq<string>)
    requires Execute(ColumnSetup(files, scripts, effect), columns, script).done
    requires forall j: nat | j < |script| && effect(script[j]) != Other :: AltersForGood(script, effect, j)
    ensures var setup := ColumnSetup(files, scripts, effect);
            Execute(setup, Execute(setup, columns, script).schema, script).done <==>
              forall j | 0 <= j < |script| :: effect(script[j]) == Other
  {
    var setup := ColumnSetup(files, scripts, effect);
    var after := Execute(setup, columns, script).schema;
    if j: nat :| j < |script| && effect(script[j]) != Other {
      assert script == script[..j + 1] + script[j + 1..] && script[..|script|] == script;
      DoneBefore(setup, columns, script[..j + 1], script[j + 1..]);
      AlteredIsBlocked(files, scripts, effect, columns, script, j, |script|);
      StaysBlocked(files, scripts, effect, effect(script[j]), after, script);
    } else {
      OthersGetThrough(files, scripts, effect, after, script);
    }
  }
}
