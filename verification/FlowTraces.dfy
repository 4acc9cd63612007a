/** What the trace of a run is measured by, and what one repeat of a command adds to it. */
module FlowTraces {
  import opened Numerals
  import opened Json
  import opened Logger
  import opened CmdInOut
  import opened InputParser
  import Commands
  import opened Clock
  import opened Flow

  /******* Measures of a trace *******/

  /** The tree after the recorded values have been logged in order. */
  function Replay(t: Item, trace: seq<Event>): Item {
    if trace == [] then t
    else
      var u, e := Replay(t, trace[..|trace| - 1]), trace[|trace| - 1];
      if e.Step? then u else if e.Grown? then Grow(u, e.path, e.growths) else Log(u, e.path, e.key, e.text)
  }

  datatype Report = Report(path: Path, key: string, of: Outcome)

  /** The register entries, in order: where each went and how its command fared. */
  function Reports(trace: seq<Event>): seq<Report> {
    if trace == [] then []
    else
      var e := trace[|trace| - 1];
      Reports(trace[..|trace| - 1]) + (if e.Entry? then [Report(e.path, e.key, e.of)] else [])
  }

  predicate IsNamed(env: Env, i: nat) {
    i < |env.cmds| && env.cmds[i].output.Some?
  }

  /** The outcomes of the repeats of named commands, in order. */
  function NamedOutcomes(env: Env, trace: seq<Event>): seq<Outcome> {
    if trace == [] then []
    else
      var e := trace[|trace| - 1];
      NamedOutcomes(env, trace[..|trace| - 1]) + (if e.Step? && IsNamed(env, e.cmd) then [e.outcome] else [])
  }

  /** Timeout notes of one kind. */
  function Notes(trace: seq<Event>, global: bool): nat {
    if trace == [] then 0
    else
      var e := trace[|trace| - 1];
      Notes(trace[..|trace| - 1], global) + (if (if global then e.GlobalNote? else e.SectionNote?) then 1 else 0)
  }

  /** The values that dump commands have added. */
  function DumpedLeaves(trace: seq<Event>): nat {
    if trace == [] then 0
    else
      var e := trace[|trace| - 1];
      DumpedLeaves(trace[..|trace| - 1]) + (if e.Grown? then GrowthLeaves(e.growths) else 0)
  }

  /** A deadline check of this kind saw its limit reached. */
  predicate IsHit(e: Event, global: bool) {
    e.Step? && (if global then e.globalHit else e.sectionHit)
  }

  lemma {:induction false} ReplayConcat(t: Item, a: seq<Event>, b: seq<Event>)
    ensures Replay(t, a + b) == Replay(Replay(t, a), b)
  {
    hide Log, Grow;
    if b == [] {
      assert a + b == a;
    } else {
      ReplayConcat(t, a, b[..|b| - 1]);
      assert (a + b)[..|a + b| - 1] == a + b[..|b| - 1];
    }
  }

  lemma {:induction false} ReportsConcat(a: seq<Event>, b: seq<Event>)
    ensures Reports(a + b) == Reports(a) + Reports(b)
  {
    if b == [] {
      assert a + b == a;
    } else {
      ReportsConcat(a, b[..|b| - 1]);
      assert (a + b)[..|a + b| - 1] == a + b[..|b| - 1];
    }
  }

  lemma {:induction false} OutcomesConcat(env: Env, a: seq<Event>, b: seq<Event>)
    ensures NamedOutcomes(env, a + b) == NamedOutcomes(env, a) + NamedOutcomes(env, b)
  {
    hide IsNamed;
    if b == [] {
      assert a + b == a;
    } else {
      OutcomesConcat(env, a, b[..|b| - 1]);
      assert (a + b)[..|a + b| - 1] == a + b[..|b| - 1];
    }
  }

  lemma {:induction false} NotesConcat(a: seq<Event>, b: seq<Event>, global: bool)
    ensures Notes(a + b, global) == Notes(a, global) + Notes(b, global)
  {
    if b == [] {
      assert a + b == a;
    } else {
      NotesConcat(a, b[..|b| - 1], global);
      assert (a + b)[..|a + b| - 1] == a + b[..|b| - 1];
    }
  }

  /** Replaying a trace adds exactly one text value to the tree per recorded value, and those
      that were dumped. */
  lemma {:induction false} LeavesOfReplay(t: Item, trace: seq<Event>)
    ensures Leaves(Replay(t, trace)) ==
            Leaves(t) + |Reports(trace)| + Notes(trace, true) + Notes(trace, false) + DumpedLeaves(trace)
  {
    hide Log, Leaves, Grow;
    if trace != [] {
      var e, u := trace[|trace| - 1], Replay(t, trace[..|trace| - 1]);
      LeavesOfReplay(t, trace[..|trace| - 1]);
      if e.IsValue() {
        LogEffect(u, e.path, e.key, e.text, []);
      } else if e.Grown? {
        GrowEffect(u, e.path, e.growths, []);
      }
    }
  }

  /** Replaying a trace whose values all lie off a path leaves that path alone. */
  lemma {:induction false} ReplayFrame(t: Item, trace: seq<Event>, q: Path)
    requires forall k :: 0 <= k < |trace| && !trace[k].Step? ==> Diverge(trace[k].path, q)
    ensures Resolve(Replay(t, trace), q) == Resolve(t, q)
  {
    hide Log, Diverge, Grow;
    if trace != [] {
      var e, u := trace[|trace| - 1], Replay(t, trace[..|trace| - 1]);
      ReplayFrame(t, trace[..|trace| - 1], q);
      if e.IsValue() {
        LogEffect(u, e.path, e.key, e.text, q);
      } else if e.Grown? {
        GrowEffect(u, e.path, e.growths, q);
      }
    }
  }

  /******* One repeat *******/

  /** r is s after the values log have been logged at path; control state is unchanged. */
  ghost predicate Logs(s: Run, r: Run, log: seq<Event>, path: Path) {
    && r == s.(out := r.out, root := r.root, trace := r.trace,
               globalMaxPrint := r.globalMaxPrint, sectionMaxPrint := r.sectionMaxPrint)
    && r.out.Failed() == s.out.Failed()
    && r.trace == s.trace + log && r.root == Replay(s.root, log)
    && forall k :: 0 <= k < |log| ==> log[k].IsValue() && log[k].path == path
  }

  lemma LogsTrans(s: Run, m: Run, r: Run, a: seq<Event>, b: seq<Event>, path: Path)
    requires Logs(s, m, a, path) && Logs(m, r, b, path)
    ensures Logs(s, r, a + b, path)
  {
    hide Replay;
    ReplayConcat(s.root, a, b);
    assert s.trace + a + b == s.trace + (a + b);
  }

  lemma AddLogs(s: Run, e: Event)
    requires e.IsValue()
    ensures Logs(s, Add(s, e), [e], e.path)
    ensures Reports([e]) == if e.Entry? then [Report(e.path, e.key, e.of)] else []
    ensures Notes([e], true) == if e.GlobalNote? then 1 else 0
    ensures Notes([e], false) == if e.SectionNote? then 1 else 0
  {
    hide Log;
    assert [e][..|[e]| - 1] == [];
    assert Replay(s.root, [e]) == Log(s.root, e.path, e.key, e.text);
  }

  /** The notes, each at most once and only while its flag is still set. */
  lemma NotesAdd(env: Env, s: Run, path: Path) returns (log: seq<Event>)
    ensures var r := NoteSection(env, NoteGlobal(env, s, path), path);
            && Logs(s, r, log, path) && Reports(log) == []
            && Notes(log, true) == (if s.globalReached && s.globalMaxPrint then 1 else 0)
            && Notes(log, false) == (if s.sectionReached && s.sectionMaxPrint then 1 else 0)
            && r.globalMaxPrint == (s.globalMaxPrint && !s.globalReached)
            && r.sectionMaxPrint == (s.sectionMaxPrint && !s.sectionReached)
            && r.out == s.out
  {
    hide NoteKey, Dec, Log, Logs, Replay;
    log := [];
    assert Logs(s, s, [], path) by { LogsNothing(s, path); }
    var g := GlobalNote(path, NoteKey(env, "global"), Seconds(env.maxGlobalTime));
    var m := NoteGlobal(env, s, path);
    if s.globalReached && s.globalMaxPrint {
      log := [g];
      AddLogs(s, g);
      LogsFlags(s, Add(s, g), log, path);
    }
    var n := SectionNote(path, NoteKey(env, "section"), Seconds(env.maxSectionTime));
    if m.sectionReached && m.sectionMaxPrint {
      AddLogs(m, n);
      LogsFlags(m, Add(m, n), [n], path);
      LogsTrans(s, m, NoteSection(env, m, path), log, [n], path);
      ReportsConcat(log, [n]);
      NotesConcat(log, [n], true);
      NotesConcat(log, [n], false);
      log := log + [n];
    }
  }

  lemma LogsNothing(s: Run, path: Path)
    ensures Logs(s, s, [], path)
  {
  }

  lemma LogsFlags(s: Run, r: Run, log: seq<Event>, path: Path)
    requires Logs(s, r, log, path)
    ensures Logs(s, r.(globalMaxPrint := false), log, path)
    ensures Logs(s, r.(sectionMaxPrint := false), log, path)
    ensures r.sectionReached == s.sectionReached
  {
  }

  lemma LogsOut(s: Run, r: Run, log: seq<Event>, path: Path, o: Out)
    requires Logs(s, r, log, path) && o.ret == r.out.ret && o.cc == r.out.cc
    ensures Logs(s, r.(out := o), log, path)
  {
  }

  lemma LogsFrom(s: Run, r: Run, log: seq<Event>, path: Path, o: Out)
    requires Logs(s.(out := o), r, log, path) && o.ret == s.out.ret && o.cc == s.out.cc
    ensures Logs(s, r, log, path)
  {
  }

  lemma SkippedAdds(env: Env, s: Run, path: Path, key: string) returns (log: seq<Event>)
    ensures var m := NoteSection(env, NoteGlobal(env, s, path), path);
            var r := Add(m, Entry(path, key, LOGGER_NA, Skipped));
            && Logs(s, r, log, path) && r.out == s.out
            && Reports(log) == [Report(path, key, Skipped)]
            && Notes(log, true) == (if s.globalReached && s.globalMaxPrint then 1 else 0)
            && Notes(log, false) == (if s.sectionReached && s.sectionMaxPrint then 1 else 0)
            && r.globalMaxPrint == (s.globalMaxPrint && !s.globalReached)
            && r.sectionMaxPrint == (s.sectionMaxPrint && !s.sectionReached)
            && forall k :: 0 <= k < |log| && log[k].Entry? ==> log[k].text == LOGGER_NA
  {
    hide Logs, NoteGlobal, NoteSection, Log, Replay, Reports, Notes;
    var e := Entry(path, key, LOGGER_NA, Skipped);
    var notes := NotesAdd(env, s, path);
    var m := NoteSection(env, NoteGlobal(env, s, path), path);
    AddLogs(m, e);
    LogsTrans(s, m, Add(m, e), notes, [e], path);
    ReportsConcat(notes, [e]);
    NotesConcat(notes, [e], true);
    NotesConcat(notes, [e], false);
    NoEntries(notes);
    log := notes + [e];
  }

  /** What LogValue adds: the notes that are due, then the one entry. A skipped command's entry
      reads "N/A" unless a string was waiting to be printed. */
  lemma LogValueAdds(env: Env, s: Run, o: Output, path: Path, key: string) returns (log: seq<Event>)
    ensures var r := LogValue(env, s, o, path, key);
            var due := s.skip && !s.out.printString;
            && Logs(s, r, log, path) && !r.out.printString
            && Reports(log) == [Report(path, key, OutcomeOf(s))]
            && Notes(log, true) == (if due && s.globalReached && s.globalMaxPrint then 1 else 0)
            && Notes(log, false) == (if due && s.sectionReached && s.sectionMaxPrint then 1 else 0)
            && r.globalMaxPrint == (s.globalMaxPrint && !(due && s.globalReached))
            && r.sectionMaxPrint == (s.sectionMaxPrint && !(due && s.sectionReached))
            && (due ==> forall k :: 0 <= k < |log| && log[k].Entry? ==> log[k].text == LOGGER_NA)
  {
    hide Log, ValueText, Mask, Logs, NoteGlobal, NoteSection, Reports, Notes;
    var r := LogValue(env, s, o, path, key);
    if s.out.printString {
      var e := Entry(path, key, s.out.stringVal, OutcomeOf(s));
      AddLogs(s, e);
      LogsOut(s, Add(s, e), [e], path, s.out.(printString := false));
      log := [e];
    } else {
      var size := o.size.GetOr(s.out.size);
      var s1 := s.(out := s.out.(val := Mask(s.out.val, size)));
      if s.skip {
        log := SkippedAdds(env, s1, path, key);
      } else {
        log := [Entry(path, key, ValueText(s1.out, size, o.zeroPadded), OutcomeOf(s))];
        AddLogs(s1, log[0]);
      }
      LogsFrom(s, r, log, path, s1.out);
    }
  }

  lemma {:induction false} NoEntries(log: seq<Event>)
    requires Reports(log) == []
    ensures forall k :: 0 <= k < |log| ==> !log[k].Entry?
  {
    if log != [] {
      NoEntries(log[..|log| - 1]);
    }
  }

  /** The variables after one repeat: those before, plus stores under the command's own name. */
  ghost predicate StoresOnly(vars: Vars, vars': Vars, name: Option<string>) {
    && vars <= vars'
    && forall k :: |vars| <= k < |vars'| ==> name.Some? && vars'[k].name == name.value
  }

  lemma EffectStores(kind: Commands.Kind, ps: seq<Param>, name: Option<string>, st: Commands.State,
                     answer: Commands.Answer)
    ensures StoresOnly(st.vars, Commands.Effect(kind, ps, name, st, answer).vars, name)
  {
    hide Commands.VarText, Commands.CountCha, Commands.SelectBus, Commands.DefinedShift;
  }

  /** The checks and the execution at the start of a repeat. */
  lemma ExecuteFacts(env: Env, s: Run, i: nat)
    requires i < |env.cmds| == |s.templates|
    ensures var s1 := ExecuteUnlessSkipped(env, CheckDeadlines(env, s), i);
            var sectionHit := Reached(env.maxSectionTime, env.sectionStart, env.clock(s.tick));
            var globalHit := Reached(env.maxGlobalTime, env.globalStart, env.clock(s.tick + 1));
            && s1 == s.(out := s1.out, vars := s1.vars, skip := s.skip || globalHit || sectionHit,
                        globalReached := s.globalReached || globalHit,
                        sectionReached := s.sectionReached || sectionHit,
                        tick := s.tick + 2, asks := s1.asks)
            && StoresOnly(s.vars, s1.vars, env.cmds[i].internalVar)
            && (s1.skip ==> s1.out == s.out)
  {
    hide Commands.Effect, Commands.KindOf, Reached, StoresOnly;
    var s0 := CheckDeadlines(env, s);
    StoresNothing(s.vars, env.cmds[i].internalVar);
    var kind := Commands.KindOf(env.cmds[i].key);
    if !s0.skip && kind.Some? {
      EffectStores(kind.value, s.templates[i], env.cmds[i].internalVar,
                   Commands.State(s.out, s.vars), env.answers(s.asks));
    }
  }

  lemma StoresNothing(vars: Vars, name: Option<string>)
    ensures StoresOnly(vars, vars, name)
  {
  }

  /** Everything was added at the command's path, and only an executed dump command grows the tree. */
  ghost predicate LoggedAt(env: Env, i: nat, ctx: Context, executed: bool, log: seq<Event>)
    requires i < |env.cmds|
  {
    forall k :: 0 <= k < |log| ==>
      (!log[k].Step? && log[k].path == CommandPath(env, i, ctx) && (log[k].Grown? ==> IsDump(env, i) && executed))
  }

  /** What a dump command adds: one growth at its own path, which is neither entry nor note. */
  lemma GrowthAdds(env: Env, s: Run, i: nat, ctx: Context, ask: nat) returns (log: seq<Event>)
    requires i < |env.cmds|
    ensures var r := GrowIfDump(env, s, i, ctx, ask);
            && r == s.(root := r.root, trace := r.trace)
            && r.trace == s.trace + log && r.root == Replay(s.root, log)
            && LoggedAt(env, i, ctx, !s.skip, log)
            && Reports(log) == [] && Notes(log, true) == 0 && Notes(log, false) == 0
            && |log| == (if !s.skip && IsDump(env, i) then 1 else 0) && forall k :: 0 <= k < |log| ==> log[k].Grown?
  {
    hide Grow, CommandPath, IsDump;
    log := [];
    if !s.skip && IsDump(env, i) {
      log := [Grown(CommandPath(env, i, ctx), env.dumps(ask))];
      assert log[..0] == [];
    }
  }

  /** The logging part of a repeat. */
  lemma LogIfNamedAdds(env: Env, s: Run, s2: Run, i: nat, ctx: Context, n: nat) returns (log: seq<Event>)
    requires i < |env.cmds| && (s2.skip ==> s2.out == s.out)
    requires s2.globalMaxPrint == s.globalMaxPrint && s2.sectionMaxPrint == s.sectionMaxPrint
    ensures var r := LogIfNamed(env, s2, i, ctx, n);
            && r == s2.(out := r.out, root := r.root, trace := r.trace,
                        globalMaxPrint := r.globalMaxPrint, sectionMaxPrint := r.sectionMaxPrint)
            && r.out.Failed() == s2.out.Failed()
            && r.trace == s2.trace + log && r.root == Replay(s2.root, log)
            && LoggedAt(env, i, ctx, false, log)
            && NamedLog(env, s, r, i, ctx, n, OutcomeOf(s2), log)
  {
    hide LogValue, RegisterName, RegisterPath, Logs, NamedLog, Reports, Notes;
    var r := LogIfNamed(env, s2, i, ctx, n);
    if env.cmds[i].output.Some? {
      var at := RegisterAt(env, env.cmds[i].output.value, ctx, n);
      log := LogValueAdds(env, s2, env.cmds[i].output.value, at.0, at.1);
      LogsExpanded(s2, r, log, at.0);
    } else {
      log := [];
      NothingMeasured();
    }
    NamedLogHolds(env, s, r, i, ctx, n, OutcomeOf(s2), log, s2);
  }

  /** Everything one repeat contributes: a step event and what it logs. */
  lemma RepeatAdds(env: Env, s: Run, i: nat, ctx: Context, n: nat) returns (st: Event, log: seq<Event>)
    requires i < |env.cmds| == |s.templates|
    ensures var r := Repeat(env, s, i, ctx, n);
            && st.Step? && st.cmd == i && st.ctx == ctx && st.vars == s.begun && st.params == s.templates[i]
            && st.globalHit == Reached(env.maxGlobalTime, env.globalStart, env.clock(s.tick + 1))
            && st.sectionHit == Reached(env.maxSectionTime, env.sectionStart, env.clock(s.tick))
            && (st.outcome == Skipped <==> s.skip || st.globalHit || st.sectionHit)
            && r.trace == s.trace + ([st] + log) && r.root == Replay(s.root, log)
            && r.tick == s.tick + 2 && StoresOnly(s.vars, r.vars, env.cmds[i].internalVar)
            && (r.skip <==> st.outcome == Skipped || (st.outcome == Failed && env.skipOnFail))
            && r.globalReached == (s.globalReached || st.globalHit)
            && r.sectionReached == (s.sectionReached || st.sectionHit)
            && LoggedAt(env, i, ctx, st.outcome != Skipped, log)
            && (IsDump(env, i) && st.outcome != Skipped ==> log != [] && log[0].Grown?)
            && (forall k :: 0 < k < |log| ==> !log[k].Grown?)
            && NamedLog(env, s, r, i, ctx, n, st.outcome, log)
  {
    hide ExecuteUnlessSkipped, CheckDeadlines, LogIfNamed, GrowIfDump, Reached, RegisterAt, StoresOnly, NamedLog,
         Replay, LoggedAt, Reports, Notes;
    ExecuteFacts(env, s, i);
    var s1 := ExecuteUnlessSkipped(env, CheckDeadlines(env, s), i);
    st := Summary(env, s, s1, i, ctx, n);
    var t := s1.(trace := s1.trace + [st]);
    var grown := GrowthAdds(env, t, i, ctx, s.asks);
    var s2 := GrowIfDump(env, t, i, ctx, s.asks);
    var logged := LogIfNamedAdds(env, s, s2, i, ctx, n);
    var s3 := LogIfNamed(env, s2, i, ctx, n);
    log := grown + logged;
    ReplayConcat(s.root, grown, logged);
    assert s3.trace == s.trace + ([st] + log);
    NamedLogAfter(env, s, s3, i, ctx, n, st.outcome, grown, logged);
    LoggedAtConcat(env, i, ctx, !t.skip, grown, logged);
    assert forall k :: 0 <= k < |logged| ==> !logged[k].Grown? by { NoneGrown(env, i, ctx, logged); }
    NamedLogOfSkip(env, s, s3, i, ctx, n, st.outcome, log);
  }

  lemma NoneGrown(env: Env, i: nat, ctx: Context, log: seq<Event>)
    requires i < |env.cmds| && LoggedAt(env, i, ctx, false, log)
    ensures forall k :: 0 <= k < |log| ==> !log[k].Grown?
  {
  }

  lemma LoggedAtConcat(env: Env, i: nat, ctx: Context, executed: bool, a: seq<Event>, b: seq<Event>)
    requires i < |env.cmds| && LoggedAt(env, i, ctx, executed, a) && LoggedAt(env, i, ctx, false, b)
    ensures LoggedAt(env, i, ctx, executed, a + b)
  {
    hide CommandPath, IsDump;
  }

  /** What was dumped before does not change what the logged part amounts to. */
  lemma NamedLogAfter(env: Env, s: Run, r: Run, i: nat, ctx: Context, n: nat, outcome: Outcome,
                      grown: seq<Event>, log: seq<Event>)
    requires i < |env.cmds| && NamedLog(env, s, r, i, ctx, n, outcome, log)
    requires Reports(grown) == [] && Notes(grown, true) == 0 && Notes(grown, false) == 0
    requires forall k :: 0 <= k < |grown| ==> !grown[k].Entry?
    ensures NamedLog(env, s, r, i, ctx, n, outcome, grown + log)
  {
    hide RegisterAt, Reports, Notes;
    ReportsConcat(grown, log);
    NotesConcat(grown, log, true);
    NotesConcat(grown, log, false);
  }

  lemma NamedLogOfSkip(env: Env, s: Run, r: Run, i: nat, ctx: Context, n: nat, outcome: Outcome, log: seq<Event>)
    requires i < |env.cmds| && NamedLog(env, s, r, i, ctx, n, outcome, log)
    ensures forall b :: NamedLog(env, s, r.(skip := b), i, ctx, n, outcome, log)
  {
    hide RegisterAt, Reports, Notes;
  }

  lemma NothingMeasured()
    ensures Reports([]) == [] && Notes([], true) == 0 && Notes([], false) == 0
  {
  }

  lemma LogsExpanded(s: Run, r: Run, log: seq<Event>, path: Path)
    requires Logs(s, r, log, path)
    ensures r == s.(out := r.out, root := r.root, trace := r.trace,
                    globalMaxPrint := r.globalMaxPrint, sectionMaxPrint := r.sectionMaxPrint)
    ensures r.out.Failed() == s.out.Failed() && r.trace == s.trace + log && r.root == Replay(s.root, log)
    ensures forall k :: 0 <= k < |log| ==> log[k].IsValue() && log[k].path == path
  {
  }

  /** The report that repeat n of a named command owes. */
  function ReportOf(env: Env, i: nat, ctx: Context, n: nat, outcome: Outcome): Report
    requires i < |env.cmds| && env.cmds[i].output.Some?
  {
    var at := RegisterAt(env, env.cmds[i].output.value, ctx, n);
    Report(at.0, at.1, outcome)
  }

  ghost predicate NotesDue(s: Run, r: Run, due: bool, log: seq<Event>) {
    && (due ==> forall k :: 0 <= k < |log| && log[k].Entry? ==> log[k].text == LOGGER_NA)
    && Notes(log, true) == (if due && r.globalReached && s.globalMaxPrint then 1 else 0)
    && Notes(log, false) == (if due && r.sectionReached && s.sectionMaxPrint then 1 else 0)
    && r.globalMaxPrint == (s.globalMaxPrint && !(due && r.globalReached))
    && r.sectionMaxPrint == (s.sectionMaxPrint && !(due && r.sectionReached))
  }

  /** What the logged part of a repeat amounts to: nothing for an unnamed command; for a named
      one exactly one entry, and notes only for limits reached and not yet reported. */
  ghost predicate NamedLog(env: Env, s: Run, r: Run, i: nat, ctx: Context, n: nat, outcome: Outcome, log: seq<Event>)
    requires i < |env.cmds|
  {
    if env.cmds[i].output.None? then
      && Reports(log) == [] && Notes(log, true) == 0 && Notes(log, false) == 0
      && r.globalMaxPrint == s.globalMaxPrint && r.sectionMaxPrint == s.sectionMaxPrint
    else
      && !r.out.printString
      && Reports(log) == [ReportOf(env, i, ctx, n, outcome)]
      && (!s.out.printString ==> NotesDue(s, r, outcome == Skipped, log))
  }

  lemma NamedLogHolds(env: Env, s: Run, r: Run, i: nat, ctx: Context, n: nat, outcome: Outcome,
                      log: seq<Event>, s2: Run)
    requires i < |env.cmds| && outcome == OutcomeOf(s2) && (s2.skip ==> s2.out == s.out)
    requires s2.globalMaxPrint == s.globalMaxPrint && s2.sectionMaxPrint == s.sectionMaxPrint
    requires env.cmds[i].output.None? ==>
               Reports(log) == [] && Notes(log, true) == 0 && Notes(log, false) == 0
               && r.globalMaxPrint == s.globalMaxPrint && r.sectionMaxPrint == s.sectionMaxPrint
    requires env.cmds[i].output.Some? ==> !r.out.printString
    requires env.cmds[i].output.Some? ==> Reports(log) == [ReportOf(env, i, ctx, n, outcome)]
    requires env.cmds[i].output.Some? ==> r.globalReached == s2.globalReached && r.sectionReached == s2.sectionReached
    requires env.cmds[i].output.Some? ==> NotesDue(s2, r, s2.skip && !s2.out.printString, log)
    ensures NamedLog(env, s, r, i, ctx, n, outcome, log)
  {
    hide RegisterAt, Reports, Notes;
  }
}
