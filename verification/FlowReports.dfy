/** Completeness of what a section run reports, and the whole-run theorems. */
module FlowReports {
  import opened Numerals
  import opened Json
  import opened Logger
  import opened CmdInOut
  import opened InputParser
  import opened Clock
  import opened Flow
  import opened FlowTraces
  import opened FlowTheorems
  import opened FlowEntries

  /******* What must be reported *******/

  type Target = (Path, string)

  /** The entries that n repeats of command i owe. */
  function OwedByRepeats(env: Env, i: nat, ctx: Context, n: nat): seq<Target>
    requires i < |env.cmds|
  {
    if n == 0 || env.cmds[i].output.None? then []
    else OwedByRepeats(env, i, ctx, n - 1) + [RegisterAt(env, env.cmds[i].output.value, ctx, n)]
  }

  function OwedBy(env: Env, op: Op): seq<Target>
    requires OpFits(env, op)
  {
    if op.RunCommand? then OwedByRepeats(env, op.cmd, op.ctx, RepeatCount(env.cmds[op.cmd])) else []
  }

  /** The entries a schedule owes: one per repeat of every named command, in order. */
  function Owed(env: Env, ops: seq<Op>): seq<Target>
    requires Fits(env, ops)
  {
    if ops == [] then [] else Owed(env, ops[..|ops| - 1]) + OwedBy(env, ops[|ops| - 1])
  }

  function Targets(rs: seq<Report>): (r: seq<Target>)
    ensures |r| == |rs|
  {
    seq(|rs|, k requires 0 <= k < |rs| => (rs[k].path, rs[k].key))
  }

  function OutcomesOf(rs: seq<Report>): (r: seq<Outcome>)
    ensures |r| == |rs|
  {
    seq(|rs|, k requires 0 <= k < |rs| => rs[k].of)
  }

  /** Entries of skipped commands read "N/A". */
  ghost predicate SkippedReadNA(trace: seq<Event>) {
    forall k :: 0 <= k < |trace| && trace[k].Entry? && trace[k].of == Skipped ==> trace[k].text == LOGGER_NA
  }

  /** The stretch reports exactly the owed entries, each with the outcome of its own repeat, and
      reading what that repeat left behind. */
  ghost predicate ReportsAll(env: Env, s: Run, r: Run, owed: seq<Target>) {
    && s.trace <= r.trace
    && Targets(Reports(New(s, r))) == owed
    && OutcomesOf(Reports(New(s, r))) == NamedOutcomes(env, New(s, r))
    && SkippedReadNA(New(s, r))
    && AllRead(env, New(s, r))
  }

  lemma ReportsTrans(env: Env, s: Run, m: Run, r: Run, a: seq<Target>, b: seq<Target>)
    requires ReportsAll(env, s, m, a) && ReportsAll(env, m, r, b)
    ensures ReportsAll(env, s, r, a + b)
  {
    hide Reports, NamedOutcomes, AllRead;
    NewSplits(s, m, r);
    ReportsConcat(New(s, m), New(m, r));
    AllReadConcat(env, New(s, m), New(m, r));
    OutcomesConcat(env, New(s, m), New(m, r));
    var x, y := Reports(New(s, m)), Reports(New(m, r));
    assert Targets(x + y) == Targets(x) + Targets(y);
    assert OutcomesOf(x + y) == OutcomesOf(x) + OutcomesOf(y);
  }

  lemma ReportsNothing(env: Env, s: Run, r: Run)
    requires s.trace == r.trace
    ensures ReportsAll(env, s, r, [])
  {
    assert New(s, r) == [];
    NothingRead(env);
  }

  /** No string is waiting to be printed for a named command. */
  predicate NothingWaiting(env: Env, s: Run, i: nat) {
    IsNamed(env, i) ==> !s.out.printString
  }

  lemma ReportsRepeat(env: Env, s: Run, i: nat, ctx: Context, n: nat)
    requires i < |env.cmds| == |s.templates| && NothingWaiting(env, s, i)
    ensures var r := Repeat(env, s, i, ctx, n);
            && NothingWaiting(env, r, i)
            && ReportsAll(env, s, r, if env.cmds[i].output.None? then []
                                     else [RegisterAt(env, env.cmds[i].output.value, ctx, n)])
  {
    hide Repeat, StoresOnly, Replay, Reached, RegisterAt, Notes, CommandPath, IsDump, Reports, NamedOutcomes, AllRead;
    var r := Repeat(env, s, i, ctx, n);
    RepeatReads(env, s, i, ctx, n);
    var st, log := RepeatAdds(env, s, i, ctx, n);
    assert New(s, r) == [st] + log;
    ReportsConcat([st], log);
    OutcomesConcat(env, [st], log);
    ReportsOfStep(env, st);
    NoSteps(env, log);
    if env.cmds[i].output.Some? {
      EntriesMatch(log, ReportOf(env, i, ctx, n, st.outcome));
    } else {
      NoEntries(log);
    }
  }

  lemma ReportsOfStep(env: Env, st: Event)
    requires st.Step?
    ensures Reports([st]) == []
    ensures NamedOutcomes(env, [st]) == if IsNamed(env, st.cmd) then [st.outcome] else []
  {
    assert [st][..0] == [];
  }

  lemma {:induction false} NoSteps(env: Env, log: seq<Event>)
    requires forall k :: 0 <= k < |log| ==> !log[k].Step?
    ensures NamedOutcomes(env, log) == []
  {
    if log != [] {
      NoSteps(env, log[..|log| - 1]);
    }
  }

  lemma {:induction false} EntriesMatch(log: seq<Event>, r: Report)
    requires Reports(log) == [r]
    ensures forall k :: 0 <= k < |log| && log[k].Entry? ==> log[k].of == r.of
  {
    var init := log[..|log| - 1];
    if log[|log| - 1].Entry? {
      assert |Reports(log)| == |Reports(init)| + 1;
      assert Reports(init) == [] &&
             Reports(log)[0] == Report(log[|log| - 1].path, log[|log| - 1].key, log[|log| - 1].of);
      NoEntries(init);
    } else {
      EntriesMatch(init, r);
    }
  }

  lemma {:induction false} ReportsRepeats(env: Env, s: Run, i: nat, ctx: Context, n: nat)
    requires i < |env.cmds| == |s.templates| && NothingWaiting(env, s, i)
    ensures NothingWaiting(env, Repeats(env, s, i, ctx, n), i)
    ensures ReportsAll(env, s, Repeats(env, s, i, ctx, n), OwedByRepeats(env, i, ctx, n))
  {
    hide Repeat, ReportsAll, NothingWaiting, RegisterAt;
    if n == 0 {
      ReportsNothing(env, s, s);
    } else {
      var m := Repeats(env, s, i, ctx, n - 1);
      ReportsRepeats(env, s, i, ctx, n - 1);
      ReportsRepeat(env, m, i, ctx, n);
      var last := if env.cmds[i].output.None? then [] else [RegisterAt(env, env.cmds[i].output.value, ctx, n)];
      ReportsTrans(env, s, m, Repeat(env, m, i, ctx, n), OwedByRepeats(env, i, ctx, n - 1), last);
      assert OwedByRepeats(env, i, ctx, n - 1) + last == OwedByRepeats(env, i, ctx, n) by {
        OwedNothing(env, i, ctx, n - 1);
      }
    }
  }

  lemma OwedNothing(env: Env, i: nat, ctx: Context, n: nat)
    requires i < |env.cmds|
    ensures env.cmds[i].output.None? ==> OwedByRepeats(env, i, ctx, n) == []
  {
  }

  lemma ReportsApply(env: Env, s: Run, op: Op)
    requires OpFits(env, op) && |env.cmds| == |s.templates|
    ensures ReportsAll(env, s, Apply(env, s, op), OwedBy(env, op))
  {
    hide ReportsAll, Process, OwedByRepeats, Quiet;
    var r := Apply(env, s, op);
    if op.RunCommand? {
      var a, b := ProcessParts(env, s, op.cmd, op.ctx);
      assert s.trace == a.trace && b.trace == r.trace by { QuietTraces(s, a); QuietTraces(b, r); }
      ReportsNothing(env, s, a);
      ReportsRepeats(env, a, op.cmd, op.ctx, RepeatCount(env.cmds[op.cmd]));
      ReportsNothing(env, b, r);
      ReportsTrans(env, s, a, b, [], OwedBy(env, op));
      ReportsTrans(env, s, b, r, [] + OwedBy(env, op), []);
      assert [] + OwedBy(env, op) + [] == OwedBy(env, op);
    } else {
      ReportsNothing(env, s, r);
    }
  }

  lemma QuietTraces(s: Run, r: Run)
    requires Quiet(s, r)
    ensures s.trace == r.trace
  {
  }

  /** Completeness: whatever is skipped or fails, a run adds exactly one register entry per
      repeat of every named command it visits, at the path and under the name that the schedule
      determines, and each entry shows how its own repeat fared. */
  lemma {:induction false} RunReportsAll(env: Env, s: Run, ops: seq<Op>)
    requires Fits(env, ops) && |env.cmds| == |s.templates|
    ensures ReportsAll(env, s, RunOps(env, s, ops), Owed(env, ops))
  {
    hide ReportsAll, Apply, OwedBy;
    if ops == [] {
      ReportsNothing(env, s, s);
    } else {
      var init := ops[..|ops| - 1];
      var m := RunOps(env, s, init);
      RunReportsAll(env, s, init);
      ReportsApply(env, m, ops[|ops| - 1]);
      ReportsTrans(env, s, m, RunOps(env, s, ops), Owed(env, init), OwedBy(env, ops[|ops| - 1]));
    }
  }

  /******* Timeout notes *******/

  predicate ReachedFlag(s: Run, global: bool) { if global then s.globalReached else s.sectionReached }

  predicate MaxPrint(s: Run, global: bool) { if global then s.globalMaxPrint else s.sectionMaxPrint }

  predicate IsNamedHit(env: Env, e: Event, global: bool) {
    IsHit(e, global) && IsNamed(env, e.cmd)
  }

  /** A repeat of a named command saw the limit reached. */
  predicate HasNamedHit(env: Env, trace: seq<Event>, global: bool) {
    exists k :: 0 <= k < |trace| && IsNamedHit(env, trace[k], global)
  }

  /** The limit has been flagged only if it is past. */
  predicate FlagIsTrue(env: Env, s: Run, global: bool) {
    ReachedFlag(s, global) ==> Past(env.clock, LimitOf(env, global), s.tick)
  }

  /** One note appears if the note is still due and a named repeat saw the limit reached, and
      none otherwise. */
  ghost predicate NotesOnce(env: Env, s: Run, r: Run, global: bool) {
    && s.trace <= r.trace
    && Notes(New(s, r), global) ==
       (if MaxPrint(s, global) && HasNamedHit(env, New(s, r), global) then 1 else 0)
    && MaxPrint(r, global) == (MaxPrint(s, global) && !HasNamedHit(env, New(s, r), global))
  }

  lemma NamedHitConcat(env: Env, a: seq<Event>, b: seq<Event>, global: bool)
    ensures HasNamedHit(env, a + b, global) <==> HasNamedHit(env, a, global) || HasNamedHit(env, b, global)
  {
    hide IsNamedHit;
    if k :| 0 <= k < |a| && IsNamedHit(env, a[k], global) {
      assert (a + b)[k] == a[k];
    }
    if k :| 0 <= k < |b| && IsNamedHit(env, b[k], global) {
      assert (a + b)[|a| + k] == b[k];
    }
  }

  lemma NotesTrans(env: Env, s: Run, m: Run, r: Run, global: bool)
    requires NotesOnce(env, s, m, global) && NotesOnce(env, m, r, global)
    ensures NotesOnce(env, s, r, global)
  {
    hide HasNamedHit;
    NewSplits(s, m, r);
    NotesConcat(New(s, m), New(m, r), global);
    NamedHitConcat(env, New(s, m), New(m, r), global);
  }

  lemma NotesNothing(env: Env, s: Run, r: Run, global: bool)
    requires s.trace == r.trace && MaxPrint(s, global) == MaxPrint(r, global)
    ensures NotesOnce(env, s, r, global)
  {
    assert New(s, r) == [];
  }

  lemma NotesRepeat(env: Env, s: Run, i: nat, ctx: Context, n: nat, global: bool)
    requires i < |env.cmds| == |s.templates| && NothingWaiting(env, s, i)
    requires Monotone(env.clock) && FlagIsTrue(env, s, global)
    ensures NotesOnce(env, s, Repeat(env, s, i, ctx, n), global)
    ensures FlagIsTrue(env, Repeat(env, s, i, ctx, n), global)
  {
    hide Repeat, StoresOnly, Replay, RegisterAt, Monotone, Reached, Reports;
    var r := Repeat(env, s, i, ctx, n);
    var st, log := RepeatAdds(env, s, i, ctx, n);
    var l := LimitOf(env, global);
    assert New(s, r) == [st] + log;
    NotesConcat([st], log, global);
    NamedHitConcat(env, [st], log, global);
    assert [st][..0] == [];
    assert HasNamedHit(env, [st], global) <==> IsNamedHit(env, [st][0], global);
    assert !HasNamedHit(env, log, global);
    var at := if global then s.tick + 1 else s.tick;
    assert IsHit(st, global) <==> Past(env.clock, l, at);
    if IsHit(st, global) {
      PastStays(env.clock, l, at, r.tick);
    }
    if ReachedFlag(s, global) {
      PastStays(env.clock, l, s.tick, at);
    }
  }

  lemma {:induction false} NotesRepeats(env: Env, s: Run, i: nat, ctx: Context, n: nat, global: bool)
    requires i < |env.cmds| == |s.templates| && NothingWaiting(env, s, i)
    requires Monotone(env.clock) && FlagIsTrue(env, s, global)
    ensures NotesOnce(env, s, Repeats(env, s, i, ctx, n), global)
    ensures FlagIsTrue(env, Repeats(env, s, i, ctx, n), global)
  {
    hide Repeat, NotesOnce, NothingWaiting, Monotone, FlagIsTrue, ReportsAll;
    if n == 0 {
      NotesNothing(env, s, s, global);
    } else {
      var m := Repeats(env, s, i, ctx, n - 1);
      NotesRepeats(env, s, i, ctx, n - 1, global);
      ReportsRepeats(env, s, i, ctx, n - 1);
      NotesRepeat(env, m, i, ctx, n, global);
      NotesTrans(env, s, m, Repeat(env, m, i, ctx, n), global);
    }
  }

  lemma NotesApply(env: Env, s: Run, op: Op, global: bool)
    requires OpFits(env, op) && |env.cmds| == |s.templates|
    requires Monotone(env.clock) && FlagIsTrue(env, s, global)
    ensures NotesOnce(env, s, Apply(env, s, op), global)
    ensures FlagIsTrue(env, Apply(env, s, op), global)
  {
    hide NotesOnce, Process, Monotone, Past;
    var r := Apply(env, s, op);
    if op.RunCommand? {
      var a, b := ProcessParts(env, s, op.cmd, op.ctx);
      NotesNothing(env, s, a, global);
      NotesRepeats(env, a, op.cmd, op.ctx, RepeatCount(env.cmds[op.cmd]), global);
      NotesNothing(env, b, r, global);
      NotesTrans(env, s, a, b, global);
      NotesTrans(env, s, b, r, global);
    } else {
      NotesNothing(env, s, r, global);
    }
  }

  lemma {:induction false} NotesRun(env: Env, s: Run, ops: seq<Op>, global: bool)
    requires Fits(env, ops) && |env.cmds| == |s.templates|
    requires Monotone(env.clock) && FlagIsTrue(env, s, global)
    ensures NotesOnce(env, s, RunOps(env, s, ops), global)
    ensures FlagIsTrue(env, RunOps(env, s, ops), global)
  {
    hide NotesOnce, Apply, Monotone, FlagIsTrue;
    if ops == [] {
      NotesNothing(env, s, s, global);
    } else {
      var m := RunOps(env, s, ops[..|ops| - 1]);
      NotesRun(env, s, ops[..|ops| - 1], global);
      NotesApply(env, m, ops[|ops| - 1], global);
      NotesTrans(env, s, m, RunOps(env, s, ops), global);
    }
  }

  /******* Dumps *******/

  /** The step of a dump command that was executed. */
  predicate Dumps(env: Env, ev: Event) {
    ev.Step? && IsDump(env, ev.cmd) && ev.outcome != Skipped
  }

  /** What such a step dumps goes to the command's own path in the step's own context. */
  predicate IsDumpOf(env: Env, step: Event, ev: Event)
    requires Dumps(env, step)
  {
    ev.Grown? && ev.path == CommandPath(env, step.cmd, step.ctx)
  }

  /** Whether event k is a dump is decided by the event before it. */
  predicate DumpInPlace(env: Env, trace: seq<Event>, k: nat)
    requires k < |trace|
  {
    && (trace[k].Grown? ==> k > 0 && Dumps(env, trace[k - 1]) && IsDumpOf(env, trace[k - 1], trace[k]))
    && (Dumps(env, trace[k]) ==> k + 1 < |trace| && IsDumpOf(env, trace[k], trace[k + 1]))
  }

  /** Every executed dump command is directly followed by its dump, at its own path, and nothing
      else is dumped. */
  ghost predicate DumpsFollow(env: Env, s: Run, r: Run) {
    && s.trace <= r.trace
    && forall k :: 0 <= k < |New(s, r)| ==> DumpInPlace(env, New(s, r), k)
  }

  lemma DumpsTrans(env: Env, s: Run, m: Run, r: Run)
    requires DumpsFollow(env, s, m) && DumpsFollow(env, m, r)
    ensures DumpsFollow(env, s, r)
  {
    hide Dumps, IsDumpOf;
    NewSplits(s, m, r);
    var a, b, c := New(s, m), New(m, r), New(s, r);
    forall k | 0 <= k < |c| ensures DumpInPlace(env, c, k) {
      if k < |a| {
        assert DumpInPlace(env, a, k);
      } else {
        assert DumpInPlace(env, b, k - |a|);
      }
    }
  }

  lemma DumpsRepeat(env: Env, s: Run, i: nat, ctx: Context, n: nat)
    requires i < |env.cmds| == |s.templates|
    ensures DumpsFollow(env, s, Repeat(env, s, i, ctx, n))
  {
    hide Repeat, NamedLog, StoresOnly, Replay, Reached, IsDump, CommandPath;
    var r := Repeat(env, s, i, ctx, n);
    var st, log := RepeatAdds(env, s, i, ctx, n);
    var c := New(s, r);
    assert c == [st] + log;
    forall k | 0 <= k < |c| ensures DumpInPlace(env, c, k) {
      assert k > 0 ==> c[k] == log[k - 1];
    }
  }

  lemma {:induction false} DumpsRepeats(env: Env, s: Run, i: nat, ctx: Context, n: nat)
    requires i < |env.cmds| == |s.templates|
    ensures DumpsFollow(env, s, Repeats(env, s, i, ctx, n))
  {
    hide Repeat, DumpInPlace;
    if n > 0 {
      var m := Repeats(env, s, i, ctx, n - 1);
      DumpsRepeats(env, s, i, ctx, n - 1);
      DumpsRepeat(env, m, i, ctx, n);
      DumpsTrans(env, s, m, Repeat(env, m, i, ctx, n));
    }
  }

  /** Over every schedule the dumps are exactly those of the executed dump commands, each at its
      command's own path. */
  lemma {:induction false} DumpsRun(env: Env, s: Run, ops: seq<Op>)
    requires Fits(env, ops) && |env.cmds| == |s.templates|
    ensures DumpsFollow(env, s, RunOps(env, s, ops))
  {
    hide Process, DumpInPlace;
    if ops != [] {
      var m, op := RunOps(env, s, ops[..|ops| - 1]), ops[|ops| - 1];
      DumpsRun(env, s, ops[..|ops| - 1]);
      var r := Apply(env, m, op);
      if op.RunCommand? {
        var a, b := ProcessParts(env, m, op.cmd, op.ctx);
        DumpsRepeats(env, a, op.cmd, op.ctx, RepeatCount(env.cmds[op.cmd]));
        assert New(m, r) == New(a, b);
      } else {
        assert New(m, r) == [];
      }
      DumpsTrans(env, s, m, r);
    }
  }

  /** Without dump commands nothing is dumped. */
  lemma {:induction false} NothingDumped(env: Env, trace: seq<Event>)
    requires forall i :: 0 <= i < |env.cmds| ==> !IsDump(env, i)
    requires forall k :: 0 <= k < |trace| ==> DumpInPlace(env, trace, k)
    ensures DumpedLeaves(trace) == 0
  {
    forall k | 0 <= k < |trace| ensures !trace[k].Grown? {
      assert DumpInPlace(env, trace, k);
    }
    NoneGrownNoLeaves(trace);
  }

  lemma {:induction false} NoneGrownNoLeaves(trace: seq<Event>)
    requires forall k :: 0 <= k < |trace| ==> !trace[k].Grown?
    ensures DumpedLeaves(trace) == 0
  {
    if trace != [] {
      NoneGrownNoLeaves(trace[..|trace| - 1]);
    }
  }
}
