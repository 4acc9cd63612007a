/** The guarantees of fillNewSection and of the loop over sections and sockets that calls it. */
module SectionTheorems {
  import opened Numerals
  import opened Json
  import opened Logger
  import opened CmdInOut
  import opened InputParser
  import Commands
  import opened Clock
  import opened Flow
  import opened FlowTraces
  import opened FlowTheorems
  import opened FlowReports

  lemma StartFacts(env: Env, s: Run, preOut: Out)
    ensures var a := StartSection(env, s, preOut);
            && a.trace == s.trace && a.tick == s.tick && a.templates == s.templates && a.vars == []
            && !a.skip && !a.globalReached && !a.sectionReached && a.globalMaxPrint && a.sectionMaxPrint
            && a.root == (if env.version == 0 then s.root
                          else Once(s.root, RootPath(env.place, env.ctx0), "_version", PrintHex(env.version)))
  {
    hide Once, PrintHex;
  }

  /******* Deadlines *******/

  /** Once a check has seen the section's limit or the global limit reached, nothing more is
      executed in the section, although the skip flag is cleared after every CHA and core. */
  lemma SectionStopsAtDeadline(env: Env, s: Run, preOut: Out, mainOut: Out)
    requires env.prereqs <= |env.cmds| == |s.templates| && Monotone(env.clock)
    ensures var r := SectionRun(env, s, preOut, mainOut);
            && s.trace <= r.trace
            && StopsAfterHit(New(s, r), false) && StopsAfterHit(New(s, r), true)
            && Obeys(env.clock, LimitOf(env, true), s, r)
  {
    hide StartSection, RunOps, Schedule, Fits, Monotone, StopsAfterHit, IsHit, IsExecuted;
    var a := StartSection(env, s, preOut);
    StartFacts(env, s, preOut);
    ScheduleFits(env, mainOut);
    ProgressRun(env, a, Schedule(env, mainOut));
    var r := SectionRun(env, s, preOut, mainOut);
    assert New(s, r) == New(a, r);
  }

  datatype Job = Job(env: Env, preOut: Out, mainOut: Out)

  /** The section runs of one crash dump, in the order of its sections and sockets: each starts
      from the trace the previous one left, at a later clock reading, with the same global
      limit; templates, output record and tree may differ. */
  ghost predicate Chained(jobs: seq<Job>, before: seq<Run>, after: seq<Run>, clock: nat -> Timespec, global: Limit) {
    && |jobs| == |before| == |after|
    && (forall j :: 0 <= j < |jobs| ==>
          && jobs[j].env.prereqs <= |jobs[j].env.cmds| == |before[j].templates|
          && jobs[j].env.clock == clock && LimitOf(jobs[j].env, true) == global
          && after[j] == SectionRun(jobs[j].env, before[j], jobs[j].preOut, jobs[j].mainOut))
    && forall j :: 0 < j < |jobs| ==> before[j].trace == after[j - 1].trace && after[j - 1].tick <= before[j].tick
  }

  /** Once the global limit has been seen reached, nothing is executed in any later section or
      for any later socket. */
  lemma {:induction false} GlobalDeadline(jobs: seq<Job>, before: seq<Run>, after: seq<Run>,
                                          clock: nat -> Timespec, global: Limit)
    requires jobs != [] && Chained(jobs, before, after, clock, global) && Monotone(clock)
    ensures Obeys(clock, global, before[0], after[|jobs| - 1])
    ensures StopsAfterHit(New(before[0], after[|jobs| - 1]), global.global)
  {
    hide SectionRun, Monotone, StopsAfterHit, Past;
    var n := |jobs| - 1;
    SectionStopsAtDeadline(jobs[n].env, before[n], jobs[n].preOut, jobs[n].mainOut);
    if n > 0 {
      GlobalDeadline(jobs[..n], before[..n], after[..n], clock, global);
      assert after[..n][n - 1] == after[n - 1];
      GapObeys(clock, global, after[n - 1], before[n]);
      ObeysTrans(clock, global, before[0], after[n - 1], before[n]);
      ObeysTrans(clock, global, before[0], before[n], after[n]);
    }
  }

  lemma GapObeys(clock: nat -> Timespec, l: Limit, s: Run, r: Run)
    requires s.trace == r.trace && s.tick <= r.tick
    ensures Obeys(clock, l, s, r)
  {
    ObeysNothing(clock, l, s, r);
  }

  /******* Variables *******/

  /** A variable keeps the value of its first store for the rest of the section. */
  lemma VariablesStay(env: Env, s: Run, ops: seq<Op>, name: string)
    requires Fits(env, ops) && |env.cmds| == |s.templates| && Monotone(env.clock)
    ensures Lookup(s.vars, name).Some? ==> Lookup(RunOps(env, s, ops).vars, name) == Lookup(s.vars, name)
  {
    hide RunOps, Fits, Monotone;
    ProgressRun(env, s, ops);
    var vars := RunOps(env, s, ops).vars;
    assert vars == s.vars + vars[|s.vars|..];
    LookupAppend(s.vars, vars[|s.vars|..], name);
  }

  /******* Completeness and conservation *******/

  /** A section run reports every owed register exactly once and in order, with the outcome of
      its own repeat, and at most one note per limit: one exactly when a named repeat saw that
      limit reached. The tree gains these values, and directly behind each executed dump command
      what it adds at its own register's path, and nothing else. */
  lemma SectionIsComplete(env: Env, s: Run, preOut: Out, mainOut: Out)
    requires env.prereqs <= |env.cmds| == |s.templates| && Monotone(env.clock)
    ensures Fits(env, Schedule(env, mainOut))
    ensures var a := StartSection(env, s, preOut);
            var r := SectionRun(env, s, preOut, mainOut);
            && ReportsAll(env, s, r, Owed(env, Schedule(env, mainOut)))
            && Notes(New(s, r), true) == (if HasNamedHit(env, New(s, r), true) then 1 else 0)
            && Notes(New(s, r), false) == (if HasNamedHit(env, New(s, r), false) then 1 else 0)
            && r.root == Replay(a.root, New(s, r))
            && Leaves(r.root) == Leaves(a.root) + |Owed(env, Schedule(env, mainOut))|
                                 + Notes(New(s, r), true) + Notes(New(s, r), false) + DumpedLeaves(New(s, r))
            && DumpsFollow(env, s, r)
            && ((forall i :: 0 <= i < |env.cmds| ==> !IsDump(env, i)) ==> DumpedLeaves(New(s, r)) == 0)
  {
    hide StartSection, RunOps, Schedule, Fits, Monotone, HasNamedHit, Owed, Obeys, Leaves, Reports, DumpInPlace, IsDump,
         Replay, DumpedLeaves, Notes;
    var a := StartSection(env, s, preOut);
    StartFacts(env, s, preOut);
    ScheduleFits(env, mainOut);
    ProgressRun(env, a, Schedule(env, mainOut));
    RunReportsAll(env, a, Schedule(env, mainOut));
    NotesRun(env, a, Schedule(env, mainOut), true);
    NotesRun(env, a, Schedule(env, mainOut), false);
    var r := SectionRun(env, s, preOut, mainOut);
    assert New(s, r) == New(a, r);
    LeavesOfReplay(a.root, New(s, r));
    DumpsRun(env, a, Schedule(env, mainOut));
    if forall i :: 0 <= i < |env.cmds| ==> !IsDump(env, i) {
      NothingDumped(env, New(s, r));
    }
  }

  /** Named repeats among the commands lo..hi. */
  function NamedRepeats(env: Env, lo: nat, hi: nat): nat
    requires lo <= hi <= |env.cmds|
  {
    if lo == hi then 0
    else NamedRepeats(env, lo, hi - 1) + (if env.cmds[hi - 1].output.Some? then RepeatCount(env.cmds[hi - 1]) else 0)
  }

  function ContextCount(visits: seq<seq<Context>>): nat {
    if visits == [] then 0 else ContextCount(visits[..|visits| - 1]) + |visits[|visits| - 1]|
  }

  lemma {:induction false} OwedConcat(env: Env, a: seq<Op>, b: seq<Op>)
    requires Fits(env, a) && Fits(env, b)
    ensures Fits(env, a + b) && Owed(env, a + b) == Owed(env, a) + Owed(env, b)
  {
    hide OwedBy;
    if b == [] {
      assert a + b == a;
    } else {
      OwedConcat(env, a, b[..|b| - 1]);
      assert (a + b)[..|a + b| - 1] == a + b[..|b| - 1];
    }
  }

  lemma {:induction false} OwedByRepeatsCount(env: Env, i: nat, ctx: Context, n: nat)
    requires i < |env.cmds|
    ensures |OwedByRepeats(env, i, ctx, n)| == if env.cmds[i].output.Some? then n else 0
  {
    if n > 0 {
      OwedByRepeatsCount(env, i, ctx, n - 1);
    }
  }

  lemma {:induction false} OwedByCommands(env: Env, lo: nat, hi: nat, ctx: Context)
    requires lo <= hi <= |env.cmds|
    ensures Fits(env, CommandOps(lo, hi, ctx))
    ensures |Owed(env, CommandOps(lo, hi, ctx))| == NamedRepeats(env, lo, hi)
  {
    hide OwedByRepeats;
    if lo < hi {
      OwedByCommands(env, lo, hi - 1, ctx);
      var ops := CommandOps(lo, hi, ctx);
      assert ops[..|ops| - 1] == CommandOps(lo, hi - 1, ctx);
      OwedByRepeatsCount(env, hi - 1, ctx, RepeatCount(env.cmds[hi - 1]));
    }
  }

  lemma {:induction false} OwedByBody(env: Env, ctxs: seq<Context>)
    requires env.prereqs <= |env.cmds|
    ensures Fits(env, BodyOps(env, ctxs))
    ensures |Owed(env, BodyOps(env, ctxs))| == |ctxs| * NamedRepeats(env, env.prereqs, |env.cmds|)
  {
    hide NamedRepeats, CommandOps, Owed, Fits;
    if ctxs == [] {
      assert BodyOps(env, ctxs) == [];
      OwedNone(env);
    } else {
      var init := ctxs[..|ctxs| - 1];
      OwedByBody(env, init);
      OwedByCommands(env, env.prereqs, |env.cmds|, ctxs[|ctxs| - 1]);
      OwedConcat(env, BodyOps(env, init), CommandOps(env.prereqs, |env.cmds|, ctxs[|ctxs| - 1]));
      Distribute(|init|, 1, NamedRepeats(env, env.prereqs, |env.cmds|));
    }
  }

  lemma OwedNone(env: Env)
    ensures Fits(env, []) && Owed(env, []) == []
    ensures Fits(env, [ClearSkip]) && Owed(env, [ClearSkip]) == []
    ensures forall o :: Fits(env, [UseOutput(o)]) && Owed(env, [UseOutput(o)]) == []
  {
    assert forall op: Op :: [op][..0] == [];
  }

  lemma Distribute(a: nat, b: nat, n: nat)
    ensures (a + b) * n == a * n + b * n
  {
  }

  lemma {:induction false} OwedByVisits(env: Env, visits: seq<seq<Context>>)
    requires env.prereqs <= |env.cmds|
    ensures Fits(env, VisitOps(env, visits))
    ensures |Owed(env, VisitOps(env, visits))| == ContextCount(visits) * NamedRepeats(env, env.prereqs, |env.cmds|)
  {
    hide NamedRepeats, BodyOps, Owed, Fits;
    OwedNone(env);
    if visits == [] {
      assert VisitOps(env, visits) == [];
    } else {
      var init, last := visits[..|visits| - 1], visits[|visits| - 1];
      OwedByVisits(env, init);
      OwedByBody(env, last);
      OwedConcat(env, VisitOps(env, init), BodyOps(env, last));
      OwedConcat(env, VisitOps(env, init) + BodyOps(env, last), [ClearSkip]);
      Distribute(ContextCount(init), |last|, NamedRepeats(env, env.prereqs, |env.cmds|));
    }
  }

  /** The size of a complete report: the named repeats of the prerequisites once, and those of
      the body once per visited CHA, core or thread. */
  lemma OwedBySection(env: Env, mainOut: Out)
    requires env.prereqs <= |env.cmds|
    ensures Fits(env, Schedule(env, mainOut))
    ensures |Owed(env, Schedule(env, mainOut))| ==
            NamedRepeats(env, 0, env.prereqs) + ContextCount(Visits(env)) * NamedRepeats(env, env.prereqs, |env.cmds|)
  {
    hide NamedRepeats, VisitOps, CommandOps, Owed, Fits, Visits;
    OwedNone(env);
    OwedByCommands(env, 0, env.prereqs, env.ctx0);
    OwedConcat(env, CommandOps(0, env.prereqs, env.ctx0), [UseOutput(mainOut)]);
    OwedByVisits(env, Visits(env));
    OwedConcat(env, PrereqOps(env, mainOut), VisitOps(env, Visits(env)));
  }

  /** A core is visited exactly when its bit is set in the core mask and it is not left out as
      crashed; no core is visited twice, and every visit covers the same threads. */
  lemma {:induction false} VisitedCores(env: Env, n: nat)
    requires n <= 64
    ensures forall c: Byte :: c < n ==> (CoreVisit(env, c) in CoreVisits(env, n) <==> IsVisited(env, c))
    ensures forall v: seq<Context> :: v in CoreVisits(env, n) ==>
              v != [] && v[0].core < n && v == CoreVisit(env, v[0].core) && |v| == (if env.Flags().thread then 2 else 1)
    ensures forall j, k :: 0 <= j < k < |CoreVisits(env, n)| ==> CoreVisits(env, n)[j] != CoreVisits(env, n)[k]
  {
    hide IsVisited, ReadLoops;
    if n > 0 {
      VisitedCores(env, n - 1);
      var before, v := CoreVisits(env, n - 1), CoreVisit(env, n - 1);
      assert v !in before;
      forall c: Byte | c < n
        ensures CoreVisit(env, c) in CoreVisits(env, n) <==> IsVisited(env, c)
      {
        if c < n - 1 {
          assert CoreVisit(env, c)[0].core == c;
        }
      }
    }
  }

  /******* Skip phases *******/

  lemma {:induction false} BodyWithinPhase(env: Env, ctxs: seq<Context>)
    requires env.prereqs <= |env.cmds|
    ensures WithinPhase(BodyOps(env, ctxs))
  {
    if ctxs != [] {
      BodyWithinPhase(env, ctxs[..|ctxs| - 1]);
    }
  }

  /** The first visit shares its phase with the prerequisites (the flag is not cleared between
      them); every later visit starts with a cleared flag and is a phase of its own. */
  lemma SectionPhases(env: Env, s: Run, mainOut: Out, k: nat)
    requires env.prereqs <= |env.cmds| == |s.templates| && k < |Visits(env)|
    ensures Fits(env, VisitOps(env, Visits(env)[..k])) && Fits(env, BodyOps(env, Visits(env)[k]))
    ensures Fits(env, PrereqOps(env, mainOut) + BodyOps(env, Visits(env)[0]))
    ensures var a := RunOps(env, RunOps(env, s, PrereqOps(env, mainOut)), VisitOps(env, Visits(env)[..k]));
            var r := RunOps(env, a, BodyOps(env, Visits(env)[k]));
            && (k > 0 ==> !a.skip)
            && OnePhase(env, a, r)
            && RunsThenSkips(Outcomes(New(a, r)))
            && (env.skipOnFail ==> SuccessesThenSkips(Outcomes(New(a, r))))
    ensures var r := RunOps(env, s, PrereqOps(env, mainOut) + BodyOps(env, Visits(env)[0]));
            OnePhase(env, s, r) && (env.skipOnFail ==> SuccessesThenSkips(Outcomes(New(s, r))))
  {
    hide Visits, BodyOps, RunOps, OnePhase, Fits, SuccessesThenSkips, RunsThenSkips;
    var visits := Visits(env);
    VisitsFit(env, visits[..k]);
    BodyFits(env, visits[k]);
    BodyFits(env, visits[0]);
    BodyWithinPhase(env, visits[k]);
    BodyWithinPhase(env, visits[0]);
    PrereqsFit(env, mainOut);
    var b := RunOps(env, s, PrereqOps(env, mainOut));
    var a := RunOps(env, b, VisitOps(env, visits[..k]));
    PhaseShape(env, a, BodyOps(env, visits[k]));
    PhaseRun(env, a, BodyOps(env, visits[k]));
    if k > 0 {
      ClearedAfterVisits(env, b, visits[..k]);
    }
    var first := PrereqOps(env, mainOut) + BodyOps(env, visits[0]);
    FitsConcat(env, PrereqOps(env, mainOut), BodyOps(env, visits[0]));
    PhaseShape(env, s, first);
    PhaseRun(env, s, first);
  }

  /** When the first visit starts skipped: exactly when some repeat of a prerequisite was skipped
      or, with SkipOnFail, failed. It is then skipped as a whole, although the second is not. */
  lemma FirstVisitSkipped(env: Env, s: Run, preOut: Out, mainOut: Out)
    requires env.prereqs <= |env.cmds| == |s.templates| && Visits(env) != []
    ensures Fits(env, PrereqOps(env, mainOut)) && Fits(env, BodyOps(env, Visits(env)[0]))
    ensures var a := StartSection(env, s, preOut);
            var b := RunOps(env, a, PrereqOps(env, mainOut));
            var r := RunOps(env, b, BodyOps(env, Visits(env)[0]));
            && a.trace <= b.trace <= r.trace
            && (b.skip <==> exists k :: 0 <= k < |New(a, b)| && Blocks(env, New(a, b)[k]))
            && (b.skip ==> forall k :: 0 <= k < |New(b, r)| ==> !IsExecuted(New(b, r)[k]))
  {
    hide StartSection, RunOps, Visits, Fits, Blocks, IsExecuted;
    var a := StartSection(env, s, preOut);
    StartFacts(env, s, preOut);
    PrereqsFit(env, mainOut);
    PhaseRun(env, a, PrereqOps(env, mainOut));
    var b := RunOps(env, a, PrereqOps(env, mainOut));
    BodyFits(env, Visits(env)[0]);
    BodyWithinPhase(env, Visits(env)[0]);
    PhaseRun(env, b, BodyOps(env, Visits(env)[0]));
  }

  /** It does happen: with SkipOnFail a single prerequisite that fails - here one that names no
      known command - before any limit is reached skips the first visit. */
  lemma FailedPrerequisiteSkips(env: Env, s: Run, preOut: Out, mainOut: Out)
    requires env.prereqs == 1 && 1 <= |env.cmds| == |s.templates| && env.skipOnFail
    requires env.cmds[0].repeat == 1 && env.cmds[0].output.None? && Commands.KindOf(env.cmds[0].key).None?
    requires !Reached(env.maxSectionTime, env.sectionStart, env.clock(s.tick))
    requires !Reached(env.maxGlobalTime, env.globalStart, env.clock(s.tick + 1))
    ensures Fits(env, PrereqOps(env, mainOut))
    ensures var b := RunOps(env, StartSection(env, s, preOut), PrereqOps(env, mainOut));
            b.skip && |b.trace| == |s.trace| + 1 && s.trace <= b.trace && b.trace[|s.trace|].Step?
            && b.trace[|s.trace|].outcome == Failed
  {
    hide StartSection, Repeat, Begin, Process, Reached, Commands.KindOf;
    var a := StartSection(env, s, preOut);
    StartFacts(env, s, preOut);
    PrereqsFit(env, mainOut);
    var ops := PrereqOps(env, mainOut);
    var run, use := RunCommand(0, env.ctx0), UseOutput(mainOut);
    assert ops == [run, use] && ops[..1] == [run] && [run][..0] == [];
    assert RunOps(env, a, [run]) == Process(env, a, 0, env.ctx0);
    var begun, once := ProcessParts(env, a, 0, env.ctx0);
    assert begun.out.ret == PECI_CC_INVALID_REQ by { BeginFails(env, a); }
    assert Repeats(env, begun, 0, env.ctx0, 1) == Repeat(env, begun, 0, env.ctx0, 1);
    FailedRepeat(env, begun);
  }

  lemma BeginFails(env: Env, s: Run)
    requires 1 <= |env.cmds| == |s.templates|
    ensures Begin(env, s, 0, env.ctx0).out.ret == PECI_CC_INVALID_REQ
  {
    hide ResolveAll, StringOperand;
  }

  lemma FailedRepeat(env: Env, s: Run)
    requires 1 <= |env.cmds| == |s.templates| && env.skipOnFail
    requires env.cmds[0].output.None? && Commands.KindOf(env.cmds[0].key).None?
    requires !Reached(env.maxSectionTime, env.sectionStart, env.clock(s.tick))
    requires !Reached(env.maxGlobalTime, env.globalStart, env.clock(s.tick + 1))
    requires !s.skip && s.out.ret == PECI_CC_INVALID_REQ
    ensures var r := Repeat(env, s, 0, env.ctx0, 1);
            && r.skip && |r.trace| == |s.trace| + 1 && s.trace <= r.trace && r.trace[|s.trace|].Step?
            && r.trace[|s.trace|].outcome == Failed
  {
    hide Unacceptable, Reached, Commands.KindOf;
  }

  lemma PrereqsFit(env: Env, mainOut: Out)
    requires env.prereqs <= |env.cmds|
    ensures Fits(env, PrereqOps(env, mainOut)) && WithinPhase(PrereqOps(env, mainOut))
  {
  }

  lemma FitsConcat(env: Env, a: seq<Op>, b: seq<Op>)
    ensures Fits(env, a) && Fits(env, b) ==> Fits(env, a + b)
  {
  }

  lemma ClearedAfterVisits(env: Env, s: Run, visits: seq<seq<Context>>)
    requires env.prereqs <= |env.cmds| == |s.templates| && visits != []
    ensures Fits(env, VisitOps(env, visits)) && !RunOps(env, s, VisitOps(env, visits)).skip
  {
    hide BodyOps;
    VisitsFit(env, visits);
    var ops := VisitOps(env, visits);
    assert ops[|ops| - 1] == ClearSkip;
  }

  /******* Templates *******/

  /** Over a whole section run every executed command had the parameters its original template
      resolves to, and the shared input ends up intact, ready for the next socket. */
  lemma SectionResolves(env: Env, originals: seq<seq<Param>>, s: Run, preOut: Out, mainOut: Out)
    requires env.prereqs <= |env.cmds| && PlainInput(env)
    requires |originals| == |env.cmds| == |s.templates|
    requires forall i :: 0 <= i < |originals| ==> SameTemplate(originals[i], s.templates[i])
    ensures Intact(env, originals, SectionRun(env, s, preOut, mainOut))
    ensures AllResolved(env, originals, s, SectionRun(env, s, preOut, mainOut))
  {
    hide StartSection, RunOps, Schedule, Fits, SameTemplate, PlainInput, ResolvesOriginal;
    var a := StartSection(env, s, preOut);
    StartFacts(env, s, preOut);
    ScheduleFits(env, mainOut);
    RunResolved(env, originals, a, Schedule(env, mainOut));
    var r := SectionRun(env, s, preOut, mainOut);
    assert New(s, r) == New(a, r);
  }

  /******* Sockets do not disturb each other *******/

  /** Every recorded value lies below the socket's own "cpu%d" level, token number i. */
  ghost predicate AtHome(env: Env, i: nat, s: Run, r: Run) {
    && s.trace <= r.trace
    && forall k :: 0 <= k < |New(s, r)| && !New(s, r)[k].Step? ==>
         i < |New(s, r)[k].path| && New(s, r)[k].path[i] == "cpu" + Dec(env.ctx0.cpu)
  }

  predicate OpAtHome(env: Env, op: Op) {
    op.RunCommand? ==> op.ctx.cpu == env.ctx0.cpu
  }

  lemma HomeTrans(env: Env, i: nat, s: Run, m: Run, r: Run)
    requires AtHome(env, i, s, m) && AtHome(env, i, m, r)
    ensures AtHome(env, i, s, r)
  {
    hide Dec;
    NewSplits(s, m, r);
  }

  lemma {:induction false} HomeRepeats(env: Env, i: nat, s: Run, c: nat, ctx: Context, n: nat)
    requires c < |env.cmds| == |s.templates| && ctx.cpu == env.ctx0.cpu
    requires i < |env.place.tokens| && env.place.tokens[i] == "cpu%d"
    ensures AtHome(env, i, s, Repeats(env, s, c, ctx, n))
  {
    hide Repeat, Dec, NamedLog, Replay, Reached, RegisterName;
    if n > 0 {
      var m := Repeats(env, s, c, ctx, n - 1);
      HomeRepeats(env, i, s, c, ctx, n - 1);
      var r := Repeat(env, m, c, ctx, n);
      var st, log := RepeatAdds(env, m, c, ctx, n);
      assert New(m, r) == [st] + log;
      assert Keys(env.place.tokens, ctx)[i] == "cpu" + Dec(env.ctx0.cpu);
      assert AtHome(env, i, m, r);
      HomeTrans(env, i, s, m, r);
    }
  }

  lemma {:induction false} HomeRun(env: Env, i: nat, s: Run, ops: seq<Op>)
    requires Fits(env, ops) && |env.cmds| == |s.templates|
    requires forall k :: 0 <= k < |ops| ==> OpAtHome(env, ops[k])
    requires i < |env.place.tokens| && env.place.tokens[i] == "cpu%d"
    ensures AtHome(env, i, s, RunOps(env, s, ops))
  {
    hide Process, Dec;
    if ops != [] {
      var m, op := RunOps(env, s, ops[..|ops| - 1]), ops[|ops| - 1];
      HomeRun(env, i, s, ops[..|ops| - 1]);
      var r := Apply(env, m, op);
      if op.RunCommand? {
        var a, b := ProcessParts(env, m, op.cmd, op.ctx);
        HomeRepeats(env, i, a, op.cmd, op.ctx, RepeatCount(env.cmds[op.cmd]));
        assert New(m, r) == New(a, b);
      } else {
        assert New(m, r) == [];
      }
      HomeTrans(env, i, s, m, r);
    }
  }

  lemma {:induction false} BodyAtHome(env: Env, ctxs: seq<Context>)
    requires env.prereqs <= |env.cmds|
    requires forall k :: 0 <= k < |ctxs| ==> ctxs[k].cpu == env.ctx0.cpu
    ensures forall k :: 0 <= k < |BodyOps(env, ctxs)| ==> OpAtHome(env, BodyOps(env, ctxs)[k])
  {
    if ctxs != [] {
      BodyAtHome(env, ctxs[..|ctxs| - 1]);
    }
  }

  ghost predicate SameCpu(env: Env, visits: seq<seq<Context>>) {
    forall j, k :: 0 <= j < |visits| && 0 <= k < |visits[j]| ==> visits[j][k].cpu == env.ctx0.cpu
  }

  lemma {:induction false} VisitsAtHome(env: Env, visits: seq<seq<Context>>)
    requires env.prereqs <= |env.cmds| && SameCpu(env, visits)
    ensures forall k :: 0 <= k < |VisitOps(env, visits)| ==> OpAtHome(env, VisitOps(env, visits)[k])
  {
    hide BodyOps;
    if visits != [] {
      VisitsAtHome(env, visits[..|visits| - 1]);
      BodyAtHome(env, visits[|visits| - 1]);
    }
  }

  lemma {:induction false} CoresSameCpu(env: Env, n: nat)
    requires n <= 64
    ensures SameCpu(env, CoreVisits(env, n))
  {
    hide IsVisited;
    if n > 0 {
      CoresSameCpu(env, n - 1);
    }
  }

  /** A section run for one socket leaves everything below another socket's "cpu%d" level as it
      was. The version entry must lie below that level too, if the section has one. */
  lemma SocketsAreIsolated(env: Env, s: Run, preOut: Out, mainOut: Out, i: nat, q: Path)
    requires env.prereqs <= |env.cmds| == |s.templates| && Monotone(env.clock)
    requires i < |env.place.tokens| && env.place.tokens[i] == "cpu%d"
    requires env.version == 0 || i < env.place.RootLevel()
    requires i < |q| && q[i] != "cpu" + Dec(env.ctx0.cpu)
    ensures Resolve(SectionRun(env, s, preOut, mainOut).root, q) == Resolve(s.root, q)
  {
    hide Dec, RunOps, StartSection, Visits, Once, PrintHex, Fits, HasNamedHit, Owed, Leaves, ReportsAll, Notes;
    var a := StartSection(env, s, preOut);
    var r := SectionRun(env, s, preOut, mainOut);
    StartFacts(env, s, preOut);
    ScheduleFits(env, mainOut);
    VisitsSameCpu(env);
    VisitsAtHome(env, Visits(env));
    HomeRun(env, i, a, Schedule(env, mainOut));
    SectionIsComplete(env, s, preOut, mainOut);
    assert New(s, r) == New(a, r);
    ReplayFrame(a.root, New(s, r), q);
    if env.version != 0 {
      assert Keys(env.place.tokens, env.ctx0)[i] == "cpu" + Dec(env.ctx0.cpu);
      OnceFrame(s.root, RootPath(env.place, env.ctx0), "_version", PrintHex(env.version), q);
    }
  }

  lemma VisitsSameCpu(env: Env)
    ensures SameCpu(env, Visits(env))
  {
    CoresSameCpu(env, 64);
  }

  lemma OnceFrame(t: Item, p: Path, key: string, text: string, q: Path)
    requires Diverge(p, q)
    ensures Resolve(Once(t, p, key, text), q) == Resolve(t, q)
  {
    ResolveEnsurePath(t, p, q);
    ResolveEnsurePath(t, p, p);
    ResolveAddAt(EnsurePath(t, p), p, key, Leaf(text), q);
  }
}
