/** What holds of every run of the section engine, for every sequence of bus answers and every
    clock that never runs backwards. Each theorem is a relation between the states before and
    after a stretch of the run; relations of consecutive stretches compose. */
module FlowTheorems {
  import opened Numerals
  import opened Json
  import opened Logger
  import opened CmdInOut
  import opened InputParser
  import opened Clock
  import opened Flow
  import opened FlowTraces

  /** The events recorded between two states. */
  function New(s: Run, r: Run): seq<Event>
    requires s.trace <= r.trace
  {
    r.trace[|s.trace|..]
  }

  lemma NewSplits(s: Run, m: Run, r: Run)
    requires s.trace <= m.trace <= r.trace
    ensures s.trace <= r.trace && New(s, r) == New(s, m) + New(m, r)
  {
  }

  /******* Deadlines *******/

  datatype Limit = Limit(global: bool, maxTime: Uint32, start: Timespec)

  function LimitOf(env: Env, global: bool): Limit {
    if global then Limit(true, env.maxGlobalTime, env.globalStart)
    else Limit(false, env.maxSectionTime, env.sectionStart)
  }

  predicate Past(clock: nat -> Timespec, l: Limit, t: nat) {
    Reached(l.maxTime, l.start, clock(t))
  }

  predicate IsExecuted(e: Event) {
    e.Step? && e.outcome != Skipped
  }

  /** After an event that saw the limit reached, nothing is executed. */
  ghost predicate StopsAfterHit(trace: seq<Event>, global: bool) {
    forall j, k :: 0 <= j < k < |trace| && IsHit(trace[j], global) ==> !IsExecuted(trace[k])
  }

  /** The stretch from s to r obeys a limit: nothing runs after a hit, a hit means that the
      limit is past from then on, and once the limit is past nothing runs at all. */
  ghost predicate Obeys(clock: nat -> Timespec, l: Limit, s: Run, r: Run) {
    && s.trace <= r.trace && s.tick <= r.tick
    && StopsAfterHit(New(s, r), l.global)
    && (forall k :: 0 <= k < |New(s, r)| && IsHit(New(s, r)[k], l.global) ==> Past(clock, l, r.tick))
    && (Past(clock, l, s.tick) ==> forall k :: 0 <= k < |New(s, r)| ==> !IsExecuted(New(s, r)[k]))
  }

  lemma PastStays(clock: nat -> Timespec, l: Limit, t: nat, u: nat)
    requires Monotone(clock) && t <= u && Past(clock, l, t)
    ensures Past(clock, l, u)
  {
    assert clock(t).Nanos() <= clock(u).Nanos();
  }

  lemma ObeysTrans(clock: nat -> Timespec, l: Limit, s: Run, m: Run, r: Run)
    requires Monotone(clock) && Obeys(clock, l, s, m) && Obeys(clock, l, m, r)
    ensures Obeys(clock, l, s, r)
  {
    hide Past, IsHit, IsExecuted, Monotone;
    NewSplits(s, m, r);
    var a, b, c := New(s, m), New(m, r), New(s, r);
    assert forall k :: 0 <= k < |a| ==> c[k] == a[k];
    assert forall k :: 0 <= k < |b| ==> c[|a| + k] == b[k];
    assert forall k :: |a| <= k < |c| ==> c[k] == b[k - |a|];
    if Past(clock, l, s.tick) {
      PastStays(clock, l, s.tick, m.tick);
    }
    if Past(clock, l, m.tick) {
      PastStays(clock, l, m.tick, r.tick);
    }
  }

  lemma ObeysNothing(clock: nat -> Timespec, l: Limit, s: Run, r: Run)
    requires s.trace == r.trace && s.tick <= r.tick
    ensures Obeys(clock, l, s, r)
  {
  }

  lemma ObeysRepeat(env: Env, s: Run, i: nat, ctx: Context, n: nat, global: bool)
    requires i < |env.cmds| == |s.templates| && Monotone(env.clock)
    ensures Obeys(env.clock, LimitOf(env, global), s, Repeat(env, s, i, ctx, n))
  {
    hide Repeat, NamedLog, StoresOnly, Replay, Monotone, Reached, RegisterAt;
    var r := Repeat(env, s, i, ctx, n);
    var st, log := RepeatAdds(env, s, i, ctx, n);
    var l := LimitOf(env, global);
    assert New(s, r) == [st] + log;
    if IsHit(st, global) {
      PastStays(env.clock, l, if global then s.tick + 1 else s.tick, r.tick);
    }
    if Past(env.clock, l, s.tick) {
      PastStays(env.clock, l, s.tick, s.tick + 1);
    }
  }

  /******* Bookkeeping that every stretch keeps *******/

  /** Both limits are obeyed, variables are only appended (so first stores stay in force), and
      the tree is the old tree with the recorded values logged in order. */
  ghost predicate Progress(env: Env, s: Run, r: Run) {
    && Obeys(env.clock, LimitOf(env, true), s, r)
    && Obeys(env.clock, LimitOf(env, false), s, r)
    && s.vars <= r.vars
    && r.root == Replay(s.root, New(s, r))
  }

  lemma ProgressTrans(env: Env, s: Run, m: Run, r: Run)
    requires Monotone(env.clock) && Progress(env, s, m) && Progress(env, m, r)
    ensures Progress(env, s, r)
  {
    hide Obeys, Replay, Monotone;
    ObeysTrans(env.clock, LimitOf(env, true), s, m, r);
    ObeysTrans(env.clock, LimitOf(env, false), s, m, r);
    assert s.trace <= m.trace <= r.trace by { ObeysTraces(env, s, m); ObeysTraces(env, m, r); }
    NewSplits(s, m, r);
    ReplayConcat(s.root, New(s, m), New(m, r));
  }

  lemma ObeysTraces(env: Env, s: Run, r: Run)
    requires Obeys(env.clock, LimitOf(env, true), s, r)
    ensures s.trace <= r.trace && s.tick <= r.tick
  {
  }

  lemma ProgressNothing(env: Env, s: Run, r: Run)
    requires s.trace == r.trace && s.tick == r.tick && s.vars == r.vars && s.root == r.root
    ensures Progress(env, s, r)
  {
    ObeysNothing(env.clock, LimitOf(env, true), s, r);
    ObeysNothing(env.clock, LimitOf(env, false), s, r);
    assert New(s, r) == [];
  }

  lemma ProgressRepeat(env: Env, s: Run, i: nat, ctx: Context, n: nat)
    requires i < |env.cmds| == |s.templates| && Monotone(env.clock)
    ensures Progress(env, s, Repeat(env, s, i, ctx, n))
  {
    hide Repeat, Obeys, NamedLog, LoggedAt, Monotone, Reached;
    var r := Repeat(env, s, i, ctx, n);
    var st, log := RepeatAdds(env, s, i, ctx, n);
    ObeysRepeat(env, s, i, ctx, n, true);
    ObeysRepeat(env, s, i, ctx, n, false);
    assert New(s, r) == [st] + log;
    ReplayConcat(s.root, [st], log);
    assert [st][..0] == [];
  }

  lemma {:induction false} ProgressRepeats(env: Env, s: Run, i: nat, ctx: Context, n: nat)
    requires i < |env.cmds| == |s.templates| && Monotone(env.clock)
    ensures Progress(env, s, Repeats(env, s, i, ctx, n))
  {
    hide Repeat, Progress, Monotone;
    if n == 0 {
      ProgressNothing(env, s, s);
    } else {
      var m := Repeats(env, s, i, ctx, n - 1);
      ProgressRepeats(env, s, i, ctx, n - 1);
      ProgressRepeat(env, m, i, ctx, n);
      ProgressTrans(env, s, m, Repeat(env, m, i, ctx, n));
    }
  }

  /** Beginning or ending a command touches neither trace, clock, variables nor tree. */
  ghost predicate Quiet(s: Run, r: Run) {
    s.trace == r.trace && s.tick == r.tick && s.vars == r.vars && s.root == r.root && s.skip == r.skip
    && s.globalReached == r.globalReached && s.sectionReached == r.sectionReached
    && s.globalMaxPrint == r.globalMaxPrint && s.sectionMaxPrint == r.sectionMaxPrint
  }

  lemma ProcessParts(env: Env, s: Run, i: nat, ctx: Context) returns (a: Run, b: Run)
    requires i < |env.cmds| == |s.templates|
    ensures a == Begin(env, s, i, ctx) && Quiet(s, a) && !a.out.printString
    ensures |a.templates| == |s.templates|
    ensures b == Repeats(env, a, i, ctx, RepeatCount(env.cmds[i]))
    ensures Quiet(b, Process(env, s, i, ctx))
  {
    hide Repeats, ResolveAll, StringOperand, Restore, TrackAll;
    a := Begin(env, s, i, ctx);
    b := Repeats(env, a, i, ctx, RepeatCount(env.cmds[i]));
  }

  lemma ProgressApply(env: Env, s: Run, op: Op)
    requires OpFits(env, op) && |env.cmds| == |s.templates| && Monotone(env.clock)
    ensures Progress(env, s, Apply(env, s, op))
  {
    hide Progress, Monotone, Process;
    var r := Apply(env, s, op);
    if op.RunCommand? {
      var a, b := ProcessParts(env, s, op.cmd, op.ctx);
      ProgressNothing(env, s, a);
      ProgressRepeats(env, a, op.cmd, op.ctx, RepeatCount(env.cmds[op.cmd]));
      ProgressNothing(env, b, r);
      ProgressTrans(env, s, a, b);
      ProgressTrans(env, s, b, r);
    } else {
      ProgressNothing(env, s, r);
    }
  }

  lemma {:induction false} ProgressRun(env: Env, s: Run, ops: seq<Op>)
    requires Fits(env, ops) && |env.cmds| == |s.templates| && Monotone(env.clock)
    ensures Progress(env, s, RunOps(env, s, ops))
  {
    hide Progress, Monotone, Apply;
    if ops == [] {
      ProgressNothing(env, s, s);
    } else {
      var m := RunOps(env, s, ops[..|ops| - 1]);
      ProgressRun(env, s, ops[..|ops| - 1]);
      ProgressApply(env, m, ops[|ops| - 1]);
      ProgressTrans(env, s, m, RunOps(env, s, ops));
    }
  }

  /******* Skip phases *******/

  /** An event after which the phase executes nothing more. */
  predicate Blocks(env: Env, e: Event) {
    e.Step? && (e.outcome == Skipped || (e.outcome == Failed && env.skipOnFail))
  }

  /** The stretch from s to r lies within one phase: the skip flag is set exactly when it was
      set before or something blocked, and nothing is executed once it is set. */
  ghost predicate OnePhase(env: Env, s: Run, r: Run) {
    && s.trace <= r.trace
    && (r.skip <==> s.skip || exists k :: 0 <= k < |New(s, r)| && Blocks(env, New(s, r)[k]))
    && (forall j, k :: 0 <= j < k < |New(s, r)| && Blocks(env, New(s, r)[j]) ==> !IsExecuted(New(s, r)[k]))
    && (s.skip ==> forall k :: 0 <= k < |New(s, r)| ==> !IsExecuted(New(s, r)[k]))
  }

  lemma PhaseTrans(env: Env, s: Run, m: Run, r: Run)
    requires OnePhase(env, s, m) && OnePhase(env, m, r)
    ensures OnePhase(env, s, r)
  {
    hide Blocks, IsExecuted;
    NewSplits(s, m, r);
    var a, b, c := New(s, m), New(m, r), New(s, r);
    assert forall k :: 0 <= k < |a| ==> c[k] == a[k];
    assert forall k :: 0 <= k < |b| ==> c[|a| + k] == b[k];
    assert forall k :: |a| <= k < |c| ==> c[k] == b[k - |a|];
  }

  lemma PhaseNothing(env: Env, s: Run, r: Run)
    requires s.trace == r.trace && s.skip == r.skip
    ensures OnePhase(env, s, r)
  {
  }

  lemma PhaseRepeat(env: Env, s: Run, i: nat, ctx: Context, n: nat)
    requires i < |env.cmds| == |s.templates|
    ensures OnePhase(env, s, Repeat(env, s, i, ctx, n))
  {
    hide Repeat, NamedLog, StoresOnly, Replay, Reached, RegisterAt;
    var r := Repeat(env, s, i, ctx, n);
    var st, log := RepeatAdds(env, s, i, ctx, n);
    assert New(s, r) == [st] + log;
    if Blocks(env, st) {
      assert Blocks(env, New(s, r)[0]);
    }
  }

  lemma {:induction false} PhaseRepeats(env: Env, s: Run, i: nat, ctx: Context, n: nat)
    requires i < |env.cmds| == |s.templates|
    ensures OnePhase(env, s, Repeats(env, s, i, ctx, n))
  {
    hide Repeat, OnePhase;
    if n == 0 {
      PhaseNothing(env, s, s);
    } else {
      var m := Repeats(env, s, i, ctx, n - 1);
      PhaseRepeats(env, s, i, ctx, n - 1);
      PhaseRepeat(env, m, i, ctx, n);
      PhaseTrans(env, s, m, Repeat(env, m, i, ctx, n));
    }
  }

  lemma PhaseApply(env: Env, s: Run, op: Op)
    requires OpFits(env, op) && |env.cmds| == |s.templates| && !op.ClearSkip?
    ensures OnePhase(env, s, Apply(env, s, op))
  {
    hide OnePhase, Process;
    var r := Apply(env, s, op);
    if op.RunCommand? {
      var a, b := ProcessParts(env, s, op.cmd, op.ctx);
      PhaseNothing(env, s, a);
      PhaseRepeats(env, a, op.cmd, op.ctx, RepeatCount(env.cmds[op.cmd]));
      PhaseNothing(env, b, r);
      PhaseTrans(env, s, a, b);
      PhaseTrans(env, s, b, r);
    } else {
      PhaseNothing(env, s, r);
    }
  }

  /** A stretch of the schedule without a clearing of the flag. */
  predicate WithinPhase(ops: seq<Op>) {
    forall k :: 0 <= k < |ops| ==> !ops[k].ClearSkip?
  }

  lemma {:induction false} PhaseRun(env: Env, s: Run, ops: seq<Op>)
    requires Fits(env, ops) && |env.cmds| == |s.templates| && WithinPhase(ops)
    ensures OnePhase(env, s, RunOps(env, s, ops))
  {
    hide OnePhase, Apply;
    if ops == [] {
      PhaseNothing(env, s, s);
    } else {
      var m := RunOps(env, s, ops[..|ops| - 1]);
      PhaseRun(env, s, ops[..|ops| - 1]);
      PhaseApply(env, m, ops[|ops| - 1]);
      PhaseTrans(env, s, m, RunOps(env, s, ops));
    }
  }

  /** The outcomes of the steps of a trace, in order. */
  function Outcomes(trace: seq<Event>): seq<Outcome> {
    if trace == [] then []
    else
      var e := trace[|trace| - 1];
      Outcomes(trace[..|trace| - 1]) + (if e.Step? then [e.outcome] else [])
  }

  predicate AllSkipped(o: seq<Outcome>) {
    forall k :: 0 <= k < |o| ==> o[k] == Skipped
  }

  /** A run of successes, then possibly one failure, then only skipped commands. */
  predicate SuccessesThenSkips(o: seq<Outcome>) {
    if o == [] then true
    else if o[0] == Succeeded then SuccessesThenSkips(o[1..])
    else AllSkipped(o[1..])
  }

  /** Executed commands, then only skipped ones. */
  predicate RunsThenSkips(o: seq<Outcome>) {
    if o == [] then true
    else if o[0] != Skipped then RunsThenSkips(o[1..])
    else AllSkipped(o[1..])
  }

  /** Whatever follows a skipped outcome, or a failure under SkipOnFail, is skipped. */
  ghost predicate SkipsAfterBlock(o: seq<Outcome>, skipOnFail: bool) {
    forall j, k :: 0 <= j < k < |o| && (o[j] == Skipped || (o[j] == Failed && skipOnFail)) ==> o[k] == Skipped
  }

  lemma {:induction false} ShapeOfSkips(o: seq<Outcome>, skipOnFail: bool)
    requires SkipsAfterBlock(o, skipOnFail)
    ensures RunsThenSkips(o)
    ensures skipOnFail ==> SuccessesThenSkips(o)
  {
    if o != [] {
      ShapeOfSkips(o[1..], skipOnFail);
    }
  }

  /** Every outcome belongs to some step of the trace. */
  lemma {:induction false} StepOfOutcome(trace: seq<Event>, j: nat) returns (k: nat)
    requires j < |Outcomes(trace)|
    ensures k < |trace| && trace[k].Step? && trace[k].outcome == Outcomes(trace)[j]
  {
    var init := trace[..|trace| - 1];
    if j < |Outcomes(init)| {
      k := StepOfOutcome(init, j);
    } else {
      k := |trace| - 1;
    }
  }

  lemma {:induction false} OutcomesOrdered(env: Env, trace: seq<Event>)
    requires forall j, k :: 0 <= j < k < |trace| && Blocks(env, trace[j]) ==> !IsExecuted(trace[k])
    ensures SkipsAfterBlock(Outcomes(trace), env.skipOnFail)
  {
    if trace != [] {
      var init := trace[..|trace| - 1];
      OutcomesOrdered(env, init);
      forall j | 0 <= j < |Outcomes(init)| &&
                 (Outcomes(init)[j] == Skipped || (Outcomes(init)[j] == Failed && env.skipOnFail))
        ensures !IsExecuted(trace[|trace| - 1])
      {
        var k := StepOfOutcome(init, j);
        assert Blocks(env, trace[k]);
      }
    }
  }

  /** Within one phase - a CHA, a core with all its threads, the whole body of an unlooped
      section, or the prerequisites together with the first of these - commands run until one
      is skipped and from then on all are; with SkipOnFail every executed command but the last
      has succeeded. */
  lemma PhaseShape(env: Env, s: Run, ops: seq<Op>)
    requires Fits(env, ops) && |env.cmds| == |s.templates| && WithinPhase(ops)
    ensures var r := RunOps(env, s, ops);
            && s.trace <= r.trace
            && RunsThenSkips(Outcomes(New(s, r)))
            && (env.skipOnFail ==> SuccessesThenSkips(Outcomes(New(s, r))))
  {
    hide RunOps, Fits, Blocks, IsExecuted, SkipsAfterBlock, Outcomes;
    var r := RunOps(env, s, ops);
    PhaseRun(env, s, ops);
    OutcomesOrdered(env, New(s, r));
    ShapeOfSkips(Outcomes(New(s, r)), env.skipOnFail);
  }

  /******* Templates *******/

  /** The input file names no variable like a hex literal. */
  predicate PlainInput(env: Env) {
    forall i :: 0 <= i < |env.cmds| && env.cmds[i].internalVar.Some? ==> !IsHexLiteral(env.cmds[i].internalVar.value)
  }

  /** The shared parameter lists are the original ones up to evaluated hex literals, and no
      variable is named like a literal. */
  ghost predicate Intact(env: Env, originals: seq<seq<Param>>, s: Run) {
    && |originals| == |env.cmds| == |s.templates|
    && PlainNames(s.vars)
    && forall i :: 0 <= i < |originals| ==> SameTemplate(originals[i], s.templates[i])
  }

  /** A step carries exactly the parameters its original list resolves to, for the socket, the
      loop indices and the variables of that moment. */
  ghost predicate ResolvesOriginal(env: Env, originals: seq<seq<Param>>, e: Event) {
    e.Step? ==> e.cmd < |originals| && e.params == ResolveAll(originals[e.cmd], env.SiteOf(e.ctx), e.vars)
  }

  ghost predicate AllResolved(env: Env, originals: seq<seq<Param>>, s: Run, r: Run) {
    && s.trace <= r.trace
    && forall k :: 0 <= k < |New(s, r)| ==> ResolvesOriginal(env, originals, New(s, r)[k])
  }

  lemma ResolvedTrans(env: Env, originals: seq<seq<Param>>, s: Run, m: Run, r: Run)
    requires AllResolved(env, originals, s, m) && AllResolved(env, originals, m, r)
    ensures AllResolved(env, originals, s, r)
  {
    hide ResolvesOriginal;
    NewSplits(s, m, r);
  }

  lemma PlainStores(vars: Vars, vars': Vars, name: Option<string>)
    requires PlainNames(vars) && StoresOnly(vars, vars', name) && (name.Some? ==> !IsHexLiteral(name.value))
    ensures PlainNames(vars')
  {
    hide IsHexLiteral;
  }

  lemma {:induction false} RepeatsResolved(env: Env, originals: seq<seq<Param>>, s: Run, i: nat, ctx: Context, n: nat)
    requires i < |env.cmds| == |s.templates| == |originals| && PlainInput(env) && PlainNames(s.vars)
    requires s.templates[i] == ResolveAll(originals[i], env.SiteOf(ctx), s.begun)
    ensures AllResolved(env, originals, s, Repeats(env, s, i, ctx, n))
    ensures PlainNames(Repeats(env, s, i, ctx, n).vars)
  {
    hide Repeat, NamedLog, Replay, Reached, RegisterAt, PlainNames, IsHexLiteral, StoresOnly, ResolveAll;
    if n > 0 {
      var m := Repeats(env, s, i, ctx, n - 1);
      RepeatsResolved(env, originals, s, i, ctx, n - 1);
      var r := Repeat(env, m, i, ctx, n);
      var st, log := RepeatAdds(env, m, i, ctx, n);
      assert New(m, r) == [st] + log;
      assert AllResolved(env, originals, m, r);
      ResolvedTrans(env, originals, s, m, r);
      PlainStores(m.vars, r.vars, env.cmds[i].internalVar);
    }
  }

  lemma ProcessResolved(env: Env, originals: seq<seq<Param>>, s: Run, i: nat, ctx: Context)
    requires i < |env.cmds| && Intact(env, originals, s) && PlainInput(env)
    ensures Intact(env, originals, Process(env, s, i, ctx))
    ensures AllResolved(env, originals, s, Process(env, s, i, ctx))
  {
    hide Repeats, ResolveAll, Restore, TrackAll, SameTemplate, PlainNames, StringOperand, ResolvesOriginal;
    var site := env.SiteOf(ctx);
    var a := Begin(env, s, i, ctx);
    var b := Repeats(env, a, i, ctx, RepeatCount(env.cmds[i]));
    VisitRefines(originals[i], s.templates[i], site, s.vars);
    RepeatsResolved(env, originals, a, i, ctx, RepeatCount(env.cmds[i]));
    var r := Process(env, s, i, ctx);
    assert r.trace == b.trace && r.vars == b.vars && a.trace == s.trace;
    assert New(s, r) == New(a, b);
    assert AllResolved(env, originals, s, r);
    assert r.templates[i] == AfterVisit(s.templates[i], Visit(site, s.vars));
    assert forall k :: 0 <= k < |originals| && k != i ==> r.templates[k] == s.templates[k];
  }

  /** In-place rewriting refines the pure resolver, for every schedule: each executed command
      runs with its original parameters resolved afresh, and the shared input stays intact. */
  lemma {:induction false} RunResolved(env: Env, originals: seq<seq<Param>>, s: Run, ops: seq<Op>)
    requires Fits(env, ops) && Intact(env, originals, s) && PlainInput(env)
    ensures Intact(env, originals, RunOps(env, s, ops))
    ensures AllResolved(env, originals, s, RunOps(env, s, ops))
  {
    hide Process, ResolvesOriginal, PlainInput;
    if ops != [] {
      var m, op := RunOps(env, s, ops[..|ops| - 1]), ops[|ops| - 1];
      RunResolved(env, originals, s, ops[..|ops| - 1]);
      var r := Apply(env, m, op);
      if op.RunCommand? {
        ProcessResolved(env, originals, m, op.cmd, op.ctx);
      } else {
        assert New(m, r) == [];
      }
      ResolvedTrans(env, originals, s, m, r);
    }
  }
}
