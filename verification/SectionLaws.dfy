/** What a section run is made of: its schedule position by position, the contexts it visits, and
    what the placeholders of its commands stand for in each of them. */
module SectionLaws {
  import opened Numerals
  import opened Json
  import opened Logger
  import opened CmdInOut
  import opened InputParser
  import Commands
  import opened Clock
  import opened Flow
  import opened FlowTraces
  import opened FlowTheorems
  import opened FlowEntries
  import opened RunLaws
  import opened CommandLaws
  import opened SectionTheorems

  /******* The contexts *******/

  /** The core is asked for: its bit is set, and it is not left out as crashed. */
  predicate Wanted(env: Env, core: nat) {
    Bit(env.coreMask, core) && (env.skipCrashedCores ==> !env.crashed(core))
  }

  /** How many contexts a visit has: both threads of a core, or one. */
  function ContextsPerVisit(env: Env): nat {
    if "LoopOnCHA" !in env.keys && "LoopOnCore" in env.keys && "LoopOnThread" in env.keys then 2 else 1
  }

  /** A visit of a core: the core index in every context, the thread index counting up. */
  predicate IsCoreVisit(env: Env, v: seq<Context>, core: nat) {
    && |v| == ContextsPerVisit(env) && core < 64
    && forall t :: 0 <= t < |v| ==> v[t] == Context(env.ctx0.cpu, core, t, env.ctx0.cha)
  }

  /** The visits of the first n cores are those of the wanted ones, in ascending order. */
  lemma {:induction false} CoreVisitsAre(env: Env, n: nat) returns (cores: seq<nat>)
    requires n <= 64 && "LoopOnCHA" !in env.keys && "LoopOnCore" in env.keys
    ensures |CoreVisits(env, n)| == |cores|
    ensures forall k :: 0 <= k < |cores| ==>
              cores[k] < n && Wanted(env, cores[k]) && IsCoreVisit(env, CoreVisits(env, n)[k], cores[k])
    ensures forall j, k :: 0 <= j < k < |cores| ==> cores[j] < cores[k]
    ensures forall c :: 0 <= c < n && Wanted(env, c) ==> c in cores
  {
    hide Bit;
    if n == 0 {
      cores := [];
    } else {
      cores := CoreVisitsAre(env, n - 1);
      if Wanted(env, n - 1) {
        cores := cores + [n - 1];
      }
    }
  }

  /** With LoopOnCHA one visit per CHA, in order; else with LoopOnCore one per wanted core, in
      ascending order; else the section as a whole. */
  lemma VisitsAre(env: Env) returns (cores: seq<nat>)
    ensures forall k :: 0 <= k < |Visits(env)| ==> |Visits(env)[k]| == ContextsPerVisit(env)
    ensures "LoopOnCHA" in env.keys ==>
              |Visits(env)| == env.chaCount &&
              forall k :: 0 <= k < env.chaCount ==>
                Visits(env)[k] == [Context(env.ctx0.cpu, env.ctx0.core, env.ctx0.thread, k)]
    ensures "LoopOnCHA" !in env.keys && "LoopOnCore" in env.keys ==>
              && |Visits(env)| == |cores|
              && (forall k :: 0 <= k < |cores| ==>
                    Wanted(env, cores[k]) && IsCoreVisit(env, Visits(env)[k], cores[k]))
              && (forall j, k :: 0 <= j < k < |cores| ==> cores[j] < cores[k])
              && (forall c :: 0 <= c < 64 && Wanted(env, c) ==> c in cores)
    ensures "LoopOnCHA" !in env.keys && "LoopOnCore" !in env.keys ==> Visits(env) == [[env.ctx0]]
  {
    hide CoreVisits, Wanted;
    cores := [];
    if "LoopOnCHA" !in env.keys && "LoopOnCore" in env.keys {
      cores := CoreVisitsAre(env, 64);
    }
  }

  /******* The schedule *******/

  /** The commands of the loop body. */
  function Body(env: Env): nat
    requires env.prereqs <= |env.cmds|
  {
    |env.cmds| - env.prereqs
  }

  lemma {:induction false} BodyAt(env: Env, ctxs: seq<Context>, t: nat, j: nat)
    requires env.prereqs <= |env.cmds| && t < |ctxs| && j < Body(env)
    ensures |BodyOps(env, ctxs)| == |ctxs| * Body(env)
    ensures t * Body(env) + j < |ctxs| * Body(env)
    ensures BodyOps(env, ctxs)[t * Body(env) + j] == RunCommand(env.prereqs + j, ctxs[t])
  {
    var init := ctxs[..|ctxs| - 1];
    BodySize(env, ctxs);
    BodySize(env, init);
    Slot(t, |ctxs|, Body(env), j);
    if t < |init| {
      BodyAt(env, init, t, j);
    }
  }

  lemma {:induction false} BodySize(env: Env, ctxs: seq<Context>)
    requires env.prereqs <= |env.cmds|
    ensures |BodyOps(env, ctxs)| == |ctxs| * Body(env)
  {
    if ctxs != [] {
      BodySize(env, ctxs[..|ctxs| - 1]);
      OneMore(|ctxs| - 1, Body(env));
    }
  }

  lemma OneMore(n: nat, d: nat)
    ensures (n + 1) * d == n * d + d
  {
  }

  lemma Slot(t: nat, n: nat, d: nat, j: nat)
    requires t < n && j < d
    ensures t * d + j < n * d
  {
    Times(t + 1, n, d);
    OneMore(t, d);
  }

  /** The operations of one visit: its commands in each context, then the clearing of the flag. */
  function PerVisit(env: Env, contexts: nat): nat
    requires env.prereqs <= |env.cmds|
  {
    contexts * Body(env) + 1
  }

  lemma {:induction false} VisitSize(env: Env, visits: seq<seq<Context>>, contexts: nat)
    requires env.prereqs <= |env.cmds| && forall k :: 0 <= k < |visits| ==> |visits[k]| == contexts
    ensures |VisitOps(env, visits)| == |visits| * PerVisit(env, contexts)
  {
    if visits != [] {
      VisitSize(env, visits[..|visits| - 1], contexts);
      BodySize(env, visits[|visits| - 1]);
      OneMore(|visits| - 1, PerVisit(env, contexts));
    }
  }

  lemma {:induction false} VisitAt(env: Env, visits: seq<seq<Context>>, contexts: nat, k: nat, at: nat)
    requires env.prereqs <= |env.cmds| && forall k :: 0 <= k < |visits| ==> |visits[k]| == contexts
    requires k < |visits| && at < PerVisit(env, contexts)
    ensures |VisitOps(env, visits)| == |visits| * PerVisit(env, contexts)
    ensures k * PerVisit(env, contexts) + at < |visits| * PerVisit(env, contexts)
    ensures |BodyOps(env, visits[k])| == PerVisit(env, contexts) - 1
    ensures VisitOps(env, visits)[k * PerVisit(env, contexts) + at] ==
            if at == PerVisit(env, contexts) - 1 then ClearSkip else BodyOps(env, visits[k])[at]
  {
    hide BodyOps;
    var init, d := visits[..|visits| - 1], PerVisit(env, contexts);
    VisitSize(env, visits, contexts);
    VisitSize(env, init, contexts);
    BodySize(env, visits[k]);
    BodySize(env, visits[|visits| - 1]);
    Slot(k, |visits|, d, at);
    OneMore(|visits| - 1, d);
    if k < |init| {
      VisitAt(env, init, contexts, k, at);
    } else {
      hide PerVisit;
      assert k == |visits| - 1 && |VisitOps(env, init)| == k * d;
    }
  }

  /** Where command j of the loop body stands in the schedule, for context t of visit k. */
  function BodyPosition(env: Env, k: nat, t: nat, j: nat): nat
    requires env.prereqs <= |env.cmds|
  {
    env.prereqs + 1 + k * PerVisit(env, ContextsPerVisit(env)) + t * Body(env) + j
  }

  /** The whole schedule: the prerequisites once, in the section's own context; the change to the
      section's own record; then for every visit every body command in every context of the
      visit, and the clearing of the flag. */
  lemma ScheduleIs(env: Env, mainOut: Out)
    requires env.prereqs <= |env.cmds|
    ensures var ops := Schedule(env, mainOut);
            var d := PerVisit(env, ContextsPerVisit(env));
            && |ops| == env.prereqs + 1 + |Visits(env)| * d
            && (forall j :: 0 <= j < env.prereqs ==> ops[j] == RunCommand(j, env.ctx0))
            && ops[env.prereqs] == UseOutput(mainOut)
  {
    hide Visits, VisitOps;
    var _ := VisitsAre(env);
    VisitSize(env, Visits(env), ContextsPerVisit(env));
  }

  lemma ScheduleAt(env: Env, mainOut: Out, k: nat, t: nat, j: nat)
    requires env.prereqs <= |env.cmds| && k < |Visits(env)| && t < ContextsPerVisit(env) && j < Body(env)
    ensures |Visits(env)[k]| == ContextsPerVisit(env)
    ensures BodyPosition(env, k, t, j) < |Schedule(env, mainOut)|
    ensures Schedule(env, mainOut)[BodyPosition(env, k, t, j)] == RunCommand(env.prereqs + j, Visits(env)[k][t])
  {
    hide Visits, VisitOps, BodyOps;
    var n, d := ContextsPerVisit(env), PerVisit(env, ContextsPerVisit(env));
    var _ := VisitsAre(env);
    ScheduleIs(env, mainOut);
    BodyAt(env, Visits(env)[k], t, j);
    VisitAt(env, Visits(env), n, k, t * Body(env) + j);
  }

  /** Where the skip flag is cleared after visit k. */
  function ClearPosition(env: Env, k: nat): nat
    requires env.prereqs <= |env.cmds|
  {
    BodyPosition(env, k, ContextsPerVisit(env), 0)
  }

  lemma ClearsAt(env: Env, mainOut: Out, k: nat)
    requires env.prereqs <= |env.cmds| && k < |Visits(env)|
    ensures ClearPosition(env, k) < |Schedule(env, mainOut)|
    ensures Schedule(env, mainOut)[ClearPosition(env, k)] == ClearSkip
  {
    hide Visits, VisitOps, BodyOps;
    var d := PerVisit(env, ContextsPerVisit(env));
    var _ := VisitsAre(env);
    ScheduleIs(env, mainOut);
    VisitAt(env, Visits(env), ContextsPerVisit(env), k, d - 1);
  }

  /******* Placeholders in their places *******/

  /** The states before and after operation p of a section. */
  ghost function StateAt(env: Env, s: Run, preOut: Out, mainOut: Out, p: nat): (a: Run)
    requires env.prereqs <= |env.cmds| == |s.templates| && p <= |Schedule(env, mainOut)|
    ensures |a.templates| == |s.templates|
  {
    ScheduleFits(env, mainOut);
    RunOps(env, StartSection(env, s, preOut), Schedule(env, mainOut)[..p])
  }

  /** The parameter that a text of the original list has become: what it stands for, unless a
      variable was named like it. */
  predicate Replaced(env: Env, original: Param, st: Event, p: Param)
    requires st.Step?
  {
    if original.Text? then Lookup(st.vars, original.s).None? ==> StandsFor(original.s, Site(env.addr, st.ctx), p)
    else p == original
  }

  /** The steps of operation p: as many as the command has repeats, all in the operation's context,
      each executed (unless skipped) with the original parameters replaced for that context. */
  ghost predicate StepsReplace(env: Env, originals: seq<seq<Param>>, op: Op, a: Run, b: Run)
    requires op.RunCommand? && op.cmd < |env.cmds| == |originals|
  {
    && a.trace <= b.trace
    && |Steps(New(a, b))| == (if env.cmds[op.cmd].repeat > 0 then env.cmds[op.cmd].repeat else 0)
    && forall e :: e in Steps(New(a, b)) ==>
         && e.cmd == op.cmd && e.ctx == op.ctx && Executes(env, e)
         && (e.outcome != Skipped ==>
               DoesAsNamed(env.cmds[e.cmd].key, env.cmds[e.cmd].internalVar, e.params, e.before, e.after,
                           env.answers(e.ask)))
         && |e.params| == |originals[e.cmd]|
         && forall q :: 0 <= q < |e.params| ==> Replaced(env, originals[e.cmd][q], e, e.params[q])
  }

  lemma ResolvedIsReplaced(env: Env, originals: seq<seq<Param>>, e: Event, q: nat)
    requires e.Step? && ResolvesOriginal(env, originals, e) && q < |originals[e.cmd]|
    ensures |e.params| == |originals[e.cmd]| && Replaced(env, originals[e.cmd][q], e, e.params[q])
  {
    hide ResolveText, StandsFor, Lookup;
    var original := originals[e.cmd][q];
    if original.Text? {
      TextsStandFor(original.s, env.SiteOf(e.ctx), e.vars);
    }
  }

  lemma {:induction false} StepsAreEvents(trace: seq<Event>, e: Event)
    requires e in Steps(trace)
    ensures e in trace
  {
    if trace != [] && e in Steps(trace[..|trace| - 1]) {
      StepsAreEvents(trace[..|trace| - 1], e);
    }
  }

  /** Over a whole section, for every command it schedules. */
  lemma SectionReplaces(env: Env, originals: seq<seq<Param>>, s: Run, preOut: Out, mainOut: Out, p: nat)
    requires env.prereqs <= |env.cmds| && PlainInput(env)
    requires |originals| == |env.cmds| == |s.templates|
    requires forall i :: 0 <= i < |originals| ==> SameTemplate(originals[i], s.templates[i])
    requires p < |Schedule(env, mainOut)| && Schedule(env, mainOut)[p].RunCommand?
    ensures Schedule(env, mainOut)[p].cmd < |env.cmds|
    ensures StepsReplace(env, originals, Schedule(env, mainOut)[p], StateAt(env, s, preOut, mainOut, p),
                         StateAt(env, s, preOut, mainOut, p + 1))
  {
    hide StartSection, RunOps, Schedule, SameTemplate, PlainInput, ResolvesOriginal, Executes, DoesAsNamed, Replaced,
         Steps, Process;
    var ops, start := Schedule(env, mainOut), StartSection(env, s, preOut);
    StartFacts(env, s, preOut);
    ScheduleFits(env, mainOut);
    RunResolved(env, originals, start, ops[..p]);
    var a := RunOps(env, start, ops[..p]);
    var i, ctx := ops[p].cmd, ops[p].ctx;
    ProcessResolved(env, originals, a, i, ctx);
    ProcessLaw(env, a, i, ctx);
    var b := Process(env, a, i, ctx);
    assert RunOps(env, start, ops[..p + 1]) == b by { LastOperation(env, start, ops, p); }
    var st := Steps(New(a, b));
    forall e | e in st
      ensures e.cmd == i && e.ctx == ctx && Executes(env, e) && |e.params| == |originals[i]|
      ensures e.outcome != Skipped ==>
                DoesAsNamed(env.cmds[e.cmd].key, env.cmds[e.cmd].internalVar, e.params, e.before, e.after,
                            env.answers(e.ask))
      ensures forall q :: 0 <= q < |e.params| ==> Replaced(env, originals[i][q], e, e.params[q])
    {
      StepsAreEvents(New(a, b), e);
      StepOfCommand(env, i, ctx, a, b, e);
      if e.outcome != Skipped {
        StepsDoAsNamed(env, e);
      }
      StepReplaces(env, originals, e);
    }
  }

  lemma StepReplaces(env: Env, originals: seq<seq<Param>>, e: Event)
    requires e.Step? && ResolvesOriginal(env, originals, e)
    ensures e.cmd < |originals| && |e.params| == |originals[e.cmd]|
    ensures forall q :: 0 <= q < |e.params| ==> Replaced(env, originals[e.cmd][q], e, e.params[q])
  {
    hide Replaced, ResolveAll;
    assert |e.params| == |originals[e.cmd]|;
    forall q | 0 <= q < |e.params| ensures Replaced(env, originals[e.cmd][q], e, e.params[q]) {
      ResolvedIsReplaced(env, originals, e, q);
    }
  }

  lemma StepOfCommand(env: Env, i: nat, ctx: Context, a: Run, b: Run, e: Event)
    requires i < |env.cmds| == |a.templates| && CommandLaw(env, i, ctx, a, b) && e in Steps(New(a, b))
    ensures e.cmd == i && e.ctx == ctx && Executes(env, e)
    ensures |Steps(New(a, b))| == if env.cmds[i].repeat > 0 then env.cmds[i].repeat else 0
  {
    hide Steps, Executes, ResolveAll, Leads, Begins;
    var st := Steps(New(a, b));
    var k :| 0 <= k < |st| && st[k] == e;
    var params := ResolveAll(a.templates[i], env.SiteOf(ctx), a.vars);
    assert IsRepeat(env, i, ctx, params, a.vars, st[k], k + 1);
  }

  lemma LastOperation(env: Env, s: Run, ops: seq<Op>, p: nat)
    requires Fits(env, ops) && |env.cmds| == |s.templates| && p < |ops| && ops[p].RunCommand?
    ensures RunOps(env, s, ops[..p + 1]) == Process(env, RunOps(env, s, ops[..p]), ops[p].cmd, ops[p].ctx)
  {
    hide Process;
    assert ops[..p + 1][..p] == ops[..p];
  }

  /** The steps between two states belong to command i, and where its original list has the
      placeholder, and no variable is named like it, they have the value. */
  ghost predicate SeeValue(originals: seq<seq<Param>>, i: nat, a: Run, b: Run, placeholder: string, v: int)
    requires i < |originals|
  {
    && a.trace <= b.trace
    && forall e, q :: e in Steps(New(a, b)) && 0 <= q < |originals[i]| ==>
         && e.cmd == i && q < |e.params|
         && (originals[i][q] == Text(placeholder) && Lookup(e.vars, placeholder).None? ==>
               e.params[q] == Number(v as real))
  }

  lemma ReplacedIsSeen(env: Env, originals: seq<seq<Param>>, op: Op, a: Run, b: Run, placeholder: string, v: int)
    requires op.RunCommand? && op.cmd < |env.cmds| == |originals| && StepsReplace(env, originals, op, a, b)
    requires forall p :: StandsFor(placeholder, Site(env.addr, op.ctx), p) ==> p == Number(v as real)
    ensures SeeValue(originals, op.cmd, a, b, placeholder, v)
  {
    hide Steps, Executes, DoesAsNamed, Lookup, StandsFor;
    forall e, q | e in Steps(New(a, b)) && 0 <= q < |originals[op.cmd]|
      ensures e.cmd == op.cmd && q < |e.params|
      ensures originals[op.cmd][q] == Text(placeholder) && Lookup(e.vars, placeholder).None? ==>
                e.params[q] == Number(v as real)
    {
      assert Replaced(env, originals[e.cmd][q], e, e.params[q]);
    }
  }

  lemma PlaceholdersStandFor(env: Env, ctx: Context)
    ensures forall p :: StandsFor("Target", Site(env.addr, ctx), p) ==> p == Number(env.addr as real)
    ensures forall p :: StandsFor("CHA", Site(env.addr, ctx), p) ==> p == Number(ctx.cha as real)
    ensures forall p :: StandsFor("Core", Site(env.addr, ctx), p) ==> p == Number(ctx.core as real)
    ensures forall p :: StandsFor("(CORE*2)+THREAD", Site(env.addr, ctx), p) ==>
              p == Number((2 * ctx.core + ctx.thread) as real)
  {
  }

  /** In the CHA loop the steps of visit k have k where the original list has "CHA", and the
      address of the socket where it has "Target". */
  lemma ChaStepsSee(env: Env, originals: seq<seq<Param>>, s: Run, preOut: Out, mainOut: Out, k: nat, j: nat)
    requires env.prereqs <= |env.cmds| && PlainInput(env) && "LoopOnCHA" in env.keys
    requires |originals| == |env.cmds| == |s.templates|
    requires forall i :: 0 <= i < |originals| ==> SameTemplate(originals[i], s.templates[i])
    requires k < env.chaCount && j < |env.cmds| - env.prereqs
    ensures BodyPosition(env, k, 0, j) < |Schedule(env, mainOut)|
    ensures var p := BodyPosition(env, k, 0, j);
            var a, b := StateAt(env, s, preOut, mainOut, p), StateAt(env, s, preOut, mainOut, p + 1);
            && SeeValue(originals, env.prereqs + j, a, b, "CHA", k)
            && SeeValue(originals, env.prereqs + j, a, b, "Target", env.addr)
  {
    hide Schedule, Visits, SameTemplate, PlainInput, StateAt, BodyPosition, StepsReplace, SeeValue, StandsFor;
    var p := BodyPosition(env, k, 0, j);
    var _ := VisitsAre(env);
    ScheduleAt(env, mainOut, k, 0, j);
    SectionReplaces(env, originals, s, preOut, mainOut, p);
    var op := Schedule(env, mainOut)[p];
    PlaceholdersStandFor(env, op.ctx);
    var a, b := StateAt(env, s, preOut, mainOut, p), StateAt(env, s, preOut, mainOut, p + 1);
    ReplacedIsSeen(env, originals, op, a, b, "CHA", k);
    ReplacedIsSeen(env, originals, op, a, b, "Target", env.addr);
  }

  /** In the core loop the steps of a visit have its core index where the original list has "Core",
      and twice it plus the thread index where it has "(CORE*2)+THREAD". */
  lemma CoreStepsSee(env: Env, originals: seq<seq<Param>>, s: Run, preOut: Out, mainOut: Out, k: nat, t: nat, j: nat)
    requires env.prereqs <= |env.cmds| && PlainInput(env)
    requires "LoopOnCHA" !in env.keys && "LoopOnCore" in env.keys
    requires |originals| == |env.cmds| == |s.templates|
    requires forall i :: 0 <= i < |originals| ==> SameTemplate(originals[i], s.templates[i])
    requires k < |Visits(env)| && t < ContextsPerVisit(env) && j < |env.cmds| - env.prereqs
    ensures BodyPosition(env, k, t, j) < |Schedule(env, mainOut)|
    ensures Visits(env)[k] != [] && Wanted(env, Visits(env)[k][0].core)
    ensures var p, core := BodyPosition(env, k, t, j), Visits(env)[k][0].core;
            var a, b := StateAt(env, s, preOut, mainOut, p), StateAt(env, s, preOut, mainOut, p + 1);
            && SeeValue(originals, env.prereqs + j, a, b, "Core", core)
            && SeeValue(originals, env.prereqs + j, a, b, "(CORE*2)+THREAD", 2 * core + t)
  {
    hide Schedule, Visits, SameTemplate, PlainInput, StateAt, BodyPosition, StepsReplace, SeeValue, StandsFor, Wanted;
    var p := BodyPosition(env, k, t, j);
    ScheduleAt(env, mainOut, k, t, j);
    var cores := VisitsAre(env);
    assert IsCoreVisit(env, Visits(env)[k], cores[k]);
    SectionReplaces(env, originals, s, preOut, mainOut, p);
    var op, core := Schedule(env, mainOut)[p], Visits(env)[k][0].core;
    PlaceholdersStandFor(env, op.ctx);
    var a, b := StateAt(env, s, preOut, mainOut, p), StateAt(env, s, preOut, mainOut, p + 1);
    ReplacedIsSeen(env, originals, op, a, b, "Core", core);
    ReplacedIsSeen(env, originals, op, a, b, "(CORE*2)+THREAD", 2 * core + t);
  }
}
