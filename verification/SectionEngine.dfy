/** The section engine as the program runs it: objects updated in place, with the parameter
    lists of the shared input file rewritten and restored around every command. Each method is
    tied to the state machine of module Flow. */
module SectionEngine {
  import opened Numerals
  import opened Json
  import opened Logger
  import opened CmdInOut
  import opened InputParser
  import Commands
  import opened Clock
  import opened Flow

  ghost function Items(lists: seq<ParamList>): (r: seq<seq<Param>>)
    reads lists
    ensures |r| == |lists| && forall k :: 0 <= k < |lists| ==> r[k] == lists[k].items
  {
    seq(|lists|, k requires 0 <= k < |lists| reads lists => lists[k].items)
  }

  class Engine {
    const env: Env
    const lists: seq<ParamList>
    const tree: OutputTree
    var skipFlag: bool
    var maxGlobalRunTimeReached: bool
    var maxSectionRunTimeReached: bool
    var globalMaxPrint: bool
    var sectionMaxPrint: bool
    var tick: nat
    var asks: nat
    ghost var begun: Vars
    ghost var trace: seq<Event>

    ghost predicate Valid()
      reads this
    {
      && env.Valid()
      && env.firstTick <= tick
      && |lists| == |env.cmds|
      && forall j, k :: 0 <= j < k < |lists| ==> lists[j] != lists[k]
    }

    ghost function Abs(c: CmdInOut): Run
      reads this, c, tree, lists
    {
      Run(c.out, c.internalVars, Items(lists), begun, skipFlag, maxGlobalRunTimeReached,
          maxSectionRunTimeReached, globalMaxPrint, sectionMaxPrint, tick, asks, tree.root, trace)
    }

    constructor (env: Env, lists: seq<ParamList>, tree: OutputTree, tick: nat, asks: nat, ghost trace: seq<Event>)
      ensures this.env == env && this.lists == lists && this.tree == tree
      ensures this.tick == tick && this.asks == asks && this.trace == trace
    {
      this.env, this.lists, this.tree := env, lists, tree;
      this.tick, this.asks := tick, asks;
      skipFlag, maxGlobalRunTimeReached, maxSectionRunTimeReached := false, false, false;
      globalMaxPrint, sectionMaxPrint := true, true;
      this.begun, this.trace := [], trace;
    }

    /** Append one string under an item that already exists. */
    method AddValue(c: CmdInOut, e: Event)
      requires e.IsValue() && Resolve(tree.root, e.path).Some?
      modifies this`trace, tree
      ensures Abs(c) == Add(old(Abs(c)), e)
      ensures Resolve(tree.root, e.path).Some?
    {
      EnsureResolvable(tree.root, e.path);
      tree.AddString(e.path, e.key, e.text);
      trace := trace + [e];
    }

    /** The timeout notes of LogValue. */
    method LogTimeouts(c: CmdInOut, path: Path)
      requires Resolve(tree.root, path).Some?
      modifies this`trace, this`globalMaxPrint, this`sectionMaxPrint, tree
      ensures Abs(c) == NoteSection(env, NoteGlobal(env, old(Abs(c)), path), path)
      ensures Resolve(tree.root, path).Some?
    {
      hide Add, NoteKey, Seconds, Resolve;
      if maxGlobalRunTimeReached && globalMaxPrint {
        AddValue(c, GlobalNote(path, NoteKey(env, "global"), Seconds(env.maxGlobalTime)));
        globalMaxPrint := false;
      }
      assert Abs(c) == NoteGlobal(env, old(Abs(c)), path);
      if maxSectionRunTimeReached && sectionMaxPrint {
        AddValue(c, SectionNote(path, NoteKey(env, "section"), Seconds(env.maxSectionTime)));
        sectionMaxPrint := false;
      }
    }

    method LogValue(c: CmdInOut, o: Output, path: Path, key: string)
      requires Resolve(tree.root, path).Some?
      modifies this`trace, this`globalMaxPrint, this`sectionMaxPrint, tree, c`out
      ensures Abs(c) == Flow.LogValue(env, old(Abs(c)), o, path, key)
    {
      hide NoteGlobal, NoteSection, ValueText, Add, Mask, Resolve, Unacceptable;
      ghost var s := Abs(c);
      var outcome := if skipFlag then Skipped else if c.out.Failed() then Failed else Succeeded;
      if c.out.printString {
        AddValue(c, Entry(path, key, c.out.stringVal, outcome));
        c.out := c.out.(printString := false);
        return;
      }
      var size := o.size.GetOr(c.out.size);
      c.out := c.out.(val := Mask(c.out.val, size));
      assert Abs(c) == s.(out := s.out.(val := Mask(s.out.val, size)));
      if skipFlag {
        LogTimeouts(c, path);
        AddValue(c, Entry(path, key, LOGGER_NA, Skipped));
      } else {
        var text := ValueText(c.out, size, o.zeroPadded);
        AddValue(c, Entry(path, key, text, outcome));
      }
    }

    /** The section and the global deadline, each against its own clock reading. */
    method CheckDeadlines(c: CmdInOut)
      requires Valid()
      modifies this`tick, this`skipFlag, this`maxGlobalRunTimeReached, this`maxSectionRunTimeReached
      ensures Valid() && Abs(c) == Flow.CheckDeadlines(env, old(Abs(c)))
    {
      var sectionExecStatus := CheckMaxTimeElapsed(env.maxSectionTime, env.sectionStart, env.clock(tick));
      var globalExecStatus := CheckMaxTimeElapsed(env.maxGlobalTime, env.globalStart, env.clock(tick + 1));
      tick := tick + 2;
      if globalExecStatus == Aborted {
        skipFlag, maxGlobalRunTimeReached := true, true;
      }
      if sectionExecStatus == Aborted {
        skipFlag, maxSectionRunTimeReached := true, true;
      }
    }

    method ExecuteUnlessSkipped(c: CmdInOut, i: nat)
      requires Valid() && i < |env.cmds|
      requires c.params == lists[i] && c.internalVarName == env.cmds[i].internalVar
      modifies this`asks, c`out, c`internalVars
      ensures Abs(c) == Flow.ExecuteUnlessSkipped(env, old(Abs(c)), i)
    {
      if !skipFlag {
        Commands.Execute(env.cmds[i].key, c, env.answers(asks));
        asks := asks + 1;
      }
    }

    /** The output side of a dump command that was executed: its item is found or created and
        handed to the part of the collector that fills it. */
    method GrowIfDump(c: CmdInOut, i: nat, ctx: Context, ask: nat)
      requires Valid() && i < |env.cmds|
      modifies this`trace, tree
      ensures Valid() && Abs(c) == Flow.GrowIfDump(env, old(Abs(c)), i, ctx, ask)
    {
      hide Grow, EnsurePath, Commands.KindOf, RegisterPath;
      if !skipFlag && IsDump(env, i) {
        var o := env.cmds[i].output;
        ghost var before := tree.root;
        var node := tree.GenerateJsonPath(env.place, ctx, false, if o.Some? then o.value.extra else None);
        tree.GrowAt(node, env.dumps(ask));
        GrowEnsured(before, node, env.dumps(ask));
        trace := trace + [Grown(node, env.dumps(ask))];
      }
    }

    /** Check both deadlines and execute unless skipping. */
    method Perform(c: CmdInOut, i: nat, ctx: Context, ghost n: nat)
      requires Valid() && i < |env.cmds|
      requires c.params == lists[i] && c.internalVarName == env.cmds[i].internalVar
      modifies this, tree, c`out, c`internalVars
      ensures Valid() && Abs(c) == Flow.Perform(env, old(Abs(c)), i, ctx, n)
    {
      hide Flow.CheckDeadlines, Flow.ExecuteUnlessSkipped, Flow.GrowIfDump, Summary;
      ghost var s := Abs(c);
      var ask := asks;
      CheckDeadlines(c);
      ExecuteUnlessSkipped(c, i);
      trace := trace + [Summary(env, s, Abs(c), i, ctx, n)];
      GrowIfDump(c, i, ctx, ask);
    }

    /** The body of the repeat loop: check both deadlines, execute unless skipping, log. */
    method RepeatOnce(c: CmdInOut, i: nat, ctx: Context, n: nat)
      requires Valid() && i < |env.cmds|
      requires c.params == lists[i] && c.internalVarName == env.cmds[i].internalVar
      modifies this, tree, c`out, c`internalVars
      ensures Valid() && Abs(c) == Repeat(env, old(Abs(c)), i, ctx, n)
    {
      hide Flow.Perform, Flow.LogIfNamed;
      Perform(c, i, ctx, n);
      LogIfNamed(c, i, ctx, n);
      if c.out.Failed() {
        if env.skipOnFail {
          skipFlag := true;
        }
      }
    }

    /** Logger: create the register's path, then add its value. */
    method LogIfNamed(c: CmdInOut, i: nat, ctx: Context, n: nat)
      requires Valid() && i < |env.cmds|
      modifies this`trace, this`globalMaxPrint, this`sectionMaxPrint, tree, c`out
      ensures Abs(c) == Flow.LogIfNamed(env, old(Abs(c)), i, ctx, n)
    {
      hide Flow.LogValue, RegisterName;
      if env.cmds[i].output.Some? {
        var o := env.cmds[i].output.value;
        var node := tree.GenerateJsonPath(env.place, ctx, false, o.extra);
        var registerName := RegisterName(o.register, ctx, n % 256);
        LogValueEnsured(env, old(Abs(c)), o, node, registerName);
        LogValue(c, o, node, registerName);
      }
    }

    /** Point at the command's shared parameter list and resolve it in place. */
    method BeginCommand(c: CmdInOut, i: nat, ctx: Context)
      requires Valid() && i < |env.cmds|
      modifies this`begun, c, lists[i]
      ensures Abs(c) == Begin(env, old(Abs(c)), i, ctx)
      ensures c.params == lists[i] && c.internalVarName == env.cmds[i].internalVar
      ensures c.paramsTracker == TrackAll(old(lists[i].items), old(c.internalVars))
    {
      ghost var templates := Items(lists);
      c.params, c.internalVarName := lists[i], env.cmds[i].internalVar;
      c.out := c.out.(ret := PECI_CC_INVALID_REQ, printString := false);
      c.paramsTracker := [];
      begun := c.internalVars;
      UpdateParams(env.SiteOf(ctx), c);
      assert Items(lists) == templates[i := lists[i].items];
    }

    /** The repeat loop. */
    method RunRepeats(c: CmdInOut, i: nat, ctx: Context)
      requires Valid() && i < |env.cmds|
      requires c.params == lists[i] && c.internalVarName == env.cmds[i].internalVar
      modifies this, tree, c`out, c`internalVars
      ensures Valid() && Abs(c) == Repeats(env, old(Abs(c)), i, ctx, RepeatCount(env.cmds[i]))
    {
      hide Repeat;
      ghost var s := Abs(c);
      for n := 0 to RepeatCount(env.cmds[i])
        invariant Valid() && Abs(c) == Repeats(env, s, i, ctx, n)
      {
        RepeatOnce(c, i, ctx, n + 1);
      }
    }

    /** One command: resolve its parameters, repeat it, and put its parameters back. */
    method ProcessCommand(c: CmdInOut, i: nat, ctx: Context)
      requires Valid() && i < |env.cmds|
      modifies this, tree, c, lists
      ensures Valid() && Abs(c) == Process(env, old(Abs(c)), i, ctx)
    {
      BeginCommand(c, i, ctx);
      RunRepeats(c, i, ctx);
      EndCommand(c, i);
    }

    /** ResetParams on the shared list. */
    method EndCommand(c: CmdInOut, i: nat)
      requires Valid() && i < |env.cmds| && c.params == lists[i]
      modifies lists[i]
      ensures Abs(c) == var s := old(Abs(c));
                        s.(templates := s.templates[i := Restore(s.templates[i], c.paramsTracker)])
    {
      ghost var templates := Items(lists);
      ResetParams(c.params, c.paramsTracker);
      assert Items(lists) == templates[i := lists[i].items];
    }

    /** ProcessPECICmds over a range of commands. */
    method ProcessPECICmds(c: CmdInOut, lo: nat, hi: nat, ctx: Context)
      requires Valid() && lo <= hi <= |env.cmds|
      modifies this, tree, c, lists
      ensures Valid() && Abs(c) == RunOps(env, old(Abs(c)), CommandOps(lo, hi, ctx))
    {
      ghost var s := Abs(c);
      for i := lo to hi
        invariant Valid() && Abs(c) == RunOps(env, s, CommandOps(lo, i, ctx))
      {
        RunOneMore(env, s, lo, i, ctx);
        ProcessCommand(c, i, ctx);
      }
    }

    /** One visit: the loop body for each of its contexts, then the skip flag is cleared. */
    method VisitContexts(c: CmdInOut, ctxs: seq<Context>)
      requires Valid()
      modifies this, tree, c, lists
      ensures Fits(env, BodyOps(env, ctxs))
      ensures Valid() && Abs(c) == RunOps(env, old(Abs(c)), BodyOps(env, ctxs)).(skip := false)
    {
      hide RunOps, CommandOps, Fits;
      ghost var s := Abs(c);
      RunNothing(env, s);
      BodyFits(env, ctxs[..0]);
      for k := 0 to |ctxs|
        invariant Valid() && Fits(env, BodyOps(env, ctxs[..k]))
        invariant Abs(c) == RunOps(env, s, BodyOps(env, ctxs[..k]))
      {
        ghost var before := BodyOps(env, ctxs[..k]);
        CommandsFit(env, ctxs[k]);
        ProcessPECICmds(c, env.prereqs, |env.cmds|, ctxs[k]);
        RunConcat(env, s, before, CommandOps(env.prereqs, |env.cmds|, ctxs[k]));
        assert ctxs[..k + 1][..k] == ctxs[..k];
      }
      assert ctxs[..|ctxs|] == ctxs;
      skipFlag := false;
    }

    method LoopOnCHA(c: CmdInOut)
      requires Valid() && env.Flags().cha
      modifies this, tree, c, lists
      ensures Fits(env, VisitOps(env, Visits(env)))
      ensures Valid() && Abs(c) == RunOps(env, old(Abs(c)), VisitOps(env, Visits(env)))
    {
      hide RunOps, Fits, BodyOps, ReadLoops;
      ghost var s, visits := Abs(c), Visits(env);
      RunNothing(env, s);
      VisitsFit(env, []);
      for cha := 0 to env.chaCount
        invariant Valid() && Fits(env, VisitOps(env, visits[..cha]))
        invariant Abs(c) == RunOps(env, s, VisitOps(env, visits[..cha]))
      {
        VisitContexts(c, [env.ctx0.(cha := cha)]);
        RunVisit(env, s, visits[..cha], visits[cha]);
        assert visits[..cha + 1] == visits[..cha] + [visits[cha]];
      }
      assert visits[..env.chaCount] == visits;
    }

    method LoopOnCore(c: CmdInOut)
      requires Valid() && !env.Flags().cha && env.Flags().core
      modifies this, tree, c, lists
      ensures Fits(env, VisitOps(env, Visits(env)))
      ensures Valid() && Abs(c) == RunOps(env, old(Abs(c)), VisitOps(env, Visits(env)))
    {
      hide RunOps, Fits, BodyOps, Bit, ReadLoops;
      ghost var s := Abs(c);
      RunNothing(env, s);
      VisitsFit(env, []);
      for core := 0 to 64
        invariant Valid() && Fits(env, VisitOps(env, CoreVisits(env, core)))
        invariant Abs(c) == RunOps(env, s, VisitOps(env, CoreVisits(env, core)))
      {
        ghost var visits := CoreVisits(env, core);
        if !Bit(env.coreMask, core) {
          assert CoreVisits(env, core + 1) == visits;
          continue;
        }
        if env.skipCrashedCores && env.crashed(core) {
          assert CoreVisits(env, core + 1) == visits;
          continue;
        }
        var threads := [env.ctx0.(core := core, thread := 0)];
        if env.Flags().thread {
          threads := threads + [env.ctx0.(core := core, thread := 1)];
        }
        assert threads == CoreVisit(env, core);
        VisitContexts(c, threads);
        RunVisit(env, s, visits, threads);
      }
    }

    /** logVersion: the version entry goes through the section's own output record. */
    method LogVersion(main: CmdInOut)
      requires Valid()
      modifies tree, main`out
      ensures tree.root == if env.version == 0 then old(tree.root)
                           else Once(old(tree.root), RootPath(env.place, env.ctx0), "_version", PrintHex(env.version))
      ensures main.out == VersionOut(env, old(tree.root), old(main.out))
    {
      hide RootPath, Once, PrintHex, EnsurePath;
      if env.version != 0 {
        var extended := if env.version < 0x8000_0000 then env.version else TWO_TO_THE_64 - TWO_TO_THE_32 + env.version;
        var missing := tree.LogOnce(env.place, env.ctx0, "_version", PrintHex(env.version));
        main.out := main.out.(cc := PECI_DEV_CC_SUCCESS, ret := PECI_CC_SUCCESS, printString := false,
                              val := if missing then Mask(extended, 4) else extended);
      }
    }

    /** The version entry and the per-section resets. */
    method BeginSection(preReq: CmdInOut, main: CmdInOut)
      requires Valid() && preReq != main
      modifies this, tree, preReq`internalVars, main`out
      ensures Valid() && Abs(preReq) == StartSection(env, old(Abs(preReq)), old(preReq.out))
      ensures main.out == VersionOut(env, old(tree.root), old(main.out))
    {
      hide RootPath, Once, PrintHex, VersionOut;
      LogVersion(main);
      skipFlag, maxGlobalRunTimeReached, maxSectionRunTimeReached := false, false, false;
      globalMaxPrint, sectionMaxPrint := true, true;
      preReq.internalVars := [];
    }

    /** The prerequisites; the variables they store are carried over to the section's own
        commands. */
    method RunPrerequisites(preReq: CmdInOut, main: CmdInOut)
      requires Valid() && preReq != main
      modifies this, tree, preReq, main, lists
      ensures Valid() && Fits(env, PrereqOps(env, old(main.out)))
      ensures Abs(main) == RunOps(env, old(Abs(preReq)), PrereqOps(env, old(main.out)))
    {
      hide RunOps;
      ghost var s, mainOut := Abs(preReq), main.out;
      ProcessPECICmds(preReq, 0, env.prereqs, env.ctx0);
      main.internalVars := preReq.internalVars;
      RunPrereqs(env, s, mainOut);
    }

    /** The loop the section asks for. */
    method RunLoops(c: CmdInOut)
      requires Valid()
      modifies this, tree, c, lists
      ensures Fits(env, VisitOps(env, Visits(env)))
      ensures Valid() && Abs(c) == RunOps(env, old(Abs(c)), VisitOps(env, Visits(env)))
    {
      hide RunOps;
      if env.Flags().cha {
        LoopOnCHA(c);
      } else if env.Flags().core {
        LoopOnCore(c);
      } else {
        ghost var s := Abs(c);
        RunNothing(env, s);
        VisitContexts(c, [env.ctx0]);
        RunVisit(env, s, [], [env.ctx0]);
        assert [] + [[env.ctx0]] == Visits(env);
      }
    }

    /** fillNewSection for an enabled section. */
    method RunSection(preReq: CmdInOut, main: CmdInOut)
      requires Valid() && preReq != main
      modifies this, tree, preReq, main, lists
      ensures Valid()
      ensures Abs(main) ==
              SectionRun(env, old(Abs(preReq)), old(preReq.out), VersionOut(env, old(tree.root), old(main.out)))
    {
      hide RunOps, PrereqOps, VisitOps, Visits, StartSection, VersionOut;
      BeginSection(preReq, main);
      ghost var s0, mainOut := Abs(preReq), main.out;
      RunPrerequisites(preReq, main);
      RunLoops(main);
      RunConcat(env, s0, PrereqOps(env, mainOut), VisitOps(env, Visits(env)));
    }

    /** RecordEnable decides whether a section is left out, logged as disabled, or run. */
    method FillNewSection(recordEnable: Option<bool>, preReq: CmdInOut, main: CmdInOut)
      requires Valid() && preReq != main
      modifies this, tree, preReq, main, lists
      ensures Valid()
      ensures recordEnable == None ==> Abs(preReq) == old(Abs(preReq))
      ensures recordEnable == Some(false) ==>
                Abs(preReq) == old(Abs(preReq)).(root :=
                  Once(old(tree.root), RootPath(env.place, env.ctx0), "_record_enable", "false"))
      ensures recordEnable == Some(true) ==>
                Abs(main) ==
                SectionRun(env, old(Abs(preReq)), old(preReq.out), VersionOut(env, old(tree.root), old(main.out)))
    {
      if recordEnable.None? {
        return;
      }
      if !recordEnable.value {
        var _ := tree.LogOnce(env.place, env.ctx0, "_record_enable", "false");
        return;
      }
      RunSection(preReq, main);
    }
  }

  lemma RunNothing(env: Env, s: Run)
    requires |env.cmds| == |s.templates|
    ensures RunOps(env, s, []) == s
  {
  }

  lemma CommandsFit(env: Env, ctx: Context)
    requires env.prereqs <= |env.cmds|
    ensures Fits(env, CommandOps(env.prereqs, |env.cmds|, ctx))
  {
  }

  lemma RunVisit(env: Env, s: Run, visits: seq<seq<Context>>, ctxs: seq<Context>)
    requires env.prereqs <= |env.cmds| == |s.templates|
    ensures Fits(env, VisitOps(env, visits)) && Fits(env, BodyOps(env, ctxs))
    ensures Fits(env, VisitOps(env, visits + [ctxs]))
    ensures RunOps(env, s, VisitOps(env, visits + [ctxs])) ==
            RunOps(env, RunOps(env, s, VisitOps(env, visits)), BodyOps(env, ctxs)).(skip := false)
  {
    VisitsFit(env, visits);
    VisitsFit(env, visits + [ctxs]);
    BodyFits(env, ctxs);
    var a, b := VisitOps(env, visits), BodyOps(env, ctxs);
    assert (visits + [ctxs])[..|visits|] == visits;
    RunConcat(env, s, a, b);
    RunOne(env, s, a + b, ClearSkip);
  }

  lemma RunPrereqs(env: Env, s: Run, mainOut: Out)
    requires env.prereqs <= |env.cmds| == |s.templates|
    ensures RunOps(env, s, PrereqOps(env, mainOut)) ==
            RunOps(env, s, CommandOps(0, env.prereqs, env.ctx0)).(out := mainOut)
  {
    RunOne(env, s, CommandOps(0, env.prereqs, env.ctx0), UseOutput(mainOut));
  }

  lemma RunOneMore(env: Env, s: Run, lo: nat, i: nat, ctx: Context)
    requires lo <= i < |env.cmds| == |s.templates|
    ensures RunOps(env, s, CommandOps(lo, i + 1, ctx)) ==
            Process(env, RunOps(env, s, CommandOps(lo, i, ctx)), i, ctx)
  {
    var ops := CommandOps(lo, i + 1, ctx);
    assert ops[..|ops| - 1] == CommandOps(lo, i, ctx);
    assert ops[|ops| - 1] == RunCommand(i, ctx);
  }

  lemma RunOne(env: Env, s: Run, ops: seq<Op>, op: Op)
    requires Fits(env, ops) && OpFits(env, op) && |env.cmds| == |s.templates|
    ensures RunOps(env, s, ops + [op]) == Apply(env, RunOps(env, s, ops), op)
  {
    assert (ops + [op])[..|ops|] == ops;
  }

  lemma {:induction false} GrowEnsured(t: Item, p: Path, growths: seq<Growth>)
    ensures Grow(EnsurePath(t, p), p, growths) == Grow(t, p, growths)
  {
    hide Graft;
    if growths == [] {
      EnsureIdempotent(t, p, p);
    } else {
      GrowEnsured(t, p, growths[..|growths| - 1]);
    }
  }

  lemma LogEnsured(t: Item, p: Path, key: string, text: string)
    ensures Log(EnsurePath(t, p), p, key, text) == Log(t, p, key, text)
  {
    EnsureIdempotent(t, p, p);
  }

  /** Creating the path first, as the program does, makes no difference to what is logged. */
  lemma LogValueEnsured(env: Env, s: Run, o: Output, path: Path, key: string)
    ensures Flow.LogValue(env, s.(root := EnsurePath(s.root, path)), o, path, key) ==
            Flow.LogValue(env, s, o, path, key)
  {
    hide Log, EnsurePath, NoteKey, ValueText, Dec;
    forall k, x ensures Log(EnsurePath(s.root, path), path, k, x) == Log(s.root, path, k, x) {
      LogEnsured(s.root, path, k, x);
    }
  }
}
