/** What the commands of a run do to the output record and the variables: the laws that link each
    step to the one before it, over every schedule. */
module RunLaws {
  import opened Numerals
  import opened Json
  import opened Logger
  import opened CmdInOut
  import opened InputParser
  import Commands
  import opened Clock
  import opened Flow
  import opened FlowTraces
  import opened FlowTheorems
  import opened FlowEntries

  /******* One step *******/

  /** An executed step has the effect of its command on its parameters, the record and the
      variables before it, and the answer that was next; an unknown command, or a skipped one,
      changes nothing. It succeeded exactly if the record it left says so. */
  predicate Executes(env: Env, st: Event)
    requires st.Step? && st.cmd < |env.cmds|
  {
    var kind, name := Commands.KindOf(env.cmds[st.cmd].key), env.cmds[st.cmd].internalVar;
    if st.outcome == Skipped || kind.None? then
      st.after == st.before && (st.outcome != Skipped ==> (st.outcome == Succeeded <==> IsGood(st.after.out)))
    else
      && st.after == Commands.Effect(kind.value, st.params, name, st.before, env.answers(st.ask))
      && (st.outcome == Succeeded <==> IsGood(st.after.out))
  }

  predicate IsGood(out: Out) {
    out.ret == PECI_CC_SUCCESS && (out.cc == PECI_DEV_CC_SUCCESS || out.cc == PECI_DEV_CC_FATAL_MCA_DETECTED)
  }

  /** The record that logging leaves: a printed string is no longer waiting, a printed value has
      been cut to its size, also when "N/A" was printed for it. */
  function LeftBy(env: Env, st: Event): Out
    requires st.Step? && st.cmd < |env.cmds|
  {
    var out, output := st.after.out, env.cmds[st.cmd].output;
    if output.None? then out
    else if out.printString then out.(printString := false)
    else out.(val := out.val % Modulus(output.value.size.GetOr(out.size)))
  }

  /** The number of the answer that is next. */
  function AskAfter(st: Event): nat
    requires st.Step?
  {
    st.ask + if st.outcome == Skipped then 0 else 1
  }

  /** Step b goes on where step a has left off. */
  predicate Continues(env: Env, a: Event, b: Event)
    requires a.Step? && b.Step? && a.cmd < |env.cmds|
  {
    b.before == Commands.State(LeftBy(env, a), a.after.vars) && b.ask == AskAfter(a)
  }

  /******* The repeats of a command *******/

  function Steps(trace: seq<Event>): (r: seq<Event>)
    ensures forall k :: 0 <= k < |r| ==> r[k].Step?
  {
    if trace == [] then []
    else Steps(trace[..|trace| - 1]) + if trace[|trace| - 1].Step? then [trace[|trace| - 1]] else []
  }

  lemma {:induction false} StepsConcat(a: seq<Event>, b: seq<Event>)
    ensures Steps(a + b) == Steps(a) + Steps(b)
  {
    if b == [] {
      assert a + b == a;
    } else {
      StepsConcat(a, b[..|b| - 1]);
      assert (a + b)[..|a + b| - 1] == a + b[..|b| - 1];
    }
  }

  lemma {:induction false} NoStepsIn(log: seq<Event>)
    requires forall k :: 0 <= k < |log| ==> !log[k].Step?
    ensures Steps(log) == []
  {
    if log != [] {
      NoStepsIn(log[..|log| - 1]);
    }
  }

  lemma OneStep(st: Event, log: seq<Event>)
    requires st.Step? && forall k :: 0 <= k < |log| ==> !log[k].Step?
    ensures Steps([st] + log) == [st]
  {
    StepsConcat([st], log);
    NoStepsIn(log);
    assert [st][..0] == [];
  }

  /** Repeat number n of command i, for the context and with the parameters and variables with
      which the command began. */
  predicate IsRepeat(env: Env, i: nat, ctx: Context, params: seq<Param>, vars: Vars, st: Event, n: nat)
    requires i < |env.cmds|
  {
    && st.Step? && st.cmd == i && st.ctx == ctx && st.repetition == n && st.params == params && st.vars == vars
    && Executes(env, st)
  }

  /** The steps st lead from the record, variables and answer number at the start to those at
      the end, each going on where the previous one left off. */
  ghost predicate Leads(env: Env, start: Commands.State, ask: nat, st: seq<Event>, end: Commands.State, next: nat)
    requires forall k :: 0 <= k < |st| ==> st[k].Step? && st[k].cmd < |env.cmds|
  {
    if st == [] then end == start && next == ask
    else
      && st[0].before == start && st[0].ask == ask
      && (forall k :: 0 < k < |st| ==> Continues(env, st[k - 1], st[k]))
      && end == Commands.State(LeftBy(env, st[|st| - 1]), st[|st| - 1].after.vars)
      && next == AskAfter(st[|st| - 1])
  }

  ghost predicate Repeated(env: Env, i: nat, ctx: Context, s: Run, r: Run, n: nat)
    requires i < |env.cmds| == |s.templates|
  {
    && s.trace <= r.trace
    && var st := Steps(New(s, r));
       && |st| == n
       && (forall k :: 0 <= k < n ==> IsRepeat(env, i, ctx, s.templates[i], s.begun, st[k], k + 1))
       && Leads(env, Commands.State(s.out, s.vars), s.asks, st, Commands.State(r.out, r.vars), r.asks)
  }

  /** The state after the checks and the execution. */
  lemma ExecutesStep(env: Env, s: Run, i: nat, ctx: Context, n: nat) returns (st: Event, t: Run)
    requires i < |env.cmds| == |s.templates|
    ensures st.Step? && IsRepeat(env, i, ctx, s.templates[i], s.begun, st, n)
    ensures st.before == Commands.State(s.out, s.vars) && st.ask == s.asks
    ensures t == Perform(env, s, i, ctx, n)
    ensures st.after == Commands.State(t.out, t.vars) && t.asks == AskAfter(st) && st.outcome == OutcomeOf(t)
    ensures s.trace + [st] <= t.trace && forall k :: |s.trace| + 1 <= k < |t.trace| ==> t.trace[k].Grown?
  {
    hide Commands.Effect, Commands.KindOf, Reached, Grow, CommandPath, IsDump, Unacceptable;
    var s1 := ExecuteUnlessSkipped(env, CheckDeadlines(env, s), i);
    st := Summary(env, s, s1, i, ctx, n);
    t := Perform(env, s, i, ctx, n);
    assert t.out == s1.out && t.vars == s1.vars && t.asks == s1.asks && t.skip == s1.skip;
    assert OutcomeOf(s1) == Succeeded <==> !s1.skip && IsGood(s1.out) by { GoodIsNotFailed(s1.out); }
  }

  lemma GoodIsNotFailed(out: Out)
    ensures IsGood(out) <==> !out.Failed()
  {
  }

  /** Notes touch neither the record nor the variables. */
  lemma NotesLeave(env: Env, s: Run, path: Path)
    ensures var r := NoteSection(env, NoteGlobal(env, s, path), path);
            && r.out == s.out && r.vars == s.vars && r.asks == s.asks
            && s.trace <= r.trace && forall k :: |s.trace| <= k < |r.trace| ==> !r.trace[k].Step?
  {
    hide Log, NoteKey, Seconds;
  }

  lemma LogValueLeaves(env: Env, s: Run, o: Output, path: Path, key: string)
    ensures var r := LogValue(env, s, o, path, key);
            && r.out == (if s.out.printString then s.out.(printString := false)
                         else s.out.(val := s.out.val % Modulus(o.size.GetOr(s.out.size))))
            && r.vars == s.vars && r.asks == s.asks
            && s.trace <= r.trace && forall k :: |s.trace| <= k < |r.trace| ==> !r.trace[k].Step?
  {
    hide Log, ValueText, Mask, Modulus, NoteGlobal, NoteSection;
    var size := o.size.GetOr(s.out.size);
    MaskIsModulus(s.out.val, size);
    NotesLeave(env, s.(out := s.out.(val := Mask(s.out.val, size))), path);
  }

  lemma LogLeaves(env: Env, s: Run, i: nat, ctx: Context, n: nat, st: Event)
    requires i < |env.cmds| && st.Step? && st.cmd == i && st.after == Commands.State(s.out, s.vars)
    ensures var r := LogIfNamed(env, s, i, ctx, n);
            && r.out == LeftBy(env, st) && r.vars == s.vars && r.asks == s.asks
            && s.trace <= r.trace && forall k :: |s.trace| <= k < |r.trace| ==> !r.trace[k].Step?
  {
    hide LogValue, RegisterAt, Modulus;
    if env.cmds[i].output.Some? {
      var at := RegisterAt(env, env.cmds[i].output.value, ctx, n);
      LogValueLeaves(env, s, env.cmds[i].output.value, at.0, at.1);
    }
  }

  lemma RepeatLaw(env: Env, s: Run, i: nat, ctx: Context, n: nat) returns (st: Event)
    requires i < |env.cmds| == |s.templates|
    ensures var r := Repeat(env, s, i, ctx, n);
            && s.trace <= r.trace && Steps(New(s, r)) == [st]
            && IsRepeat(env, i, ctx, s.templates[i], s.begun, st, n)
            && Leads(env, Commands.State(s.out, s.vars), s.asks, [st], Commands.State(r.out, r.vars), r.asks)
            && r.templates == s.templates && r.begun == s.begun
  {
    hide Perform, LogIfNamed, LeftBy, Executes;
    var t: Run;
    st, t := ExecutesStep(env, s, i, ctx, n);
    LogLeaves(env, t, i, ctx, n, st);
    var u := LogIfNamed(env, t, i, ctx, n);
    var r := Repeat(env, s, i, ctx, n);
    assert r.trace == u.trace;
    var log := New(s, r)[1..];
    assert New(s, r) == [st] + log;
    forall k | 0 <= k < |log| ensures !log[k].Step? {
      assert log[k] == u.trace[|s.trace| + 1 + k];
    }
    OneStep(st, log);
  }

  lemma {:induction false} RepeatsLaw(env: Env, s: Run, i: nat, ctx: Context, n: nat)
    requires i < |env.cmds| == |s.templates|
    ensures Repeated(env, i, ctx, s, Repeats(env, s, i, ctx, n), n)
  {
    hide Repeat, Steps, LeftBy, Executes;
    if n == 0 {
      assert New(s, s) == [];
      NoStepsIn([]);
    } else {
      var m := Repeats(env, s, i, ctx, n - 1);
      RepeatsLaw(env, s, i, ctx, n - 1);
      var last := RepeatLaw(env, m, i, ctx, n);
      var r := Repeat(env, m, i, ctx, n);
      NewSplits(s, m, r);
      StepsConcat(New(s, m), New(m, r));
      var before := Steps(New(s, m));
      assert Steps(New(s, r)) == before + [last];
      LeadsFurther(env, Commands.State(s.out, s.vars), s.asks, before, Commands.State(m.out, m.vars), m.asks,
                   last, Commands.State(r.out, r.vars), r.asks);
    }
  }

  lemma LeadsFurther(env: Env, start: Commands.State, ask: nat, st: seq<Event>, mid: Commands.State, at: nat,
                     last: Event, end: Commands.State, next: nat)
    requires forall k :: 0 <= k < |st| ==> st[k].Step? && st[k].cmd < |env.cmds|
    requires last.Step? && last.cmd < |env.cmds|
    requires Leads(env, start, ask, st, mid, at) && Leads(env, mid, at, [last], end, next)
    ensures Leads(env, start, ask, st + [last], end, next)
  {
    hide LeftBy;
    var all := st + [last];
    forall k | 0 < k < |all| ensures Continues(env, all[k - 1], all[k]) {
      if k < |st| {
        assert Continues(env, st[k - 1], st[k]);
      }
    }
  }

  /** The record a section's own commands begin with: a success with the version of the section, if
      it has one. */
  lemma VersionRecord(env: Env, root: Item, out: Out)
    ensures var r := VersionOut(env, root, out);
            if env.version == 0 then r == out
            else IsGood(r) && !r.printString && r.val % 0x1_0000_0000 == env.version
                 && r == out.(ret := r.ret, cc := PECI_DEV_CC_SUCCESS, val := r.val, printString := false)
  {
    hide EnsurePath, RootPath;
  }

  /******* Whole commands *******/

  /** Parameter i is the last text, and it is v. */
  predicate IsLastAt(ps: seq<Param>, i: nat, v: string) {
    i < |ps| && ps[i] == Text(v) && forall j :: i < j < |ps| ==> !ps[j].Text?
  }

  /** v is the last text among the parameters, or what was there if there is none. */
  ghost predicate IsLastText(ps: seq<Param>, default: string, v: string) {
    || (v == default && forall i :: 0 <= i < |ps| ==> !ps[i].Text?)
    || exists i: nat :: IsLastAt(ps, i, v)
  }

  lemma {:induction false} StringOperandIsLast(ps: seq<Param>, default: string)
    ensures IsLastText(ps, default, StringOperand(ps, default))
  {
    if ps != [] {
      var init, last := ps[..|ps| - 1], ps[|ps| - 1];
      if last.Text? {
        assert IsLastAt(ps, |ps| - 1, last.s);
      } else {
        StringOperandIsLast(init, default);
        var v := StringOperand(init, default);
        hide StringOperand;
        if i: nat :| IsLastAt(init, i, v) {
          assert IsLastAt(ps, i, v);
        }
      }
    }
  }

  /** A command begins with a record that reports an invalid request, has no string waiting and
      holds its string operand; everything else is left from before. */
  ghost predicate Begins(params: seq<Param>, before: Commands.State, start: Commands.State) {
    && start.vars == before.vars
    && start.out == before.out.(ret := PECI_CC_INVALID_REQ, printString := false, stringVal := start.out.stringVal)
    && IsLastText(params, before.out.stringVal, start.out.stringVal)
  }

  /** A command runs as often as its entry says, every time with the parameters that its list
      resolves to at the start. */
  ghost predicate CommandLaw(env: Env, i: nat, ctx: Context, a: Run, b: Run)
    requires i < |env.cmds| == |a.templates|
  {
    var params := ResolveAll(a.templates[i], env.SiteOf(ctx), a.vars);
    var times := if env.cmds[i].repeat > 0 then env.cmds[i].repeat else 0;
    && a.trace <= b.trace
    && var st := Steps(New(a, b));
       && |st| == times
       && (forall k :: 0 <= k < times ==> IsRepeat(env, i, ctx, params, a.vars, st[k], k + 1))
       && exists start: Commands.State ::
            Begins(params, Commands.State(a.out, a.vars), start)
            && Leads(env, start, a.asks, st, Commands.State(b.out, b.vars), b.asks)
  }

  lemma ProcessLaw(env: Env, s: Run, i: nat, ctx: Context)
    requires i < |env.cmds| == |s.templates|
    ensures CommandLaw(env, i, ctx, s, Process(env, s, i, ctx))
  {
    hide Repeats, ResolveAll, StringOperand, Restore, TrackAll, IsRepeat, Leads, IsLastText, Steps;
    var a := Begin(env, s, i, ctx);
    var n := RepeatCount(env.cmds[i]);
    var b := Repeats(env, a, i, ctx, n);
    RepeatsLaw(env, a, i, ctx, n);
    var r := Process(env, s, i, ctx);
    assert r.trace == b.trace && r.out == b.out && r.vars == b.vars && r.asks == b.asks;
    var params := ResolveAll(s.templates[i], env.SiteOf(ctx), s.vars);
    assert a.templates[i] == params && a.begun == s.vars && a.asks == s.asks && a.trace == s.trace;
    assert New(s, r) == New(a, b);
    StringOperandIsLast(params, s.out.stringVal);
    assert Begins(params, Commands.State(s.out, s.vars), Commands.State(a.out, a.vars));
  }

  /******* Whole runs *******/

  ghost predicate OpLaw(env: Env, op: Op, a: Run, b: Run)
    requires OpFits(env, op) && |env.cmds| == |a.templates|
  {
    match op
    case RunCommand(i, ctx) => CommandLaw(env, i, ctx, a, b)
    case ClearSkip => b == a.(skip := false)
    case UseOutput(out) => b == a.(out := out)
  }

  /** Over every schedule each operation obeys its law, between the state that the operations
      before it have left and the one that it leaves. */
  lemma RunObeysLaws(env: Env, s: Run, ops: seq<Op>, k: nat)
    requires Fits(env, ops) && |env.cmds| == |s.templates| && k < |ops|
    ensures OpLaw(env, ops[k], RunOps(env, s, ops[..k]), RunOps(env, s, ops[..k + 1]))
  {
    hide Process, CommandLaw;
    assert ops[..k + 1][..k] == ops[..k];
    var a := RunOps(env, s, ops[..k]);
    if ops[k].RunCommand? {
      ProcessLaw(env, a, ops[k].cmd, ops[k].ctx);
    }
  }
}
