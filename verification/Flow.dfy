/** The section engine (engine/flow.c and LogValue in engine/logger.c) as a state machine: one
    section run is a fixed schedule of operations, and what each operation does depends on the
    shared templates, the skip flag, the clock and the answers of the bus. */
module Flow {
  import opened Numerals
  import opened Json
  import opened Logger
  import opened CmdInOut
  import opened InputParser
  import Commands
  import opened Clock

  /******* The input of one section run *******/

  /** The "Output" of a command: register name, optional extra level, optional size. */
  datatype Output = Output(register: string, extra: Option<string>, size: Option<Byte>, zeroPadded: bool)

  datatype Command = Command(key: string, repeat: int, internalVar: Option<string>, output: Option<Output>)

  /** Everything a section run does not change: the section's entry in the input file, the
      socket, the deadlines, and the oracles for the monotonic clock and the bus. Commands
      below prereqs are the section's prerequisites, the others its loop body. crashed tells of
      each core whether its bit of the crashed-core mask is set when the core loop comes to it,
      the only time the loop looks; a big-core collection may set bits until then. */
  datatype Env = Env(
    name: string, cmds: seq<Command>, prereqs: nat, place: Place, version: Uint32,
    keys: seq<string>, skipOnFail: bool, skipCrashedCores: bool,
    addr: int, ctx0: Context, chaCount: Byte, coreMask: nat, crashed: nat -> bool,
    maxGlobalTime: Uint32, maxSectionTime: Uint32, globalStart: Timespec, sectionStart: Timespec,
    clock: nat -> Timespec, firstTick: nat, answers: nat -> Commands.Answer, dumps: nat -> seq<Growth>)
  {
    /** The clock never runs backwards, and both start times were read before the section's
        first deadline check, which is clock reading number firstTick. */
    ghost predicate Valid() {
      && prereqs <= |cmds|
      && place.Valid()
      && Monotone(clock)
      && globalStart.Valid() && globalStart.Nanos() <= clock(firstTick).Nanos()
      && sectionStart.Valid() && sectionStart.Nanos() <= clock(firstTick).Nanos()
    }

    /** Which loops the section's keys ask for. */
    function Flags(): LoopOnFlags { ReadLoops(keys) }

    function SiteOf(ctx: Context): Site { Site(addr, ctx) }
  }

  ghost predicate Monotone(clock: nat -> Timespec) {
    && (forall i: nat :: clock(i).Valid())
    && forall i: nat, j: nat :: i <= j ==> clock(i).Nanos() <= clock(j).Nanos()
  }

  /******* What can be observed *******/

  datatype Outcome = Succeeded | Failed | Skipped

  /** A Step is one repeat of one command: with which parameters it was executed, if it was, the
      answer that was next, the output record and the variables before and after it, and what
      its deadline checks saw. Grown is what a dump command adds below its register path; the
      others are values added to the output tree. */
  datatype Event =
    | Step(cmd: nat, ctx: Context, repetition: nat, vars: Vars, params: seq<Param>,
           ask: nat, before: Commands.State, after: Commands.State,
           globalHit: bool, sectionHit: bool, outcome: Outcome)
    | Entry(path: Path, key: string, text: string, of: Outcome)
    | GlobalNote(path: Path, key: string, text: string)
    | SectionNote(path: Path, key: string, text: string)
    | Grown(path: Path, growths: seq<Growth>)
  {
    predicate IsValue() { Entry? || GlobalNote? || SectionNote? }
  }

  /** The changing state. begun holds the variables as they were when the current command's
      parameters were resolved. */
  datatype Run = Run(
    out: Out, vars: Vars, templates: seq<seq<Param>>, begun: Vars, skip: bool,
    globalReached: bool, sectionReached: bool, globalMaxPrint: bool, sectionMaxPrint: bool,
    tick: nat, asks: nat, root: Item, trace: seq<Event>)

  /******* One repeat of one command *******/

  /** The two deadline checks: the section's clock reading comes first. */
  function CheckDeadlines(env: Env, s: Run): Run {
    var sectionHit := Reached(env.maxSectionTime, env.sectionStart, env.clock(s.tick));
    var globalHit := Reached(env.maxGlobalTime, env.globalStart, env.clock(s.tick + 1));
    s.(tick := s.tick + 2,
       skip := s.skip || globalHit || sectionHit,
       globalReached := s.globalReached || globalHit,
       sectionReached := s.sectionReached || sectionHit)
  }

  function ExecuteUnlessSkipped(env: Env, s: Run, i: nat): (r: Run)
    requires i < |env.cmds| == |s.templates|
    ensures r.templates == s.templates && r.begun == s.begun
  {
    if s.skip then s
    else
      var kind := Commands.KindOf(env.cmds[i].key);
      var before := Commands.State(s.out, s.vars);
      var after := if kind.None? then before
                   else Commands.Effect(kind.value, s.templates[i], env.cmds[i].internalVar, before,
                                        env.answers(s.asks));
      s.(out := after.out, vars := after.vars, asks := s.asks + 1)
  }

  /** The step event that summarises the checks and the execution. */
  function Summary(env: Env, before: Run, after: Run, i: nat, ctx: Context, n: nat): Event
    requires i < |before.templates|
  {
    Step(i, ctx, n, before.begun, before.templates[i],
         before.asks, Commands.State(before.out, before.vars), Commands.State(after.out, after.vars),
         Reached(env.maxGlobalTime, env.globalStart, env.clock(before.tick + 1)),
         Reached(env.maxSectionTime, env.sectionStart, env.clock(before.tick)),
         OutcomeOf(after))
  }

  function OutcomeOf(s: Run): Outcome {
    if s.skip then Skipped else if s.out.Failed() then Failed else Succeeded
  }

  /** Add a value to the tree and record it. */
  function Add(s: Run, e: Event): Run
    requires e.IsValue()
  {
    s.(root := Log(s.root, e.path, e.key, e.text), trace := s.trace + [e])
  }

  const LOGGER_NA := "N/A"

  function Mask(val: Uint64, size: Byte): Uint64 {
    if size == 1 then val % 0x100 else if size == 2 then val % 0x1_0000
    else if size == 4 then val % TWO_TO_THE_32 else val
  }

  function Zeros(n: nat): string { seq(n, _ => '0') }

  /** "0x" and at least width digits. */
  function PrintPadded(n: nat, width: nat): string {
    var d := Digits(n, Sixteen);
    "0x" + (if |d| < width then Zeros(width - |d|) else []) + d
  }

  /** The text of an executed command's result. */
  function ValueText(out: Out, size: Byte, zeroPadded: bool): string {
    if out.ret != PECI_CC_SUCCESS then "0x0" + CompletionText(out.cc, out.ret)
    else if Unacceptable(out.cc) then PrintHex(out.val) + CompletionText(out.cc, out.ret)
    else if zeroPadded then
      PrintPadded(out.val, if size == 1 then 2 else if size == 2 then 4 else if size == 4 then 8 else 16)
    else PrintHex(out.val)
  }

  lemma {:induction false} LeadingZeros(k: nat, d: string)
    requires AllDigits(d)
    ensures AllDigits(Zeros(k) + d) && Value(Zeros(k) + d, Sixteen) == Value(d, Sixteen)
    decreases |d|, k
  {
    hide DigitValue;
    var z := Zeros(k);
    assert DigitValue('0') == Some(0) by { ZeroDigit(); }
    if d != [] {
      var init, last := d[..|d| - 1], d[|d| - 1];
      LeadingZeros(k, init);
      assert z + d == (z + init) + [last] && d == init + [last];
      ValueSnoc(z + init, last, Sixteen);
      ValueSnoc(init, last, Sixteen);
    } else if k > 0 {
      LeadingZeros(k - 1, []);
      assert z + d == (Zeros(k - 1) + []) + ['0'];
      ValueSnoc(Zeros(k - 1) + [], '0', Sixteen);
    } else {
      assert z + d == d;
    }
  }

  lemma ZeroDigit()
    ensures DigitValue('0') == Some(0)
  {
  }

  /** The text logged for a successful command reads back as its value, padded or not. */
  lemma LoggedTextDenotesValue(out: Out, size: Byte, zeroPadded: bool)
    requires !out.Failed()
    ensures ParseHex(ValueText(out, size, zeroPadded)) == out.val
  {
    hide Digits, ParseHex, Value, DigitValue;
    var d := Digits(out.val, Sixteen);
    ValueOfDigits(out.val, Sixteen);
    ParsePrintHex(out.val);
    if zeroPadded {
      var width := if size == 1 then 2 else if size == 2 then 4 else if size == 4 then 8 else 16;
      var z := if |d| < width then Zeros(width - |d|) else [];
      LeadingZeros(if |d| < width then width - |d| else 0, d);
      assert z + d == (if |d| < width then Zeros(width - |d|) else Zeros(0)) + d;
      ParseDigits(z + d);
      assert PrintPadded(out.val, width) == "0x" + (z + d);
    }
  }

  /** "_cpu%d_%s_<which>_timeout:" */
  function NoteKey(env: Env, which: string): string {
    "_cpu" + Dec(env.ctx0.cpu) + "_" + env.name + "_" + which + "_timeout:"
  }

  /** "%ds": the conversion reads the 32-bit limit as a signed number. */
  function Seconds(limit: Uint32): string {
    (if limit < 0x8000_0000 then Dec(limit) else "-" + Dec(TWO_TO_THE_32 - limit)) + "s"
  }

  /** Report each deadline that was reached, once per section run. */
  function NoteGlobal(env: Env, s: Run, path: Path): (r: Run)
    ensures r.templates == s.templates && r.begun == s.begun
  {
    if s.globalReached && s.globalMaxPrint
    then Add(s, GlobalNote(path, NoteKey(env, "global"), Seconds(env.maxGlobalTime))).(globalMaxPrint := false)
    else s
  }

  function NoteSection(env: Env, s: Run, path: Path): (r: Run)
    ensures r.templates == s.templates && r.begun == s.begun
  {
    if s.sectionReached && s.sectionMaxPrint
    then Add(s, SectionNote(path, NoteKey(env, "section"), Seconds(env.maxSectionTime))).(sectionMaxPrint := false)
    else s
  }

  /** LogValue at a path under a key. */
  function LogValue(env: Env, s: Run, o: Output, path: Path, key: string): (r: Run)
    ensures r.templates == s.templates && r.begun == s.begun
  {
    if s.out.printString then
      Add(s, Entry(path, key, s.out.stringVal, OutcomeOf(s))).(out := s.out.(printString := false))
    else
      var size := o.size.GetOr(s.out.size);
      var s1 := s.(out := s.out.(val := Mask(s.out.val, size)));
      if s.skip then
        Add(NoteSection(env, NoteGlobal(env, s1, path), path), Entry(path, key, LOGGER_NA, Skipped))
      else Add(s1, Entry(path, key, ValueText(s1.out, size, o.zeroPadded), OutcomeOf(s)))
  }

  /** Where repeat n of a named command puts its register. */
  function RegisterAt(env: Env, o: Output, ctx: Context, n: nat): (Path, string) {
    (RegisterPath(env.place, ctx, o.extra), RegisterName(o.register, ctx, n % 256))
  }

  function LogIfNamed(env: Env, s: Run, i: nat, ctx: Context, n: nat): (r: Run)
    requires i < |env.cmds|
    ensures r.templates == s.templates && r.begun == s.begun
  {
    hide LogValue;
    if env.cmds[i].output.None? then s
    else
      var at := RegisterAt(env, env.cmds[i].output.value, ctx, n);
      LogValue(env, s, env.cmds[i].output.value, at.0, at.1)
  }

  predicate IsDump(env: Env, i: nat) {
    i < |env.cmds| && Commands.KindOf(env.cmds[i].key) == Some(Commands.Dump)
  }

  /** The item that a command's register, and what it dumps, goes to. */
  function CommandPath(env: Env, i: nat, ctx: Context): Path
    requires i < |env.cmds|
  {
    var o := env.cmds[i].output;
    RegisterPath(env.place, ctx, if o.Some? then o.value.extra else None)
  }

  /** What an executed dump command adds to the tree: dump number ask, whatever it is. */
  function GrowIfDump(env: Env, s: Run, i: nat, ctx: Context, ask: nat): (r: Run)
    requires i < |env.cmds|
    ensures r.templates == s.templates && r.begun == s.begun
  {
    if s.skip || !IsDump(env, i) then s
    else
      var p, growths := CommandPath(env, i, ctx), env.dumps(ask);
      s.(root := Grow(s.root, p, growths), trace := s.trace + [Grown(p, growths)])
  }

  /** The checks, the execution and what it dumps. */
  function Perform(env: Env, s: Run, i: nat, ctx: Context, n: nat): (r: Run)
    requires i < |env.cmds| == |s.templates|
    ensures r.templates == s.templates && r.begun == s.begun
  {
    hide ExecuteUnlessSkipped, Summary, GrowIfDump;
    var s1 := ExecuteUnlessSkipped(env, CheckDeadlines(env, s), i);
    GrowIfDump(env, s1.(trace := s1.trace + [Summary(env, s, s1, i, ctx, n)]), i, ctx, s.asks)
  }

  /** Repeat n of command i. */
  function Repeat(env: Env, s: Run, i: nat, ctx: Context, n: nat): (r: Run)
    requires i < |env.cmds| == |s.templates|
    ensures r.templates == s.templates && r.begun == s.begun
  {
    hide LogIfNamed, Perform;
    var s3 := LogIfNamed(env, Perform(env, s, i, ctx, n), i, ctx, n);
    s3.(skip := s3.skip || (s3.out.Failed() && env.skipOnFail))
  }

  function Repeats(env: Env, s: Run, i: nat, ctx: Context, n: nat): (r: Run)
    requires i < |env.cmds| == |s.templates|
    ensures r.templates == s.templates && r.begun == s.begun
  {
    if n == 0 then s else Repeat(env, Repeats(env, s, i, ctx, n - 1), i, ctx, n)
  }

  function RepeatCount(cmd: Command): nat {
    if cmd.repeat > 0 then cmd.repeat else 0
  }

  /** UpdateParams and the per-command resets before the repeats. */
  function Begin(env: Env, s: Run, i: nat, ctx: Context): (r: Run)
    requires i < |env.cmds| == |s.templates|
    ensures |r.templates| == |s.templates|
  {
    var resolved := ResolveAll(s.templates[i], env.SiteOf(ctx), s.vars);
    s.(templates := s.templates[i := resolved], begun := s.vars,
       out := s.out.(ret := PECI_CC_INVALID_REQ, printString := false,
                     stringVal := StringOperand(resolved, s.out.stringVal)))
  }

  /** A whole command: resolve its parameters in place, repeat it, put the parameters back. */
  function Process(env: Env, s: Run, i: nat, ctx: Context): (r: Run)
    requires i < |env.cmds| == |s.templates|
    ensures |r.templates| == |s.templates|
  {
    var s1 := Repeats(env, Begin(env, s, i, ctx), i, ctx, RepeatCount(env.cmds[i]));
    s1.(templates := s1.templates[i := Restore(s1.templates[i], TrackAll(s.templates[i], s.vars))])
  }

  /******* The schedule of a section *******/

  /** Run a command, clear the skip flag, or change from the prerequisites' output record to
      the section's own. */
  datatype Op = RunCommand(cmd: nat, ctx: Context) | ClearSkip | UseOutput(out: Out)

  function CommandOps(lo: nat, hi: nat, ctx: Context): seq<Op>
    requires lo <= hi
  {
    seq(hi - lo, k requires 0 <= k < hi - lo => RunCommand(lo + k, ctx))
  }

  /** The contexts visited between two clearings of the skip flag: one CHA, one core with all
      its threads, or the section as a whole. */
  function Visits(env: Env): seq<seq<Context>> {
    if env.Flags().cha then seq(env.chaCount, c requires 0 <= c < env.chaCount => [env.ctx0.(cha := c)])
    else if env.Flags().core then CoreVisits(env, 64)
    else [[env.ctx0]]
  }

  predicate IsVisited(env: Env, core: nat) {
    Bit(env.coreMask, core) && !(env.skipCrashedCores && env.crashed(core))
  }

  function CoreVisit(env: Env, core: Byte): seq<Context> {
    if env.Flags().thread then [env.ctx0.(core := core, thread := 0), env.ctx0.(core := core, thread := 1)]
    else [env.ctx0.(core := core, thread := 0)]
  }

  function CoreVisits(env: Env, n: nat): seq<seq<Context>>
    requires n <= 64
  {
    if n == 0 then []
    else CoreVisits(env, n - 1) + (if IsVisited(env, n - 1) then [CoreVisit(env, n - 1)] else [])
  }

  /** The loop body for each context of one visit. */
  function BodyOps(env: Env, ctxs: seq<Context>): seq<Op>
    requires env.prereqs <= |env.cmds|
  {
    if ctxs == [] then []
    else BodyOps(env, ctxs[..|ctxs| - 1]) + CommandOps(env.prereqs, |env.cmds|, ctxs[|ctxs| - 1])
  }

  function VisitOps(env: Env, visits: seq<seq<Context>>): seq<Op>
    requires env.prereqs <= |env.cmds|
  {
    if visits == [] then []
    else VisitOps(env, visits[..|visits| - 1]) + BodyOps(env, visits[|visits| - 1]) + [ClearSkip]
  }

  function PrereqOps(env: Env, mainOut: Out): seq<Op>
    requires env.prereqs <= |env.cmds|
  {
    CommandOps(0, env.prereqs, env.ctx0) + [UseOutput(mainOut)]
  }

  /** Everything a section run does, in order; it depends on no answer and no clock reading. */
  function Schedule(env: Env, mainOut: Out): seq<Op>
    requires env.prereqs <= |env.cmds|
  {
    PrereqOps(env, mainOut) + VisitOps(env, Visits(env))
  }

  predicate OpFits(env: Env, op: Op) {
    op.RunCommand? ==> op.cmd < |env.cmds|
  }

  predicate Fits(env: Env, ops: seq<Op>) {
    forall k :: 0 <= k < |ops| ==> OpFits(env, ops[k])
  }

  function Apply(env: Env, s: Run, op: Op): (r: Run)
    requires OpFits(env, op) && |env.cmds| == |s.templates|
    ensures |r.templates| == |s.templates|
  {
    match op
    case RunCommand(i, ctx) => Process(env, s, i, ctx)
    case ClearSkip => s.(skip := false)
    case UseOutput(out) => s.(out := out)
  }

  function RunOps(env: Env, s: Run, ops: seq<Op>): (r: Run)
    requires Fits(env, ops) && |env.cmds| == |s.templates|
    ensures |r.templates| == |s.templates|
  {
    if ops == [] then s
    else Apply(env, RunOps(env, s, ops[..|ops| - 1]), ops[|ops| - 1])
  }

  lemma {:induction false} RunConcat(env: Env, s: Run, a: seq<Op>, b: seq<Op>)
    requires Fits(env, a) && Fits(env, b) && |env.cmds| == |s.templates|
    ensures Fits(env, a + b)
    ensures RunOps(env, s, a + b) == RunOps(env, RunOps(env, s, a), b)
  {
    if b == [] {
      assert a + b == a;
    } else {
      var init := b[..|b| - 1];
      RunConcat(env, s, a, init);
      assert (a + b)[..|a + b| - 1] == a + init;
    }
  }

  lemma {:induction false} BodyFits(env: Env, ctxs: seq<Context>)
    requires env.prereqs <= |env.cmds|
    ensures Fits(env, BodyOps(env, ctxs))
  {
    if ctxs != [] {
      BodyFits(env, ctxs[..|ctxs| - 1]);
    }
  }

  lemma {:induction false} VisitsFit(env: Env, visits: seq<seq<Context>>)
    requires env.prereqs <= |env.cmds|
    ensures Fits(env, VisitOps(env, visits))
  {
    if visits != [] {
      VisitsFit(env, visits[..|visits| - 1]);
      BodyFits(env, visits[|visits| - 1]);
    }
  }

  lemma ScheduleFits(env: Env, mainOut: Out)
    requires env.prereqs <= |env.cmds|
    ensures Fits(env, Schedule(env, mainOut))
  {
    VisitsFit(env, Visits(env));
  }

  /** The state in which the prerequisites start. */
  function StartSection(env: Env, s: Run, preOut: Out): Run {
    s.(root := if env.version == 0 then s.root
               else Once(s.root, RootPath(env.place, env.ctx0), "_version", PrintHex(env.version)),
       out := preOut, vars := [], skip := false,
       globalReached := false, sectionReached := false, globalMaxPrint := true, sectionMaxPrint := true)
  }

  /** What logging the version leaves of the section's own output record: a successful result
      that holds it, cut to 32 bits only if the version was not there yet (it is a signed number). */
  function VersionOut(env: Env, root: Item, out: Out): Out {
    if env.version == 0 then out
    else
      var p := RootPath(env.place, env.ctx0);
      ResolveEnsurePath(root, p, p);
      var logged := Find(Resolve(EnsurePath(root, p), p).value, "_version").None?;
      out.(cc := PECI_DEV_CC_SUCCESS, ret := PECI_CC_SUCCESS, printString := false,
           val := if logged || env.version < 0x8000_0000 then env.version
                  else TWO_TO_THE_64 - TWO_TO_THE_32 + env.version)
  }

  /** A whole section run. */
  function SectionRun(env: Env, s: Run, preOut: Out, mainOut: Out): Run
    requires env.prereqs <= |env.cmds| == |s.templates|
  {
    ScheduleFits(env, mainOut);
    RunOps(env, StartSection(env, s, preOut), Schedule(env, mainOut))
  }
}
