/** Command templates (engine/inputparser.c). A parameter list is resolved by overwriting it in
    the shared input and put back afterwards from a tracker of the overwritten positions. The
    theorems say that this is as good as resolving the original list afresh every time. */
module InputParser {
  import opened Numerals
  import opened Logger
  import opened CmdInOut

  const TARGET := "Target"
  const CHA := "CHA"
  const CORE := "Core"
  const CORETHREAD := "(CORE*2)+THREAD"

  predicate IsPlaceholder(s: string) {
    s == TARGET || s == CHA || s == CORETHREAD || s == CORE
  }

  /** cJSON_CreateNumber((double)strtoull(s, NULL, 16)). */
  function HexNumber(s: string): Param { Number(ToDouble(ParseHex(s)) as real) }

  /******* The pure resolver *******/

  function ResolveText(s: string, site: Site, vars: Vars): Param {
    var binding := Lookup(vars, s);
    if binding.Some? then HexNumber(binding.value)
    else if s == TARGET then Number(site.addr as real)
    else if s == CHA then Number(site.ctx.cha as real)
    else if s == CORETHREAD then Number((site.ctx.core * 2 + site.ctx.thread) as real)
    else if s == CORE then Number(site.ctx.core as real)
    else if IsHexLiteral(s) then HexNumber(s)
    else Text(s)
  }

  function ResolveParam(p: Param, site: Site, vars: Vars): Param {
    if p.Text? then ResolveText(p.s, site, vars) else p
  }

  /** The parameters a command should run with. */
  function ResolveAll(ps: seq<Param>, site: Site, vars: Vars): (r: seq<Param>)
    ensures |r| == |ps|
  {
    seq(|ps|, i requires 0 <= i < |ps| => ResolveParam(ps[i], site, vars))
  }

  /** What a text stands for when no variable is named like it: the socket's address, an index of
      the loops, its own hexadecimal value (which a double holds below 2^53), or itself. */
  predicate StandsFor(s: string, site: Site, p: Param) {
    if s == "Target" then p == Number(site.addr as real)
    else if s == "CHA" then p == Number(site.ctx.cha as real)
    else if s == "Core" then p == Number(site.ctx.core as real)
    else if s == "(CORE*2)+THREAD" then p == Number((2 * site.ctx.core + site.ctx.thread) as real)
    else if |s| > 2 && s[..2] == "0x" && AllDigits(s[2..]) then
      p.Number? && (Value(s[2..], Sixteen) < TWO_TO_THE_53 ==> p.value == Value(s[2..], Sixteen) as real)
    else p == Text(s)
  }

  /** Placeholders, literals and plain text resolve to what they stand for; a variable of the same
      name comes first, with the value of its text. */
  lemma TextsStandFor(s: string, site: Site, vars: Vars)
    ensures Lookup(vars, s).None? ==> StandsFor(s, site, ResolveText(s, site, vars))
    ensures forall v: nat :: v < TWO_TO_THE_53 && Lookup(vars, s) == Some("0x" + Digits(v, Sixteen)) ==>
              ResolveText(s, site, vars) == Number(v as real)
  {
    hide Value, DigitValue, Digits, ToDouble;
    if Lookup(vars, s).None? && |s| > 2 && s[..2] == "0x" && AllDigits(s[2..])
       && Value(s[2..], Sixteen) < TWO_TO_THE_53 {
      assert s == "0x" + s[2..];
      ParseDigits(s[2..]);
      ToDoubleExact(Value(s[2..], Sixteen));
    }
    forall v: nat | v < TWO_TO_THE_53 && Lookup(vars, s) == Some("0x" + Digits(v, Sixteen))
      ensures ResolveText(s, site, vars) == Number(v as real)
    {
      ParsePrintHex(v);
      ToDoubleExact(v);
    }
  }

  /** The last parameter left as text, which commands read as their string operand. */
  function StringOperand(resolved: seq<Param>, default: string): string {
    if resolved == [] then default
    else if resolved[|resolved| - 1].Text? then resolved[|resolved| - 1].s
    else StringOperand(resolved[..|resolved| - 1], default)
  }

  /******* Rewriting in place *******/

  /** The positions UpdateParams records: variables and placeholders, but not hex literals. */
  predicate IsTracked(p: Param, vars: Vars) {
    p.Text? && (Lookup(vars, p.s).Some? || IsPlaceholder(p.s))
  }

  function TrackAll(ps: seq<Param>, vars: Vars): seq<Tracked> {
    if ps == [] then []
    else
      var last := ps[|ps| - 1];
      TrackAll(ps[..|ps| - 1], vars) + (if IsTracked(last, vars) then [Tracked(last.s, |ps| - 1)] else [])
  }

  /** One position of the list. */
  method UpdateParam(site: Site, c: CmdInOut, pos: nat)
    requires pos < |c.params.items|
    modifies c`paramsTracker, c`out, c.params
    ensures c.params.items ==
            old(c.params.items)[pos := ResolveParam(old(c.params.items)[pos], site, c.internalVars)]
    ensures c.paramsTracker == old(c.paramsTracker) +
            (if IsTracked(old(c.params.items)[pos], c.internalVars)
             then [Tracked(old(c.params.items)[pos].s, pos)] else [])
    ensures c.out == if c.params.items[pos].Text? then old(c.out).(stringVal := c.params.items[pos].s)
                     else old(c.out)
  {
    var param := c.params.items[pos];
    if param.Text? {
      var s := param.s;
      var internalVar := Lookup(c.internalVars, s);
      if internalVar.Some? {
        c.paramsTracker := c.paramsTracker + [Tracked(s, pos)];
        c.params.items := c.params.items[pos := HexNumber(internalVar.value)];
      } else if s == TARGET {
        c.paramsTracker := c.paramsTracker + [Tracked(TARGET, pos)];
        c.params.items := c.params.items[pos := Number(site.addr as real)];
      } else if s == CHA {
        c.paramsTracker := c.paramsTracker + [Tracked(CHA, pos)];
        c.params.items := c.params.items[pos := Number(site.ctx.cha as real)];
      } else if s == CORETHREAD {
        c.paramsTracker := c.paramsTracker + [Tracked(CORETHREAD, pos)];
        c.params.items := c.params.items[pos := Number((site.ctx.core * 2 + site.ctx.thread) as real)];
      } else if s == CORE {
        c.paramsTracker := c.paramsTracker + [Tracked(CORE, pos)];
        c.params.items := c.params.items[pos := Number(site.ctx.core as real)];
      } else if IsHexLiteral(s) {
        c.params.items := c.params.items[pos := HexNumber(s)];
      } else {
        c.out := c.out.(stringVal := s);
      }
    }
  }

  lemma Splice<T>(before: seq<T>, after: seq<T>, pos: nat)
    requires pos < |before| == |after|
    ensures (after[..pos] + before[pos..])[pos] == before[pos]
    ensures (after[..pos] + before[pos..])[pos := after[pos]] == after[..pos + 1] + before[pos + 1..]
  {
  }

  lemma TrackOneMore(ps: seq<Param>, vars: Vars, pos: nat)
    requires pos < |ps|
    ensures TrackAll(ps[..pos + 1], vars) ==
            TrackAll(ps[..pos], vars) + (if IsTracked(ps[pos], vars) then [Tracked(ps[pos].s, pos)] else [])
  {
    assert ps[..pos + 1][..pos] == ps[..pos];
  }

  lemma StringOperandOneMore(resolved: seq<Param>, default: string, pos: nat)
    requires pos < |resolved|
    ensures StringOperand(resolved[..pos + 1], default) ==
            if resolved[pos].Text? then resolved[pos].s else StringOperand(resolved[..pos], default)
  {
    assert resolved[..pos + 1][..pos] == resolved[..pos];
  }

  method UpdateParams(site: Site, c: CmdInOut)
    modifies c`paramsTracker, c`out, c.params
    ensures c.params.items == ResolveAll(old(c.params.items), site, c.internalVars)
    ensures c.paramsTracker == old(c.paramsTracker) + TrackAll(old(c.params.items), c.internalVars)
    ensures c.out == old(c.out).(stringVal := StringOperand(c.params.items, old(c.out).stringVal))
  {
    ghost var ps := c.params.items;
    ghost var done := ResolveAll(ps, site, c.internalVars);
    for pos := 0 to |c.params.items|
      invariant |c.params.items| == |ps|
      invariant c.params.items == done[..pos] + ps[pos..]
      invariant c.paramsTracker == old(c.paramsTracker) + TrackAll(ps[..pos], c.internalVars)
      invariant c.out == old(c.out).(stringVal := StringOperand(done[..pos], old(c.out).stringVal))
    {
      Splice(ps, done, pos);
      TrackOneMore(ps, c.internalVars, pos);
      StringOperandOneMore(done, old(c.out).stringVal, pos);
      UpdateParam(site, c, pos);
    }
    assert ps[..|ps|] == ps && done[..|ps|] == done;
  }

  /** The list after the tracked positions have been turned back into text, in tracker order. */
  function Restore(ps: seq<Param>, tracker: seq<Tracked>): (r: seq<Param>)
    ensures |r| == |ps|
  {
    if tracker == [] then ps
    else
      var last := tracker[|tracker| - 1];
      var r := Restore(ps, tracker[..|tracker| - 1]);
      if last.pos < |r| then r[last.pos := Text(last.name)] else r
  }

  method ResetParams(params: ParamList, paramsTracker: seq<Tracked>)
    modifies params
    ensures params.items == Restore(old(params.items), paramsTracker)
  {
    assert paramsTracker[..0] == [];
    for i := 0 to |paramsTracker|
      invariant params.items == Restore(old(params.items), paramsTracker[..i])
    {
      var it := paramsTracker[i];
      assert paramsTracker[..i + 1][..i] == paramsTracker[..i];
      if it.pos < |params.items| {
        params.items := params.items[it.pos := Text(it.name)];
      }
    }
    assert paramsTracker[..|paramsTracker|] == paramsTracker;
  }

  /******* One visit *******/

  /** A hex literal once it has been turned into its own value; anything else unchanged. */
  function Settle(p: Param, vars: Vars): Param {
    if p.Text? && IsHexLiteral(p.s) && Lookup(vars, p.s).None? then HexNumber(p.s) else p
  }

  /** A hex literal resolves to its own value unless a variable of that name hides it. */
  lemma ResolveLiteral(s: string, site: Site, vars: Vars)
    requires IsHexLiteral(s)
    ensures !IsPlaceholder(s)
    ensures ResolveText(s, site, vars) ==
            if Lookup(vars, s).Some? then HexNumber(Lookup(vars, s).value) else HexNumber(s)
  {
  }

  lemma UntrackedSettles(p: Param, site: Site, vars: Vars)
    ensures IsTracked(p, vars) ==> Settle(p, vars) == p
    ensures !IsTracked(p, vars) ==> ResolveParam(p, site, vars) == Settle(p, vars)
  {
  }

  lemma {:induction false} RestoreTracked(ps: seq<Param>, r: seq<Param>, vars: Vars, n: nat, i: nat)
    requires n <= |ps| == |r| && i < |ps|
    ensures Restore(r, TrackAll(ps[..n], vars))[i] == if i < n && IsTracked(ps[i], vars) then ps[i] else r[i]
  {
    hide IsTracked, Restore, TrackAll;
    if n == 0 {
      RestoreNone(r, vars);
      assert ps[..0] == [];
    } else {
      RestoreTracked(ps, r, vars, n - 1, i);
      TrackOneMore(ps, vars, n - 1);
      if IsTracked(ps[n - 1], vars) {
        TrackedIsText(ps[n - 1], vars);
        RestoreOneMore(r, TrackAll(ps[..n - 1], vars), Tracked(ps[n - 1].s, n - 1));
      } else {
        assert TrackAll(ps[..n - 1], vars) + [] == TrackAll(ps[..n - 1], vars);
      }
    }
  }

  lemma RestoreNone(r: seq<Param>, vars: Vars)
    ensures TrackAll([], vars) == [] && Restore(r, []) == r
  {
  }

  lemma TrackedIsText(p: Param, vars: Vars)
    requires IsTracked(p, vars)
    ensures p.Text?
  {
  }

  lemma RestoreOneMore(ps: seq<Param>, tracker: seq<Tracked>, t: Tracked)
    requires t.pos < |ps|
    ensures Restore(ps, tracker + [t]) == Restore(ps, tracker)[t.pos := Text(t.name)]
  {
    assert (tracker + [t])[..|tracker|] == tracker;
  }

  /** Update followed by Reset leaves the list as it was, except that hex literals which named
      no variable have become their numeric value - even when a placeholder occurs twice. */
  lemma UpdateThenReset(ps: seq<Param>, site: Site, vars: Vars)
    ensures Restore(ResolveAll(ps, site, vars), TrackAll(ps, vars)) ==
            seq(|ps|, i requires 0 <= i < |ps| => Settle(ps[i], vars))
  {
    hide ResolveText, Lookup, IsPlaceholder, IsHexLiteral;
    assert ps[..|ps|] == ps;
    forall i | 0 <= i < |ps|
      ensures Restore(ResolveAll(ps, site, vars), TrackAll(ps, vars))[i] == Settle(ps[i], vars)
    {
      RestoreTracked(ps, ResolveAll(ps, site, vars), vars, |ps|, i);
      UntrackedSettles(ps[i], site, vars);
    }
  }

  /******* Any number of visits *******/

  datatype Visit = Visit(site: Site, vars: Vars)

  /** The shared list after one command visit. */
  function AfterVisit(ps: seq<Param>, v: Visit): (r: seq<Param>)
    ensures |r| == |ps|
  {
    Restore(ResolveAll(ps, v.site, v.vars), TrackAll(ps, v.vars))
  }

  function AfterVisits(ps: seq<Param>, visits: seq<Visit>): (r: seq<Param>)
    ensures |r| == |ps|
  {
    if visits == [] then ps
    else AfterVisit(AfterVisits(ps, visits[..|visits| - 1]), visits[|visits| - 1])
  }

  predicate IsUnboundLiteral(p: Param, vars: Vars) {
    p.Text? && IsHexLiteral(p.s) && Lookup(vars, p.s).None?
  }

  /** Some visit finds the parameter to be a literal that names no variable. */
  ghost predicate Frozen(p: Param, visits: seq<Visit>) {
    exists j :: 0 <= j < |visits| && IsUnboundLiteral(p, visits[j].vars)
  }

  lemma FrozenSnoc(p: Param, visits: seq<Visit>, v: Visit)
    ensures Frozen(p, visits + [v]) <==> Frozen(p, visits) || IsUnboundLiteral(p, v.vars)
  {
    var more := visits + [v];
    if j :| 0 <= j < |visits| && IsUnboundLiteral(p, visits[j].vars) {
      assert more[j] == visits[j];
    }
    if IsUnboundLiteral(p, v.vars) {
      assert more[|visits|] == v;
    }
  }

  /** The shared list differs from the original exactly in the hex literals that some visit
      found unbound; those have become their own numeric value. */
  lemma {:induction false} AfterVisitsAt(ps: seq<Param>, visits: seq<Visit>, i: nat)
    requires i < |ps|
    ensures AfterVisits(ps, visits)[i] == if Frozen(ps[i], visits) then HexNumber(ps[i].s) else ps[i]
  {
    hide IsHexLiteral, HexNumber, Lookup, AfterVisit;
    if visits == [] {
      assert !Frozen(ps[i], []);
    } else {
      var before, v := visits[..|visits| - 1], visits[|visits| - 1];
      AfterVisitsAt(ps, before, i);
      AfterVisitSettles(AfterVisits(ps, before), v, i);
      if ps[i].Text? {
        NumberOfLiteral(ps[i].s);
      }
      assert visits == before + [v];
      FrozenSnoc(ps[i], before, v);
    }
  }

  lemma AfterVisitSettles(ps: seq<Param>, v: Visit, i: nat)
    requires i < |ps|
    ensures AfterVisit(ps, v)[i] == Settle(ps[i], v.vars)
  {
    hide Settle, ResolveAll, TrackAll, Restore;
    UpdateThenReset(ps, v.site, v.vars);
  }

  /** A variable named like the literal, with another value, is visible. */
  predicate Captures(p: Param, vars: Vars) {
    p.Text? && Lookup(vars, p.s).Some? && HexNumber(Lookup(vars, p.s).value) != HexNumber(p.s)
  }

  /** No visit finds a variable that captures one of the literals after an earlier visit has
      already turned that literal into a number. */
  ghost predicate NoCapturedLiteral(ps: seq<Param>, visits: seq<Visit>) {
    forall i, k :: 0 <= i < |ps| && 0 <= k < |visits| ==>
      !(Frozen(ps[i], visits[..k]) && Captures(ps[i], visits[k].vars))
  }

  /** Visit k runs with exactly the parameters that the original list resolves to. */
  ghost predicate RunsAsResolved(ps: seq<Param>, visits: seq<Visit>, k: nat)
    requires k < |visits|
  {
    ResolveAll(AfterVisits(ps, visits[..k]), visits[k].site, visits[k].vars) ==
    ResolveAll(ps, visits[k].site, visits[k].vars)
  }

  lemma VisitAt(ps: seq<Param>, visits: seq<Visit>, k: nat, i: nat)
    requires k < |visits| && i < |ps|
    ensures ResolveParam(AfterVisits(ps, visits[..k])[i], visits[k].site, visits[k].vars) ==
            ResolveParam(ps[i], visits[k].site, visits[k].vars)
            <==> !(Frozen(ps[i], visits[..k]) && Captures(ps[i], visits[k].vars))
  {
    hide IsHexLiteral, HexNumber, Lookup, AfterVisits, ResolveText;
    AfterVisitsAt(ps, visits[..k], i);
    if Frozen(ps[i], visits[..k]) {
      ResolveLiteral(ps[i].s, visits[k].site, visits[k].vars);
      assert HexNumber(ps[i].s).Number? by { NumberOfLiteral(ps[i].s); }
    }
  }

  lemma NumberOfLiteral(s: string)
    ensures HexNumber(s).Number?
  {
  }

  /** Refinement, exactly: every visit of a sequence runs with the parameters the pure resolver
      computes from the original list if and only if no literal is captured by a variable. */
  lemma RewritingRefinesResolver(ps: seq<Param>, visits: seq<Visit>)
    ensures (forall k :: 0 <= k < |visits| ==> RunsAsResolved(ps, visits, k)) <==> NoCapturedLiteral(ps, visits)
  {
    hide ResolveParam, AfterVisits, Frozen, Captures;
    forall k | 0 <= k < |visits|
      ensures RunsAsResolved(ps, visits, k) <==>
              forall i :: 0 <= i < |ps| ==>
                !(Frozen(ps[i], visits[..k]) && Captures(ps[i], visits[k].vars))
    {
      var cur := AfterVisits(ps, visits[..k]);
      var a, b := ResolveAll(cur, visits[k].site, visits[k].vars), ResolveAll(ps, visits[k].site, visits[k].vars);
      forall i | 0 <= i < |ps|
        ensures a[i] == b[i] <==> !(Frozen(ps[i], visits[..k]) && Captures(ps[i], visits[k].vars))
      {
        VisitAt(ps, visits, k, i);
      }
      assert a == b <==> forall i :: 0 <= i < |ps| ==> a[i] == b[i];
    }
  }

  /** It does happen: a literal is evaluated in one visit and captured by a variable of the same
      name in the next, which then runs with 1 instead of 2. */
  lemma LiteralCaptured(site: Site)
    ensures var ps, vars := [Text("0x1")], [Binding("0x1", "0x2")];
            var visits := [Visit(site, []), Visit(site, vars)];
            && !NoCapturedLiteral(ps, visits) && !RunsAsResolved(ps, visits, 1)
            && ResolveAll(ps, site, vars) == [Number(2.0)]
            && ResolveAll(AfterVisits(ps, visits[..1]), site, vars) == [Number(1.0)]
  {
    var ps, vars := [Text("0x1")], [Binding("0x1", "0x2")];
    var first := Visit(site, []);
    var visits := [first, Visit(site, vars)];
    SmallLiterals();
    assert Lookup([], "0x1") == None && Lookup(vars, "0x1") == Some("0x2");
    assert ResolveText("0x1", site, vars) == HexNumber("0x2");
    hide IsHexLiteral, HexNumber, ResolveText, AfterVisits, Lookup;
    assert visits[..1] == [first] && [first][..0] == [];
    assert IsUnboundLiteral(ps[0], [first][0].vars);
    AfterVisitsAt(ps, [first], 0);
    assert Frozen(ps[0], [first]);
    assert AfterVisits(ps, [first]) == [Number(1.0)];
    assert Captures(ps[0], visits[1].vars);
    assert ResolveAll(ps, site, vars) == [Number(2.0)];
    assert ResolveAll([Number(1.0)], site, vars) == [Number(1.0)];
  }

  lemma SmallLiterals()
    ensures IsHexLiteral("0x1") && HexNumber("0x1") == Number(1.0) && HexNumber("0x2") == Number(2.0)
  {
    assert Digits(1, Sixteen) == "1" && Digits(2, Sixteen) == "2";
    ParsePrintHex(1);
    ParsePrintHex(2);
    ToDoubleExact(1);
    ToDoubleExact(2);
  }

  /** No variable is named like a hex literal. */
  predicate PlainNames(vars: Vars) {
    forall i :: 0 <= i < |vars| ==> !IsHexLiteral(vars[i].name)
  }

  /** The shared list cur is the original list with some hex literals already evaluated. */
  ghost predicate SameTemplate(original: seq<Param>, cur: seq<Param>) {
    && |cur| == |original|
    && forall i :: 0 <= i < |cur| ==>
         || cur[i] == original[i]
         || (original[i].Text? && IsHexLiteral(original[i].s) && cur[i] == HexNumber(original[i].s))
  }

  /** The step form of the refinement, for inputs whose variables have plain names: one visit
      computes the right parameters and preserves the relation to the original list. */
  lemma VisitRefines(original: seq<Param>, cur: seq<Param>, site: Site, vars: Vars)
    requires SameTemplate(original, cur) && PlainNames(vars)
    ensures ResolveAll(cur, site, vars) == ResolveAll(original, site, vars)
    ensures SameTemplate(original, AfterVisit(cur, Visit(site, vars)))
  {
    hide IsHexLiteral, HexNumber, Lookup, AfterVisit, ResolveText;
    var a, b := ResolveAll(cur, site, vars), ResolveAll(original, site, vars);
    forall i | 0 <= i < |cur|
      ensures a[i] == b[i]
      ensures AfterVisit(cur, Visit(site, vars))[i] == Settle(cur[i], vars)
    {
      AfterVisitSettles(cur, Visit(site, vars), i);
      if original[i].Text? && IsHexLiteral(original[i].s) {
        LookupNamed(vars, original[i].s);
        ResolveLiteral(original[i].s, site, vars);
        NumberOfLiteral(original[i].s);
      }
    }
    forall s ensures HexNumber(s).Number? {
      NumberOfLiteral(s);
    }
  }

  /** Loop flags (ReadLoops): present keys turn a loop on, whatever their value. */
  datatype LoopOnFlags = LoopOnFlags(cpu: bool, cha: bool, core: bool, thread: bool)

  function ReadLoops(keys: seq<string>): LoopOnFlags {
    LoopOnFlags("LoopOnCPU" in keys, "LoopOnCHA" in keys, "LoopOnCore" in keys, "LoopOnThread" in keys)
  }
}
