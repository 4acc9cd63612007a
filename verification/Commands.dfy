/** Command execution (engine/cmdprocessor.c): the dispatch table, the commands that compute
    their result from parameters, and the variables commands store for later ones. What a
    command gets from the bus, or from another part of the collector, is an arbitrary answer. */
module Commands {
  import opened Numerals
  import opened CmdInOut
  import opened InputParser

  const CMD_ERROR_VALUE := "PECI_RETURN_ERROR"

  /** The outcome of the work done outside this file: a command either rejects its parameter
      list (having at most set the size) or leaves an output record behind. */
  datatype Answer = Rejected(size: Byte) | Done(out: Out)

  /** How a bus command treats the variable named in its input-file entry. */
  datatype Storing = StoreAlways | StoreUnlessRetFails | StoreUnlessFailed | StoreNever

  /** The commands of the table, by what this file does for them. A Dump (LogBigCore, LogTor,
      LogCrashlog) hands an item of the output tree to another part of the collector; all it does
      to the output record is to set the size. */
  datatype Kind = Concatenate | PostEnumBus | ChaCount | SaveStrVars | Dump | Bus(storing: Storing)

  /** The command table: names are case-sensitive, and any other name is unknown. */
  function KindOf(key: string): Option<Kind> {
    match key
    case "RdAndConcatenate" => Some(Concatenate)
    case "RdPostEnumBus" => Some(PostEnumBus)
    case "RdChaCount" => Some(ChaCount)
    case "SaveStrVars" => Some(SaveStrVars)
    case "CrashDump_Discovery" => Some(Bus(StoreUnlessRetFails))
    case "Telemetry_Discovery" => Some(Bus(StoreUnlessFailed))
    case "CrashDump_GetFrame" => Some(Bus(StoreAlways))
    case "RdEndpointConfigMMIO" => Some(Bus(StoreAlways))
    case "RdPCIConfigLocal" => Some(Bus(StoreAlways))
    case "RdEndpointConfigPCILocal" => Some(Bus(StoreAlways))
    case "WrEndPointConfigPciLocal" => Some(Bus(StoreAlways))
    case "RdIAMSR" => Some(Bus(StoreAlways))
    case "RdPkgConfig" => Some(Bus(StoreAlways))
    case "RdPkgConfigCore" => Some(Bus(StoreAlways))
    case "Ping" => Some(Bus(StoreNever))
    case "GetCPUID" => Some(Bus(StoreNever))
    case "RdGlobalVars" => Some(Bus(StoreNever))
    case "LogCrashlog" => Some(Dump)
    case "LogBigCore" => Some(Dump)
    case "LogTor" => Some(Dump)
    case _ => None
  }

  /******* Variables *******/

  /** The text UpdateInternalVar keeps: all 64 bits for 8-byte results, else the low word. */
  function VarText(out: Out): string {
    PrintHex(if out.size == 8 then out.val else out.val % TWO_TO_THE_32)
  }

  /** cJSON_AddItemToObject on the tracker; a command without a variable name adds nothing. */
  function Store(vars: Vars, name: Option<string>, text: string): Vars {
    if name.Some? then vars + [Binding(name.value, text)] else vars
  }

  /** The tracker after a bus command has left the record out behind. */
  function StoreAnswer(storing: Storing, vars: Vars, name: Option<string>, out: Out): Vars {
    match storing
    case StoreAlways => Store(vars, name, VarText(out))
    case StoreUnlessRetFails =>
      Store(vars, name, if out.ret != PECI_CC_SUCCESS then CMD_ERROR_VALUE else VarText(out))
    case StoreUnlessFailed =>
      Store(vars, name, if out.Failed() then CMD_ERROR_VALUE else VarText(out))
    case StoreNever => vars
  }

  /******* Numeric operands *******/

  /** (uint32_t)valuedouble, with text and other items reading as zero. A double outside the
      32-bit range has no defined conversion. */
  function AsUint32(p: Param): (n: nat)
    ensures n < TWO_TO_THE_32
  {
    if p.Number? && 0.0 <= p.value < TWO_TO_THE_32 as real then p.value.Floor else 0
  }

  /** cJSON's valueint: truncated, and clipped to the range of int. */
  function AsInt(p: Param): int {
    if !p.Number? then 0
    else if p.value >= 2147483647.0 then 2147483647
    else if p.value <= -2147483648.0 then -2147483648
    else if p.value >= 0.0 then p.value.Floor
    else -((-p.value).Floor)
  }

  /** Parameter i of the list; absent parameters read as zero. */
  function Operand(ps: seq<Param>, i: nat): Param {
    if i < |ps| then ps[i] else Number(0.0)
  }

  /** out with its low or high 32-bit word replaced. */
  function WithLow(val: Uint64, low: nat): Uint64
    requires low < TWO_TO_THE_32
  {
    val / TWO_TO_THE_32 * TWO_TO_THE_32 + low
  }

  function WithHigh(val: Uint64, high: nat): Uint64
    requires high < TWO_TO_THE_32
  {
    high * TWO_TO_THE_32 + val % TWO_TO_THE_32
  }

  lemma WriteWords(val: Uint64, low: nat, high: nat)
    requires low < TWO_TO_THE_32 && high < TWO_TO_THE_32
    ensures WithLow(WithHigh(val, high), low) == high * TWO_TO_THE_32 + low
  {
  }

  function Succeed(out: Out, size: Byte, val: Uint64): Out {
    out.(size := size, val := val, ret := PECI_CC_SUCCESS, cc := PECI_DEV_CC_SUCCESS)
  }

  /******* The effect of one command *******/

  /** The bit index and the shift that C defines: a 64-bit test and a 32-bit shift. */
  predicate DefinedShift(ps: seq<Param>) {
    0 <= AsInt(Operand(ps, 2)) < 64 && 0 <= AsInt(Operand(ps, 3)) % 256 < 32
  }

  function SelectBus(ps: seq<Param>): (n: nat)
    requires DefinedShift(ps)
    ensures n < 256
  {
    if Bit(AsUint32(Operand(ps, 0)), AsInt(Operand(ps, 2)))
    then AsUint32(Operand(ps, 1)) / Pow2(AsInt(Operand(ps, 3)) % 256) % 256 else 0
  }

  function CountCha(ps: seq<Param>): (n: nat)
    ensures n <= 64
  {
    Pow2Of32();
    PopcountBound(AsUint32(Operand(ps, 0)), 32);
    PopcountBound(AsUint32(Operand(ps, 1)), 32);
    Popcount(AsUint32(Operand(ps, 0))) + Popcount(AsUint32(Operand(ps, 1)))
  }

  datatype State = State(out: Out, vars: Vars)

  /** A computed result: reported as a success and kept as a variable. */
  function Computed(st: State, name: Option<string>, size: Byte, val: Uint64): State {
    var out := Succeed(st.out, size, val);
    State(out, Store(st.vars, name, VarText(out)))
  }

  /** The output record and the tracker after a command has run. */
  function Effect(kind: Kind, ps: seq<Param>, name: Option<string>, st: State, answer: Answer): State {
    match kind
    case SaveStrVars =>
      st.(out := st.out.(ret := PECI_CC_SUCCESS, cc := PECI_DEV_CC_SUCCESS, printString := true))
    case Dump => st.(out := st.out.(size := 1))
    case Concatenate =>
      if |ps| > 2 then st
      else Computed(st, name, 8, AsUint32(Operand(ps, 1)) * TWO_TO_THE_32 + AsUint32(Operand(ps, 0)))
    case ChaCount =>
      if |ps| > 2 then st else Computed(st, name, 1, WithLow(st.out.val, CountCha(ps)))
    case PostEnumBus =>
      if |ps| > 4 then st
      else if DefinedShift(ps) then Computed(st, name, 1, WithLow(st.out.val, SelectBus(ps)))
      else Answered(StoreAlways, name, st, answer)  // an undefined shift: any result
    case Bus(storing) => Answered(storing, name, st, answer)
  }

  function Answered(storing: Storing, name: Option<string>, st: State, answer: Answer): State {
    match answer
    case Rejected(size) => st.(out := st.out.(size := size))
    case Done(out) => State(out, StoreAnswer(storing, st.vars, name, out))
  }

  method UpdateInternalVar(c: CmdInOut)
    modifies c`internalVars
    ensures c.internalVars == Store(old(c.internalVars), c.internalVarName, VarText(c.out))
  {
    if c.internalVarName.Some? {
      var jsonItemString := if c.out.size == 8 then PrintHex(c.out.val)
                            else PrintHex(c.out.val % TWO_TO_THE_32);
      c.internalVars := c.internalVars + [Binding(c.internalVarName.value, jsonItemString)];
    }
  }

  method RdAndConcatenate(c: CmdInOut)
    modifies c`out, c`internalVars
    ensures Snapshot(c) == Effect(Concatenate, c.params.items, c.internalVarName, old(Snapshot(c)), Rejected(0))
  {
    var low32BitValue, high32BitValue := 0, 0;
    for position := 0 to |c.params.items|
      invariant c.out == old(c.out) && c.internalVars == old(c.internalVars)
      invariant position <= 2
      invariant low32BitValue == if position > 0 then AsUint32(c.params.items[0]) else 0
      invariant high32BitValue == if position > 1 then AsUint32(c.params.items[1]) else 0
    {
      if position == 0 {
        low32BitValue := AsUint32(c.params.items[position]);
      } else if position == 1 {
        high32BitValue := AsUint32(c.params.items[position]);
      } else {
        return;
      }
    }
    WriteWords(c.out.val, low32BitValue, high32BitValue);
    c.out := c.out.(size := 8, val := WithHigh(c.out.val, high32BitValue));
    c.out := c.out.(val := WithLow(c.out.val, low32BitValue));
    UpdateInternalVar(c);
    c.out := c.out.(ret := PECI_CC_SUCCESS, cc := PECI_DEV_CC_SUCCESS);
  }

  method RdPostEnumBus(c: CmdInOut)
    requires |c.params.items| > 4 || DefinedShift(c.params.items)
    modifies c`out, c`internalVars
    ensures Snapshot(c) == Effect(PostEnumBus, c.params.items, c.internalVarName, old(Snapshot(c)), Rejected(0))
  {
    var cpubusnoValid, cpubusno, bitToCheck, shift := 0, 0, 0, 0;
    for position := 0 to |c.params.items|
      invariant c.out == old(c.out) && c.internalVars == old(c.internalVars)
      invariant position <= 4
      invariant cpubusnoValid == AsUint32(Operand(c.params.items[..position], 0))
      invariant cpubusno == AsUint32(Operand(c.params.items[..position], 1))
      invariant bitToCheck == AsInt(Operand(c.params.items[..position], 2))
      invariant shift == AsInt(Operand(c.params.items[..position], 3)) % 256
    {
      var it := c.params.items[position];
      match position {
        case 0 => cpubusnoValid := AsUint32(it);
        case 1 => cpubusno := AsUint32(it);
        case 2 => bitToCheck := AsInt(it);
        case 3 => shift := AsInt(it) % 256;
        case _ => return;
      }
    }
    assert c.params.items[..|c.params.items|] == c.params.items;
    c.out := c.out.(size := 1);
    if !Bit(cpubusnoValid, bitToCheck) {
      c.out := c.out.(val := WithLow(c.out.val, 0));
    } else {
      c.out := c.out.(val := WithLow(c.out.val, cpubusno / Pow2(shift) % 256));
    }
    UpdateInternalVar(c);
    c.out := c.out.(ret := PECI_CC_SUCCESS, cc := PECI_DEV_CC_SUCCESS);
  }

  method RdChaCount(c: CmdInOut)
    modifies c`out, c`internalVars
    ensures Snapshot(c) == Effect(ChaCount, c.params.items, c.internalVarName, old(Snapshot(c)), Rejected(0))
  {
    if |c.params.items| > 2 {
      return;
    }
    var chaMask0, chaMask1 := AsUint32(Operand(c.params.items, 0)), AsUint32(Operand(c.params.items, 1));
    assert CountCha(c.params.items) <= 64;
    c.out := c.out.(size := 1, val := WithLow(c.out.val, Popcount(chaMask0) + Popcount(chaMask1)));
    UpdateInternalVar(c);
    c.out := c.out.(ret := PECI_CC_SUCCESS, cc := PECI_DEV_CC_SUCCESS);
  }

  /** A command whose result comes from outside. */
  method RunBusCommand(storing: Storing, c: CmdInOut, answer: Answer)
    modifies c`out, c`internalVars
    ensures Snapshot(c) == Answered(storing, c.internalVarName, old(Snapshot(c)), answer)
  {
    match answer {
      case Rejected(size) =>
        c.out := c.out.(size := size);
      case Done(out) =>
        c.out := out;
        if (storing == StoreUnlessRetFails && c.out.ret != PECI_CC_SUCCESS)
           || (storing == StoreUnlessFailed && c.out.Failed()) {
          c.internalVars := Store(c.internalVars, c.internalVarName, CMD_ERROR_VALUE);
        } else if storing != StoreNever {
          UpdateInternalVar(c);
        }
    }
  }

  /** Execute: look the name up in the command table and run the command. */
  method Execute(key: string, c: CmdInOut, answer: Answer)
    modifies c`out, c`internalVars
    ensures Snapshot(c) ==
            if KindOf(key).None? then old(Snapshot(c))
            else Effect(KindOf(key).value, c.params.items, c.internalVarName, old(Snapshot(c)), answer)
  {
    var ep := KindOf(key);
    if ep.None? {
      return;
    }
    match ep.value {
      case Concatenate => RdAndConcatenate(c);
      case ChaCount => RdChaCount(c);
      case SaveStrVars =>
        c.out := c.out.(ret := PECI_CC_SUCCESS, cc := PECI_DEV_CC_SUCCESS, printString := true);
      case Dump => c.out := c.out.(size := 1);
      case PostEnumBus =>
        if |c.params.items| > 4 || DefinedShift(c.params.items) {
          RdPostEnumBus(c);
        } else {
          RunBusCommand(StoreAlways, c, answer);
        }
      case Bus(storing) => RunBusCommand(storing, c, answer);
    }
  }

  function Snapshot(c: CmdInOut): State
    reads c
  {
    State(c.out, c.internalVars)
  }

  /******* What variables mean to later commands *******/

  /** Commands only append to the tracker, so the first store of a name decides its value for
      the rest of the section. */
  lemma FirstStoreWins(kind: Kind, ps: seq<Param>, name: Option<string>, st: State, answer: Answer, v: string)
    ensures st.vars <= Effect(kind, ps, name, st, answer).vars
    ensures Lookup(st.vars, v).Some? ==>
              Lookup(Effect(kind, ps, name, st, answer).vars, v) == Lookup(st.vars, v)
  {
    var vars' := Effect(kind, ps, name, st, answer).vars;
    assert vars' == st.vars + vars'[|st.vars|..];
    LookupAppend(st.vars, vars'[|st.vars|..], v);
  }

  /** A stored value comes back as a numeric parameter unchanged if and only if a double can
      hold it; every value below 2^53, so every 32-bit value, does. */
  lemma StoredValueAsParameter(vars: Vars, name: string, v: nat, site: Site)
    requires v < TWO_TO_THE_64
    requires Lookup(vars, name) == Some(PrintHex(v))
    ensures ResolveText(name, site, vars) == Number(v as real) <==> v % Ulp(v) == 0
    ensures v < TWO_TO_THE_53 ==> ResolveText(name, site, vars) == Number(v as real)
  {
    ParsePrintHex(v);
    ToDoubleExact(v);
  }

  /** Read through valueint instead of valuedouble, a 32-bit value survives only below 2^31. */
  lemma ValueIntClips(v: nat)
    requires v < TWO_TO_THE_32
    ensures AsUint32(Number(v as real)) == v
    ensures AsInt(Number(v as real)) == v <==> v < 0x8000_0000
  {
  }

  /** A list of two names followed by numbers, resolved. */
  lemma ResolvePair(vars: Vars, a: string, b: string, rest: seq<Param>, site: Site)
    requires forall i :: 0 <= i < |rest| ==> rest[i].Number?
    ensures ResolveAll([Text(a), Text(b)] + rest, site, vars) ==
            [ResolveParam(Text(a), site, vars), ResolveParam(Text(b), site, vars)] + rest
  {
    hide ResolveText;
    var r := ResolveAll([Text(a), Text(b)] + rest, site, vars);
    forall i | 0 <= i < |rest| ensures r[i + 2] == rest[i] {
    }
  }

  /** Two variables that hold 32-bit values, read as the first two parameters. */
  lemma VariablesAsParameters(vars: Vars, a: string, m: nat, b: string, n: nat, rest: seq<Param>, site: Site)
    requires m < TWO_TO_THE_32 && n < TWO_TO_THE_32
    requires Lookup(vars, a) == Some(PrintHex(m)) && Lookup(vars, b) == Some(PrintHex(n))
    requires forall i :: 0 <= i < |rest| ==> rest[i].Number?
    ensures ResolveAll([Text(a), Text(b)] + rest, site, vars) == [Number(m as real), Number(n as real)] + rest
  {
    ResolvePair(vars, a, b, rest, site);
    StoredValueAsParameter(vars, a, m, site);
    StoredValueAsParameter(vars, b, n, site);
  }

  lemma EffectOfConcatenate(low: nat, high: nat, name: Option<string>, st: State, answer: Answer)
    requires low < TWO_TO_THE_32 && high < TWO_TO_THE_32
    ensures Effect(Concatenate, [Number(low as real), Number(high as real)], name, st, answer) ==
            Computed(st, name, 8, high * TWO_TO_THE_32 + low)
  {
    ValueIntClips(low);
    ValueIntClips(high);
  }

  /** A computed result: a success with exactly that value, and a variable name that was still
      free is bound to it. */
  predicate ResultIs(st: State, r: State, name: Option<string>, size: Byte, val: Uint64) {
    && r == Computed(st, name, size, val)
    && !r.out.Failed() && r.out.val == val
    && (name.Some? && Lookup(st.vars, name.value).None? ==> Lookup(r.vars, name.value) == Some(PrintHex(val)))
  }

  lemma ComputedIsStored(st: State, name: Option<string>, size: Byte, val: Uint64)
    requires size == 8 || val < TWO_TO_THE_32
    ensures ResultIs(st, Computed(st, name, size, val), name, size, val)
  {
    hide PrintHex;
    if name.Some? {
      LookupAppend(st.vars, [Binding(name.value, PrintHex(val))], name.value);
    }
  }

  /** RdAndConcatenate over two variables that hold 32-bit values yields exactly their
      concatenation, whatever else has been stored and whatever the output record held, and binds
      it to the command's own variable. */
  lemma ConcatenationOfVariables(
    lowName: string, highName: string, low: nat, high: nat,
    site: Site, name: Option<string>, st: State, answer: Answer)
    requires low < TWO_TO_THE_32 && high < TWO_TO_THE_32
    requires Lookup(st.vars, lowName) == Some(PrintHex(low))
    requires Lookup(st.vars, highName) == Some(PrintHex(high))
    ensures ResultIs(st,
                     Effect(Concatenate, ResolveAll([Text(lowName), Text(highName)], site, st.vars), name, st, answer),
                     name, 8, high * TWO_TO_THE_32 + low)
  {
    hide Effect, Computed, ResultIs, ResolveText, PrintHex;
    assert ResolveAll([Text(lowName), Text(highName)], site, st.vars) == [Number(low as real), Number(high as real)]
    by {
      VariablesAsParameters(st.vars, lowName, low, highName, high, [], site);
      assert [Text(lowName), Text(highName)] + [] == [Text(lowName), Text(highName)];
    }
    EffectOfConcatenate(low, high, name, st, answer);
    ComputedIsStored(st, name, 8, high * TWO_TO_THE_32 + low);
  }

  lemma EffectOfPostEnumBus(ps: seq<Param>, valid: nat, bus: nat, bit: nat, shift: nat,
                            name: Option<string>, st: State, answer: Answer)
    requires valid < TWO_TO_THE_32 && bus < TWO_TO_THE_32 && bit < 64 && shift < 32
    requires ps == [Number(valid as real), Number(bus as real), Number(bit as real), Number(shift as real)]
    ensures DefinedShift(ps) && SelectBus(ps) == if Bit(valid, bit) then bus / Pow2(shift) % 256 else 0
    ensures Effect(PostEnumBus, ps, name, st, answer) ==
            Computed(st, name, 1, WithLow(st.out.val, SelectBus(ps)))
  {
    ValueIntClips(valid);
    ValueIntClips(bus);
    ValueIntClips(bit);
    ValueIntClips(shift);
    assert AsInt(Operand(ps, 3)) % 256 == shift;
  }

  /** RdPostEnumBus over two 32-bit variables yields the byte at the shift when the valid bit
      is set and zero otherwise, in the low word of the result, and binds it to the command's
      own variable. */
  lemma PostEnumBusOfVariables(
    validName: string, busName: string, valid: nat, bus: nat, bit: nat, shift: nat,
    site: Site, name: Option<string>, st: State, answer: Answer)
    requires valid < TWO_TO_THE_32 && bus < TWO_TO_THE_32 && bit < 64 && shift < 32
    requires Lookup(st.vars, validName) == Some(PrintHex(valid))
    requires Lookup(st.vars, busName) == Some(PrintHex(bus))
    ensures var ps := ResolveAll(
              [Text(validName), Text(busName)] + [Number(bit as real), Number(shift as real)], site, st.vars);
            var selected := if Bit(valid, bit) then bus / Pow2(shift) % 256 else 0;
            var r := Effect(PostEnumBus, ps, name, st, answer);
            && r == Computed(st, name, 1, WithLow(st.out.val, selected))
            && !r.out.Failed() && r.out.val % TWO_TO_THE_32 == selected
            && (name.Some? && Lookup(st.vars, name.value).None? ==>
                  Lookup(r.vars, name.value) == Some(PrintHex(selected)))
  {
    var fixed := [Number(bit as real), Number(shift as real)];
    var ps := ResolveAll([Text(validName), Text(busName)] + fixed, site, st.vars);
    assert ps == [Number(valid as real), Number(bus as real), Number(bit as real), Number(shift as real)] by {
      VariablesAsParameters(st.vars, validName, valid, busName, bus, fixed, site);
    }
    EffectOfPostEnumBus(ps, valid, bus, bit, shift, name, st, answer);
    LowWordIsStored(st, name, if Bit(valid, bit) then bus / Pow2(shift) % 256 else 0);
  }

  lemma LowWordIsStored(st: State, name: Option<string>, low: nat)
    requires low < TWO_TO_THE_32
    ensures var r := Computed(st, name, 1, WithLow(st.out.val, low));
            && !r.out.Failed() && r.out.val % TWO_TO_THE_32 == low
            && (name.Some? && Lookup(st.vars, name.value).None? ==> Lookup(r.vars, name.value) == Some(PrintHex(low)))
  {
    hide PrintHex;
    if name.Some? {
      LookupAppend(st.vars, [Binding(name.value, PrintHex(low))], name.value);
    }
  }
}
