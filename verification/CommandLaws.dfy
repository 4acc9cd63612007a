/** What each command of the table does, by its name: the result it leaves in the output record
    and the variable it stores. */
module CommandLaws {
  import opened Numerals
  import opened Logger
  import opened LoggerLaws
  import opened CmdInOut
  import opened InputParser
  import Commands
  import opened Flow
  import opened FlowEntries
  import opened RunLaws

  /** Commands whose result comes from the bus and is always stored. */
  predicate IsStoring(key: string) {
    || key == "CrashDump_GetFrame" || key == "RdEndpointConfigMMIO" || key == "RdPCIConfigLocal"
    || key == "RdEndpointConfigPCILocal" || key == "WrEndPointConfigPciLocal" || key == "RdIAMSR"
    || key == "RdPkgConfig" || key == "RdPkgConfigCore"
  }

  /** Those that store nothing. */
  predicate IsReading(key: string) { key == "Ping" || key == "GetCPUID" || key == "RdGlobalVars" }

  /** Those that write to the output tree. */
  predicate IsDumping(key: string) { key == "LogBigCore" || key == "LogTor" || key == "LogCrashlog" }

  /** Any name of the table. */
  predicate IsKnown(key: string) {
    || IsStoring(key) || IsReading(key) || IsDumping(key)
    || key == "CrashDump_Discovery" || key == "Telemetry_Discovery" || key == "SaveStrVars"
    || key == "RdAndConcatenate" || key == "RdPostEnumBus" || key == "RdChaCount"
  }

  /** The text kept of a result: 64 bits if it has eight bytes, else its low word. */
  function ResultText(out: Out): string {
    "0x" + Digits(if out.size == 8 then out.val else out.val % 0x1_0000_0000, Sixteen)
  }

  /** The text is appended under the command's name, if it has one; so a name that was free is
      bound to it from then on. */
  predicate Stores(name: Option<string>, vars: Vars, vars': Vars, text: string) {
    && vars' == (if name.Some? then vars + [Binding(name.value, text)] else vars)
    && (name.Some? && Lookup(vars, name.value).None? ==> Lookup(vars', name.value) == Some(text))
  }

  /** An answer from the bus: the record is replaced and text is stored; a list of parameters
      that was rejected leaves everything but the size. */
  predicate FromBus(name: Option<string>, a: Commands.State, b: Commands.State, answer: Commands.Answer, error: bool) {
    match answer
    case Rejected(size) => b == a.(out := a.out.(size := size))
    case Done(out) =>
      b.out == out && Stores(name, a.vars, b.vars, if error then "PECI_RETURN_ERROR" else ResultText(out))
  }

  /** A result computed here: a success, stored under the command's name. */
  predicate IsComputed(name: Option<string>, a: Commands.State, b: Commands.State, size: Byte, val: Uint64) {
    && b.out == a.out.(size := size, val := val, ret := PECI_CC_SUCCESS, cc := PECI_DEV_CC_SUCCESS)
    && Stores(name, a.vars, b.vars, ResultText(b.out))
  }

  /** Parameter i as a 32-bit number; zero if it is missing or not such a number. */
  function NumberAt(ps: seq<Param>, i: nat): (n: nat)
    ensures n < 0x1_0000_0000
  {
    if i < |ps| && ps[i].Number? && 0.0 <= ps[i].value < 4294967296.0 then ps[i].value.Floor else 0
  }

  /** The set bits of a 32-bit number. */
  function SetBits(n: nat): nat { |set i | 0 <= i < 32 && Bit(n, i)| }

  function LowWord(val: Uint64, low: nat): Uint64
    requires low < 0x1_0000_0000
  {
    val / 0x1_0000_0000 * 0x1_0000_0000 + low
  }

  /** The valid bits, the bus numbers, the bit to look at and the shift, as C defines them. */
  predicate IsBusQuery(ps: seq<Param>, valid: nat, bus: nat, bit: nat, shift: nat) {
    && valid < 0x1_0000_0000 && bus < 0x1_0000_0000 && bit < 64 && shift < 32
    && ps == [Number(valid as real), Number(bus as real), Number(bit as real), Number(shift as real)]
  }

  /** What a command makes of the record and the variables, by its name. */
  ghost predicate DoesAsNamed(key: string, name: Option<string>, ps: seq<Param>, a: Commands.State, b: Commands.State,
                              answer: Commands.Answer)
  {
    && (IsStoring(key) ==> FromBus(name, a, b, answer, false))
    && (key == "CrashDump_Discovery" ==> FromBus(name, a, b, answer, answer.Done? && answer.out.ret != PECI_CC_SUCCESS))
    && (key == "Telemetry_Discovery" ==> FromBus(name, a, b, answer, answer.Done? && !IsGood(answer.out)))
    && (IsReading(key) ==>
          b == if answer.Done? then Commands.State(answer.out, a.vars) else a.(out := a.out.(size := answer.size)))
    && (IsDumping(key) ==> b == a.(out := a.out.(size := 1)))
    && (key == "SaveStrVars" ==>
          b == a.(out := a.out.(ret := PECI_CC_SUCCESS, cc := PECI_DEV_CC_SUCCESS, printString := true)))
    && (key == "RdAndConcatenate" ==>
          if |ps| > 2 then b == a
          else IsComputed(name, a, b, 8, NumberAt(ps, 1) * 0x1_0000_0000 + NumberAt(ps, 0)))
    && (key == "RdChaCount" ==>
          if |ps| > 2 then b == a
          else SetBits(NumberAt(ps, 0)) + SetBits(NumberAt(ps, 1)) <= 64
               && IsComputed(name, a, b, 1,
                             LowWord(a.out.val, SetBits(NumberAt(ps, 0)) + SetBits(NumberAt(ps, 1)))))
    && (key == "RdPostEnumBus" && |ps| > 4 ==> b == a)
    && (key == "RdPostEnumBus" ==>
          forall valid: nat, bus: nat, bit: nat, shift: nat | IsBusQuery(ps, valid, bus, bit, shift) ::
            IsComputed(name, a, b, 1, LowWord(a.out.val, if Bit(valid, bit) then bus / Pow2(shift) % 256 else 0)))
    && (!IsKnown(key) ==> b == a)
  }

  /******* Counting bits *******/

  lemma {:induction false} PopcountCounts(n: nat, width: nat)
    requires n < Pow2(width)
    ensures Popcount(n) == |set i | 0 <= i < width && Bit(n, i)|
  {
    var bits := set i | 0 <= i < width && Bit(n, i);
    if width == 0 {
      assert bits == {};
    } else {
      var rest := set i | 0 <= i < width - 1 && Bit(n / 2, i);
      PopcountCounts(n / 2, width - 1);
      ShiftSet(rest, width - 1);
      var shifted := set i | i in rest :: i + 1;
      forall i | 0 <= i < width - 1 ensures Bit(n, i + 1) <==> Bit(n / 2, i) {
        BitShift(n, i);
      }
      assert Bit(n, 0) <==> n % 2 == 1;
      forall i ensures i in bits <==> i in shifted || (i == 0 && n % 2 == 1) {
        if 1 <= i < width {
          assert i - 1 in rest <==> Bit(n / 2, i - 1);
        }
      }
      assert bits == if n % 2 == 1 then shifted + {0} else shifted;
      assert 0 !in shifted;
      assert Popcount(n) == n % 2 + Popcount(n / 2);
    }
  }

  lemma BitShift(n: nat, i: nat)
    ensures Bit(n, i + 1) <==> Bit(n / 2, i)
  {
    var p := Pow2(i);
    var q, r := n / 2 / p, n / 2 % p;
    assert n / 2 == q * p + r;
    var qp := q * p;
    assert q * (2 * p) == 2 * qp;
    UniqueQuotient(n, 2 * p, q, 2 * r + n % 2);
  }

  lemma {:induction false} ShiftSet(s: set<int>, width: nat)
    requires forall i :: i in s ==> 0 <= i < width
    ensures |set i | i in s :: i + 1| == |s|
    decreases |s|
  {
    var t := set i | i in s :: i + 1;
    if x :| x in s {
      var s' := s - {x};
      var t' := set i | i in s' :: i + 1;
      ShiftSet(s', width);
      forall i ensures i in t <==> i in t' || i == x + 1 {
        if i in t && i != x + 1 {
          assert i - 1 in s';
        }
      }
      assert x + 1 !in t';
      assert t == t' + {x + 1};
    } else {
      assert |s| == 0 && |t| == 0 by {
        assert forall x: int :: x !in s;
        assert forall x: int :: x !in t;
        assert s == {} && t == {};
      }
    }
  }

  /******* The laws *******/

  lemma BoundWhenFree(name: Option<string>, vars: Vars, text: string)
    ensures Stores(name, vars, if name.Some? then vars + [Binding(name.value, text)] else vars, text)
  {
    if name.Some? {
      LookupAppend(vars, [Binding(name.value, text)], name.value);
    }
  }

  lemma StoresText(name: Option<string>, vars: Vars, out: Out)
    ensures Commands.VarText(out) == ResultText(out)
    ensures Stores(name, vars, Commands.Store(vars, name, Commands.VarText(out)), ResultText(out))
    ensures Stores(name, vars, Commands.Store(vars, name, "PECI_RETURN_ERROR"), "PECI_RETURN_ERROR")
  {
    hide Digits, Stores;
    BoundWhenFree(name, vars, ResultText(out));
    BoundWhenFree(name, vars, "PECI_RETURN_ERROR");
  }

  lemma BusLaw(storing: Commands.Storing, name: Option<string>, a: Commands.State, answer: Commands.Answer)
    requires storing != Commands.StoreNever
    ensures var error := answer.Done? && match storing
                         case StoreUnlessRetFails => answer.out.ret != PECI_CC_SUCCESS
                         case StoreUnlessFailed => !IsGood(answer.out)
                         case _ => false;
            FromBus(name, a, Commands.Answered(storing, name, a, answer), answer, error)
  {
    hide Stores, Commands.Store, Commands.VarText, ResultText;
    if answer.Done? {
      StoresText(name, a.vars, answer.out);
    }
  }

  lemma ComputedLaw(name: Option<string>, a: Commands.State, size: Byte, val: Uint64)
    ensures IsComputed(name, a, Commands.Computed(a, name, size, val), size, val)
  {
    hide Stores, Commands.Store, Commands.VarText, ResultText;
    StoresText(name, a.vars, Commands.Succeed(a.out, size, val));
  }

  lemma Operands(ps: seq<Param>, i: nat)
    ensures Commands.AsUint32(Commands.Operand(ps, i)) == NumberAt(ps, i)
  {
  }

  lemma CountLaw(ps: seq<Param>)
    ensures Commands.CountCha(ps) == SetBits(NumberAt(ps, 0)) + SetBits(NumberAt(ps, 1))
  {
    hide Popcount, Bit, Pow2;
    Pow2Of32();
    Operands(ps, 0);
    Operands(ps, 1);
    PopcountCounts(NumberAt(ps, 0), 32);
    PopcountCounts(NumberAt(ps, 1), 32);
  }

  lemma ConcatenateLaw(name: Option<string>, ps: seq<Param>, a: Commands.State, answer: Commands.Answer)
    requires |ps| <= 2
    ensures IsComputed(name, a, Commands.Effect(Commands.Concatenate, ps, name, a, answer), 8,
                       NumberAt(ps, 1) * 0x1_0000_0000 + NumberAt(ps, 0))
  {
    hide IsComputed, Commands.Computed;
    Operands(ps, 0);
    Operands(ps, 1);
    ComputedLaw(name, a, 8, NumberAt(ps, 1) * 0x1_0000_0000 + NumberAt(ps, 0));
  }

  lemma ChaLaw(name: Option<string>, ps: seq<Param>, a: Commands.State, answer: Commands.Answer)
    requires |ps| <= 2
    ensures SetBits(NumberAt(ps, 0)) + SetBits(NumberAt(ps, 1)) <= 64
    ensures IsComputed(name, a, Commands.Effect(Commands.ChaCount, ps, name, a, answer), 1,
                       LowWord(a.out.val, SetBits(NumberAt(ps, 0)) + SetBits(NumberAt(ps, 1))))
  {
    hide IsComputed, Commands.Computed, SetBits, NumberAt;
    CountLaw(ps);
    hide Commands.CountCha;
    ComputedLaw(name, a, 1, LowWord(a.out.val, SetBits(NumberAt(ps, 0)) + SetBits(NumberAt(ps, 1))));
  }

  lemma PostEnumLaw(name: Option<string>, ps: seq<Param>, a: Commands.State, answer: Commands.Answer,
                    valid: nat, bus: nat, bit: nat, shift: nat)
    requires IsBusQuery(ps, valid, bus, bit, shift)
    ensures IsComputed(name, a, Commands.Effect(Commands.PostEnumBus, ps, name, a, answer), 1,
                       LowWord(a.out.val, if Bit(valid, bit) then bus / Pow2(shift) % 256 else 0))
  {
    hide IsComputed, Commands.Computed, Commands.Effect, Commands.SelectBus;
    Commands.EffectOfPostEnumBus(ps, valid, bus, bit, shift, name, a, answer);
    ComputedLaw(name, a, 1, LowWord(a.out.val, if Bit(valid, bit) then bus / Pow2(shift) % 256 else 0));
  }

  /** The table. */
  lemma TableLaw(key: string)
    ensures IsStoring(key) <==> Commands.KindOf(key) == Some(Commands.Bus(Commands.StoreAlways))
    ensures IsReading(key) <==> Commands.KindOf(key) == Some(Commands.Bus(Commands.StoreNever))
    ensures IsDumping(key) <==> Commands.KindOf(key) == Some(Commands.Dump)
  {
  }

  lemma NamesLaw(key: string)
    ensures key == "CrashDump_Discovery" <==> Commands.KindOf(key) == Some(Commands.Bus(Commands.StoreUnlessRetFails))
    ensures key == "Telemetry_Discovery" <==> Commands.KindOf(key) == Some(Commands.Bus(Commands.StoreUnlessFailed))
    ensures key == "SaveStrVars" <==> Commands.KindOf(key) == Some(Commands.SaveStrVars)
    ensures key == "RdAndConcatenate" <==> Commands.KindOf(key) == Some(Commands.Concatenate)
    ensures key == "RdChaCount" <==> Commands.KindOf(key) == Some(Commands.ChaCount)
    ensures key == "RdPostEnumBus" <==> Commands.KindOf(key) == Some(Commands.PostEnumBus)
  {
  }

  lemma UnknownLaw(key: string)
    ensures !IsKnown(key) <==> Commands.KindOf(key).None?
  {
  }

  /** What an effect of a kind is. */
  lemma KindLaw(kind: Commands.Kind, name: Option<string>, ps: seq<Param>, a: Commands.State, answer: Commands.Answer)
    ensures var b := Commands.Effect(kind, ps, name, a, answer);
            match kind
            case Bus(storing) =>
              if storing == Commands.StoreNever then
                b == if answer.Done? then Commands.State(answer.out, a.vars) else a.(out := a.out.(size := answer.size))
              else b == Commands.Answered(storing, name, a, answer)
            case Dump => b == a.(out := a.out.(size := 1))
            case SaveStrVars =>
              b == a.(out := a.out.(ret := PECI_CC_SUCCESS, cc := PECI_DEV_CC_SUCCESS, printString := true))
            case Concatenate => |ps| > 2 ==> b == a
            case ChaCount => |ps| > 2 ==> b == a
            case PostEnumBus => |ps| > 4 ==> b == a
  {
    hide Commands.Computed, Commands.CountCha, Commands.SelectBus, Commands.DefinedShift, Commands.Store;
  }

  /** Every executed step of every run does what its command is named for, to the record and the
      variables before it and with the answer that was next. */
  lemma StepsDoAsNamed(env: Env, st: Event)
    requires st.Step? && st.cmd < |env.cmds| && Executes(env, st) && st.outcome != Skipped
    ensures DoesAsNamed(env.cmds[st.cmd].key, env.cmds[st.cmd].internalVar, st.params, st.before, st.after,
                        env.answers(st.ask))
  {
    hide FromBus, IsComputed, Commands.Effect, Commands.Answered, Commands.KindOf, SetBits, NumberAt, Bit, Pow2, IsGood,
         LowWord, IsBusQuery, IsStoring, IsReading, IsDumping, IsKnown;
    var key, name, ps, a := env.cmds[st.cmd].key, env.cmds[st.cmd].internalVar, st.params, st.before;
    var answer, kind := env.answers(st.ask), Commands.KindOf(env.cmds[st.cmd].key);
    TableLaw(key);
    NamesLaw(key);
    UnknownLaw(key);
    if kind.Some? {
      KindLaw(kind.value, name, ps, a, answer);
      if kind.value.Bus? && kind.value.storing != Commands.StoreNever {
        BusLaw(kind.value.storing, name, a, answer);
      } else if kind.value.Concatenate? && |ps| <= 2 {
        ConcatenateLaw(name, ps, a, answer);
      } else if kind.value.ChaCount? && |ps| <= 2 {
        ChaLaw(name, ps, a, answer);
      } else if kind.value.PostEnumBus? {
        forall valid: nat, bus: nat, bit: nat, shift: nat | IsBusQuery(ps, valid, bus, bit, shift)
          ensures IsComputed(name, a, st.after, 1,
                             LowWord(a.out.val, if Bit(valid, bit) then bus / Pow2(shift) % 256 else 0))
        {
          PostEnumLaw(name, ps, a, answer, valid, bus, bit, shift);
        }
      }
    }
  }

  /** The commands that dump are those of the three names, and what they dump goes to the path of
      the section's tokens in the step's context, and the extra level if the command has one. */
  lemma DumpsAreNamed(env: Env, i: nat, ctx: Context)
    ensures IsDump(env, i) <==> i < |env.cmds| && IsDumping(env.cmds[i].key)
    ensures i < |env.cmds| ==>
              CommandPath(env, i, ctx) ==
              Keys(env.place.tokens, ctx) +
              (if env.cmds[i].output.Some? && env.cmds[i].output.value.extra.Some?
               then [env.cmds[i].output.value.extra.value] else [])
  {
    hide Commands.KindOf, Keys;
    if i < |env.cmds| {
      TableLaw(env.cmds[i].key);
    }
  }

  /** Where repeat n of a named command puts its register: that same path, under the name with the
      index or the number of the repeat, in eight bits, in its place. */
  lemma RegistersArePlaced(env: Env, o: Output, ctx: Context, n: nat, x: string, y: string)
    requires Plain(x) && Plain(y)
    ensures RegisterAt(env, o, ctx, n).0 ==
            Keys(env.place.tokens, ctx) + (if o.extra.Some? then [o.extra.value] else [])
    ensures o.register == x + "%d" + y ==>
              RegisterAt(env, o, ctx, n).1 == x + Dec(NumberShown(x, ctx, n % 256)) + y
    ensures o.register == x ==> RegisterAt(env, o, ctx, n).1 == x
  {
    hide Keys, RegisterName, NumberShown, Digits;
    RegisterNameLaw(x, y, ctx, n % 256);
  }
}
