/** Finding out about the sockets (getCPUData and its helpers in crashdump.cpp), repeatedly, at
    start-up and on events. Answer n of PECI is the answer to read n of the trace. */
module CpuDiscovery {
  import opened Numerals
  import opened CmdInOut
  import opened Models

  /** cpuidState. */
  datatype Source = AtStartup | AtEvent | Invalid | Overwritten

  const ICX_MODEL: Uint32 := 0x606A0
  const SPR_MODEL: Uint32 := 0x806F0
  const ICXD_MODEL: Uint32 := 0x606C0
  const STEPPING_ICX2: Byte := 2

  datatype Status = Status(cc: Byte, ret: int)

  datatype Cpu = Cpu(
    model: Model, cpuModel: Uint32, stepping: Byte, cpuidStatus: Status, cpuidValid: bool, cpuidSource: Source,
    coreMask: Uint64, coreMaskStatus: Status, coreMaskValid: bool, coreMaskSource: Source,
    chaCount: nat, chaCountStatus: Status, chaCountValid: bool, chaCountSource: Source)

  /** One PECI answer; each read uses its part. */
  datatype Answer = Answer(ret: int, cc: Byte, cpuModel: Uint32, stepping: Byte, value: Uint32, isHbm: bool) {
    predicate Failed() { ret != PECI_CC_SUCCESS || Unacceptable(cc) }
    function State(): Status { Status(cc, ret) }
  }

  datatype Register = CoreMasks | ChaMasks

  datatype Read =
    | GetCpuid(cpu: nat)
    | PlatformId(cpu: nat)
    | Half(cpu: nat, register: Register, family: Family, high: bool)

  datatype State = State(cpus: seq<Cpu>, trace: seq<Read>) {
    function Set(i: nat, c: Cpu): State
      requires i < |cpus|
    {
      this.(cpus := cpus[i := c])
    }
  }

  type Env = nat -> Answer

  /******* CPUID *******/

  predicate Recognised(cpuModel: Uint32) {
    cpuModel == ICX_MODEL || cpuModel == SPR_MODEL || cpuModel == ICXD_MODEL
  }

  /** getCPUID, then parseCPUInfo: the model is looked at whether or not the read succeeded. */
  function Identify(e: Env, s: State, i: nat, now: Source): (t: State)
    requires i < |s.cpus|
    ensures |t.cpus| == |s.cpus|
  {
    var a := e(|s.trace|);
    var c := s.cpus[i].(cpuModel := a.cpuModel, stepping := a.stepping, cpuidStatus := a.State());
    var r := s.(trace := s.trace + [GetCpuid(i)]);
    if a.cpuModel == ICX_MODEL then
      r.Set(i, c.(model := if a.stepping >= STEPPING_ICX2 then ICX2 else ICX, cpuidValid := true, cpuidSource := now))
    else if a.cpuModel == SPR_MODEL then
      var b := e(|r.trace|);
      r.(trace := r.trace + [PlatformId(i)])
       .Set(i, c.(model := if !b.Failed() && b.isHbm then SPRHBM else SPR, cpuidValid := true, cpuidSource := now))
    else if a.cpuModel == ICXD_MODEL then
      r.Set(i, c.(model := ICXD, cpuidValid := true, cpuidSource := now))
    else
      r.Set(i, c.(cpuidValid := false))
  }

  predicate NeedsCpuid(c: Cpu) { !c.cpuidValid || c.cpuidSource == Overwritten }

  /** The loop over the sockets from one on. */
  function IdentifyFrom(e: Env, s: State, i: nat, now: Source): (t: State)
    requires i <= |s.cpus|
    ensures |t.cpus| == |s.cpus|
    decreases |s.cpus| - i
  {
    if i == |s.cpus| then s
    else IdentifyFrom(e, if NeedsCpuid(s.cpus[i]) then Identify(e, s, i, now) else s, i + 1, now)
  }

  /** The first socket with a valid CPUID. */
  function FirstValid(cpus: seq<Cpu>, i: nat): (r: Option<nat>)
    requires i <= |cpus|
    ensures r.Some? ==> i <= r.value < |cpus| && cpus[r.value].cpuidValid
    ensures forall j :: i <= j < (if r.Some? then r.value else |cpus|) ==> !cpus[j].cpuidValid
    decreases |cpus| - i
  {
    if i == |cpus| then None else if cpus[i].cpuidValid then Some(i) else FirstValid(cpus, i + 1)
  }

  /** What overwriteCPUInfo leaves of a socket. */
  function OverwrittenBy(c: Cpu, donor: Option<Cpu>): Cpu {
    if c.cpuidValid then c
    else if donor.Some? then
      c.(model := donor.value.model, cpuModel := donor.value.cpuModel, stepping := donor.value.stepping,
         cpuidSource := Overwritten, cpuidStatus := Status(PECI_DEV_CC_SUCCESS, PECI_CC_SUCCESS), cpuidValid := true)
    else c.(cpuidSource := Invalid)
  }

  function Donor(cpus: seq<Cpu>): Option<Cpu> {
    if FirstValid(cpus, 0).None? then None else Some(cpus[FirstValid(cpus, 0).value])
  }

  function OverwriteAll(s: State): State {
    s.(cpus := seq(|s.cpus|, i requires 0 <= i < |s.cpus| => OverwrittenBy(s.cpus[i], Donor(s.cpus))))
  }

  /******* Masks *******/

  /** The two halves of a register: the second is read only if the first was accepted. */
  datatype Halves = Halves(trace: seq<Read>, status: Status, ok: bool, low: Uint32, high: Uint32)

  function ReadHalves(e: Env, trace: seq<Read>, i: nat, register: Register, family: Family): Halves {
    var a := e(|trace|);
    var t := trace + [Half(i, register, family, false)];
    if a.Failed() then Halves(t, a.State(), false, a.value, 0)
    else
      var b := e(|t|);
      Halves(t + [Half(i, register, family, true)], b.State(), !b.Failed(), a.value, b.value)
  }

  function CoreMaskOf(high: Uint32, low: Uint32): Uint64 { high * TWO_TO_THE_32 + low }

  function ReadCoreMask(e: Env, s: State, i: nat, now: Source): (t: State)
    requires i < |s.cpus|
    ensures |t.cpus| == |s.cpus|
  {
    var c := s.cpus[i];
    if c.coreMaskValid then s
    else
      var h := ReadHalves(e, s.trace, i, CoreMasks, FamilyOf(c.model));
      var d := c.(coreMask := 0, coreMaskStatus := h.status);
      s.(trace := h.trace)
       .Set(i, if !h.ok then d
               else d.(coreMask := CoreMaskOf(h.high, h.low), coreMaskValid := true, coreMaskSource := now))
  }

  function ReadChaCount(e: Env, s: State, i: nat, now: Source): (t: State)
    requires i < |s.cpus|
    ensures |t.cpus| == |s.cpus|
  {
    var c := s.cpus[i];
    if c.chaCountValid then s
    else
      var h := ReadHalves(e, s.trace, i, ChaMasks, FamilyOf(c.model));
      var d := c.(chaCount := 0, chaCountStatus := h.status);
      s.(trace := h.trace)
       .Set(i, if !h.ok then d
               else d.(chaCount := Popcount(h.low) + Popcount(h.high), chaCountValid := true, chaCountSource := now))
  }

  function CoreMasksFrom(e: Env, s: State, i: nat, now: Source): (t: State)
    requires i <= |s.cpus|
    ensures |t.cpus| == |s.cpus|
    decreases |s.cpus| - i
  {
    if i == |s.cpus| then s else CoreMasksFrom(e, ReadCoreMask(e, s, i, now), i + 1, now)
  }

  function ChaCountsFrom(e: Env, s: State, i: nat, now: Source): (t: State)
    requires i <= |s.cpus|
    ensures |t.cpus| == |s.cpus|
    decreases |s.cpus| - i
  {
    if i == |s.cpus| then s else ChaCountsFrom(e, ReadChaCount(e, s, i, now), i + 1, now)
  }

  /** The sockets' identities after the first part of a call. */
  function Identities(e: Env, s: State, event: bool): (t: State)
    ensures |t.cpus| == |s.cpus|
  {
    var t := IdentifyFrom(e, s, 0, At(event));
    if event then OverwriteAll(t) else t
  }

  function At(event: bool): Source { if event then AtEvent else AtStartup }

  /** getCPUData. */
  function Call(e: Env, s: State, event: bool): (t: State)
    ensures |t.cpus| == |s.cpus|
  {
    ChaCountsFrom(e, CoreMasksFrom(e, Identities(e, s, event), 0, At(event)), 0, At(event))
  }

  /******* In place *******/

  class CpuTable {
    const answers: Env
    var cpus: seq<Cpu>
    var trace: seq<Read>

    ghost function Abs(): State
      reads this
    {
      State(cpus, trace)
    }

    /** initCPUInfo: nothing is known about the sockets yet. */
    constructor (e: Env, sockets: nat)
      ensures answers == e && Abs() == Unknown(sockets)
    {
      answers, trace := e, [];
      cpus := seq(sockets, _ => UNKNOWN);
    }

    method Peci(r: Read) returns (a: Answer)
      modifies this`trace
      ensures a == answers(|old(trace)|) && trace == old(trace) + [r]
    {
      a := answers(|trace|);
      trace := trace + [r];
    }

    /** getCPUID and parseCPUInfo. */
    method IdentifyCpu(i: nat, now: Source)
      requires i < |cpus|
      modifies this
      ensures Abs() == Identify(answers, old(Abs()), i, now)
    {
      var a := Peci(GetCpuid(i));
      cpus := cpus[i := cpus[i].(cpuModel := a.cpuModel, stepping := a.stepping, cpuidStatus := Status(a.cc, a.ret))];
      var c := cpus[i];
      if c.cpuModel == ICX_MODEL {
        c := c.(model := if c.stepping >= STEPPING_ICX2 then ICX2 else ICX, cpuidValid := true, cpuidSource := now);
      } else if c.cpuModel == SPR_MODEL {
        var b := Peci(PlatformId(i));
        c := c.(model := if !b.Failed() && b.isHbm then SPRHBM else SPR, cpuidValid := true, cpuidSource := now);
      } else if c.cpuModel == ICXD_MODEL {
        c := c.(model := ICXD, cpuidValid := true, cpuidSource := now);
      } else {
        c := c.(cpuidValid := false);
      }
      cpus := cpus[i := c];
    }

    method OverwriteCpuInfo()
      modifies this`cpus
      ensures Abs() == OverwriteAll(old(Abs()))
    {
      ghost var before := cpus;
      var donor: Option<Cpu> := None;
      var k := 0;
      while k < |cpus|
        invariant k <= |cpus| && FirstValid(cpus, 0) == FirstValid(cpus, k)
      {
        if cpus[k].cpuidValid {
          break;
        }
        k := k + 1;
      }
      if k < |cpus| {
        donor := Some(cpus[k]);
      }
      assert donor == Donor(before);
      for i := 0 to |cpus|
        invariant |cpus| == |before|
        invariant forall j :: 0 <= j < i ==> cpus[j] == OverwrittenBy(before[j], donor)
        invariant forall j :: i <= j < |cpus| ==> cpus[j] == before[j]
      {
        cpus := cpus[i := OverwrittenBy(cpus[i], donor)];
      }
    }

    method ReadTwoHalves(i: nat, register: Register, family: Family) returns (h: Halves)
      modifies this`trace
      ensures h == ReadHalves(answers, old(trace), i, register, family) && trace == h.trace
    {
      var a := Peci(Half(i, register, family, false));
      if a.Failed() {
        return Halves(trace, Status(a.cc, a.ret), false, a.value, 0);
      }
      var b := Peci(Half(i, register, family, true));
      return Halves(trace, Status(b.cc, b.ret), !b.Failed(), a.value, b.value);
    }

    method GetCoreMasks(now: Source)
      modifies this
      ensures Abs() == CoreMasksFrom(answers, old(Abs()), 0, now)
    {
      hide CoreMaskOf, ReadHalves;
      for i := 0 to |cpus|
        invariant |cpus| == |old(cpus)|
        invariant CoreMasksFrom(answers, old(Abs()), 0, now) == CoreMasksFrom(answers, Abs(), i, now)
      {
        if !cpus[i].coreMaskValid {
          var h := ReadTwoHalves(i, CoreMasks, FamilyOf(cpus[i].model));
          var c := cpus[i].(coreMask := 0, coreMaskStatus := h.status);
          if h.ok {
            c := c.(coreMask := CoreMaskOf(h.high, h.low), coreMaskValid := true, coreMaskSource := now);
          }
          cpus := cpus[i := c];
        }
      }
    }

    method GetChaCounts(now: Source)
      modifies this
      ensures Abs() == ChaCountsFrom(answers, old(Abs()), 0, now)
    {
      hide Popcount, ReadHalves;
      for i := 0 to |cpus|
        invariant |cpus| == |old(cpus)|
        invariant ChaCountsFrom(answers, old(Abs()), 0, now) == ChaCountsFrom(answers, Abs(), i, now)
      {
        if !cpus[i].chaCountValid {
          var h := ReadTwoHalves(i, ChaMasks, FamilyOf(cpus[i].model));
          var c := cpus[i].(chaCount := 0, chaCountStatus := h.status);
          if h.ok {
            c := c.(chaCount := Popcount(h.low) + Popcount(h.high), chaCountValid := true, chaCountSource := now);
          }
          cpus := cpus[i := c];
        }
      }
    }

    /** getCPUData: identities, then what is missing of the masks and counts. */
    method GetCpuData(event: bool)
      modifies this
      ensures Abs() == Call(answers, old(Abs()), event)
    {
      var now := if event then AtEvent else AtStartup;
      for i := 0 to |cpus|
        invariant |cpus| == |old(cpus)|
        invariant IdentifyFrom(answers, old(Abs()), 0, now) == IdentifyFrom(answers, Abs(), i, now)
      {
        if !cpus[i].cpuidValid || cpus[i].cpuidSource == Overwritten {
          IdentifyCpu(i, now);
        }
      }
      if event {
        OverwriteCpuInfo();
      }
      GetCoreMasks(now);
      GetChaCounts(now);
    }
  }

  const UNKNOWN: Cpu :=
    Cpu(ICX, 0, 0, Status(0, 0), false, Invalid, 0, Status(0, 0), false, Invalid, 0, Status(0, 0), false, Invalid)

  function Unknown(sockets: nat): State { State(seq(sockets, _ => UNKNOWN), []) }
}
