/** What holds of socket discovery over any sequence of start-up and event calls. */
module DiscoveryTheorems {
  import opened Numerals
  import opened CmdInOut
  import opened CpuDiscovery
  import opened Models

  /** The socket was recognised by its own read. */
  predicate Own(c: Cpu) { c.cpuidValid && (c.cpuidSource == AtStartup || c.cpuidSource == AtEvent) }

  /** The model agrees with the CPUID and the stepping. */
  predicate ModelFits(c: Cpu) {
    || (c.cpuModel == ICX_MODEL && c.model == if c.stepping >= STEPPING_ICX2 then ICX2 else ICX)
    || (c.cpuModel == SPR_MODEL && (c.model == SPR || c.model == SPRHBM))
    || (c.cpuModel == ICXD_MODEL && c.model == ICXD)
  }

  predicate SameIdentity(c: Cpu, d: Cpu) {
    c.model == d.model && c.cpuModel == d.cpuModel && c.stepping == d.stepping
  }

  predicate SameCpuid(c: Cpu, d: Cpu) {
    && SameIdentity(c, d) && c.cpuidStatus == d.cpuidStatus && c.cpuidValid == d.cpuidValid
    && c.cpuidSource == d.cpuidSource
  }

  predicate SameCoreMask(c: Cpu, d: Cpu) {
    && c.coreMask == d.coreMask && c.coreMaskStatus == d.coreMaskStatus
    && c.coreMaskValid == d.coreMaskValid && c.coreMaskSource == d.coreMaskSource
  }

  predicate SameChaCount(c: Cpu, d: Cpu) {
    && c.chaCount == d.chaCount && c.chaCountStatus == d.chaCountStatus
    && c.chaCountValid == d.chaCountValid && c.chaCountSource == d.chaCountSource
  }

  /** The reads a step has added. */
  predicate Extends(s: State, t: State) { |s.cpus| == |t.cpus| && s.trace <= t.trace }

  /** Read n of the trace is the accepted low half of a register and read n + 1 its accepted
      high half. */
  predicate ReadAs(e: Env, trace: seq<Read>, n: nat, q: nat, register: Register, family: Family) {
    && n + 1 < |trace|
    && trace[n] == Half(q, register, family, false) && trace[n + 1] == Half(q, register, family, true)
    && !e(n).Failed() && !e(n + 1).Failed()
  }

  /******* The identity loop *******/

  predicate IdentityRead(r: Read) { r.GetCpuid? || r.PlatformId? }

  lemma IdentifyStep(e: Env, s: State, i: nat, now: Source)
    requires i < |s.cpus| && (now == AtStartup || now == AtEvent)
    ensures var t := Identify(e, s, i, now);
            && Extends(s, t)
            && (forall q :: 0 <= q < |s.cpus| && q != i ==> t.cpus[q] == s.cpus[q])
            && SameCoreMask(s.cpus[i], t.cpus[i]) && SameChaCount(s.cpus[i], t.cpus[i])
            && (t.cpus[i].cpuidValid ==> t.cpus[i].cpuidSource == now && ModelFits(t.cpus[i]))
            && (forall n :: |s.trace| <= n < |t.trace| ==> IdentityRead(t.trace[n]) && t.trace[n].cpu == i)
  {
  }

  lemma {:induction false} IdentifyAll(e: Env, s: State, i: nat, now: Source)
    requires i <= |s.cpus| && (now == AtStartup || now == AtEvent)
    ensures var t := IdentifyFrom(e, s, i, now);
            && Extends(s, t)
            && (forall q :: 0 <= q < |s.cpus| && (q < i || !NeedsCpuid(s.cpus[q])) ==> t.cpus[q] == s.cpus[q])
            && (forall q :: 0 <= q < |s.cpus| ==>
                  SameCoreMask(s.cpus[q], t.cpus[q]) && SameChaCount(s.cpus[q], t.cpus[q]))
            && (forall q :: i <= q < |s.cpus| && NeedsCpuid(s.cpus[q]) && t.cpus[q].cpuidValid ==>
                  t.cpus[q].cpuidSource == now && ModelFits(t.cpus[q]))
            && (forall n :: |s.trace| <= n < |t.trace| ==>
                  (IdentityRead(t.trace[n]) && i <= t.trace[n].cpu < |s.cpus| && NeedsCpuid(s.cpus[t.trace[n].cpu])))
    decreases |s.cpus| - i
  {
    hide Identify, SameCoreMask, SameChaCount, ModelFits, IdentityRead, NeedsCpuid;
    SameIsReflexive();
    if i < |s.cpus| {
      var r := if NeedsCpuid(s.cpus[i]) then Identify(e, s, i, now) else s;
      if NeedsCpuid(s.cpus[i]) {
        IdentifyStep(e, s, i, now);
      }
      IdentifyAll(e, r, i + 1, now);
    }
  }

  lemma SameIsReflexive()
    ensures forall c :: SameCoreMask(c, c) && SameChaCount(c, c) && SameCpuid(c, c)
  {
  }

  /******* The mask loops *******/

  lemma HalvesRead(e: Env, trace: seq<Read>, q: nat, register: Register, family: Family)
    ensures var h := ReadHalves(e, trace, q, register, family);
            && trace <= h.trace
            && (forall n :: |trace| <= n < |h.trace| ==>
                  h.trace[n].Half? && h.trace[n].cpu == q && h.trace[n].register == register)
            && (h.ok ==> ReadAs(e, h.trace, |trace|, q, register, family)
                         && h.low == e(|trace|).value && h.high == e(|trace| + 1).value)
  {
  }

  /** A core mask that is valid after the loop but was not before. */
  ghost predicate MaskRead(e: Env, trace: seq<Read>, q: nat, c: Cpu, from: nat) {
    exists n: nat :: from <= n && ReadAs(e, trace, n, q, CoreMasks, FamilyOf(c.model))
                     && c.coreMask == e(n + 1).value * TWO_TO_THE_32 + e(n).value
  }

  ghost predicate ChaRead(e: Env, trace: seq<Read>, q: nat, c: Cpu, from: nat) {
    exists n: nat :: from <= n && ReadAs(e, trace, n, q, ChaMasks, FamilyOf(c.model))
                     && c.chaCount == Popcount(e(n).value) + Popcount(e(n + 1).value)
  }

  lemma LongerTrace(e: Env, t: seq<Read>, u: seq<Read>, q: nat, c: Cpu, from: nat)
    requires t <= u
    ensures MaskRead(e, t, q, c, from) ==> MaskRead(e, u, q, c, from)
    ensures ChaRead(e, t, q, c, from) ==> ChaRead(e, u, q, c, from)
  {
    hide Popcount, ReadAs, FamilyOf;
    forall n: nat, register: Register, family: Family | ReadAs(e, t, n, q, register, family)
      ensures ReadAs(e, u, n, q, register, family)
    {
      StillRead(e, t, u, n, q, register, family);
    }
  }

  lemma StillRead(e: Env, t: seq<Read>, u: seq<Read>, n: nat, q: nat, register: Register, family: Family)
    requires t <= u && ReadAs(e, t, n, q, register, family)
    ensures ReadAs(e, u, n, q, register, family)
  {
    hide Unacceptable;
  }

  /** What the core mask loop makes of one socket. */
  ghost predicate MaskOutcome(e: Env, s: State, t: State, q: nat)
    requires q < |s.cpus| == |t.cpus|
  {
    var c, d := s.cpus[q], t.cpus[q];
    && SameCpuid(c, d) && SameChaCount(c, d)
    && (c.coreMaskValid ==> d == c)
    && (!c.coreMaskValid && d.coreMaskValid ==> MaskRead(e, t.trace, q, d, |s.trace|))
    && (!d.coreMaskValid ==> d.coreMask == 0)
  }

  /** The value of the register is known for the socket. */
  predicate Settled(c: Cpu, register: Register) {
    if register == CoreMasks then c.coreMaskValid else c.chaCountValid
  }

  predicate MaskReads(s: State, t: State, register: Register) {
    forall n :: |s.trace| <= n < |t.trace| ==>
      (t.trace[n].Half? && t.trace[n].register == register && t.trace[n].cpu < |s.cpus|
       && !Settled(s.cpus[t.trace[n].cpu], register))
  }

  lemma MaskStep(e: Env, s: State, i: nat, now: Source)
    requires i < |s.cpus|
    ensures var t := ReadCoreMask(e, s, i, now);
            && Extends(s, t) && MaskOutcome(e, s, t, i) && MaskReads(s, t, CoreMasks)
            && (forall q :: 0 <= q < |s.cpus| && q != i ==> t.cpus[q] == s.cpus[q])
  {
    hide ReadHalves, FamilyOf, ReadAs;
    var c := s.cpus[i];
    HalvesRead(e, s.trace, i, CoreMasks, FamilyOf(c.model));
    var t := ReadCoreMask(e, s, i, now);
    if !c.coreMaskValid && t.cpus[i].coreMaskValid {
      assert ReadAs(e, t.trace, |s.trace|, i, CoreMasks, FamilyOf(t.cpus[i].model));
    }
    if c.coreMaskValid {
      assert c.coreMaskValid == s.cpus[i].coreMaskValid;
    }
  }

  lemma {:induction false} MaskAll(e: Env, s: State, i: nat, now: Source)
    requires i <= |s.cpus|
    ensures var t := CoreMasksFrom(e, s, i, now);
            && Extends(s, t) && MaskReads(s, t, CoreMasks)
            && (forall q :: 0 <= q < i ==> t.cpus[q] == s.cpus[q])
            && (forall q :: i <= q < |s.cpus| ==> MaskOutcome(e, s, t, q))
    decreases |s.cpus| - i
  {
    hide ReadCoreMask, MaskRead, SameCpuid, SameChaCount;
    if i < |s.cpus| {
      var r := ReadCoreMask(e, s, i, now);
      var t := CoreMasksFrom(e, r, i + 1, now);
      MaskStep(e, s, i, now);
      MaskAll(e, r, i + 1, now);
      forall q | i <= q < |s.cpus| ensures MaskOutcome(e, s, t, q) {
        LongerTrace(e, r.trace, t.trace, q, t.cpus[q], |s.trace|);
        if q > i {
          EarlierStart(e, t.trace, q, t.cpus[q], |s.trace|, |r.trace|);
          assert MaskOutcome(e, r, t, q);
        }
      }
      MoreReads(s, r, t, CoreMasks);
    }
  }

  lemma EarlierStart(e: Env, t: seq<Read>, q: nat, c: Cpu, from: nat, later: nat)
    requires from <= later
    ensures MaskRead(e, t, q, c, later) ==> MaskRead(e, t, q, c, from)
    ensures ChaRead(e, t, q, c, later) ==> ChaRead(e, t, q, c, from)
  {
    hide Popcount, ReadAs;
  }

  /** Reads of the later steps concern sockets that were not valid before either. */
  lemma MoreReads(s: State, r: State, t: State, register: Register)
    requires Extends(s, r) && Extends(r, t) && MaskReads(s, r, register) && MaskReads(r, t, register)
    requires forall q :: 0 <= q < |s.cpus| ==>
               if register == CoreMasks then (s.cpus[q].coreMaskValid ==> r.cpus[q].coreMaskValid)
               else (s.cpus[q].chaCountValid ==> r.cpus[q].chaCountValid)
    ensures Extends(s, t) && MaskReads(s, t, register)
  {
    forall n | |s.trace| <= n < |r.trace| ensures t.trace[n] == r.trace[n] {
    }
  }

  ghost predicate ChaOutcome(e: Env, s: State, t: State, q: nat)
    requires q < |s.cpus| == |t.cpus|
  {
    var c, d := s.cpus[q], t.cpus[q];
    && SameCpuid(c, d) && SameCoreMask(c, d)
    && (c.chaCountValid ==> d == c)
    && (!c.chaCountValid && d.chaCountValid ==> ChaRead(e, t.trace, q, d, |s.trace|))
    && (!d.chaCountValid ==> d.chaCount == 0)
  }

  lemma ChaStep(e: Env, s: State, i: nat, now: Source)
    requires i < |s.cpus|
    ensures var t := ReadChaCount(e, s, i, now);
            && Extends(s, t) && ChaOutcome(e, s, t, i) && MaskReads(s, t, ChaMasks)
            && (forall q :: 0 <= q < |s.cpus| && q != i ==> t.cpus[q] == s.cpus[q])
  {
    hide ReadHalves, FamilyOf, ReadAs, Popcount;
    var c := s.cpus[i];
    HalvesRead(e, s.trace, i, ChaMasks, FamilyOf(c.model));
    var t := ReadChaCount(e, s, i, now);
    if !c.chaCountValid && t.cpus[i].chaCountValid {
      assert ReadAs(e, t.trace, |s.trace|, i, ChaMasks, FamilyOf(t.cpus[i].model));
    }
  }

  lemma {:induction false} ChaAll(e: Env, s: State, i: nat, now: Source)
    requires i <= |s.cpus|
    ensures var t := ChaCountsFrom(e, s, i, now);
            && Extends(s, t) && MaskReads(s, t, ChaMasks)
            && (forall q :: 0 <= q < i ==> t.cpus[q] == s.cpus[q])
            && (forall q :: i <= q < |s.cpus| ==> ChaOutcome(e, s, t, q))
    decreases |s.cpus| - i
  {
    hide ReadChaCount, ChaRead, SameCpuid, SameCoreMask;
    if i < |s.cpus| {
      var r := ReadChaCount(e, s, i, now);
      var t := ChaCountsFrom(e, r, i + 1, now);
      ChaStep(e, s, i, now);
      ChaAll(e, r, i + 1, now);
      forall q | i <= q < |s.cpus| ensures ChaOutcome(e, s, t, q) {
        LongerTrace(e, r.trace, t.trace, q, t.cpus[q], |s.trace|);
        if q > i {
          EarlierStart(e, t.trace, q, t.cpus[q], |s.trace|, |r.trace|);
          assert ChaOutcome(e, r, t, q);
        }
      }
      MoreReads(s, r, t, ChaMasks);
    }
  }

  /******* One call *******/

  /** What is known of the sockets between calls. */
  ghost predicate Inv(cpus: seq<Cpu>) {
    forall q :: 0 <= q < |cpus| ==> Sound(cpus, q)
  }

  ghost predicate Sound(cpus: seq<Cpu>, q: nat)
    requires q < |cpus|
  {
    var c := cpus[q];
    && (c.cpuidValid ==> c.cpuidSource != Invalid && ModelFits(c))
    && (c.cpuidValid && c.cpuidSource == Overwritten ==>
          exists d :: 0 <= d < |cpus| && Own(cpus[d]) && SameIdentity(c, cpus[d]))
    && (!c.coreMaskValid ==> c.coreMask == 0)
    && (!c.chaCountValid ==> c.chaCount == 0)
  }

  /** The first part of a call: own identities stay, after an event all or none is valid, and
      an overwritten socket copies one that was recognised by its own read. */
  lemma IdentitiesOf(e: Env, s: State, event: bool)
    requires Inv(s.cpus)
    ensures var t := Identities(e, s, event);
            && Extends(s, t) && Inv(t.cpus)
            && (forall q :: 0 <= q < |s.cpus| && Own(s.cpus[q]) ==> t.cpus[q] == s.cpus[q])
            && (forall q :: 0 <= q < |s.cpus| ==>
                  SameCoreMask(s.cpus[q], t.cpus[q]) && SameChaCount(s.cpus[q], t.cpus[q]))
            && (event ==> (forall q :: 0 <= q < |t.cpus| ==> t.cpus[q].cpuidValid)
                          || (forall q :: 0 <= q < |t.cpus| ==>
                                !t.cpus[q].cpuidValid && t.cpus[q].cpuidSource == Invalid))
            && (forall n :: |s.trace| <= n < |t.trace| ==>
                  (IdentityRead(t.trace[n]) && t.trace[n].cpu < |s.cpus| && !Own(s.cpus[t.trace[n].cpu])))
  {
    var r := IdentifyFrom(e, s, 0, At(event));
    IdentifyAll(e, s, 0, At(event));
    hide IdentifyFrom, ModelFits, IdentityRead;
    forall q | 0 <= q < |r.cpus|
      ensures Sound(r.cpus, q) && (r.cpus[q].cpuidValid ==> Own(r.cpus[q]))
    {
      assert Sound(s.cpus, q);
    }
    if event {
      Overwriting(r);
    }
  }

  lemma Overwriting(r: State)
    requires forall q :: 0 <= q < |r.cpus| ==> Sound(r.cpus, q) && (r.cpus[q].cpuidValid ==> Own(r.cpus[q]))
    ensures var t := OverwriteAll(r);
            && t.trace == r.trace && |t.cpus| == |r.cpus| && Inv(t.cpus)
            && (forall q :: 0 <= q < |r.cpus| && r.cpus[q].cpuidValid ==> t.cpus[q] == r.cpus[q])
            && (forall q :: 0 <= q < |r.cpus| ==>
                  SameCoreMask(r.cpus[q], t.cpus[q]) && SameChaCount(r.cpus[q], t.cpus[q]))
            && ((forall q :: 0 <= q < |t.cpus| ==> t.cpus[q].cpuidValid)
                || (forall q :: 0 <= q < |t.cpus| ==> !t.cpus[q].cpuidValid && t.cpus[q].cpuidSource == Invalid))
  {
    var t := OverwriteAll(r);
    var d := FirstValid(r.cpus, 0);
    forall q | 0 <= q < |t.cpus| ensures Sound(t.cpus, q) {
      assert Sound(r.cpus, q);
      if d.Some? {
        assert Sound(r.cpus, d.value);
        assert t.cpus[d.value] == r.cpus[d.value] && Own(t.cpus[d.value]);
      }
    }
  }

  /** One call, whatever PECI answers: own identities, valid core masks and valid CHA counts are
      neither changed nor read again; a value that becomes valid is put together from the two
      accepted halves just read for that socket; after an event all identities are valid or
      none is. */
  lemma CallKeeps(e: Env, s: State, event: bool)
    requires Inv(s.cpus)
    ensures var t := Call(e, s, event);
            && Extends(s, t) && Inv(t.cpus)
            && (forall q :: 0 <= q < |s.cpus| ==> Kept(e, s, t, q))
            && (event ==> (forall q :: 0 <= q < |t.cpus| ==> t.cpus[q].cpuidValid)
                          || (forall q :: 0 <= q < |t.cpus| ==> !t.cpus[q].cpuidValid))
            && (forall n :: |s.trace| <= n < |t.trace| ==> Needed(s, t.trace[n]))
  {
    var i := Identities(e, s, event);
    IdentitiesOf(e, s, event);
    var m := CoreMasksFrom(e, i, 0, At(event));
    MaskAll(e, i, 0, At(event));
    var t := ChaCountsFrom(e, m, 0, At(event));
    ChaAll(e, m, 0, At(event));
    hide Identities, CoreMasksFrom, ChaCountsFrom, Kept, Sound, MaskOutcome, ChaOutcome,
         Own, SameCoreMask, SameChaCount,
         IdentityRead, Needed;
    hide MaskReads;
    forall q | 0 <= q < |s.cpus|
      ensures Kept(e, s, t, q) && Sound(t.cpus, q) && SameCpuid(i.cpus[q], t.cpus[q])
    {
      SocketKept(e, s, i, m, t, q);
    }
    ReadsAreNeeded(e, s, i, m, t);
  }

  lemma SameFits(c: Cpu, d: Cpu)
    requires SameIdentity(c, d)
    ensures ModelFits(c) == ModelFits(d)
  {
  }

  lemma SocketKept(e: Env, s: State, i: State, m: State, t: State, q: nat)
    requires Extends(s, i) && Extends(i, m) && Extends(m, t) && q < |s.cpus| && Inv(i.cpus)
    requires forall p :: 0 <= p < |s.cpus| ==> MaskOutcome(e, i, m, p) && ChaOutcome(e, m, t, p)
    requires Own(s.cpus[q]) ==> i.cpus[q] == s.cpus[q]
    requires SameCoreMask(s.cpus[q], i.cpus[q]) && SameChaCount(s.cpus[q], i.cpus[q])
    ensures Kept(e, s, t, q) && Sound(t.cpus, q) && SameCpuid(i.cpus[q], t.cpus[q])
  {
    hide MaskRead, ChaRead, FamilyOf, ModelFits;
    assert MaskOutcome(e, i, m, q) && ChaOutcome(e, m, t, q);
    SameFits(i.cpus[q], t.cpus[q]);
    MaskSurvives(e, i, m, t, q, |s.trace|);
    assert Sound(i.cpus, q);
    if i.cpus[q].cpuidValid && i.cpus[q].cpuidSource == Overwritten {
      var d :| 0 <= d < |i.cpus| && Own(i.cpus[d]) && SameIdentity(i.cpus[q], i.cpus[d]);
      assert MaskOutcome(e, i, m, d) && ChaOutcome(e, m, t, d);
      assert Own(t.cpus[d]) && SameIdentity(t.cpus[q], t.cpus[d]);
    }
  }

  lemma ReadsAreNeeded(e: Env, s: State, i: State, m: State, t: State)
    requires Extends(s, i) && Extends(i, m) && Extends(m, t)
    requires MaskReads(i, m, CoreMasks) && MaskReads(m, t, ChaMasks)
    requires forall q :: 0 <= q < |s.cpus| ==> SameCoreMask(s.cpus[q], i.cpus[q]) && SameChaCount(s.cpus[q], i.cpus[q])
    requires forall q :: 0 <= q < |s.cpus| ==> MaskOutcome(e, i, m, q)
    requires forall n :: |s.trace| <= n < |i.trace| ==>
               (IdentityRead(i.trace[n]) && i.trace[n].cpu < |s.cpus| && !Own(s.cpus[i.trace[n].cpu]))
    ensures forall n :: |s.trace| <= n < |t.trace| ==> Needed(s, t.trace[n])
  {
    hide Own;
    forall n | |s.trace| <= n < |t.trace| ensures Needed(s, t.trace[n]) {
      var q := t.trace[n].cpu;
      if n < |i.trace| {
        assert t.trace[n] == i.trace[n];
      } else if n < |m.trace| {
        assert t.trace[n] == m.trace[n] && q < |s.cpus| && SameCoreMask(s.cpus[q], i.cpus[q]);
      } else {
        assert q < |s.cpus| && MaskOutcome(e, i, m, q) && SameChaCount(s.cpus[q], i.cpus[q]);
      }
    }
  }

  lemma MaskSurvives(e: Env, i: State, m: State, t: State, q: nat, from: nat)
    requires Extends(i, m) && Extends(m, t) && q < |i.cpus| && from <= |i.trace|
    requires MaskOutcome(e, i, m, q) && ChaOutcome(e, m, t, q)
    ensures !i.cpus[q].coreMaskValid && t.cpus[q].coreMaskValid ==> MaskRead(e, t.trace, q, t.cpus[q], from)
    ensures !i.cpus[q].chaCountValid && t.cpus[q].chaCountValid ==> ChaRead(e, t.trace, q, t.cpus[q], from)
  {
    hide Popcount;
    EarlierStart(e, m.trace, q, m.cpus[q], from, |i.trace|);
    LongerTrace(e, m.trace, t.trace, q, m.cpus[q], from);
    EarlierStart(e, t.trace, q, t.cpus[q], from, |m.trace|);
    SameMaskRead(e, t.trace, q, m.cpus[q], t.cpus[q], from);
  }

  lemma SameMaskRead(e: Env, trace: seq<Read>, q: nat, c: Cpu, d: Cpu, from: nat)
    requires c.model == d.model && c.coreMask == d.coreMask
    ensures MaskRead(e, trace, q, c, from) ==> MaskRead(e, trace, q, d, from)
  {
    hide ReadAs;
  }

  /** What a call does to one socket. */
  ghost predicate Kept(e: Env, s: State, t: State, q: nat)
    requires q < |s.cpus| == |t.cpus|
  {
    var c, d := s.cpus[q], t.cpus[q];
    && (Own(c) ==> SameCpuid(c, d))
    && (c.coreMaskValid ==> SameCoreMask(c, d))
    && (c.chaCountValid ==> SameChaCount(c, d))
    && (!c.coreMaskValid && d.coreMaskValid ==> MaskRead(e, t.trace, q, d, |s.trace|))
    && (!c.chaCountValid && d.chaCountValid ==> ChaRead(e, t.trace, q, d, |s.trace|))
  }

  /** A read is only made for what is not settled yet. */
  predicate Needed(s: State, r: Read) {
    && r.cpu < |s.cpus|
    && match r
       case GetCpuid(q) => !Own(s.cpus[q])
       case PlatformId(q) => !Own(s.cpus[q])
       case Half(q, register, _, _) => !Settled(s.cpus[q], register)
  }

  /******* Any sequence of calls *******/

  function AfterCalls(e: Env, sockets: nat, events: seq<bool>): (t: State)
    ensures |t.cpus| == sockets
  {
    if events == [] then Unknown(sockets)
    else Call(e, AfterCalls(e, sockets, events[..|events| - 1]), events[|events| - 1])
  }

  /** Over any sequence of start-up and event calls: every overwritten socket copies one that
      was recognised by its own read, never a copy; the model of every valid socket agrees with
      its CPUID and stepping; invalid masks and counts are zero; and when the last call was an event,
      all sockets have a valid CPUID or none has. */
  lemma {:induction false} DiscoveryIsSound(e: Env, sockets: nat, events: seq<bool>)
    ensures var t := AfterCalls(e, sockets, events);
            && Inv(t.cpus)
            && (events != [] && events[|events| - 1] ==>
                  (forall q :: 0 <= q < sockets ==> t.cpus[q].cpuidValid)
                  || (forall q :: 0 <= q < sockets ==> !t.cpus[q].cpuidValid))
  {
    hide Sound, Call;
    if events == [] {
      NothingKnown(sockets);
    } else {
      var init := events[..|events| - 1];
      DiscoveryIsSound(e, sockets, init);
      CallKeeps(e, AfterCalls(e, sockets, init), events[|events| - 1]);
    }
  }

  lemma NothingKnown(sockets: nat)
    ensures Inv(Unknown(sockets).cpus)
  {
  }

  /** What is settled after some calls is settled for ever. */
  lemma {:induction false} SettledForEver(e: Env, sockets: nat, events: seq<bool>, more: seq<bool>, q: nat)
    requires q < sockets
    ensures var c, d := AfterCalls(e, sockets, events).cpus[q], AfterCalls(e, sockets, events + more).cpus[q];
            && (Own(c) ==> SameCpuid(c, d))
            && (c.coreMaskValid ==> SameCoreMask(c, d))
            && (c.chaCountValid ==> SameChaCount(c, d))
  {
    hide Call;
    if more == [] {
      assert events + more == events;
    } else {
      var init := more[..|more| - 1];
      SettledForEver(e, sockets, events, init, q);
      DiscoveryIsSound(e, sockets, events + init);
      CallKeeps(e, AfterCalls(e, sockets, events + init), more[|more| - 1]);
      assert (events + more)[..|events + more| - 1] == events + init;
      assert (events + more)[|events + more| - 1] == more[|more| - 1];
      assert Kept(e, AfterCalls(e, sockets, events + init), AfterCalls(e, sockets, events + more), q);
    }
  }

  /** A CHA count never exceeds the 64 bits it counts. */
  lemma ChaCountBound(e: Env, trace: seq<Read>, q: nat, c: Cpu, from: nat)
    requires ChaRead(e, trace, q, c, from)
    ensures c.chaCount <= 64
  {
    hide Popcount;
    var n: nat :| from <= n && ReadAs(e, trace, n, q, ChaMasks, FamilyOf(c.model))
                  && c.chaCount == Popcount(e(n).value) + Popcount(e(n + 1).value);
    Pow2Of32();
    PopcountBound(e(n).value, 32);
    PopcountBound(e(n + 1).value, 32);
  }

  /** A socket whose CPUID is not yet known is taken for an Ice Lake one when its masks are
      read, and since valid masks are never read again it keeps them: here the socket turns out
      to be a Sapphire Rapids one whose registers are never asked. */
  lemma MasksCanBeOfAnotherFamily()
    ensures var t := AfterCalls(LateCpuid, 1, [false, true]);
            && t.cpus[0].model == SPR && Own(t.cpus[0]) && t.cpus[0].coreMaskValid
            && t.trace == [GetCpuid(0), Half(0, CoreMasks, IceLake, false), Half(0, CoreMasks, IceLake, true),
                           Half(0, ChaMasks, IceLake, false), Half(0, ChaMasks, IceLake, true),
                           GetCpuid(0), PlatformId(0)]
  {
    hide Call;
    var e: Env := LateCpuid;
    FirstCall(e);
    var t := Call(e, Unknown(1), false);
    SecondCall(e, t);
    assert [false, true][..1] == [false] && [false][..0] == [];
    assert AfterCalls(e, 1, [false]) == t;
  }

  /** Every read succeeds, and the CPUID is only right from the sixth read on. */
  function LateCpuid(n: nat): Answer {
    Answer(PECI_CC_SUCCESS, PECI_DEV_CC_SUCCESS, if n < 5 then 0 else SPR_MODEL, 0, 1, false)
  }

  lemma OneSocket(e: Env, s: State, now: Source)
    requires |s.cpus| == 1
    ensures IdentifyFrom(e, s, 0, now) == if NeedsCpuid(s.cpus[0]) then Identify(e, s, 0, now) else s
    ensures CoreMasksFrom(e, s, 0, now) == ReadCoreMask(e, s, 0, now)
    ensures ChaCountsFrom(e, s, 0, now) == ReadChaCount(e, s, 0, now)
  {
    hide Identify, ReadCoreMask, ReadChaCount;
    var t := if NeedsCpuid(s.cpus[0]) then Identify(e, s, 0, now) else s;
    assert IdentifyFrom(e, t, 1, now) == t;
  }

  /** At start-up the CPUID is not recognised but the masks are delivered. */
  lemma FirstCall(e: Env)
    requires !Recognised(e(0).cpuModel) && forall n :: 1 <= n < 5 ==> !e(n).Failed()
    ensures var t := Call(e, Unknown(1), false);
            && |t.cpus| == 1 && !t.cpus[0].cpuidValid && t.cpus[0].coreMaskValid && t.cpus[0].chaCountValid
            && t.trace == [GetCpuid(0), Half(0, CoreMasks, IceLake, false), Half(0, CoreMasks, IceLake, true),
                           Half(0, ChaMasks, IceLake, false), Half(0, ChaMasks, IceLake, true)]
  {
    hide Popcount, Unacceptable, IdentifyFrom, CoreMasksFrom, ChaCountsFrom;
    var s := Unknown(1);
    OneSocket(e, s, AtStartup);
    var i := Identify(e, s, 0, AtStartup);
    assert i.trace == [GetCpuid(0)] && !i.cpus[0].cpuidValid && i.cpus[0].model == ICX;
    OneSocket(e, i, AtStartup);
    var m := ReadCoreMask(e, i, 0, AtStartup);
    assert m.trace == [GetCpuid(0), Half(0, CoreMasks, IceLake, false), Half(0, CoreMasks, IceLake, true)];
    OneSocket(e, m, AtStartup);
  }

  /** On the event the socket is recognised. */
  lemma SecondCall(e: Env, s: State)
    requires |s.cpus| == 1 && !s.cpus[0].cpuidValid && s.cpus[0].coreMaskValid && s.cpus[0].chaCountValid
    requires e(|s.trace|).cpuModel == SPR_MODEL && !e(|s.trace| + 1).isHbm
    ensures var t := Call(e, s, true);
            && |t.cpus| == 1 && t.cpus[0].model == SPR && Own(t.cpus[0]) && t.cpus[0].coreMaskValid
            && t.trace == s.trace + [GetCpuid(0), PlatformId(0)]
  {
    hide Popcount, Unacceptable, IdentifyFrom, CoreMasksFrom, ChaCountsFrom;
    OneSocket(e, s, AtEvent);
    var i := Identify(e, s, 0, AtEvent);
    assert i.trace == s.trace + [GetCpuid(0), PlatformId(0)] && Own(i.cpus[0]);
    var o := OverwriteAll(i);
    assert o.cpus[0] == i.cpus[0];
    OneSocket(e, o, AtEvent);
    assert ReadCoreMask(e, o, 0, AtEvent) == o;
  }
}
