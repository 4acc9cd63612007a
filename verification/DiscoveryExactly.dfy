/** When exactly a socket is recognised, as which model, and when exactly its core mask and CHA
    count are known: over any sequence of start-up and event calls, by the answers to the reads. */
module DiscoveryExactly {
  import opened Numerals
  import opened CmdInOut
  import opened Models
  import opened CpuDiscovery
  import opened DiscoveryTheorems

  /******* Recognition *******/

  /** Ice Lake, Sapphire Rapids and Ice Lake D. */
  predicate IsKnown(cpuModel: Uint32) {
    cpuModel == 0x606A0 || cpuModel == 0x806F0 || cpuModel == 0x606C0
  }

  predicate IsAccepted(a: Answer) {
    a.ret == PECI_CC_SUCCESS && (a.cc == PECI_DEV_CC_SUCCESS || a.cc == PECI_DEV_CC_FATAL_MCA_DETECTED)
  }

  /** The socket is what read n, a known CPUID, and the platform read behind it say. */
  predicate IsAsRead(e: Env, trace: seq<Read>, n: nat, q: nat, c: Cpu) {
    var a := e(n);
    && c.cpuModel == a.cpuModel && c.stepping == a.stepping && c.cpuidStatus == Status(a.cc, a.ret)
    && if a.cpuModel == 0x606A0 then c.model == (if a.stepping >= 2 then ICX2 else ICX)
       else if a.cpuModel == 0x606C0 then c.model == ICXD
       else
         && n + 1 < |trace| && trace[n + 1] == PlatformId(q)
         && c.model == (if IsAccepted(e(n + 1)) && e(n + 1).isHbm then SPRHBM else SPR)
  }

  /** Read n asked the socket for its CPUID and the answer was a known one. */
  predicate KnownRead(e: Env, trace: seq<Read>, n: nat, q: nat) {
    n < |trace| && trace[n] == GetCpuid(q) && IsKnown(e(n).cpuModel)
  }

  /** The socket is recognised exactly if one of its reads was answered with a known CPUID, and it
      is then what that read says. */
  ghost predicate Recognises(e: Env, trace: seq<Read>, q: nat, c: Cpu) {
    && (Own(c) <==> exists n: nat :: KnownRead(e, trace, n, q))
    && forall n: nat :: KnownRead(e, trace, n, q) ==> IsAsRead(e, trace, n, q, c)
  }

  lemma SameRecognition(e: Env, t: seq<Read>, u: seq<Read>, q: nat, c: Cpu, d: Cpu)
    requires t <= u && Recognises(e, t, q, c)
    requires forall n :: |t| <= n < |u| ==> u[n] != GetCpuid(q)
    requires Own(c) == Own(d) && (Own(c) ==> SameIdentity(c, d) && c.cpuidStatus == d.cpuidStatus)
    ensures Recognises(e, u, q, d)
  {
    forall n: nat ensures KnownRead(e, u, n, q) <==> KnownRead(e, t, n, q) {
      if n < |t| {
        assert u[n] == t[n];
      }
    }
    forall n: nat | KnownRead(e, t, n, q) ensures IsAsRead(e, u, n, q, d) {
      assert IsAsRead(e, t, n, q, c);
      if n + 1 < |t| {
        assert u[n + 1] == t[n + 1];
      }
    }
  }

  /** One socket that was not recognised so far is asked. */
  lemma IdentifyRecognises(e: Env, s: State, i: nat, now: Source)
    requires i < |s.cpus| && (now == AtStartup || now == AtEvent)
    requires Recognises(e, s.trace, i, s.cpus[i]) && !Own(s.cpus[i])
    ensures var t := Identify(e, s, i, now);
            && s.trace + [GetCpuid(i)] <= t.trace
            && (forall n :: |s.trace| < n < |t.trace| ==> t.trace[n] == PlatformId(i))
            && Recognises(e, t.trace, i, t.cpus[i])
  {
    var t := Identify(e, s, i, now);
    var n := |s.trace|;
    forall m: nat ensures KnownRead(e, t.trace, m, i) <==> m == n && IsKnown(e(n).cpuModel) {
      if m < n {
        assert t.trace[m] == s.trace[m];
        assert !KnownRead(e, s.trace, m, i);
      }
    }
    if IsKnown(e(n).cpuModel) {
      assert KnownRead(e, t.trace, n, i);
    }
  }

  ghost predicate AllRecognised(e: Env, s: State) {
    forall q :: 0 <= q < |s.cpus| ==> Recognises(e, s.trace, q, s.cpus[q])
  }

  /** Every socket of the loop that is not recognised yet is asked. */
  ghost predicate Asked(s: State, t: State, from: nat) {
    forall q :: from <= q < |s.cpus| && !Own(s.cpus[q]) ==>
      exists n: nat :: |s.trace| <= n < |t.trace| && t.trace[n] == GetCpuid(q)
  }

  /** A valid socket has a source. */
  predicate Sourced(cpus: seq<Cpu>) {
    forall q :: 0 <= q < |cpus| && cpus[q].cpuidValid ==> cpus[q].cpuidSource != Invalid
  }

  lemma NeedsIsNotOwn(c: Cpu)
    requires c.cpuidValid ==> c.cpuidSource != Invalid
    ensures NeedsCpuid(c) <==> !Own(c)
  {
  }

  lemma IdentifyKeepsSources(e: Env, s: State, i: nat, now: Source)
    requires i < |s.cpus| && (now == AtStartup || now == AtEvent) && Sourced(s.cpus)
    ensures Sourced(Identify(e, s, i, now).cpus)
  {
  }

  lemma {:induction false} LoopRecognises(e: Env, s: State, i: nat, now: Source)
    requires i <= |s.cpus| && (now == AtStartup || now == AtEvent) && Sourced(s.cpus) && AllRecognised(e, s)
    ensures var t := IdentifyFrom(e, s, i, now);
            s.trace <= t.trace && Sourced(t.cpus) && AllRecognised(e, t) && Asked(s, t, i)
    decreases |s.cpus| - i
  {
    hide Identify, Recognises, NeedsCpuid, Own;
    if i < |s.cpus| {
      NeedsIsNotOwn(s.cpus[i]);
      var r := if NeedsCpuid(s.cpus[i]) then Identify(e, s, i, now) else s;
      if NeedsCpuid(s.cpus[i]) {
        IdentifyRecognises(e, s, i, now);
        IdentifyStep(e, s, i, now);
        IdentifyKeepsSources(e, s, i, now);
        assert r.trace[|s.trace|] == GetCpuid(i);
        forall q | 0 <= q < |s.cpus| ensures Recognises(e, r.trace, q, r.cpus[q]) {
          if q != i {
            SameRecognition(e, s.trace, r.trace, q, s.cpus[q], r.cpus[q]);
          }
        }
      }
      LoopRecognises(e, r, i + 1, now);
      var t := IdentifyFrom(e, s, i, now);
      forall q | i <= q < |s.cpus| && !Own(s.cpus[q])
        ensures exists n: nat :: |s.trace| <= n < |t.trace| && t.trace[n] == GetCpuid(q)
      {
        if q == i {
          assert t.trace[|s.trace|] == r.trace[|s.trace|];
        } else {
          assert !Own(r.cpus[q]);
        }
      }
    }
  }

  /******* Copies *******/

  /** The first socket that was recognised by its own read. */
  predicate IsDonor(cpus: seq<Cpu>, d: nat) {
    d < |cpus| && Own(cpus[d]) && forall j :: 0 <= j < d ==> !Own(cpus[j])
  }

  /** What an event leaves of a socket that was not recognised: a copy of the first recognised one,
      marked as such; without one it is marked as invalid. */
  predicate CopiedFrom(cpus: seq<Cpu>, c: Cpu, d: nat)
    requires d < |cpus|
  {
    && c.cpuidValid && c.cpuidSource == Overwritten && SameIdentity(c, cpus[d])
    && c.cpuidStatus == Status(PECI_DEV_CC_SUCCESS, PECI_CC_SUCCESS)
  }

  ghost predicate Copies(cpus: seq<Cpu>) {
    if exists d: nat :: IsDonor(cpus, d) then
      forall d: nat, q :: IsDonor(cpus, d) && 0 <= q < |cpus| ==> Own(cpus[q]) || CopiedFrom(cpus, cpus[q], d)
    else forall q :: 0 <= q < |cpus| ==> !cpus[q].cpuidValid && cpus[q].cpuidSource == Invalid
  }

  lemma OverwriteCopies(s: State)
    requires forall q :: 0 <= q < |s.cpus| && s.cpus[q].cpuidValid ==> Own(s.cpus[q])
    ensures Copies(OverwriteAll(s).cpus)
    ensures forall q :: 0 <= q < |s.cpus| ==> Own(OverwriteAll(s).cpus[q]) == Own(s.cpus[q])
    ensures forall q :: 0 <= q < |s.cpus| && Own(s.cpus[q]) ==> OverwriteAll(s).cpus[q] == s.cpus[q]
  {
    var t := OverwriteAll(s);
    var d := FirstValid(s.cpus, 0);
    if d.Some? {
      assert IsDonor(t.cpus, d.value);
    }
  }

  /******* Masks and counts *******/

  function FamilyIs(m: Model): Family {
    if m == SPR || m == SPRHBM then SapphireRapids else IceLake
  }

  lemma FamilyLaw(m: Model)
    ensures FamilyOf(m) == FamilyIs(m)
  {
  }

  /** The value that two halves make. */
  predicate IsMade(c: Cpu, register: Register, low: Uint32, high: Uint32) {
    if register == CoreMasks then c.coreMask == high * 0x1_0000_0000 + low
    else c.chaCount == Popcount(low) + Popcount(high)
  }

  function StatusOf(c: Cpu, register: Register): Status {
    if register == CoreMasks then c.coreMaskStatus else c.chaCountStatus
  }

  function SourceOf(c: Cpu, register: Register): Source {
    if register == CoreMasks then c.coreMaskSource else c.chaCountSource
  }

  /** Read n was for the low half, in the registers of the socket's family; the high half was read
      if and only if the low one was accepted; the value is known exactly if both were; and the
      status is that of the last read. */
  predicate HalvesDecide(e: Env, trace: seq<Read>, n: nat, q: nat, register: Register, c: Cpu, now: Source) {
    && n < |trace| && trace[n] == Half(q, register, FamilyIs(c.model), false)
    && if !IsAccepted(e(n)) then
         && !Settled(c, register) && StatusOf(c, register) == Status(e(n).cc, e(n).ret)
         && (n + 1 < |trace| ==> trace[n + 1] != Half(q, register, FamilyIs(c.model), true))
       else
         && n + 1 < |trace| && trace[n + 1] == Half(q, register, FamilyIs(c.model), true)
         && (Settled(c, register) <==> IsAccepted(e(n + 1)))
         && StatusOf(c, register) == Status(e(n + 1).cc, e(n + 1).ret)
         && (Settled(c, register) ==> IsMade(c, register, e(n).value, e(n + 1).value) && SourceOf(c, register) == now)
  }

  lemma AcceptedIsNotFailed(a: Answer)
    ensures IsAccepted(a) <==> !a.Failed()
  {
  }

  /** What reading a register makes of one socket for which it was not known. */
  lemma HalvesLaw(e: Env, s: State, i: nat, register: Register, now: Source)
    requires i < |s.cpus| && !Settled(s.cpus[i], register)
    ensures var t := if register == CoreMasks then ReadCoreMask(e, s, i, now) else ReadChaCount(e, s, i, now);
            && s.trace < t.trace && |t.trace| <= |s.trace| + 2
            && t.trace[|s.trace|] == Half(i, register, FamilyIs(s.cpus[i].model), false)
            && (IsAccepted(e(|s.trace|)) ==> |t.trace| == |s.trace| + 2)
            && (!IsAccepted(e(|s.trace|)) ==> |t.trace| == |s.trace| + 1)
            && HalvesDecide(e, t.trace, |s.trace|, i, register, t.cpus[i], now)
  {
    hide Popcount, Unacceptable, FamilyOf, FamilyIs, IsAccepted;
    FamilyLaw(s.cpus[i].model);
    AcceptedIsNotFailed(e(|s.trace|));
    AcceptedIsNotFailed(e(|s.trace| + 1));
  }

  /** Later reads do not matter if they begin with another low half. */
  lemma DecidedStays(e: Env, t: seq<Read>, u: seq<Read>, n: nat, q: nat, register: Register, c: Cpu, d: Cpu,
                     now: Source)
    requires t <= u && HalvesDecide(e, t, n, q, register, c, now)
    requires |t| < |u| ==> !(u[|t|].Half? && u[|t|].high)
    requires c.model == d.model && Settled(c, register) == Settled(d, register)
    requires if register == CoreMasks then SameCoreMask(c, d) else SameChaCount(c, d)
    ensures HalvesDecide(e, u, n, q, register, d, now)
  {
    hide Popcount, FamilyIs;
    assert u[n] == t[n];
    if n + 1 < |t| {
      assert u[n + 1] == t[n + 1];
    }
  }

  /** A stretch of reads, if there is one, begins with a low half or an identity read. */
  predicate BeginsLow(s: State, t: State) {
    && s.trace <= t.trace
    && (|s.trace| < |t.trace| ==> !(t.trace[|s.trace|].Half? && t.trace[|s.trace|].high))
  }

  ghost predicate Decided(e: Env, s: State, t: State, q: nat, register: Register, now: Source)
    requires q < |s.cpus| == |t.cpus|
  {
    !Settled(s.cpus[q], register) ==>
      exists n: nat :: |s.trace| <= n && HalvesDecide(e, t.trace, n, q, register, t.cpus[q], now)
  }

  lemma {:induction false} MaskLoopLaw(e: Env, s: State, i: nat, now: Source)
    requires i <= |s.cpus|
    ensures var t := CoreMasksFrom(e, s, i, now);
            BeginsLow(s, t) && forall q :: i <= q < |s.cpus| ==> Decided(e, s, t, q, CoreMasks, now)
    decreases |s.cpus| - i
  {
    hide HalvesDecide, ReadCoreMask, MaskOutcome, MaskReads, FamilyIs, IsAccepted;
    if i < |s.cpus| {
      var r := ReadCoreMask(e, s, i, now);
      var t := CoreMasksFrom(e, s, i, now);
      MaskLoopLaw(e, r, i + 1, now);
      MaskAll(e, r, i + 1, now);
      MaskStep(e, s, i, now);
      if Settled(s.cpus[i], CoreMasks) {
        assert r == s by { KnownIsKept(e, s, i, now); }
      } else {
        HalvesLaw(e, s, i, CoreMasks, now);
        DecidedStays(e, r.trace, t.trace, |s.trace|, i, CoreMasks, r.cpus[i], t.cpus[i], now);
        assert t.trace[|s.trace|] == r.trace[|s.trace|];
      }
      forall q | i <= q < |s.cpus| ensures Decided(e, s, t, q, CoreMasks, now) {
        if q > i {
          assert Decided(e, r, t, q, CoreMasks, now);
        }
      }
    }
  }

  lemma KnownIsKept(e: Env, s: State, i: nat, now: Source)
    requires i < |s.cpus|
    ensures Settled(s.cpus[i], CoreMasks) ==> ReadCoreMask(e, s, i, now) == s
    ensures Settled(s.cpus[i], ChaMasks) ==> ReadChaCount(e, s, i, now) == s
  {
  }

  lemma {:induction false} ChaLoopLaw(e: Env, s: State, i: nat, now: Source)
    requires i <= |s.cpus|
    ensures var t := ChaCountsFrom(e, s, i, now);
            BeginsLow(s, t) && forall q :: i <= q < |s.cpus| ==> Decided(e, s, t, q, ChaMasks, now)
    decreases |s.cpus| - i
  {
    hide HalvesDecide, ReadChaCount, ChaOutcome, MaskReads, FamilyIs, IsAccepted;
    if i < |s.cpus| {
      var r := ReadChaCount(e, s, i, now);
      var t := ChaCountsFrom(e, s, i, now);
      ChaLoopLaw(e, r, i + 1, now);
      ChaAll(e, r, i + 1, now);
      ChaStep(e, s, i, now);
      if Settled(s.cpus[i], ChaMasks) {
        assert r == s by { KnownIsKept(e, s, i, now); }
      } else {
        HalvesLaw(e, s, i, ChaMasks, now);
        DecidedStays(e, r.trace, t.trace, |s.trace|, i, ChaMasks, r.cpus[i], t.cpus[i], now);
        assert t.trace[|s.trace|] == r.trace[|s.trace|];
      }
      forall q | i <= q < |s.cpus| ensures Decided(e, s, t, q, ChaMasks, now) {
        if q > i {
          assert Decided(e, r, t, q, ChaMasks, now);
        }
      }
    }
  }

  /******* Whole calls *******/

  /** The mask loops leave identities alone and ask no CPUID. */
  lemma RecognisedStays(e: Env, s: State, t: State)
    requires |s.cpus| == |t.cpus| && s.trace <= t.trace && AllRecognised(e, s)
    requires forall q :: 0 <= q < |s.cpus| ==> SameCpuid(s.cpus[q], t.cpus[q])
    requires forall n :: |s.trace| <= n < |t.trace| ==> t.trace[n].Half?
    ensures AllRecognised(e, t)
  {
    hide Recognises;
    forall q | 0 <= q < |t.cpus| ensures Recognises(e, t.trace, q, t.cpus[q]) {
      SameRecognition(e, s.trace, t.trace, q, s.cpus[q], t.cpus[q]);
    }
  }

  lemma CopiesStay(s: State, t: State)
    requires |s.cpus| == |t.cpus| && Copies(s.cpus)
    requires forall q :: 0 <= q < |s.cpus| ==> SameCpuid(s.cpus[q], t.cpus[q])
    ensures Copies(t.cpus)
  {
    forall d: nat ensures IsDonor(s.cpus, d) <==> IsDonor(t.cpus, d) {
    }
  }

  /** Who is newly recognised was so in this call. */
  predicate NewlyOwn(s: State, t: State, now: Source)
    requires |s.cpus| == |t.cpus|
  {
    forall q :: 0 <= q < |s.cpus| && !Own(s.cpus[q]) && Own(t.cpus[q]) ==> t.cpus[q].cpuidSource == now
  }

  lemma IdentitiesExactly(e: Env, s: State, event: bool)
    requires Inv(s.cpus) && AllRecognised(e, s)
    ensures var t := Identities(e, s, event);
            && s.trace <= t.trace && AllRecognised(e, t) && Asked(s, t, 0) && (event ==> Copies(t.cpus))
            && NewlyOwn(s, t, At(event))
  {
    hide IdentifyFrom, Recognises, ModelFits, Copies, IdentityRead, SameIdentity;
    forall q | 0 <= q < |s.cpus| && s.cpus[q].cpuidValid ensures s.cpus[q].cpuidSource != Invalid {
      assert Sound(s.cpus, q);
    }
    LoopRecognises(e, s, 0, At(event));
    var r := IdentifyFrom(e, s, 0, At(event));
    var t := Identities(e, s, event);
    IdentifyAll(e, s, 0, At(event));
    assert NewlyOwn(s, r, At(event));
    if event {
      OverwriteCopies(r);
      forall q | 0 <= q < |r.cpus| ensures Recognises(e, t.trace, q, t.cpus[q]) {
        if Own(r.cpus[q]) {
          assert t.cpus[q] == r.cpus[q];
        }
        SameRecognised(e, r.trace, q, r.cpus[q], t.cpus[q]);
      }
    }
  }

  lemma SameRecognised(e: Env, t: seq<Read>, q: nat, c: Cpu, d: Cpu)
    requires Recognises(e, t, q, c) && Own(c) == Own(d) && (Own(c) ==> c == d)
    ensures Recognises(e, t, q, d)
  {
    SameRecognition(e, t, t, q, c, d);
  }

  /** What one call does, exactly: who is asked, who is recognised as what, what an event copies,
      and which masks and counts become known. */
  ghost predicate CallIsExact(e: Env, s: State, event: bool, t: State) {
    && |s.cpus| == |t.cpus| && s.trace <= t.trace
    && AllRecognised(e, t)
    && Asked(s, t, 0)
    && (event ==> Copies(t.cpus))
    && var now := if event then AtEvent else AtStartup;
       && NewlyOwn(s, t, now)
       && forall q :: 0 <= q < |s.cpus| ==> Decided(e, s, t, q, CoreMasks, now) && Decided(e, s, t, q, ChaMasks, now)
  }

  lemma AskedLater(s: State, m: State, t: State)
    requires |s.cpus| == |m.cpus| == |t.cpus| && s.trace <= m.trace <= t.trace && Asked(s, m, 0)
    ensures Asked(s, t, 0)
  {
    forall q | 0 <= q < |s.cpus| && !Own(s.cpus[q])
      ensures exists n: nat :: |s.trace| <= n < |t.trace| && t.trace[n] == GetCpuid(q)
    {
      var n: nat :| |s.trace| <= n < |m.trace| && m.trace[n] == GetCpuid(q);
      assert t.trace[n] == GetCpuid(q);
    }
  }

  /** A register decided in a loop is decided in the call around it. */
  lemma DecidedInCall(e: Env, s: State, a: State, b: State, t: State, q: nat, register: Register, now: Source)
    requires |s.cpus| == |a.cpus| == |b.cpus| == |t.cpus| && q < |s.cpus|
    requires s.trace <= a.trace <= b.trace && BeginsLow(b, t)
    requires Settled(s.cpus[q], register) == Settled(a.cpus[q], register) && Decided(e, a, b, q, register, now)
    requires b.cpus[q].model == t.cpus[q].model && Settled(b.cpus[q], register) == Settled(t.cpus[q], register)
    requires if register == CoreMasks then SameCoreMask(b.cpus[q], t.cpus[q])
             else SameChaCount(b.cpus[q], t.cpus[q])
    ensures Decided(e, s, t, q, register, now)
  {
    hide HalvesDecide;
    if !Settled(s.cpus[q], register) {
      var n: nat :| |a.trace| <= n && HalvesDecide(e, b.trace, n, q, register, b.cpus[q], now);
      DecidedStays(e, b.trace, t.trace, n, q, register, b.cpus[q], t.cpus[q], now);
    }
  }

  lemma CallExactly(e: Env, s: State, event: bool)
    requires Inv(s.cpus) && AllRecognised(e, s)
    ensures CallIsExact(e, s, event, Call(e, s, event))
  {
    hide Identities, CoreMasksFrom, ChaCountsFrom, Recognises, Copies, HalvesDecide, MaskRead, ChaRead, Inv, Asked,
         Decided, SameIdentity, IdentityRead;
    var now := At(event);
    var i := Identities(e, s, event);
    IdentitiesOf(e, s, event);
    IdentitiesExactly(e, s, event);
    var m := CoreMasksFrom(e, i, 0, now);
    MaskLoopLaw(e, i, 0, now);
    MaskAll(e, i, 0, now);
    forall q | 0 <= q < |s.cpus| ensures SameCpuid(i.cpus[q], m.cpus[q]) {
      assert MaskOutcome(e, i, m, q);
    }
    RecognisedStays(e, i, m);
    var t := ChaCountsFrom(e, m, 0, now);
    ChaLoopLaw(e, m, 0, now);
    ChaAll(e, m, 0, now);
    forall q | 0 <= q < |s.cpus| ensures SameCpuid(m.cpus[q], t.cpus[q]) {
      assert ChaOutcome(e, m, t, q);
    }
    RecognisedStays(e, m, t);
    if event {
      CopiesStay(i, m);
      CopiesStay(m, t);
    }
    AskedLater(s, i, t);
    forall q | 0 <= q < |s.cpus|
      ensures Decided(e, s, t, q, CoreMasks, now) && Decided(e, s, t, q, ChaMasks, now)
    {
      assert MaskOutcome(e, i, m, q) && ChaOutcome(e, m, t, q);
      SameModels(i, m, t, q);
      DecidedInCall(e, s, i, m, t, q, CoreMasks, now);
      DecidedInCall(e, s, m, t, t, q, ChaMasks, now);
    }
  }

  lemma SameModels(i: State, m: State, t: State, q: nat)
    requires q < |i.cpus| == |m.cpus| == |t.cpus|
    requires SameCpuid(i.cpus[q], m.cpus[q]) && SameCpuid(m.cpus[q], t.cpus[q])
    ensures i.cpus[q].model == m.cpus[q].model == t.cpus[q].model
  {
  }

  /** Over any sequence of calls and whatever PECI answers: a socket is recognised exactly if one of
      its own reads was answered with a known CPUID, as the model this read and the platform read
      behind it say; and the last call did exactly what CallIsExact says. */
  lemma {:induction false} DiscoveryIsExact(e: Env, sockets: nat, events: seq<bool>)
    ensures AllRecognised(e, AfterCalls(e, sockets, events))
    ensures events != [] ==>
              CallIsExact(e, AfterCalls(e, sockets, events[..|events| - 1]), events[|events| - 1],
                          AfterCalls(e, sockets, events))
  {
    hide Call, CallIsExact, Inv;
    if events == [] {
      NothingRead(e, sockets);
    } else {
      var init := events[..|events| - 1];
      DiscoveryIsExact(e, sockets, init);
      DiscoveryIsSound(e, sockets, init);
      CallExactly(e, AfterCalls(e, sockets, init), events[|events| - 1]);
      ExactRecognises(e, AfterCalls(e, sockets, init), events[|events| - 1], AfterCalls(e, sockets, events));
    }
  }

  lemma ExactRecognises(e: Env, s: State, event: bool, t: State)
    requires CallIsExact(e, s, event, t)
    ensures AllRecognised(e, t)
  {
  }

  lemma NothingRead(e: Env, sockets: nat)
    ensures AllRecognised(e, Unknown(sockets))
  {
  }
}
