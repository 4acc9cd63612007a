/** From which family's registers a socket's core mask and CHA count were read. The model is
    looked at when the read is made; the value is kept even if the model turns out otherwise. */
module DiscoveryFamilies {
  import opened Numerals
  import opened CmdInOut
  import opened Models
  import opened CpuDiscovery
  import opened DiscoveryTheorems

  /** Both halves were read and accepted in the family's registers. */
  ghost predicate FromFamily(e: Env, trace: seq<Read>, q: nat, register: Register, f: Family) {
    exists n: nat :: ReadAs(e, trace, n, q, register, f)
  }

  /** A known value is the one that was read in the family's registers. */
  ghost predicate ValueFrom(e: Env, trace: seq<Read>, q: nat, c: Cpu, register: Register, f: Family) {
    exists n: nat :: ReadAs(e, trace, n, q, register, f) && IsValue(e, n, c, register)
  }

  predicate IsValue(e: Env, n: nat, c: Cpu, register: Register) {
    if register == CoreMasks then c.coreMask == e(n + 1).value * TWO_TO_THE_32 + e(n).value
    else c.chaCount == Popcount(e(n).value) + Popcount(e(n + 1).value)
  }

  /******* Accepted pairs of halves in one call *******/

  /** A stretch of reads does not begin with the second half of a register. */
  predicate StartsFresh(s: State, t: State) {
    |t.trace| > |s.trace| ==> !(t.trace[|s.trace|].Half? && t.trace[|s.trace|].high)
  }

  /** Every accepted pair read in the stretch settles its register, in the family of the model. */
  ghost predicate PairsSettle(e: Env, s: State, t: State, register: Register) {
    && |s.cpus| == |t.cpus|
    && forall n: nat, q: nat, f: Family :: |s.trace| <= n && ReadAs(e, t.trace, n, q, register, f) ==>
         Settles(s, t, q, register, f)
  }

  predicate Settles(s: State, t: State, q: nat, register: Register, f: Family)
    requires |s.cpus| == |t.cpus|
  {
    q < |s.cpus| && !Settled(s.cpus[q], register) && Settled(t.cpus[q], register) && f == FamilyOf(t.cpus[q].model)
  }

  lemma HalvesPairs(e: Env, trace: seq<Read>, q: nat, register: Register, family: Family)
    ensures var h := ReadHalves(e, trace, q, register, family);
            && trace < h.trace && |h.trace| <= |trace| + 2
            && h.trace[|trace|] == Half(q, register, family, false)
            && (|h.trace| == |trace| + 1 ==> e(|trace|).Failed())
            && (|h.trace| == |trace| + 2 ==> h.trace[|trace| + 1] == Half(q, register, family, true))
            && (h.ok <==> |h.trace| == |trace| + 2 && !e(|trace|).Failed() && !e(|trace| + 1).Failed())
  {
    hide Unacceptable;
  }

  /** The one pair that reading the two halves can add, whatever is read later. */
  lemma OnlyPair(e: Env, trace: seq<Read>, i: nat, register: Register, family: Family, later: seq<Read>,
                 n: nat, q: nat, f: Family)
    requires var h := ReadHalves(e, trace, i, register, family);
             h.trace <= later && |trace| <= n < |h.trace| && ReadAs(e, later, n, q, register, f)
    ensures q == i && f == family && ReadHalves(e, trace, i, register, family).ok
  {
    hide Unacceptable;
    HalvesPairs(e, trace, i, register, family);
    var h := ReadHalves(e, trace, i, register, family);
    assert later[n] == h.trace[n];
    if n + 1 < |h.trace| {
      assert later[n + 1] == h.trace[n + 1];
    }
  }

  lemma {:induction false} CorePairs(e: Env, s: State, i: nat, now: Source)
    requires i <= |s.cpus|
    ensures var t := CoreMasksFrom(e, s, i, now);
            PairsSettle(e, s, t, CoreMasks) && StartsFresh(s, t)
    decreases |s.cpus| - i
  {
    hide ReadHalves, ReadAs, FamilyOf, CoreMaskOf;
    if i < |s.cpus| {
      var r := ReadCoreMask(e, s, i, now);
      var t := CoreMasksFrom(e, r, i + 1, now);
      CorePairs(e, r, i + 1, now);
      MaskStep(e, s, i, now);
      MaskAll(e, r, i + 1, now);
      HalvesPairs(e, s.trace, i, CoreMasks, FamilyOf(s.cpus[i].model));
      forall n: nat, q: nat, f: Family | |s.trace| <= n && ReadAs(e, t.trace, n, q, CoreMasks, f)
        ensures Settles(s, t, q, CoreMasks, f)
      {
        if n < |r.trace| {
          OnlyPair(e, s.trace, i, CoreMasks, FamilyOf(s.cpus[i].model), t.trace, n, q, f);
        } else {
          assert Settles(r, t, q, CoreMasks, f);
        }
      }
    } else {
      NoPairAtEnd(e, s, CoreMasks);
    }
  }

  lemma NoPairAtEnd(e: Env, s: State, register: Register)
    ensures PairsSettle(e, s, s, register)
  {
  }

  lemma {:induction false} ChaPairs(e: Env, s: State, i: nat, now: Source)
    requires i <= |s.cpus|
    ensures var t := ChaCountsFrom(e, s, i, now);
            PairsSettle(e, s, t, ChaMasks) && StartsFresh(s, t)
    decreases |s.cpus| - i
  {
    hide ReadHalves, ReadAs, FamilyOf, Popcount;
    if i < |s.cpus| {
      var r := ReadChaCount(e, s, i, now);
      var t := ChaCountsFrom(e, r, i + 1, now);
      ChaPairs(e, r, i + 1, now);
      ChaStep(e, s, i, now);
      ChaAll(e, r, i + 1, now);
      HalvesPairs(e, s.trace, i, ChaMasks, FamilyOf(s.cpus[i].model));
      forall n: nat, q: nat, f: Family | |s.trace| <= n && ReadAs(e, t.trace, n, q, ChaMasks, f)
        ensures Settles(s, t, q, ChaMasks, f)
      {
        if n < |r.trace| {
          OnlyPair(e, s.trace, i, ChaMasks, FamilyOf(s.cpus[i].model), t.trace, n, q, f);
        } else {
          assert Settles(r, t, q, ChaMasks, f);
        }
      }
    } else {
      NoPairAtEnd(e, s, ChaMasks);
    }
  }

  /** One whole call. */
  lemma CallPairs(e: Env, s: State, event: bool, register: Register)
    requires Inv(s.cpus)
    ensures var t := Call(e, s, event);
            PairsSettle(e, s, t, register) && StartsFresh(s, t)
  {
    var i := Identities(e, s, event);
    IdentitiesOf(e, s, event);
    var m := CoreMasksFrom(e, i, 0, At(event));
    MaskAll(e, i, 0, At(event));
    CorePairs(e, i, 0, At(event));
    var t := ChaCountsFrom(e, m, 0, At(event));
    ChaAll(e, m, 0, At(event));
    ChaPairs(e, m, 0, At(event));
    hide Identities, CoreMasksFrom, ChaCountsFrom, FamilyOf, MaskRead, ChaRead;
    assert forall n :: |s.trace| <= n < |i.trace| ==> t.trace[n] == i.trace[n];
    forall n: nat, q: nat, f: Family | |s.trace| <= n && ReadAs(e, t.trace, n, q, register, f)
      ensures Settles(s, t, q, register, f)
    {
      if n < |i.trace| {
      } else if n < |m.trace| {
        assert t.trace[n] == m.trace[n];
        assert m.trace[n].register == CoreMasks;
        if n + 1 < |m.trace| {
          assert ReadAs(e, m.trace, n, q, register, f);
          assert Settles(i, m, q, register, f);
        }
      } else {
        assert t.trace[n].register == ChaMasks;
        assert Settles(m, t, q, register, f);
      }
      if q < |s.cpus| {
        assert MaskOutcome(e, i, m, q) && ChaOutcome(e, m, t, q);
      }
    }
    FirstReads(s, i, m, t);
  }

  lemma FirstReads(s: State, i: State, m: State, t: State)
    requires Extends(s, i) && Extends(i, m) && Extends(m, t) && StartsFresh(i, m) && StartsFresh(m, t)
    requires forall n :: |s.trace| <= n < |i.trace| ==> IdentityRead(i.trace[n])
    ensures StartsFresh(s, t)
  {
    if |i.trace| > |s.trace| {
      assert t.trace[|s.trace|] == i.trace[|s.trace|];
    } else if |m.trace| > |s.trace| {
      assert t.trace[|s.trace|] == m.trace[|s.trace|];
    }
  }

  /******* Any sequence of calls *******/

  /** An accepted pair of the later trace is old, or was read in the last call. */
  lemma OldOrNewPair(e: Env, s: State, t: State, n: nat, q: nat, register: Register, f: Family)
    requires Extends(s, t) && StartsFresh(s, t) && ReadAs(e, t.trace, n, q, register, f)
    ensures |s.trace| <= n || ReadAs(e, s.trace, n, q, register, f)
  {
    if n < |s.trace| {
      assert t.trace[n] == s.trace[n];
      if n + 1 < |s.trace| {
        assert t.trace[n + 1] == s.trace[n + 1];
      }
    }
  }

  /** Only settled registers have an accepted pair. */
  lemma {:induction false} PairsAreSettled(e: Env, sockets: nat, events: seq<bool>, n: nat, q: nat,
                                           register: Register, f: Family)
    requires ReadAs(e, AfterCalls(e, sockets, events).trace, n, q, register, f)
    ensures q < sockets && Settled(AfterCalls(e, sockets, events).cpus[q], register)
  {
    hide Call, ReadAs, FamilyOf;
    if events == [] {
      assert AfterCalls(e, sockets, []).trace == [];
      NoReads(e, n, q, register, f);
    } else {
      var s, event := AfterCalls(e, sockets, events[..|events| - 1]), events[|events| - 1];
      var t := Call(e, s, event);
      DiscoveryIsSound(e, sockets, events[..|events| - 1]);
      CallPairs(e, s, event, register);
      CallKeeps(e, s, event);
      OldOrNewPair(e, s, t, n, q, register, f);
      if |s.trace| <= n {
        assert Settles(s, t, q, register, f);
      } else {
        PairsAreSettled(e, sockets, events[..|events| - 1], n, q, register, f);
        assert Kept(e, s, t, q);
      }
    }
  }

  lemma NoReads(e: Env, n: nat, q: nat, register: Register, f: Family)
    ensures !ReadAs(e, [], n, q, register, f)
  {
  }

  /** The register became known in this call of the sequence. */
  predicate BecameKnown(e: Env, sockets: nat, before: seq<bool>, event: bool, q: nat, register: Register)
    requires q < sockets
  {
    && !Settled(AfterCalls(e, sockets, before).cpus[q], register)
    && Settled(AfterCalls(e, sockets, before + [event]).cpus[q], register)
  }

  lemma CallOf(e: Env, sockets: nat, before: seq<bool>, event: bool)
    ensures AfterCalls(e, sockets, before + [event]) == Call(e, AfterCalls(e, sockets, before), event)
    ensures Inv(AfterCalls(e, sockets, before).cpus)
  {
    hide Call;
    assert (before + [event])[..|before + [event]| - 1] == before;
    DiscoveryIsSound(e, sockets, before);
  }

  /** Whatever is called later, the only accepted pair is of the family of the model that the
      socket had in the call that read it. */
  lemma {:induction false} PairFamily(e: Env, sockets: nat, before: seq<bool>, event: bool, more: seq<bool>,
                                      n: nat, q: nat, register: Register, f: Family)
    requires q < sockets && BecameKnown(e, sockets, before, event, q, register)
    requires ReadAs(e, AfterCalls(e, sockets, before + [event] + more).trace, n, q, register, f)
    ensures f == FamilyOf(AfterCalls(e, sockets, before + [event]).cpus[q].model)
  {
    hide Call, ReadAs, FamilyOf, AfterCalls;
    var known := before + [event];
    if more == [] {
      assert known + more == known;
      var s, t := AfterCalls(e, sockets, before), AfterCalls(e, sockets, known);
      CallOf(e, sockets, before, event);
      CallPairs(e, s, event, register);
      CallKeeps(e, s, event);
      OldOrNewPair(e, s, t, n, q, register, f);
      if |s.trace| <= n {
        assert Settles(s, t, q, register, f);
      } else {
        PairsAreSettled(e, sockets, before, n, q, register, f);
      }
    } else {
      var init, last := known + more[..|more| - 1], more[|more| - 1];
      assert known + more == init + [last];
      var s, t := AfterCalls(e, sockets, init), AfterCalls(e, sockets, init + [last]);
      CallOf(e, sockets, init, last);
      CallPairs(e, s, last, register);
      CallKeeps(e, s, last);
      OldOrNewPair(e, s, t, n, q, register, f);
      if |s.trace| <= n {
        assert Settles(s, t, q, register, f);
        StaysKnown(e, sockets, known, more[..|more| - 1], q, register);
      } else {
        PairFamily(e, sockets, before, event, more[..|more| - 1], n, q, register, f);
      }
    }
  }

  lemma StaysKnown(e: Env, sockets: nat, events: seq<bool>, more: seq<bool>, q: nat, register: Register)
    requires q < sockets
    ensures var c, d := AfterCalls(e, sockets, events).cpus[q], AfterCalls(e, sockets, events + more).cpus[q];
            && (Settled(c, register) ==> Settled(d, register))
            && (Settled(c, register) ==>
                if register == CoreMasks then d.coreMask == c.coreMask else d.chaCount == c.chaCount)
            && (Own(c) ==> Own(d) && d.model == c.model)
  {
    hide AfterCalls;
    SettledForEver(e, sockets, events, more, q);
  }

  lemma {:induction false} TraceGrows(e: Env, sockets: nat, events: seq<bool>, more: seq<bool>)
    ensures AfterCalls(e, sockets, events).trace <= AfterCalls(e, sockets, events + more).trace
  {
    hide Call;
    if more == [] {
      assert events + more == events;
    } else {
      var init := events + more[..|more| - 1];
      TraceGrows(e, sockets, events, more[..|more| - 1]);
      assert events + more == init + [more[|more| - 1]];
      CallOf(e, sockets, init, more[|more| - 1]);
      CallKeeps(e, AfterCalls(e, sockets, init), more[|more| - 1]);
    }
  }

  /** The value that became known is the one read in the family of the model of that call. */
  lemma ReadInCall(e: Env, sockets: nat, before: seq<bool>, event: bool, q: nat, register: Register)
    requires q < sockets && BecameKnown(e, sockets, before, event, q, register)
    ensures var t := AfterCalls(e, sockets, before + [event]);
            ValueFrom(e, t.trace, q, t.cpus[q], register, FamilyOf(t.cpus[q].model))
  {
    hide Call, AfterCalls, ValueFrom, Kept;
    CallOf(e, sockets, before, event);
    var s, t := AfterCalls(e, sockets, before), AfterCalls(e, sockets, before + [event]);
    CallKeeps(e, s, event);
    assert Kept(e, s, t, q);
    KnownValue(e, s, t, q, register);
  }

  lemma KnownValue(e: Env, s: State, t: State, q: nat, register: Register)
    requires q < |s.cpus| == |t.cpus| && Kept(e, s, t, q)
    requires !Settled(s.cpus[q], register) && Settled(t.cpus[q], register)
    ensures ValueFrom(e, t.trace, q, t.cpus[q], register, FamilyOf(t.cpus[q].model))
  {
    hide MaskRead, ChaRead, ValueFrom, FamilyOf, SameCpuid, SameCoreMask, SameChaCount, Own;
    if register == CoreMasks {
      MaskValue(e, t.trace, q, t.cpus[q], |s.trace|);
    } else {
      CountValue(e, t.trace, q, t.cpus[q], |s.trace|);
    }
  }

  lemma MaskValue(e: Env, trace: seq<Read>, q: nat, c: Cpu, from: nat)
    requires MaskRead(e, trace, q, c, from)
    ensures ValueFrom(e, trace, q, c, CoreMasks, FamilyOf(c.model))
  {
    hide FamilyOf, ReadAs;
    var n: nat :| from <= n && ReadAs(e, trace, n, q, CoreMasks, FamilyOf(c.model))
                  && c.coreMask == e(n + 1).value * TWO_TO_THE_32 + e(n).value;
    assert IsValue(e, n, c, CoreMasks);
  }

  lemma CountValue(e: Env, trace: seq<Read>, q: nat, c: Cpu, from: nat)
    requires ChaRead(e, trace, q, c, from)
    ensures ValueFrom(e, trace, q, c, ChaMasks, FamilyOf(c.model))
  {
    hide FamilyOf, ReadAs, Popcount;
    var n: nat :| from <= n && ReadAs(e, trace, n, q, ChaMasks, FamilyOf(c.model))
                  && c.chaCount == Popcount(e(n).value) + Popcount(e(n + 1).value);
    assert IsValue(e, n, c, ChaMasks);
  }

  /** For every sequence of calls and whatever PECI answers: a known core mask or CHA count is
      the value read in the registers of exactly one family, that of the model the socket had in
      the call that read it; so it is of the final model's family if and only if that model was. */
  lemma FamilyExactly(e: Env, sockets: nat, before: seq<bool>, event: bool, more: seq<bool>, q: nat, register: Register)
    requires q < sockets && BecameKnown(e, sockets, before, event, q, register)
    ensures var reader := FamilyOf(AfterCalls(e, sockets, before + [event]).cpus[q].model);
            var u := AfterCalls(e, sockets, before + [event] + more);
            && Settled(u.cpus[q], register)
            && ValueFrom(e, u.trace, q, u.cpus[q], register, reader)
            && (forall f :: FromFamily(e, u.trace, q, register, f) <==> f == reader)
            && (FromFamily(e, u.trace, q, register, FamilyOf(u.cpus[q].model)) <==> FamilyOf(u.cpus[q].model) == reader)
  {
    hide AfterCalls, FamilyOf, ReadAs, Popcount;
    var known := before + [event];
    var t, u := AfterCalls(e, sockets, known), AfterCalls(e, sockets, known + more);
    var family := FamilyOf(t.cpus[q].model);
    ReadInCall(e, sockets, before, event, q, register);
    var n: nat :| ReadAs(e, t.trace, n, q, register, family) && IsValue(e, n, t.cpus[q], register);
    TraceGrows(e, sockets, known, more);
    OlderPair(e, t.trace, u.trace, n, q, register, family);
    StaysKnown(e, sockets, known, more, q, register);
    assert IsValue(e, n, u.cpus[q], register);
    forall f, m: nat | ReadAs(e, u.trace, m, q, register, f) ensures f == family {
      PairFamily(e, sockets, before, event, more, m, q, register, f);
    }
  }

  lemma OlderPair(e: Env, t: seq<Read>, u: seq<Read>, n: nat, q: nat, register: Register, f: Family)
    requires t <= u && ReadAs(e, t, n, q, register, f)
    ensures ReadAs(e, u, n, q, register, f)
  {
  }

  /******* Which model a socket has in a call *******/

  /** Where a socket's model comes from: nowhere yet, from a socket that was recognised by its
      own read, or from its own read. */
  ghost predicate Origin(cpus: seq<Cpu>, q: nat)
    requires q < |cpus|
  {
    match cpus[q].cpuidSource
    case Invalid => !cpus[q].cpuidValid && cpus[q].model == ICX
    case Overwritten => exists d :: 0 <= d < |cpus| && Own(cpus[d]) && cpus[q].model == cpus[d].model
    case _ => cpus[q].cpuidValid
  }

  ghost predicate Origins(cpus: seq<Cpu>) {
    forall q :: 0 <= q < |cpus| ==> Origin(cpus, q)
  }

  /** A read that fails to identify a socket leaves its model and source alone. */
  predicate Identified(c: Cpu, d: Cpu) {
    d == c || Own(d) || (!d.cpuidValid && d.cpuidSource == c.cpuidSource && d.model == c.model)
  }

  lemma IdentifiedOnce(e: Env, s: State, i: nat, now: Source)
    requires i < |s.cpus| && (now == AtStartup || now == AtEvent)
    ensures Identified(s.cpus[i], s.cpus[i])
    ensures Identified(s.cpus[i], Identify(e, s, i, now).cpus[i])
  {
    hide Unacceptable;
  }

  lemma {:induction false} IdentifyModels(e: Env, s: State, i: nat, now: Source)
    requires i <= |s.cpus| && (now == AtStartup || now == AtEvent)
    ensures var t := IdentifyFrom(e, s, i, now);
            forall q :: 0 <= q < |s.cpus| ==>
              (if q < i then t.cpus[q] == s.cpus[q] else Identified(s.cpus[q], t.cpus[q]))
    decreases |s.cpus| - i
  {
    hide Identify, Identified, NeedsCpuid;
    if i < |s.cpus| {
      var r := if NeedsCpuid(s.cpus[i]) then Identify(e, s, i, now) else s;
      IdentifyModels(e, r, i + 1, now);
      IdentifiedOnce(e, s, i, now);
      if NeedsCpuid(s.cpus[i]) {
        IdentifyStep(e, s, i, now);
      }
    }
  }

  lemma IdentifyOrigins(e: Env, s: State, now: Source)
    requires Inv(s.cpus) && Origins(s.cpus) && (now == AtStartup || now == AtEvent)
    ensures var r := IdentifyFrom(e, s, 0, now);
            Origins(r.cpus) && forall q :: 0 <= q < |r.cpus| && r.cpus[q].cpuidValid ==> Own(r.cpus[q])
  {
    var r := IdentifyFrom(e, s, 0, now);
    IdentifyModels(e, s, 0, now);
    IdentifyAll(e, s, 0, now);
    hide IdentifyFrom, ModelFits, IdentityRead, SameCoreMask, SameChaCount;
    assert forall q :: 0 <= q < |s.cpus| && Own(s.cpus[q]) ==> r.cpus[q] == s.cpus[q];
    forall q | 0 <= q < |s.cpus| ensures Origin(r.cpus, q) {
      assert Origin(s.cpus, q) && Identified(s.cpus[q], r.cpus[q]);
    }
    forall q | 0 <= q < |s.cpus| && r.cpus[q].cpuidValid ensures Own(r.cpus[q]) {
      assert Sound(s.cpus, q);
    }
  }

  lemma CallOrigins(e: Env, s: State, event: bool)
    requires Inv(s.cpus) && Origins(s.cpus)
    ensures Origins(Call(e, s, event).cpus)
  {
    hide IdentifyFrom, CoreMasksFrom, ChaCountsFrom, MaskRead, ChaRead, Origins, OverwriteAll;
    IdentifyOrigins(e, s, At(event));
    if event {
      OverwriteOrigins(IdentifyFrom(e, s, 0, AtEvent));
    }
    var i := Identities(e, s, event);
    var m := CoreMasksFrom(e, i, 0, At(event));
    MaskAll(e, i, 0, At(event));
    var t := ChaCountsFrom(e, m, 0, At(event));
    ChaAll(e, m, 0, At(event));
    forall q | 0 <= q < |s.cpus| ensures SameCpuid(i.cpus[q], t.cpus[q]) {
      assert MaskOutcome(e, i, m, q) && ChaOutcome(e, m, t, q);
    }
    SameOrigins(i.cpus, t.cpus);
  }

  lemma SameOrigins(c: seq<Cpu>, d: seq<Cpu>)
    requires |c| == |d| && Origins(c) && forall q :: 0 <= q < |c| ==> SameCpuid(c[q], d[q])
    ensures Origins(d)
  {
    forall q | 0 <= q < |d| ensures Origin(d, q) {
      assert Origin(c, q);
      if c[q].cpuidSource == Overwritten {
        var k :| 0 <= k < |c| && Own(c[k]) && c[q].model == c[k].model;
        assert Own(d[k]) && d[q].model == d[k].model;
      }
    }
  }

  lemma OverwriteOrigins(r: State)
    requires Origins(r.cpus) && forall q :: 0 <= q < |r.cpus| && r.cpus[q].cpuidValid ==> Own(r.cpus[q])
    ensures Origins(OverwriteAll(r).cpus)
  {
    var t, d := OverwriteAll(r), FirstValid(r.cpus, 0);
    forall q | 0 <= q < |t.cpus| ensures Origin(t.cpus, q) {
      assert Origin(r.cpus, q);
      if d.Some? {
        assert t.cpus[d.value] == r.cpus[d.value] && Own(t.cpus[d.value]);
      }
    }
  }

  lemma {:induction false} OriginsAlways(e: Env, sockets: nat, events: seq<bool>)
    ensures Origins(AfterCalls(e, sockets, events).cpus)
  {
    hide Call;
    if events != [] {
      OriginsAlways(e, sockets, events[..|events| - 1]);
      DiscoveryIsSound(e, sockets, events[..|events| - 1]);
      CallOrigins(e, AfterCalls(e, sockets, events[..|events| - 1]), events[|events| - 1]);
    }
  }

  /** When a known value is of the final model's family, by what was known of the socket in the
      call that read it: always, if the socket had been recognised by its own read; if nothing
      was known of it, exactly when it is finally of the Ice Lake family; if it was overwritten,
      exactly when it is finally of the family of the socket it was copied from. */
  lemma RightFamilyIff(e: Env, sockets: nat, before: seq<bool>, event: bool, more: seq<bool>,
                       q: nat, register: Register)
    requires q < sockets && BecameKnown(e, sockets, before, event, q, register)
    ensures var t := AfterCalls(e, sockets, before + [event]);
            var u := AfterCalls(e, sockets, before + [event] + more);
            var final := FamilyOf(u.cpus[q].model);
            var right := FromFamily(e, u.trace, q, register, final);
            match t.cpus[q].cpuidSource
            case Invalid => right <==> final == IceLake
            case Overwritten =>
              exists d :: 0 <= d < sockets && Own(t.cpus[d]) && t.cpus[d].model == t.cpus[q].model
                          && u.cpus[d].model == t.cpus[d].model && (right <==> final == FamilyOf(u.cpus[d].model))
            case _ => right && u.cpus[q].model == t.cpus[q].model
  {
    hide AfterCalls, ReadAs;
    FamilyExactly(e, sockets, before, event, more, q, register);
    OriginsAlways(e, sockets, before + [event]);
    var t := AfterCalls(e, sockets, before + [event]);
    assert Origin(t.cpus, q);
    if t.cpus[q].cpuidSource == Overwritten {
      var d :| 0 <= d < |t.cpus| && Own(t.cpus[d]) && t.cpus[q].model == t.cpus[d].model;
      StaysKnown(e, sockets, before + [event], more, d, register);
    } else {
      StaysKnown(e, sockets, before + [event], more, q, register);
    }
  }

  /******* Both ways of keeping the wrong family's values happen *******/

  /** Nothing known: a socket whose CPUID is not recognised at start-up is taken for an Ice Lake
      one, and keeps those masks when it turns out to be a Sapphire Rapids one. */
  lemma UnknownSocketKeepsIceLake()
    ensures BecameKnown(LateCpuid, 1, [], false, 0, CoreMasks)
    ensures var u := AfterCalls(LateCpuid, 1, [false, true]);
            && FamilyOf(u.cpus[0].model) == SapphireRapids && Own(u.cpus[0])
            && !FromFamily(LateCpuid, u.trace, 0, CoreMasks, SapphireRapids)
  {
    hide Call, ReadAs;
    FirstCall(LateCpuid);
    MasksCanBeOfAnotherFamily();
    assert [] + [false] == [false] && [false] + [true] == [false, true] && [false][..0] == [];
    assert AfterCalls(LateCpuid, 1, []) == Unknown(1);
    assert AfterCalls(LateCpuid, 1, [false]) == Call(LateCpuid, Unknown(1), false);
    FirstModel(LateCpuid);
    FamilyExactly(LateCpuid, 1, [], false, [true], 0, CoreMasks);
  }

  lemma FirstModel(e: Env)
    requires !Recognised(e(0).cpuModel)
    ensures Call(e, Unknown(1), false).cpus[0].model == ICX
  {
    hide Popcount, Unacceptable, IdentifyFrom, CoreMasksFrom, ChaCountsFrom;
    var s := Unknown(1);
    OneSocket(e, s, AtStartup);
    var i := Identify(e, s, 0, AtStartup);
    OneSocket(e, i, AtStartup);
    OneSocket(e, ReadCoreMask(e, i, 0, AtStartup), AtStartup);
  }

  /** Every read succeeds; the first socket is a Sapphire Rapids one, and the second is only
      recognised, as an Ice Lake one, in the second event. */
  function LateIceLake(n: nat): Answer {
    Answer(PECI_CC_SUCCESS, PECI_DEV_CC_SUCCESS,
           if n == 0 then SPR_MODEL else if n == 11 then ICX_MODEL else 0, 0, 1, false)
  }

  lemma TwoSockets(e: Env, s: State, now: Source)
    requires |s.cpus| == 2
    ensures IdentifyFrom(e, s, 0, now) ==
            var t := if NeedsCpuid(s.cpus[0]) then Identify(e, s, 0, now) else s;
            if NeedsCpuid(t.cpus[1]) then Identify(e, t, 1, now) else t
    ensures CoreMasksFrom(e, s, 0, now) == ReadCoreMask(e, ReadCoreMask(e, s, 0, now), 1, now)
    ensures ChaCountsFrom(e, s, 0, now) == ReadChaCount(e, ReadChaCount(e, s, 0, now), 1, now)
  {
    hide Identify, ReadCoreMask, ReadChaCount, NeedsCpuid;
    var t := if NeedsCpuid(s.cpus[0]) then Identify(e, s, 0, now) else s;
    var u := if NeedsCpuid(t.cpus[1]) then Identify(e, t, 1, now) else t;
    assert IdentifyFrom(e, u, 2, now) == u;
    assert IdentifyFrom(e, t, 1, now) == u;
    var a := ReadCoreMask(e, s, 0, now);
    var b := ReadCoreMask(e, a, 1, now);
    assert CoreMasksFrom(e, b, 2, now) == b;
    assert CoreMasksFrom(e, a, 1, now) == b;
    var c := ReadChaCount(e, s, 0, now);
    var d := ReadChaCount(e, c, 1, now);
    assert ChaCountsFrom(e, d, 2, now) == d;
    assert ChaCountsFrom(e, c, 1, now) == d;
  }

  /** The first event: the second socket is overwritten, and its masks are read as its donor's. */
  lemma FirstEvent(e: Env)
    requires e == LateIceLake
    ensures var t := Call(e, Unknown(2), true);
            && |t.cpus| == 2 && Own(t.cpus[0]) && t.cpus[1].cpuidSource == Overwritten && t.cpus[1].model == SPR
            && t.cpus[1].cpuidValid && t.cpus[0].coreMaskValid && t.cpus[1].coreMaskValid
            && t.cpus[0].chaCountValid && t.cpus[1].chaCountValid && |t.trace| == 11
  {
    hide Identities, CoreMasksFrom, ChaCountsFrom, Unacceptable, FamilyOf, ReadChaCount, ReadCoreMask;
    FirstIdentities(e);
    assert forall n: nat :: !e(n).Failed() by { NeverFails(); }
    hide LateIceLake;
    var o := Identities(e, Unknown(2), true);
    TwoSockets(e, o, AtEvent);
    BothHalves(e, o, 0, AtEvent);
    var c := ReadCoreMask(e, o, 0, AtEvent);
    BothHalves(e, c, 1, AtEvent);
    var d := ReadCoreMask(e, c, 1, AtEvent);
    TwoSockets(e, d, AtEvent);
    BothHalves(e, d, 0, AtEvent);
    BothHalves(e, ReadChaCount(e, d, 0, AtEvent), 1, AtEvent);
  }

  lemma NeverFails()
    ensures forall n: nat :: !LateIceLake(n).Failed()
  {
  }

  /** When no read fails, what was unknown takes two reads and is then known. */
  lemma BothHalves(e: Env, s: State, i: nat, now: Source)
    requires i < |s.cpus| && forall n: nat :: !e(n).Failed()
    ensures var t := ReadCoreMask(e, s, i, now);
            && t.cpus == s.cpus[i := t.cpus[i]] && SameCpuid(s.cpus[i], t.cpus[i]) && SameChaCount(s.cpus[i], t.cpus[i])
            && t.cpus[i].coreMaskValid && |t.trace| == |s.trace| + if s.cpus[i].coreMaskValid then 0 else 2
    ensures var t := ReadChaCount(e, s, i, now);
            && t.cpus == s.cpus[i := t.cpus[i]] && SameCpuid(s.cpus[i], t.cpus[i]) && SameCoreMask(s.cpus[i], t.cpus[i])
            && t.cpus[i].chaCountValid && |t.trace| == |s.trace| + if s.cpus[i].chaCountValid then 0 else 2
  {
    hide Popcount, CoreMaskOf, FamilyOf, Unacceptable;
  }

  lemma FirstIdentities(e: Env)
    requires e == LateIceLake
    ensures var t := Identities(e, Unknown(2), true);
            && |t.cpus| == 2 && Own(t.cpus[0]) && t.cpus[1].cpuidSource == Overwritten && t.cpus[1].model == SPR
            && t.cpus[1].cpuidValid && |t.trace| == 3
            && (forall q :: 0 <= q < 2 ==> !t.cpus[q].coreMaskValid && !t.cpus[q].chaCountValid)
  {
    hide IdentifyFrom;
    var s := Unknown(2);
    TwoSockets(e, s, AtEvent);
    var a := Identify(e, s, 0, AtEvent);
    assert |a.trace| == 2 && Own(a.cpus[0]) && a.cpus[0].model == SPR && a.cpus[1] == UNKNOWN;
    var b := Identify(e, a, 1, AtEvent);
    assert |b.trace| == 3 && b.cpus[0] == a.cpus[0] && !b.cpus[1].cpuidValid;
    var o := OverwriteAll(b);
    assert o.cpus[0] == a.cpus[0] && o.cpus[1].model == SPR && o.cpus[1].cpuidSource == Overwritten;
  }

  lemma SecondEvent(e: Env, s: State)
    requires |s.cpus| == 2 && Own(s.cpus[0]) && s.cpus[1].cpuidSource == Overwritten && s.cpus[1].cpuidValid
    requires s.cpus[0].coreMaskValid && s.cpus[1].coreMaskValid && s.cpus[0].chaCountValid && s.cpus[1].chaCountValid
    requires e(|s.trace|).cpuModel == ICX_MODEL && e(|s.trace|).stepping == 0
    ensures var t := Call(e, s, true);
            |t.cpus| == 2 && Own(t.cpus[1]) && t.cpus[1].model == ICX
  {
    hide Popcount, Unacceptable, IdentifyFrom, CoreMasksFrom, ChaCountsFrom;
    TwoSockets(e, s, AtEvent);
    var i := Identify(e, s, 1, AtEvent);
    assert Own(i.cpus[1]) && i.cpus[1].model == ICX && i.cpus[0] == s.cpus[0];
    var o := OverwriteAll(i);
    assert o.cpus[1] == i.cpus[1] && o.cpus[0] == i.cpus[0];
    TwoSockets(e, o, AtEvent);
    assert ReadCoreMask(e, o, 0, AtEvent) == o && ReadCoreMask(e, o, 1, AtEvent) == o;
  }

  /** Overwritten: a socket without CPUID beside a Sapphire Rapids one is read as that, and keeps
      those masks when it turns out to be an Ice Lake one. */
  lemma OverwrittenSocketKeepsDonors()
    ensures BecameKnown(LateIceLake, 2, [], true, 1, CoreMasks)
    ensures var u := AfterCalls(LateIceLake, 2, [true, true]);
            && FamilyOf(u.cpus[1].model) == IceLake && Own(u.cpus[1])
            && FromFamily(LateIceLake, u.trace, 1, CoreMasks, SapphireRapids)
            && !FromFamily(LateIceLake, u.trace, 1, CoreMasks, IceLake)
  {
    var e: Env := LateIceLake;
    hide Call, ReadAs, LateIceLake;
    FirstEvent(e);
    var t := Call(e, Unknown(2), true);
    assert e(11).cpuModel == ICX_MODEL && e(11).stepping == 0 by { EleventhRead(); }
    SecondEvent(e, t);
    assert [] + [true] == [true] && [true] + [true] == [true, true] && [true][..0] == [] && [true, true][..1] == [true];
    assert AfterCalls(e, 2, []) == Unknown(2);
    assert AfterCalls(e, 2, [true]) == t;
    FamilyExactly(e, 2, [], true, [true], 1, CoreMasks);
  }

  lemma EleventhRead()
    ensures LateIceLake(11).cpuModel == ICX_MODEL && LateIceLake(11).stepping == 0
  {
  }
}
