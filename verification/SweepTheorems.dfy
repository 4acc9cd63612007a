/** What holds of every big-core collection, for all PECI answers and clocks. */
module SweepTheorems {
  import opened Numerals
  import opened Clock
  import opened CmdInOut
  import opened DecodeMap
  import opened Memory
  import opened Models
  import opened RegisterDump
  import opened ThreadDump
  import opened BigCoreSweep

  /******* Properties of a trace *******/

  /** A header frame that is accepted: the core counts as crashed from then on. */
  predicate Accepts(ev: Event) { ev.HeaderRead? && HeaderStatus(ev.frame) == Success }

  predicate IsRead(ev: Event) { ev.HeaderRead? || ev.BodyRead? }

  /** Events after which the socket must be left alone: a skip-socket code, or a check that
      finds the collection limit reached. */
  predicate Stopping(e: Env, ev: Event) {
    || (ev.HeaderRead? && HeaderStatus(ev.frame) == NextSocket)
    || (ev.BodyRead? && !SkipCore(ev.frame.cc) && SkipSocket(ev.frame.cc))
    || (ev.Check? && e.Limit().Some? && Reached(e.Limit().value, e.start, ev.now))
  }

  predicate Counts(ev: Event) { ev.Result? && ev.thread == 0 && ev.status == Success }

  /** How many cores count as collected. */
  function Counted(t: seq<Event>): nat {
    if t == [] then 0 else Counted(t[..|t| - 1]) + if Counts(t[|t| - 1]) then 1 else 0
  }

  ghost predicate AcceptedCore(t: seq<Event>, q: nat) {
    exists i :: 0 <= i < |t| && Accepts(t[i]) && t[i].core == q
  }

  predicate NoneAccepted(t: seq<Event>) { forall i :: 0 <= i < |t| ==> !Accepts(t[i]) }

  predicate Running(e: Env, t: seq<Event>) { forall i :: 0 <= i < |t| ==> !Stopping(e, t[i]) }

  /** No frame is read after a stopping event. */
  predicate QuietAfterStop(e: Env, t: seq<Event>) {
    forall i, j :: 0 <= i < j < |t| && Stopping(e, t[i]) ==> !IsRead(t[j])
  }

  /** Accepted headers belong to the last sweep. */
  predicate AcceptedLast(t: seq<Event>) {
    forall i, j :: 0 <= i < j < |t| && Accepts(t[i]) ==> !t[j].Sweep?
  }

  predicate WithinMask(e: Env, t: seq<Event>) {
    forall i :: 0 <= i < |t| && IsRead(t[i]) ==> Bit(e.coreMask, t[i].core)
  }

  /** The crashed cores are the initial ones and those with an accepted header. */
  ghost predicate CrashedExactly(c0: nat, crashed: nat, t: seq<Event>) {
    forall q: nat :: Bit(crashed, q) <==> (Bit(c0, q) || AcceptedCore(t, q))
  }

  /** Everything stored is what the decode table of the start, without its memory of sizes,
      makes of the data. */
  ghost predicate StoresRight(e: Env, d0: Decode, t: seq<Event>) {
    forall i :: 0 <= i < |t| && t[i].Store? ==> RightStore(e, d0, t[i])
  }

  predicate RightStore(e: Env, d0: Decode, ev: Event)
    requires ev.Store?
  {
    ev.stored == StoredFor(d0, ev.version, ev.regDumpSize, e.model, ev.data, ev.end, e.limited)
  }

  /** How a run starts. */
  datatype Start = Start(crashed: nat, max: int, decode: Decode)

  ghost predicate Inv(e: Env, a: Start, s: State) {
    && CrashedExactly(a.crashed, s.crashed, s.trace)
    && WithinMask(e, s.trace)
    && AcceptedLast(s.trace)
    && QuietAfterStop(e, s.trace)
    && s.left + Counted(s.trace) == a.max && 0 <= s.left
    && (s.waiting ==> NoneAccepted(s.trace) && Counted(s.trace) == 0)
    && (Coherent(a.decode) ==>
         (Coherent(s.decode) && SameTable(a.decode, s.decode) && StoresRight(e, a.decode, s.trace)))
  }

  /******* One event *******/

  lemma CountedAdd(t: seq<Event>, ev: Event)
    ensures Counted(t + [ev]) == Counted(t) + if Counts(ev) then 1 else 0
  {
    assert (t + [ev])[..|t|] == t;
  }

  lemma AcceptedAdd(t: seq<Event>, ev: Event, q: nat)
    ensures AcceptedCore(t + [ev], q) <==> (AcceptedCore(t, q) || (Accepts(ev) && ev.core == q))
  {
    hide HeaderStatus;
    if AcceptedCore(t, q) {
      var i :| 0 <= i < |t| && Accepts(t[i]) && t[i].core == q;
      assert (t + [ev])[i] == t[i];
    }
    assert (t + [ev])[|t|] == ev;
  }

  /** Events that change nothing the invariant talks about. */
  predicate Harmless(e: Env, ev: Event) {
    !Accepts(ev) && !Counts(ev) && !ev.Sweep? && !ev.Store? && (IsRead(ev) ==> Bit(e.coreMask, ev.core))
  }

  lemma AddHarmless(e: Env, a: Start, s: State, ev: Event)
    requires Inv(e, a, s) && Harmless(e, ev) && (IsRead(ev) ==> Running(e, s.trace))
    ensures Inv(e, a, s.Add(ev))
    ensures Running(e, s.trace) && !Stopping(e, ev) ==> Running(e, s.Add(ev).trace)
  {
    hide Counted, Counts, HeaderStatus, Bit, AcceptedCore, Coherent, SameTable, RightStore, SkipCore, SkipSocket;
    CountedAdd(s.trace, ev);
    forall q: nat ensures AcceptedCore(s.trace + [ev], q) <==> AcceptedCore(s.trace, q) {
      AcceptedAdd(s.trace, ev, q);
    }
  }

  lemma AddSweep(e: Env, a: Start, s: State)
    requires Inv(e, a, s) && NoneAccepted(s.trace)
    ensures Inv(e, a, s.Add(Sweep))
    ensures Running(e, s.trace) ==> Running(e, s.Add(Sweep).trace)
    ensures NoneAccepted(s.Add(Sweep).trace)
  {
    hide Counted, HeaderStatus, Bit, AcceptedCore, Coherent, SameTable, RightStore, SkipCore, SkipSocket;
    CountedAdd(s.trace, Sweep);
    forall q: nat ensures AcceptedCore(s.trace + [Sweep], q) <==> AcceptedCore(s.trace, q) {
      AcceptedAdd(s.trace, Sweep, q);
    }
  }

  /** An accepted header, with the core marked and the wait ended. */
  lemma AddAccepted(e: Env, a: Start, s: State, ev: Event, core: nat, now: Timespec)
    requires Inv(e, a, s) && Running(e, s.trace) && Accepts(ev) && ev.core == core && Bit(e.coreMask, core)
    ensures var t := Accepted(s.Add(ev), core, now);
            Inv(e, a, t) && Running(e, t.trace) && !t.waiting
  {
    hide Counted, Bit, AcceptedCore, Coherent, SameTable, RightStore, SkipCore, SkipSocket, SetBit;
    var marked := s.Add(ev).(crashed := SetBit(s.crashed, core), waiting := false);
    CountedAdd(s.trace, ev);
    forall q: nat
      ensures Bit(marked.crashed, q) <==> (Bit(a.crashed, q) || AcceptedCore(marked.trace, q))
    {
      AcceptedAdd(s.trace, ev, q);
      BitSetBit(s.crashed, core, q);
    }
    assert Inv(e, a, marked);
    var later := marked.(tick := marked.tick + 1);
    assert Inv(e, a, later);
    AddHarmless(e, a, later, WaitNote(now));
  }

  /** A counted core. */
  lemma AddCounted(e: Env, a: Start, s: State, ev: Event)
    requires Inv(e, a, s) && Running(e, s.trace) && Counts(ev) && s.left >= 1 && !s.waiting
    ensures var t := s.Add(ev).(left := s.left - 1);
            Inv(e, a, t) && Running(e, t.trace)
  {
    hide Counted, HeaderStatus, Bit, AcceptedCore, Coherent, SameTable, RightStore, SkipCore, SkipSocket;
    CountedAdd(s.trace, ev);
    forall q: nat ensures AcceptedCore(s.trace + [ev], q) <==> AcceptedCore(s.trace, q) {
      AcceptedAdd(s.trace, ev, q);
    }
  }

  /** What a table says about a thread does not depend on the sizes it remembers. */
  lemma SameStore(d0: Decode, d: Decode, version: Uint32, regDumpSize: nat, model: Model,
                  data: seq<Byte>, end: Ending, limited: bool)
    requires Coherent(d0) && Coherent(d) && SameTable(d0, d)
    ensures StoredFor(d, version, regDumpSize, model, data, end, limited) ==
            StoredFor(d0, version, regDumpSize, model, data, end, limited)
  {
    hide PrintHex, CachedSize, EntrySize, Returned, Uncached, Decoded, RawDump;
    SameTableSameSizes(d0, d, PrintHex(version));
    CoherentIffTransparent(d0);
    CoherentIffTransparent(d);
  }

  lemma SameTableTrans(c: Decode, d: Decode, f: Decode)
    requires SameTable(c, d) && SameTable(d, f)
    ensures SameTable(c, f)
  {
    hide SameEntry;
    if c.Some? {
      forall k | 0 <= k < |c.value| ensures SameEntry(c.value[k], f.value[k]) {
        assert SameEntry(c.value[k], d.value[k]) && SameEntry(d.value[k], f.value[k]);
        SameEntryTrans(c.value[k], d.value[k], f.value[k]);
      }
    }
  }

  lemma SameEntryTrans(a: Entry, b: Entry, c: Entry)
    requires SameEntry(a, b) && SameEntry(b, c)
    ensures SameEntry(a, c)
  {
  }

  lemma AddStore(e: Env, a: Start, r: Reading, core: nat, h: Sizes)
    requires Inv(e, a, r.s)
    ensures var t := AfterStore(e, r, core, h);
            Inv(e, a, t) && (Running(e, r.s.trace) ==> Running(e, t.trace)) &&
            t.waiting == r.s.waiting && t.left == r.s.left
  {
    hide Counted, HeaderStatus, Bit, AcceptedCore, Coherent, SameTable, SkipCore, SkipSocket,
         StoredFor, Remembered, PrintHex, Buffer, WhoMisc, Env.Size;
    var s, t := r.s, AfterStore(e, r, core, h);
    var ev := t.trace[|s.trace|];
    assert t.trace == s.trace + [ev] && ev.Store?;
    CountedAdd(s.trace, ev);
    forall q: nat ensures AcceptedCore(t.trace, q) <==> AcceptedCore(s.trace, q) {
      AcceptedAdd(s.trace, ev, q);
    }
    if Coherent(a.decode) {
      SameStore(a.decode, s.decode, ev.version, ev.regDumpSize, e.model, ev.data, ev.end, e.limited);
      RememberedKeeps(s.decode, PrintHex(h.version));
      SameTableTrans(a.decode, s.decode, t.decode);
      assert RightStore(e, a.decode, ev);
    }
  }

  /******* The loops keep the invariant *******/

  /** The tick does not matter to the invariant. */
  lemma CheckedKeeps(e: Env, a: Start, s: State)
    requires Inv(e, a, s) && Running(e, s.trace)
    ensures var t := Checked(e, s);
            Inv(e, a, t) && t.waiting == s.waiting && t.left == s.left
            && (!LimitHit(e, s) ==> Running(e, t.trace))
  {
    hide Counted, HeaderStatus, Bit, CrashedExactly, WithinMask, AcceptedLast, NoneAccepted, Coherent,
         SameTable, StoresRight, SkipCore, SkipSocket, QuietAfterStop, Running;
    if e.Limit().Some? {
      var later := s.(tick := s.tick + 1);
      assert Inv(e, a, later);
      AddHarmless(e, a, later, Check(e.clock(s.tick)));
    }
  }

  lemma {:induction false} FramesKeep(e: Env, a: Start, s: State, core: nat, i: nat, n: nat,
                                     words: seq<Uint64>, last: Last)
    requires Inv(e, a, s) && Running(e, s.trace) && Bit(e.coreMask, core)
    ensures var r := ReadFrames(e, s, core, i, n, words, last);
            && Inv(e, a, r.s) && r.s.waiting == s.waiting && r.s.left == s.left
            && (r.cut in {Complete, CutToNextCore} ==> Running(e, r.s.trace))
    decreases n - i
  {
    hide Inv, Running, Bit, Reached;
    if i < n {
      CheckedKeeps(e, a, s);
      if LimitHit(e, s) {
        AddHarmless(e, a, Checked(e, s), AbortNote);
      } else {
        var f := e.frames(s.frame);
        var c := Checked(e, s).(frame := s.frame + 1);
        FrameCounter(e, a, Checked(e, s), s.frame + 1);
        AddHarmless(e, a, c, BodyRead(core, i, f));
        if !SkipCore(f.cc) && !SkipSocket(f.cc) && f.ret == PECI_CC_SUCCESS {
          FramesKeep(e, a, c.Add(BodyRead(core, i, f)), core, i + 1, n, words + [f.raw], Last(i, f.cc, f.ret));
        }
      }
    }
  }

  lemma FrameCounter(e: Env, a: Start, s: State, frame: nat)
    requires Inv(e, a, s)
    ensures Inv(e, a, s.(frame := frame))
  {
  }

  lemma QueryKeeps(e: Env, a: Start, s: State, core: nat, thread: nat)
    requires Inv(e, a, s) && Running(e, s.trace) && Bit(e.coreMask, core)
    ensures var q := Query(e, s, core, thread);
            && Inv(e, a, q.s) && (Halts(q.status) || Running(e, q.s.trace)) && q.s.left == s.left
            && (q.status == Success ==> !q.s.waiting)
  {
    hide Inv, Running, Bit, ReadFrames, Accepted, AfterStore, Multithread, Env.Size, SkipCore, SkipSocket;
    var f := e.frames(s.frame);
    var ev := HeaderRead(core, thread, f);
    var c := s.(frame := s.frame + 1);
    FrameCounter(e, a, s, s.frame + 1);
    if HeaderStatus(f) != Success {
      AddHarmless(e, a, c, ev);
    } else {
      AddAccepted(e, a, c, ev, core, e.clock(c.tick));
      AcceptedLeft(c.Add(ev), core, e.clock(c.tick));
      var t, h := Accepted(c.Add(ev), core, e.clock(c.tick)), Header(f.raw);
      FramesKeep(e, a, t, core, 1, e.Size(h) / 8, [f.raw], Last(0, f.cc, f.ret));
      AddStore(e, a, ReadFrames(e, t, core, 1, e.Size(h) / 8, [f.raw], Last(0, f.cc, f.ret)), core, h);
    }
  }

  lemma AcceptedLeft(s: State, core: nat, now: Timespec)
    ensures Accepted(s, core, now).left == s.left
  {
  }

  lemma {:induction false} ThreadsKeep(e: Env, a: Start, s: State, core: nat, thread: nat, threads: nat)
    requires Inv(e, a, s) && Running(e, s.trace) && Bit(e.coreMask, core)
    requires threads <= 2 && (thread == 0 ==> s.left >= 1)
    ensures var r := Threads(e, s, core, thread, threads);
            Inv(e, a, r.s) && (r.halt || Running(e, r.s.trace))
    decreases 2 - thread
  {
    hide Inv, Running, Bit, Query;
    if thread < threads {
      QueryKeeps(e, a, s, core, thread);
      var q := Query(e, s, core, thread);
      var ev := Result(core, thread, q.status);
      if Counts(ev) {
        AddCounted(e, a, q.s, ev);
      } else {
        AddHarmless(e, a, q.s, ev);
      }
      var t := q.s.Add(ev);
      if q.status != NextCore && !Halts(q.status) {
        ThreadsKeep(e, a, if Counts(ev) then t.(left := t.left - 1) else t, core, thread + 1,
                    if q.multithread then 2 else threads);
      }
    }
  }

  lemma {:induction false} CoresKeep(e: Env, a: Start, s: State, core: nat)
    requires e.coreMask < Pow2(63)
    requires Inv(e, a, s) && Running(e, s.trace) && s.left >= 1
    ensures var r := Cores(e, s, core);
            Inv(e, a, r.s) && (r.halt || Running(e, r.s.trace))
    decreases 63 - core
  {
    hide Inv, Running, Bit, Threads;
    if e.coreMask / Pow2(core) != 0 {
      NoCoreLeft(e.coreMask, core);
      if !Bit(e.coreMask, core) {
        CoresKeep(e, a, s, core + 1);
      } else {
        ThreadsKeep(e, a, s, core, 0, 1);
        var r := Threads(e, s, core, 0, 1);
        if !r.halt && r.s.left >= 1 {
          CoresKeep(e, a, r.s, core + 1);
        }
      }
    }
  }

  lemma WaitCheckKeeps(e: Env, a: Start, s: State)
    requires Inv(e, a, s)
    ensures Inv(e, a, s.(tick := s.tick + 1).Add(WaitCheck(e.clock(s.tick))))
    ensures Running(e, s.trace) ==> Running(e, s.(tick := s.tick + 1).Add(WaitCheck(e.clock(s.tick))).trace)
    ensures NoneAccepted(s.trace) ==> NoneAccepted(s.(tick := s.tick + 1).Add(WaitCheck(e.clock(s.tick))).trace)
  {
    hide Counted, HeaderStatus, Bit, CrashedExactly, WithinMask, AcceptedLast, Coherent, SameTable, StoresRight,
         SkipCore, SkipSocket, QuietAfterStop;
    var later := s.(tick := s.tick + 1);
    assert Inv(e, a, later);
    AddHarmless(e, a, later, WaitCheck(e.clock(s.tick)));
  }

  lemma StillWaiting(e: Env, a: Start, s: State)
    requires Inv(e, a, s) && s.waiting
    ensures NoneAccepted(s.trace) && s.left == a.max
  {
  }

  lemma {:induction false} SweepsKeep(e: Env, a: Start, s: State)
    requires e.Valid()
    requires Inv(e, a, s) && Running(e, s.trace) && NoneAccepted(s.trace) && s.left >= 1 && a.max >= 1
    ensures Inv(e, a, Sweeps(e, s))
    decreases Patience(e, s)
  {
    hide Inv, Running, Cores, NoneAccepted, Reached, Pow2;
    assert e.coreMask < Pow2(63);
    AddSweep(e, a, s);
    CoresKeep(e, a, s.Add(Sweep), 0);
    var r := Cores(e, s.Add(Sweep), 0);
    WaitCheckKeeps(e, a, r.s);
    if !r.halt && r.s.waiting && !WaitIsOver(e, r.s) {
      TicksInCores(e, s.Add(Sweep), 0);
      WaitEnds(e, r.s);
      StillWaiting(e, a, r.s);
      SweepsKeep(e, a, r.s.(tick := r.s.tick + 1).Add(WaitCheck(e.clock(r.s.tick))));
    }
  }

  /******* Whole runs *******/

  /** The state in which a collection starts. */
  function Initial(a: Start, waiting: bool): State {
    State(0, 0, a.crashed, waiting, a.max, a.decode, [])
  }

  /** Every collection, whatever PECI answers: the crashed cores are the initial ones plus
      those with an accepted header, all within the core mask; headers are accepted only in
      the last sweep; at most MaxCollectionCores cores count as collected; after a skip-socket
      code or a reached limit no further frame is read; and if no wrong size was remembered to
      begin with, everything stored is what the table without its memory makes of the data. */
  lemma CollectionIsSafe(e: Env, a: Start, waiting: bool)
    requires e.Valid()
    ensures var s := Collect(e, Initial(a, waiting));
            && (forall q: nat :: Bit(s.crashed, q) <==> (Bit(a.crashed, q) || AcceptedCore(s.trace, q)))
            && WithinMask(e, s.trace)
            && AcceptedLast(s.trace)
            && QuietAfterStop(e, s.trace)
            && Counted(s.trace) == a.max - s.left && Counted(s.trace) <= (if a.max > 0 then a.max else 0)
            && (Coherent(a.decode) ==> StoresRight(e, a.decode, s.trace))
  {
    hide Bit, Sweeps, QuietAfterStop, WithinMask, AcceptedLast, Coherent;
    var s := Initial(a, waiting);
    InitialFacts(e, a, waiting);
    if a.max > 0 {
      SweepsKeep(e, a, s);
    }
  }

  lemma InitialFacts(e: Env, a: Start, waiting: bool)
    ensures var s := Initial(a, waiting);
            && CrashedExactly(a.crashed, s.crashed, s.trace) && WithinMask(e, s.trace) && AcceptedLast(s.trace)
            && QuietAfterStop(e, s.trace) && Counted(s.trace) == 0 && StoresRight(e, a.decode, s.trace)
            && (a.max >= 0 ==> Inv(e, a, s)) && Running(e, s.trace) && NoneAccepted(s.trace)
  {
    hide Bit, Coherent;
    var s := Initial(a, waiting);
    assert forall q: nat :: !AcceptedCore(s.trace, q);
    assert SameTable(a.decode, s.decode);
  }

  /******* Which cores a sweep visits *******/

  /** The set bits of a mask from one position on, in order. */
  function Enabled(mask: nat, core: nat): seq<nat>
    requires mask < Pow2(63)
    decreases 63 - core
  {
    if mask / Pow2(core) == 0 then []
    else
      NoCoreLeft(mask, core);
      (if Bit(mask, core) then [core] else []) + Enabled(mask, core + 1)
  }

  lemma NoBitsLeft(mask: nat, i: nat, q: nat)
    requires mask / Pow2(i) == 0 && i <= q
    ensures !Bit(mask, q)
  {
    Pow2Monotone(i, q);
    assert mask < Pow2(i) by { if mask >= Pow2(i) { Times(1, mask / Pow2(i), Pow2(i)); QuotientOf(mask, Pow2(i)); } }
    UniqueQuotient(mask, Pow2(q), 0, mask);
  }

  lemma QuotientOf(n: nat, d: nat)
    requires d >= 1 && n >= d
    ensures n / d >= 1
  {
  }

  /** It lists each of them once, in ascending order. */
  lemma {:induction false} EnabledExact(mask: nat, core: nat, q: nat)
    requires mask < Pow2(63)
    ensures q in Enabled(mask, core) <==> core <= q && Bit(mask, q)
    ensures forall i, j :: 0 <= i < j < |Enabled(mask, core)| ==>
              core <= Enabled(mask, core)[i] < Enabled(mask, core)[j]
    ensures forall i :: 0 <= i < |Enabled(mask, core)| ==> core <= Enabled(mask, core)[i]
    decreases 63 - core
  {
    hide Bit, Pow2;
    if mask / Pow2(core) == 0 {
      if core <= q {
        NoBitsLeft(mask, core, q);
      }
    } else {
      NoCoreLeft(mask, core);
      EnabledExact(mask, core + 1, q);
    }
  }

  /** The cores whose first thread is asked, in order. */
  function Visits(t: seq<Event>): seq<nat> {
    if t == [] then []
    else
      var ev := t[|t| - 1];
      Visits(t[..|t| - 1]) + if ev.HeaderRead? && ev.thread == 0 then [ev.core] else []
  }

  lemma VisitsAdd(s: State, ev: Event)
    ensures Visits(s.Add(ev).trace) ==
            Visits(s.trace) + if ev.HeaderRead? && ev.thread == 0 then [ev.core] else []
  {
    assert (s.trace + [ev])[..|s.trace|] == s.trace;
  }

  lemma {:induction false} VisitsInFrames(e: Env, s: State, core: nat, i: nat, n: nat, words: seq<Uint64>, last: Last)
    ensures Visits(ReadFrames(e, s, core, i, n, words, last).s.trace) == Visits(s.trace)
    decreases n - i
  {
    hide Visits, Reached, SkipCore, SkipSocket;
    if i < n {
      if e.Limit().Some? {
        VisitsAdd(s.(tick := s.tick + 1), Check(e.clock(s.tick)));
      }
      var c, f := Checked(e, s), e.frames(s.frame);
      if LimitHit(e, s) {
        VisitsAdd(c, AbortNote);
      } else {
        VisitsAdd(c.(frame := s.frame + 1), BodyRead(core, i, f));
        VisitsInFrames(e, c.(frame := s.frame + 1).Add(BodyRead(core, i, f)), core, i + 1, n, words + [f.raw],
                       Last(i, f.cc, f.ret));
      }
    }
  }

  lemma VisitsInQuery(e: Env, s: State, core: nat, thread: nat)
    ensures Visits(Query(e, s, core, thread).s.trace) == Visits(s.trace) + if thread == 0 then [core] else []
  {
    hide Visits, ReadFrames, SetBit, HeaderStatus, Buffer, StoredFor, Remembered, WhoMisc, Multithread, PrintHex, Bit;
    var f := e.frames(s.frame);
    var t, h := s.(frame := s.frame + 1).Add(HeaderRead(core, thread, f)), Header(f.raw);
    VisitsAdd(s.(frame := s.frame + 1), HeaderRead(core, thread, f));
    if HeaderStatus(f) == Success {
      var u := t.(crashed := SetBit(t.crashed, core), waiting := false, tick := t.tick + 1);
      VisitsAdd(u, WaitNote(e.clock(t.tick)));
      var r := ReadFrames(e, Accepted(t, core, e.clock(t.tick)), core, 1, e.Size(h) / 8, [f.raw], Last(0, f.cc, f.ret));
      VisitsInFrames(e, Accepted(t, core, e.clock(t.tick)), core, 1, e.Size(h) / 8, [f.raw], Last(0, f.cc, f.ret));
      VisitsInStore(e, r, core, h);
    }
  }

  lemma VisitsInStore(e: Env, r: Reading, core: nat, h: Sizes)
    ensures Visits(AfterStore(e, r, core, h).trace) == Visits(r.s.trace)
  {
    hide Visits, StoredFor, Buffer, Remembered, WhoMisc, PrintHex, Bit;
    var t := AfterStore(e, r, core, h);
    VisitsAdd(r.s.(decode := t.decode), t.trace[|r.s.trace|]);
  }

  lemma {:induction false} VisitsInThreads(e: Env, s: State, core: nat, thread: nat, threads: nat)
    requires threads <= 2
    ensures Visits(Threads(e, s, core, thread, threads).s.trace) ==
            Visits(s.trace) + if thread == 0 < threads then [core] else []
    decreases 2 - thread
  {
    hide Visits, Query;
    if thread < threads {
      var q := Query(e, s, core, thread);
      var ev := Result(core, thread, q.status);
      VisitsInQuery(e, s, core, thread);
      VisitsAdd(q.s, ev);
      var t := q.s.Add(ev);
      VisitsInThreads(e, if thread == 0 && q.status == Success then t.(left := t.left - 1) else t,
                      core, thread + 1, if q.multithread then 2 else threads);
    }
  }

  /** A sweep asks the enabled cores in ascending order, each once, and leaves one out only
      when it was stopped or the number of cores to collect was reached. */
  lemma {:induction false} SweepVisitsInOrder(e: Env, s: State, core: nat) returns (p: seq<nat>)
    requires e.coreMask < Pow2(63) && s.left >= 1
    ensures var r := Cores(e, s, core);
            && Visits(r.s.trace) == Visits(s.trace) + p
            && p <= Enabled(e.coreMask, core)
            && (!r.halt && r.s.left >= 1 ==> p == Enabled(e.coreMask, core))
    decreases 63 - core
  {
    hide Visits, Threads, Bit, Pow2;
    var all := Enabled(e.coreMask, core);
    if e.coreMask / Pow2(core) == 0 {
      p := [];
    } else {
      NoCoreLeft(e.coreMask, core);
      if !Bit(e.coreMask, core) {
        p := SweepVisitsInOrder(e, s, core + 1);
        assert all == Enabled(e.coreMask, core + 1);
      } else {
        var r := Threads(e, s, core, 0, 1);
        VisitsInThreads(e, s, core, 0, 1);
        if r.halt || r.s.left <= 0 {
          p := [core];
        } else {
          var rest := SweepVisitsInOrder(e, r.s, core + 1);
          p := [core] + rest;
          assert Visits(s.trace) + [core] + rest == Visits(s.trace) + p;
        }
      }
    }
  }

  /******* What is stored *******/

  /** The raw values of the body frames among the events. */
  function Raws(t: seq<Event>): seq<Uint64> {
    if t == [] then []
    else Raws(t[..|t| - 1]) + if t[|t| - 1].BodyRead? then [t[|t| - 1].frame.raw] else []
  }

  lemma RawsAdd(s: State, ev: Event)
    ensures Raws(s.Add(ev).trace) == Raws(s.trace) + if ev.BodyRead? then [ev.frame.raw] else []
  {
    assert (s.trace + [ev])[..|s.trace|] == s.trace;
  }

  /** The words collected are the frames read, in order, and the last frame's number fits. */
  lemma {:induction false} WordsAreFrames(e: Env, s: State, core: nat, i: nat, n: nat, words: seq<Uint64>, last: Last)
    returns (more: seq<Uint64>)
    requires |words| == i >= 1 && last.numReads == i - 1
    ensures var r := ReadFrames(e, s, core, i, n, words, last);
            && r.words == words + more && Raws(r.s.trace) == Raws(s.trace) + more
            && |r.words| == r.last.numReads + 1
            && (|r.words| <= n || more == [])
            && (r.cut == Complete && n >= 1 ==> |r.words| >= n)
    decreases n - i
  {
    hide Raws, Reached, SkipCore, SkipSocket;
    more := [];
    if i < n {
      if e.Limit().Some? {
        RawsAdd(s.(tick := s.tick + 1), Check(e.clock(s.tick)));
      }
      var c, f := Checked(e, s), e.frames(s.frame);
      if LimitHit(e, s) {
        RawsAdd(c, AbortNote);
      } else {
        var t := c.(frame := s.frame + 1);
        RawsAdd(t, BodyRead(core, i, f));
        more := [f.raw];
        if !SkipCore(f.cc) && !SkipSocket(f.cc) && f.ret == PECI_CC_SUCCESS {
          var rest := WordsAreFrames(e, t.Add(BodyRead(core, i, f)), core, i + 1, n, words + [f.raw],
                                     Last(i, f.cc, f.ret));
          assert words + [f.raw] + rest == words + ([f.raw] + rest);
          assert Raws(s.trace) + [f.raw] + rest == Raws(s.trace) + ([f.raw] + rest);
          more := [f.raw] + rest;
        }
      }
    }
  }

  /** The buffer holds the words at its front and zeros behind them. */
  lemma BufferHolds(words: seq<Uint64>, size: nat, k: nat)
    ensures k < |words| && 8 * k + 8 <= size ==> Buffer(words, size)[8 * k..8 * k + 8] == WordBytes(words[k])
    ensures 8 * |words| <= k < size ==> Buffer(words, size)[k] == 0
  {
    hide Bytes, WordBytes, Zeros;
    if k < |words| && 8 * k + 8 <= size {
      BytesAt(words, k);
      assert (Bytes(words) + Zeros(size))[8 * k..8 * k + 8] == Bytes(words)[8 * k..8 * k + 8];
    }
  }

  /** The two bits looked at in the fourth qword. */
  lemma WhoMiscBits(e: Env, r: Reading, size: nat)
    requires size >= 32 && |r.words| > 3
    ensures Bit(WhoMisc(e, r, size), 0) <==> r.words[3] % 2 == 1
    ensures Multithread(e, r, size) <==> r.words[3] / TWO_TO_THE_32 % 2 == 1
  {
    Pow2Of32();
  }

  /** A stored buffer is the header and then exactly the body frames read for this thread, in
      order, with zeros behind them; the byte count that decides which registers are shown is
      the size of that front part. */
  lemma StoreHoldsFrames(e: Env, s: State, core: nat, thread: nat, k: nat) returns (more: seq<Uint64>)
    requires HeaderStatus(e.frames(s.frame)) == Success && Query(e, s, core, thread).status != NextSocket
    ensures var t := Query(e, s, core, thread).s;
            && t.trace != [] && t.trace[|t.trace| - 1].Store?
            && Raws(t.trace) == Raws(s.trace) + more
            && var ev := t.trace[|t.trace| - 1];
               var words := [e.frames(s.frame).raw] + more;
               && ev.end.bytesRead == 8 * |words|
               && (8 * |words| <= |ev.data| || more == [])
               && (|ev.data| >= 32 && |words| > 3 ==>
                     ev.threadId == words[3] % 2
                     && (Query(e, s, core, thread).multithread <==> words[3] / TWO_TO_THE_32 % 2 == 1))
               && (Query(e, s, core, thread).status == Success && |ev.data| >= 8 ==> |words| == |ev.data| / 8)
               && (k < |words| && 8 * k + 8 <= |ev.data| ==> ev.data[8 * k..8 * k + 8] == WordBytes(words[k]))
               && (8 * |words| <= k < |ev.data| ==> ev.data[k] == 0)
  {
    hide Raws, ReadFrames, SetBit, HeaderStatus, Buffer, StoredFor, Remembered, WhoMisc, Multithread, PrintHex, Bit,
         WordBytes, Env.Size;
    var f := e.frames(s.frame);
    var t, h := s.(frame := s.frame + 1).Add(HeaderRead(core, thread, f)), Header(f.raw);
    RawsAdd(s.(frame := s.frame + 1), HeaderRead(core, thread, f));
    var u := t.(crashed := SetBit(t.crashed, core), waiting := false, tick := t.tick + 1);
    RawsAdd(u, WaitNote(e.clock(t.tick)));
    var r := ReadFrames(e, Accepted(t, core, e.clock(t.tick)), core, 1, e.Size(h) / 8, [f.raw], Last(0, f.cc, f.ret));
    more := WordsAreFrames(e, Accepted(t, core, e.clock(t.tick)), core, 1, e.Size(h) / 8, [f.raw],
                           Last(0, f.cc, f.ret));
    var v := AfterStore(e, r, core, h);
    RawsAdd(r.s.(decode := v.decode), v.trace[|r.s.trace|]);
    BufferHolds(r.words, e.Size(h), k);
    if e.Size(h) >= 32 && |r.words| > 3 {
      WhoMiscBits(e, r, e.Size(h));
    }
  }
}
