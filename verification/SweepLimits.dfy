/** Time limits over whole big-core collections: what the collection limit and the limit of the
    whole crash dump stop, and what they do not. */
module SweepLimits {
  import opened Numerals
  import opened Clock
  import opened CmdInOut
  import opened DataString
  import opened DecodeMap
  import opened Memory
  import opened Models
  import opened RegisterDump
  import opened ThreadDump
  import opened BigCoreSweep
  import opened SweepTheorems

  predicate IsReading(ev: Event) { ev.Check? || ev.WaitNote? || ev.WaitCheck? }

  /** No body frame is read after a clock reading at or past a limit. */
  predicate BodiesWithin(maxTime: Uint32, start: Timespec, t: seq<Event>) {
    forall i, j :: 0 <= i < j < |t| && IsReading(t[i]) && Reached(maxTime, start, t[i].now) ==> !t[j].BodyRead?
  }

  /** Readings are readings of the run's clock so far. */
  ghost predicate ReadingsBefore(e: Env, s: State) {
    forall i :: 0 <= i < |s.trace| && IsReading(s.trace[i]) ==>
      e.clock(0).Nanos() <= s.trace[i].now.Nanos() <= e.clock(s.tick).Nanos()
  }

  ghost predicate Timed(e: Env, s: State) {
    ReadingsBefore(e, s) && (e.Limit().Some? ==> BodiesWithin(e.Limit().value, e.start, s.trace))
  }

  ghost predicate ClockRuns(e: Env) {
    forall m: nat, n: nat :: m <= n ==> e.clock(m).Nanos() <= e.clock(n).Nanos()
  }

  /** Anything but a body frame keeps the times in order; a reading moves the clock on. */
  lemma AddTimed(e: Env, s: State, ev: Event)
    requires ClockRuns(e) && Timed(e, s) && !ev.BodyRead? && !IsReading(ev)
    ensures Timed(e, s.Add(ev))
  {
    hide CollectionLimit, Reached;
  }

  lemma AddReading(e: Env, s: State, ev: Event)
    requires ClockRuns(e) && Timed(e, s) && IsReading(ev) && ev.now == e.clock(s.tick)
    ensures Timed(e, s.(tick := s.tick + 1).Add(ev))
  {
    hide CollectionLimit, Reached;
    assert e.clock(0).Nanos() <= e.clock(s.tick).Nanos() <= e.clock(s.tick + 1).Nanos();
  }

  /** The frame counter, the core mask, the cores left and the decode table do not matter. */
  lemma SameTimes(e: Env, s: State, t: State)
    requires Timed(e, s) && s.trace == t.trace && s.tick == t.tick
    ensures Timed(e, t)
  {
    hide CollectionLimit, Reached;
  }

  /** A frame is read directly after a check that found the limit not reached; so all earlier
      readings were before it too. */
  lemma FrameTimed(e: Env, s: State, core: nat, i: nat)
    requires ClockRuns(e) && Timed(e, s) && !LimitHit(e, s)
    ensures Timed(e, FrameRead(e, s, core, i))
  {
    hide CollectionLimit;
    var c := Checked(e, s);
    if e.Limit().Some? {
      AddReading(e, s, Check(e.clock(s.tick)));
      forall k | 0 <= k < |c.trace| && IsReading(c.trace[k])
        ensures !Reached(e.Limit().value, e.start, c.trace[k].now)
      {
        assert k < |s.trace| ==> c.trace[k] == s.trace[k];
      }
    }
  }

  lemma {:induction false} FramesTimed(e: Env, s: State, core: nat, i: nat, n: nat, words: seq<Uint64>, last: Last)
    requires ClockRuns(e) && Timed(e, s)
    ensures Timed(e, ReadFrames(e, s, core, i, n, words, last).s)
    decreases n - i
  {
    hide Timed, CutBy, FrameRead, ClockRuns, Reached, CollectionLimit;
    if i < n {
      if LimitHit(e, s) {
        AddReading(e, s, Check(e.clock(s.tick)));
        AddTimed(e, Checked(e, s), AbortNote);
      } else {
        var f := e.frames(s.frame);
        FrameTimed(e, s, core, i);
        FramesTimed(e, FrameRead(e, s, core, i), core, i + 1, n, words + [f.raw], Last(i, f.cc, f.ret));
      }
    }
  }

  lemma AcceptedTimed(e: Env, s: State, core: nat)
    requires ClockRuns(e) && Timed(e, s)
    ensures Timed(e, Accepted(s, core, e.clock(s.tick)))
  {
    hide Timed, ClockRuns, SetBit;
    var t := s.(crashed := SetBit(s.crashed, core));
    SameTimes(e, s, t);
    if s.waiting {
      SameTimes(e, s, t.(waiting := false));
      AddReading(e, t.(waiting := false), WaitNote(e.clock(s.tick)));
    }
  }

  lemma StoreTimed(e: Env, r: Reading, core: nat, h: Sizes)
    requires ClockRuns(e) && Timed(e, r.s)
    ensures Timed(e, AfterStore(e, r, core, h))
  {
    hide Timed, ClockRuns, StoredFor, Remembered, PrintHex, Buffer, WhoMisc, Bit, Env.Size;
    var t := AfterStore(e, r, core, h);
    SameTimes(e, r.s, r.s.(decode := t.decode));
    AddTimed(e, r.s.(decode := t.decode), t.trace[|r.s.trace|]);
  }

  lemma QueryTimed(e: Env, s: State, core: nat, thread: nat)
    requires ClockRuns(e) && Timed(e, s)
    ensures Timed(e, Query(e, s, core, thread).s)
  {
    hide Timed, ClockRuns, ReadFrames, Accepted, AfterStore, Multithread, Env.Size, HeaderStatus;
    var f := e.frames(s.frame);
    var c := s.(frame := s.frame + 1);
    SameTimes(e, s, c);
    var t, h := c.Add(HeaderRead(core, thread, f)), Header(f.raw);
    AddTimed(e, c, HeaderRead(core, thread, f));
    var u := Accepted(t, core, e.clock(t.tick));
    AcceptedTimed(e, t, core);
    FramesTimed(e, u, core, 1, e.Size(h) / 8, [f.raw], Last(0, f.cc, f.ret));
    StoreTimed(e, ReadFrames(e, u, core, 1, e.Size(h) / 8, [f.raw], Last(0, f.cc, f.ret)), core, h);
  }

  lemma {:induction false} ThreadsTimed(e: Env, s: State, core: nat, thread: nat, threads: nat)
    requires ClockRuns(e) && Timed(e, s) && threads <= 2
    ensures Timed(e, Threads(e, s, core, thread, threads).s)
    decreases 2 - thread
  {
    hide Timed, ClockRuns, Query;
    if thread < threads {
      var q := Query(e, s, core, thread);
      QueryTimed(e, s, core, thread);
      AddTimed(e, q.s, Result(core, thread, q.status));
      var t := q.s.Add(Result(core, thread, q.status));
      var u := if thread == 0 && q.status == Success then t.(left := t.left - 1) else t;
      SameTimes(e, t, u);
      ThreadsTimed(e, u, core, thread + 1, if q.multithread then 2 else threads);
    }
  }

  lemma {:induction false} CoresTimed(e: Env, s: State, core: nat)
    requires ClockRuns(e) && Timed(e, s) && e.coreMask < Pow2(63)
    ensures Timed(e, Cores(e, s, core).s)
    decreases 63 - core
  {
    hide Timed, ClockRuns, Threads, Bit, Pow2;
    if e.coreMask / Pow2(core) != 0 {
      NoCoreLeft(e.coreMask, core);
      if !Bit(e.coreMask, core) {
        CoresTimed(e, s, core + 1);
      } else {
        ThreadsTimed(e, s, core, 0, 1);
        CoresTimed(e, Threads(e, s, core, 0, 1).s, core + 1);
      }
    }
  }

  lemma {:induction false} SweepsTimed(e: Env, s: State)
    requires e.Valid() && ClockRuns(e) && Timed(e, s)
    ensures Timed(e, Sweeps(e, s))
    decreases Patience(e, s)
  {
    hide Timed, ClockRuns, Cores, Reached, Pow2, RemainingSeconds;
    AddTimed(e, s, Sweep);
    CoresTimed(e, s.Add(Sweep), 0);
    var r := Cores(e, s.Add(Sweep), 0);
    var t := r.s.(tick := r.s.tick + 1).Add(WaitCheck(e.clock(r.s.tick)));
    AddReading(e, r.s, WaitCheck(e.clock(r.s.tick)));
    if !r.halt && r.s.waiting && !WaitIsOver(e, r.s) {
      TicksInCores(e, s.Add(Sweep), 0);
      WaitEnds(e, r.s);
      SweepsTimed(e, t);
    }
  }

  lemma CollectTimed(e: Env, a: Start, waiting: bool)
    requires e.Valid()
    ensures Timed(e, Collect(e, Initial(a, waiting)))
  {
    hide Sweeps, Reached, RemainingSeconds, Pow2;
    assert Timed(e, Initial(a, waiting));
    if a.max > 0 {
      SweepsTimed(e, Initial(a, waiting));
    }
  }

  /******* The limit of the whole crash dump *******/

  /** What remains of the global limit was not rounded up; below 104 days it never is. */
  predicate NotRoundedUp(e: Env) {
    e.globalRemaining <= Left(e.maxGlobalTime, e.globalStart, e.globalNow) / NS_PER_SEC
  }

  lemma ShortLimitsAreExact(e: Env)
    requires e.Valid() && Left(e.maxGlobalTime, e.globalStart, e.globalNow) < TWO_TO_THE_53
    ensures NotRoundedUp(e)
  {
  }

  /** The collection limit is then reached whenever the global one is. */
  lemma GlobalIsCovered(e: Env, now: Timespec)
    requires e.Valid() && e.maxCollectionSec != 0 && NotRoundedUp(e)
    requires e.clock(0).Nanos() <= now.Nanos() && Reached(e.maxGlobalTime, e.globalStart, now)
    ensures e.Limit().Some? && Reached(e.Limit().value, e.start, now)
  {
    hide Pow2;
    var left := Left(e.maxGlobalTime, e.globalStart, e.globalNow);
    assert left / NS_PER_SEC * NS_PER_SEC <= left;
    assert e.Limit().value * NS_PER_SEC <= left;
  }

  /** Every run keeps the global limit: no body frame is read after a reading at or past it. */
  ghost predicate KeepsGlobalLimit(e: Env, a: Start, waiting: bool)
    requires e.Valid()
  {
    BodiesWithin(e.maxGlobalTime, e.globalStart, Collect(e, Initial(a, waiting)).trace)
  }

  /** With a collection limit the body frames of every run obey it, and the global limit. */
  lemma LimitsStopBodies(e: Env, a: Start, waiting: bool)
    requires e.Valid() && e.maxCollectionSec != 0
    ensures BodiesWithin(e.Limit().value, e.start, Collect(e, Initial(a, waiting)).trace)
    ensures NotRoundedUp(e) ==> KeepsGlobalLimit(e, a, waiting)
  {
    hide Collect, Reached, RemainingSeconds, Pow2, Left, CollectionLimit;
    CollectTimed(e, a, waiting);
    var t := Collect(e, Initial(a, waiting)).trace;
    assert e.Limit().Some? by { LimitIsSet(e); }
    if NotRoundedUp(e) {
      forall i, j | 0 <= i < j < |t| && IsReading(t[i]) && Reached(e.maxGlobalTime, e.globalStart, t[i].now)
        ensures !t[j].BodyRead?
      {
        GlobalIsCovered(e, t[i].now);
      }
    }
  }

  lemma LimitIsSet(e: Env)
    ensures e.Limit().Some? <==> e.maxCollectionSec != 0
  {
  }

  /******* The first frames of a run *******/

  lemma BitsRemain(mask: nat, core: nat)
    requires mask / Pow2(core) != 0 && !Bit(mask, core)
    ensures mask / Pow2(core + 1) != 0
  {
    var p, x := Pow2(core), mask / Pow2(core);
    assert x % 2 == 0 && x >= 2;
    assert mask == x * p + mask % p;
    Times(2, x, p);
    QuotientOf(mask, Pow2(core + 1));
  }

  /** Some enabled core is asked first, and the run goes on from there. */
  lemma {:induction false} FirstCore(e: Env, s: State, core: nat) returns (first: nat)
    requires e.coreMask < Pow2(63) && e.coreMask / Pow2(core) != 0
    ensures Bit(e.coreMask, first)
    ensures Query(e, s, first, 0).s.trace <= Cores(e, s, core).s.trace
    decreases 63 - core
  {
    hide Query, Bit, Pow2;
    NoCoreLeft(e.coreMask, core);
    if Bit(e.coreMask, core) {
      first := core;
      var q := Query(e, s, core, 0);
      var t := q.s.Add(Result(core, 0, q.status));
      var u := if q.status == Success then t.(left := t.left - 1) else t;
      TicksInThreads(e, u, core, 1, if q.multithread then 2 else 1);
      var r := Threads(e, s, core, 0, 1);
      assert q.s.trace <= t.trace <= r.s.trace;
      TicksInCores(e, r.s, core + 1);
    } else {
      BitsRemain(e.coreMask, core);
      first := FirstCore(e, s, core + 1);
    }
  }

  lemma {:induction false} SweepsGrow(e: Env, s: State)
    requires e.Valid()
    ensures Cores(e, s.Add(Sweep), 0).s.trace <= Sweeps(e, s).trace
    decreases Patience(e, s)
  {
    hide Cores, Reached, Pow2, RemainingSeconds;
    var r := Cores(e, s.Add(Sweep), 0);
    var t := r.s.(tick := r.s.tick + 1).Add(WaitCheck(e.clock(r.s.tick)));
    if !r.halt && r.s.waiting && !WaitIsOver(e, r.s) {
      TicksInCores(e, s.Add(Sweep), 0);
      WaitEnds(e, r.s);
      SweepsGrow(e, t);
      TicksInCores(e, t.Add(Sweep), 0);
      assert r.s.trace <= t.trace <= t.Add(Sweep).trace;
    }
  }

  lemma RunBegins(e: Env, a: Start, waiting: bool) returns (first: nat)
    requires e.Valid() && e.coreMask != 0 && a.max > 0
    ensures Bit(e.coreMask, first)
    ensures Query(e, Initial(a, waiting).Add(Sweep), first, 0).s.trace <= Collect(e, Initial(a, waiting)).trace
  {
    hide Query, Cores, Sweeps, Bit, Reached, RemainingSeconds;
    var s := Initial(a, waiting);
    assert e.coreMask / Pow2(0) == e.coreMask;
    first := FirstCore(e, s.Add(Sweep), 0);
    SweepsGrow(e, s);
  }

  /** In any state, past any limit, asking a thread begins by reading its header frame. */
  lemma HeaderComesFirst(e: Env, s: State, core: nat, thread: nat)
    ensures s.trace + [HeaderRead(core, thread, e.frames(s.frame))] <= Query(e, s, core, thread).s.trace
  {
    hide SetBit, ReadFrames, StoredFor, Remembered, PrintHex, Buffer, Bit, HeaderStatus, Env.Size;
    var f := e.frames(s.frame);
    var t := s.(frame := s.frame + 1).Add(HeaderRead(core, thread, f));
    var u := Accepted(t, core, e.clock(t.tick));
    TicksInFrames(e, u, core, 1, e.Size(Header(f.raw)) / 8, [f.raw], Last(0, f.cc, f.ret));
    assert t.trace <= u.trace;
  }

  /** Header frames are never checked against a limit: whatever the limits and the clock, the
      first header is read. */
  lemma HeadersAreNotChecked(e: Env, a: Start, waiting: bool)
    requires e.Valid() && e.coreMask != 0 && a.max > 0
    ensures var t := Collect(e, Initial(a, waiting)).trace;
            |t| >= 2 && t[0] == Sweep && t[1].HeaderRead? && t[1].frame == e.frames(0)
  {
    hide Collect, Reached, RemainingSeconds;
    var first := RunBegins(e, a, waiting);
    HeaderComesFirst(e, Initial(a, waiting).Add(Sweep), first, 0);
  }

  /** Without a collection limit a body frame follows the accepted header, directly after a
      reading of the clock if the run was waiting. */
  lemma BodyFollowsHeader(e: Env, s: State, core: nat)
    requires e.maxCollectionSec == 0 && s.waiting
    requires HeaderStatus(e.frames(s.frame)) == Success && e.Size(Header(e.frames(s.frame).raw)) >= 16
    ensures s.trace + [HeaderRead(core, 0, e.frames(s.frame)), WaitNote(e.clock(s.tick)),
                       BodyRead(core, 1, e.frames(s.frame + 1))] <= Query(e, s, core, 0).s.trace
  {
    hide SetBit, StoredFor, Remembered, PrintHex, Buffer, Bit, HeaderStatus, Env.Size, CutBy, Reached, CollectionLimit;
    LimitIsSet(e);
    var f := e.frames(s.frame);
    var n := e.Size(Header(f.raw)) / 8;
    var t := s.(frame := s.frame + 1).Add(HeaderRead(core, 0, f));
    var u := Accepted(t, core, e.clock(t.tick));
    assert u.trace == s.trace + [HeaderRead(core, 0, f), WaitNote(e.clock(s.tick))];
    var g := e.frames(u.frame);
    var v := FrameRead(e, u, core, 1);
    assert v.trace == u.trace + [BodyRead(core, 1, g)];
    TicksInFrames(e, v, core, 2, n, [f.raw] + [g.raw], Last(1, g.cc, g.ret));
  }

  /** So without MaxCollectionSec the global limit is not kept: whenever the clock is past it at
      the first accepted header of a waiting run, a body frame is read all the same. */
  lemma GlobalLimitIgnored(e: Env, a: Start)
    requires e.Valid() && e.maxCollectionSec == 0 && e.coreMask != 0 && a.max > 0
    requires HeaderStatus(e.frames(0)) == Success && e.Size(Header(e.frames(0).raw)) >= 16
    requires Reached(e.maxGlobalTime, e.globalStart, e.clock(0))
    ensures !KeepsGlobalLimit(e, a, true)
  {
    hide Collect, Query, RemainingSeconds, HeaderStatus, Reached, Env.Size, Bit;
    var s := Initial(a, true).Add(Sweep);
    var first := RunBegins(e, a, true);
    BodyFollowsHeader(e, s, first);
    var t := Collect(e, Initial(a, true)).trace;
    assert t[2] == WaitNote(e.clock(0)) && t[3].BodyRead?;
  }

  /** Two runs of the same configuration, with other answers and another clock. */
  ghost predicate SameSetup(c: Env, e: Env) {
    e == c.(frames := e.frames, clock := e.clock, stray := e.stray, horizon := e.horizon)
  }

  /** The first frame declares sixteen bytes of registers. */
  const HEADER: Frame := Frame(PECI_CC_SUCCESS, PECI_DEV_CC_SUCCESS, 0x10_0000_0000)

  /** A moment at which all limits and waits are over, if the 64-bit clock can show one. */
  function LateEnough(c: Env): nat {
    var a := c.globalStart.Nanos() + c.maxGlobalTime * NS_PER_SEC;
    var b := c.crashdumpStart.Nanos() + c.maxWait * NS_PER_SEC;
    var m := if a < b then b else a;
    var g := c.globalNow.Nanos();
    if m < g then g else m
  }

  function TimeAt(ns: nat): Timespec { Timespec(ns / NS_PER_SEC, ns % NS_PER_SEC) }

  /** The same configuration, when everything happens late. */
  function LateRun(c: Env): Env {
    c.(frames := (_: nat) => HEADER, clock := (_: nat) => TimeAt(LateEnough(c)), horizon := 0)
  }

  lemma LateRunIsValid(c: Env)
    requires c.Valid() && LateEnough(c) < TWO_TO_THE_64
    ensures var e := LateRun(c);
            && e.Valid() && SameSetup(c, e) && Reached(e.maxGlobalTime, e.globalStart, e.clock(0))
            && HeaderStatus(e.frames(0)) == Success && e.Size(Header(e.frames(0).raw)) >= 16
  {
    hide Pow2;
    var ns := LateEnough(c);
    assert TimeAt(ns).Nanos() == ns && TimeAt(ns).Valid();
    assert c.clock(0).Nanos() >= 0;
  }

  /** Exactly: whatever PECI answers and however the clock runs, a configuration keeps the global
      limit if and only if MaxCollectionSec is set. */
  lemma GlobalLimitKeptExactly(c: Env, a: Start)
    requires c.Valid() && c.coreMask != 0 && a.max > 0 && NotRoundedUp(c) && LateEnough(c) < TWO_TO_THE_64
    ensures (forall e: Env, waiting: bool :: SameSetup(c, e) && e.Valid() ==> KeepsGlobalLimit(e, a, waiting))
            <==> c.maxCollectionSec != 0
  {
    hide Env.Valid, KeepsGlobalLimit, Reached, Left;
    if c.maxCollectionSec != 0 {
      forall e: Env, waiting: bool | SameSetup(c, e) && e.Valid() ensures KeepsGlobalLimit(e, a, waiting) {
        LimitsStopBodies(e, a, waiting);
      }
    } else {
      var e := LateRun(c);
      LateRunIsValid(c);
      GlobalLimitIgnored(e, a);
      assert !KeepsGlobalLimit(e, a, true);
    }
  }

  /******* What a cut collection shows *******/

  lemma SkipCoreFails(cc: Byte)
    ensures SkipCore(cc) ==> Unacceptable(cc)
  {
  }

  /** The codes that are kept: those of a bad frame if one ended the collection, else those of a
      good one - also when the time limit ended it. */
  lemma {:induction false} LastCodes(e: Env, s: State, core: nat, i: nat, n: nat, words: seq<Uint64>, last: Last)
    requires last.ret == PECI_CC_SUCCESS
    ensures var r := ReadFrames(e, s, core, i, n, words, last);
            && (r.cut == CutToNextCore ==> r.last.ret != PECI_CC_SUCCESS || SkipCore(r.last.cc))
            && (r.cut == Complete || r.cut == CutByTime ==> r.last.ret == PECI_CC_SUCCESS)
    decreases n - i
  {
    hide SkipCore, SkipSocket, Reached, FrameRead, CollectionLimit;
    if i < n && !LimitHit(e, s) {
      var f := e.frames(s.frame);
      if CutBy(f).None? {
        LastCodes(e, FrameRead(e, s, core, i), core, i + 1, n, words + [f.raw], Last(i, f.cc, f.ret));
      }
    }
  }

  /** The data stored for a thread and the way its collection ended. */
  lemma StoreEnding(e: Env, s: State, core: nat, thread: nat)
    requires HeaderStatus(e.frames(s.frame)) == Success && Query(e, s, core, thread).status != NextSocket
    ensures var q := Query(e, s, core, thread);
            && q.s.trace != [] && q.s.trace[|q.s.trace| - 1].Store?
            && var end := q.s.trace[|q.s.trace| - 1].end;
               && (q.status == NextCore ==> end.Failed())
               && (q.status != NextCore ==> (end.Failed() <==> Unacceptable(end.cc)))
  {
    hide ReadFrames, SetBit, Buffer, StoredFor, Remembered, WhoMisc, Multithread, PrintHex, Bit, Env.Size, SkipCore,
         SkipSocket, Unacceptable;
    var f := e.frames(s.frame);
    var t, h := s.(frame := s.frame + 1).Add(HeaderRead(core, thread, f)), Header(f.raw);
    var u := Accepted(t, core, e.clock(t.tick));
    var r := ReadFrames(e, u, core, 1, e.Size(h) / 8, [f.raw], Last(0, f.cc, f.ret));
    LastCodes(e, u, core, 1, e.Size(h) / 8, [f.raw], Last(0, f.cc, f.ret));
    SkipCoreFails(r.last.cc);
  }

  /** A register that lies behind the frames read is stored as zeros. */
  lemma UnreadIsZero(e: Env, s: State, core: nat, thread: nat, regs: seq<Register>, k: nat)
    requires HeaderStatus(e.frames(s.frame)) == Success && Query(e, s, core, thread).status != NextSocket
    requires var t := Query(e, s, core, thread).s.trace;
             t != [] && t[|t| - 1].Store? && k < |regs| && Offset(regs, k + 1) <= |t[|t| - 1].data|
             && t[|t| - 1].end.bytesRead <= Offset(regs, k) && regs[k].Size() <= 126
    ensures var t := Query(e, s, core, thread).s.trace;
            TextOf(Slice(regs, t[|t| - 1].data, k)) == "0x0"
  {
    hide Query, HeaderStatus, WordBytes;
    var t := Query(e, s, core, thread).s.trace;
    var slice := Slice(regs, t[|t| - 1].data, k);
    forall j | 0 <= j < |slice| ensures slice[j] == 0 {
      var more := StoreHoldsFrames(e, s, core, thread, Offset(regs, k) + j);
    }
    hide Offset;
    ZeroText(slice);
  }

  lemma {:induction false} TrimZeros(slice: seq<Byte>)
    requires forall j :: 0 <= j < |slice| ==> slice[j] == 0
    ensures Trim(slice) == []
  {
    if slice != [] {
      TrimZeros(slice[..|slice| - 1]);
    }
  }

  lemma ZeroText(slice: seq<Byte>)
    requires |slice| <= 126 && forall j :: 0 <= j < |slice| ==> slice[j] == 0
    ensures TextOf(slice) == "0x0"
  {
    hide Trim;
    TrimZeros(slice);
    ZeroSlice(slice);
  }

  /** It happens: when the limit is reached at the first check behind an acceptable header, all
      registers of any fitting list are shown as values without error text, although only eight
      bytes were read; those behind them read "0x0". */
  lemma LimitCutsUnmarked(e: Env, s: State, core: nat, regs: seq<Register>, k: nat) returns (ev: Event)
    requires var f := e.frames(s.frame);
             && HeaderStatus(f) == Success && !Unacceptable(f.cc)
             && e.Size(Header(f.raw)) >= 16 && Offset(regs, |regs|) <= e.Size(Header(f.raw))
    requires LimitHit(e, if s.waiting then s.(tick := s.tick + 1) else s)
    requires k < |regs| && 8 <= Offset(regs, k) && 0 < regs[k].Size() <= 126
    ensures Query(e, s, core, 0).status == TimeUp
    ensures var t := Query(e, s, core, 0).s.trace;
            t != [] && ev == t[|t| - 1] && ev.Store? && ev.end.bytesRead == 8 && !ev.end.Failed()
    ensures Stop(regs, |ev.data|, e.limited, ev.end) == |regs|
    ensures Offset(regs, k + 1) <= |ev.data| && TextOf(Slice(regs, ev.data, k)) == "0x0"
    ensures IsLogged(e.limited, regs[k]) ==> !ShowsOnlyRead(regs, |ev.data|, e.limited, ev.end)
  {
    hide Query, HeaderStatus, Unacceptable, Stop, IsLogged, LimitHit, Reached, TextOf, Offset, Slice, ShowsOnlyRead,
         Env.Size, Header;
    TimeUpAfterHeader(e, s, core);
    var t := Query(e, s, core, 0).s.trace;
    ev := t[|t| - 1];
    OffsetMonotone(regs, k + 1, |regs|);
    UnreadIsZero(e, s, core, 0, regs, k);
    CompleteDump(regs, |ev.data|, e.limited, ev.end);
    ShowsOnlyReadExactly(regs, |ev.data|, e.limited, ev.end);
    assert Offset(regs, k + 1) == Offset(regs, k) + regs[k].Size() by { OffsetStep(regs, k); }
  }

  lemma OffsetStep(regs: seq<Register>, k: nat)
    requires k < |regs|
    ensures Offset(regs, k + 1) == Offset(regs, k) + regs[k].Size()
  {
  }

  lemma TimeUpAfterHeader(e: Env, s: State, core: nat)
    requires var f := e.frames(s.frame); HeaderStatus(f) == Success && e.Size(Header(f.raw)) >= 16
    requires LimitHit(e, if s.waiting then s.(tick := s.tick + 1) else s)
    ensures var q := Query(e, s, core, 0);
            && q.status == TimeUp && q.s.trace != [] && q.s.trace[|q.s.trace| - 1].Store?
            && var ev := q.s.trace[|q.s.trace| - 1];
               var f := e.frames(s.frame);
               ev.end == Ending(8, f.cc, PECI_CC_SUCCESS) && |ev.data| == e.Size(Header(f.raw))
  {
    hide SetBit, StoredFor, Remembered, PrintHex, Bit, Env.Size, Reached, CollectionLimit,
         WhoMisc, SkipCore, SkipSocket;
    var f := e.frames(s.frame);
    var t := s.(frame := s.frame + 1).Add(HeaderRead(core, 0, f));
    var u := Accepted(t, core, e.clock(t.tick));
    assert LimitHit(e, u);
  }
}
