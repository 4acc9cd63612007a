/** What the completion codes of a thread's frames decide, how much is stored, and which threads
    of a core are asked. */
module SweepOutcomes {
  import opened Numerals
  import opened Clock
  import opened CmdInOut
  import opened DecodeMap
  import opened Memory
  import opened Models
  import opened RegisterDump
  import opened ThreadDump
  import opened BigCoreSweep
  import opened SweepTheorems
  import opened SweepRetries
  import SweepLimits

  /** Codes after which the core is left. */
  const LEAVE_CORE: set<Byte> := {
    PECI_DEV_CC_CATASTROPHIC_MCA_ERROR, PECI_DEV_CC_NEED_RETRY, PECI_DEV_CC_OUT_OF_RESOURCE,
    PECI_DEV_CC_UNAVAIL_RESOURCE, PECI_DEV_CC_INVALID_REQ, PECI_DEV_CC_MCA_ERROR}

  /** Codes after which the socket is left. */
  const LEAVE_SOCKET: set<Byte> := {
    PECI_DEV_CC_PARITY_ERROR_ON_GPSB_OR_PMSB, PECI_DEV_CC_PARITY_ERROR_ON_GPSB_OR_PMSB_IERR,
    PECI_DEV_CC_PARITY_ERROR_ON_GPSB_OR_PMSB_MCA}

  /** The frame does not end the collection. */
  predicate Harmless(f: Frame) {
    f.ret == PECI_CC_SUCCESS && f.cc !in LEAVE_CORE && f.cc !in LEAVE_SOCKET
  }

  /** What a header decides: a failed call an error; the codes of a successful one the core or the
      socket to be left; any other code that the thread is read. */
  predicate HeaderDecides(f: Frame, status: Status) {
    if f.ret != PECI_CC_SUCCESS then status == ErrorGet
    else if f.cc in LEAVE_CORE then status == NextCore
    else if f.cc in LEAVE_SOCKET then status == NextSocket
    else status == Success
  }

  lemma HeaderLaw(f: Frame)
    ensures HeaderDecides(f, HeaderStatus(f))
  {
  }

  /** What a body frame that ends the collection decides: its code comes before its return code. */
  predicate BodyDecides(f: Frame, cut: Cut) {
    if f.cc in LEAVE_CORE then cut == CutToNextCore
    else if f.cc in LEAVE_SOCKET then cut == CutToNextSocket
    else f.ret != PECI_CC_SUCCESS && cut == CutToNextCore
  }

  lemma CutLaw(f: Frame)
    ensures CutBy(f).None? <==> Harmless(f)
    ensures CutBy(f).Some? ==> BodyDecides(f, CutBy(f).value)
  {
  }

  /** Frame number base + j is harmless. */
  predicate GoesOn(e: Env, base: nat, j: nat) { Harmless(e.frames(base + j)) }

  /** The last check saw the collection limit reached. */
  predicate EndsAtLimit(e: Env, t: seq<Event>) {
    && |t| >= 2 && t[|t| - 1] == AbortNote && t[|t| - 2].Check?
    && e.Limit().Some? && t[|t| - 2].now.Nanos() - e.start.Nanos() >= e.Limit().value * 1_000_000_000
  }

  /** Body frames i up to next - 1 have been read: until one ended the collection, the limit was
      reached at a check, or there were no more below n. */
  ghost predicate BodyRuns(e: Env, base: nat, i: nat, n: nat, r: Reading, next: nat) {
    && i <= next && (next <= n || next == i) && r.s.frame == base + next
    && match r.cut
       case Complete => next >= n && forall j :: i <= j < next ==> GoesOn(e, base, j)
       case CutByTime => next < n && EndsAtLimit(e, r.s.trace) && forall j :: i <= j < next ==> GoesOn(e, base, j)
       case _ =>
         i < next && BodyDecides(e.frames(base + next - 1), r.cut)
         && forall j :: i <= j < next - 1 ==> GoesOn(e, base, j)
  }

  lemma {:induction false} BodyLaw(e: Env, s: State, base: nat, core: nat, i: nat, n: nat, words: seq<Uint64>,
                                   last: Last) returns (next: nat)
    requires s.frame == base + i && i >= 1
    ensures BodyRuns(e, base, i, n, ReadFrames(e, s, core, i, n, words, last), next)
    decreases n - i
  {
    hide Harmless, BodyDecides, CutBy, CollectionLimit;
    next := i;
    if i < n && !LimitHit(e, s) {
      var f, t := e.frames(s.frame), FrameRead(e, s, core, i);
      CutLaw(f);
      next := i + 1;
      if CutBy(f).None? {
        assert GoesOn(e, base, i);
        next := BodyLaw(e, t, base, core, i + 1, n, words + [f.raw], Last(i, f.cc, f.ret));
      }
    }
  }

  /** The bytes of a thread: both sections, and 32 more for the oldest model. */
  function ThreadBytes(model: Model, raw: Uint64): nat {
    raw / 0x1_0000_0000 % 0x1_0000 + raw / 0x1_0000_0000 / 0x1_0000 + if model == ICX then 32 else 0
  }

  lemma SizeLaw(e: Env, raw: Uint64)
    ensures e.Size(Header(raw)) == ThreadBytes(e.model, raw)
  {
  }

  /** What n frames of a thread decide: all of them read and harmless; or the limit reached in the
      middle; or the last one ending the core or the socket, and all before it harmless. */
  ghost predicate FramesDecide(e: Env, base: nat, n: nat, bytes: nat, status: Status, t: seq<Event>) {
    match status
    case Success => n >= bytes / 8 && forall j :: 1 <= j < n ==> GoesOn(e, base, j)
    case TimeUp =>
      n < bytes / 8 && t != [] && EndsAtLimit(e, t[..|t| - 1]) && forall j :: 1 <= j < n ==> GoesOn(e, base, j)
    case NextCore =>
      n >= 2 && BodyDecides(e.frames(base + n - 1), CutToNextCore) && forall j :: 1 <= j < n - 1 ==> GoesOn(e, base, j)
    case NextSocket =>
      n >= 2 && BodyDecides(e.frames(base + n - 1), CutToNextSocket)
      && forall j :: 1 <= j < n - 1 ==> GoesOn(e, base, j)
    case ErrorGet => false
  }

  /** What is stored last: data of the size, version and register section that the header tells. */
  predicate StoresThread(core: nat, model: Model, raw: Uint64, t: seq<Event>) {
    && t != [] && t[|t| - 1].Store? && t[|t| - 1].core == core
    && t[|t| - 1].version == raw % 0x1_0000_0000
    && t[|t| - 1].regDumpSize == raw / 0x1_0000_0000 % 0x1_0000
    && |t[|t| - 1].data| == ThreadBytes(model, raw)
  }

  /** One thread, by the frames it is answered with: frames s.frame up to s.frame + n - 1. */
  ghost predicate ThreadLaw(e: Env, s: State, core: nat, thread: nat, q: Queried, n: nat) {
    var f := e.frames(s.frame);
    && n >= 1 && q.s.frame == s.frame + n && s.trace + [HeaderRead(core, thread, f)] <= q.s.trace
    && if !HeaderDecides(f, Success) then
         HeaderDecides(f, q.status) && n == 1 && q.s.trace == s.trace + [HeaderRead(core, thread, f)] && !q.multithread
       else
         && FramesDecide(e, s.frame, n, ThreadBytes(e.model, f.raw), q.status, q.s.trace)
         && (q.status != NextSocket ==> StoresThread(core, e.model, f.raw, q.s.trace))
  }

  lemma AcceptedFrame(e: Env, s: State, core: nat, now: Timespec)
    ensures Accepted(s, core, now).frame == s.frame && s.trace <= Accepted(s, core, now).trace
  {
    hide SetBit;
  }

  /** What follows the frames of a thread. */
  lemma AfterLaw(e: Env, r: Reading, core: nat, raw: Uint64, base: nat, n: nat)
    requires BodyRuns(e, base, 1, ThreadBytes(e.model, raw) / 8, r, n)
    ensures var q := AfterFrames(e, r, core, Header(raw));
            && FramesDecide(e, base, n, ThreadBytes(e.model, raw), q.status, q.s.trace)
            && (q.status != NextSocket ==> StoresThread(core, e.model, raw, q.s.trace))
            && q.s.frame == r.s.frame && r.s.trace <= q.s.trace
  {
    hide Buffer, StoredFor, Remembered, WhoMisc, Multithread, Bit, PrintHex, Env.Size, BodyDecides, GoesOn, ThreadBytes,
         EndsAtLimit;
    SizeLaw(e, raw);
    var t := AfterStore(e, r, core, Header(raw)).trace;
    assert t[..|t| - 1] == r.s.trace;
  }

  /** Every thread that is asked, whatever it answers. */
  lemma QueryLaw(e: Env, s: State, core: nat, thread: nat) returns (n: nat)
    ensures ThreadLaw(e, s, core, thread, Query(e, s, core, thread), n)
  {
    hide ReadFrames, Accepted, AfterFrames, Env.Size, HeaderStatus, FramesDecide, StoresThread, BodyDecides, GoesOn,
         HeaderDecides, ThreadBytes, EndsAtLimit;
    var f := e.frames(s.frame);
    var t := s.(frame := s.frame + 1).Add(HeaderRead(core, thread, f));
    OneStatus(f);
    n := 1;
    if HeaderStatus(f) == Success {
      var size := e.Size(Header(f.raw));
      SizeLaw(e, f.raw);
      var u := Accepted(t, core, e.clock(t.tick));
      AcceptedFrame(e, t, core, e.clock(t.tick));
      n := BodyLaw(e, u, s.frame, core, 1, size / 8, [f.raw], Last(0, f.cc, f.ret));
      TicksInFrames(e, u, core, 1, size / 8, [f.raw], Last(0, f.cc, f.ret));
      AfterLaw(e, ReadFrames(e, u, core, 1, size / 8, [f.raw], Last(0, f.cc, f.ret)), core, f.raw, s.frame, n);
    }
  }

  lemma OneStatus(f: Frame)
    ensures forall status :: HeaderDecides(f, status) <==> status == HeaderStatus(f)
  {
  }

  /** Which threads of a core are asked: the first; and the second exactly if the first did not end
      the core or the socket and bit 32 of the fourth qword of its data says that there is one. */
  lemma ThreadsOfCore(e: Env, s: State, core: nat)
    ensures var q := Query(e, s, core, 0);
            var r := Threads(e, s, core, 0, 1);
            var left := if q.status == Success then q.s.left - 1 else q.s.left;
            && (q.status == NextCore ==> r.s == q.s.Add(Result(core, 0, q.status)) && !r.halt)
            && (q.status == NextSocket || q.status == TimeUp ==>
                  r.s == q.s.Add(Result(core, 0, q.status)) && r.halt)
            && ((q.status == Success || q.status == ErrorGet) && !q.multithread ==>
                  r.s == q.s.Add(Result(core, 0, q.status)).(left := left) && !r.halt)
            && ((q.status == Success || q.status == ErrorGet) && q.multithread ==>
                  var second := Query(e, q.s.Add(Result(core, 0, q.status)).(left := left), core, 1);
                  && r.s == second.s.Add(Result(core, 1, second.status))
                  && (r.halt <==> second.status == NextSocket || second.status == TimeUp))
  {
    hide Query;
    var q := Query(e, s, core, 0);
    var t := q.s.Add(Result(core, 0, q.status));
    var u := if q.status == Success then t.(left := t.left - 1) else t;
    if q.status != NextCore && !Halts(q.status) {
      assert Threads(e, s, core, 0, 1) == Threads(e, u, core, 1, if q.multithread then 2 else 1);
      if q.multithread {
        var second := Query(e, u, core, 1);
        var v := second.s.Add(Result(core, 1, second.status));
        assert Threads(e, v, core, 2, 2) == Round(v, false);
      }
    }
  }

  /******* A retry that succeeds *******/

  lemma MaskOne()
    ensures Bit(1, 0) && 1 / Pow2(0) == 1 && 1 / Pow2(1) == 0
  {
  }

  /** A run that needs two sweeps: the only core first asks for a retry, while the wait is not over,
      and then delivers eight bytes. They are stored and the core counts as crashed. */
  lemma RetrySucceeds(e: Env, a: Start)
    requires e.Valid() && e.coreMask == 1 && a.max > 0 && !WaitedOut(e, e.clock(0))
    requires e.frames(0).ret == PECI_CC_SUCCESS && e.frames(0).cc == PECI_DEV_CC_NEED_RETRY
    requires e.frames(1).ret == PECI_CC_SUCCESS && e.frames(1).cc == PECI_DEV_CC_SUCCESS
    requires ThreadBytes(e.model, e.frames(1).raw) < 16
    ensures var s := Collect(e, Initial(a, true));
            && [Sweep, HeaderRead(0, 0, e.frames(0)), Result(0, 0, NextCore), WaitCheck(e.clock(0)), Sweep,
                HeaderRead(0, 0, e.frames(1)), WaitNote(e.clock(1))] <= s.trace
            && Bit(s.crashed, 0) && exists i :: 0 <= i < |s.trace| && s.trace[i].Store? && s.trace[i].core == 0
  {
    hide Sweeps, Query, Pow2, Bit, RemainingSeconds, Env.Size, HeaderStatus, WaitedOut, WaitIsOver, Reached;
    MaskOne();
    var s0 := Initial(a, true);
    var s1 := FirstSweep(e, s0);
    OverIsWaitedOut(e, s1);
    var s2 := s1.(tick := 1).Add(WaitCheck(e.clock(0)));
    SweepOn(e, s0, s1, s2);
    SecondSweep(e, s2);
    CollectionIsSafe(e, a, true);
    var s := Collect(e, s0);
    assert s == Sweeps(e, s2);
    var t := s.trace;
    var i := |s2.trace| + 1;
    assert t[i] == HeaderRead(0, 0, e.frames(1));
    hide *;
    assert Accepts(t[i]) by { AcceptsGood(t[i]); }
  }

  lemma AcceptsGood(ev: Event)
    requires ev.HeaderRead? && ev.frame.ret == PECI_CC_SUCCESS && ev.frame.cc == PECI_DEV_CC_SUCCESS
    ensures Accepts(ev)
  {
  }

  lemma FirstSweep(e: Env, s: State) returns (r: State)
    requires e.coreMask == 1 && s.frame == 0 && s.tick == 0 && s.waiting && s.left > 0 && s.trace == []
    requires e.frames(0).ret == PECI_CC_SUCCESS && e.frames(0).cc == PECI_DEV_CC_NEED_RETRY
    ensures 1 < Pow2(63) && Cores(e, s.Add(Sweep), 0) == Round(r, false)
    ensures r == s.(frame := 1, trace := [Sweep, HeaderRead(0, 0, e.frames(0)), Result(0, 0, NextCore)])
  {
    hide Bit, Pow2;
    MaskOne();
    assert 1 < Pow2(63) by { Pow2Monotone(1, 63); assert Pow2(1) == 2 by { TwoIsPow2(); } }
    var t := s.Add(Sweep);
    r := s.(frame := 1, trace := [Sweep, HeaderRead(0, 0, e.frames(0)), Result(0, 0, NextCore)]);
    assert Query(e, t, 0, 0) == Queried(t.(frame := 1).Add(HeaderRead(0, 0, e.frames(0))), NextCore, false);
    assert Threads(e, t, 0, 0, 1) == Round(r, false);
    assert Cores(e, r, 1) == Round(r, false);
  }

  lemma TwoIsPow2()
    ensures Pow2(1) == 2
  {
  }

  lemma SweepOn(e: Env, s0: State, s1: State, s2: State)
    requires e.Valid() && Cores(e, s0.Add(Sweep), 0) == Round(s1, false) && s1.waiting && !WaitIsOver(e, s1)
    requires s2 == s1.(tick := s1.tick + 1).Add(WaitCheck(e.clock(s1.tick)))
    ensures Sweeps(e, s0) == Sweeps(e, s2)
  {
    hide Cores, WaitIsOver, RemainingSeconds, Pow2;
    TicksInCores(e, s0.Add(Sweep), 0);
    WaitEnds(e, s1);
  }

  lemma SecondSweep(e: Env, s: State)
    requires e.Valid() && e.coreMask == 1 && s.frame == 1 && s.waiting && s.left > 0
    requires e.frames(1).ret == PECI_CC_SUCCESS && e.frames(1).cc == PECI_DEV_CC_SUCCESS
    requires ThreadBytes(e.model, e.frames(1).raw) < 16
    ensures var t := Sweeps(e, s).trace;
            && s.trace + [Sweep, HeaderRead(0, 0, e.frames(1)), WaitNote(e.clock(s.tick))] <= t
            && |t| > |s.trace| + 3 && t[|s.trace| + 3].Store? && t[|s.trace| + 3].core == 0
  {
    hide Bit, Pow2, RemainingSeconds, WaitIsOver, Env.Size, Query;
    MaskOne();
    var t := s.Add(Sweep);
    var q := Query(e, t, 0, 0);
    ShortThread(e, t);
    var r := Cores(e, t, 0);
    TicksInThreads(e, t, 0, 0, 1);
    assert q.s.trace <= Threads(e, t, 0, 0, 1).s.trace by { ThreadsGrow(e, t); }
    CoresGrow(e, t);
    SweepLimits.SweepsGrow(e, s);
    var u := Sweeps(e, s).trace;
    assert q.s.trace <= u;
    assert q.s.trace[|s.trace| + 3] == u[|s.trace| + 3];
  }

  lemma ThreadsGrow(e: Env, s: State)
    ensures Query(e, s, 0, 0).s.trace <= Threads(e, s, 0, 0, 1).s.trace
  {
    hide Query;
    var q := Query(e, s, 0, 0);
    var t := q.s.Add(Result(0, 0, q.status));
    var u := if q.status == Success then t.(left := t.left - 1) else t;
    assert q.s.trace <= t.trace;
    TicksInThreads(e, u, 0, 1, if q.multithread then 2 else 1);
  }

  lemma CoresGrow(e: Env, s: State)
    requires e.coreMask == 1 && e.coreMask < Pow2(63)
    ensures Threads(e, s, 0, 0, 1).s.trace <= Cores(e, s, 0).s.trace
  {
    hide Threads, Bit, Pow2;
    MaskOne();
    var r := Threads(e, s, 0, 0, 1);
    TicksInCores(e, r.s, 1);
  }

  lemma ShortThread(e: Env, s: State)
    requires s.frame == 1 && s.waiting
    requires e.frames(1).ret == PECI_CC_SUCCESS && e.frames(1).cc == PECI_DEV_CC_SUCCESS
    requires ThreadBytes(e.model, e.frames(1).raw) < 16
    ensures var t := Query(e, s, 0, 0).s.trace;
            && |t| == |s.trace| + 3 && s.trace + [HeaderRead(0, 0, e.frames(1)), WaitNote(e.clock(s.tick))] <= t
            && t[|t| - 1].Store? && t[|t| - 1].core == 0
  {
    hide SetBit, Buffer, StoredFor, Remembered, WhoMisc, Multithread, Bit, PrintHex, Env.Size;
    SizeLaw(e, e.frames(1).raw);
  }
}
