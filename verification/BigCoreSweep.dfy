/** Collecting crash data from the cores of one socket (queryForCrashDataForThread and
    logCrashdumpICXSPR in engine/BigCore.c): a retry sweep over cores and threads that reads
    frames until data, a skip code or a deadline ends it. PECI answers and the clock are
    arbitrary sequences. The functions say what a run does; the class BigCore does it. */
module BigCoreSweep {
  import opened Numerals
  import opened Clock
  import opened CmdInOut
  import opened DecodeMap
  import opened Memory
  import opened Models
  import opened RegisterDump
  import opened ThreadDump

  const PECI_DEV_CC_NEED_RETRY: Byte := 0x80
  const PECI_DEV_CC_OUT_OF_RESOURCE: Byte := 0x81
  const PECI_DEV_CC_UNAVAIL_RESOURCE: Byte := 0x82
  const PECI_DEV_CC_INVALID_REQ: Byte := 0x90
  const PECI_DEV_CC_MCA_ERROR: Byte := 0x91
  const PECI_DEV_CC_CATASTROPHIC_MCA_ERROR: Byte := 0x93
  const PECI_DEV_CC_PARITY_ERROR_ON_GPSB_OR_PMSB: Byte := 0x98
  const PECI_DEV_CC_PARITY_ERROR_ON_GPSB_OR_PMSB_IERR: Byte := 0x9B
  const PECI_DEV_CC_PARITY_ERROR_ON_GPSB_OR_PMSB_MCA: Byte := 0x9C

  /** PECI_CC_SKIP_CORE. */
  predicate SkipCore(cc: Byte) {
    || cc == PECI_DEV_CC_CATASTROPHIC_MCA_ERROR || cc == PECI_DEV_CC_NEED_RETRY
    || cc == PECI_DEV_CC_OUT_OF_RESOURCE || cc == PECI_DEV_CC_UNAVAIL_RESOURCE
    || cc == PECI_DEV_CC_INVALID_REQ || cc == PECI_DEV_CC_MCA_ERROR
  }

  /** PECI_CC_SKIP_SOCKET. */
  predicate SkipSocket(cc: Byte) {
    || cc == PECI_DEV_CC_PARITY_ERROR_ON_GPSB_OR_PMSB
    || cc == PECI_DEV_CC_PARITY_ERROR_ON_GPSB_OR_PMSB_IERR
    || cc == PECI_DEV_CC_PARITY_ERROR_ON_GPSB_OR_PMSB_MCA
  }

  /** One answer of peci_CrashDump_GetFrame. */
  datatype Frame = Frame(ret: int, cc: Byte, raw: Uint64)

  /** The first frame of a thread: version and section sizes. */
  datatype Sizes = Sizes(version: Uint32, regDumpSize: nat, sqDumpSize: nat)

  function Header(raw: Uint64): Sizes {
    Sizes(raw % TWO_TO_THE_32, raw / TWO_TO_THE_32 % 0x1_0000, raw / TWO_TO_THE_32 / 0x1_0000)
  }

  /** The three fields are the whole frame, side by side. */
  lemma HeaderFields(raw: Uint64)
    ensures var h := Header(raw);
            && h.regDumpSize < 0x1_0000 && h.sqDumpSize < 0x1_0000
            && h.version + TWO_TO_THE_32 * (h.regDumpSize + 0x1_0000 * h.sqDumpSize) == raw
  {
  }

  const ICX_A0_FRAME_BYTE_OFFSET: nat := 32
  const CD_WHO_MISC_OFFSET: nat := 3

  /** MaxCollectionCores as the collector sees it: one byte of the input, taken as signed. */
  function MaxCollectionCores(valueint: Option<int>): int {
    var byte := valueint.GetOr(0) % 256;
    if byte < 128 then byte else byte - 256
  }

  /** Anything is collected at all only for 1 to 127 in the low byte. */
  lemma CoresToCollect(valueint: Option<int>)
    ensures MaxCollectionCores(valueint) > 0 <==> (valueint.Some? && 1 <= valueint.value % 256 <= 127)
    ensures MaxCollectionCores(valueint) <= 127
  {
  }

  /** The collection limit: MaxCollectionSec or what remains of the global time, whichever is
      less; without MaxCollectionSec there is no limit, not even the global one. */
  function CollectionLimit(maxCollectionSec: Uint32, globalRemaining: Uint32): (limit: Option<Uint32>)
    ensures limit.None? <==> maxCollectionSec == 0
    ensures limit.Some? ==> limit.value <= globalRemaining && limit.value <= maxCollectionSec
    ensures limit.Some? ==> limit.value == globalRemaining || limit.value == maxCollectionSec
  {
    if maxCollectionSec == 0 then None
    else Some(if globalRemaining < maxCollectionSec then globalRemaining else maxCollectionSec)
  }

  /** Everything outside the program, and the configuration of the run. */
  datatype Env = Env(
    frames: nat -> Frame,         // the n-th frame read
    clock: nat -> Timespec,       // the n-th reading of the monotonic clock
    stray: nat -> Uint64,         // what lies behind a buffer shorter than four qwords
    coreMask: Uint64,
    model: Model,
    limited: bool,                // UseRegEnable
    start: Timespec,              // when this section started
    maxCollectionSec: Uint32,     // MaxCollectionSec; zero collects all registers
    maxGlobalTime: Uint32,        // the limit of the whole crash dump, in seconds,
    globalStart: Timespec,        // counted from here
    globalNow: Timespec,          // the clock reading at which what remains of it is computed,
    globalRemaining: Uint32,      // and the result in seconds
    crashdumpStart: Timespec,
    maxWait: Uint32,              // MaxWaitSec
    horizon: nat                  // some clock reading at which the wait is over
  ) {
    ghost predicate Valid() {
      && coreMask < Pow2(63)
      && start.Valid() && crashdumpStart.Valid() && globalStart.Valid() && globalNow.Valid()
      && globalStart.Nanos() <= globalNow.Nanos() <= clock(0).Nanos() && start.Nanos() <= globalNow.Nanos()
      && RemainingSeconds(maxGlobalTime, globalStart, globalNow, globalRemaining)
      && start.Nanos() <= clock(0).Nanos() && crashdumpStart.Nanos() <= clock(0).Nanos()
      && (forall n: nat :: clock(n).Valid())
      && (forall m: nat, n: nat :: m <= n ==> clock(m).Nanos() <= clock(n).Nanos())
      && Reached(maxWait, crashdumpStart, clock(horizon))
    }

    function Limit(): Option<Uint32> { CollectionLimit(maxCollectionSec, globalRemaining) }

    /** calculateCrashdumpSize: the data of the oldest model is 32 bytes longer. */
    function Size(h: Sizes): nat {
      h.regDumpSize + h.sqDumpSize + if model == ICX then ICX_A0_FRAME_BYTE_OFFSET else 0
    }
  }

  datatype Status = Success | NextCore | NextSocket | ErrorGet | TimeUp

  datatype Event =
    | Sweep                                                 // the core loop starts over
    | HeaderRead(core: nat, thread: nat, frame: Frame)
    | WaitNote(now: Timespec)                               // "_wait_time"
    | Check(now: Timespec)                                  // the collection limit is checked
    | WaitCheck(now: Timespec)                              // MaxWaitSec is checked
    | AbortNote                                             // "_bigcore_aborted"
    | BodyRead(core: nat, number: nat, frame: Frame)
    | Store(core: nat, threadId: nat, version: Uint32, regDumpSize: nat, data: seq<Byte>, end: Ending, stored: Stored)
    | Result(core: nat, thread: nat, status: Status)

  datatype State = State(
    frame: nat, tick: nat, crashed: nat, waiting: bool, left: int, decode: Decode, trace: seq<Event>)
  {
    function Add(e: Event): State { this.(trace := trace + [e]) }
  }

  /******* Bits *******/

  /** SET_BIT. */
  function SetBit(n: nat, i: nat): nat
    decreases i
  {
    if i == 0 then (if n % 2 == 1 then n else n + 1)
    else 2 * SetBit(n / 2, i - 1) + n % 2
  }

  lemma {:induction false} BitStep(n: nat, i: nat)
    ensures Bit(n, i + 1) <==> Bit(n / 2, i)
    ensures n / Pow2(i + 1) == n / 2 / Pow2(i)
  {
    HalfDiv(n, Pow2(i));
  }

  lemma HalfDiv(n: nat, b: nat)
    requires b >= 1
    ensures n / 2 / b == n / (2 * b)
  {
    var q, r := n / 2 / b, n / 2 % b;
    var p := q * b;
    assert n / 2 == p + r;
    assert q * (2 * b) == 2 * p;
    UniqueQuotient(n, 2 * b, q, 2 * r + n % 2);
  }

  lemma {:induction false} BitSetBit(n: nat, i: nat, j: nat)
    ensures Bit(SetBit(n, i), j) <==> (Bit(n, j) || j == i)
    decreases i
  {
    var m := SetBit(n, i);
    if i == 0 {
      assert m / 2 == n / 2;
      if j > 0 {
        BitStep(m, j - 1);
        BitStep(n, j - 1);
      }
    } else {
      assert m / 2 == SetBit(n / 2, i - 1) && m % 2 == n % 2;
      if j > 0 {
        BitStep(m, j - 1);
        BitStep(n, j - 1);
        BitSetBit(n / 2, i - 1, j - 1);
      }
    }
  }

  /******* The buffer *******/

  /** The zeroed buffer of a thread after the words have been stored at its front. */
  function Buffer(words: seq<Uint64>, size: nat): (b: seq<Byte>)
    ensures |b| == size
  {
    (Bytes(words) + Zeros(size))[..size]
  }

  /******* One thread *******/

  /** The last frame read: its number and codes. */
  datatype Last = Last(numReads: nat, cc: Byte, ret: int)

  datatype Cut = Complete | CutToNextCore | CutToNextSocket | CutByTime

  datatype Reading = Reading(s: State, words: seq<Uint64>, last: Last, cut: Cut)

  /** Is the collection limit checked, and reached, at the next clock reading? */
  predicate LimitHit(e: Env, s: State) {
    e.Limit().Some? && Reached(e.Limit().value, e.start, e.clock(s.tick))
  }

  function Checked(e: Env, s: State): State {
    if e.Limit().None? then s else s.(tick := s.tick + 1).Add(Check(e.clock(s.tick)))
  }

  /** Frames i, i + 1, ... below n. */
  function ReadFrames(e: Env, s: State, core: nat, i: nat, n: nat, words: seq<Uint64>, last: Last): Reading
    decreases n - i
  {
    if i >= n then Reading(s, words, last, Complete)
    else if LimitHit(e, s) then Reading(Checked(e, s).Add(AbortNote), words, last, CutByTime)
    else
      var f, t := e.frames(s.frame), FrameRead(e, s, core, i);
      var words', last' := words + [f.raw], Last(i, f.cc, f.ret);
      if CutBy(f).Some? then Reading(t, words', last', CutBy(f).value)
      else ReadFrames(e, t, core, i + 1, n, words', last')
  }

  /** How a body frame ends the collection, if it does. */
  function CutBy(f: Frame): Option<Cut> {
    if SkipCore(f.cc) then Some(CutToNextCore)
    else if SkipSocket(f.cc) then Some(CutToNextSocket)
    else if f.ret != PECI_CC_SUCCESS then Some(CutToNextCore)
    else None
  }

  /** A body frame has been read. */
  function FrameRead(e: Env, s: State, core: nat, i: nat): State {
    Checked(e, s).(frame := s.frame + 1).Add(BodyRead(core, i, e.frames(s.frame)))
  }

  /** What a thread's header frame decides. */
  function HeaderStatus(f: Frame): Status {
    if f.ret != PECI_CC_SUCCESS then ErrorGet
    else if SkipCore(f.cc) then NextCore
    else if SkipSocket(f.cc) then NextSocket
    else Success
  }

  /** The core is marked as crashed, and a pending wait ends with a note (one clock reading). */
  function Accepted(s: State, core: nat, now: Timespec): State {
    var t := s.(crashed := SetBit(s.crashed, core));
    if t.waiting then t.(waiting := false, tick := t.tick + 1).Add(WaitNote(now)) else t
  }

  /** The qword that tells the thread and whether there is a second one. */
  function WhoMisc(e: Env, r: Reading, size: nat): Uint64 {
    if size < 8 * (CD_WHO_MISC_OFFSET + 1) then e.stray(r.s.frame)
    else if CD_WHO_MISC_OFFSET < |r.words| then r.words[CD_WHO_MISC_OFFSET]
    else 0
  }

  predicate Multithread(e: Env, r: Reading, size: nat) {
    size >= 8 * (CD_WHO_MISC_OFFSET + 1) && Bit(WhoMisc(e, r, size), 32)
  }

  function AfterStore(e: Env, r: Reading, core: nat, h: Sizes): State {
    var data := Buffer(r.words, e.Size(h));
    var end := Ending(8 * r.last.numReads + 8, r.last.cc, r.last.ret);
    var threadId := if Bit(WhoMisc(e, r, e.Size(h)), 0) then 1 else 0;
    r.s.(decode := Remembered(r.s.decode, PrintHex(h.version)))
       .Add(Store(core, threadId, h.version, h.regDumpSize, data, end,
                  StoredFor(r.s.decode, h.version, h.regDumpSize, e.model, data, end, e.limited)))
  }

  datatype Queried = Queried(s: State, status: Status, multithread: bool)

  function AfterFrames(e: Env, r: Reading, core: nat, h: Sizes): Queried {
    if r.cut == CutToNextSocket then Queried(r.s, NextSocket, false)
    else
      Queried(AfterStore(e, r, core, h),
              match r.cut case CutToNextCore => NextCore case CutByTime => TimeUp case _ => Success,
              Multithread(e, r, e.Size(h)))
  }

  /** queryForCrashDataForThread. */
  function Query(e: Env, s: State, core: nat, thread: nat): Queried {
    var f := e.frames(s.frame);
    var t := s.(frame := s.frame + 1).Add(HeaderRead(core, thread, f));
    if HeaderStatus(f) != Success then Queried(t, HeaderStatus(f), false)
    else
      var h := Header(f.raw);
      AfterFrames(e, ReadFrames(e, Accepted(t, core, e.clock(t.tick)), core, 1, e.Size(h) / 8, [f.raw],
                                Last(0, f.cc, f.ret)),
                  core, h)
  }

  /******* Threads, cores, sweeps *******/

  datatype Round = Round(s: State, halt: bool)

  predicate Halts(status: Status) { status == NextSocket || status == TimeUp }

  /** The loop over the threads of a core. */
  function Threads(e: Env, s: State, core: nat, thread: nat, threads: nat): Round
    requires threads <= 2
    decreases 2 - thread
  {
    if thread >= threads then Round(s, false)
    else
      var q := Query(e, s, core, thread);
      var t := q.s.Add(Result(core, thread, q.status));
      if q.status == NextCore then Round(t, false)
      else if Halts(q.status) then Round(t, true)
      else
        Threads(e, if thread == 0 && q.status == Success then t.(left := t.left - 1) else t,
                core, thread + 1, if q.multithread then 2 else threads)
  }

  lemma {:induction false} Pow2Monotone(i: nat, j: nat)
    requires i <= j
    ensures Pow2(i) <= Pow2(j)
  {
    if i < j {
      Pow2Monotone(i, j - 1);
    }
  }

  lemma NoCoreLeft(mask: nat, core: nat)
    requires mask < Pow2(63) && mask / Pow2(core) != 0
    ensures core < 63
  {
    if core >= 63 {
      Pow2Monotone(63, core);
      UniqueQuotient(mask, Pow2(core), 0, mask);
    }
  }

  /** The loop over the cores from one on. */
  function Cores(e: Env, s: State, core: nat): Round
    requires e.coreMask < Pow2(63)
    decreases 63 - core
  {
    if e.coreMask / Pow2(core) == 0 then Round(s, false)
    else
      NoCoreLeft(e.coreMask, core);
      if !Bit(e.coreMask, core) then Cores(e, s, core + 1)
      else
        var r := Threads(e, s, core, 0, 1);
        if r.halt || r.s.left <= 0 then r else Cores(e, r.s, core + 1)
  }

  /** isMaxTimeElapsed at the next clock reading. */
  predicate WaitIsOver(e: Env, s: State) {
    Reached(e.maxWait, e.crashdumpStart, e.clock(s.tick))
  }

  /** The clock readings still to come before the wait is certainly over. */
  function Patience(e: Env, s: State): nat {
    if s.tick < e.horizon then e.horizon - s.tick else 0
  }

  lemma WaitEnds(e: Env, s: State)
    requires e.Valid() && !WaitIsOver(e, s)
    ensures s.tick < e.horizon
  {
  }

  /** No loop turns the clock back or takes an event back. */
  lemma {:induction false} TicksInFrames(e: Env, s: State, core: nat, i: nat, n: nat, words: seq<Uint64>, last: Last)
    ensures s.tick <= ReadFrames(e, s, core, i, n, words, last).s.tick
    ensures s.trace <= ReadFrames(e, s, core, i, n, words, last).s.trace
    decreases n - i
  {
    if i < n && !LimitHit(e, s) {
      var f := e.frames(s.frame);
      TicksInFrames(e, FrameRead(e, s, core, i), core, i + 1, n, words + [f.raw], Last(i, f.cc, f.ret));
    }
  }

  lemma TicksInQuery(e: Env, s: State, core: nat, thread: nat)
    ensures s.tick <= Query(e, s, core, thread).s.tick
    ensures s.trace <= Query(e, s, core, thread).s.trace
  {
    hide SetBit, ReadFrames, StoredFor, Remembered, PrintHex, Buffer, Bit, HeaderStatus;
    var f := e.frames(s.frame);
    var t := s.(frame := s.frame + 1).Add(HeaderRead(core, thread, f));
    TicksInFrames(e, Accepted(t, core, e.clock(t.tick)), core, 1, e.Size(Header(f.raw)) / 8, [f.raw],
                  Last(0, f.cc, f.ret));
  }

  lemma {:induction false} TicksInThreads(e: Env, s: State, core: nat, thread: nat, threads: nat)
    requires threads <= 2
    ensures s.tick <= Threads(e, s, core, thread, threads).s.tick
    ensures s.trace <= Threads(e, s, core, thread, threads).s.trace
    decreases 2 - thread
  {
    hide Query;
    if thread < threads {
      TicksInQuery(e, s, core, thread);
      var q := Query(e, s, core, thread);
      var t := q.s.Add(Result(core, thread, q.status));
      TicksInThreads(e, if thread == 0 && q.status == Success then t.(left := t.left - 1) else t,
                     core, thread + 1, if q.multithread then 2 else threads);
    }
  }

  lemma {:induction false} TicksInCores(e: Env, s: State, core: nat)
    requires e.coreMask < Pow2(63)
    ensures s.tick <= Cores(e, s, core).s.tick
    ensures s.trace <= Cores(e, s, core).s.trace
    decreases 63 - core
  {
    hide Threads, Bit;
    if e.coreMask / Pow2(core) != 0 {
      NoCoreLeft(e.coreMask, core);
      if !Bit(e.coreMask, core) {
        TicksInCores(e, s, core + 1);
      } else {
        TicksInThreads(e, s, core, 0, 1);
        TicksInCores(e, Threads(e, s, core, 0, 1).s, core + 1);
      }
    }
  }

  /** The retry loop. It ends because the wait for the first core is over at some reading. */
  ghost function Sweeps(e: Env, s: State): State
    requires e.Valid()
    decreases Patience(e, s)
  {
    var r := Cores(e, s.Add(Sweep), 0);
    if r.halt then r.s
    else
      var t := r.s.(tick := r.s.tick + 1).Add(WaitCheck(e.clock(r.s.tick)));
      if r.s.waiting && !WaitIsOver(e, r.s) then
        TicksInCores(e, s.Add(Sweep), 0);
        WaitEnds(e, r.s);
        Sweeps(e, t)
      else t
  }

  /** logCrashdumpICXSPR: nothing at all unless MaxCollectionCores, as a signed byte, is positive. */
  ghost function Collect(e: Env, s: State): State
    requires e.Valid()
  {
    if s.left <= 0 then s else Sweeps(e, s)
  }
}
