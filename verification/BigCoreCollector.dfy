/** The collector of engine/BigCore.c as it runs: fields updated in place by nested loops, each
    method proved against what BigCoreSweep says the step does. */
module BigCoreCollector {
  import opened Numerals
  import opened Clock
  import opened CmdInOut
  import opened DecodeMap
  import opened Memory
  import opened RegisterDump
  import opened ThreadDump
  import opened BigCoreSweep

  class BigCore {
    const env: Env
    const inputFile: InputFile
    var frame: nat
    var tick: nat
    var crashedCoreMask: nat
    var waitForCoreCrashdump: bool
    var maxCollectionCores: int
    var trace: seq<Event>

    ghost function Abs(): State
      reads this, inputFile
    {
      State(frame, tick, crashedCoreMask, waitForCoreCrashdump, maxCollectionCores, inputFile.decode, trace)
    }

    constructor (e: Env, file: InputFile, crashed: nat, waiting: bool, cores: Option<int>)
      ensures env == e && inputFile == file
      ensures Abs() == State(0, 0, crashed, waiting, MaxCollectionCores(cores), file.decode, [])
    {
      env, inputFile := e, file;
      frame, tick, crashedCoreMask, waitForCoreCrashdump := 0, 0, crashed, waiting;
      maxCollectionCores, trace := MaxCollectionCores(cores), [];
    }

    /** peci_CrashDump_GetFrame: the next answer. */
    method GetFrame() returns (f: Frame)
      modifies this`frame
      ensures f == env.frames(old(frame)) && frame == old(frame) + 1
    {
      f := env.frames(frame);
      frame := frame + 1;
    }

    method ClockGettime() returns (now: Timespec)
      modifies this`tick
      ensures now == env.clock(old(tick)) && tick == old(tick) + 1
    {
      now := env.clock(tick);
      tick := tick + 1;
    }

    method Note(ev: Event)
      modifies this`trace
      ensures trace == old(trace) + [ev]
    {
      trace := trace + [ev];
    }

    /** checkMaxTimeElapsed against the collection limit, when there is one. */
    method CheckLimit() returns (aborted: bool)
      requires env.Valid()
      modifies this`tick, this`trace
      ensures aborted == LimitHit(env, old(Abs())) && Abs() == Checked(env, old(Abs()))
    {
      if env.Limit().None? {
        return false;
      }
      assert env.start.Nanos() <= env.clock(0).Nanos() <= env.clock(tick).Nanos();
      var now := ClockGettime();
      Note(Check(now));
      var status := CheckMaxTimeElapsed(env.Limit().value, env.start, now);
      aborted := status == Aborted;
    }

    /** One body frame, unless the limit has been reached. */
    method ReadFrame(core: nat, i: nat) returns (f: Option<Frame>)
      requires env.Valid()
      modifies this`frame, this`tick, this`trace
      ensures f.None? <==> LimitHit(env, old(Abs()))
      ensures f.None? ==> Abs() == Checked(env, old(Abs())).Add(AbortNote)
      ensures f.Some? ==> f.value == env.frames(old(frame)) && Abs() == FrameRead(env, old(Abs()), core, i)
    {
      hide Reached, LimitHit;
      var aborted := CheckLimit();
      if aborted {
        Note(AbortNote);
        return None;
      }
      var frame := GetFrame();
      Note(BodyRead(core, i, frame));
      return Some(frame);
    }

    /** The loop that fills the buffer frame by frame. */
    method FillBuffer(core: nat, header: Frame, buffer: array<Uint64>)
      returns (last: Last, cut: Cut, ghost words: seq<Uint64>)
      requires env.Valid() && buffer.Length >= 1 && (forall k :: 0 <= k < buffer.Length ==> buffer[k] == 0)
      modifies this`frame, this`tick, this`trace, buffer
      ensures ReadFrames(env, old(Abs()), core, 1, buffer.Length, [header.raw], Last(0, header.cc, header.ret)) ==
              Reading(Abs(), words, last, cut)
      ensures |words| <= buffer.Length && buffer[..|words|] == words
      ensures forall k :: |words| <= k < buffer.Length ==> buffer[k] == 0
    {
      hide CutBy, LimitHit, FrameRead, Checked;
      buffer[0] := header.raw;
      words, last, cut := [header.raw], Last(0, header.cc, header.ret), Complete;
      ghost var total := ReadFrames(env, old(Abs()), core, 1, buffer.Length, words, last);
      var i := 1;
      while i < buffer.Length
        invariant 1 <= i <= buffer.Length && |words| == i && buffer[..i] == words
        invariant forall k :: i <= k < buffer.Length ==> buffer[k] == 0
        invariant total == ReadFrames(env, Abs(), core, i, buffer.Length, words, last)
      {
        var f := ReadFrame(core, i);
        if f.None? {
          cut := CutByTime;
          return;
        }
        buffer[i] := f.value.raw;
        words, last := words + [f.value.raw], Last(i, f.value.cc, f.value.ret);
        var c := CutBy(f.value);
        if c.Some? {
          cut := c.value;
          return;
        }
        i := i + 1;
      }
    }

    /** Accepting a header: mark the core, and end the wait with a note (one clock reading). */
    method Accept(core: nat)
      modifies this`crashedCoreMask, this`waitForCoreCrashdump, this`tick, this`trace
      ensures Abs() == Accepted(old(Abs()), core, env.clock(old(tick)))
    {
      hide SetBit;
      crashedCoreMask := SetBit(crashedCoreMask, core);
      if waitForCoreCrashdump {
        waitForCoreCrashdump := false;
        var now := ClockGettime();
        Note(WaitNote(now));
      }
    }

    /** Everything behind the frame loop: look at the fourth qword and store what was read. */
    method StoreFrames(core: nat, h: Sizes, buffer: array<Uint64>, last: Last, ghost r: Reading)
      returns (multithread: bool)
      requires r.s == Abs() && r.last == last && |r.words| <= buffer.Length && buffer[..|r.words|] == r.words
      requires forall k :: |r.words| <= k < buffer.Length ==> buffer[k] == 0
      requires env.Size(h) / 8 <= buffer.Length
      modifies this`trace, inputFile
      ensures Abs() == AfterStore(env, r, core, h)
      ensures multithread == Multithread(env, r, env.Size(h))
    {
      hide StoredFor, Remembered, PrintHex, Buffer, Bit, Env.Size;
      var size := env.Size(h);
      var whoMisc := env.stray(frame);
      multithread := false;
      if size >= 8 * (CD_WHO_MISC_OFFSET + 1) {
        whoMisc := buffer[CD_WHO_MISC_OFFSET];
        assert CD_WHO_MISC_OFFSET < |r.words| ==> buffer[..|r.words|][CD_WHO_MISC_OFFSET] == whoMisc;
        multithread := Bit(whoMisc, 32);
      }
      var threadId := if Bit(whoMisc, 0) then 1 else 0;
      var data := Buffer(buffer[..], size);
      SameBuffer(r.words, buffer[..], size);
      var stored := StoreThread(inputFile, h.version, h.regDumpSize, env.model, data, last.numReads, last.cc, last.ret,
                                env.limited);
      Note(Store(core, threadId, h.version, h.regDumpSize, data, Ending(8 * last.numReads + 8, last.cc, last.ret),
                 stored));
    }

    /** One thread: its header, its frames, what is stored of them, and the outcome. */
    method QueryForCrashDataForThread(core: nat, thread: nat) returns (status: Status, multithread: bool)
      requires env.Valid()
      modifies this`frame, this`tick, this`crashedCoreMask, this`waitForCoreCrashdump, this`trace, inputFile
      ensures Query(env, old(Abs()), core, thread) == Queried(Abs(), status, multithread)
    {
      hide Accepted, ReadFrames, AfterStore, Multithread, Env.Size, Env.Valid, HeaderStatus, Header;
      var f := GetFrame();
      Note(HeaderRead(core, thread, f));
      status := HeaderStatus(f);
      if status != Success {
        return status, false;
      }
      var h := Header(f.raw);
      var words := env.Size(h) / 8;
      var buffer := new Uint64[if words == 0 then 1 else words](_ => 0);
      Accept(core);
      ghost var s := Abs();
      NoBodyFrames(env, s, core, words, [f.raw], Last(0, f.cc, f.ret));
      var last, cut, read := FillBuffer(core, f, buffer);
      ghost var r := Reading(Abs(), read, last, cut);
      if cut == CutToNextSocket {
        return NextSocket, false;
      }
      multithread := StoreFrames(core, h, buffer, last, r);
      status := match cut case CutToNextCore => NextCore case CutByTime => TimeUp case _ => Success;
    }

    /** The loop over the threads of a core; halt is the return out of all loops. */
    method CollectThreads(core: nat) returns (halt: bool)
      requires env.Valid()
      modifies this, inputFile
      ensures Threads(env, old(Abs()), core, 0, 1) == Round(Abs(), halt)
    {
      hide Query, Env.Valid;
      var threads := 1;
      var thread := 0;
      while thread < threads
        invariant threads <= 2
        invariant Threads(env, Abs(), core, thread, threads) == Threads(env, old(Abs()), core, 0, 1)
        decreases 2 - thread
      {
        var status, multithread := QueryForCrashDataForThread(core, thread);
        Note(Result(core, thread, status));
        if multithread {
          threads := 2;
        }
        if status == NextCore {
          return false;
        } else if status == NextSocket || status == TimeUp {
          return true;
        }
        if thread == 0 && status == Success {
          maxCollectionCores := maxCollectionCores - 1;
        }
        thread := thread + 1;
      }
      return false;
    }

    /** The loop over the enabled cores. */
    method CollectCores() returns (halt: bool)
      requires env.Valid()
      modifies this, inputFile
      ensures Cores(env, old(Abs()), 0) == Round(Abs(), halt)
    {
      hide Threads, Bit, Pow2;
      var core := 0;
      while env.coreMask / Pow2(core) != 0
        invariant env.coreMask < Pow2(63)
        invariant Cores(env, Abs(), core) == Cores(env, old(Abs()), 0)
        decreases 63 - core
      {
        NoCoreLeft(env.coreMask, core);
        if Bit(env.coreMask, core) {
          var stop := CollectThreads(core);
          if stop {
            return true;
          }
          if maxCollectionCores <= 0 {
            return false;
          }
        }
        core := core + 1;
      }
      return false;
    }

    /** isMaxTimeElapsed. */
    method IsMaxTimeElapsed() returns (b: bool)
      requires env.Valid()
      modifies this`tick, this`trace
      ensures b == WaitIsOver(env, old(Abs()))
      ensures Abs() == old(Abs()).(tick := old(tick) + 1).Add(WaitCheck(env.clock(old(tick))))
    {
      hide Reached, Pow2;
      assert env.crashdumpStart.Nanos() <= env.clock(0).Nanos() <= env.clock(tick).Nanos();
      var now := ClockGettime();
      Note(WaitCheck(now));
      var timeRemaining := CalculateTimeRemainingFromStart(env.maxWait, env.crashdumpStart, now);
      b := TsToNanosecond(timeRemaining) == 0;
      ZeroTime(timeRemaining);
    }

    /** logCrashdumpICXSPR: sweep again while no core has delivered and the wait is not over. */
    method LogCrashdump()
      requires env.Valid()
      modifies this, inputFile
      ensures Abs() == Collect(env, old(Abs()))
    {
      hide Cores, WaitIsOver, Pow2;
      if maxCollectionCores <= 0 {
        return;
      }
      assert env.coreMask < Pow2(63);
      var again := true;
      while again
        invariant again ==> Sweeps(env, Abs()) == Sweeps(env, old(Abs()))
        invariant !again ==> Abs() == Sweeps(env, old(Abs()))
        decreases again, Patience(env, Abs())
      {
        ghost var s := Abs();
        Note(Sweep);
        var halt := CollectCores();
        if halt {
          return;
        }
        ghost var t := Abs();
        TicksInCores(env, s.Add(Sweep), 0);
        var elapsed := IsMaxTimeElapsed();
        again := waitForCoreCrashdump && !elapsed;
        if again {
          WaitEnds(env, t);
        }
      }
    }
  }

  lemma ZeroTime(t: Timespec)
    requires t.nsec < NS_PER_SEC && t.sec <= TWO_TO_THE_32
    ensures TsToNanosecond(t) == 0 <==> t == Timespec(0, 0)
  {
  }

  /** Zeros that stand in the buffer already change nothing. */
  lemma SameBuffer(words: seq<Uint64>, content: seq<Uint64>, size: nat)
    requires |words| <= |content| && content[..|words|] == words
    requires forall k :: |words| <= k < |content| ==> content[k] == 0
    ensures Buffer(content, size) == Buffer(words, size)
  {
    hide Bytes, WordBytes, Zeros;
    BytesOfZeros(words, content);
    forall j | 0 <= j < size ensures Buffer(content, size)[j] == Buffer(words, size)[j] {
    }
  }

  /** A buffer of a single word leaves nothing to read. */
  lemma NoBodyFrames(e: Env, s: State, core: nat, n: nat, words: seq<Uint64>, last: Last)
    ensures n == 0 ==> ReadFrames(e, s, core, 1, n, words, last) == ReadFrames(e, s, core, 1, 1, words, last)
  {
  }
}
