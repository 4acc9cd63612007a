/** When a big-core collection starts over and when it ends, what the codes of its frames decide,
    and which threads of a core it asks. */
module SweepRetries {
  import opened Numerals
  import opened Clock
  import opened CmdInOut
  import opened DecodeMap
  import opened Memory
  import opened Models
  import opened RegisterDump
  import opened ThreadDump
  import opened BigCoreSweep
  import opened SweepTheorems

  /******* The waiting flag *******/

  /** The run waits as long as it did at the start and no header has been accepted; and it has not
      started over since the trace had a certain length. */
  ghost predicate Flagged(s: State, waiting: bool, from: nat) {
    && (s.waiting <==> waiting && NoneAccepted(s.trace))
    && from <= |s.trace| && forall i :: from <= i < |s.trace| ==> !s.trace[i].Sweep?
  }

  lemma AddFlagged(s: State, ev: Event, waiting: bool, from: nat)
    requires Flagged(s, waiting, from) && !Accepts(ev) && !ev.Sweep?
    ensures Flagged(s.Add(ev), waiting, from)
  {
    hide HeaderStatus;
    assert forall i :: 0 <= i < |s.trace| ==> (s.trace + [ev])[i] == s.trace[i];
  }

  lemma FlagOnly(s: State, t: State, waiting: bool, from: nat)
    requires Flagged(s, waiting, from) && t.trace == s.trace && t.waiting == s.waiting
    ensures Flagged(t, waiting, from)
  {
  }

  lemma {:induction false} FramesFlagged(e: Env, s: State, core: nat, i: nat, n: nat, words: seq<Uint64>, last: Last,
                                         waiting: bool, from: nat)
    requires Flagged(s, waiting, from)
    ensures Flagged(ReadFrames(e, s, core, i, n, words, last).s, waiting, from)
    decreases n - i
  {
    hide Flagged, CutBy, LimitHit;
    if i < n {
      if e.Limit().Some? {
        FlagOnly(s, s.(tick := s.tick + 1), waiting, from);
        AddFlagged(s.(tick := s.tick + 1), Check(e.clock(s.tick)), waiting, from);
      }
      var c := Checked(e, s);
      if LimitHit(e, s) {
        AddFlagged(c, AbortNote, waiting, from);
      } else {
        var f := e.frames(s.frame);
        FlagOnly(c, c.(frame := s.frame + 1), waiting, from);
        AddFlagged(c.(frame := s.frame + 1), BodyRead(core, i, f), waiting, from);
        FramesFlagged(e, FrameRead(e, s, core, i), core, i + 1, n, words + [f.raw], Last(i, f.cc, f.ret),
                      waiting, from);
      }
    }
  }

  lemma AcceptFlagged(s: State, ev: Event, core: nat, now: Timespec, waiting: bool, from: nat)
    requires Flagged(s, waiting, from) && Accepts(ev)
    ensures Flagged(Accepted(s.Add(ev), core, now), waiting, from)
  {
    hide HeaderStatus, SetBit;
    var t := Accepted(s.Add(ev), core, now);
    assert t.trace[|s.trace|] == ev;
  }

  lemma QueryFlagged(e: Env, s: State, core: nat, thread: nat, waiting: bool, from: nat)
    requires Flagged(s, waiting, from)
    ensures Flagged(Query(e, s, core, thread).s, waiting, from)
  {
    hide Flagged, ReadFrames, Accepted, Buffer, StoredFor, Remembered, WhoMisc, Multithread, Bit, PrintHex, Env.Size,
         HeaderStatus;
    var f := e.frames(s.frame);
    var c, h := s.(frame := s.frame + 1), Header(f.raw);
    FlagOnly(s, c, waiting, from);
    if HeaderStatus(f) != Success {
      AddFlagged(c, HeaderRead(core, thread, f), waiting, from);
    } else {
      var t := c.Add(HeaderRead(core, thread, f));
      AcceptFlagged(c, HeaderRead(core, thread, f), core, e.clock(t.tick), waiting, from);
      var u := Accepted(t, core, e.clock(t.tick));
      FramesFlagged(e, u, core, 1, e.Size(h) / 8, [f.raw], Last(0, f.cc, f.ret), waiting, from);
      var r := ReadFrames(e, u, core, 1, e.Size(h) / 8, [f.raw], Last(0, f.cc, f.ret));
      var v := AfterStore(e, r, core, h);
      FlagOnly(r.s, r.s.(decode := v.decode), waiting, from);
      AddFlagged(r.s.(decode := v.decode), v.trace[|r.s.trace|], waiting, from);
    }
  }

  /** The last event says that the collection must stop. */
  predicate Stopped(t: seq<Event>) {
    t != [] && t[|t| - 1].Result? && (t[|t| - 1].status == NextSocket || t[|t| - 1].status == TimeUp)
  }

  lemma {:induction false} ThreadsFlagged(e: Env, s: State, core: nat, thread: nat, threads: nat,
                                          waiting: bool, from: nat)
    requires Flagged(s, waiting, from) && threads <= 2
    ensures var r := Threads(e, s, core, thread, threads);
            Flagged(r.s, waiting, from) && (r.halt ==> Stopped(r.s.trace))
    decreases 2 - thread
  {
    hide Flagged, Query;
    if thread < threads {
      var q := Query(e, s, core, thread);
      QueryFlagged(e, s, core, thread, waiting, from);
      AddFlagged(q.s, Result(core, thread, q.status), waiting, from);
      var t := q.s.Add(Result(core, thread, q.status));
      var u := if thread == 0 && q.status == Success then t.(left := t.left - 1) else t;
      FlagOnly(t, u, waiting, from);
      ThreadsFlagged(e, u, core, thread + 1, if q.multithread then 2 else threads, waiting, from);
    }
  }

  lemma {:induction false} CoresFlagged(e: Env, s: State, core: nat, waiting: bool, from: nat)
    requires Flagged(s, waiting, from) && e.coreMask < Pow2(63)
    ensures var r := Cores(e, s, core);
            Flagged(r.s, waiting, from) && (r.halt ==> Stopped(r.s.trace))
    decreases 63 - core
  {
    hide Flagged, Threads, Bit, Pow2, Stopped;
    if e.coreMask / Pow2(core) != 0 {
      NoCoreLeft(e.coreMask, core);
      if Bit(e.coreMask, core) {
        ThreadsFlagged(e, s, core, 0, 1, waiting, from);
        CoresFlagged(e, Threads(e, s, core, 0, 1).s, core + 1, waiting, from);
      } else {
        CoresFlagged(e, s, core + 1, waiting, from);
      }
    }
  }

  /******* Starting over *******/

  /** MaxWaitSec has passed at this reading. */
  predicate WaitedOut(e: Env, now: Timespec) {
    now.Nanos() - e.crashdumpStart.Nanos() >= e.maxWait * 1_000_000_000
  }

  /** Sweep i starts directly after a check that the wait is not over, and no core has been
      accepted so far. */
  predicate StartsOver(e: Env, t: seq<Event>, i: nat)
    requires 0 < i < |t|
  {
    t[i - 1].WaitCheck? && !WaitedOut(e, t[i - 1].now) && NoneAccepted(t[..i])
  }

  ghost predicate SweepsInOrder(e: Env, waiting: bool, t: seq<Event>) {
    forall i :: 0 < i < |t| && t[i].Sweep? ==> waiting && StartsOver(e, t, i)
  }

  /** The collection may end: it was stopped, a core has been accepted, it did not have to wait,
      or the wait is over. */
  predicate MayEnd(e: Env, waiting: bool, t: seq<Event>) {
    || Stopped(t)
    || (t != [] && t[|t| - 1].WaitCheck? && (!waiting || !NoneAccepted(t) || WaitedOut(e, t[|t| - 1].now)))
  }

  lemma StillInOrder(e: Env, waiting: bool, t: seq<Event>, u: seq<Event>)
    requires t <= u && SweepsInOrder(e, waiting, t) && forall i :: |t| <= i < |u| ==> !u[i].Sweep?
    ensures SweepsInOrder(e, waiting, u)
  {
    hide NoneAccepted, WaitedOut;
    forall i | 0 < i < |u| && u[i].Sweep? ensures waiting && StartsOver(e, u, i) {
      assert t[i] == u[i] && u[..i] == t[..i];
      assert StartsOver(e, t, i);
    }
  }

  lemma OverIsWaitedOut(e: Env, s: State)
    ensures WaitIsOver(e, s) <==> WaitedOut(e, e.clock(s.tick))
  {
  }

  lemma SweepAdded(e: Env, waiting: bool, s: State)
    requires Flagged(s, waiting, |s.trace|) && SweepsInOrder(e, waiting, s.trace)
    requires s.trace != [] ==>
               s.waiting && s.trace[|s.trace| - 1].WaitCheck? && !WaitedOut(e, s.trace[|s.trace| - 1].now)
    ensures SweepsInOrder(e, waiting, s.Add(Sweep).trace) && Flagged(s.Add(Sweep), waiting, |s.trace| + 1)
  {
    hide WaitedOut, HeaderStatus;
    var t := s.trace + [Sweep];
    assert forall i :: 0 <= i < |s.trace| ==> t[i] == s.trace[i];
    assert NoneAccepted(t) <==> NoneAccepted(s.trace);
    forall i | 0 < i < |t| && t[i].Sweep? ensures waiting && StartsOver(e, t, i) {
      if i < |s.trace| {
        assert t[..i] == s.trace[..i];
        assert StartsOver(e, s.trace, i);
      } else {
        assert t[..i] == s.trace;
      }
    }
  }

  lemma {:induction false} SweepsLaw(e: Env, waiting: bool, s: State)
    requires e.Valid() && Flagged(s, waiting, |s.trace|) && SweepsInOrder(e, waiting, s.trace)
    requires s.trace != [] ==>
               s.waiting && s.trace[|s.trace| - 1].WaitCheck? && !WaitedOut(e, s.trace[|s.trace| - 1].now)
    ensures var t := Sweeps(e, s).trace;
            s.trace + [Sweep] <= t && SweepsInOrder(e, waiting, t) && MayEnd(e, waiting, t)
    decreases Patience(e, s)
  {
    hide Cores, Flagged, SweepsInOrder, WaitedOut, WaitIsOver, NoneAccepted, Pow2, RemainingSeconds;
    var from := |s.trace| + 1;
    SweepAdded(e, waiting, s);
    var r := Cores(e, s.Add(Sweep), 0);
    CoresFlagged(e, s.Add(Sweep), 0, waiting, from);
    TicksInCores(e, s.Add(Sweep), 0);
    assert r.s.trace[..from] == s.trace + [Sweep];
    NoSweepSince(r.s, waiting, from);
    StillInOrder(e, waiting, s.trace + [Sweep], r.s.trace);
    if !r.halt {
      var check := WaitCheck(e.clock(r.s.tick));
      var later := r.s.(tick := r.s.tick + 1);
      FlagOnly(r.s, later, waiting, from);
      AddFlagged(later, check, waiting, from);
      var t := later.Add(check);
      NoSweepSince(t, waiting, from);
      StillInOrder(e, waiting, r.s.trace, t.trace);
      OverIsWaitedOut(e, r.s);
      if r.s.waiting && !WaitIsOver(e, r.s) {
        WaitEnds(e, r.s);
        FlaggedNow(t, waiting, from);
        SweepsLaw(e, waiting, t);
      } else {
        FlagSays(t, waiting, from);
      }
    }
  }

  lemma NoSweepSince(s: State, waiting: bool, from: nat)
    requires Flagged(s, waiting, from)
    ensures from <= |s.trace| && forall i :: from <= i < |s.trace| ==> !s.trace[i].Sweep?
  {
  }

  lemma FlaggedNow(s: State, waiting: bool, from: nat)
    requires Flagged(s, waiting, from)
    ensures Flagged(s, waiting, |s.trace|)
  {
  }

  lemma FlagSays(s: State, waiting: bool, from: nat)
    requires Flagged(s, waiting, from)
    ensures s.waiting <==> waiting && NoneAccepted(s.trace)
  {
  }

  /** A collection with a positive number of cores begins with a sweep. It starts over exactly
      after a check at which MaxWaitSec has not passed, if it had to wait and no header has been
      accepted; and it ends only when it was stopped, when a header has been accepted, when it did
      not have to wait, or after a check at which MaxWaitSec has passed. */
  lemma RetriesExactly(e: Env, a: Start, waiting: bool)
    requires e.Valid() && a.max > 0
    ensures var t := Collect(e, Initial(a, waiting)).trace;
            && t != [] && t[0] == Sweep
            && SweepsInOrder(e, waiting, t)
            && MayEnd(e, waiting, t)
  {
    hide Sweeps, Env.Valid, MayEnd;
    SweepsLaw(e, waiting, Initial(a, waiting));
    var t := Collect(e, Initial(a, waiting)).trace;
    assert [Sweep] <= t by { assert [] + [Sweep] == [Sweep]; }
    assert t[0] == [Sweep][0];
  }
}
