/** What a big-core collection leaves to a core loop of the same socket that runs after it: with
    SkipCrashedCores exactly the cores the collection did not reach. */
module CrashedCores {
  import opened Numerals
  import opened Logger
  import opened DecodeMap
  import opened ThreadDump
  import opened BigCoreSweep
  import opened SweepTheorems
  import Flow
  import SectionTheorems

  /******* Stored data comes from accepted cores *******/

  ghost predicate StoredAccepted(t: seq<Event>) {
    forall i :: 0 <= i < |t| && t[i].Store? ==> AcceptedCore(t, t[i].core)
  }

  lemma AcceptedGrows(t: seq<Event>, ev: Event, core: nat)
    requires AcceptedCore(t, core)
    ensures AcceptedCore(t + [ev], core)
  {
    hide HeaderStatus;
    var i :| 0 <= i < |t| && Accepts(t[i]) && t[i].core == core;
    assert (t + [ev])[i] == t[i];
  }

  lemma AddAccepted(t: seq<Event>, ev: Event)
    requires StoredAccepted(t) && (ev.Store? ==> AcceptedCore(t, ev.core))
    ensures StoredAccepted(t + [ev])
  {
    hide AcceptedCore;
    forall i | 0 <= i < |t + [ev]| && (t + [ev])[i].Store? ensures AcceptedCore(t + [ev], (t + [ev])[i].core) {
      AcceptedGrows(t, ev, (t + [ev])[i].core);
    }
  }

  /** In the middle of a thread: the core has been accepted. */
  ghost predicate Inside(t: seq<Event>, core: nat) { StoredAccepted(t) && AcceptedCore(t, core) }

  lemma AddInside(t: seq<Event>, ev: Event, core: nat)
    requires Inside(t, core) && (ev.Store? ==> ev.core == core)
    ensures Inside(t + [ev], core)
  {
    hide StoredAccepted, AcceptedCore;
    AddAccepted(t, ev);
    AcceptedGrows(t, ev, core);
  }

  lemma {:induction false} FramesInside(e: Env, s: State, core: nat, i: nat, n: nat, words: seq<Uint64>, last: Last)
    requires Inside(s.trace, core)
    ensures Inside(ReadFrames(e, s, core, i, n, words, last).s.trace, core)
    decreases n - i
  {
    hide Inside, CutBy, LimitHit;
    if i < n {
      if e.Limit().Some? {
        AddInside(s.trace, Check(e.clock(s.tick)), core);
      }
      var c := Checked(e, s);
      if LimitHit(e, s) {
        AddInside(c.trace, AbortNote, core);
      } else {
        var f := e.frames(s.frame);
        AddInside(c.trace, BodyRead(core, i, f), core);
        FramesInside(e, FrameRead(e, s, core, i), core, i + 1, n, words + [f.raw], Last(i, f.cc, f.ret));
      }
    }
  }

  lemma QueryAccepted(e: Env, s: State, core: nat, thread: nat)
    requires StoredAccepted(s.trace)
    ensures StoredAccepted(Query(e, s, core, thread).s.trace)
  {
    hide StoredAccepted, AcceptedCore, ReadFrames, SetBit, Buffer, StoredFor, Remembered, WhoMisc, Multithread, Bit,
         PrintHex, Env.Size, HeaderStatus;
    var f := e.frames(s.frame);
    var t, h := s.(frame := s.frame + 1).Add(HeaderRead(core, thread, f)), Header(f.raw);
    AddAccepted(s.trace, HeaderRead(core, thread, f));
    if HeaderStatus(f) == Success {
      JustAccepted(s.trace, HeaderRead(core, thread, f));
      if t.waiting {
        AddInside(t.trace, WaitNote(e.clock(t.tick)), core);
      }
      var u := Accepted(t, core, e.clock(t.tick));
      FramesInside(e, u, core, 1, e.Size(h) / 8, [f.raw], Last(0, f.cc, f.ret));
      var r := ReadFrames(e, u, core, 1, e.Size(h) / 8, [f.raw], Last(0, f.cc, f.ret));
      var v := AfterStore(e, r, core, h);
      AddInside(r.s.trace, v.trace[|r.s.trace|], core);
    }
  }

  lemma JustAccepted(t: seq<Event>, ev: Event)
    requires Accepts(ev)
    ensures AcceptedCore(t + [ev], ev.core)
  {
    hide HeaderStatus;
    assert (t + [ev])[|t|] == ev;
  }

  lemma {:induction false} ThreadsAccepted(e: Env, s: State, core: nat, thread: nat, threads: nat)
    requires StoredAccepted(s.trace) && threads <= 2
    ensures StoredAccepted(Threads(e, s, core, thread, threads).s.trace)
    decreases 2 - thread
  {
    hide StoredAccepted, Query;
    if thread < threads {
      var q := Query(e, s, core, thread);
      QueryAccepted(e, s, core, thread);
      AddAccepted(q.s.trace, Result(core, thread, q.status));
      var t := q.s.Add(Result(core, thread, q.status));
      ThreadsAccepted(e, if thread == 0 && q.status == Success then t.(left := t.left - 1) else t,
                      core, thread + 1, if q.multithread then 2 else threads);
    }
  }

  lemma {:induction false} CoresAccepted(e: Env, s: State, core: nat)
    requires StoredAccepted(s.trace) && e.coreMask < Pow2(63)
    ensures StoredAccepted(Cores(e, s, core).s.trace)
    decreases 63 - core
  {
    hide StoredAccepted, Threads, Bit, Pow2;
    if e.coreMask / Pow2(core) != 0 {
      NoCoreLeft(e.coreMask, core);
      if Bit(e.coreMask, core) {
        ThreadsAccepted(e, s, core, 0, 1);
        CoresAccepted(e, Threads(e, s, core, 0, 1).s, core + 1);
      } else {
        CoresAccepted(e, s, core + 1);
      }
    }
  }

  lemma {:induction false} SweepsAccepted(e: Env, s: State)
    requires e.Valid() && StoredAccepted(s.trace)
    ensures StoredAccepted(Sweeps(e, s).trace)
    decreases Patience(e, s)
  {
    hide StoredAccepted, Cores, WaitIsOver, Pow2, Env.Limit;
    AddAccepted(s.trace, Sweep);
    CoresAccepted(e, s.Add(Sweep), 0);
    var r := Cores(e, s.Add(Sweep), 0);
    AddAccepted(r.s.trace, WaitCheck(e.clock(r.s.tick)));
    if !r.halt && r.s.waiting && !WaitIsOver(e, r.s) {
      TicksInCores(e, s.Add(Sweep), 0);
      WaitEnds(e, r.s);
      SweepsAccepted(e, r.s.(tick := r.s.tick + 1).Add(WaitCheck(e.clock(r.s.tick))));
    }
  }

  /** Over a whole collection data is only stored for cores with an accepted header. */
  lemma CollectAccepted(e: Env, a: Start, waiting: bool)
    requires e.Valid()
    ensures StoredAccepted(Collect(e, Initial(a, waiting)).trace)
  {
    hide Sweeps, Env.Valid;
    assert StoredAccepted(Initial(a, waiting).trace);
    if a.max > 0 {
      SweepsAccepted(e, Initial(a, waiting));
    }
  }

  /******* The core loop afterwards *******/

  /** The section's core loop finds the masks of the socket as the collection left them. */
  ghost predicate Follows(env: Flow.Env, e: Env, s: State) {
    && env.Flags().core && !env.Flags().cha
    && env.coreMask == e.coreMask
    && forall core: nat :: env.crashed(core) <==> Bit(s.crashed, core)
  }

  /** After any collection, whatever PECI answered: the core loop visits an enabled core unless
      it leaves out crashed ones and the core was crashed before or had a header accepted. */
  lemma VisitedAfterCollection(e: Env, a: Start, waiting: bool, env: Flow.Env, core: Byte)
    requires e.Valid() && core < 64 && Follows(env, e, Collect(e, Initial(a, waiting)))
    ensures var s := Collect(e, Initial(a, waiting));
            Flow.CoreVisit(env, core) in Flow.Visits(env) <==>
              Bit(e.coreMask, core)
              && !(env.skipCrashedCores && (Bit(a.crashed, core) || AcceptedCore(s.trace, core)))
  {
    hide Bit, Collect, AcceptedCore, Flow.CoreVisit, Flow.CoreVisits, Env.Valid;
    CollectionIsSafe(e, a, waiting);
    SectionTheorems.VisitedCores(env, 64);
  }

  /** So with SkipCrashedCores no core is reported twice: what the core loop visits has no data
      stored by the collection. */
  lemma NothingReportedTwice(e: Env, a: Start, waiting: bool, env: Flow.Env, v: seq<Context>, i: nat)
    requires e.Valid() && env.skipCrashedCores && Follows(env, e, Collect(e, Initial(a, waiting)))
    requires v in Flow.Visits(env)
    requires var t := Collect(e, Initial(a, waiting)).trace; i < |t| && t[i].Store?
    ensures v != [] && v[0].core != Collect(e, Initial(a, waiting)).trace[i].core
  {
    hide Bit, Collect, AcceptedCore, Flow.CoreVisit, Flow.CoreVisits, Env.Valid;
    SectionTheorems.VisitedCores(env, 64);
    CollectAccepted(e, a, waiting);
    VisitedAfterCollection(e, a, waiting, env, v[0].core);
  }
}
