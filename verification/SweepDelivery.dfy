/** Which of the values shown for a thread the bus has really delivered. The decoder knows the
    codes of the last frame only, and counts that frame as read even if it failed. */
module SweepDelivery {
  import opened Numerals
  import opened Clock
  import opened CmdInOut
  import opened DecodeMap
  import opened RegisterDump
  import opened ThreadDump
  import opened BigCoreSweep
  import SweepLimits

  /** Frame j of the thread that is asked next; its header is frame 0. */
  function FrameOf(e: Env, s: State, j: nat): Frame { e.frames(s.frame + j) }

  predicate Delivers(f: Frame) { f.ret == PECI_CC_SUCCESS && !Unacceptable(f.cc) }

  /** A code that makes the data unacceptable, but does not end the collection. */
  predicate PassedOver(cc: Byte) { Unacceptable(cc) && !SkipCore(cc) && !SkipSocket(cc) }

  /** The last frame read, counted from the header. */
  function LastFrame(end: Ending): int { end.bytesRead / 8 - 1 }

  /******* The frames of a thread *******/

  /** The frame after number base + j is asked for, unless the limit or the size forbids. */
  predicate GoesOn(e: Env, base: nat, j: nat) { CutBy(e.frames(base + j)).None? }

  /** Frames i.. up to the last one were read one after the other, and none but the last could
      end the collection. */
  lemma {:induction false} BodyFrames(e: Env, s: State, base: nat, core: nat, i: nat, n: nat, words: seq<Uint64>,
                                      last: Last)
    requires 0 < i && last.numReads == i - 1 && s.frame == base + i
    ensures var r := ReadFrames(e, s, core, i, n, words, last);
            && r.last.numReads >= i - 1
            && (r.last.numReads == i - 1 ==> r.last == last)
            && (r.last.numReads >= i ==>
                  var f := e.frames(base + r.last.numReads); r.last.cc == f.cc && r.last.ret == f.ret)
            && (forall j :: i <= j < r.last.numReads ==> GoesOn(e, base, j))
    decreases n - i
  {
    hide CutBy, LimitHit, Env.Limit;
    if i < n && !LimitHit(e, s) {
      var f, t := e.frames(s.frame), FrameRead(e, s, core, i);
      if CutBy(f).None? {
        assert GoesOn(e, base, i);
        BodyFrames(e, t, base, core, i + 1, n, words + [f.raw], Last(i, f.cc, f.ret));
      }
    }
  }

  /** What is stored of a thread, and the codes of the frames it comes from. */
  lemma ThreadFrames(e: Env, s: State, core: nat, thread: nat)
    requires HeaderStatus(FrameOf(e, s, 0)) == Success && Query(e, s, core, thread).status != NextSocket
    ensures var t := Query(e, s, core, thread).s.trace;
            && t != [] && t[|t| - 1].Store?
            && var end := t[|t| - 1].end;
               && LastFrame(end) >= 0 && end.bytesRead == 8 * LastFrame(end) + 8
               && end.ret == FrameOf(e, s, LastFrame(end)).ret && end.cc == FrameOf(e, s, LastFrame(end)).cc
               && forall j :: 0 <= j < LastFrame(end) ==>
                    (Delivers(FrameOf(e, s, j)) <==> !PassedOver(FrameOf(e, s, j).cc))
  {
    hide ReadFrames, SetBit, Buffer, StoredFor, Remembered, WhoMisc, Multithread, Bit, PrintHex, Env.Size, SkipCore,
         SkipSocket, Unacceptable;
    var f := FrameOf(e, s, 0);
    var t, h := s.(frame := s.frame + 1).Add(HeaderRead(core, thread, f)), Header(f.raw);
    var u := Accepted(t, core, e.clock(t.tick));
    BodyFrames(e, u, s.frame, core, 1, e.Size(h) / 8, [f.raw], Last(0, f.cc, f.ret));
    var r := ReadFrames(e, u, core, 1, e.Size(h) / 8, [f.raw], Last(0, f.cc, f.ret));
    forall j | 0 <= j < r.last.numReads
      ensures Delivers(FrameOf(e, s, j)) <==> !PassedOver(FrameOf(e, s, j).cc)
    {
      assert j > 0 ==> GoesOn(e, s.frame, j);
    }
  }

  /******* What is shown, and what was delivered *******/

  /** Register k has bytes in frame j. */
  predicate Touches(regs: seq<Register>, k: nat, j: nat)
    requires k < |regs|
  {
    8 * j < Offset(regs, k + 1) && Offset(regs, k) < 8 * j + 8 && regs[k].Size() > 0
  }

  /** All frames that hold the register were read and delivered. */
  ghost predicate WasDelivered(e: Env, s: State, regs: seq<Register>, end: Ending, k: nat)
    requires k < |regs|
  {
    Offset(regs, k + 1) <= end.bytesRead && forall j: nat :: Touches(regs, k, j) ==> Delivers(FrameOf(e, s, j))
  }

  /** Every logged register that is shown without error text was delivered. */
  ghost predicate ShowsOnlyDelivered(e: Env, s: State, regs: seq<Register>, size: nat, end: Ending) {
    forall k :: 0 <= k < Stop(regs, size, e.limited, end) && k < |regs| && IsLogged(e.limited, regs[k]) ==>
      WasDelivered(e, s, regs, end, k)
  }

  /** A frame that the decoder takes for read but that was not delivered: the last one, if it
      failed, or an earlier one with a code that is passed over. */
  predicate Misread(e: Env, s: State, end: Ending, j: nat) {
    (j == LastFrame(end) && end.Failed()) || (j < LastFrame(end) && PassedOver(FrameOf(e, s, j).cc))
  }

  /** A logged register that ends within the frames read has bytes in frame j. */
  predicate MayMislead(e: Env, regs: seq<Register>, end: Ending, k: int, j: nat) {
    0 <= k < |regs| && IsLogged(e.limited, regs[k]) && Offset(regs, k + 1) <= end.bytesRead && Touches(regs, k, j)
  }

  /** Exactly: only delivered values are shown without error text if and only if no logged
      register that ends within the frames read touches a misread frame, and - unless the last
      frame failed - all logged registers end within the frames read. */
  lemma ShowsOnlyDeliveredExactly(e: Env, s: State, core: nat, thread: nat, regs: seq<Register>)
    requires HeaderStatus(FrameOf(e, s, 0)) == Success && Query(e, s, core, thread).status != NextSocket
    requires var t := Query(e, s, core, thread).s.trace;
             t != [] && t[|t| - 1].Store? && Offset(regs, |regs|) <= |t[|t| - 1].data|
    ensures var t := Query(e, s, core, thread).s.trace;
            var ev := t[|t| - 1];
            ShowsOnlyDelivered(e, s, regs, |ev.data|, ev.end) <==>
              && (forall k, j: nat :: MayMislead(e, regs, ev.end, k, j) ==> !Misread(e, s, ev.end, j))
              && (!ev.end.Failed() ==> forall k :: 0 <= k < |regs| && IsLogged(e.limited, regs[k]) ==>
                    Offset(regs, k + 1) <= ev.end.bytesRead)
  {
    hide Query, HeaderStatus, Stop, IsLogged, Offset, Unacceptable, SkipCore, SkipSocket, Touches;
    ThreadFrames(e, s, core, thread);
    var t := Query(e, s, core, thread).s.trace;
    var ev := t[|t| - 1];
    forall k | 0 <= k < |regs| && IsLogged(e.limited, regs[k])
      ensures k < Stop(regs, |ev.data|, e.limited, ev.end) <==>
                (ev.end.Failed() ==> Offset(regs, k + 1) <= ev.end.bytesRead)
    {
      if ev.end.Failed() {
        FailureShowsPrefix(regs, |ev.data|, e.limited, ev.end, k);
      } else {
        CompleteDump(regs, |ev.data|, e.limited, ev.end);
      }
    }
    forall k | 0 <= k < |regs| && IsLogged(e.limited, regs[k]) && Offset(regs, k + 1) <= ev.end.bytesRead
      ensures WasDelivered(e, s, regs, ev.end, k) <==>
                forall j: nat :: MayMislead(e, regs, ev.end, k, j) ==> !Misread(e, s, ev.end, j)
    {
      DeliveredExactly(e, s, regs, ev.end, k);
    }
    assert forall k, j: nat :: MayMislead(e, regs, ev.end, k, j) ==>
             0 <= k < |regs| && IsLogged(e.limited, regs[k]) && Offset(regs, k + 1) <= ev.end.bytesRead;
  }

  /** One register that ends within the frames read. */
  lemma DeliveredExactly(e: Env, s: State, regs: seq<Register>, end: Ending, k: nat)
    requires k < |regs| && IsLogged(e.limited, regs[k]) && Offset(regs, k + 1) <= end.bytesRead
    requires LastFrame(end) >= 0 && end.bytesRead == 8 * LastFrame(end) + 8
    requires end.ret == FrameOf(e, s, LastFrame(end)).ret && end.cc == FrameOf(e, s, LastFrame(end)).cc
    requires forall j :: 0 <= j < LastFrame(end) ==>
               (Delivers(FrameOf(e, s, j)) <==> !PassedOver(FrameOf(e, s, j).cc))
    ensures WasDelivered(e, s, regs, end, k) <==>
              forall j: nat :: MayMislead(e, regs, end, k, j) ==> !Misread(e, s, end, j)
  {
    hide IsLogged, Offset, Unacceptable, SkipCore, SkipSocket, Touches;
    forall j: nat | Touches(regs, k, j)
      ensures MayMislead(e, regs, end, k, j) && (Delivers(FrameOf(e, s, j)) <==> !Misread(e, s, end, j))
    {
      TouchesRead(regs, k, j, end);
    }
  }

  lemma TouchesRead(regs: seq<Register>, k: nat, j: nat, end: Ending)
    requires k < |regs| && Touches(regs, k, j) && Offset(regs, k + 1) <= end.bytesRead
    requires end.bytesRead == 8 * LastFrame(end) + 8
    ensures j <= LastFrame(end)
  {
    hide Offset;
  }

  /** It happens: a thread of sixteen bytes whose only body frame fails is stored as if both frames
      had been read, and all registers are shown without error text, also those in that frame. */
  lemma FailedFrameShown(e: Env, s: State, core: nat, regs: seq<Register>, k: nat)
    requires HeaderStatus(FrameOf(e, s, 0)) == Success && e.Size(Header(FrameOf(e, s, 0).raw)) == 16
    requires e.maxCollectionSec == 0 && CutBy(FrameOf(e, s, 1)) == Some(CutToNextCore)
    requires Offset(regs, |regs|) <= 16 && k < |regs| && IsLogged(e.limited, regs[k]) && Touches(regs, k, 1)
    ensures Query(e, s, core, 0).status == NextCore
    ensures var t := Query(e, s, core, 0).s.trace;
            && t != [] && t[|t| - 1].Store?
            && var ev := t[|t| - 1];
               && ev.end == Ending(16, FrameOf(e, s, 1).cc, FrameOf(e, s, 1).ret) && ev.end.Failed()
               && |ev.data| == 16 && Stop(regs, 16, e.limited, ev.end) == |regs|
               && !ShowsOnlyDelivered(e, s, regs, 16, ev.end)
  {
    hide Query, ReadFrames, HeaderStatus, Env.Size, Unacceptable, Stop, IsLogged, Offset, Touches, SkipSocket;
    var g := FrameOf(e, s, 1);
    QueryStores(e, s, core);
    FailedReading(e, Started(e, s, core), core, FrameOf(e, s, 0));
    SweepLimits.SkipCoreFails(g.cc);
    AllEndWithin(regs, e.limited, Ending(16, g.cc, g.ret));
    assert !Delivers(g);
  }

  /** The state after an accepted header. */
  function Started(e: Env, s: State, core: nat): State {
    var t := s.(frame := s.frame + 1).Add(HeaderRead(core, 0, FrameOf(e, s, 0)));
    Accepted(t, core, e.clock(t.tick))
  }

  lemma QueryStores(e: Env, s: State, core: nat)
    requires HeaderStatus(FrameOf(e, s, 0)) == Success
    ensures var f := FrameOf(e, s, 0);
            var size := e.Size(Header(f.raw));
            var r := ReadFrames(e, Started(e, s, core), core, 1, size / 8, [f.raw], Last(0, f.cc, f.ret));
            var q := Query(e, s, core, 0);
            r.cut == CutToNextCore || r.cut == Complete ==>
              && q.status == (if r.cut == Complete then Success else NextCore)
              && q.s.trace != [] && q.s.trace[|q.s.trace| - 1].Store?
              && var ev := q.s.trace[|q.s.trace| - 1];
                 |ev.data| == size && ev.end == Ending(8 * r.last.numReads + 8, r.last.cc, r.last.ret)
  {
    hide ReadFrames, SetBit, Buffer, StoredFor, Remembered, WhoMisc, Multithread, Bit, PrintHex, Env.Size;
  }

  lemma FailedReading(e: Env, u: State, core: nat, f: Frame)
    requires e.maxCollectionSec == 0 && CutBy(e.frames(u.frame)) == Some(CutToNextCore)
    ensures var g := e.frames(u.frame);
            var r := ReadFrames(e, u, core, 1, 2, [f.raw], Last(0, f.cc, f.ret));
            r.cut == CutToNextCore && r.last == Last(1, g.cc, g.ret)
  {
    hide CutBy, FrameRead, Reached;
  }

  /** Two frames that do not end the collection. */
  lemma CompleteReading(e: Env, u: State, core: nat, f: Frame)
    requires e.maxCollectionSec == 0 && CutBy(e.frames(u.frame)).None? && CutBy(e.frames(u.frame + 1)).None?
    ensures var h := e.frames(u.frame + 1);
            var r := ReadFrames(e, u, core, 1, 3, [f.raw], Last(0, f.cc, f.ret));
            r.cut == Complete && r.last == Last(2, h.cc, h.ret)
  {
    hide CutBy, Reached, CollectionLimit;
    var g, v := e.frames(u.frame), FrameRead(e, u, core, 1);
    var h, w := e.frames(v.frame), FrameRead(e, v, core, 2);
    assert ReadFrames(e, w, core, 3, 3, [f.raw, g.raw] + [h.raw], Last(2, h.cc, h.ret)).cut == Complete;
    assert ReadFrames(e, v, core, 2, 3, [f.raw] + [g.raw], Last(1, g.cc, g.ret)).last == Last(2, h.cc, h.ret);
  }

  lemma AllEndWithin(regs: seq<Register>, limited: bool, end: Ending)
    requires Offset(regs, |regs|) <= end.bytesRead
    ensures Stop(regs, end.bytesRead, limited, end) == |regs|
  {
    var m := Stop(regs, end.bytesRead, limited, end);
    if m < |regs| {
      OffsetMonotone(regs, m + 1, |regs|);
    }
  }

  /** A frame in the middle with a code that is passed over: the good frame behind it makes the
      decoder take the whole thread for delivered. */
  lemma PassedOverShown(e: Env, s: State, core: nat, regs: seq<Register>, k: nat)
    requires HeaderStatus(FrameOf(e, s, 0)) == Success && e.Size(Header(FrameOf(e, s, 0).raw)) == 24
    requires e.maxCollectionSec == 0 && FrameOf(e, s, 1).ret == PECI_CC_SUCCESS && PassedOver(FrameOf(e, s, 1).cc)
    requires Delivers(FrameOf(e, s, 2))
    requires Offset(regs, |regs|) <= 24 && k < |regs| && IsLogged(e.limited, regs[k]) && Touches(regs, k, 1)
    ensures Query(e, s, core, 0).status == Success
    ensures var t := Query(e, s, core, 0).s.trace;
            && t != [] && t[|t| - 1].Store?
            && var ev := t[|t| - 1];
               && ev.end == Ending(24, FrameOf(e, s, 2).cc, PECI_CC_SUCCESS) && !ev.end.Failed()
               && |ev.data| == 24 && Stop(regs, 24, e.limited, ev.end) == |regs|
               && !ShowsOnlyDelivered(e, s, regs, 24, ev.end)
  {
    hide Query, ReadFrames, HeaderStatus, Env.Size, Stop, IsLogged, Offset, Touches;
    var h := FrameOf(e, s, 2);
    QueryStores(e, s, core);
    assert CutBy(FrameOf(e, s, 1)).None? && CutBy(h).None?;
    CompleteReading(e, Started(e, s, core), core, FrameOf(e, s, 0));
    AllEndWithin(regs, e.limited, Ending(24, h.cc, h.ret));
    assert !Delivers(FrameOf(e, s, 1));
  }
}
