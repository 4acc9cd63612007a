/** Deadlines (engine/utils.c): elapsed time against a limit in whole seconds, computed in
    64-bit nanoseconds with one floating-point division on the way. */
module Clock {
  import opened Numerals

  const NS_PER_SEC: nat := 1_000_000_000

  datatype Timespec = Timespec(sec: nat, nsec: nat) {
    /** The nanosecond count fits 64 bits (584 years of uptime). */
    predicate Valid() { nsec < NS_PER_SEC && sec * NS_PER_SEC + nsec < TWO_TO_THE_64 }

    function Nanos(): nat { sec * NS_PER_SEC + nsec }
  }

  /** tsToNanosecond, in 64-bit arithmetic. */
  function TsToNanosecond(ts: Timespec): nat {
    (ts.sec * NS_PER_SEC % TWO_TO_THE_64 + ts.nsec) % TWO_TO_THE_64
  }

  lemma NoWrap(ts: Timespec)
    requires ts.Valid()
    ensures TsToNanosecond(ts) == ts.Nanos()
  {
  }

  /** The limit has been reached. */
  predicate Reached(maxTime: Uint32, start: Timespec, now: Timespec) {
    now.Nanos() - start.Nanos() >= maxTime * NS_PER_SEC
  }

  /** What ns / 1e9, evaluated in double precision and truncated, can be. Whole multiples of
      1e9 up to 2^32 seconds are exact doubles and rounding is monotone, so the quotient is
      never too small and at most one too large; below 2^53 ns (104 days) it is exact. */
  predicate RoundedSeconds(ns: nat, q: nat) {
    ns / NS_PER_SEC <= q <= ns / NS_PER_SEC + 1 && (ns < TWO_TO_THE_53 ==> q == ns / NS_PER_SEC)
  }

  /** d is the double nearest to ns / 1e9: below 2^24 doubles are 2^-29 apart, and whole numbers
      are among them. */
  predicate NearestQuotient(ns: nat, d: real) {
    var error := d - ns as real / 1_000_000_000.0;
    && -1.0 <= error * 1_073_741_824.0 <= 1.0
    && (ns % NS_PER_SEC == 0 ==> d == (ns / NS_PER_SEC) as real)
  }

  /** Truncating that double gives the whole seconds, since a nanosecond is more than half the
      distance between two doubles. */
  lemma QuotientTruncates(ns: nat, d: real)
    requires ns < TWO_TO_THE_53 && NearestQuotient(ns, d)
    ensures RoundedSeconds(ns, d.Floor)
  {
    var q, r := ns / NS_PER_SEC, ns % NS_PER_SEC;
    assert ns as real == q as real * 1_000_000_000.0 + r as real;
  }

  /** What is left of a limit at a clock reading, in nanoseconds. */
  function Left(maxTime: Uint32, start: Timespec, current: Timespec): nat {
    var left := maxTime * NS_PER_SEC - (current.Nanos() - start.Nanos());
    if left > 0 then left else 0
  }

  /** calculateTimeRemainingFromStart. The remainder is zero exactly when the limit has been
      reached, although the seconds field may be rounded up. */
  method CalculateTimeRemainingFromStart(maxTime: Uint32, start: Timespec, current: Timespec)
    returns (remaining: Timespec)
    requires start.Valid() && current.Valid() && start.Nanos() <= current.Nanos()
    ensures remaining.nsec < NS_PER_SEC && remaining.sec <= TWO_TO_THE_32
    ensures Reached(maxTime, start, current) <==> remaining == Timespec(0, 0)
    ensures RoundedSeconds(Left(maxTime, start, current), remaining.sec)
    ensures remaining.nsec == Left(maxTime, start, current) % NS_PER_SEC
  {
    NoWrap(current);
    NoWrap(start);
    hide TsToNanosecond;
    var runTimeInNs := (TsToNanosecond(current) + TWO_TO_THE_64 - TsToNanosecond(start)) % TWO_TO_THE_64;
    assert runTimeInNs == current.Nanos() - start.Nanos();
    var maxTimeInNs := maxTime * NS_PER_SEC % TWO_TO_THE_64;
    assert maxTimeInNs == maxTime * NS_PER_SEC;
    remaining := Timespec(0, 0);
    if runTimeInNs < maxTimeInNs {
      var left := maxTimeInNs - runTimeInNs;
      var up: nat :| up <= 1 && (left < TWO_TO_THE_53 ==> up == 0);
      var seconds := left / NS_PER_SEC + up;
      assert RoundedSeconds(left, seconds);
      remaining := Timespec(seconds, left % NS_PER_SEC);
    }
  }

  /** What getTimeRemainingFromStart, cut to whole seconds, can be: never less than what is left,
      exact below 2^53 ns, and otherwise up to two seconds more. */
  predicate RemainingSeconds(maxTime: Uint32, start: Timespec, current: Timespec, seconds: nat) {
    var left := Left(maxTime, start, current);
    left / NS_PER_SEC <= seconds <= left / NS_PER_SEC + 2 && (left < TWO_TO_THE_53 ==> seconds == left / NS_PER_SEC)
  }

  method GetTimeRemainingFromStart(maxTime: Uint32, start: Timespec, current: Timespec) returns (seconds: nat)
    requires start.Valid() && current.Valid() && start.Nanos() <= current.Nanos()
    ensures RemainingSeconds(maxTime, start, current, seconds)
  {
    var timeRemaining := CalculateTimeRemainingFromStart(maxTime, start, current);
    var time := TsToNanosecond(timeRemaining);
    assert time == timeRemaining.Nanos();
    var up: nat :| up <= 1 && (time < TWO_TO_THE_53 ==> up == 0);
    seconds := time / NS_PER_SEC + up;
    assert RoundedSeconds(time, seconds);
  }

  datatype ExecutionStatus = AllRegisters | TillAbort | Aborted

  /** checkMaxTimeElapsed: ABORTED exactly when the elapsed nanoseconds have reached the limit;
      no intermediate value wraps, for any 32-bit limit. */
  method CheckMaxTimeElapsed(maxTime: Uint32, start: Timespec, current: Timespec)
    returns (status: ExecutionStatus)
    requires start.Valid() && current.Valid() && start.Nanos() <= current.Nanos()
    ensures status == if Reached(maxTime, start, current) then Aborted else TillAbort
  {
    var timeRemaining := CalculateTimeRemainingFromStart(maxTime, start, current);
    if TsToNanosecond(timeRemaining) == 0 {
      return Aborted;
    }
    return TillAbort;
  }
}
