/** Stored crash logs (dbusAddStoredLog, the DeleteAll handler and the start-up rebuild in
    crashdump.cpp): files in one directory and a D-Bus interface for each of them. File system
    and D-Bus calls succeed. */
module LogStore {
  import opened Numerals

  /** "crashdump_<num>-<timestamp>.json". */
  datatype Log = Log(num: nat, timestamp: string)

  /** What scandir finds under the prefix: stored logs by number, then on-demand logs. */
  datatype DirEntry = StoredLog(log: Log) | OnDemandLog(timestamp: string)

  predicate Ascending(logs: seq<Log>) {
    forall i, j :: 0 <= i < j < |logs| ==> logs[i].num <= logs[j].num
  }

  predicate Distinct(logs: seq<Log>) {
    forall i, j :: 0 <= i < j < |logs| ==> logs[i] != logs[j]
  }

  /** The number after the highest present one. */
  function NextNum(logs: seq<Log>): (n: nat)
    ensures forall i :: 0 <= i < |logs| ==> logs[i].num < n
    ensures n == 0 || exists i :: 0 <= i < |logs| && logs[i].num + 1 == n
  {
    if logs == [] then 0
    else
      var n, last := NextNum(logs[..|logs| - 1]), logs[|logs| - 1].num;
      assert n == 0 || exists i :: 0 <= i < |logs| - 1 && logs[..|logs| - 1][i] == logs[i] && logs[i].num + 1 == n;
      if last >= n then last + 1 else n
  }

  /** The logs removed when another is about to be added: all between the first and the
      newest k - 2, once there are k. */
  function Removed(logs: seq<Log>, k: nat): seq<Log>
    requires k >= 2
  {
    if |logs| < k then [] else logs[1..|logs| - (k - 2)]
  }

  /** The logs that stay. */
  function Kept(logs: seq<Log>, k: nat): seq<Log>
    requires k >= 2
  {
    if |logs| < k then logs else [logs[0]] + logs[|logs| - (k - 2)..]
  }

  function Added(logs: seq<Log>, k: nat, timestamp: string): seq<Log>
    requires k >= 2
  {
    Kept(logs, k) + [Log(NextNum(logs), timestamp)]
  }

  /** Interfaces and files show the same logs, each once. */
  ghost predicate InStep(ifaces: seq<Log>, files: seq<Log>) {
    Distinct(files) && Distinct(ifaces) && |ifaces| == |files| && (forall x :: x in ifaces <==> x in files)
  }

  /******* The service *******/

  class Service {
    const numStoredLogs: nat
    var files: seq<Log>              // the stored logs in the directory, by number
    var onDemand: seq<string>        // the on-demand logs in the directory
    var storedLogIfaces: seq<Log>    // what each interface is registered for
    var logIface: bool               // the on-demand interface

    ghost predicate Valid()
      reads this
    {
      numStoredLogs >= 2 && Ascending(files) && InStep(storedLogIfaces, files)
    }

    constructor (k: nat, files: seq<Log>, onDemand: seq<string>, order: seq<Log>)
      requires k >= 2 && Ascending(files) && InStep(order, files)
      ensures numStoredLogs == k && this.files == files && Valid() && this.onDemand == [] && !logIface
    {
      numStoredLogs, this.files, this.onDemand, storedLogIfaces, logIface := k, files, onDemand, [], false;
      new;
      Rebuild(order);
    }

    /** scandir with versionsort: stored logs in numeric order, before the on-demand ones. */
    function Listing(): seq<DirEntry>
      reads this
    {
      seq(|files| + |onDemand|, i requires 0 <= i < |files| + |onDemand| reads this =>
        if i < |files| then StoredLog(files[i]) else OnDemandLog(onDemand[i - |files|]))
    }

    /** dbusRemoveOnDemandLog. */
    method RemoveOnDemandLog()
      modifies this`onDemand, this`logIface
      ensures onDemand == [] && !logIface
    {
      logIface := false;
      while onDemand != []
        invariant !logIface
        decreases |onDemand|
      {
        onDemand := onDemand[1..];
      }
    }

    /** std::filesystem::remove of a stored log. */
    method RemoveFile(log: Log)
      modifies this`files
      ensures files == Without(old(files), log)
    {
      files := Without(files, log);
    }

    /** find_if by file name, then erase. */
    method EraseIface(log: Log)
      modifies this`storedLogIfaces
      ensures storedLogIfaces == Without(old(storedLogIfaces), log)
    {
      ghost var s := storedLogIfaces;
      var i := 0;
      while i < |storedLogIfaces| && storedLogIfaces[i] != log
        invariant i <= |s| && storedLogIfaces == s
        invariant Without(s, log) == s[..i] + Without(s[i..], log)
      {
        WithoutStep(s, log, i);
        i := i + 1;
      }
      if i < |storedLogIfaces| {
        assert Without(s[i..], log) == s[i..][1..] == s[i + 1..];
        storedLogIfaces := storedLogIfaces[..i] + storedLogIfaces[i + 1..];
      } else {
        assert s[i..] == [] && s[..i] + [] == s;
      }
    }

    /** The scan of dbusAddStoredLog: the stored logs and the number for the next one. */
    method ScanLogs() returns (logs: seq<Log>, crashdumpNum: nat)
      ensures logs == files && crashdumpNum == NextNum(files)
    {
      hide NextNum;
      NextOfNone();
      var namelist := Listing();
      crashdumpNum, logs := 0, [];
      for i := 0 to |namelist|
        invariant logs == (if i <= |files| then files[..i] else files)
        invariant crashdumpNum == NextNum(logs)
      {
        match namelist[i] {
          case OnDemandLog(_) =>
          case StoredLog(log) =>
            NextOfOneMore(logs, log);
            logs := logs + [log];
            if log.num >= crashdumpNum {
              crashdumpNum := log.num + 1;
            }
        }
      }
    }

    /** dbusAddStoredLog. */
    method AddStoredLog(timestamp: string) returns (added: Log)
      requires Valid()
      modifies this`files, this`storedLogIfaces
      ensures Valid()
      ensures added == Log(NextNum(old(files)), timestamp)
      ensures files == Added(old(files), numStoredLogs, timestamp)
    {
      hide NextNum;
      ghost var before := files;
      var storedLogsToRemove, crashdumpNum := ScanLogs();
      if |storedLogsToRemove| >= numStoredLogs {
        storedLogsToRemove := storedLogsToRemove[1..];
        storedLogsToRemove := storedLogsToRemove[..|storedLogsToRemove| - (numStoredLogs - 2)];
      } else {
        storedLogsToRemove := [];
      }
      assert storedLogsToRemove == Removed(before, numStoredLogs);
      RemoveLogs(storedLogsToRemove);
      RemovedKept(before, numStoredLogs);
      added := Log(crashdumpNum, timestamp);
      AddedKeeps(files, storedLogIfaces, before, numStoredLogs, added);
      files := files + [added];
      storedLogIfaces := storedLogIfaces + [added];
    }

    /** The removal loop: each file with its interface. */
    method RemoveLogs(logs: seq<Log>)
      requires InStep(storedLogIfaces, files)
      modifies this`files, this`storedLogIfaces
      ensures files == WithoutAll(old(files), logs)
      ensures InStep(storedLogIfaces, files)
    {
      for i := 0 to |logs|
        invariant files == WithoutAll(old(files), logs[..i])
        invariant InStep(storedLogIfaces, files)
      {
        WithoutInStep(storedLogIfaces, files, logs[i]);
        RemoveFile(logs[i]);
        EraseIface(logs[i]);
        assert logs[..i + 1][..i] == logs[..i];
      }
      assert logs[..|logs|] == logs;
    }

    /** The DeleteAll handler. */
    method DeleteAll()
      requires Valid()
      modifies this
      ensures Valid() && files == [] && storedLogIfaces == [] && onDemand == [] && !logIface
    {
      ghost var before := files;
      for i := 0 to |storedLogIfaces|
        invariant storedLogIfaces == old(storedLogIfaces)
        invariant files == WithoutAll(before, storedLogIfaces[..i])
      {
        RemoveFile(storedLogIfaces[i]);
        assert storedLogIfaces[..i + 1][..i] == storedLogIfaces[..i];
      }
      assert storedLogIfaces[..|storedLogIfaces|] == storedLogIfaces;
      NothingLeft(before, storedLogIfaces);
      storedLogIfaces := [];
      RemoveOnDemandLog();
    }

    /** Start-up: the directory is walked in whatever order the file system gives. */
    method Rebuild(order: seq<Log>)
      requires numStoredLogs >= 2 && Ascending(files) && InStep(order, files)
      modifies this`storedLogIfaces, this`onDemand, this`logIface
      ensures Valid() && storedLogIfaces == order && onDemand == [] && !logIface
    {
      storedLogIfaces := [];
      for i := 0 to |order|
        invariant storedLogIfaces == order[..i]
      {
        storedLogIfaces := storedLogIfaces + [order[i]];
      }
      RemoveOnDemandLog();
    }

    /** dbusAddLog for an on-demand log. */
    method AddOnDemandLog(timestamp: string)
      requires Valid()
      modifies this`onDemand, this`logIface
      ensures Valid() && onDemand == old(onDemand) + [timestamp] && logIface
    {
      onDemand := onDemand + [timestamp];
      logIface := true;
    }
  }

  /******* Removing *******/

  /** s without its first x. */
  function Without(s: seq<Log>, x: Log): seq<Log> {
    if s == [] then [] else if s[0] == x then s[1..] else [s[0]] + Without(s[1..], x)
  }

  function WithoutAll(s: seq<Log>, xs: seq<Log>): seq<Log> {
    if xs == [] then s else Without(WithoutAll(s, xs[..|xs| - 1]), xs[|xs| - 1])
  }

  lemma WithoutStep(s: seq<Log>, x: Log, i: nat)
    requires i < |s| && s[i] != x
    ensures s[..i] + Without(s[i..], x) == s[..i + 1] + Without(s[i + 1..], x)
  {
    assert s[i..][1..] == s[i + 1..];
  }

  lemma {:induction false} WithoutSubset(s: seq<Log>, x: Log, y: Log)
    requires y in Without(s, x)
    ensures y in s
  {
    if s != [] && s[0] != x && y != s[0] {
      WithoutSubset(s[1..], x, y);
    }
  }

  lemma {:induction false} WithoutMember(s: seq<Log>, x: Log, y: Log)
    requires Distinct(s)
    ensures Distinct(Without(s, x))
    ensures y in Without(s, x) <==> y in s && y != x
    ensures |Without(s, x)| == |s| - if x in s then 1 else 0
  {
    if s != [] && s[0] != x {
      var rest := Without(s[1..], x);
      WithoutMember(s[1..], x, y);
      forall j | 0 <= j < |rest| ensures rest[j] != s[0] {
        WithoutSubset(s[1..], x, rest[j]);
      }
    }
  }

  lemma WithoutInStep(ifaces: seq<Log>, files: seq<Log>, x: Log)
    requires InStep(ifaces, files)
    ensures InStep(Without(ifaces, x), Without(files, x))
  {
    forall y: Log
      ensures y in Without(ifaces, x) <==> y in Without(files, x)
    {
      WithoutMember(ifaces, x, y);
      WithoutMember(files, x, y);
    }
    WithoutMember(ifaces, x, x);
    WithoutMember(files, x, x);
  }

  lemma {:induction false} WithoutAllMember(s: seq<Log>, xs: seq<Log>, y: Log)
    requires Distinct(s)
    ensures Distinct(WithoutAll(s, xs))
    ensures y in WithoutAll(s, xs) <==> y in s && y !in xs
  {
    if xs != [] {
      var init, x := xs[..|xs| - 1], xs[|xs| - 1];
      WithoutAllMember(s, init, y);
      WithoutMember(WithoutAll(s, init), x, y);
      assert xs == init + [x];
    }
  }

  lemma NothingLeft(files: seq<Log>, ifaces: seq<Log>)
    requires InStep(ifaces, files)
    ensures WithoutAll(files, ifaces) == []
  {
    var rest := WithoutAll(files, ifaces);
    if rest != [] {
      WithoutAllMember(files, ifaces, rest[0]);
    }
  }

  /** Removing a middle piece of distinct logs leaves the two ends. */
  lemma {:induction false} WithoutMiddle(a: seq<Log>, b: seq<Log>, c: seq<Log>)
    requires Distinct(a + b + c)
    ensures WithoutAll(a + b + c, b) == a + c
  {
    if b == [] {
      assert a + b + c == a + c;
    } else {
      var init, x := b[..|b| - 1], b[|b| - 1];
      assert a + b + c == a + init + ([x] + c);
      WithoutMiddle(a, init, [x] + c);
      assert forall i :: 0 <= i < |a| ==> a[i] != x by {
        assert forall i :: 0 <= i < |a| ==> a[i] == (a + b + c)[i];
        assert x == (a + b + c)[|a| + |b| - 1];
      }
      WithoutAfter(a, x, c);
      assert a + ([x] + c) == a + [x] + c;
    }
  }

  lemma {:induction false} WithoutAfter(a: seq<Log>, x: Log, c: seq<Log>)
    requires forall i :: 0 <= i < |a| ==> a[i] != x
    ensures Without(a + [x] + c, x) == a + c
  {
    var s := a + [x] + c;
    if a == [] {
      assert s[1..] == c;
    } else {
      assert s[1..] == a[1..] + [x] + c;
      WithoutAfter(a[1..], x, c);
    }
  }

  lemma RemovedKept(logs: seq<Log>, k: nat)
    requires k >= 2 && Distinct(logs)
    ensures WithoutAll(logs, Removed(logs, k)) == Kept(logs, k)
  {
    if |logs| >= k {
      var m := |logs| - (k - 2);
      assert logs == [logs[0]] + logs[1..m] + logs[m..];
      WithoutMiddle([logs[0]], logs[1..m], logs[m..]);
    }
  }

  lemma NextOfNone()
    ensures NextNum([]) == 0
  {
  }

  lemma NextOfOneMore(logs: seq<Log>, log: Log)
    ensures NextNum(logs + [log]) == if log.num >= NextNum(logs) then log.num + 1 else NextNum(logs)
  {
    assert (logs + [log])[..|logs|] == logs;
  }

  lemma KeptFrom(logs: seq<Log>, k: nat, i: nat)
    requires k >= 2 && i < |Kept(logs, k)|
    ensures Kept(logs, k)[i] in logs
    ensures Ascending(logs) ==> Ascending(Kept(logs, k))
  {
  }

  lemma AddedKeeps(files: seq<Log>, ifaces: seq<Log>, before: seq<Log>, k: nat, added: Log)
    requires k >= 2 && Ascending(before) && files == Kept(before, k)
    requires InStep(ifaces, files) && added.num == NextNum(before)
    ensures Ascending(files + [added]) && InStep(ifaces + [added], files + [added])
  {
    hide Kept;
    assert forall j :: 0 <= j < |before| ==> before[j].num < added.num;
    hide NextNum;
    forall i | 0 <= i < |files| ensures files[i].num < added.num {
      KeptFrom(before, k, i);
    }
    if files != [] {
      KeptFrom(before, k, 0);
    }
    assert added !in files && added !in ifaces;
    InStepAppend(ifaces, files, added);
  }

  lemma InStepAppend(ifaces: seq<Log>, files: seq<Log>, x: Log)
    requires InStep(ifaces, files) && x !in files && x !in ifaces
    ensures InStep(ifaces + [x], files + [x])
  {
    forall y: Log ensures y in ifaces + [x] <==> y in files + [x] {
    }
  }

  /******* Histories *******/

  datatype Op = Add(timestamp: string) | Clear | Restart | OnDemand(timestamp: string)

  /** The stored logs after a sequence of calls, starting from some directory. */
  function Files(start: seq<Log>, ops: seq<Op>, k: nat): seq<Log>
    requires k >= 2
  {
    if ops == [] then start
    else
      var before := Files(start, ops[..|ops| - 1], k);
      match ops[|ops| - 1]
      case Add(timestamp) => Added(before, k, timestamp)
      case Clear => []
      case Restart => before
      case OnDemand(_) => before
  }

  /** Every log present at the start or written since, back to the last clear, none removed. */
  function History(start: seq<Log>, ops: seq<Op>): seq<Log> {
    if ops == [] then start
    else
      var before := History(start, ops[..|ops| - 1]);
      match ops[|ops| - 1]
      case Add(timestamp) => before + [Log(NextNum(before), timestamp)]
      case Clear => []
      case Restart => before
      case OnDemand(_) => before
  }

  /** The policy: the first log and the newest ones, at most k in all. */
  function FirstAndNewest(h: seq<Log>, k: nat): seq<Log>
    requires k >= 2
  {
    if |h| <= k then h else [h[0]] + h[|h| - (k - 1)..]
  }

  /** All logs, if they are at most k; else the first one and the k - 1 newest, in order. */
  predicate IsFirstAndNewest(files: seq<Log>, h: seq<Log>, k: nat) {
    if |h| <= k then files == h
    else |files| == k >= 1 && files[0] == h[0] && forall j :: 1 <= j < k ==> files[j] == h[|h| - k + j]
  }

  /** The newest log alone decides the next number. */
  lemma {:induction false} NextOfAscending(h: seq<Log>)
    requires Ascending(h)
    ensures NextNum(h) == if h == [] then 0 else h[|h| - 1].num + 1
  {
    if h != [] {
      NextOfAscending(h[..|h| - 1]);
    }
  }

  lemma NextOfKept(h: seq<Log>, k: nat)
    requires k >= 2 && Ascending(h)
    ensures NextNum(FirstAndNewest(h, k)) == NextNum(h)
  {
    hide NextNum;
    NextOfAscending(h);
    NextOfAscending(FirstAndNewest(h, k));
  }

  lemma PolicyLength(h: seq<Log>, k: nat)
    requires k >= 2
    ensures |FirstAndNewest(h, k)| == if |h| < k then |h| else k
    ensures |h| <= k ==> FirstAndNewest(h, k) == h
    ensures Ascending([])
  {
  }

  lemma PolicyIs(h: seq<Log>, k: nat)
    requires k >= 2
    ensures IsFirstAndNewest(FirstAndNewest(h, k), h, k)
  {
  }

  lemma AscendingAppend(h: seq<Log>, x: Log)
    requires Ascending(h) && x.num == NextNum(h)
    ensures Ascending(h + [x])
  {
  }

  lemma PolicyStep(h: seq<Log>, k: nat, added: Log)
    requires k >= 2
    ensures Kept(FirstAndNewest(h, k), k) + [added] == FirstAndNewest(h + [added], k)
  {
    var kept := FirstAndNewest(h, k);
    if |h| > k {
      assert |kept| == k && kept[0] == h[0];
      assert kept[|kept| - (k - 2)..] == h[|h| - (k - 2)..];
    }
    if |h| >= k {
      assert (h + [added])[|h| + 1 - (k - 1)..] == h[|h| - (k - 2)..] + [added];
      assert Kept(kept, k) == [h[0]] + h[|h| - (k - 2)..];
    }
  }

  /** Something has been added or cleared. */
  predicate Touched(ops: seq<Op>) {
    exists i :: 0 <= i < |ops| && (ops[i].Add? || ops[i].Clear?)
  }

  /** What the policy allows: all logs as they were found, or the first and the newest. */
  function Allowed(start: seq<Log>, ops: seq<Op>, k: nat): seq<Log>
    requires k >= 2
  {
    if Touched(ops) || |start| <= k then FirstAndNewest(History(start, ops), k) else History(start, ops)
  }

  lemma NothingTouched()
    ensures !Touched([])
  {
  }

  lemma TouchedSnoc(ops: seq<Op>)
    requires ops != []
    ensures var op := ops[|ops| - 1];
            Touched(ops) <==> Touched(ops[..|ops| - 1]) || op.Add? || op.Clear?
  {
    var init := ops[..|ops| - 1];
    if i :| 0 <= i < |init| && (init[i].Add? || init[i].Clear?) {
      assert ops[i] == init[i];
    }
  }

  /** How many logs of the history were found at the start: all, until the first clear. */
  function FoundAtStart(start: seq<Log>, ops: seq<Op>): nat {
    if exists i :: 0 <= i < |ops| && ops[i].Clear? then 0 else |start|
  }

  /** Every log added since has a number above those of all logs before it. */
  predicate AddedRise(start: seq<Log>, ops: seq<Op>) {
    var h := History(start, ops);
    forall i, j :: 0 <= i < j < |h| && FoundAtStart(start, ops) <= j ==> h[i].num < h[j].num
  }

  lemma {:induction false} NumbersRise(start: seq<Log>, ops: seq<Op>)
    ensures AddedRise(start, ops)
    ensures FoundAtStart(start, ops) <= |History(start, ops)|
  {
    if ops != [] {
      var init, op := ops[..|ops| - 1], ops[|ops| - 1];
      NumbersRise(start, init);
      var h := History(start, init);
      FoundSnoc(start, ops);
      assert forall i :: 0 <= i < |h| ==> h[i].num < NextNum(h);
    }
  }

  lemma FoundSnoc(start: seq<Log>, ops: seq<Op>)
    requires ops != []
    ensures var op := ops[|ops| - 1];
            FoundAtStart(start, ops) == if op.Clear? then 0 else FoundAtStart(start, ops[..|ops| - 1])
  {
    var init := ops[..|ops| - 1];
    if i :| 0 <= i < |init| && init[i].Clear? {
      assert ops[i] == init[i];
    }
  }

  /** Over every sequence of adds, clears, restarts and on-demand logs, from any directory: once
      something was added or cleared (or at once, from at most k logs) the directory holds exactly
      the first log since the last clear and the newest ones, at most k in all, although each
      number is derived from what is left of the others; until then it stays as it was found.
      Between clears the number of each added log is above those of all logs before it. */
  lemma {:induction false} RotationKeepsFirstAndNewest(start: seq<Log>, ops: seq<Op>, k: nat)
    requires k >= 2 && Ascending(start)
    ensures Files(start, ops, k) == Allowed(start, ops, k)
    ensures Touched(ops) || |start| <= k ==>
              |Files(start, ops, k)| == if |History(start, ops)| < k then |History(start, ops)| else k
    ensures Touched(ops) || |start| <= k ==> IsFirstAndNewest(Files(start, ops, k), History(start, ops), k)
    ensures Ascending(History(start, ops))
    ensures AddedRise(start, ops)
    ensures start == [] ==> forall i :: 0 <= i < |History(start, ops)| ==> History(start, ops)[i].num == i
  {
    hide NextNum, Kept, FirstAndNewest, Ascending, Touched, AddedRise, IsFirstAndNewest;
    PolicyIs(History(start, ops), k);
    NumbersRise(start, ops);
    PolicyLength(History(start, ops), k);
    if ops == [] {
      PolicyLength(start, k);
      assert !Touched([]) by { NothingTouched(); }
    } else {
      var before, op := ops[..|ops| - 1], ops[|ops| - 1];
      RotationKeepsFirstAndNewest(start, before, k);
      TouchedSnoc(ops);
      var h := History(start, before);
      PolicyLength([], k);
      if op.Add? {
        AscendingAppend(h, Log(NextNum(h), op.timestamp));
        NextOfAscending(h);
        NextOfKept(h, k);
        PolicyStep(h, k, Log(NextNum(h), op.timestamp));
        AddFromAnywhere(h, k, op.timestamp);
      }
    }
  }

  /** An add from any directory, also one with more than k logs: the new number exceeds every
      present one, the first log stays, and min(n + 1, k) logs remain. */
  lemma AddFromAnywhere(logs: seq<Log>, k: nat, timestamp: string)
    requires k >= 2
    ensures var r := Added(logs, k, timestamp);
            && |r| == (if |logs| + 1 <= k then |logs| + 1 else k)
            && (logs != [] ==> r[0] == logs[0])
            && (forall x :: x in logs ==> x.num < r[|r| - 1].num)
            && r == FirstAndNewest(logs + [r[|r| - 1]], k)
  {
    var added := Log(NextNum(logs), timestamp);
    if |logs| >= k {
      assert (logs + [added])[|logs| + 1 - (k - 1)..] == logs[|logs| - (k - 2)..] + [added];
    }
  }

  /** The service follows the history, whatever is interleaved. */
  method Serve(service: Service, ops: seq<Op>, orders: nat -> seq<Log>)
    requires service.Valid()
    modifies service
    ensures service.Valid()
    ensures service.files == Allowed(old(service.files), ops, service.numStoredLogs)
  {
    for i := 0 to |ops|
      invariant service.Valid() && service.files == Files(old(service.files), ops[..i], service.numStoredLogs)
    {
      assert ops[..i + 1][..i] == ops[..i];
      match ops[i] {
        case Add(timestamp) => var _ := service.AddStoredLog(timestamp);
        case Clear => service.DeleteAll();
        case Restart =>
          OrderInStep(orders(i), service.files);
          service.Rebuild(Order(orders(i), service.files));
        case OnDemand(timestamp) => service.AddOnDemandLog(timestamp);
      }
    }
    assert ops[..|ops|] == ops;
    RotationKeepsFirstAndNewest(old(service.files), ops, service.numStoredLogs);
  }

  /** A directory order: a proposal if it fits, else by number. */
  function Order(proposal: seq<Log>, files: seq<Log>): seq<Log> {
    if Distinct(proposal) && |proposal| == |files| && (forall i :: 0 <= i < |proposal| ==> proposal[i] in files)
       && (forall i :: 0 <= i < |files| ==> files[i] in proposal)
    then proposal else files
  }

  lemma OrderInStep(proposal: seq<Log>, files: seq<Log>)
    requires Distinct(files)
    ensures InStep(Order(proposal, files), files)
  {
  }
}
