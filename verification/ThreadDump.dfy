/** What is stored of one thread's crash data: decoded registers followed by queue entries
    (crashdumpJsonICX, crashdumpJsonSPR), or raw qwords (rawdumpJsonICXSPR), in
    engine/BigCore.c. */
module ThreadDump {
  import opened Numerals
  import opened Clock
  import opened CmdInOut
  import opened DataString
  import opened DecodeMap
  import opened Models
  import opened RegisterDump

  const CD_JSON_SQ_ENTRY_SIZE: Byte := 8
  const CD_JSON_NUM_SQ_ENTRIES: nat := 64
  const CD_JSON_NUM_SPR_SQD_ENTRIES: nat := 48
  const CD_JSON_NUM_SPR_SQS_ENTRIES: nat := 48
  const CRASHDUMP_MAX_SIZE: nat := 0x7f8

  /** A queue object appended to the core object. */
  datatype Queue = Queue(key: string, fields: seq<Shown>)

  /** The eight bytes of entry i of a queue that starts at from. */
  function Qword(data: seq<Byte>, from: nat, i: nat): (q: seq<Byte>)
    requires from + 8 * (i + 1) <= |data|
    ensures |q| == 8
  {
    data[from + 8 * i..from + 8 * (i + 1)]
  }

  /** One queue entry; behind the frames read it carries the error. */
  function QueueEntry(data: seq<Byte>, from: nat, i: nat, end: Ending): Shown
    requires from + 8 * (i + 1) <= |data|
  {
    var q := Qword(data, from, i);
    Shown("entry" + Dec(i),
          if end.Failed() && end.bytesRead < from + 8 * (i + 1) then end.ErrorText(q) else TextOf(q))
  }

  function RawEntry(data: seq<Byte>, from: nat, i: nat): Shown
    requires from + 8 * (i + 1) <= |data|
  {
    Shown("raw_" + PrintHex(i), TextOf(Qword(data, from, i)))
  }

  /** A raw dump names its entries by byte offset instead. */
  function RawAt(data: seq<Byte>, i: nat): Shown
    requires 8 * (i + 1) <= |data|
  {
    Shown("raw_" + PrintHex(8 * i), TextOf(Qword(data, 0, i)))
  }

  /** The first n queue entries of the bytes from an index on: consecutive eight-byte slices. */
  function QueueEntries(data: seq<Byte>, from: nat, n: nat, end: Ending): (r: seq<Shown>)
    requires from + 8 * n <= |data|
    ensures |r| == n
  {
    if n == 0 then [] else QueueEntries(data, from, n - 1, end) + [QueueEntry(data, from, n - 1, end)]
  }

  function RawEntries(data: seq<Byte>, from: nat, n: nat): (r: seq<Shown>)
    requires from + 8 * n <= |data|
    ensures |r| == n
  {
    if n == 0 then [] else RawEntries(data, from, n - 1) + [RawEntry(data, from, n - 1)]
  }

  function RawDump(data: seq<Byte>, n: nat): (r: seq<Shown>)
    requires 8 * n <= |data|
    ensures |r| == n
  {
    if n == 0 then [] else RawDump(data, n - 1) + [RawAt(data, n - 1)]
  }

  lemma {:induction false} QueueEntriesAt(data: seq<Byte>, from: nat, n: nat, end: Ending, i: nat)
    requires from + 8 * n <= |data| && i < n
    ensures QueueEntries(data, from, n, end)[i] == QueueEntry(data, from, i, end)
  {
    hide QueueEntry;
    if i < n - 1 {
      QueueEntriesAt(data, from, n - 1, end, i);
    }
  }

  lemma {:induction false} RawEntriesAt(data: seq<Byte>, from: nat, n: nat, i: nat)
    requires from + 8 * n <= |data| && i < n
    ensures RawEntries(data, from, n)[i] == RawEntry(data, from, i)
  {
    hide RawEntry;
    if i < n - 1 {
      RawEntriesAt(data, from, n - 1, i);
    }
  }

  lemma {:induction false} RawDumpAt(data: seq<Byte>, n: nat, i: nat)
    requires 8 * n <= |data| && i < n
    ensures RawDump(data, n)[i] == RawAt(data, i)
  {
    hide RawAt;
    if i < n - 1 {
      RawDumpAt(data, n - 1, i);
    }
  }

  function Min(a: nat, b: nat): nat { if a < b then a else b }

  /******* The loops *******/

  /** logSqData: one entry, if eight bytes are left. */
  method LogSqData(sqDump: JsonObject, data: seq<Byte>, dataIndex: nat, end: Ending, i: nat) returns (next: nat)
    modifies sqDump
    ensures dataIndex + 8 > |data| ==> next == dataIndex && sqDump.fields == old(sqDump.fields)
    ensures dataIndex + 8 <= |data| ==>
              var q := data[dataIndex..dataIndex + 8];
              && next == dataIndex + 8
              && sqDump.fields == old(sqDump.fields) +
                 [Shown("entry" + Dec(i), if end.Failed() && end.bytesRead < next then end.ErrorText(q) else TextOf(q))]
  {
    hide TextOf, CompletionText, Unacceptable, Digits;
    next := dataIndex;
    var ok, text := PrintSlice(data, dataIndex, CD_JSON_SQ_ENTRY_SIZE);
    if !ok {
      return;
    }
    next := dataIndex + CD_JSON_SQ_ENTRY_SIZE;
    var name := "entry" + Dec(i);
    if end.bytesRead < next {
      if end.ret != PECI_CC_SUCCESS {
        sqDump.fields := sqDump.fields + [Shown(name, "0x0" + CompletionText(end.cc, end.ret))];
        return;
      } else if Unacceptable(end.cc) {
        sqDump.fields := sqDump.fields + [Shown(name, text + CompletionText(end.cc, end.ret))];
        return;
      }
    }
    sqDump.fields := sqDump.fields + [Shown(name, text)];
  }

  /** The loop over queue entries. Its bound may exceed what is left (for ICX it is the number
      of bytes): it emits one entry per remaining qword and the index stays in the buffer. */
  method LogQueue(sqDump: JsonObject, data: seq<Byte>, dataIndex: nat, end: Ending, bound: nat) returns (next: nat)
    requires dataIndex <= |data|
    modifies sqDump
    ensures var n := Min(bound, (|data| - dataIndex) / 8);
            && next == dataIndex + 8 * n <= |data|
            && sqDump.fields == old(sqDump.fields) + QueueEntries(data, dataIndex, n, end)
  {
    hide QueueEntry, TextOf, Digits, CompletionText, Unacceptable;
    next := dataIndex;
    ghost var cap := (|data| - dataIndex) / 8;
    for i := 0 to bound
      invariant next == dataIndex + 8 * Min(i, cap) <= |data|
      invariant sqDump.fields == old(sqDump.fields) + QueueEntries(data, dataIndex, Min(i, cap), end)
    {
      ghost var at := next;
      assert at + 8 <= |data| <==> i < cap;
      next := LogSqData(sqDump, data, next, end, i);
      if i < cap {
        assert at == dataIndex + 8 * i;
        EntryIsAt(data, dataIndex, i, at, end);
      }
    }
  }

  lemma EntryIsAt(data: seq<Byte>, from: nat, i: nat, at: nat, end: Ending)
    requires at == from + 8 * i && at + 8 <= |data|
    ensures var q := data[at..at + 8];
            QueueEntry(data, from, i, end) ==
            Shown("entry" + Dec(i), if end.Failed() && end.bytesRead < at + 8 then end.ErrorText(q) else TextOf(q))
  {
    hide TextOf, Digits, CompletionText;
  }

  /** The loop over logSqDataRaw. */
  method LogRaw(sqDump: JsonObject, data: seq<Byte>, dataIndex: nat, bound: nat) returns (next: nat)
    requires dataIndex <= |data|
    modifies sqDump
    ensures var n := Min(bound, (|data| - dataIndex) / 8);
            && next == dataIndex + 8 * n <= |data|
            && sqDump.fields == old(sqDump.fields) + RawEntries(data, dataIndex, n)
  {
    hide TextOf, Digits;
    next := dataIndex;
    ghost var cap := (|data| - dataIndex) / 8;
    for i := 0 to bound
      invariant next == dataIndex + 8 * Min(i, cap) <= |data|
      invariant sqDump.fields == old(sqDump.fields) + RawEntries(data, dataIndex, Min(i, cap))
    {
      var ok, text := PrintSlice(data, next, CD_JSON_SQ_ENTRY_SIZE);
      if ok {
        next := next + CD_JSON_SQ_ENTRY_SIZE;
        sqDump.fields := sqDump.fields + [Shown("raw_" + PrintHex(i), text)];
      }
    }
  }

  /******* Behind the registers *******/

  /** What is left does not have the size of the model's queues. */
  function Unexpected(key: string, data: seq<Byte>, index: nat): Queue
    requires index <= |data|
  {
    var rest := |data| - index;
    Queue(key, [Shown("_error_unexpected_size", PrintHex(rest))] + RawEntries(data, index, rest / 8))
  }

  function QueuesICX(data: seq<Byte>, index: nat, limited: bool, end: Ending): seq<Queue>
    requires index <= |data|
  {
    if index == |data| || limited then []
    else if |data| - index == 8 * CD_JSON_NUM_SQ_ENTRIES
    then [Queue("SQ", QueueEntries(data, index, CD_JSON_NUM_SQ_ENTRIES, end))]
    else [Unexpected("SQ", data, index)]
  }

  function QueuesSPR(data: seq<Byte>, index: nat, limited: bool, end: Ending): seq<Queue>
    requires index <= |data|
  {
    var d, s := CD_JSON_NUM_SPR_SQD_ENTRIES, CD_JSON_NUM_SPR_SQS_ENTRIES;
    if index == |data| || limited then []
    else if |data| - index == 8 * (d + s)
    then [Queue("SQD", QueueEntries(data, index, d, end)),
          Queue("SQS", QueueEntries(data, index + 8 * d, s, end))]
    else [Unexpected("SQD", data, index)]
  }

  method DumpUnexpected(key: string, data: seq<Byte>, index: nat) returns (queue: Queue)
    requires index <= |data|
    ensures queue == Unexpected(key, data, index)
  {
    hide RawEntry, Digits;
    var rest := |data| - index;
    var sqDump := new JsonObject();
    sqDump.fields := sqDump.fields + [Shown("_error_unexpected_size", PrintHex(rest))];
    var _ := LogRaw(sqDump, data, index, rest);
    queue := Queue(key, sqDump.fields);
  }

  /** The part of crashdumpJsonICX behind registerDump. */
  method DumpQueuesICX(data: seq<Byte>, index: nat, limited: bool, end: Ending) returns (queues: seq<Queue>)
    requires index <= |data|
    ensures queues == QueuesICX(data, index, limited, end)
  {
    hide QueueEntry, RawEntry, Unexpected;
    if index >= |data| || limited {
      return [];
    }
    var sqDataSize := |data| - index;
    if CD_JSON_NUM_SQ_ENTRIES * 8 == sqDataSize {
      var sqDump := new JsonObject();
      var _ := LogQueue(sqDump, data, index, end, sqDataSize);
      assert sqDump.fields == QueueEntries(data, index, CD_JSON_NUM_SQ_ENTRIES, end);
      return [Queue("SQ", sqDump.fields)];
    }
    var queue := DumpUnexpected("SQ", data, index);
    return [queue];
  }

  /** The part of crashdumpJsonSPR behind registerDump. */
  method DumpQueuesSPR(data: seq<Byte>, index: nat, limited: bool, end: Ending) returns (queues: seq<Queue>)
    requires index <= |data|
    ensures queues == QueuesSPR(data, index, limited, end)
  {
    hide QueueEntry, RawEntry, Unexpected;
    if index >= |data| || limited {
      return [];
    }
    var sqDataSize := |data| - index;
    if (CD_JSON_NUM_SPR_SQD_ENTRIES + CD_JSON_NUM_SPR_SQS_ENTRIES) * 8 == sqDataSize {
      var sqd := new JsonObject();
      var next := LogQueue(sqd, data, index, end, CD_JSON_NUM_SPR_SQD_ENTRIES);
      var sqs := new JsonObject();
      next := LogQueue(sqs, data, next, end, CD_JSON_NUM_SPR_SQS_ENTRIES);
      assert sqd.fields == QueueEntries(data, index, CD_JSON_NUM_SPR_SQD_ENTRIES, end);
      assert sqs.fields == QueueEntries(data, index + 8 * CD_JSON_NUM_SPR_SQD_ENTRIES,
                                        CD_JSON_NUM_SPR_SQS_ENTRIES, end);
      return [Queue("SQD", sqd.fields), Queue("SQS", sqs.fields)];
    }
    var queue := DumpUnexpected("SQD", data, index);
    return [queue];
  }

  /** rawdumpJsonICXSPR from the start of the buffer: one entry per qword. */
  method RawdumpJson(data: seq<Byte>, thread: JsonObject)
    modifies thread
    ensures thread.fields == old(thread.fields) + RawDump(data, |data| / 8)
  {
    hide TextOf, Digits;
    var index := 0;
    ghost var i := 0;
    while index < |data|
      invariant index == 8 * i <= |data|
      invariant thread.fields == old(thread.fields) + RawDump(data, i)
    {
      var ok, text := PrintSlice(data, index, 8);
      if !ok {
        break;
      }
      thread.fields := thread.fields + [Shown("raw_" + PrintHex(index), text)];
      index := index + 8;
      i := i + 1;
    }
    assert i == |data| / 8;
  }

  /******* Storing a thread *******/

  /** The decision of isStoreDecoded, on the remembered table. */
  predicate StoreDecoded(d: Decode, version: Uint32, regDumpSize: nat) {
    First(d, PrintHex(version)).Some? && Returned(d, PrintHex(version)) == regDumpSize
  }

  /** The registers the version's entry lists. */
  function RegList(d: Decode, version: Uint32): Option<seq<Register>> {
    if First(d, PrintHex(version)).None? then None else d.value[First(d, PrintHex(version)).value].regList
  }

  /** Everything that is stored for a thread: its fields and the queues appended to its core. */
  datatype Stored = Stored(fields: seq<Shown>, queues: seq<Queue>)

  function Decoded(list: Option<seq<Register>>, model: Model, data: seq<Byte>, end: Ending, limited: bool): Stored {
    var index := RegistersEnd(list, |data|, limited, end);
    match FamilyOf(model)
    case IceLake => Stored(Registers(list, data, limited, end), QueuesICX(data, index, limited, end))
    case SapphireRapids => Stored(Registers(list, data, limited, end), QueuesSPR(data, index, limited, end))
  }

  function StoredFor(d: Decode, version: Uint32, regDumpSize: nat, model: Model, data: seq<Byte>,
                     end: Ending, limited: bool): Stored {
    if StoreDecoded(d, version, regDumpSize) then Decoded(RegList(d, version), model, data, end, limited)
    else if limited then Stored([], [])
    else
      var size := Min(|data|, CRASHDUMP_MAX_SIZE);
      Stored(RawDump(data[..size], size / 8), [])
  }

  /** crashdumpJsonICX and crashdumpJsonSPR. */
  method CrashdumpJson(list: Option<seq<Register>>, model: Model, data: seq<Byte>, end: Ending, limited: bool)
    returns (stored: Stored)
    ensures stored == Decoded(list, model, data, end, limited)
  {
    hide Values, QueuesICX, QueuesSPR, Stop, Offset;
    var thread := new JsonObject();
    match FamilyOf(model) {
      case IceLake =>
        var index := DumpRegisters(list, data, end, limited, thread);
        var queues := DumpQueuesICX(data, index, limited, end);
        return Stored(thread.fields, queues);
      case SapphireRapids =>
        var index := DumpRegisters(list, data, end, limited, thread);
        var queues := DumpQueuesSPR(data, index, limited, end);
        return Stored(thread.fields, queues);
    }
  }

  /** The logging step of queryForCrashDataForThread. numReads is the number of the last frame
      read; the header frame counts eight bytes more. */
  method StoreThread(file: InputFile, version: Uint32, regDumpSize: nat, model: Model, data: seq<Byte>,
                     numReads: nat, cc: Byte, ret: int, limited: bool)
    returns (stored: Stored)
    modifies file
    ensures stored == StoredFor(old(file.decode), version, regDumpSize, model, data,
                                Ending(8 * numReads + 8, cc, ret), limited)
    ensures file.decode == Remembered(old(file.decode), PrintHex(version))
  {
    hide PrintHex, Decoded, Returned, RawDump, Remembered;
    var total := file.GetTotalInputRegsSize(version);
    FirstRemembered(old(file.decode), PrintHex(version));
    var matches := file.IsBigCoreRegVersionMatch(version);
    if matches && total == regDumpSize {
      var found := file.GetValidBigCoreMap(PrintHex(version));
      var list := if found.None? then None else file.decode.value[found.value].regList;
      stored := CrashdumpJson(list, model, data, Ending(8 * numReads + 8, cc, ret), limited);
    } else {
      var thread := new JsonObject();
      if !limited {
        var size := Min(|data|, CRASHDUMP_MAX_SIZE);
        RawdumpJson(data[..size], thread);
      }
      stored := Stored(thread.fields, []);
    }
  }

  /** Remembering a size changes neither which entry is found nor its registers. */
  lemma FirstRemembered(d: Decode, version: string)
    ensures First(Remembered(d, version), version) == First(d, version)
    ensures First(d, version).Some? ==>
              Remembered(d, version).value[First(d, version).value].regList == d.value[First(d, version).value].regList
  {
    hide PrintHex, CachedSize, EntrySize;
    SameTableSameSizes(d, Remembered(d, version), version);
  }

  /******* What the whole dump says *******/

  /** With a coherent memory, data is decoded exactly when the version is listed and the plain
      sum of the listed register sizes is the declared size of the register section; unless
      that 32-bit sum wrapped around, the registers then tile the section exactly. */
  lemma DecodedTilesTheSection(d: Decode, version: Uint32, regDumpSize: nat, data: seq<Byte>)
    requires Coherent(d) && regDumpSize <= |data|
    ensures StoreDecoded(d, version, regDumpSize) <==>
              (First(d, PrintHex(version)).Some? && Uncached(d, PrintHex(version)) == regDumpSize)
    ensures StoreDecoded(d, version, regDumpSize) && RegList(d, version).Some? ==>
              (var regs := RegList(d, version).value;
               Offset(regs, |regs|) < TWO_TO_THE_32 ==>
                 (Offset(regs, |regs|) == regDumpSize && Joined(regs, data, |regs|) == data[..regDumpSize]))
  {
    hide PrintHex, CachedSize, Joined, Offset, RegTotal;
    CoherentIffTransparent(d);
    if StoreDecoded(d, version, regDumpSize) && RegList(d, version).Some? {
      RegistersTileTheSection(RegList(d, version).value, data, regDumpSize);
    }
  }

  /** The slices of the first n entries, one behind the other, are the bytes from the index on:
      no byte is shown twice or left out, and fewer than eight remain at the very end. */
  function JoinedQwords(data: seq<Byte>, from: nat, n: nat): seq<Byte>
    requires from + 8 * n <= |data|
  {
    if n == 0 then [] else JoinedQwords(data, from, n - 1) + Qword(data, from, n - 1)
  }

  lemma {:induction false} QwordsTile(data: seq<Byte>, from: nat, n: nat)
    requires from + 8 * n <= |data|
    ensures JoinedQwords(data, from, n) == data[from..from + 8 * n]
  {
    if n > 0 {
      QwordsTile(data, from, n - 1);
    }
  }

  /** A complete decoded dump shows every byte once: register slices, then queue entries. */
  lemma EveryByteOnce(regs: seq<Register>, data: seq<Byte>, from: nat, n: nat)
    requires from == Offset(regs, |regs|) <= |data| && n == (|data| - from) / 8
    ensures from + 8 * n <= |data| < from + 8 * n + 8
    ensures Joined(regs, data, |regs|) + JoinedQwords(data, from, n) == data[..from + 8 * n]
  {
    hide Joined, JoinedQwords, Offset;
    SlicesTile(regs, data, |regs|);
    QwordsTile(data, from, n);
    Glue(data, from, from + 8 * n);
  }

  lemma Glue(data: seq<Byte>, i: nat, j: nat)
    requires i <= j <= |data|
    ensures data[..i] + data[i..j] == data[..j]
  {
  }

  /******* The dump determines the data *******/

  lemma SameTextSameSlice(a: seq<Byte>, b: seq<Byte>)
    requires |a| == |b| <= 126 && TextOf(a) == TextOf(b)
    ensures a == b
  {
    hide SliceText;
    SliceTextInjective(a, b);
  }

  predicate Printable(regs: seq<Register>) {
    forall k :: 0 <= k < |regs| ==> regs[k].Size() <= 126
  }

  lemma {:induction false} ValuesDetermineRegisters(regs: seq<Register>, a: seq<Byte>, b: seq<Byte>, k: nat)
    requires |a| == |b| && k <= |regs| && Offset(regs, k) <= |a| && Printable(regs)
    requires Values(regs, a, false, k) == Values(regs, b, false, k)
    ensures a[..Offset(regs, k)] == b[..Offset(regs, k)]
  {
    hide TextOf;
    if k > 0 {
      var va, vb := Values(regs, a, false, k - 1), Values(regs, b, false, k - 1);
      var la, lb := TextOf(Slice(regs, a, k - 1)), TextOf(Slice(regs, b, k - 1));
      LastEntry(va, Shown(regs[k - 1].name, la), vb, Shown(regs[k - 1].name, lb));
      ValuesDetermineRegisters(regs, a, b, k - 1);
      SameTextSameSlice(Slice(regs, a, k - 1), Slice(regs, b, k - 1));
      assert a[..Offset(regs, k)] == a[..Offset(regs, k - 1)] + Slice(regs, a, k - 1);
      assert b[..Offset(regs, k)] == b[..Offset(regs, k - 1)] + Slice(regs, b, k - 1);
    }
  }

  lemma LastEntry<T>(s: seq<T>, x: T, t: seq<T>, y: T)
    requires s + [x] == t + [y]
    ensures s == t && x == y
  {
    assert |s + [x]| == |s| + 1 && |t + [y]| == |t| + 1;
    assert s == (s + [x])[..|s|] && t == (t + [y])[..|t|];
    assert x == (s + [x])[|s|] && y == (t + [y])[|t|];
  }

  /** The queues fix every qword from the index on. */
  lemma {:induction false} SameQwords(a: seq<Byte>, b: seq<Byte>, from: nat, n: nat)
    requires |a| == |b| && from + 8 * n <= |a| && a[..from] == b[..from]
    requires forall i :: 0 <= i < n ==> TextOf(Qword(a, from, i)) == TextOf(Qword(b, from, i))
    ensures a[..from + 8 * n] == b[..from + 8 * n]
  {
    hide TextOf;
    if n > 0 {
      SameQwords(a, b, from, n - 1);
      SameTextSameSlice(Qword(a, from, n - 1), Qword(b, from, n - 1));
      assert a[..from + 8 * n] == a[..from + 8 * (n - 1)] + Qword(a, from, n - 1);
      assert b[..from + 8 * n] == b[..from + 8 * (n - 1)] + Qword(b, from, n - 1);
    }
  }

  lemma SameQueueEntries(a: seq<Byte>, b: seq<Byte>, from: nat, n: nat, end: Ending)
    requires |a| == |b| && from + 8 * n <= |a| && !end.Failed()
    requires QueueEntries(a, from, n, end) == QueueEntries(b, from, n, end)
    ensures forall i :: 0 <= i < n ==> TextOf(Qword(a, from, i)) == TextOf(Qword(b, from, i))
  {
    hide TextOf, Digits, Qword, QueueEntries;
    forall i | 0 <= i < n ensures TextOf(Qword(a, from, i)) == TextOf(Qword(b, from, i)) {
      QueueEntriesAt(a, from, n, end, i);
      QueueEntriesAt(b, from, n, end, i);
    }
  }

  lemma SameRawEntries(a: seq<Byte>, b: seq<Byte>, key: string, from: nat)
    requires |a| == |b| && from <= |a|
    requires Unexpected(key, a, from) == Unexpected(key, b, from)
    ensures forall i :: 0 <= i < (|a| - from) / 8 ==> TextOf(Qword(a, from, i)) == TextOf(Qword(b, from, i))
  {
    hide TextOf, Digits, Qword, RawEntries;
    var n := (|a| - from) / 8;
    var ra, rb := RawEntries(a, from, n), RawEntries(b, from, n);
    assert Unexpected(key, a, from).fields[1..] == ra;
    assert Unexpected(key, b, from).fields[1..] == rb;
    forall i | 0 <= i < n ensures TextOf(Qword(a, from, i)) == TextOf(Qword(b, from, i)) {
      RawEntriesAt(a, from, n, i);
      RawEntriesAt(b, from, n, i);
    }
  }

  /** A complete unlimited dump loses nothing: two buffers of the same size that are shown
      alike are equal, for either model, up to fewer than eight bytes behind the last entry. */
  lemma DumpDeterminesData(regs: seq<Register>, a: seq<Byte>, b: seq<Byte>, end: Ending, from: nat)
    requires |a| == |b| && Offset(regs, |regs|) <= |a| && Printable(regs) && !end.Failed()
    requires Registers(Some(regs), a, false, end) == Registers(Some(regs), b, false, end)
    requires from == RegistersEnd(Some(regs), |a|, false, end)
    requires || QueuesICX(a, from, false, end) == QueuesICX(b, from, false, end)
             || QueuesSPR(a, from, false, end) == QueuesSPR(b, from, false, end)
    ensures var size := from + (|a| - from) / 8 * 8;
            |a| < size + 8 && a[..size] == b[..size]
  {
    hide TextOf, Digits, Qword, Values, QueueEntries, Unexpected;
    CompleteDump(regs, |a|, false, end);
    assert from == Offset(regs, |regs|);
    var n := (|a| - from) / 8;
    assert Values(regs, a, false, |regs|) + [] == Values(regs, a, false, |regs|);
    assert Values(regs, b, false, |regs|) + [] == Values(regs, b, false, |regs|);
    ValuesDetermineRegisters(regs, a, b, |regs|);
    if QueuesICX(a, from, false, end) == QueuesICX(b, from, false, end) {
      SameICX(a, b, from, end);
    } else {
      SameSPR(a, b, from, end);
    }
    SameQwords(a, b, from, n);
  }

  lemma SameICX(a: seq<Byte>, b: seq<Byte>, from: nat, end: Ending)
    requires |a| == |b| && from <= |a| && !end.Failed()
    requires QueuesICX(a, from, false, end) == QueuesICX(b, from, false, end)
    ensures forall i :: 0 <= i < (|a| - from) / 8 ==> TextOf(Qword(a, from, i)) == TextOf(Qword(b, from, i))
  {
    hide TextOf, Digits, Qword, QueueEntries, Unexpected;
    var qa, qb := QueuesICX(a, from, false, end), QueuesICX(b, from, false, end);
    if from == |a| {
    } else if |a| - from == 8 * CD_JSON_NUM_SQ_ENTRIES {
      assert qa[0].fields == qb[0].fields;
      SameQueueEntries(a, b, from, CD_JSON_NUM_SQ_ENTRIES, end);
    } else {
      assert qa[0] == qb[0];
      SameRawEntries(a, b, "SQ", from);
    }
  }

  lemma SameSPR(a: seq<Byte>, b: seq<Byte>, from: nat, end: Ending)
    requires |a| == |b| && from <= |a| && !end.Failed()
    requires QueuesSPR(a, from, false, end) == QueuesSPR(b, from, false, end)
    ensures forall i :: 0 <= i < (|a| - from) / 8 ==> TextOf(Qword(a, from, i)) == TextOf(Qword(b, from, i))
  {
    hide TextOf, Digits, QueueEntries, Unexpected;
    var d, s := CD_JSON_NUM_SPR_SQD_ENTRIES, CD_JSON_NUM_SPR_SQS_ENTRIES;
    var qa, qb := QueuesSPR(a, from, false, end), QueuesSPR(b, from, false, end);
    if from == |a| {
    } else if |a| - from == 8 * (d + s) {
      assert qa[0].fields == qb[0].fields && qa[1].fields == qb[1].fields;
      SameQueueEntries(a, b, from, d, end);
      SameQueueEntries(a, b, from + 8 * d, s, end);
      forall i | d <= i < d + s ensures TextOf(Qword(a, from, i)) == TextOf(Qword(b, from, i)) {
        assert Qword(a, from, i) == Qword(a, from + 8 * d, i - d);
        assert Qword(b, from, i) == Qword(b, from + 8 * d, i - d);
      }
    } else {
      assert qa[0] == qb[0];
      SameRawEntries(a, b, "SQD", from);
    }
  }

  /** Where the dump stops after a failed frame, if a logged register ends behind the bytes. */
  lemma StopsBefore(regs: seq<Register>, size: nat, limited: bool, end: Ending, k: nat)
    requires Offset(regs, |regs|) <= size && end.Failed()
    requires k < |regs| && IsLogged(limited, regs[k]) && end.bytesRead < Offset(regs, k + 1)
    ensures var m := Stop(regs, size, limited, end);
            && m <= k && Offset(regs, m + 1) <= size
            && Stops(regs[m], size, Offset(regs, m), limited, end)
  {
    hide Unacceptable;
    var m := Stop(regs, size, limited, end);
    FailureShowsPrefix(regs, size, limited, end, k);
    OffsetMonotone(regs, m + 1, |regs|);
    StopStep(regs, size, limited, end, m);
  }

  /** After a failed frame, if a logged register ends behind the bytes covered: the registers
      before it are shown, then one error entry, then nothing - no register and no queue. */
  lemma FailedDump(regs: seq<Register>, data: seq<Byte>, limited: bool, end: Ending, k: nat)
    requires Offset(regs, |regs|) <= |data| && end.Failed()
    requires k < |regs| && IsLogged(limited, regs[k]) && end.bytesRead < Offset(regs, k + 1)
    ensures var m := Stop(regs, |data|, limited, end);
            && m <= k && Offset(regs, m + 1) <= |data|
            && Registers(Some(regs), data, limited, end) ==
               Values(regs, data, limited, m) + [Shown(regs[m].name, end.ErrorText(Slice(regs, data, m)))]
    ensures var index := RegistersEnd(Some(regs), |data|, limited, end);
            QueuesICX(data, index, limited, end) == [] && QueuesSPR(data, index, limited, end) == []
  {
    hide Stop, Stops, Registers, RegistersEnd, RegisterEntry, Values, TextOf, IsLogged, QueueEntries, Unexpected,
         Unacceptable, CompletionText;
    StopsBefore(regs, |data|, limited, end, k);
    var m := Stop(regs, |data|, limited, end);
    StoppedAt(regs, data, limited, end, m);
    ErrorEntry(regs[m], data, Offset(regs, m), limited, end);
  }

  lemma ErrorEntry(reg: Register, data: seq<Byte>, index: nat, limited: bool, end: Ending)
    requires index + reg.Size() <= |data| && Stops(reg, |data|, index, limited, end)
    ensures RegisterEntry(reg, data, index, limited, end) ==
            [Shown(reg.name, end.ErrorText(data[index..index + reg.Size()]))]
  {
    hide TextOf, CompletionText, Unacceptable;
  }
}
