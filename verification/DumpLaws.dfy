/** What is stored of a thread, entry by entry: the names and values of registers and queue
    entries, and the sizes that decide between them and raw data. */
module DumpLaws {
  import opened Numerals
  import opened CmdInOut
  import opened DataString
  import opened DecodeMap
  import opened Models
  import opened RegisterDump
  import opened ThreadDump

  /** A value: its number, or a message if it does not fit the 256 characters of a text. */
  predicate ShowsSlice(text: string, slice: seq<Byte>) {
    if 2 * |slice| + 3 > 256 then text == "String buffer too small" else ShowsBytes(text, slice)
  }

  /** What is shown behind a failed frame: the codes of a failed call, or the value with the code
      that makes it unacceptable. */
  predicate ShowsFailure(text: string, slice: seq<Byte>, end: Ending) {
    if end.ret != PECI_CC_SUCCESS then "0x0" <= text && IsCodes(text[3..], end.cc, end.ret)
    else
      var value := TextOf(slice);
      value <= text && ShowsSlice(value, slice) && IsCodes(text[|value|..], end.cc, end.ret)
  }

  lemma TextShows(slice: seq<Byte>)
    ensures ShowsSlice(TextOf(slice), slice)
  {
    hide SliceText, ShowsBytes;
    SliceTextShows(slice);
  }

  lemma FailureShows(slice: seq<Byte>, end: Ending)
    ensures ShowsFailure(end.ErrorText(slice), slice, end)
  {
    hide TextOf, IsCodes, CompletionText, ShowsSlice;
    TextShows(slice);
    CompletionTextIs(end.cc, end.ret);
    var codes := CompletionText(end.cc, end.ret);
    assert ("0x0" + codes)[3..] == codes;
    assert (TextOf(slice) + codes)[|TextOf(slice)|..] == codes;
  }

  /******* Registers *******/

  /** Registers are logged unless the output is limited to those marked for it. */
  predicate Logged(limited: bool, reg: Register) { !limited || reg.isLogged }

  /** The logged ones among the first k. */
  function LoggedBefore(regs: seq<Register>, limited: bool, k: nat): nat
    requires k <= |regs|
  {
    if k == 0 then 0 else LoggedBefore(regs, limited, k - 1) + if Logged(limited, regs[k - 1]) then 1 else 0
  }

  /** Logged register k stands behind the logged ones before it, with its name and its bytes. */
  lemma {:induction false} ValueAt(regs: seq<Register>, data: seq<Byte>, limited: bool, m: nat, k: nat)
    requires k < m <= |regs| && Offset(regs, m) <= |data| && Logged(limited, regs[k])
    ensures |Values(regs, data, limited, m)| == LoggedBefore(regs, limited, m)
    ensures LoggedBefore(regs, limited, k) < LoggedBefore(regs, limited, m)
    ensures Offset(regs, k) <= Offset(regs, k + 1) <= |data|
    ensures var shown := Values(regs, data, limited, m)[LoggedBefore(regs, limited, k)];
            shown.key == regs[k].name && ShowsSlice(shown.text, data[Offset(regs, k)..Offset(regs, k + 1)])
  {
    hide TextOf, ShowsSlice;
    ValuesCount(regs, data, limited, m);
    ValuesCount(regs, data, limited, m - 1);
    OffsetMonotone(regs, k + 1, m);
    if k < m - 1 {
      ValueAt(regs, data, limited, m - 1, k);
    } else {
      TextShows(Slice(regs, data, k));
    }
  }

  lemma {:induction false} ValuesCount(regs: seq<Register>, data: seq<Byte>, limited: bool, m: nat)
    requires m <= |regs| && Offset(regs, m) <= |data|
    ensures |Values(regs, data, limited, m)| == LoggedBefore(regs, limited, m)
  {
    hide TextOf;
    if m > 0 {
      ValuesCount(regs, data, limited, m - 1);
    }
  }

  /** Register k cannot be shown: it does not fit, or it is logged, ends behind the frames read, and
      the last of them failed. */
  predicate CannotShow(regs: seq<Register>, size: nat, limited: bool, end: Ending, k: nat)
    requires k < |regs|
  {
    || Offset(regs, k + 1) > size
    || (Logged(limited, regs[k]) && end.bytesRead < Offset(regs, k + 1)
        && (end.ret != PECI_CC_SUCCESS || (end.cc != PECI_DEV_CC_SUCCESS && end.cc != PECI_DEV_CC_FATAL_MCA_DETECTED)))
  }

  /** The dump stops at the first register that cannot be shown. */
  lemma StopLaw(regs: seq<Register>, size: nat, limited: bool, end: Ending)
    ensures var m := Stop(regs, size, limited, end);
            && m <= |regs| && (m < |regs| ==> CannotShow(regs, size, limited, end, m))
            && forall k :: 0 <= k < m ==> !CannotShow(regs, size, limited, end, k)
  {
    hide Offset;
    forall k | 0 <= k < |regs|
      ensures StopsAt(regs, size, limited, end, k) <==> CannotShow(regs, size, limited, end, k)
    {
      assert Offset(regs, k + 1) == Offset(regs, k) + regs[k].Size() by { NextOffset(regs, k); }
    }
  }

  lemma NextOffset(regs: seq<Register>, k: nat)
    requires k < |regs|
    ensures Offset(regs, k + 1) == Offset(regs, k) + regs[k].size % 256 && Offset(regs, 0) == 0
  {
  }

  /** What is shown of a register list: the values up to the stop, and an error entry for the
      register at the stop if it fits and so was to be shown. */
  lemma RegistersLaw(regs: seq<Register>, data: seq<Byte>, limited: bool, end: Ending) returns (last: seq<Shown>)
    ensures var m := Stop(regs, |data|, limited, end);
            && m <= |regs| && Offset(regs, m) <= |data|
            && Registers(Some(regs), data, limited, end) == Values(regs, data, limited, m) + last
            && if m < |regs| && Offset(regs, m + 1) <= |data| then
                 && |last| == 1 && last[0].key == regs[m].name
                 && ShowsFailure(last[0].text, data[Offset(regs, m)..Offset(regs, m + 1)], end)
               else last == []
  {
    hide Values, Stop, Registers, Stops, RegisterEntry, Offset, ShowsFailure, Unacceptable, Ending.ErrorText;
    var m := Stop(regs, |data|, limited, end);
    StopBound(regs, |data|, limited, end);
    StopFits(regs, |data|, limited, end, m);
    last := [];
    if m < |regs| {
      NextOffset(regs, m);
      StopStep(regs, |data|, limited, end, m);
      StoppedAt(regs, data, limited, end, m);
      last := RegisterEntry(regs[m], data, Offset(regs, m), limited, end);
      if Offset(regs, m + 1) <= |data| {
        ErrorEntry(regs[m], data, Offset(regs, m), limited, end);
        FailureShows(data[Offset(regs, m)..Offset(regs, m + 1)], end);
      } else {
        NoEntry(regs[m], data, Offset(regs, m), limited, end);
      }
    } else {
      StoppedNowhere(regs, data, limited, end);
    }
  }

  lemma NoEntry(reg: Register, data: seq<Byte>, index: nat, limited: bool, end: Ending)
    requires index + reg.Size() > |data|
    ensures RegisterEntry(reg, data, index, limited, end) == []
  {
  }

  /******* Queues *******/

  predicate HasFailed(end: Ending) {
    end.ret != PECI_CC_SUCCESS || (end.cc != PECI_DEV_CC_SUCCESS && end.cc != PECI_DEV_CC_FATAL_MCA_DETECTED)
  }

  /** Entry i of a queue: its number, and the eight bytes of its place. */
  predicate ShowsEntry(shown: Shown, data: seq<Byte>, from: nat, i: nat, end: Ending)
    requires from + 8 * i + 8 <= |data|
  {
    var slice := data[from + 8 * i..from + 8 * i + 8];
    && shown.key == "entry" + Dec(i)
    && if HasFailed(end) && end.bytesRead < from + 8 * i + 8 then ShowsFailure(shown.text, slice, end)
       else ShowsBytes(shown.text, slice)
  }

  lemma EntryLaw(data: seq<Byte>, from: nat, n: nat, end: Ending, i: nat)
    requires from + 8 * n <= |data| && i < n
    ensures ShowsEntry(QueueEntries(data, from, n, end)[i], data, from, i, end)
  {
    hide QueueEntries, ShowsFailure, ShowsBytes, Digits, TextOf;
    QueueEntriesAt(data, from, n, end, i);
    assert data[from + 8 * i..from + 8 * (i + 1)] == data[from + 8 * i..from + 8 * i + 8];
    var slice := data[from + 8 * i..from + 8 * i + 8];
    FailureShows(slice, end);
    EightBytes(slice);
  }

  lemma EightBytes(slice: seq<Byte>)
    requires |slice| == 8
    ensures ShowsBytes(TextOf(slice), slice)
  {
    hide ShowsBytes, SliceText;
    SliceTextShows(slice);
  }

  /** Raw entry i: named by a number, with the eight bytes of its place. */
  predicate ShowsRaw(shown: Shown, name: nat, slice: seq<Byte>) {
    shown.key == "raw_0x" + Digits(name, Sixteen) && ShowsBytes(shown.text, slice)
  }

  lemma RawName(n: nat)
    ensures "raw_" + PrintHex(n) == "raw_0x" + Digits(n, Sixteen)
  {
    hide Digits;
    assert "raw_" + ("0x" + Digits(n, Sixteen)) == "raw_0x" + Digits(n, Sixteen);
  }

  lemma RawLaw(data: seq<Byte>, from: nat, n: nat, i: nat)
    requires from + 8 * n <= |data| && i < n
    ensures ShowsRaw(RawEntries(data, from, n)[i], i, data[from + 8 * i..from + 8 * i + 8])
  {
    hide RawEntries, ShowsBytes, Digits, TextOf;
    RawEntriesAt(data, from, n, i);
    RawName(i);
    assert data[from + 8 * i..from + 8 * (i + 1)] == data[from + 8 * i..from + 8 * i + 8];
    EightBytes(data[from + 8 * i..from + 8 * i + 8]);
  }

  /** A queue object of the given name with n entries from a place on. */
  predicate IsQueue(q: Queue, key: string, data: seq<Byte>, from: nat, n: nat, end: Ending) {
    && q.key == key && |q.fields| == n && from + 8 * n <= |data|
    && forall i :: 0 <= i < n ==> ShowsEntry(q.fields[i], data, from, i, end)
  }

  /** An object that tells the unexpected size and shows what there is, qword by qword. */
  predicate IsUnexpected(q: Queue, key: string, data: seq<Byte>, from: nat)
    requires from <= |data|
  {
    var rest := |data| - from;
    && q.key == key && |q.fields| == 1 + rest / 8
    && q.fields[0] == Shown("_error_unexpected_size", "0x" + Digits(rest, Sixteen))
    && forall i :: 0 <= i < rest / 8 ==> ShowsRaw(q.fields[1 + i], i, data[from + 8 * i..from + 8 * i + 8])
  }

  lemma QueueIs(key: string, data: seq<Byte>, from: nat, n: nat, end: Ending)
    requires from + 8 * n <= |data|
    ensures IsQueue(Queue(key, QueueEntries(data, from, n, end)), key, data, from, n, end)
  {
    hide ShowsEntry;
    forall i | 0 <= i < n ensures ShowsEntry(QueueEntries(data, from, n, end)[i], data, from, i, end) {
      EntryLaw(data, from, n, end, i);
    }
  }

  lemma UnexpectedIs(key: string, data: seq<Byte>, from: nat)
    requires from <= |data|
    ensures IsUnexpected(Unexpected(key, data, from), key, data, from)
  {
    hide ShowsRaw, Digits, RawEntries;
    var rest := |data| - from;
    var q := Unexpected(key, data, from);
    forall i | 0 <= i < rest / 8
      ensures ShowsRaw(q.fields[1 + i], i, data[from + 8 * i..from + 8 * i + 8])
    {
      RawLaw(data, from, rest / 8, i);
    }
  }

  /** What follows the registers: nothing if the output is limited or nothing is left; for the Ice
      Lake models 64 entries of 512 bytes; for the Sapphire Rapids ones two times 48 of 768 bytes;
      anything else is of an unexpected size. */
  ghost predicate QueuesLaw(model: Model, data: seq<Byte>, from: nat, limited: bool, end: Ending, queues: seq<Queue>)
    requires from <= |data|
  {
    var rest := |data| - from;
    if rest == 0 || limited then queues == []
    else if model == SPR || model == SPRHBM then
      if rest == 768 then
        |queues| == 2 && IsQueue(queues[0], "SQD", data, from, 48, end)
        && IsQueue(queues[1], "SQS", data, from + 384, 48, end)
      else |queues| == 1 && IsUnexpected(queues[0], "SQD", data, from)
    else
      if rest == 512 then |queues| == 1 && IsQueue(queues[0], "SQ", data, from, 64, end)
      else |queues| == 1 && IsUnexpected(queues[0], "SQ", data, from)
  }

  lemma QueuesObey(model: Model, data: seq<Byte>, from: nat, limited: bool, end: Ending)
    requires from <= |data|
    ensures QueuesLaw(model, data, from, limited, end,
                      if FamilyOf(model).IceLake? then QueuesICX(data, from, limited, end)
                      else QueuesSPR(data, from, limited, end))
  {
    hide IsQueue, IsUnexpected, QueueEntries, Unexpected;
    var rest := |data| - from;
    if rest == 512 {
      QueueIs("SQ", data, from, 64, end);
    }
    if rest == 768 {
      QueueIs("SQD", data, from, 48, end);
      QueueIs("SQS", data, from + 384, 48, end);
    }
    UnexpectedIs("SQ", data, from);
    UnexpectedIs("SQD", data, from);
  }

  /******* Everything stored *******/

  /** The thread as a whole. Decoded: the registers of the list, then the queues behind them, unless
      the registers stopped early. Not decoded: its qwords by byte offset, at most 2040 bytes of
      them, unless the output is limited. */
  ghost predicate StoredLaw(list: Option<seq<Register>>, decoded: bool, model: Model, data: seq<Byte>, end: Ending,
                            limited: bool, stored: Stored)
  {
    if decoded then
      if list.None? then stored == Stored([], [])
      else
        var m := Stop(list.value, |data|, limited, end);
        && stored.fields == Registers(list, data, limited, end)
        && (m < |list.value| ==> stored.queues == [])
        && (m == |list.value| && Offset(list.value, m) <= |data| ==>
              QueuesLaw(model, data, Offset(list.value, m), limited, end, stored.queues))
    else if limited then stored == Stored([], [])
    else
      var n := (if |data| < 2040 then |data| else 2040) / 8;
      && stored.queues == [] && |stored.fields| == n
      && forall i :: 0 <= i < n ==> ShowsRaw(stored.fields[i], 8 * i, data[8 * i..8 * i + 8])
  }

  lemma RawDumpLaw(data: seq<Byte>, size: nat, i: nat)
    requires size <= |data| && i < size / 8
    ensures ShowsRaw(RawDump(data[..size], size / 8)[i], 8 * i, data[8 * i..8 * i + 8])
  {
    hide RawDump, ShowsBytes, Digits, TextOf;
    RawDumpAt(data[..size], size / 8, i);
    RawName(8 * i);
    assert data[..size][8 * i..8 * (i + 1)] == data[8 * i..8 * i + 8];
    EightBytes(data[8 * i..8 * i + 8]);
  }

  lemma StoredObeys(d: Decode, version: Uint32, regDumpSize: nat, model: Model, data: seq<Byte>, end: Ending,
                    limited: bool)
    ensures StoredLaw(RegList(d, version), StoreDecoded(d, version, regDumpSize), model, data, end, limited,
                      StoredFor(d, version, regDumpSize, model, data, end, limited))
  {
    hide StoreDecoded, RegList, Registers, QueuesICX, QueuesSPR, QueuesLaw, ShowsRaw, Stop, RawDump, Offset;
    var list := RegList(d, version);
    if StoreDecoded(d, version, regDumpSize) {
      if list.Some? {
        StopBound(list.value, |data|, limited, end);
        QueuesObey(model, data, RegistersEnd(list, |data|, limited, end), limited, end);
        EndLaw(list.value, |data|, limited, end);
        EarlyStop(model, data, limited, end);
      } else {
        NoRegisters(data, limited, end);
        EarlyStop(model, data, limited, end);
      }
    } else if !limited {
      var size := Min(|data|, CRASHDUMP_MAX_SIZE);
      forall i | 0 <= i < size / 8
        ensures ShowsRaw(RawDump(data[..size], size / 8)[i], 8 * i, data[8 * i..8 * i + 8])
      {
        RawDumpLaw(data, size, i);
      }
    }
  }

  lemma EndLaw(regs: seq<Register>, size: nat, limited: bool, end: Ending)
    ensures var m := Stop(regs, size, limited, end);
            && m <= |regs| && Offset(regs, m) <= size
            && RegistersEnd(Some(regs), size, limited, end) == if m < |regs| then size else Offset(regs, m)
  {
    hide Stop;
    StopBound(regs, size, limited, end);
    StopFits(regs, size, limited, end, Stop(regs, size, limited, end));
  }

  lemma NoRegisters(data: seq<Byte>, limited: bool, end: Ending)
    ensures Registers(None, data, limited, end) == [] && RegistersEnd(None, |data|, limited, end) == |data|
  {
  }

  lemma EarlyStop(model: Model, data: seq<Byte>, limited: bool, end: Ending)
    ensures QueuesICX(data, |data|, limited, end) == [] && QueuesSPR(data, |data|, limited, end) == []
  {
  }

  /** The size of a version, without any memory: the sum of its register sizes in 32 bits, each in
      eight; two if the version is not listed or has no registers. */
  lemma UncachedLaw(d: Decode, version: string)
    ensures First(d, version).Some? && d.value[First(d, version).value].regList.Some? ==>
              var regs := d.value[First(d, version).value].regList.value;
              Uncached(d, version) == Offset(regs, |regs|) % 0x1_0000_0000
    ensures First(d, version).None? || d.value[First(d, version).value].regList.None? ==> Uncached(d, version) == 2
  {
    hide Offset;
    if First(d, version).Some? && d.value[First(d, version).value].regList.Some? {
      TotalIsOffset(d.value[First(d, version).value].regList.value);
    }
  }
}
