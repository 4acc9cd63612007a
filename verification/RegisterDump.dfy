/** Decoding one thread's crash data (registerDump, crashdumpJsonICX, crashdumpJsonSPR and
    rawdumpJsonICXSPR in engine/BigCore.c): registers tile the front of the buffer, queue
    entries of eight bytes tile the rest. */
module RegisterDump {
  import opened Numerals
  import opened CmdInOut
  import opened DataString
  import opened DecodeMap

  datatype Shown = Shown(key: string, text: string)

  /** A JSON object that strings are appended to. */
  class JsonObject {
    var fields: seq<Shown>

    constructor ()
      ensures fields == []
    {
      fields := [];
    }
  }

  const CD_JSON_STRING_LEN: nat := 256

  /** What getJsonDataString leaves in the 256-character buffer for a slice. */
  function TextOf(slice: seq<Byte>): string {
    if 2 * |slice| + SIZE_OF_0x0 > CD_JSON_STRING_LEN then TOO_SMALL else SliceText(slice)
  }

  /** How the collection of the buffer ended: bytes covered by the frames read (the last one
      included), and the completion code and return code of the last frame. */
  datatype Ending = Ending(bytesRead: nat, cc: Byte, ret: int) {
    predicate Failed() { ret != PECI_CC_SUCCESS || Unacceptable(cc) }

    /** The text of a value that ends behind the frames read, when the last frame failed. */
    function ErrorText(slice: seq<Byte>): string {
      if ret != PECI_CC_SUCCESS then "0x0" + CompletionText(cc, ret)
      else TextOf(slice) + CompletionText(cc, ret)
    }
  }

  /** Print a slice and read the string back out of the buffer. */
  method PrintSlice(data: seq<Byte>, dataIndex: nat, numBytes: Byte) returns (ok: bool, text: string)
    ensures ok <==> dataIndex + numBytes <= |data|
    ensures ok ==> text == TextOf(data[dataIndex..dataIndex + numBytes])
  {
    hide SliceText, Holds;
    var buffer := new char[CD_JSON_STRING_LEN];
    var ret := GetJsonDataString(data, dataIndex, numBytes, buffer);
    if ret < 0 {
      return false, "";
    }
    ghost var t := TextOf(data[dataIndex..dataIndex + numBytes]);
    TextHasNoTerminator(data[dataIndex..dataIndex + numBytes]);
    text := ReadString(buffer, t);
    ok := true;
  }

  lemma NoTerminatorInDigits(digits: string)
    requires AllDigits(digits)
    ensures '\0' !in digits
  {
  }

  lemma TextHasNoTerminator(slice: seq<Byte>)
    ensures '\0' !in TextOf(slice)
  {
    hide SliceDigits;
    var digits := SliceDigits(slice);
    NoTerminatorInDigits(digits);
  }

  /******* Registers *******/

  /** isRegisterLogged. */
  predicate IsLogged(limited: bool, reg: Register) {
    !limited || reg.isLogged
  }

  /** Where register k starts: the sizes of the registers before it. */
  function Offset(regs: seq<Register>, k: nat): nat
    requires k <= |regs|
  {
    if k == 0 then 0 else Offset(regs, k - 1) + regs[k - 1].Size()
  }

  /** The slice of register k. */
  function Slice(regs: seq<Register>, data: seq<Byte>, k: nat): seq<Byte>
    requires k < |regs| && Offset(regs, k + 1) <= |data|
  {
    data[Offset(regs, k)..Offset(regs, k + 1)]
  }

  /** The logged ones of the first k registers with their values. */
  function Values(regs: seq<Register>, data: seq<Byte>, limited: bool, k: nat): seq<Shown>
    requires k <= |regs| && Offset(regs, k) <= |data|
  {
    if k == 0 then []
    else Values(regs, data, limited, k - 1) +
         (if IsLogged(limited, regs[k - 1]) then [Shown(regs[k - 1].name, TextOf(Slice(regs, data, k - 1)))] else [])
  }

  /** A register that starts at index stops the dump: it does not fit the buffer or - after a
      failure - it is logged and ends behind the frames read. */
  predicate Stops(reg: Register, size: nat, index: nat, limited: bool, end: Ending) {
    var e := index + reg.Size();
    e > size || (IsLogged(limited, reg) && end.Failed() && end.bytesRead < e)
  }

  predicate StopsAt(regs: seq<Register>, size: nat, limited: bool, end: Ending, k: nat)
    requires k < |regs|
  {
    Stops(regs[k], size, Offset(regs, k), limited, end)
  }

  /** What one register adds. */
  function RegisterEntry(reg: Register, data: seq<Byte>, index: nat, limited: bool, end: Ending): seq<Shown> {
    var e := index + reg.Size();
    if e > |data| || !IsLogged(limited, reg) then []
    else [Shown(reg.name, if Stops(reg, |data|, index, limited, end) then end.ErrorText(data[index..e])
                          else TextOf(data[index..e]))]
  }

  /** The position of that register (|regs| when there is none). */
  function StopFrom(regs: seq<Register>, size: nat, limited: bool, end: Ending, k: nat): (m: nat)
    requires k <= |regs|
    ensures k <= m <= |regs|
    ensures m < |regs| ==> StopsAt(regs, size, limited, end, m)
    ensures forall j :: k <= j < m ==> !StopsAt(regs, size, limited, end, j)
    decreases |regs| - k
  {
    if k == |regs| || StopsAt(regs, size, limited, end, k) then k
    else StopFrom(regs, size, limited, end, k + 1)
  }

  function Stop(regs: seq<Register>, size: nat, limited: bool, end: Ending): nat {
    StopFrom(regs, size, limited, end, 0)
  }

  lemma StopBound(regs: seq<Register>, size: nat, limited: bool, end: Ending)
    ensures Stop(regs, size, limited, end) <= |regs|
  {
  }

  lemma StopStep(regs: seq<Register>, size: nat, limited: bool, end: Ending, k: nat)
    requires k <= Stop(regs, size, limited, end) && k < |regs|
    ensures Stops(regs[k], size, Offset(regs, k), limited, end) <==> Stop(regs, size, limited, end) == k
  {
    assert StopsAt(regs, size, limited, end, k) == Stops(regs[k], size, Offset(regs, k), limited, end);
  }

  lemma {:induction false} StopFits(regs: seq<Register>, size: nat, limited: bool, end: Ending, k: nat)
    requires k <= Stop(regs, size, limited, end)
    ensures k <= |regs| && Offset(regs, k) <= size
  {
    if k > 0 {
      assert !StopsAt(regs, size, limited, end, k - 1);
    }
  }

  /** What is shown of the registers: those before the stop, then one error entry if the stop
      is due to a failed frame. */
  function Registers(regList: Option<seq<Register>>, data: seq<Byte>, limited: bool, end: Ending): seq<Shown> {
    if regList.None? then []
    else
      var regs := regList.value;
      var m := Stop(regs, |data|, limited, end);
      StopFits(regs, |data|, limited, end, m);
      Values(regs, data, limited, m) +
      (if m < |regs| then RegisterEntry(regs[m], data, Offset(regs, m), limited, end) else [])
  }

  /** Where the registers end; the whole size when their dump stopped early. */
  function RegistersEnd(regList: Option<seq<Register>>, size: nat, limited: bool, end: Ending): (index: nat)
    ensures index <= size
  {
    if regList.None? then size
    else
      var regs := regList.value;
      var m := Stop(regs, size, limited, end);
      StopFits(regs, size, limited, end, m);
      if m < |regs| then size else Offset(regs, |regs|)
  }

  lemma StoppedAt(regs: seq<Register>, data: seq<Byte>, limited: bool, end: Ending, k: nat)
    requires k < |regs| && k == Stop(regs, |data|, limited, end) && Offset(regs, k) <= |data|
    ensures RegistersEnd(Some(regs), |data|, limited, end) == |data|
    ensures Registers(Some(regs), data, limited, end) ==
            Values(regs, data, limited, k) + RegisterEntry(regs[k], data, Offset(regs, k), limited, end)
  {
    hide Stop, Values, RegisterEntry, Unacceptable;
  }

  lemma OneMore(regs: seq<Register>, data: seq<Byte>, limited: bool, end: Ending, k: nat)
    requires k < |regs| && !Stops(regs[k], |data|, Offset(regs, k), limited, end)
    ensures Offset(regs, k + 1) == Offset(regs, k) + regs[k].Size() <= |data|
    ensures Values(regs, data, limited, k + 1) ==
            Values(regs, data, limited, k) + RegisterEntry(regs[k], data, Offset(regs, k), limited, end)
  {
    hide TextOf, Unacceptable;
  }

  lemma StoppedNowhere(regs: seq<Register>, data: seq<Byte>, limited: bool, end: Ending)
    requires |regs| == Stop(regs, |data|, limited, end) && Offset(regs, |regs|) <= |data|
    ensures RegistersEnd(Some(regs), |data|, limited, end) == Offset(regs, |regs|)
    ensures Registers(Some(regs), data, limited, end) == Values(regs, data, limited, |regs|)
  {
    hide Stop, Values, TextOf, Unacceptable;
    assert Values(regs, data, limited, |regs|) + [] == Values(regs, data, limited, |regs|);
  }

  /** The body of registerDump's loop: print the register and log it if it is to be logged;
      no next index when the dump stops here. */
  method DumpRegister(reg: Register, data: seq<Byte>, index: nat, end: Ending, limited: bool, thread: JsonObject)
    returns (next: Option<nat>)
    requires index <= |data|
    modifies thread
    ensures next == if Stops(reg, |data|, index, limited, end) then None else Some(index + reg.Size())
    ensures thread.fields == old(thread.fields) + RegisterEntry(reg, data, index, limited, end)
  {
    hide TextOf, CompletionText, Unacceptable;
    var ok, text := PrintSlice(data, index, reg.Size());
    if !ok {
      return None;
    }
    var e := index + reg.Size();
    if IsLogged(limited, reg) {
      if end.bytesRead < e {
        if end.ret != PECI_CC_SUCCESS {
          thread.fields := thread.fields + [Shown(reg.name, "0x0" + CompletionText(end.cc, end.ret))];
          return None;
        } else if Unacceptable(end.cc) {
          thread.fields := thread.fields + [Shown(reg.name, text + CompletionText(end.cc, end.ret))];
          return None;
        }
      }
      thread.fields := thread.fields + [Shown(reg.name, text)];
    }
    return Some(e);
  }

  lemma ValuesOfNone(regs: seq<Register>, data: seq<Byte>, limited: bool)
    ensures Offset(regs, 0) == 0 && Values(regs, data, limited, 0) == []
  {
  }

  /** registerDump: the loop over a register list, which may be missing. */
  method DumpRegisters(regList: Option<seq<Register>>, data: seq<Byte>, end: Ending, limited: bool, thread: JsonObject)
    returns (index: nat)
    modifies thread
    ensures thread.fields == old(thread.fields) + Registers(regList, data, limited, end)
    ensures index == RegistersEnd(regList, |data|, limited, end)
  {
    if regList.None? {
      return |data|;
    }
    hide Registers, RegistersEnd;
    index := DumpList(regList.value, data, end, limited, thread);
  }

  lemma Associative<T>(a: seq<T>, b: seq<T>, c: seq<T>)
    ensures a + b + c == a + (b + c)
  {
  }

  method DumpList(regs: seq<Register>, data: seq<Byte>, end: Ending, limited: bool, thread: JsonObject)
    returns (index: nat)
    modifies thread
    ensures thread.fields == old(thread.fields) + Registers(Some(regs), data, limited, end)
    ensures index == RegistersEnd(Some(regs), |data|, limited, end)
  {
    ghost var before := thread.fields;
    ghost var shown := [];
    StopBound(regs, |data|, limited, end);
    ValuesOfNone(regs, data, limited);
    hide *;
    index := 0;
    for k := 0 to |regs|
      invariant k <= Stop(regs, |data|, limited, end) <= |regs|
      invariant index == Offset(regs, k) <= |data|
      invariant shown == Values(regs, data, limited, k)
      invariant thread.fields == before + shown
    {
      StopStep(regs, |data|, limited, end, k);
      ghost var more := RegisterEntry(regs[k], data, index, limited, end);
      var next := DumpRegister(regs[k], data, index, end, limited, thread);
      Associative(before, shown, more);
      shown := shown + more;
      if next.None? {
        StoppedAt(regs, data, limited, end, k);
        return |data|;
      }
      OneMore(regs, data, limited, end, k);
      index := next.value;
    }
    StoppedNowhere(regs, data, limited, end);
  }

  /******* What the registers cover *******/

  /** The slices of the first k registers, one behind the other. */
  function Joined(regs: seq<Register>, data: seq<Byte>, k: nat): seq<Byte>
    requires k <= |regs| && Offset(regs, k) <= |data|
  {
    if k == 0 then [] else Joined(regs, data, k - 1) + Slice(regs, data, k - 1)
  }

  /** The slices are consecutive, disjoint and cover the front of the buffer. */
  lemma {:induction false} SlicesTile(regs: seq<Register>, data: seq<Byte>, k: nat)
    requires k <= |regs| && Offset(regs, k) <= |data|
    ensures Joined(regs, data, k) == data[..Offset(regs, k)]
  {
    if k > 0 {
      SlicesTile(regs, data, k - 1);
    }
  }

  lemma {:induction false} OffsetMonotone(regs: seq<Register>, j: nat, k: nat)
    requires j <= k <= |regs|
    ensures Offset(regs, j) <= Offset(regs, k)
  {
    if j < k {
      OffsetMonotone(regs, j, k - 1);
    }
  }

  lemma {:induction false} OffsetOfPrefix(regs: seq<Register>, more: seq<Register>, k: nat)
    requires k <= |regs|
    ensures Offset(regs + more, k) == Offset(regs, k)
  {
    if k > 0 {
      OffsetOfPrefix(regs, more, k - 1);
    }
  }

  lemma {:induction false} TotalIsOffset(regs: seq<Register>)
    ensures RegTotal(regs) == Offset(regs, |regs|) % TWO_TO_THE_32
  {
    if regs != [] {
      var init, last := regs[..|regs| - 1], [regs[|regs| - 1]];
      TotalIsOffset(init);
      assert regs == init + last;
      OffsetOfPrefix(init, last, |init|);
      AddModulo(Offset(init, |init|), last[0].Size());
    }
  }

  lemma AddModulo(a: nat, b: nat)
    ensures (a % TWO_TO_THE_32 + b) % TWO_TO_THE_32 == (a + b) % TWO_TO_THE_32
  {
  }

  /** When the summed sizes equal the declared size of the register section, the registers
      tile exactly that section - if and only if the 32-bit sum did not wrap around. */
  lemma RegistersTileTheSection(regs: seq<Register>, data: seq<Byte>, regDumpSize: nat)
    requires RegTotal(regs) == regDumpSize <= |data|
    ensures Offset(regs, |regs|) == regDumpSize <==> Offset(regs, |regs|) < TWO_TO_THE_32
    ensures Offset(regs, |regs|) == regDumpSize ==> Joined(regs, data, |regs|) == data[..regDumpSize]
  {
    TotalIsOffset(regs);
    if Offset(regs, |regs|) == regDumpSize {
      SlicesTile(regs, data, |regs|);
    }
  }

  /** Without a failed frame every register of a fitting list is reached. */
  lemma CompleteDump(regs: seq<Register>, size: nat, limited: bool, end: Ending)
    requires Offset(regs, |regs|) <= size && !end.Failed()
    ensures Stop(regs, size, limited, end) == |regs|
  {
    var m := Stop(regs, size, limited, end);
    if m < |regs| {
      OffsetMonotone(regs, m + 1, |regs|);
    }
  }

  /** After a failed frame the logged registers shown are exactly those that end within the
      bytes covered by the frames; the dump is complete exactly when that is all of them. */
  lemma FailureShowsPrefix(regs: seq<Register>, size: nat, limited: bool, end: Ending, k: nat)
    requires Offset(regs, |regs|) <= size && end.Failed()
    requires k < |regs| && IsLogged(limited, regs[k])
    ensures k < Stop(regs, size, limited, end) <==> Offset(regs, k + 1) <= end.bytesRead
  {
    var m := Stop(regs, size, limited, end);
    if m < |regs| {
      OffsetMonotone(regs, m + 1, |regs|);
      if m <= k {
        OffsetMonotone(regs, m + 1, k + 1);
      }
    }
    if k < m {
      assert !StopsAt(regs, size, limited, end, k);
    }
  }

  /** Every logged register that is shown without error text ends within the bytes covered, to
      which the last frame counts even if it failed. */
  ghost predicate ShowsOnlyRead(regs: seq<Register>, size: nat, limited: bool, end: Ending) {
    forall k :: 0 <= k < Stop(regs, size, limited, end) && k < |regs| && IsLogged(limited, regs[k]) ==>
      Offset(regs, k + 1) <= end.bytesRead
  }

  /** That is so exactly when the last frame failed or covers all logged registers: a collection
      that ends behind a good frame leaves registers that were never read, without any mark. */
  lemma ShowsOnlyReadExactly(regs: seq<Register>, size: nat, limited: bool, end: Ending)
    requires Offset(regs, |regs|) <= size
    ensures ShowsOnlyRead(regs, size, limited, end) <==>
              (end.Failed()
               || forall k :: 0 <= k < |regs| && IsLogged(limited, regs[k]) ==> Offset(regs, k + 1) <= end.bytesRead)
  {
    hide Stop, IsLogged, Unacceptable;
    if end.Failed() {
      forall k | 0 <= k < Stop(regs, size, limited, end) && k < |regs| && IsLogged(limited, regs[k])
        ensures Offset(regs, k + 1) <= end.bytesRead
      {
        FailureShowsPrefix(regs, size, limited, end, k);
      }
    } else {
      CompleteDump(regs, size, limited, end);
    }
  }

  /** After a failed frame the registers shown end before that frame exactly when no logged
      register ends inside it. */
  lemma ShowsOnlyBeforeFailure(regs: seq<Register>, size: nat, limited: bool, end: Ending)
    requires Offset(regs, |regs|) <= size && end.Failed() && end.bytesRead >= 8
    ensures (forall k :: 0 <= k < Stop(regs, size, limited, end) && k < |regs| && IsLogged(limited, regs[k]) ==>
               Offset(regs, k + 1) <= end.bytesRead - 8)
            <==> (forall k :: 0 <= k < |regs| && IsLogged(limited, regs[k]) ==>
                    !(end.bytesRead - 8 < Offset(regs, k + 1) <= end.bytesRead))
  {
    hide Stop, Unacceptable, Offset;
    forall k | 0 <= k < |regs| && IsLogged(limited, regs[k])
      ensures k < Stop(regs, size, limited, end) <==> Offset(regs, k + 1) <= end.bytesRead
    {
      FailureShowsPrefix(regs, size, limited, end, k);
    }
  }
}
