/** The big-core decode table of the input file and its memoised register sizes
    (engine/utils.c, getTotalInputRegsSize in engine/BigCore.c). */
module DecodeMap {
  import opened Numerals
  import opened Clock

  /** One element of a "reg_list"; the size is stored in eight bits. */
  datatype Register = Register(name: string, size: int, isLogged: bool) {
    function Size(): Byte { size % 256 }
  }

  /** A "_size" child: only strings are used. */
  datatype SizeItem = SizeText(s: string) | SizeOther

  /** One decode entry: its versions, its registers, and its "_size" children in order. */
  datatype Entry = Entry(versions: Option<seq<string>>, regList: Option<seq<Register>>, sizes: seq<SizeItem>)

  /** The "Decode" array, when the input file has a big-core section with one. */
  type Decode = Option<seq<Entry>>

  const ACD_INVALID_OBJECT: Uint32 := 2

  predicate Lists(e: Entry, version: string) {
    e.versions.Some? && version in e.versions.value
  }

  /** The first entry that lists the version. */
  function FirstFrom(entries: seq<Entry>, version: string, k: nat): (r: Option<nat>)
    requires k <= |entries|
    ensures r.Some? ==> k <= r.value < |entries| && Lists(entries[r.value], version)
    ensures forall j :: k <= j < (if r.Some? then r.value else |entries|) ==> !Lists(entries[j], version)
    decreases |entries| - k
  {
    if k == |entries| then None
    else if Lists(entries[k], version) then Some(k)
    else FirstFrom(entries, version, k + 1)
  }

  function First(d: Decode, version: string): (r: Option<nat>)
    ensures r.Some? ==> d.Some? && r.value < |d.value| && Lists(d.value[r.value], version)
  {
    if d.None? then None else FirstFrom(d.value, version, 0)
  }

  /** The size remembered in an entry; zero when there is none. */
  function CachedSize(e: Entry): Uint32 {
    if e.sizes != [] && e.sizes[0].SizeText? then ParseHex(e.sizes[0].s) % TWO_TO_THE_32 else 0
  }

  /** The sum of the register sizes in 32 bits. */
  function RegTotal(regs: seq<Register>): Uint32 {
    if regs == [] then 0
    else (RegTotal(regs[..|regs| - 1]) + regs[|regs| - 1].Size()) % TWO_TO_THE_32
  }

  function EntrySize(e: Entry): Uint32 {
    if e.regList.None? then ACD_INVALID_OBJECT else RegTotal(e.regList.value)
  }

  /** What the size of a version is, without any memory. */
  function Uncached(d: Decode, version: string): Uint32 {
    if First(d, version).None? then ACD_INVALID_OBJECT else EntrySize(d.value[First(d, version).value])
  }

  /** What a call returns, and the table it leaves behind. */
  function Returned(d: Decode, version: string): Uint32 {
    if First(d, version).None? then ACD_INVALID_OBJECT
    else
      var e := d.value[First(d, version).value];
      if CachedSize(e) != 0 then CachedSize(e) else EntrySize(e)
  }

  function Remembered(d: Decode, version: string): (r: Decode)
    ensures d.None? ==> r.None?
    ensures d.Some? ==> r.Some? && |r.value| == |d.value|
  {
    if First(d, version).None? then d
    else
      var k := First(d, version).value;
      var e := d.value[k];
      if CachedSize(e) != 0 || e.regList.None? then d
      else Some(d.value[k := e.(sizes := e.sizes + [SizeText(PrintHex(EntrySize(e)))])])
  }

  class InputFile {
    var decode: Decode

    constructor (d: Decode)
      ensures decode == d
    {
      decode := d;
    }

    /** getValidBigCoreMap: scan the entries, and each entry's versions, in order. */
    method GetValidBigCoreMap(version: string) returns (r: Option<nat>)
      ensures r == First(decode, version)
    {
      if decode.None? {
        return None;
      }
      var k := 0;
      while k < |decode.value|
        invariant k <= |decode.value|
        invariant First(decode, version) == FirstFrom(decode.value, version, k)
      {
        var listed := ListsVersion(decode.value[k].versions, version);
        if listed {
          return Some(k);
        }
        k := k + 1;
      }
      return None;
    }

    method ListsVersion(versions: Option<seq<string>>, version: string) returns (b: bool)
      ensures b == (versions.Some? && version in versions.value)
    {
      if versions.Some? {
        for i := 0 to |versions.value|
          invariant version !in versions.value[..i]
        {
          if versions.value[i] == version {
            return true;
          }
        }
        assert versions.value[..|versions.value|] == versions.value;
      }
      return false;
    }

    /** isBigCoreRegVersionMatch: true exactly when getValidBigCoreMap finds an entry. */
    method IsBigCoreRegVersionMatch(version: Uint32) returns (b: bool)
      ensures b <==> First(decode, PrintHex(version)).Some?
    {
      var jsonItemName := PrintHex(version);
      if decode.Some? {
        var k := 0;
        while k < |decode.value|
          invariant k <= |decode.value|
          invariant First(decode, jsonItemName) == FirstFrom(decode.value, jsonItemName, k)
        {
          var listed := ListsVersion(decode.value[k].versions, jsonItemName);
          if listed {
            return true;
          }
          k := k + 1;
        }
      }
      return false;
    }

    /** getTotalInputRegsSize: use the remembered size, or sum up and remember. */
    method GetTotalInputRegsSize(version: Uint32) returns (total: Uint32)
      modifies this
      ensures total == Returned(old(decode), PrintHex(version))
      ensures decode == Remembered(old(decode), PrintHex(version))
    {
      hide PrintHex, CachedSize;
      var jsonItemName := PrintHex(version);
      var found := GetValidBigCoreMap(jsonItemName);
      if found.None? {
        return ACD_INVALID_OBJECT;
      }
      var e := decode.value[found.value];
      var size := CachedSize(e);
      if size != 0 {
        return size;
      }
      if e.regList.None? {
        return ACD_INVALID_OBJECT;
      }
      total := 0;
      var regs := e.regList.value;
      for i := 0 to |regs|
        invariant total == RegTotal(regs[..i])
      {
        total := (total + regs[i].Size()) % TWO_TO_THE_32;
        assert regs[..i + 1][..i] == regs[..i];
      }
      assert regs[..|regs|] == regs;
      var e' := e.(sizes := e.sizes + [SizeText(PrintHex(total))]);
      decode := Some(decode.value[found.value := e']);
    }
  }

  /******* Coherence of the memory *******/

  predicate EntryCoherent(e: Entry) {
    CachedSize(e) == 0 || CachedSize(e) == EntrySize(e)
  }

  /** Every entry that some version finds remembers nothing or the right size. */
  ghost predicate Coherent(d: Decode) {
    forall v: Uint32 :: First(d, PrintHex(v)).Some? ==> EntryCoherent(d.value[First(d, PrintHex(v)).value])
  }

  /** The memory never changes an answer if and only if it is coherent. */
  lemma CoherentIffTransparent(d: Decode)
    ensures Coherent(d) <==> forall v: Uint32 :: Returned(d, PrintHex(v)) == Uncached(d, PrintHex(v))
  {
    hide PrintHex, CachedSize, EntrySize;
    forall v: Uint32
      ensures Returned(d, PrintHex(v)) == Uncached(d, PrintHex(v)) <==>
              (First(d, PrintHex(v)).Some? ==> EntryCoherent(d.value[First(d, PrintHex(v)).value]))
    {
    }
  }

  /** Two tables that differ at most in what they remember. */
  ghost predicate SameTable(c: Decode, d: Decode) {
    && (c.Some? <==> d.Some?)
    && (c.Some? ==> |c.value| == |d.value| && forall k :: 0 <= k < |c.value| ==> SameEntry(c.value[k], d.value[k]))
  }

  predicate SameEntry(a: Entry, b: Entry) {
    a.versions == b.versions && a.regList == b.regList
  }

  lemma {:induction false} SameFirstFrom(c: seq<Entry>, d: seq<Entry>, version: string, k: nat)
    requires |c| == |d| && k <= |c| && forall j :: 0 <= j < |c| ==> SameEntry(c[j], d[j])
    ensures FirstFrom(c, version, k) == FirstFrom(d, version, k)
    decreases |c| - k
  {
    if k < |c| {
      SameFirstFrom(c, d, version, k + 1);
    }
  }

  lemma SameTableSameSizes(c: Decode, d: Decode, version: string)
    requires SameTable(c, d)
    ensures First(c, version) == First(d, version) && Uncached(c, version) == Uncached(d, version)
  {
    if c.Some? {
      SameFirstFrom(c.value, d.value, version, 0);
    }
  }

  /** A remembered size is read back exactly: print and parse cancel. */
  lemma RememberedIsRead(e: Entry)
    requires e.sizes == []
    ensures CachedSize(e.(sizes := [SizeText(PrintHex(EntrySize(e)))])) == EntrySize(e)
  {
    hide ParseHex, PrintHex, EntrySize;
    ParsePrintHex(EntrySize(e));
  }

  lemma RememberedEntry(e: Entry)
    requires CachedSize(e) == 0
    ensures EntryCoherent(e.(sizes := e.sizes + [SizeText(PrintHex(EntrySize(e)))]))
  {
    hide PrintHex, EntrySize, ParseHex;
    var t := SizeText(PrintHex(EntrySize(e)));
    SizesDoNotCount(e, e.sizes + [t]);
    if e.sizes == [] {
      RememberedIsRead(e);
      assert [] + [t] == [t];
    } else {
      assert (e.sizes + [t])[0] == e.sizes[0];
    }
  }

  /** A call keeps the table and its coherence. */
  lemma RememberedKeeps(d: Decode, version: string)
    requires Coherent(d)
    ensures SameTable(d, Remembered(d, version)) && Coherent(Remembered(d, version))
  {
    hide PrintHex, CachedSize, EntrySize;
    var r := Remembered(d, version);
    forall v: Uint32 | First(r, PrintHex(v)).Some?
      ensures EntryCoherent(r.value[First(r, PrintHex(v)).value])
    {
      SameTableSameSizes(d, r, PrintHex(v));
      var k := First(r, PrintHex(v)).value;
      if r.value[k] != d.value[k] {
        RememberedEntry(d.value[k]);
      }
    }
  }

  /** The table after a sequence of calls. */
  function AfterCalls(d: Decode, versions: seq<Uint32>): Decode {
    if versions == [] then d
    else Remembered(AfterCalls(d, versions[..|versions| - 1]), PrintHex(versions[|versions| - 1]))
  }

  /** Over any sequence of calls, for any versions in any order and also when several versions
      share an entry, every call returns the uncached sum of the table it started from. */
  lemma {:induction false} CacheIsTransparent(d: Decode, versions: seq<Uint32>, v: Uint32)
    requires Coherent(d)
    ensures Coherent(AfterCalls(d, versions)) && SameTable(d, AfterCalls(d, versions))
    ensures Returned(AfterCalls(d, versions), PrintHex(v)) == Uncached(d, PrintHex(v))
  {
    hide Remembered, PrintHex, Returned, Uncached;
    if versions != [] {
      var init, last := versions[..|versions| - 1], versions[|versions| - 1];
      CacheIsTransparent(d, init, v);
      RememberedKeeps(AfterCalls(d, init), PrintHex(last));
    }
    SameTableSameSizes(d, AfterCalls(d, versions), PrintHex(v));
    CoherentIffTransparent(AfterCalls(d, versions));
  }

  lemma CachedAfterStore(e: Entry)
    requires CachedSize(e) == 0
    ensures CachedSize(e.(sizes := e.sizes + [SizeText(PrintHex(EntrySize(e)))])) ==
            if e.sizes == [] then EntrySize(e) else 0
  {
    hide PrintHex, EntrySize, ParseHex;
    var t := SizeText(PrintHex(EntrySize(e)));
    if e.sizes == [] {
      RememberedIsRead(e);
      assert [] + [t] == [t];
    } else {
      assert (e.sizes + [t])[0] == e.sizes[0];
    }
  }

  /** The memory is used from the second call on exactly when there is a non-zero size to
      remember and no unusable "_size" child in its way; otherwise every call sums up again and
      appends another "_size". */
  lemma SecondCallIsQuiet(d: Decode, version: string)
    requires First(d, version).Some?
    ensures var e := d.value[First(d, version).value];
            Remembered(Remembered(d, version), version) == Remembered(d, version) <==>
              (CachedSize(e) != 0 || e.regList.None? || (EntrySize(e) != 0 && e.sizes == []))
  {
    hide PrintHex, CachedSize, EntrySize;
    var k := First(d, version).value;
    var e := d.value[k];
    var c := Remembered(d, version);
    if CachedSize(e) == 0 && e.regList.Some? {
      assert SameTable(d, c);
      SameTableSameSizes(d, c, version);
      CachedAfterStore(e);
      var e' := c.value[k];
      assert EntrySize(e') == EntrySize(e) by { SizesDoNotCount(e, e'.sizes); }
      if CachedSize(e') == 0 {
        assert Remembered(c, version).value[k].sizes != c.value[k].sizes;
      }
    }
  }

  lemma SizesDoNotCount(e: Entry, sizes: seq<SizeItem>)
    ensures EntrySize(e.(sizes := sizes)) == EntrySize(e)
  {
  }
}
