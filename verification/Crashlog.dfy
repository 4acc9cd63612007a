/** Telemetry crash logs (engine/Crashlog.c): samples are collected into a raw buffer, encoded
    as Base64 and appended to the output tree, agent by agent. */
module Crashlog {
  import opened Numerals
  import opened Json
  import opened CmdInOut
  import opened DataString
  import opened Memory
  import opened Base64

  /** One PECI answer that carries a qword. */
  datatype Answer = Answer(ret: int, cc: Byte, data: Uint64) {
    predicate Failed() { ret != PECI_CC_SUCCESS || Unacceptable(cc) }
  }

  datatype AgentDetails = AgentDetails(entryType: Byte, crashType: Byte, uniqueId: Uint32, crashSpace: Uint16)

  /** One entry of "Agent" in the input file; a missing name prints as "(null)". */
  datatype AgentInfo = AgentInfo(guid: Uint32, sectionName: string, enable: bool)

  /** Outside the program: what each agent answers, and the input file. */
  datatype Env = Env(
    discovery: Uint16 -> Answer,
    samples: (Uint16, Uint16) -> Answer,
    agentMap: seq<AgentInfo>,
    excluded: seq<Uint32>,
    cpuEnabled: bool)

  /** getCrashlogDetailsForAgent: fields of the discovery answer; a failed one has no space. */
  function DetailsOf(a: Answer): AgentDetails {
    if a.Failed() then AgentDetails(0, 0, 0, 0)
    else AgentDetails(a.data % 256, a.data / 0x100 % 256,
                      a.data / 0x1_0000 % TWO_TO_THE_32, a.data / 0x1_0000_0000_0000)
  }

  /** The four fields are the whole answer, side by side. */
  lemma DetailsFields(a: Answer)
    requires !a.Failed()
    ensures var d := DetailsOf(a);
            d.entryType + 0x100 * d.crashType + 0x1_0000 * d.uniqueId + 0x1_0000_0000_0000 * d.crashSpace == a.data
  {
    hide Unacceptable;
    var w := a.data;
    var rest := w / 0x100 / 0x100;
    var low := w / 0x100 % 0x100 * 0x100 + w % 0x100;
    UniqueQuotient(w, 0x1_0000, rest, low);
    UniqueQuotient(w, 0x1_0000_0000_0000, rest / TWO_TO_THE_32, rest % TWO_TO_THE_32 * 0x1_0000 + low);
  }

  /******* Collecting *******/

  /** Every sample of the agent is delivered. */
  predicate AllDelivered(e: Env, agent: Uint16, n: Uint16) {
    forall k: Uint16 :: 0 <= k < n ==> !e.samples(agent, k).Failed()
  }

  function Samples(e: Env, agent: Uint16, n: Uint16): (s: seq<Uint64>)
    ensures |s| == n
  {
    if n == 0 then [] else Samples(e, agent, n - 1) + [e.samples(agent, n - 1).data]
  }

  /** The complete raw log: the samples in order, each little-endian, and a zero DWORD at the
      end when the space is an odd number of DWORDs. */
  function RawLog(e: Env, agent: Uint16, crashSpace: Uint16): (raw: seq<Byte>)
    ensures |raw| == 4 * crashSpace
  {
    Bytes(Samples(e, agent, crashSpace / 2)) + Zeros(4 * (crashSpace % 2))
  }

  /** rawCrashlog[sampleId] = data: eight bytes at 8 * sampleId, inside the allocation. */
  method WriteSample(raw: array<Byte>, sampleId: nat, data: Uint64)
    requires 8 * sampleId + 8 <= raw.Length
    modifies raw
    ensures raw[..] == old(raw[..8 * sampleId]) + WordBytes(data) + old(raw[8 * sampleId + 8..])
  {
    hide WordBytes;
    var b := WordBytes(data);
    for k := 0 to 8
      invariant raw[..8 * sampleId + k] == old(raw[..8 * sampleId]) + b[..k]
      invariant raw[8 * sampleId + 8..] == old(raw[8 * sampleId + 8..])
    {
      raw[8 * sampleId + k] := b[k];
    }
    assert b[..8] == b;
    assert raw[..] == raw[..8 * sampleId + 8] + raw[8 * sampleId + 8..];
  }

  /** A buffer of a given size whose front holds words and whose rest is zero. */
  function Filled(words: seq<Uint64>, size: nat): seq<Byte>
    requires 8 * |words| <= size
  {
    Bytes(words) + Zeros(size - 8 * |words|)
  }

  lemma FilledOneMore(words: seq<Uint64>, w: Uint64, size: nat)
    requires 8 * |words| + 8 <= size
    ensures Filled(words + [w], size) ==
            Filled(words, size)[..8 * |words|] + WordBytes(w) + Filled(words, size)[8 * |words| + 8..]
  {
    hide Bytes, WordBytes;
    BytesOfOneMore(words, w);
    assert Filled(words, size)[..8 * |words|] == Bytes(words);
    assert Filled(words, size)[8 * |words| + 8..] == Zeros(size - 8 * |words| - 8);
  }

  /** collectCrashlogForAgent: half as many samples as DWORDs, stopping at the first failure. */
  method CollectCrashlogForAgent(e: Env, agent: Uint16, crashSpace: Uint16, raw: array<Byte>) returns (ok: bool)
    requires raw.Length == 4 * crashSpace && raw[..] == Zeros(4 * crashSpace)
    modifies raw
    ensures ok <==> AllDelivered(e, agent, crashSpace / 2)
    ensures ok ==> raw[..] == RawLog(e, agent, crashSpace)
  {
    hide Bytes, WordBytes, Filled, Zeros;
    assert raw[..] == Filled([], raw.Length) by { FilledNone(raw.Length); }
    var sampleId: Uint16 := 0;
    while sampleId < crashSpace / 2
      invariant sampleId <= crashSpace / 2
      invariant raw[..] == Filled(Samples(e, agent, sampleId), raw.Length)
      invariant AllDelivered(e, agent, sampleId)
    {
      var a := e.samples(agent, sampleId);
      if a.Failed() {
        return false;
      }
      FilledOneMore(Samples(e, agent, sampleId), a.data, raw.Length);
      ghost var before := raw[..];
      assert before[..8 * sampleId] == raw[..8 * sampleId] && before[8 * sampleId + 8..] == raw[8 * sampleId + 8..];
      WriteSample(raw, sampleId, a.data);
      sampleId := sampleId + 1;
    }
    FilledAll(e, agent, crashSpace);
    return true;
  }

  lemma FilledAll(e: Env, agent: Uint16, crashSpace: Uint16)
    ensures Filled(Samples(e, agent, crashSpace / 2), 4 * crashSpace) == RawLog(e, agent, crashSpace)
  {
    assert 4 * crashSpace - 8 * (crashSpace / 2) == 4 * (crashSpace % 2);
  }

  lemma FilledNone(size: nat)
    ensures Filled([], size) == Zeros(size)
  {
    BytesOfNone();
  }

  lemma BytesOfNone()
    ensures Bytes([]) == []
  {
  }

  lemma BytesOfOneMore(words: seq<Uint64>, w: Uint64)
    ensures Bytes(words + [w]) == Bytes(words) + WordBytes(w)
  {
    assert (words + [w])[..|words|] == words;
  }

  /******* Encoding *******/

  /** The byte count passed on, which is a 16-bit parameter. */
  function EncodedSize(crashSpace: Uint16): Uint16 { 4 * crashSpace % 0x1_0000 }

  /** The text with its terminator fits the eight bytes per DWORD allocated for it. */
  predicate Fits(crashSpace: Uint16) {
    4 * ((EncodedSize(crashSpace) + 2) / 3) + 1 <= 8 * crashSpace
  }

  /** That is always so, except for a log of a single DWORD. */
  lemma FitsExceptOne(crashSpace: Uint16)
    ensures crashSpace > 0 ==> (Fits(crashSpace) <==> crashSpace != 1)
  {
  }

  /** The text stored for an agent. */
  function LogText(e: Env, agent: Uint16, crashSpace: Uint16): string {
    Encode(RawLog(e, agent, crashSpace)[..EncodedSize(crashSpace)])
  }

  /** The stored text decodes to the complete log exactly for up to 0x3FFF DWORDs; beyond that
      only the first 4 * crashSpace modulo 65536 bytes were encoded. */
  lemma StoredTextDecodes(e: Env, agent: Uint16, crashSpace: Uint16)
    ensures Decode(LogText(e, agent, crashSpace)) == Some(RawLog(e, agent, crashSpace)[..EncodedSize(crashSpace)])
    ensures Decode(LogText(e, agent, crashSpace)) == Some(RawLog(e, agent, crashSpace)) <==> crashSpace <= 0x3FFF
  {
    hide Encode, RawLog, Decode;
    var raw := RawLog(e, agent, crashSpace);
    RoundTrip(raw[..EncodedSize(crashSpace)]);
    if crashSpace <= 0x3FFF {
      assert raw[..EncodedSize(crashSpace)] == raw;
    } else {
      assert |raw[..EncodedSize(crashSpace)]| < |raw|;
    }
  }

  lemma {:induction false} SampleAt(e: Env, agent: Uint16, n: Uint16, k: Uint16)
    requires k < n
    ensures Samples(e, agent, n)[k] == e.samples(agent, k).data
  {
    if k < n - 1 {
      SampleAt(e, agent, n - 1, k);
    }
  }

  /** Each sample can be read back from its place in the raw log. */
  lemma SamplesInOrder(e: Env, agent: Uint16, crashSpace: Uint16, k: Uint16)
    requires k < crashSpace / 2
    ensures LittleEndian(RawLog(e, agent, crashSpace)[8 * k..8 * k + 8]) == e.samples(agent, k).data
    ensures crashSpace % 2 == 1 ==> RawLog(e, agent, crashSpace)[4 * crashSpace - 4..] == [0, 0, 0, 0]
  {
    hide Bytes, WordBytes, LittleEndian;
    var words := Samples(e, agent, crashSpace / 2);
    BytesAt(words, k);
    SampleAt(e, agent, crashSpace / 2, k);
    WordBytesValue(words[k]);
    assert RawLog(e, agent, crashSpace)[8 * k..8 * k + 8] == Bytes(words)[8 * k..8 * k + 8];
  }

  /******* Storing *******/

  function GuidKey(uniqueId: Uint32): string { "agent_id_" + PrintHex(uniqueId) }

  /** getAgentName: the name of the first entry with the id, else the id in hexadecimal. */
  function AgentName(agentMap: seq<AgentInfo>, uniqueId: Uint32): string {
    if agentMap == [] then Digits(uniqueId, Sixteen)
    else if agentMap[0].guid == uniqueId then agentMap[0].sectionName
    else AgentName(agentMap[1..], uniqueId)
  }

  function RecordKey(e: Env, uniqueId: Uint32): string { "#data_" + AgentName(e.agentMap, uniqueId) }

  /** isCrashlogAgentEnabled together with isAgentExcluded and the size check. */
  predicate Eligible(e: Env, d: AgentDetails) {
    && d.crashSpace != 0
    && (exists i :: 0 <= i < |e.agentMap| && e.agentMap[i].guid == d.uniqueId && e.agentMap[i].enable)
    && d.uniqueId !in e.excluded
  }

  /** storeCrashlog: find or create the agent's object and append the record. */
  function StoredTree(e: Env, t: Item, agent: Uint16, d: AgentDetails): Item {
    var u := EnsureKid(t, GuidKey(d.uniqueId));
    AddAt(u, [GuidKey(d.uniqueId)], RecordKey(e, d.uniqueId), Leaf(LogText(e, agent, d.crashSpace)))
  }

  /** What one agent contributes. */
  function AfterAgent(e: Env, t: Item, agent: Uint16): Item {
    var d := DetailsOf(e.discovery(agent));
    if !Eligible(e, d) then t
    else if !AllDelivered(e, agent, d.crashSpace / 2) then Append(t, "_error", Leaf("Error collecting crashlog"))
    else StoredTree(e, t, agent, d)
  }

  predicate Extracted(e: Env, agent: Uint16) {
    var d := DetailsOf(e.discovery(agent));
    Eligible(e, d) && AllDelivered(e, agent, d.crashSpace / 2)
  }

  /** The tree after the agents below n. */
  function AfterAgents(e: Env, t: Item, n: Uint16): Item {
    if n == 0 then t else AfterAgent(e, AfterAgents(e, t, n - 1), n - 1)
  }

  function Prologue(e: Env, t: Item): Item {
    Append(t, "cpu_crashlog_enabled", Leaf(if e.cpuEnabled then "true" else "false"))
  }

  class Output {
    var tree: Item

    constructor (t: Item)
      ensures tree == t
    {
      tree := t;
    }

    method AddStringToObject(key: string, text: string)
      modifies this
      ensures tree == Append(old(tree), key, Leaf(text))
    {
      tree := Append(tree, key, Leaf(text));
    }

    /** storeCrashlog. The source asks that the encoded text fits its buffer. */
    method StoreCrashlog(e: Env, agent: Uint16, d: AgentDetails, raw: array<Byte>)
      requires d.crashSpace > 0 && Fits(d.crashSpace) && raw[..] == RawLog(e, agent, d.crashSpace)
      modifies this
      ensures tree == StoredTree(e, old(tree), agent, d)
    {
      hide Encode, Append, AddAt, Resolve, RawLog, Digits;
      var guid := GuidKey(d.uniqueId);
      tree := EnsureKid(tree, guid);
      ResolveKid(tree, guid);
      var buffer := new char[d.crashSpace * 4 * 2];
      Base64Encode(raw[..], EncodedSize(d.crashSpace), buffer);
      ghost var text := LogText(e, agent, d.crashSpace);
      NoTerminator(raw[..][..EncodedSize(d.crashSpace)]);
      var stored := ReadString(buffer, text);
      tree := AddAt(tree, [guid], RecordKey(e, d.uniqueId), Leaf(stored));
    }

    /** The loop of logCrashlogEBG over the agents; the trigger is re-armed when at least one
        log was extracted. */
    method LogCrashlog(e: Env, agents: Uint16) returns (rearm: bool)
      requires forall a: Uint16 :: a < agents && Eligible(e, DetailsOf(e.discovery(a))) ==>
                 Fits(DetailsOf(e.discovery(a)).crashSpace)
      modifies this
      ensures tree == AfterAgents(e, Prologue(e, old(tree)), agents)
      ensures rearm <==> exists a: Uint16 :: a < agents && Extracted(e, a)
    {
      hide DetailsOf, Prologue, StoredTree, Fits;
      ghost var start := Prologue(e, tree);
      LogEnabled(e);
      rearm := false;
      var agent: Uint16 := 0;
      while agent < agents
        invariant agent <= agents
        invariant tree == AfterAgents(e, start, agent)
        invariant rearm <==> exists a: Uint16 :: a < agent && Extracted(e, a)
      {
        var d := DetailsOf(e.discovery(agent));
        if Eligible(e, d) {
          var raw := new Byte[d.crashSpace * 4](_ => 0);
          assert raw[..] == Zeros(4 * d.crashSpace);
          var ok := CollectCrashlogForAgent(e, agent, d.crashSpace, raw);
          if !ok {
            AddStringToObject("_error", "Error collecting crashlog");
          } else {
            assert Extracted(e, agent);
            rearm := true;
            StoreCrashlog(e, agent, d, raw);
          }
        }
        agent := agent + 1;
      }
    }

    method LogEnabled(e: Env)
      modifies this
      ensures tree == Prologue(e, old(tree))
    {
      AddStringToObject("cpu_crashlog_enabled", if e.cpuEnabled then "true" else "false");
    }
  }

  /******* Whole runs *******/

  lemma ResolveKid(t: Item, key: string)
    requires Find(t, key).Some?
    ensures Resolve(t, [key]) == Find(t, key)
  {
  }

  lemma NoTerminator(s: seq<Byte>)
    ensures '\0' !in Encode(s)
  {
    hide Encode, CharValue;
    NoTerminatorInAlphabet();
    forall i | 0 <= i < |Encode(s)| ensures Encode(s)[i] != '\0' {
      PaddingOnlyAtEnd(s, i);
    }
  }

  lemma NoTerminatorInAlphabet()
    ensures CharValue('\0').None?
  {
  }

  /** Every eligible agent, and no other, adds exactly one value: its log or one error. */
  function Contributions(e: Env, n: Uint16): nat {
    if n == 0 then 0 else Contributions(e, n - 1) + if Eligible(e, DetailsOf(e.discovery(n - 1))) then 1 else 0
  }

  lemma LeavesAfterAgent(e: Env, t: Item, agent: Uint16)
    ensures Leaves(AfterAgent(e, t, agent)) == Leaves(t) + if Eligible(e, DetailsOf(e.discovery(agent))) then 1 else 0
  {
    hide DetailsOf, LogText, Digits, AgentName, Eligible, AllDelivered;
    var d := DetailsOf(e.discovery(agent));
    var key := GuidKey(d.uniqueId);
    LeavesAppend(t.kids, Field("_error", Leaf("Error collecting crashlog")));
    LeavesAppend(t.kids, Field(key, EMPTY));
    ResolveKid(EnsureKid(t, key), key);
    LeavesAddAt(EnsureKid(t, key), [key], RecordKey(e, d.uniqueId), Leaf(LogText(e, agent, d.crashSpace)));
  }

  lemma {:induction false} OneValuePerAgent(e: Env, t: Item, n: Uint16)
    ensures Leaves(AfterAgents(e, Prologue(e, t), n)) == Leaves(t) + 1 + Contributions(e, n)
  {
    hide AfterAgent, DetailsOf, Eligible, Extracted;
    if n == 0 {
      LeavesAppend(t.kids, Field("cpu_crashlog_enabled", Leaf(if e.cpuEnabled then "true" else "false")));
    } else {
      OneValuePerAgent(e, t, n - 1);
      LeavesAfterAgent(e, AfterAgents(e, Prologue(e, t), n - 1), n - 1);
    }
  }

  /** The agent's object holds a record. */
  predicate HasRecord(t: Item, key: string, record: Field) {
    Find(t, key).Some? && record in Find(t, key).value.kids
  }

  lemma AppendKeepsRecord(t: Item, k: string, child: Item, key: string, record: Field)
    requires HasRecord(t, key, record)
    ensures HasRecord(Append(t, k, child), key, record)
  {
    FindAppend(t, k, child, key);
  }

  /** Adding a record under one agent's key keeps all others and gains this one. */
  lemma AddRecord(t: Item, k: string, name: string, leaf: Item, key: string, record: Field)
    requires HasRecord(t, key, record) || (key == k && record == Field(name, leaf))
    ensures HasRecord(AddAt(EnsureKid(t, k), [k], name, leaf), key, record)
  {
    var u := EnsureKid(t, k);
    var kid := Find(u, k).value;
    assert [k][1..] == [];
    var grown := Append(kid, name, leaf);
    assert AddAt(u, [k], name, leaf) == Replace(u, k, grown);
    FindReplace(u, k, grown, key);
    if key == k {
      assert grown.kids[|kid.kids|] == Field(name, leaf);
      if HasRecord(t, key, record) {
        var i :| 0 <= i < |kid.kids| && kid.kids[i] == record;
        assert grown.kids[i] == record;
      }
    } else {
      FindEnsureKid(t, k, key);
    }
  }

  /** The record of an agent whose log was extracted. */
  function Record(e: Env, agent: Uint16): Field {
    var d := DetailsOf(e.discovery(agent));
    Field(RecordKey(e, d.uniqueId), Leaf(LogText(e, agent, d.crashSpace)))
  }

  function AgentKey(e: Env, agent: Uint16): string { GuidKey(DetailsOf(e.discovery(agent)).uniqueId) }

  /** Every extracted log is in the final tree under its agent, whatever the later agents do
      and also when several agents share an id. */
  lemma {:induction false} ExtractedLogsAreStored(e: Env, t: Item, n: Uint16, agent: Uint16)
    requires agent < n && Extracted(e, agent)
    ensures HasRecord(AfterAgents(e, t, n), AgentKey(e, agent), Record(e, agent))
  {
    hide DetailsOf, HasRecord, LogText, Digits, AgentName, Eligible, AllDelivered;
    var u := AfterAgents(e, t, n - 1);
    var d := DetailsOf(e.discovery(n - 1));
    if agent < n - 1 {
      ExtractedLogsAreStored(e, t, n - 1, agent);
    }
    if Eligible(e, d) {
      if AllDelivered(e, n - 1, d.crashSpace / 2) {
        AddRecord(u, GuidKey(d.uniqueId), RecordKey(e, d.uniqueId), Leaf(LogText(e, n - 1, d.crashSpace)),
                  AgentKey(e, agent), Record(e, agent));
      } else {
        AppendKeepsRecord(u, "_error", Leaf("Error collecting crashlog"), AgentKey(e, agent), Record(e, agent));
      }
    }
  }

  /******* Which agents, and what becomes of them *******/

  /** The call succeeded with an acceptable code. */
  predicate IsGood(a: Answer) {
    a.ret == PECI_CC_SUCCESS && (a.cc == PECI_DEV_CC_SUCCESS || a.cc == PECI_DEV_CC_FATAL_MCA_DETECTED)
  }

  /** The id and the space (in DWORDs) in the discovery answer. */
  function IdOf(a: Answer): Uint32 { a.data / 0x1_0000 % 0x1_0000_0000 }
  function SpaceOf(a: Answer): Uint16 { a.data / 0x1_0000_0000_0000 }

  /** The input file enables the id, in any entry, and does not exclude it. */
  predicate IsWanted(e: Env, id: Uint32) {
    && (exists i :: 0 <= i < |e.agentMap| && e.agentMap[i].guid == id && e.agentMap[i].enable)
    && forall i :: 0 <= i < |e.excluded| ==> e.excluded[i] != id
  }

  /** The name of the first entry with the id; the id itself if there is none. */
  predicate IsName(e: Env, id: Uint32, name: string) {
    || (name == Digits(id, Sixteen) && forall i :: 0 <= i < |e.agentMap| ==> e.agentMap[i].guid != id)
    || exists i :: 0 <= i < |e.agentMap| && e.agentMap[i].guid == id && e.agentMap[i].sectionName == name
                   && forall j :: 0 <= j < i ==> e.agentMap[j].guid != id
  }

  lemma {:induction false} NameLaw(e: Env, from: nat, id: Uint32)
    requires from <= |e.agentMap| && forall i :: 0 <= i < from ==> e.agentMap[i].guid != id
    ensures IsName(e, id, AgentName(e.agentMap[from..], id))
    decreases |e.agentMap| - from
  {
    hide Digits;
    if from < |e.agentMap| && e.agentMap[from].guid != id {
      assert e.agentMap[from..][1..] == e.agentMap[from + 1..];
      NameLaw(e, from + 1, id);
    }
  }

  /** What one agent makes of the tree, by its discovery answer and its samples: nothing unless the
      answer is good, names some space, and its id is enabled and not excluded; one error if a
      sample was not delivered; else the record of its whole log, under its id and its name. */
  ghost predicate AgentLaw(e: Env, t: Item, agent: Uint16, u: Item) {
    var a := e.discovery(agent);
    var id, space := IdOf(a), SpaceOf(a);
    if !IsGood(a) || space == 0 || !IsWanted(e, id) then u == t
    else if exists k: Uint16 :: k < space / 2 && !IsGood(e.samples(agent, k)) then
      u == Append(t, "_error", Leaf("Error collecting crashlog"))
    else
      && Leaves(u) == Leaves(t) + 1
      && exists name: string ::
           IsName(e, id, name)
           && HasRecord(u, "agent_id_0x" + Digits(id, Sixteen),
                        Field("#data_" + name, Leaf(LogText(e, agent, space))))
  }

  lemma GoodIsNotFailed(a: Answer)
    ensures IsGood(a) <==> !a.Failed()
  {
  }

  lemma EligibleLaw(e: Env, agent: Uint16)
    ensures var a := e.discovery(agent);
            && (Eligible(e, DetailsOf(a)) <==> IsGood(a) && SpaceOf(a) != 0 && IsWanted(e, IdOf(a)))
            && (IsGood(a) ==> DetailsOf(a).crashSpace == SpaceOf(a) && DetailsOf(a).uniqueId == IdOf(a))
  {
    hide IsGood, Unacceptable;
    GoodIsNotFailed(e.discovery(agent));
  }

  lemma DeliveredLaw(e: Env, agent: Uint16, n: Uint16)
    ensures AllDelivered(e, agent, n) <==> !exists k: Uint16 :: k < n && !IsGood(e.samples(agent, k))
  {
    hide IsGood, Answer.Failed;
    forall k: Uint16 ensures IsGood(e.samples(agent, k)) <==> !e.samples(agent, k).Failed() {
      GoodIsNotFailed(e.samples(agent, k));
    }
  }

  lemma AgentObeysLaw(e: Env, t: Item, agent: Uint16)
    ensures AgentLaw(e, t, agent, AfterAgent(e, t, agent))
  {
    hide DetailsOf, LogText, Digits, AgentName, Eligible, AllDelivered, IsGood, IsWanted, HasRecord, IdOf, SpaceOf;
    var a := e.discovery(agent);
    var d := DetailsOf(a);
    EligibleLaw(e, agent);
    if Eligible(e, d) {
      DeliveredLaw(e, agent, d.crashSpace / 2);
      if AllDelivered(e, agent, d.crashSpace / 2) {
        LeavesAfterAgent(e, t, agent);
        AddRecord(t, GuidKey(d.uniqueId), RecordKey(e, d.uniqueId), Leaf(LogText(e, agent, d.crashSpace)),
                  GuidKey(d.uniqueId), Record(e, agent));
        assert e.agentMap[0..] == e.agentMap;
        NameLaw(e, 0, d.uniqueId);
        assert GuidKey(d.uniqueId) == "agent_id_0x" + Digits(d.uniqueId, Sixteen) by { KeyLaw(d.uniqueId); }
      }
    }
  }

  lemma KeyLaw(id: Uint32)
    ensures GuidKey(id) == "agent_id_0x" + Digits(id, Sixteen)
  {
    hide Digits;
    assert "agent_id_" + ("0x" + Digits(id, Sixteen)) == "agent_id_0x" + Digits(id, Sixteen);
  }

  /** Over a whole run every agent obeys its law, on the tree that the agents before it have left;
      and the run begins by telling whether crash logs are enabled. */
  lemma AgentsObeyLaws(e: Env, t: Item, agent: Uint16)
    requires agent < 0xFFFF
    ensures AgentLaw(e, AfterAgents(e, Prologue(e, t), agent), agent, AfterAgents(e, Prologue(e, t), agent + 1))
    ensures AfterAgents(e, Prologue(e, t), 0).kids ==
            t.kids + [Field("cpu_crashlog_enabled", Leaf(if e.cpuEnabled then "true" else "false"))]
  {
    hide AgentLaw, AfterAgent;
    AgentObeysLaw(e, AfterAgents(e, Prologue(e, t), agent), agent);
  }
}
