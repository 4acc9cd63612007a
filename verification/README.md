# Crash dump collector: a model and its guarantees

The collector runs on a baseboard management controller. After a processor error it asks the
sockets for their state over PECI, writes what it gets into a JSON tree, and keeps the resulting
logs. This project models the parts that decide what ends up in a log, and proves what holds of
them for every sequence of bus answers and every clock.

* **The section engine** (`engine/flow.c`, `inputparser.c`, `cmdprocessor.c`, `logger.c`) is an
  interpreter for programs in the input file. `Flow` is its state machine: a section run is a
  fixed schedule of operations. `SectionEngine` is the program: objects changed in place, tied
  to `Flow` method by method. `FlowTraces`, `FlowTheorems`, `FlowReports` and `SectionTheorems`
  hold the guarantees: deadlines, skip phases, template resolution, completeness. `FlowEntries`,
  `RunLaws`, `CommandLaws` and `SectionLaws` say what entries read, what steps and commands do,
  and what a section schedules, in terms of names and numbers of the input. Beneath them stand
  `Json`, `Logger` and `LoggerLaws` (the tree), `CmdInOut`, `InputParser` and `Commands`
  (parameters, variables and commands) and `Clock`.
* **Big-core collection** (`engine/BigCore.c`, parts of `utils.c`): `BigCoreSweep` is the retry
  sweep over cores and threads, `BigCoreCollector` runs it in place, `SweepTheorems` proves it
  safe, `SweepRetries` and `SweepOutcomes` say when it starts over and what codes decide,
  `SweepLimits` what its time limits stop, `SweepDelivery` which of the values shown the bus
  delivered, `CrashedCores` what is left to a later core loop. `DecodeMap` is the decode table
  with its size cache, `RegisterDump`, `ThreadDump` and `DumpLaws` the decoder, `DataString` and
  `Memory` the printing of slices.
* **Crash logs and TOR** (`engine/Crashlog.c`, `base64Encode.c`, `TorDump.c`): `Base64`,
  `Crashlog`, `TorDump`.
* **Service state** (`crashdump.cpp`): `LogStore` (stored-log rotation), `CpuDiscovery`,
  `DiscoveryTheorems`, `DiscoveryExactly` and `DiscoveryFamilies` (socket discovery); `Models`
  names the processor models.

Conventions. A cJSON object is an ordered list of children, appended to, looked up by first
match; an item pointer is the key path that reaches it. PECI answers and clock readings are
arbitrary functions of their position in the run. Codes of the PECI library are constants; only
their being different matters. Limits and masks have the source's widths; 64-bit and 32-bit
arithmetic is written out where it can wrap.

What the code does that one might not expect, each a proved statement with its exact condition:

* A variable named like a hex literal breaks template resolution, and nothing else does
  (`RewritingRefinesResolver`, `LiteralCaptured`).
* The skip flag set by a prerequisite also skips the first CHA or core, but no later one
  (`SectionPhases`, `FirstVisitSkipped`, `FailedPrerequisiteSkips`).
* Without MaxCollectionSec big-core collection ignores the global limit too; with it, it is kept
  (`GlobalLimitKeptExactly`, `GlobalLimitIgnored`). Header frames are never checked against any
  limit (`HeaderComesFirst`, `HeadersAreNotChecked`).
* The registers of a thread cut short by the limit look complete: those never read are shown as
  0x0 without error text; only an abort note is kept beside them (`ShowsOnlyReadExactly`,
  `LimitCutsUnmarked`).
* A failed last frame counts as read, and a bad code that is passed over is forgotten with the
  next frame: in both cases registers that were not delivered are shown without error text
  (`ShowsOnlyDeliveredExactly`, `FailedFrameShown`, `PassedOverShown`).
* Masks and counts stay those of the family the socket was taken for when they were read: Ice
  Lake while nothing was known of it, its donor's while it was overwritten (`RightFamilyIff`,
  `UnknownSocketKeepsIceLake`, `OverwrittenSocketKeepsDonors`).
* A log of one DWORD does not fit its text buffer, and one above 0x3FFF DWORDs is encoded only in
  part (`FitsExceptOne`, `StoredTextDecodes`).
* A size of zero, or a foreign `_size`, makes the size cache grow at every call
  (`SecondCallIsQuiet`).

`dafny verify dfyconfig.toml` checks everything.

## Model

| member | source | states |
|---|---|---|
| `Numerals.ParsePrintHex` | engine/cmdprocessor.c:31-50 | a 64-bit value printed with 0x%llx and parsed again with strtoull is unchanged; the engine relies on it for internal variables and for the size cache |
| `Numerals.DigitsInjective` | engine/logger.c:128-236 | printed loop indices identify the index, so substituted path tokens do |
| `Numerals.ToDoubleExact` | engine/inputparser.c:93-104 | which 64-bit values survive becoming a JSON number (a double): exactly the multiples of the local spacing, and all below 2^53 |
| `Json.ResolveEnsurePath` | engine/logger.c:128-236 | find-or-create along a path: what every other path resolves to afterwards, in full - a path that is not a prefix of it resolves as before, and items on the path keep their content |
| `Json.EnsureIdempotent` | engine/logger.c:128-236 | creating the same path, or a prefix of it, a second time changes nothing |
| `Json.EnsureOneMore` | engine/logger.c:128-236 | the level-by-level lookup and append of the loop is find-or-create of the longer path |
| `Json.ResolveAddAt` | engine/logger.c:297-402 | appending an entry leaves every path that does not run through its parent alone, and an older child of the same name keeps hiding the new one |
| `Json.LeavesAddAt` | engine/logger.c:297-402 | an append adds exactly the values of the child, wherever it happens |
| `Json.LeavesEnsurePath` | engine/logger.c:128-236 | creating a path creates no values |
| `Logger.OutputTree.GenerateJsonPath` | engine/logger.c:128-236 | returns the item at the substituted path (cut at RootAtLevel for section-wide values, extended by the extra level for registers), which then resolves; the tree changes by find-or-create along it and nothing else |
| `Logger.OutputTree.LogOnce` | engine/logger.c:442-492 | the version and the record-disabled entry are written at the root path only if the key is not there yet |
| `Logger.RootIsAncestor` | engine/logger.c:52-77 | the root path is a prefix of every register path of the section, and needs no creation once a register has been logged |
| `Logger.OnceIsIdempotent` | engine/logger.c:442-492 | section-wide entries are written once, the first value stays, and at most one value is added |
| `Logger.LogEffect` | engine/logger.c:404-417 | logging one register: diverging paths are untouched, nothing becomes unreachable, exactly one value is added, last in its parent |
| `Logger.CpuPathsDiverge` | engine/logger.c:128-236 | different cpu indices give diverging paths as soon as the template has a cpu%d token |
| `Logger.CpuSubtreesDisjoint` | engine/logger.c:128-236 | a value logged for one socket changes nothing below the cpu%d level of another |
| `Logger.GrowEffect` | engine/cmdprocessor.c:884-905 | what a command adds below the item it was handed touches no diverging path, loses nothing, and adds exactly its values |
| `LoggerLaws.PathsShowContexts` | engine/logger.c:128-236 | a placeholder token shows the index it is named after, in decimal, so two contexts share a level exactly if they share that index; the extra level comes last |
| `LoggerLaws.RootIsCut` | engine/logger.c:128-147 | the root path is the register path cut at RootAtLevel, if it has so many levels |
| `LoggerLaws.RegisterNameLaw` | engine/logger.c:238-293 | a register name with one placeholder shows the cha, core, cpu or thread index of the word before it, or else the number of the repeat |
| `LoggerLaws.OnceIsThere` | engine/logger.c:442-492 | a section-wide value that was missing is found under its key afterwards; one that was there stays |
| `CmdInOut.LookupAppend` | engine/inputparser.c:93-104 | variables are looked up by first match, so appending never changes a bound name |
| `InputParser.UpdateParams` | engine/inputparser.c:85-169 | the in-place loop leaves the resolved list, tracks exactly the replaced names and positions, and keeps the last string operand |
| `InputParser.TextsStandFor` | engine/inputparser.c:93-169 | Target stands for the address, CHA for the cha index, Core for the core index, (CORE*2)+THREAD for 2 * core + thread, a hex literal for its value, other text for itself; a variable of that name comes first |
| `InputParser.ResetParams` | engine/inputparser.c:74-83 | the tracked positions, and no others, hold their text again |
| `InputParser.UpdateThenReset` | engine/inputparser.c:74-169 | update then reset restores the list except for hex literals that named no variable, which have become their own number - also when a placeholder occurs twice |
| `InputParser.AfterVisitsAt` | engine/inputparser.c:74-169 | after any number of visits the shared list differs from the original exactly in the literals that some visit found unbound |
| `InputParser.RewritingRefinesResolver` | engine/inputparser.c:74-169 | over any sequence of contexts and variables every visit runs with the parameters a pure resolver computes from the original list, if and only if no variable captures a literal that was already evaluated |
| `InputParser.LiteralCaptured` | engine/inputparser.c:74-169 | such a capture exists: the literal 0x1, evaluated in one visit and bound in the next, yields 1 where the resolver yields 2 |
| `InputParser.VisitRefines` | engine/inputparser.c:74-169 | the step form for inputs whose variables have plain names: one visit resolves correctly and keeps the shared list equivalent to the original |
| `Commands.UpdateInternalVar` | engine/cmdprocessor.c:31-50 | a named command appends its printed value, 64-bit or truncated to 32 bits by the size of the result |
| `Commands.RdAndConcatenate` | engine/cmdprocessor.c:908-946 | the command changes the output record and the variables as the effect function says, whose meaning is ConcatenationOfVariables |
| `Commands.RdPostEnumBus` | engine/cmdprocessor.c:563-614 | likewise, with meaning PostEnumBusOfVariables |
| `Commands.RdChaCount` | engine/cmdprocessor.c:616-653 | the number of set bits of both masks, in the low byte of the result |
| `Commands.Execute` | engine/cmdprocessor.c:1125-1202 | dispatch by name over the command table; an unknown name changes nothing |
| `CommandLaws.StepsDoAsNamed` | engine/cmdprocessor.c:1125-1202 | every executed step of every run does what its command is named for: which names store the bus answer, always, only on success or never, which compute and what, which dump, and that any other name changes nothing; a free variable name is bound to the text of the result |
| `CommandLaws.PopcountCounts` | engine/cmdprocessor.c:616-653 | the bit count is the number of set bits |
| `CommandLaws.DumpsAreNamed` | engine/cmdprocessor.c:763-785 | the dumping commands are LogBigCore, LogTor and LogCrashlog, and they dump at the path of the tokens and the extra level |
| `CommandLaws.RegistersArePlaced` | engine/logger.c:404-417 | repeat n of a named command puts its register there, under the name with its number filled in |
| `Commands.FirstStoreWins` | engine/cmdprocessor.c:31-50 | a command only appends to the variables, so a name keeps its first value |
| `Commands.StoredValueAsParameter` | engine/inputparser.c:93-104 | a stored value comes back as a numeric parameter unchanged if and only if a double can hold it; every value below 2^53 does |
| `Commands.ValueIntClips` | engine/cmdprocessor.c:563-614 | read through valueint a 32-bit value survives only below 2^31 |
| `Commands.ConcatenationOfVariables` | engine/cmdprocessor.c:908-946 | RdAndConcatenate over two stored 32-bit variables yields high * 2^32 + low, whatever else was stored, and binds its name to it unless that was bound before |
| `Commands.PostEnumBusOfVariables` | engine/cmdprocessor.c:563-614 | RdPostEnumBus over two stored variables yields the byte at the shift if the valid bit is set, else zero, and binds its name to it likewise |
| `Clock.CalculateTimeRemainingFromStart` | engine/utils.c:490-509 | the remaining time is zero exactly when elapsed nanoseconds have reached the limit, for every rounding of the floating-point division and every 32-bit limit, without 64-bit overflow |
| `Clock.GetTimeRemainingFromStart` | engine/utils.c:531-540 | the remaining whole seconds: never fewer than are left, exact below 2^53 ns, at most two more beyond |
| `Clock.QuotientTruncates` | engine/utils.c:490-509 | below 2^53 ns truncating the nearest double of ns / 1e9 gives the exact seconds |
| `Clock.CheckMaxTimeElapsed` | engine/utils.c:511-524 | ABORTED exactly when elapsed time >= maxTime * 10^9 ns |
| `SectionEngine.Engine.LogValue` | engine/logger.c:297-402 | one register entry as the state machine of Flow says, whose entries read what FlowEntries.LogValueReads and RunReportsAll state |
| `FlowEntries.LogValueReads` | engine/logger.c:297-402 | due notes, then one entry: the waiting string, else N/A if skipped, else the text of the value cut to its size |
| `FlowEntries.ValueTextShows` | engine/logger.c:353-400 | the text of an executed result: the codes behind 0x0 if the call failed, the value and the codes if it is unacceptable, else a hexadecimal number of that value with the digits of its size when zero-padded |
| `SectionEngine.Engine.RepeatOnce` | engine/flow.c:67-101 | one repeat as the state machine says: both deadlines checked, executed unless skipping, logged if named, skip flag set by a failure with SkipOnFail; RunObeysLaws says what executing means |
| `SectionEngine.Engine.GrowIfDump` | engine/cmdprocessor.c:884-905 | an executed LogBigCore, LogTor or LogCrashlog finds or creates the item at its register path and hands it to the part that fills it |
| `SectionEngine.Engine.LogVersion` | engine/logger.c:442-471 | the version entry at the root path, written once, through the output record of the main commands, which it overwrites |
| `SectionEngine.Engine.ProcessCommand` | engine/flow.c:45-103 | a command resolves its shared parameter list in place, repeats, and restores it; the whole state is that of Flow.Process |
| `RunLaws.RunObeysLaws` | engine/flow.c:45-103 | over every schedule: a command runs as often as its Repeat says; the record begins as an invalid request with the last text as string operand; every step that is not skipped has the effect of its command on the parameters, the record and variables before it and the next answer, and succeeded exactly if its record says so; each step goes on where the one before left off |
| `RunLaws.VersionRecord` | engine/logger.c:450-456 | the record that the section commands begin with after the version entry |
| `SectionEngine.Engine.ProcessPECICmds` | engine/flow.c:22-107 | the command loop runs the schedule of its commands |
| `SectionEngine.Engine.LoopOnCHA` | engine/flow.c:207-216 | the CHA loop runs one visit per CHA and clears the skip flag after each |
| `SectionEngine.Engine.LoopOnCore` | engine/flow.c:217-243 | the core loop visits the set bits of the core mask, without cores that are crashed when it comes to them when asked, all threads of a core before the flag is cleared |
| `SectionEngine.Engine.RunSection` | engine/flow.c:199-249 | a section run is the run of its schedule from the reset state: version entry, prerequisites, then the loop, with the variables of the prerequisites and, for each executed dump command, what it adds below its own path |
| `SectionEngine.Engine.FillNewSection` | engine/flow.c:109-262 | RecordEnable decides between nothing, the disabled entry, and a section run |
| `FlowTheorems.ProgressRun` | engine/flow.c:22-107 | over every schedule both limits are obeyed, variables are only appended, and the tree is the old one with the recorded values and dumps added in order |
| `FlowTheorems.PhaseShape` | engine/flow.c:84-101 | within one phase the outcomes are executed commands then only skipped ones; with SkipOnFail every executed one but the last has succeeded |
| `FlowTheorems.RunResolved` | engine/flow.c:45-103 | over every schedule each executed command had the parameters its original template resolves to in its own context, and the shared input stays intact |
| `Flow.LoggedTextDenotesValue` | engine/logger.c:366-400 | the text of a successful result, zero-padded or not, reads back as its value |
| `FlowTraces.LogValueAdds` | engine/logger.c:297-402 | what logging adds: the notes that are due, then exactly one entry, N/A when skipped |
| `FlowReports.RunReportsAll` | engine/flow.c:41-106 | a run adds exactly one entry per repeat of every named command, at the scheduled path and name, in order, with the outcome of its own repeat, and reading what that repeat left: its value cut to size, its codes, its waiting string, or N/A; every note names its socket, section and limit |
| `FlowReports.NotesRun` | engine/logger.c:322-352 | at most one note per limit and section run: one exactly when a named repeat saw the limit reached |
| `FlowReports.DumpsRun` | engine/flow.c:67-101 | over every schedule the dumps are exactly those of the executed dump commands: each such step is directly followed by its dump, at the path of that command in that context, and nothing else is dumped |
| `SectionTheorems.SectionStopsAtDeadline` | engine/flow.c:67-87 | once a check has seen the section or the global limit reached nothing more is executed in the section, although the skip flag is cleared after every CHA and core |
| `SectionTheorems.GlobalDeadline` | engine/flow.c:109-262 | once the global limit has been seen reached nothing is executed in any later section or for any later socket |
| `SectionTheorems.VariablesStay` | engine/cmdprocessor.c:31-50 | a variable keeps the value of its first store for the rest of the section |
| `SectionTheorems.SectionIsComplete` | engine/flow.c:199-249 | a section run reports every owed register exactly once and in order; the tree gains exactly these values, the notes, and for every executed dump command what it adds at its own path - none without such commands |
| `SectionTheorems.OwedBySection` | engine/flow.c:199-249 | the number of owed entries: named repeats of the prerequisites once, those of the body once per CHA, core or thread visited |
| `SectionTheorems.VisitedCores` | engine/flow.c:219-242 | a core is visited exactly when its mask bit is set and it is not left out as crashed, and never twice |
| `SectionLaws.VisitsAre` | engine/flow.c:207-243 | with LoopOnCHA one visit per CHA in order; else with LoopOnCore one per wanted core, ascending, with threads 0 and 1 under LoopOnThread; else the section as a whole |
| `SectionLaws.ScheduleIs` | engine/flow.c:199-249 | the prerequisites once, in the context of the section, then the change to its own record |
| `SectionLaws.ScheduleAt` | engine/flow.c:207-249 | the loop body position by position: every command in every context of every visit |
| `SectionLaws.ClearsAt` | engine/flow.c:215-242 | each visit ends with the clearing of the skip flag |
| `SectionTheorems.SectionPhases` | engine/flow.c:202-249 | each visit is one phase and every later one starts with a cleared flag; the first shares its phase with the prerequisites, after which the flag is not cleared |
| `SectionTheorems.FirstVisitSkipped` | engine/flow.c:202-249 | the first visit starts with the skip flag set, and is then skipped as a whole, if and only if some repeat of a prerequisite was skipped or, with SkipOnFail, failed |
| `SectionTheorems.FailedPrerequisiteSkips` | engine/flow.c:202-249 | that happens: one failed prerequisite, before any limit is reached, skips the first visit |
| `SectionTheorems.SectionResolves` | engine/flow.c:109-262 | template resolution over a whole section run, with the input left ready for the next socket |
| `SectionLaws.SectionReplaces` | engine/flow.c:22-107 | over a whole section every scheduled command has as many steps as repeats, in its own context, doing what it is named for, with every original parameter replaced by what it stands for |
| `SectionLaws.ChaStepsSee` | engine/inputparser.c:120-134 | in visit k of the CHA loop every CHA placeholder is k and every Target the address |
| `SectionLaws.CoreStepsSee` | engine/inputparser.c:135-150 | in the visit of a core every Core placeholder is its index, and (CORE*2)+THREAD twice it plus the thread |
| `SectionTheorems.SocketsAreIsolated` | engine/flow.c:109-262 | a section run for one socket, dumps included, leaves everything below another cpu%d level as it was |
| `DataString.GetJsonDataString` | engine/BigCore.c:120-152 | the buffer holds exactly the little-endian number of the slice in hexadecimal without leading zero bytes, or the too-small message; every write stays inside; -1 and no change when data is missing |
| `DataString.SliceTextDenotesValue` | engine/BigCore.c:120-152 | the digits denote the value of the slice, and up to eight bytes the text parses back to it |
| `DataString.SliceTextInjective` | engine/BigCore.c:120-152 | slices of equal length print alike only if they are equal |
| `Memory.WordBytesValue` | engine/BigCore.c:598-606 | the eight bytes of a qword read back as it |
| `DecodeMap.InputFile.GetValidBigCoreMap` | engine/utils.c:178-207 | finds the first entry that lists the version |
| `DecodeMap.InputFile.IsBigCoreRegVersionMatch` | engine/utils.c:138-176 | true exactly when getValidBigCoreMap finds an entry |
| `DecodeMap.InputFile.GetTotalInputRegsSize` | engine/BigCore.c:61-109 | the remembered size when it is not zero, else the sum, which is then appended as a new _size child |
| `DecodeMap.CoherentIffTransparent` | engine/BigCore.c:61-109 | the memory never changes an answer if and only if every remembered size is the right one |
| `DecodeMap.CacheIsTransparent` | engine/BigCore.c:61-109 | over any sequence of calls for any versions, also versions sharing an entry, every call returns the uncached sum |
| `DecodeMap.SecondCallIsQuiet` | engine/utils.c:260-274 | exactly when the second call stops writing to the input: a non-zero size and no unusable _size child in the way |
| `RegisterDump.DumpRegisters` | engine/BigCore.c:233-316 | the loop emits the logged registers before the stop, one error entry if a failed frame is the reason, and returns their end or the whole size |
| `RegisterDump.FailureShowsPrefix` | engine/BigCore.c:233-316 | after a failed frame a logged register is shown if and only if it ends within the bytes the frames cover |
| `ThreadDump.FailedDump` | engine/BigCore.c:233-342 | after a failed frame, when a logged register ends behind the bytes covered: the registers before it, one error entry, and then neither registers nor queues |
| `RegisterDump.CompleteDump` | engine/BigCore.c:233-316 | without a failed frame every register of a fitting list is reached |
| `RegisterDump.ShowsOnlyReadExactly` | engine/BigCore.c:233-316 | every value shown without error text ends within the frames read, to which a failed last frame counts, if and only if the last frame failed or all logged registers do |
| `RegisterDump.ShowsOnlyBeforeFailure` | engine/BigCore.c:233-316 | after a failed frame every value shown without error text ends before that frame if and only if no logged register ends inside it |
| `DumpLaws.StopLaw` | engine/BigCore.c:260-312 | the dump stops at the first register that does not fit, or is logged, ends behind the frames read, and the last of them failed |
| `DumpLaws.ValueAt` | engine/BigCore.c:266-313 | logged register k stands behind the logged ones before it, with its own name and the number its bytes denote |
| `DumpLaws.RegistersLaw` | engine/BigCore.c:233-316 | the values before the stop, then at most one entry, for the register at the stop, with its name and the codes |
| `RegisterDump.RegistersTileTheSection` | engine/BigCore.c:504-511 | when the summed sizes equal regDumpSize the slices are consecutive, disjoint and cover exactly that section, if and only if the 32-bit sum did not wrap |
| `RegisterDump.SlicesTile` | engine/BigCore.c:266-313 | the slices one behind the other are the front of the buffer |
| `ThreadDump.LogQueue` | engine/BigCore.c:344-357 | although the bound may be the byte size, exactly one entry per remaining qword is emitted, at consecutive offsets, and the index stays inside the buffer |
| `ThreadDump.LogRaw` | engine/BigCore.c:194-211 | the same for raw entries |
| `ThreadDump.DumpQueuesICX` | engine/BigCore.c:344-380 | 64 SQ entries when 512 bytes are left, else the unexpected size and floor(rest / 8) raw entries; nothing when limited or used up |
| `ThreadDump.DumpQueuesSPR` | engine/BigCore.c:409-453 | 48 SQD then 48 SQS entries when 768 bytes are left, else raw entries under SQD |
| `ThreadDump.RawdumpJson` | engine/BigCore.c:488-501 | one entry per whole qword from the start, named by byte offset |
| `ThreadDump.StoreThread` | engine/BigCore.c:693-731 | decoded by the layout of the model or raw (at most 0x7f8 bytes), as the decode table says, with the bytes covered by the frames deciding what is shown |
| `DumpLaws.StoredObeys` | engine/BigCore.c:693-731 | what is stored, entry by entry: registers and queues of a decoded thread, nothing behind an early stop; else its qwords named by byte offset, at most 2040 bytes |
| `DumpLaws.QueuesObey` | engine/BigCore.c:344-453 | behind the registers: 64 entries named SQ for the Ice Lake models if 512 bytes are left, 48 SQD and 48 SQS for the Sapphire Rapids ones if 768 are; else the size and raw qwords; each entry numbered and denoting its own eight bytes |
| `DumpLaws.UncachedLaw` | engine/BigCore.c:61-109 | the size of a version is the 32-bit sum of its eight-bit register sizes, and two without an entry or a list |
| `ThreadDump.DecodedTilesTheSection` | engine/BigCore.c:504-511 | with a coherent memory data is decoded exactly when the version is listed and the plain sum is regDumpSize, and the registers then tile that section |
| `ThreadDump.EveryByteOnce` | engine/BigCore.c:318-381 | register slices followed by queue entries show every byte once, up to fewer than eight at the end |
| `ThreadDump.DumpDeterminesData` | engine/BigCore.c:318-454 | two buffers of equal size with equal complete dumps are equal up to at most seven bytes at the end, which no entry shows; for either model |
| `BigCoreSweep.CoresToCollect` | engine/BigCore.c:867-874 | anything is collected only when MaxCollectionCores is 1 to 127 in its low byte |
| `BigCoreSweep.CollectionLimit` | engine/BigCore.c:876-885 | no limit without MaxCollectionSec, not even the global one; else the lesser of MaxCollectionSec and what remains of the global time |
| `BigCoreSweep.HeaderFields` | engine/BigCore.h:111-120 | version and section sizes are the header frame side by side |
| `BigCoreSweep.BitSetBit` | engine/BigCore.c:608-609 | setting a bit sets that bit and no other |
| `BigCoreCollector.BigCore.FillBuffer` | engine/BigCore.c:616-675 | the frame loop fills the zeroed buffer in place as the state machine reads frames |
| `BigCoreCollector.BigCore.QueryForCrashDataForThread` | engine/BigCore.c:560-745 | one thread: header, frames until data, a code or the limit ends them, the fourth qword, storing, and the status in the order of the source |
| `BigCoreCollector.BigCore.CollectThreads` | engine/BigCore.c:897-926 | the thread loop with its five outcomes and the decrement for a success on thread 0 |
| `BigCoreCollector.BigCore.CollectCores` | engine/BigCore.c:890-932 | the core loop over the set bits, ended early by a halt or by the number of cores |
| `BigCoreCollector.BigCore.IsMaxTimeElapsed` | engine/BigCore.c:547-558 | true exactly when MaxWaitSec has passed since the crash dump started |
| `BigCoreCollector.BigCore.LogCrashdump` | engine/BigCore.c:842-936 | the retry loop terminates for every clock that eventually passes MaxWaitSec, and the run is that of the state machine, which starts over exactly as RetriesExactly says |
| `SweepTheorems.CollectionIsSafe` | engine/BigCore.c:842-936 | for all answers and clocks: crashed cores are the initial ones plus exactly those with an accepted header, inside coreMask; headers are accepted only in the last sweep; at most MaxCollectionCores are counted; after a skip-socket code or a reached limit no frame is read; everything stored is what the decode table without its memory makes of the data, if that memory was right to begin with |
| `SweepTheorems.SweepVisitsInOrder` | engine/BigCore.c:888-932 | a sweep asks the enabled cores in ascending order, each once, and omits one only when halted or when enough were collected |
| `SweepRetries.RetriesExactly` | engine/BigCore.c:886-933 | for all answers and clocks: a sweep starts over only directly after a check that MaxWaitSec has not passed, in a run that has to wait and has accepted no header; a collection ends only stopped, with a header accepted, without having to wait, or at a check that MaxWaitSec has passed |
| `SweepOutcomes.RetrySucceeds` | engine/BigCore.c:886-933 | a run of two sweeps: the core asks for a retry, then delivers, is stored and marked |
| `SweepOutcomes.QueryLaw` | engine/BigCore.c:560-745 | what the codes of the frames of a thread decide, one by one: error, next core, next socket, time up or success; how many frames are read; and the core, version and number of bytes stored |
| `SweepOutcomes.ThreadsOfCore` | engine/BigCore.c:897-926 | the second thread is asked exactly if the first did not end its core or socket and says that there is one |
| `SweepOutcomes.SizeLaw` | engine/BigCore.c:513-524 | the bytes of a thread: both sections of the header frame, and 32 more for ICX |
| `SweepTheorems.EnabledExact` | engine/BigCore.c:890-896 | the cores asked are the set bits of the mask, ascending |
| `SweepTheorems.WordsAreFrames` | engine/BigCore.c:616-675 | the collected words are the frames read, in order, and the last frame number counts them |
| `SweepTheorems.StoreHoldsFrames` | engine/BigCore.c:593-731 | a stored buffer is the header, then exactly the frames read for this thread, then zeros; the byte count passed on is the size of that front part, and the fourth qword gives the thread and whether there is a second |
| `SweepLimits.LimitsStopBodies` | engine/BigCore.c:616-640 | with MaxCollectionSec set no body frame follows a clock reading at or past the collection limit, nor one at or past the global limit, over the whole retry loop |
| `SweepLimits.GlobalLimitKeptExactly` | engine/BigCore.c:867-936 | whatever PECI answers and however the clock runs, a configuration keeps the global limit if and only if MaxCollectionSec is set |
| `SweepLimits.GlobalLimitIgnored` | engine/BigCore.c:876-885 | without it a body frame is read although the clock was seen past the global limit, in every waiting run whose first header is accepted that late |
| `SweepLimits.HeaderComesFirst` | engine/BigCore.c:571-574 | in any state, past any limit, asking a thread begins by reading its header frame |
| `SweepLimits.HeadersAreNotChecked` | engine/BigCore.c:571-574 | so every run reads a header frame, whatever the limits and the clock |
| `SweepLimits.StoreEnding` | engine/BigCore.c:616-675 | a stored thread that does not go on to the next core counts as failed only by an unacceptable code of its last frame: a limit that ends it marks no register |
| `SweepLimits.UnreadIsZero` | engine/BigCore.c:588-606 | a register of at most 126 bytes behind the frames read is shown as 0x0 |
| `SweepLimits.LimitCutsUnmarked` | engine/BigCore.c:623-634 | when the limit is reached at the first check all registers are shown as values, without error text, although only eight bytes were read |
| `SweepDelivery.ThreadFrames` | engine/BigCore.c:616-675 | what is stored of a thread carries the codes of its last frame; an earlier frame was not delivered exactly when its code is unacceptable but skips neither core nor socket |
| `SweepDelivery.ShowsOnlyDeliveredExactly` | engine/BigCore.c:233-316 | every value shown without error text was delivered by the bus if and only if no logged register within the frames read touches a failed last frame or one with a passed-over code, and all of them end within the frames read unless the last one failed |
| `SweepDelivery.FailedFrameShown` | engine/BigCore.c:637-675 | a thread of sixteen bytes whose only body frame failed: all registers are shown as values, also those in that frame |
| `SweepDelivery.PassedOverShown` | engine/BigCore.c:637-675 | a frame in the middle with a passed-over code, then a good one: its registers are shown as values |
| `CrashedCores.CollectAccepted` | engine/BigCore.c:608-731 | over a whole collection data is stored only for cores with an accepted header |
| `CrashedCores.VisitedAfterCollection` | engine/flow.c:219-242 | after any collection the core loop of a section visits an enabled core unless it leaves out crashed cores and the core was crashed before or had a header accepted |
| `CrashedCores.NothingReportedTwice` | engine/flow.c:219-242 | with SkipCrashedCores no core that the loop visits has data stored by the collection before it |
| `Base64.Base64Encode` | engine/base64Encode.c:32-106 | the loop leaves the encoding and a terminator in the buffer, inside 4 * ceil(n / 3) + 1 characters |
| `Base64.RoundTrip` | engine/base64Encode.c:32-106 | a decoder written from section 4 of RFC 4648 returns the input |
| `Base64.EncodeInjective` | engine/base64Encode.c:32-106 | different inputs have different encodings |
| `Base64.DecodesOnlyEncodings` | engine/base64Encode.c:32-106 | the texts that decode (with zero padding bits) are exactly the encodings |
| `Base64.EncodeLength` | engine/base64Encode.c:32-106 | 4 * ceil(n / 3) characters |
| `Base64.PaddingOnlyAtEnd` | engine/base64Encode.c:65-102 | = stands only at the end, as often as bytes are missing from the last group; all else is in the alphabet |
| `Base64.TableValue` | engine/base64Encode.c:22-30 | the table agrees with Table 1 of RFC 4648 |
| `Crashlog.DetailsFields` | engine/Crashlog.c:275-282 | entry type, crash type, id and space are the discovery answer side by side |
| `Crashlog.WriteSample` | engine/Crashlog.c:171-187 | a sample occupies its own eight bytes, inside the allocation, and changes no others |
| `Crashlog.CollectCrashlogForAgent` | engine/Crashlog.c:155-190 | success exactly when every sample was delivered, and the buffer is then the complete log |
| `Crashlog.SamplesInOrder` | engine/Crashlog.c:172-187 | each sample reads back little-endian from its place; an odd space ends in a zero DWORD |
| `Crashlog.FitsExceptOne` | engine/Crashlog.c:95-115 | the encoded text with its terminator fits the 8 * crashSpace buffer for every crashSpace but 1 |
| `Crashlog.StoredTextDecodes` | engine/Crashlog.c:112-114 | the stored text decodes to the complete log if and only if crashSpace <= 0x3FFF, since the byte count is passed as 16 bits |
| `Crashlog.Output.StoreCrashlog` | engine/Crashlog.c:78-138 | the record is appended to the found or created object of the agent, as the Base64 text of the raw log |
| `Crashlog.Output.LogCrashlog` | engine/Crashlog.c:387-469 | the agent loop; the trigger is re-armed if and only if a log was extracted |
| `Crashlog.OneValuePerAgent` | engine/Crashlog.c:409-460 | each eligible agent, and no other, adds exactly one value: its log or one error |
| `Crashlog.AgentsObeyLaws` | engine/Crashlog.c:192-253 | each agent, on the tree the ones before it left: nothing unless its answer is good, has space, and its id is enabled in some entry and not excluded; one error if a sample failed; else its whole log under its id and the name of the first entry with it |
| `Crashlog.ExtractedLogsAreStored` | engine/Crashlog.c:409-460 | every extracted log is in the final tree under its agent, also when agents share an id |
| `LogStore.Service.AddStoredLog` | crashdump.cpp:1166-1292 | the directory becomes the kept logs plus the new one, numbered above all present, and files and interfaces stay in step |
| `LogStore.Service.DeleteAll` | crashdump.cpp:1448-1464 | no stored log, interface or on-demand log is left |
| `LogStore.Service.Rebuild` | crashdump.cpp:1557-1584 | start-up registers an interface for every stored log in any directory order and drops on-demand logs |
| `LogStore.AddFromAnywhere` | crashdump.cpp:1196-1264 | an add from any directory leaves min(n + 1, k) logs, keeps the first and the newest, and its number exceeds every present one, for any k >= 2 |
| `LogStore.RotationKeepsFirstAndNewest` | crashdump.cpp:1166-1292 | over every interleaving of adds, clears, restarts and on-demand logs, from any directory: after the first add or clear (from at most k logs, at once) it is the first log since the last clear plus the newest, min(n, k) in all; until then it stays; between clears the number of each added log is above those of all logs before it |
| `LogStore.Serve` | crashdump.cpp:1166-1584 | the service as it runs follows that history from any directory and keeps interfaces and files in step |
| `CpuDiscovery.CpuTable.IdentifyCpu` | crashdump.cpp:486-558 | CPUID read and model decision for one socket, looked at whether or not the read succeeded; DiscoveryIsExact says what is recognised |
| `CpuDiscovery.CpuTable.OverwriteCpuInfo` | crashdump.cpp:560-597 | every socket without a valid CPUID copies the first one that has it; without one all are INVALID |
| `CpuDiscovery.CpuTable.GetCoreMasks` | crashdump.cpp:301-392 | the core mask loop; the second half is read only if the first was accepted |
| `CpuDiscovery.CpuTable.GetChaCounts` | crashdump.cpp:394-484 | the CHA count loop |
| `CpuDiscovery.CpuTable.GetCpuData` | crashdump.cpp:619-640 | a STARTUP or EVENT call in the order of the source |
| `DiscoveryTheorems.CallKeeps` | crashdump.cpp:619-640 | one call: own identities, valid masks and valid counts are neither changed nor read again; what becomes valid is mask1 << 32 + mask0, or both popcounts, of two accepted reads just made; after an event all or none is valid |
| `DiscoveryTheorems.DiscoveryIsSound` | crashdump.cpp:506-640 | over any sequence of calls every OVERWRITTEN socket copies one recognised by its own read, never a copy; the model of every valid socket agrees with its CPUID and stepping; invalid masks and counts are zero |
| `DiscoveryExactly.DiscoveryIsExact` | crashdump.cpp:486-640 | over any sequence of calls a socket is recognised if and only if one of its own reads was answered with 0x606A0, 0x806F0 or 0x606C0, as ICX or ICX2 by stepping, SPR or SPRHBM by the platform read behind it, or ICXD; and every call does exactly what CallExactly says |
| `DiscoveryExactly.CallExactly` | crashdump.cpp:301-640 | one call: every socket not recognised is asked; an event copies the first recognised one to all others, or marks all invalid; a mask or count that was not known is known afterwards exactly if both halves just read, in the registers of the family, were accepted, and is made of them |
| `DiscoveryExactly.OverwriteCopies` | crashdump.cpp:560-597 | what an event makes of sockets without a CPUID |
| `DiscoveryTheorems.SettledForEver` | crashdump.cpp:301-484 | what is settled after some calls is settled after any more |
| `DiscoveryTheorems.ChaCountBound` | crashdump.cpp:478-480 | a CHA count is at most 64 |
| `DiscoveryFamilies.FamilyExactly` | crashdump.cpp:301-484 | over any calls: a known core mask or CHA count is the value read in the registers of exactly one family, that of the model at the call that read it, so it is of the final family if and only if that one is |
| `DiscoveryFamilies.RightFamilyIff` | crashdump.cpp:301-640 | by what was known at that call: recognised by its own read, always of the final family; nothing known, exactly when the socket is finally Ice Lake; overwritten, exactly when it is finally of the family of the socket copied from |
| `DiscoveryFamilies.UnknownSocketKeepsIceLake` | crashdump.cpp:301-392 | a run with nothing known: a Sapphire Rapids socket keeps a mask of the Ice Lake registers |
| `DiscoveryFamilies.OverwrittenSocketKeepsDonors` | crashdump.cpp:301-597 | a run with an overwritten socket: an Ice Lake socket keeps a mask of the Sapphire Rapids registers |
| `DiscoveryTheorems.MasksCanBeOfAnotherFamily` | crashdump.cpp:301-392 | one such run read by read: both halves come from the Ice Lake registers, and the second call, which recognises a Sapphire Rapids socket, reads no mask again |
| `TorDump.Dump.LogTorSection` | engine/TorDump.c:117-178 | the three loops make chaCount * 256 turns in order, with the skip flag carried and cleared per CHA |
| `TorDump.SkipExactly` | engine/TorDump.c:127-176 | a turn is skipped if and only if the option is set and an earlier turn of the same CHA had an unacceptable code |
| `TorDump.EntryOf` | engine/TorDump.c:127-176 | each CHA: answers up to and including the first unacceptable code, then only N/A without asking |
| `TorDump.EntryShows` | engine/TorDump.c:29-104 | the text of an entry: N/A, the codes of a failed call, the number the payload denotes, or that number with the codes |
| `TorDump.PathIs` | engine/TorDump.c:40-66 | turn cha * 256 + index * 8 + subindex is named by these three numbers |
| `TorDump.EntriesInPlace` | engine/TorDump.c:29-104 | every entry is found at cha/index/subindex with its own text, and no other entry exists |
| `TorDump.OneEntryPerTurn` | engine/TorDump.c:117-178 | 256 values per CHA whatever fails |

## Left out

- SectionEngine.Engine.FillNewSection: the `_time_` entry at the end of a section is not modelled, because it is a formatted floating-point time; nor are missing section objects, which end the call early.
- SectionEngine.Engine.RunSection: what LogBigCore, LogTor and LogCrashlog add below their register paths is arbitrary here; its content is modelled apart, in BigCoreCollector, TorDump and Crashlog. LogCrashlog is the variant of the BHS_EGS build; in other builds it does nothing.
- Commands.Execute: the parameter validators, which can leave a command undone, are not modelled, nor is how each PECI command unpacks its parameters; its answer is arbitrary, only what it stores and returns is kept. Shifts by 64 and more and conversions of out-of-range doubles have no defined result and are arbitrary too.
- Logger.OutputTree.GenerateJsonPath: path tokens are an input (at most 10), splitting at slashes is not modelled, and neither is the truncation of register names at 63 characters.
- SectionTheorems.SectionResolves: asks that no internal variable is named like a hex literal; RewritingRefinesResolver shows that this is needed.
- Clock.CalculateTimeRemainingFromStart: from 2^53 ns (104 days) on the floating-point quotient is any whole number of seconds that rounding allows, not the exact IEEE result.
- SectionEngine.Engine.LogValue: the note of a limit passes an unsigned number to the conversion %ds (engine/logger.h:42), which C leaves undefined from 2^31 s on; the model prints the negative number of two's complement.
- SectionEngine.Engine.LoopOnCore: whether a core is crashed is an input, taken when the loop comes to that core, so that a LogBigCore earlier in the section may have set it; CrashedCores ties it to a collection that ended before the loop, not to one inside the loop body.
- SweepLimits.GlobalLimitKeptExactly: asks that the remaining time was not rounded up, which ShortLimitsAreExact shows of every limit below 104 days, and that the 64-bit clock can show a moment behind all limits.
- Flow.LoggedTextDenotesValue: for zero-padded sizes 1, 2 and 4 the source passes a 64-bit argument to the conversions %02x, %04x and %08x (engine/logger.c:374-392), which C leaves undefined; the model prints the value.
- Numerals.ParseHex: leading blanks and signs, which strtoull accepts, are not modelled.
- RegisterDump.DumpRegisters: the error text appended to a value of 120 bytes and more does not fit the 256-character string and is cut by the string library; the model shows it in full.
- BigCoreCollector.BigCore.QueryForCrashDataForThread: a header that declares fewer than 32 bytes makes the source read the fourth qword behind its buffer; the model takes any value for it, and does not follow a write behind a buffer of fewer than 8 bytes. Failing allocations and the `_wait_time` text are not modelled; a core mask with bit 63 set is excluded, because the source then shifts by 64.
- BigCoreCollector.BigCore.LogCrashdump: whether an internal error is present, the configuration, and which entry of the output belongs to which core object are inputs or are kept in the trace.
- Base64.Base64Encode: the bit masks and shifts of the source are written as division and remainder; input and output do not overlap.
- Crashlog.Output.StoreCrashlog: asks that the text fits its buffer, which FitsExceptOne shows to fail only for a log of one DWORD; failing allocations are not modelled.
- Crashlog.Output.LogCrashlog: the exclude list is a list of numbers, and at most 255 agents are configured, since the source counts them in eight bits; the result of re-arming is not modelled.
- LogStore.Service.AddStoredLog: file numbers do not wrap at 2^64, file system and D-Bus calls succeed, and names are kept as number and timestamp instead of being parsed.
- LogStore.Service.Rebuild: every stored file is taken to match the pattern of the source; telemetry logs are not modelled.
- CpuDiscovery.CpuTable.GetCpuData: the default branches for other models cannot be reached, because only the five models are ever assigned; which sockets answer the first ping is not modelled.
- TorDump.Dump.LogTorSection: payloads of one or two bytes, and texts over 65 characters, which the source cuts at its buffer sizes, are shown in full; the empty ICX A0 variant and failing allocations are not modelled.
- Validators, triage, summary, metadata, version words, BIOS and BMC lookups, NVD and telemetry sections: thin formatting or calls into libraries that are not part of the repository.
- Pointer aliasing in the output tree: an item is named by its path, so two pointers to one item are one path.
