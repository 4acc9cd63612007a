/** What the entries and notes of a run read: each entry shows the record that its own repeat of
    its own command left behind. */
module FlowEntries {
  import opened Numerals
  import opened Json
  import opened Logger
  import opened CmdInOut
  import opened InputParser
  import Commands
  import opened Clock
  import opened Flow
  import opened FlowTraces
  import opened FlowTheorems

  /******* What an entry should read *******/

  /** Results of one, two or four bytes are cut to their size. */
  function Modulus(size: Byte): (m: nat)
    ensures 1 <= m <= 0x1_0000_0000_0000_0000
  {
    if size == 1 then 0x100 else if size == 2 then 0x1_0000 else if size == 4 then 0x1_0000_0000
    else 0x1_0000_0000_0000_0000
  }

  /** Digits of a zero-padded result. */
  function Width(size: Byte): nat {
    if size == 1 then 2 else if size == 2 then 4 else if size == 4 then 8 else 16
  }

  /** A value followed by the codes of the record. */
  predicate WithCodes(text: string, front: string, out: Out) {
    front <= text && IsCodes(text[|front|..], out.cc, out.ret)
  }

  /** The text is a hexadecimal number of the given value, with at least so many digits. */
  predicate ShowsNumber(text: string, v: nat, width: nat) {
    && |text| > 2 && text[..2] == "0x" && AllDigits(text[2..])
    && Value(text[2..], Sixteen) == v
    && |text| - 2 == (if |Digits(v, Sixteen)| < width then width else |Digits(v, Sixteen)|)
    && (v < TWO_TO_THE_64 ==> ParseHex(text) == v)
  }

  /** The entry shows what the repeat left: a waiting string; "N/A" if it was skipped; the codes
      if the call failed; else the value, with the codes if it is unacceptable. */
  predicate Reads(env: Env, st: Event, e: Event)
    requires st.Step? && IsNamed(env, st.cmd)
  {
    var out, output := st.after.out, env.cmds[st.cmd].output.value;
    var size := output.size.GetOr(out.size);
    var v := out.val % Modulus(size);
    && e.Entry? && e.of == st.outcome
    && if out.printString then e.text == out.stringVal
       else if st.outcome == Skipped then e.text == "N/A"
       else if out.ret != PECI_CC_SUCCESS then WithCodes(e.text, "0x0", out)
       else if out.cc != PECI_DEV_CC_SUCCESS && out.cc != PECI_DEV_CC_FATAL_MCA_DETECTED
       then WithCodes(e.text, "0x" + Digits(v, Sixteen), out)
       else ShowsNumber(e.text, v, if output.zeroPadded then Width(size) else 0)
  }

  /** A limit in seconds, printed as a signed number. */
  predicate ShowsLimit(text: string, limit: Uint32) {
    if limit < 0x8000_0000 then text == Dec(limit) + "s" else text == "-" + Dec(0x1_0000_0000 - limit) + "s"
  }

  /** A note names the socket, the section and the limit that was reached. */
  predicate NoteReads(env: Env, e: Event) {
    var prefix := "_cpu" + Dec(env.ctx0.cpu) + "_" + env.name;
    && (e.GlobalNote? ==> e.key == prefix + "_global_timeout:" && ShowsLimit(e.text, env.maxGlobalTime))
    && (e.SectionNote? ==> e.key == prefix + "_section_timeout:" && ShowsLimit(e.text, env.maxSectionTime))
  }

  function Entries(trace: seq<Event>): (r: seq<Event>)
    ensures forall k :: 0 <= k < |r| ==> r[k].Entry?
  {
    if trace == [] then []
    else
      var e := trace[|trace| - 1];
      Entries(trace[..|trace| - 1]) + (if e.Entry? then [e] else [])
  }

  /** The steps of commands with a register name. */
  function NamedSteps(env: Env, trace: seq<Event>): (r: seq<Event>)
    ensures forall k :: 0 <= k < |r| ==> r[k].Step? && IsNamed(env, r[k].cmd)
  {
    if trace == [] then []
    else
      var e := trace[|trace| - 1];
      NamedSteps(env, trace[..|trace| - 1]) + (if e.Step? && IsNamed(env, e.cmd) then [e] else [])
  }

  /** Entry number k shows named step number k, and every note reads as it should. */
  ghost predicate AllRead(env: Env, trace: seq<Event>) {
    && |Entries(trace)| == |NamedSteps(env, trace)|
    && (forall k :: 0 <= k < |Entries(trace)| ==> Reads(env, NamedSteps(env, trace)[k], Entries(trace)[k]))
    && (forall k :: 0 <= k < |trace| ==> NoteReads(env, trace[k]))
  }

  lemma {:induction false} EntriesConcat(a: seq<Event>, b: seq<Event>)
    ensures Entries(a + b) == Entries(a) + Entries(b)
  {
    if b == [] {
      assert a + b == a;
    } else {
      EntriesConcat(a, b[..|b| - 1]);
      assert (a + b)[..|a + b| - 1] == a + b[..|b| - 1];
    }
  }

  lemma {:induction false} NamedConcat(env: Env, a: seq<Event>, b: seq<Event>)
    ensures NamedSteps(env, a + b) == NamedSteps(env, a) + NamedSteps(env, b)
  {
    hide IsNamed;
    if b == [] {
      assert a + b == a;
    } else {
      NamedConcat(env, a, b[..|b| - 1]);
      assert (a + b)[..|a + b| - 1] == a + b[..|b| - 1];
    }
  }

  lemma AllReadConcat(env: Env, a: seq<Event>, b: seq<Event>)
    requires AllRead(env, a) && AllRead(env, b)
    ensures AllRead(env, a + b)
  {
    hide Reads, NoteReads, Entries, NamedSteps;
    EntriesConcat(a, b);
    NamedConcat(env, a, b);
  }

  lemma NothingRead(env: Env)
    ensures AllRead(env, [])
  {
  }

  /******* What the texts are *******/

  lemma MaskIsModulus(val: Uint64, size: Byte)
    ensures Mask(val, size) == val % Modulus(size)
  {
  }

  lemma {:induction false} PaddedDigits(v: nat, width: nat)
    ensures var d := Digits(v, Sixteen);
            var z := if |d| < width then Zeros(width - |d|) else [];
            AllDigits(z + d) && Value(z + d, Sixteen) == v
  {
    hide Digits, Value, DigitValue;
    var d := Digits(v, Sixteen);
    ValueOfDigits(v, Sixteen);
    LeadingZeros(if |d| < width then width - |d| else 0, d);
    assert Zeros(0) + d == [] + d;
  }

  lemma PaddedShows(v: nat, width: nat)
    ensures ShowsNumber(PrintPadded(v, width), v, width)
  {
    hide Digits, Value, DigitValue, ParseHex;
    PaddedDigits(v, width);
    var d := Digits(v, Sixteen);
    var body := (if |d| < width then Zeros(width - |d|) else []) + d;
    assert PrintPadded(v, width) == "0x" + body && ("0x" + body)[2..] == body;
    if v < TWO_TO_THE_64 {
      ParseDigits(body);
    }
  }

  lemma PlainShows(v: nat)
    ensures ShowsNumber(PrintHex(v), v, 0)
  {
    hide Digits, Value, DigitValue, ParseHex;
    var d := Digits(v, Sixteen);
    ValueOfDigits(v, Sixteen);
    assert ("0x" + d)[2..] == d;
    if v < TWO_TO_THE_64 {
      ParseDigits(d);
    }
  }

  lemma CodesBehind(front: string, out: Out)
    ensures WithCodes(front + CompletionText(out.cc, out.ret), front, out)
  {
    hide IsCodes, CompletionText;
    CompletionTextIs(out.cc, out.ret);
    var text := front + CompletionText(out.cc, out.ret);
    assert text[|front|..] == CompletionText(out.cc, out.ret) && text[..|front|] == front;
  }

  /** The text of an executed command's result. */
  lemma ValueTextShows(out: Out, size: Byte, zeroPadded: bool)
    ensures var text := ValueText(out, size, zeroPadded);
            if out.ret != PECI_CC_SUCCESS then WithCodes(text, "0x0", out)
            else if out.cc != PECI_DEV_CC_SUCCESS && out.cc != PECI_DEV_CC_FATAL_MCA_DETECTED
            then WithCodes(text, "0x" + Digits(out.val, Sixteen), out)
            else ShowsNumber(text, out.val, if zeroPadded then Width(size) else 0)
  {
    hide ShowsNumber, WithCodes, CompletionText, PrintPadded, Digits;
    CodesBehind("0x0", out);
    CodesBehind("0x" + Digits(out.val, Sixteen), out);
    PaddedShows(out.val, Width(size));
    PlainShows(out.val);
  }

  /******* One repeat *******/

  /** Steps that changed nothing else than the record's value or its waiting flag. */
  lemma LogValueReads(env: Env, s: Run, o: Output, path: Path, key: string) returns (notes: seq<Event>, e: Event)
    ensures LogValue(env, s, o, path, key).trace == s.trace + notes + [e]
    ensures forall k :: 0 <= k < |notes| ==> (notes[k].GlobalNote? || notes[k].SectionNote?) && NoteReads(env, notes[k])
    ensures e.Entry? && e.of == OutcomeOf(s)
    ensures e.text == if s.out.printString then s.out.stringVal
                      else if s.skip then "N/A"
                      else var size := o.size.GetOr(s.out.size);
                           ValueText(s.out.(val := s.out.val % Modulus(size)), size, o.zeroPadded)
  {
    hide Log, ValueText, Mask, NoteReads, NoteGlobal, NoteSection, Modulus;
    var size := o.size.GetOr(s.out.size);
    MaskIsModulus(s.out.val, size);
    notes := [];
    if s.out.printString {
      e := Entry(path, key, s.out.stringVal, OutcomeOf(s));
    } else {
      var s1 := s.(out := s.out.(val := Mask(s.out.val, size)));
      if s.skip {
        notes := NotesRead(env, s1, path);
        e := Entry(path, key, LOGGER_NA, Skipped);
      } else {
        e := Entry(path, key, ValueText(s1.out, size, o.zeroPadded), OutcomeOf(s));
      }
    }
  }

  lemma NotesRead(env: Env, s: Run, path: Path) returns (notes: seq<Event>)
    ensures NoteSection(env, NoteGlobal(env, s, path), path).trace == s.trace + notes
    ensures forall k :: 0 <= k < |notes| ==> (notes[k].GlobalNote? || notes[k].SectionNote?) && NoteReads(env, notes[k])
  {
    hide Log, NoteReads, NoteKey, Seconds;
    var g := GlobalNote(path, NoteKey(env, "global"), Seconds(env.maxGlobalTime));
    var n := SectionNote(path, NoteKey(env, "section"), Seconds(env.maxSectionTime));
    NoteTexts(env, g, n);
    notes := (if s.globalReached && s.globalMaxPrint then [g] else []) +
             (if s.sectionReached && s.sectionMaxPrint then [n] else []);
  }

  lemma NoteTexts(env: Env, g: Event, n: Event)
    requires g.GlobalNote? && g.key == NoteKey(env, "global") && g.text == Seconds(env.maxGlobalTime)
    requires n.SectionNote? && n.key == NoteKey(env, "section") && n.text == Seconds(env.maxSectionTime)
    ensures NoteReads(env, g) && NoteReads(env, n)
  {
    hide Digits;
    var prefix := "_cpu" + Dec(env.ctx0.cpu) + "_" + env.name;
    assert prefix + "_" + "global" + "_timeout:" == prefix + "_global_timeout:";
    assert prefix + "_" + "section" + "_timeout:" == prefix + "_section_timeout:";
  }

  /** Events that are neither steps nor entries. */
  lemma {:induction false} NeitherRead(env: Env, log: seq<Event>)
    requires forall k :: 0 <= k < |log| ==> !log[k].Step? && !log[k].Entry? && NoteReads(env, log[k])
    ensures AllRead(env, log) && Entries(log) == [] && NamedSteps(env, log) == []
  {
    hide NoteReads, Reads, IsNamed;
    if log != [] {
      NeitherRead(env, log[..|log| - 1]);
    }
  }

  lemma SingleRead(env: Env, e: Event)
    ensures Entries([e]) == if e.Entry? then [e] else []
    ensures NamedSteps(env, [e]) == if e.Step? && IsNamed(env, e.cmd) then [e] else []
  {
    hide IsNamed;
    assert [e][..0] == [];
  }

  lemma ReadsEntry(env: Env, st: Event, e: Event)
    requires st.Step? && IsNamed(env, st.cmd) && Reads(env, st, e)
    ensures e.Entry?
  {
    hide ShowsNumber, WithCodes;
  }

  /** A step, what it dumps, its notes and its entry. */
  lemma SegmentReads(env: Env, st: Event, between: seq<Event>, e: Event)
    requires st.Step? && IsNamed(env, st.cmd) && Reads(env, st, e)
    requires forall k :: 0 <= k < |between| ==> !between[k].Step? && !between[k].Entry? && NoteReads(env, between[k])
    ensures AllRead(env, [st] + between + [e])
  {
    hide IsNamed, Reads, Entries, NamedSteps, NoteReads;
    var all := [st] + between + [e];
    assert e.Entry? by { ReadsEntry(env, st, e); }
    SegmentParts(env, st, between, e);
    forall k | 0 <= k < |all| ensures NoteReads(env, all[k]) {
      if 0 < k < |all| - 1 {
        assert all[k] == between[k - 1];
      } else {
        NotNoteReads(env, all[k]);
      }
    }
  }

  lemma SegmentParts(env: Env, st: Event, between: seq<Event>, e: Event)
    requires st.Step? && IsNamed(env, st.cmd) && e.Entry?
    requires forall k :: 0 <= k < |between| ==> !between[k].Step? && !between[k].Entry? && NoteReads(env, between[k])
    ensures Entries([st] + between + [e]) == [e] && NamedSteps(env, [st] + between + [e]) == [st]
  {
    hide IsNamed, Entries, NamedSteps, NoteReads, AllRead;
    NeitherRead(env, between);
    SingleRead(env, st);
    SingleRead(env, e);
    EntriesConcat([st], between);
    NamedConcat(env, [st], between);
    EntriesConcat([st] + between, [e]);
    NamedConcat(env, [st] + between, [e]);
  }

  lemma NotNoteReads(env: Env, e: Event)
    ensures !e.GlobalNote? && !e.SectionNote? ==> NoteReads(env, e)
  {
  }

  /** The step of a repeat, and what the repeat logs after dumping. */
  lemma RepeatParts(env: Env, s: Run, i: nat, ctx: Context, n: nat)
    returns (st: Event, grown: seq<Event>, s2: Run)
    requires i < |env.cmds| == |s.templates|
    ensures st.Step? && st.cmd == i && st.after == Commands.State(s2.out, s2.vars) && st.outcome == OutcomeOf(s2)
    ensures s2.trace == s.trace + [st] + grown && forall k :: 0 <= k < |grown| ==> grown[k].Grown?
    ensures Repeat(env, s, i, ctx, n).trace == LogIfNamed(env, s2, i, ctx, n).trace
  {
    hide ExecuteUnlessSkipped, LogIfNamed, Reached, Grow, CommandPath, IsDump;
    var s1 := ExecuteUnlessSkipped(env, CheckDeadlines(env, s), i);
    assert s1.trace == s.trace by { ExecuteFacts(env, s, i); }
    st := Summary(env, s, s1, i, ctx, n);
    var t := s1.(trace := s1.trace + [st]);
    s2 := GrowIfDump(env, t, i, ctx, s.asks);
    grown := if t.skip || !IsDump(env, i) then [] else [Grown(CommandPath(env, i, ctx), env.dumps(s.asks))];
    assert s2.out == t.out && s2.vars == t.vars && s2.skip == t.skip;
  }

  lemma RepeatReads(env: Env, s: Run, i: nat, ctx: Context, n: nat)
    requires i < |env.cmds| == |s.templates|
    ensures var r := Repeat(env, s, i, ctx, n);
            s.trace <= r.trace && AllRead(env, New(s, r))
  {
    hide Repeat, LogValue, ValueText, RegisterAt, Modulus, Width, WithCodes, ShowsNumber, NoteReads, AllRead;
    var r := Repeat(env, s, i, ctx, n);
    var st, grown, s2 := RepeatParts(env, s, i, ctx, n);
    forall k | 0 <= k < |grown| ensures NoteReads(env, grown[k]) {
      NotNoteReads(env, grown[k]);
    }
    if env.cmds[i].output.None? {
      assert New(s, r) == [st] + grown;
      UnnamedReads(env, st, grown);
    } else {
      var o := env.cmds[i].output.value;
      var at := RegisterAt(env, o, ctx, n);
      var notes, e := LogValueReads(env, s2, o, at.0, at.1);
      var size := o.size.GetOr(s2.out.size);
      ValueTextShows(s2.out.(val := s2.out.val % Modulus(size)), size, o.zeroPadded);
      SameCodes(e.text, s2.out, s2.out.val % Modulus(size));
      assert Reads(env, st, e);
      SegmentReads(env, st, grown + notes, e);
      assert New(s, r) == [st] + (grown + notes) + [e];
    }
  }

  lemma SameCodes(text: string, out: Out, v: Uint64)
    ensures forall front :: WithCodes(text, front, out.(val := v)) <==> WithCodes(text, front, out)
  {
    hide IsCodes;
  }

  lemma UnnamedReads(env: Env, st: Event, grown: seq<Event>)
    requires st.Step? && !IsNamed(env, st.cmd)
    requires forall k :: 0 <= k < |grown| ==> grown[k].Grown?
    ensures AllRead(env, [st] + grown)
  {
    hide NoteReads, Reads, IsNamed, Entries, NamedSteps;
    forall k | 0 <= k < |grown| ensures NoteReads(env, grown[k]) {
      NotNoteReads(env, grown[k]);
    }
    NeitherRead(env, grown);
    SingleRead(env, st);
    EntriesConcat([st], grown);
    NamedConcat(env, [st], grown);
    NotNoteReads(env, st);
  }
}
