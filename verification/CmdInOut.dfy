/** The data a command works on (engine/cmdprocessor.h): its parameter list, which lives in the
    shared input file, its output record, and the variables stored so far in the section. */
module CmdInOut {
  import opened Numerals
  import opened Logger

  /** One element of a "Params" array. A number is a JSON double. */
  datatype Param = Text(s: string) | Number(value: real) | Other

  /** A JSON array inside the shared input file; it is rewritten in place. */
  class ParamList {
    var items: seq<Param>

    constructor (ps: seq<Param>)
      ensures items == ps
    {
      items := ps;
    }
  }

  /** What placeholders stand for: the socket's PECI address and the loop indices. */
  datatype Site = Site(addr: int, ctx: Context)

  datatype Binding = Binding(name: string, text: string)

  /** A JSON object of strings: appended to, looked up by first match. */
  type Vars = seq<Binding>

  function Lookup(vars: Vars, name: string): Option<string> {
    if vars == [] then None
    else if vars[0].name == name then Some(vars[0].text)
    else Lookup(vars[1..], name)
  }

  lemma {:induction false} LookupAppend(vars: Vars, more: Vars, name: string)
    ensures Lookup(vars + more, name) ==
            if Lookup(vars, name).Some? then Lookup(vars, name) else Lookup(more, name)
  {
    if vars == [] {
      assert vars + more == more;
    } else {
      assert (vars + more)[1..] == vars[1..] + more;
      LookupAppend(vars[1..], more, name);
    }
  }

  lemma {:induction false} LookupNamed(vars: Vars, name: string)
    ensures Lookup(vars, name).Some? <==> exists i :: 0 <= i < |vars| && vars[i].name == name
  {
    if vars != [] {
      LookupNamed(vars[1..], name);
      if Lookup(vars, name).Some? && vars[0].name != name {
        var i :| 0 <= i < |vars[1..]| && vars[1..][i].name == name;
        assert vars[i + 1].name == name;
      }
      if i :| 0 <= i < |vars| && vars[i].name == name {
        if i > 0 {
          assert vars[1..][i - 1].name == name;
        }
      }
    }
  }

  const PECI_CC_SUCCESS: int := 0
  const PECI_CC_INVALID_REQ: int := 1
  const PECI_DEV_CC_SUCCESS: Byte := 0x40
  const PECI_DEV_CC_FATAL_MCA_DETECTED: Byte := 0x94

  /** PECI_CC_UA: the completion code makes the data unacceptable. */
  predicate Unacceptable(cc: Byte) {
    cc != PECI_DEV_CC_SUCCESS && cc != PECI_DEV_CC_FATAL_MCA_DETECTED
  }

  /** ",CC:0x%x,RC:0x%x" */
  function CompletionText(cc: Byte, ret: int): string {
    ",CC:" + PrintHex(cc) + ",RC:" + PrintHex(ret % TWO_TO_THE_32)
  }

  /** The codes as they are appended to a value: completion code, then 32-bit return code. */
  predicate IsCodes(text: string, cc: Byte, ret: int) {
    text == ",CC:0x" + Digits(cc, Sixteen) + ",RC:0x" + Digits(ret % 0x1_0000_0000, Sixteen)
  }

  lemma CompletionTextIs(cc: Byte, ret: int)
    ensures IsCodes(CompletionText(cc, ret), cc, ret)
  {
    hide Digits;
    var front := ",CC:0x" + Digits(cc, Sixteen);
    var back := Digits(ret % 0x1_0000_0000, Sixteen);
    assert ",CC:" + ("0x" + Digits(cc, Sixteen)) + ",RC:" == front + ",RC:";
    assert front + ",RC:" + ("0x" + back) == front + ",RC:0x" + back;
  }

  /** PECICmdOutput. */
  datatype Out = Out(ret: int, cc: Byte, val: Uint64, stringVal: string, printString: bool,
                     size: Byte)
  {
    predicate Failed() { ret != PECI_CC_SUCCESS || Unacceptable(cc) }
  }

  datatype Tracked = Tracked(name: string, pos: nat)

  class CmdInOut {
    var params: ParamList
    var paramsTracker: seq<Tracked>
    var internalVars: Vars
    var internalVarName: Option<string>
    var out: Out

    constructor (ps: ParamList, vars: Vars, o: Out)
      ensures params == ps && paramsTracker == [] && internalVars == vars
      ensures internalVarName == None && out == o
    {
      params, paramsTracker, internalVars, internalVarName, out := ps, [], vars, None, o;
    }
  }
}
