/** Printing a slice of crash data as one hexadecimal number (getJsonDataString in
    engine/BigCore.c), in place in a character buffer. */
module DataString {
  import opened Numerals

  /** The number a little-endian byte slice holds. */
  function LittleEndian(s: seq<Byte>): nat {
    if s == [] then 0 else s[0] + 256 * LittleEndian(s[1..])
  }

  /** "%02x". */
  function HexPair(b: Byte): (t: string)
    ensures |t| == 2 && AllDigits(t)
  {
    [HEX_DIGITS[b / 16], HEX_DIGITS[b % 16]]
  }

  /** The bytes of a little-endian slice as text, most significant byte first. */
  function BytesText(s: seq<Byte>): (t: string)
    ensures |t| == 2 * |s| && AllDigits(t)
  {
    if s == [] then [] else BytesText(s[1..]) + HexPair(s[0])
  }

  /** The slice without its high-order zero bytes. */
  function Trim(s: seq<Byte>): (r: seq<Byte>)
    ensures r <= s
    ensures r != [] ==> r[|r| - 1] != 0
  {
    if s == [] || s[|s| - 1] != 0 then s else Trim(s[..|s| - 1])
  }

  /** What is printed for a slice: no leading zero bytes, "0x0" for zero. */
  function SliceText(s: seq<Byte>): string {
    "0x" + SliceDigits(s)
  }

  lemma {:induction false} TrimCons(b: Byte, s: seq<Byte>)
    ensures Trim([b] + s) == if Trim(s) != [] then [b] + Trim(s) else if b == 0 then [] else [b]
  {
    if s == [] {
      assert [b] + s == [b] && [b][..0] == [];
    } else if s[|s| - 1] == 0 {
      assert ([b] + s)[..|s|] == [b] + s[..|s| - 1];
      TrimCons(b, s[..|s| - 1]);
    }
  }

  lemma HexPairValue(b: Byte)
    ensures DigitValue(HexPair(b)[0]) == Some(b / 16) && DigitValue(HexPair(b)[1]) == Some(b % 16)
  {
    DigitRoundTrip(b / 16);
    DigitRoundTrip(b % 16);
  }

  lemma {:induction false} ValueOfBytes(s: seq<Byte>)
    ensures Value(BytesText(s), Sixteen) == LittleEndian(s)
  {
    hide DigitValue;
    if s != [] {
      var high, pair := BytesText(s[1..]), HexPair(s[0]);
      ValueOfBytes(s[1..]);
      HexPairValue(s[0]);
      ValueSnoc(high, pair[0], Sixteen);
      ValueSnoc(high + [pair[0]], pair[1], Sixteen);
      assert high + [pair[0]] + [pair[1]] == high + pair;
    }
  }

  lemma {:induction false} TrimKeepsValue(s: seq<Byte>)
    ensures LittleEndian(Trim(s)) == LittleEndian(s)
  {
    if s != [] && s[|s| - 1] == 0 {
      TrimKeepsValue(s[..|s| - 1]);
      DropHighZero(s);
    }
  }

  lemma {:induction false} DropHighZero(s: seq<Byte>)
    requires s != [] && s[|s| - 1] == 0
    ensures LittleEndian(s[..|s| - 1]) == LittleEndian(s)
  {
    if |s| == 1 {
      assert s[1..] == [];
    } else {
      DropHighZero(s[1..]);
      assert s[..|s| - 1][1..] == s[1..][..|s| - 2];
    }
  }

  /** The digits after "0x". */
  function SliceDigits(s: seq<Byte>): (t: string)
    ensures t != [] && AllDigits(t)
  {
    if Trim(s) == [] then "0" else BytesText(Trim(s))
  }

  lemma SliceDigitsValue(s: seq<Byte>)
    ensures Value(SliceDigits(s), Sixteen) == LittleEndian(s)
  {
    TrimKeepsValue(s);
    if Trim(s) == [] {
      assert "0" == [] + ['0'];
      ValueSnoc([], '0', Sixteen);
    } else {
      ValueOfBytes(Trim(s));
    }
  }

  /** The printed text denotes exactly the little-endian value of the slice; up to eight bytes
      it parses back to it. */
  lemma SliceTextDenotesValue(s: seq<Byte>)
    ensures SliceText(s) == "0x" + SliceDigits(s) && Value(SliceDigits(s), Sixteen) == LittleEndian(s)
    ensures |s| <= 8 ==> ParseHex(SliceText(s)) == LittleEndian(s)
  {
    hide Value, ParseHex, LittleEndian;
    SliceDigitsValue(s);
    if |s| <= 8 {
      LittleEndianBound(s);
      assert Pow256(8) == TWO_TO_THE_64;
      ParseDigits(SliceDigits(s));
    }
  }

  /** The text is a number in hexadecimal that denotes the bytes, little-endian. */
  predicate ShowsBytes(text: string, data: seq<Byte>) {
    && |text| > 2 && text[..2] == "0x" && AllDigits(text[2..]) && Value(text[2..], Sixteen) == LittleEndian(data)
    && (|data| <= 8 ==> ParseHex(text) == LittleEndian(data))
  }

  lemma SliceTextShows(s: seq<Byte>)
    ensures ShowsBytes(SliceText(s), s)
  {
    hide SliceDigits, Value, ParseHex, LittleEndian;
    SliceTextDenotesValue(s);
    assert ("0x" + SliceDigits(s))[2..] == SliceDigits(s);
  }

  function Pow256(n: nat): (p: nat)
    ensures p >= 1
  {
    if n == 0 then 1 else 256 * Pow256(n - 1)
  }

  lemma {:induction false} LittleEndianBound(s: seq<Byte>)
    ensures LittleEndian(s) < Pow256(|s|)
    ensures |s| <= 8 ==> Pow256(|s|) <= Pow256(8)
  {
    if s != [] {
      LittleEndianBound(s[1..]);
    }
  }

  /** Slices of equal length print differently unless they are equal. */
  lemma SliceTextInjective(a: seq<Byte>, b: seq<Byte>)
    requires |a| == |b| && SliceText(a) == SliceText(b)
    ensures a == b
  {
    hide SliceDigits, LittleEndian, Value;
    SliceTextDenotesValue(a);
    SliceTextDenotesValue(b);
    assert SliceText(a)[2..] == SliceDigits(a) && SliceText(b)[2..] == SliceDigits(b);
    LittleEndianInjective(a, b);
  }

  lemma {:induction false} LittleEndianInjective(a: seq<Byte>, b: seq<Byte>)
    requires |a| == |b| && LittleEndian(a) == LittleEndian(b)
    ensures a == b
  {
    if a != [] {
      LowByte(a);
      LowByte(b);
      hide LittleEndian;
      LittleEndianInjective(a[1..], b[1..]);
      assert a == [a[0]] + a[1..] && b == [b[0]] + b[1..];
    }
  }

  lemma LowByte(s: seq<Byte>)
    requires s != []
    ensures s[0] == LittleEndian(s) % 256 && LittleEndian(s[1..]) == LittleEndian(s) / 256
  {
  }

  /******* The printing loop *******/

  const SIZE_OF_0x0: nat := 3
  const TOO_SMALL := "String buffer too small"

  /** The buffer holds the zero-terminated string t. */
  predicate Holds(buffer: array<char>, t: string)
    reads buffer
  {
    |t| < buffer.Length && buffer[..|t|] == t && buffer[|t|] == '\0'
  }

  /** The string in a buffer, up to the terminator. */
  method ReadString(buffer: array<char>, ghost t: string) returns (text: string)
    requires Holds(buffer, t) && '\0' !in t
    ensures text == t
  {
    text := [];
    var i := 0;
    assert forall j :: 0 <= j < |t| ==> buffer[j] == buffer[..|t|][j] == t[j];
    while buffer[i] != '\0'
      invariant i <= |t| && text == t[..i]
      decreases |t| - i
    {
      text := text + [buffer[i]];
      i := i + 1;
    }
  }

  /** snprintf of a fixed text at an offset: the text and a terminator, all inside the buffer. */
  method WriteAt(buffer: array<char>, at: nat, t: string)
    requires at + |t| < buffer.Length
    modifies buffer
    ensures buffer[..at] == old(buffer[..at]) && buffer[at..at + |t|] == t && buffer[at + |t|] == '\0'
  {
    for k := 0 to |t|
      invariant buffer[..at] == old(buffer[..at]) && buffer[at..at + k] == t[..k]
    {
      buffer[at + k] := t[k];
    }
    assert t[..|t|] == t;
    buffer[at + |t|] := '\0';
  }

  method GetJsonDataString(data: seq<Byte>, dataIndex: nat, numBytes: Byte, buffer: array<char>)
    returns (ret: int)
    requires buffer.Length > |TOO_SMALL|
    modifies buffer
    ensures ret == if dataIndex + numBytes > |data| then -1 else numBytes
    ensures ret < 0 ==> buffer[..] == old(buffer[..])
    ensures ret >= 0 ==>
              Holds(buffer, if 2 * numBytes + SIZE_OF_0x0 > buffer.Length then TOO_SMALL
                            else SliceText(data[dataIndex..dataIndex + numBytes]))
  {
    hide Trim, SliceText, BytesText, HexPair;
    EmptySlice();
    if dataIndex + numBytes > |data| {
      return -1;
    }
    if numBytes * 2 + SIZE_OF_0x0 > buffer.Length {
      WriteAt(buffer, 0, TOO_SMALL);
      return numBytes;
    }
    WriteAt(buffer, 0, "0x0");
    ghost var slice := data[dataIndex..dataIndex + numBytes];
    var leading, ptr := true, 2;
    var i := numBytes - 1;
    assert slice[numBytes..] == [];
    while i >= 0
      invariant -1 <= i < numBytes
      invariant leading <==> Trim(slice[i + 1..]) == []
      invariant ptr == 2 + 2 * |Trim(slice[i + 1..])|
      invariant Holds(buffer, SliceText(slice[i + 1..]))
    {
      ghost var rest, more := slice[i + 1..], slice[i..];
      var b := data[dataIndex + i];
      assert more == [b] + rest;
      TrimCons(b, rest);
      i := i - 1;
      assert slice[i + 1..] == more;
      if leading && b == 0 {
        ZeroSlice(rest);
        ZeroSlice(more);
        continue;
      }
      leading := false;
      ptr := PrintByte(buffer, ptr, b, rest);
    }
    assert slice[0..] == slice;
    return numBytes;
  }

  /** One more "%02x" after the digits printed so far (over the '0' when there are none). */
  method PrintByte(buffer: array<char>, ptr: nat, b: Byte, ghost rest: seq<Byte>) returns (next: nat)
    requires Holds(buffer, SliceText(rest)) && ptr == 2 + 2 * |Trim(rest)| && ptr + 2 < buffer.Length
    requires Trim(rest) == [] ==> b != 0
    modifies buffer
    ensures next == 2 + 2 * |Trim([b] + rest)|
    ensures Holds(buffer, SliceText([b] + rest))
  {
    hide Trim, SliceText, BytesText, HexPair;
    ghost var before := "0x" + BytesText(Trim(rest));
    assert buffer[..ptr] == before by {
      TextLength(rest);
      assert buffer[..][..|SliceText(rest)|] == SliceText(rest);
      PrintedSoFar(buffer[..], rest);
    }
    WriteAt(buffer, ptr, HexPair(b));
    next := ptr + 2;
    assert buffer[..next] == before + HexPair(b);
    TextOfCons(b, rest);
  }

  lemma ZeroSlice(s: seq<Byte>)
    ensures Trim(s) == [] ==> SliceText(s) == "0x0"
  {
  }

  lemma EmptySlice()
    ensures Trim([]) == [] && SliceText([]) == "0x0"
  {
  }

  lemma TextLength(s: seq<Byte>)
    ensures |SliceText(s)| == if Trim(s) == [] then 3 else 2 + 2 * |Trim(s)|
  {
  }

  lemma PrintedSoFar(content: string, rest: seq<Byte>)
    requires |SliceText(rest)| <= |content| && content[..|SliceText(rest)|] == SliceText(rest)
    ensures 2 + 2 * |Trim(rest)| <= |content|
    ensures content[..2 + 2 * |Trim(rest)|] == "0x" + BytesText(Trim(rest))
  {
    hide Trim, BytesText;
    if Trim(rest) == [] {
      assert content[..2] == content[..3][..2];
      assert BytesText([]) == [];
    }
  }

  lemma TextOfCons(b: Byte, rest: seq<Byte>)
    requires Trim(rest) == [] ==> b != 0
    ensures Trim([b] + rest) == [b] + Trim(rest)
    ensures SliceText([b] + rest) == "0x" + BytesText(Trim(rest)) + HexPair(b)
  {
    TrimCons(b, rest);
    assert ([b] + Trim(rest))[1..] == Trim(rest);
  }
}
