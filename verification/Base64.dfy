/** base64Encode (engine/base64Encode.c): the loop that writes into a character buffer, and an
    independent decoder for section 4 of RFC 4648. */
module Base64 {
  import opened Numerals
  import opened DataString

  const ENCODE_TABLE :=
    "ABCDEFGHIJKLM" + "NOPQRSTUVWXYZ" + "abcdefghijklm" + "nopqrstuvwxyz" + "0123456789+/"

  /** getEncodedValueFromTable: beyond the table stands the padding character. */
  function GetEncodedValueFromTable(bits: nat): char {
    if |ENCODE_TABLE| - 1 < bits then '=' else ENCODE_TABLE[bits]
  }

  /******* The standard *******/

  /** Table 1 of RFC 4648, read backwards. */
  function CharValue(c: char): (v: Option<nat>)
    ensures v.Some? ==> v.value < 64
  {
    if 'A' <= c <= 'Z' then Some((c - 'A') as nat)
    else if 'a' <= c <= 'z' then Some((c - 'a') as nat + 26)
    else if '0' <= c <= '9' then Some((c - '0') as nat + 52)
    else if c == '+' then Some(62)
    else if c == '/' then Some(63)
    else None
  }

  /** One, two or three bytes from a group of four characters. The bits that do not fill a byte
      must be zero (section 3.5), and padding completes the group. */
  function DecodeGroup(a: char, b: char, c: char, d: char): Option<seq<Byte>> {
    var va, vb, vc, vd := CharValue(a), CharValue(b), CharValue(c), CharValue(d);
    if va.None? || vb.None? then None
    else
      var first := va.value * 4 + vb.value / 16;
      if c == '=' && d == '=' then (if vb.value % 16 == 0 then Some([first]) else None)
      else if vc.None? then None
      else
        var second := vb.value % 16 * 16 + vc.value / 4;
        if d == '=' then (if vc.value % 4 == 0 then Some([first, second]) else None)
        else if vd.None? then None
        else Some([first, second, vc.value % 4 * 64 + vd.value])
  }

  /** Decode a whole text; only the last group may be padded. */
  function Decode(t: string): Option<seq<Byte>>
    decreases |t|
  {
    if t == [] then Some([])
    else if |t| < 4 then None
    else
      var group := DecodeGroup(t[0], t[1], t[2], t[3]);
      if group.None? then None
      else if |group.value| < 3 then (if |t| == 4 then group else None)
      else
        var rest := Decode(t[4..]);
        if rest.None? then None else Some(group.value + rest.value)
  }

  /******* The encoding *******/

  /** Four characters for one, two or three bytes. */
  function Group(s: seq<Byte>): (g: string)
    requires 1 <= |s| <= 3
    ensures |g| == 4
  {
    var second := if |s| > 1 then s[1] else 0;
    var third := if |s| > 2 then s[2] else 0;
    [GetEncodedValueFromTable(s[0] / 4),
     GetEncodedValueFromTable(s[0] % 4 * 16 + second / 16),
     GetEncodedValueFromTable(if |s| > 1 then second % 16 * 4 + third / 64 else 64),
     GetEncodedValueFromTable(if |s| > 2 then third % 64 else 64)]
  }

  function Encode(s: seq<Byte>): string {
    if s == [] then []
    else if |s| <= 3 then Group(s)
    else Group(s[..3]) + Encode(s[3..])
  }

  lemma {:induction false} EncodeLength(s: seq<Byte>)
    ensures |Encode(s)| == 4 * ((|s| + 2) / 3)
  {
    hide Group;
    if |s| > 3 {
      EncodeLength(s[3..]);
    }
  }

  lemma TableValue(v: nat)
    requires v < 64
    ensures CharValue(GetEncodedValueFromTable(v)) == Some(v) && GetEncodedValueFromTable(v) != '='
  {
    if v < 13 {
      assert v == 0 || v == 1 || v == 2 || v == 3 || v == 4 || v == 5 || v == 6
          || v == 7 || v == 8 || v == 9 || v == 10 || v == 11 || v == 12;
    } else if v < 26 {
      assert v == 13 || v == 14 || v == 15 || v == 16 || v == 17 || v == 18 || v == 19
          || v == 20 || v == 21 || v == 22 || v == 23 || v == 24 || v == 25;
    } else if v < 39 {
      assert v == 26 || v == 27 || v == 28 || v == 29 || v == 30 || v == 31 || v == 32
          || v == 33 || v == 34 || v == 35 || v == 36 || v == 37 || v == 38;
    } else if v < 52 {
      assert v == 39 || v == 40 || v == 41 || v == 42 || v == 43 || v == 44 || v == 45
          || v == 46 || v == 47 || v == 48 || v == 49 || v == 50 || v == 51;
    } else {
      assert v == 52 || v == 53 || v == 54 || v == 55 || v == 56 || v == 57 || v == 58
          || v == 59 || v == 60 || v == 61 || v == 62 || v == 63;
    }
  }

  lemma ValueTable(c: char)
    ensures CharValue(c).Some? ==> GetEncodedValueFromTable(CharValue(c).value) == c && c != '='
  {
    if CharValue(c).Some? {
      var v := CharValue(c).value;
      TableValue(v);
      SameCharValue(c, GetEncodedValueFromTable(v));
    }
  }

  lemma SameCharValue(c: char, d: char)
    requires CharValue(c).Some? && CharValue(c) == CharValue(d)
    ensures c == d
  {
  }

  lemma GroupDecodes(s: seq<Byte>)
    requires 1 <= |s| <= 3
    ensures var g := Group(s);
            DecodeGroup(g[0], g[1], g[2], g[3]) == Some(s)
  {
    hide CharValue, GetEncodedValueFromTable;
    var second := if |s| > 1 then s[1] else 0;
    var third := if |s| > 2 then s[2] else 0;
    TableValue(s[0] / 4);
    TableValue(s[0] % 4 * 16 + second / 16);
    TableValue(second % 16 * 4 + third / 64);
    TableValue(third % 64);
    Padding();
    assert s == if |s| == 1 then [s[0]] else if |s| == 2 then [s[0], s[1]] else [s[0], s[1], s[2]];
  }

  lemma Padding()
    ensures GetEncodedValueFromTable(64) == '=' && CharValue('=').None?
  {
  }

  /** Encoding followed by a standard decoder is the identity, so encoding is injective. */
  lemma {:induction false} RoundTrip(s: seq<Byte>)
    ensures Decode(Encode(s)) == Some(s)
    decreases |s|
  {
    hide Group, DecodeGroup;
    if s == [] {
    } else if |s| <= 3 {
      GroupDecodes(s);
      var g := Group(s);
      assert g[4..] == [];
      assert s + [] == s;
    } else {
      GroupDecodes(s[..3]);
      RoundTrip(s[3..]);
      var t := Group(s[..3]) + Encode(s[3..]);
      assert t[4..] == Encode(s[3..]) && t[..4] == Group(s[..3]);
      assert s[..3] + s[3..] == s;
    }
  }

  lemma EncodeInjective(a: seq<Byte>, b: seq<Byte>)
    requires Encode(a) == Encode(b)
    ensures a == b
  {
    RoundTrip(a);
    RoundTrip(b);
  }

  lemma DecodedGroup(a: char, b: char, c: char, d: char)
    requires DecodeGroup(a, b, c, d).Some?
    ensures var s := DecodeGroup(a, b, c, d).value;
            1 <= |s| <= 3 && Group(s) == [a, b, c, d]
  {
    hide CharValue, GetEncodedValueFromTable;
    Padding();
    ValueTable(a);
    ValueTable(b);
    ValueTable(c);
    ValueTable(d);
  }

  /** The texts that decode are exactly the encodings. */
  lemma {:induction false} DecodesOnlyEncodings(t: string, s: seq<Byte>)
    requires Decode(t) == Some(s)
    ensures t == Encode(s)
    decreases |t|
  {
    hide Group, DecodeGroup;
    if t != [] {
      DecodedGroup(t[0], t[1], t[2], t[3]);
      var group := DecodeGroup(t[0], t[1], t[2], t[3]).value;
      assert [t[0], t[1], t[2], t[3]] == t[..4];
      if |group| == 3 {
        var rest := Decode(t[4..]).value;
        DecodesOnlyEncodings(t[4..], rest);
        assert s[..3] == group && s[3..] == rest;
        assert t[..4] + t[4..] == t;
        if rest == [] {
          assert s == group && t[4..] == [];
        }
      } else {
        assert t[..4] == t;
      }
    }
  }

  /** Padding stands only at the end, as many characters as bytes are missing from the last
      group; everything else is in the alphabet. */
  lemma {:induction false} PaddingOnlyAtEnd(s: seq<Byte>, i: nat)
    requires i < |Encode(s)|
    ensures Encode(s)[i] == '=' <==> i >= |Encode(s)| - (3 - |s| % 3) % 3
    ensures Encode(s)[i] != '=' ==> CharValue(Encode(s)[i]).Some?
    decreases |s|
  {
    hide Group, CharValue;
    if |s| <= 3 {
      GroupPadding(s, i);
    } else {
      var rest := s[3..];
      EncodeLength(rest);
      assert Encode(s) == Group(s[..3]) + Encode(rest);
      if i < 4 {
        GroupPadding(s[..3], i);
      } else {
        PaddingOnlyAtEnd(rest, i - 4);
      }
    }
  }

  lemma GroupPadding(s: seq<Byte>, i: nat)
    requires 1 <= |s| <= 3 && i < 4
    ensures Group(s)[i] == '=' <==> i > |s|
    ensures Group(s)[i] != '=' ==> CharValue(Group(s)[i]).Some?
  {
    hide CharValue, GetEncodedValueFromTable;
    var second := if |s| > 1 then s[1] else 0;
    var third := if |s| > 2 then s[2] else 0;
    TableValue(s[0] / 4);
    TableValue(s[0] % 4 * 16 + second / 16);
    TableValue(second % 16 * 4 + third / 64);
    TableValue(third % 64);
    Padding();
  }

  /******* The loop *******/

  /** The first group comes off, even when it is the only one. */
  lemma EncodeStep(s: seq<Byte>)
    requires |s| >= 3
    ensures Encode(s) == Group(s[..3]) + Encode(s[3..])
  {
    hide Group;
    if |s| == 3 {
      assert s[..3] == s && s[3..] == [];
    }
  }

  lemma {:induction false} EncodeAppend(a: seq<Byte>, b: seq<Byte>)
    requires |a| % 3 == 0
    ensures Encode(a + b) == Encode(a) + Encode(b)
    decreases |a|
  {
    hide Group, Encode;
    EncodeNothing();
    if a == [] {
      assert a + b == b;
    } else {
      EncodeAppend(a[3..], b);
      EncodeStep(a);
      EncodeStep(a + b);
      assert (a + b)[..3] == a[..3] && (a + b)[3..] == a[3..] + b;
    }
  }

  /** Write one group at an offset. */
  method WriteGroup(encoded: array<char>, at: nat, s: seq<Byte>) returns (next: nat)
    requires 1 <= |s| <= 3 && at + 4 <= encoded.Length
    modifies encoded
    ensures next == at + 4 && encoded[..next] == old(encoded[..at]) + Group(s)
  {
    hide GetEncodedValueFromTable;
    var bits := s[0] / 4;
    encoded[at] := GetEncodedValueFromTable(bits);
    bits := s[0] % 4 * 16;
    if |s| == 1 {
      encoded[at + 1] := GetEncodedValueFromTable(bits);
      encoded[at + 2] := GetEncodedValueFromTable(64);
      encoded[at + 3] := GetEncodedValueFromTable(64);
    } else {
      bits := bits + s[1] / 16;
      encoded[at + 1] := GetEncodedValueFromTable(bits);
      bits := s[1] % 16 * 4;
      if |s| == 2 {
        encoded[at + 2] := GetEncodedValueFromTable(bits);
        encoded[at + 3] := GetEncodedValueFromTable(64);
      } else {
        bits := bits + s[2] / 64;
        encoded[at + 2] := GetEncodedValueFromTable(bits);
        bits := s[2] % 64;
        encoded[at + 3] := GetEncodedValueFromTable(bits);
      }
    }
    return at + 4;
  }

  /** base64Encode: whole groups, then a padded one, then the terminator; every write stays
      inside a buffer of 4 * ceil(n / 3) + 1 characters. */
  method Base64Encode(src: seq<Byte>, srcSize: Uint16, encoded: array<char>)
    requires srcSize <= |src| && 4 * ((srcSize + 2) / 3) < encoded.Length
    modifies encoded
    ensures Holds(encoded, Encode(src[..srcSize]))
  {
    hide Group, Encode;
    var text, out := 0, 0;
    var size := srcSize;
    EncodeNothing();
    assert src[..0] == [];
    while 2 < size
      invariant text == srcSize - size && text % 3 == 0 && out == 4 * (text / 3)
      invariant encoded[..out] == Encode(src[..text])
    {
      ghost var group := src[text..text + 3];
      EncodeAppend(src[..text], group);
      EncodeGroup(group);
      assert src[..text] + group == src[..text + 3];
      out := WriteGroup(encoded, out, [src[text], src[text + 1], src[text + 2]]);
      assert group == [src[text], src[text + 1], src[text + 2]];
      text := text + 3;
      size := size - 3;
    }
    if size != 0 {
      ghost var group := src[text..text + size];
      EncodeAppend(src[..text], group);
      EncodeGroup(group);
      assert src[..text] + group == src[..srcSize];
      if size == 1 {
        assert group == [src[text]];
        out := WriteGroup(encoded, out, [src[text]]);
      } else {
        assert group == [src[text], src[text + 1]];
        out := WriteGroup(encoded, out, [src[text], src[text + 1]]);
      }
    }
    encoded[out] := '\0';
  }

  lemma EncodeNothing()
    ensures Encode([]) == []
  {
  }

  lemma EncodeGroup(s: seq<Byte>)
    requires 1 <= |s| <= 3
    ensures Encode(s) == Group(s)
  {
  }
}
