/** Numbers as the collector prints and parses them: hexadecimal text, decimal text, and the
    rounding that a JSON number (an IEEE double) applies to a 64-bit integer. */
module Numerals {

  const TWO_TO_THE_32: nat := 0x1_0000_0000
  const TWO_TO_THE_53: nat := 0x20_0000_0000_0000
  const TWO_TO_THE_64: nat := 0x1_0000_0000_0000_0000

  type Byte = b: int | 0 <= b < 256
  type Uint16 = n: int | 0 <= n < 0x1_0000
  type Uint32 = n: int | 0 <= n < TWO_TO_THE_32
  type Uint64 = n: int | 0 <= n < TWO_TO_THE_64

  datatype Option<+T> = None | Some(value: T) {
    function GetOr(default: T): T {
      if Some? then value else default
    }
  }

  /******* Positional text in an arbitrary base up to sixteen *******/

  const HEX_DIGITS: string := "0123456789abcdef"

  function DigitValue(c: char): (d: Option<nat>)
    ensures d.Some? ==> d.value < 16
  {
    if '0' <= c <= '9' then Some(c as int - '0' as int)
    else if 'a' <= c <= 'f' then Some(c as int - 'a' as int + 10)
    else if 'A' <= c <= 'F' then Some(c as int - 'A' as int + 10)
    else None
  }

  predicate AllDigits(s: string) {
    forall i :: 0 <= i < |s| ==> DigitValue(s[i]).Some?
  }

  datatype Base = Ten | Sixteen

  function Quotient(n: nat, base: Base): nat { if base.Ten? then n / 10 else n / 16 }

  function Remainder(n: nat, base: Base): nat { if base.Ten? then n % 10 else n % 16 }

  /** The digits of n, most significant first, without leading zeros ("0" for zero). */
  function Digits(n: nat, base: Base): (s: string)
    ensures |s| > 0 && AllDigits(s)
    decreases n
  {
    if Quotient(n, base) == 0 then [HEX_DIGITS[n]]
    else Digits(Quotient(n, base), base) + [HEX_DIGITS[Remainder(n, base)]]
  }

  /** The number a digit string denotes. */
  function Value(s: string, base: Base): nat
    requires AllDigits(s)
  {
    if s == [] then 0
    else Value(s[..|s| - 1], base) * (if base.Ten? then 10 else 16) + DigitValue(s[|s| - 1]).value
  }

  lemma DigitRoundTrip(d: nat)
    requires d < 16
    ensures DigitValue(HEX_DIGITS[d]) == Some(d)
  {
  }

  lemma ValueSnoc(s: string, c: char, base: Base)
    requires AllDigits(s) && DigitValue(c).Some?
    ensures AllDigits(s + [c])
    ensures Value(s + [c], base) == Value(s, base) * (if base.Ten? then 10 else 16) + DigitValue(c).value
  {
    assert (s + [c])[..|s|] == s;
  }

  lemma {:induction false} ValueOfDigits(n: nat, base: Base)
    ensures Value(Digits(n, base), base) == n
    decreases n
  {
    hide DigitValue;
    var q, r := Quotient(n, base), Remainder(n, base);
    DigitRoundTrip(r);
    if q == 0 {
      assert Digits(n, base) == [] + [HEX_DIGITS[n]];
      ValueSnoc([], HEX_DIGITS[n], base);
    } else {
      ValueOfDigits(q, base);
      ValueSnoc(Digits(q, base), HEX_DIGITS[r], base);
    }
  }

  /** Different numbers print differently. */
  lemma DigitsInjective(m: nat, n: nat, base: Base)
    requires Digits(m, base) == Digits(n, base)
    ensures m == n
  {
    ValueOfDigits(m, base);
    ValueOfDigits(n, base);
  }

  /** printf "%d" of a non-negative number. */
  function Dec(n: nat): string { Digits(n, Ten) }

  /** printf "0x%x". */
  function PrintHex(n: nat): string { "0x" + Digits(n, Sixteen) }

  /** The longest prefix made of hexadecimal digits, where strtoull stops reading. */
  function DigitPrefix(s: string): (p: string)
    ensures AllDigits(p) && p <= s
    ensures |p| < |s| ==> DigitValue(s[|p|]).None?
  {
    if s == [] || DigitValue(s[0]).None? then [] else [s[0]] + DigitPrefix(s[1..])
  }

  predicate HasHexPrefix(s: string) {
    |s| >= 3 && s[0] == '0' && (s[1] == 'x' || s[1] == 'X') && DigitValue(s[2]).Some?
  }

  /** strtoull(s, NULL, Sixteen): optional "0x", longest run of digits, saturating at 64 bits. */
  function ParseHex(s: string): (n: nat)
    ensures n < TWO_TO_THE_64
  {
    var body := if HasHexPrefix(s) then s[2..] else s;
    var v := Value(DigitPrefix(body), Sixteen);
    if v < TWO_TO_THE_64 then v else TWO_TO_THE_64 - 1
  }

  lemma {:induction false} DigitPrefixOfDigits(s: string)
    requires AllDigits(s)
    ensures DigitPrefix(s) == s
  {
    if s != [] {
      DigitPrefixOfDigits(s[1..]);
    }
  }

  lemma ParseDigits(body: string)
    requires body != [] && AllDigits(body) && Value(body, Sixteen) < TWO_TO_THE_64
    ensures ParseHex("0x" + body) == Value(body, Sixteen)
  {
    hide Value, DigitValue;
    var s := "0x" + body;
    assert s[2..] == body;
    assert s[2] == body[0];
    DigitPrefixOfDigits(body);
  }

  /** Print then parse is the identity on 64-bit values. */
  lemma ParsePrintHex(n: nat)
    requires n < TWO_TO_THE_64
    ensures ParseHex(PrintHex(n)) == n
  {
    ValueOfDigits(n, Sixteen);
    ParseDigits(Digits(n, Sixteen));
  }

  /** IsValidHexString: "0x" followed by one or more hexadecimal digits and nothing else. */
  predicate IsHexLiteral(s: string) {
    |s| > 2 && s[0] == '0' && s[1] == 'x' && AllDigits(s[2..])
  }

  /******* Bits *******/

  function Pow2(i: nat): (p: nat)
    ensures p >= 1
  {
    if i == 0 then 1 else 2 * Pow2(i - 1)
  }

  lemma Pow2Of32()
    ensures Pow2(32) == TWO_TO_THE_32
  {
    assert Pow2(8) == 0x100;
    assert Pow2(16) == 0x1_0000;
    assert Pow2(24) == 0x100_0000;
  }

  /** CHECK_BIT: bit i of n is set. */
  predicate Bit(n: nat, i: nat) {
    n / Pow2(i) % 2 == 1
  }

  /** __builtin_popcount. */
  function Popcount(n: nat): nat {
    if n == 0 then 0 else n % 2 + Popcount(n / 2)
  }

  lemma {:induction false} PopcountBound(n: nat, width: nat)
    requires n < Pow2(width)
    ensures Popcount(n) <= width
  {
    if n > 0 {
      PopcountBound(n / 2, width - 1);
    }
  }

  /******* Doubles *******/

  /** The gap between neighbouring doubles at magnitude n. */
  function Ulp(n: nat): (u: nat)
    ensures u >= 1
    decreases n
  {
    if n < TWO_TO_THE_53 then 1 else 2 * Ulp(n / 2)
  }

  /** (double)n for an unsigned integer n, rounding to nearest with ties to even. */
  function ToDouble(n: nat): nat {
    var u := Ulp(n);
    var below, r := n / u * u, n % u;
    if 2 * r < u || (2 * r == u && n / u % 2 == 0) then below else below + u
  }

  lemma DivMod(n: nat, u: nat)
    requires u >= 1
    ensures n == n / u * u + n % u && n % u < u
  {
  }

  /** A double holds n exactly just when n is a multiple of the local gap; in particular
      every integer below 2^53 survives. */
  lemma ToDoubleExact(n: nat)
    ensures ToDouble(n) == n <==> n % Ulp(n) == 0
    ensures n < TWO_TO_THE_53 ==> ToDouble(n) == n
  {
    DivMod(n, Ulp(n));
  }

  /******* Division *******/

  /** Quotient and remainder are unique. */
  lemma UniqueQuotient(n: nat, d: nat, q: nat, r: nat)
    requires d >= 1 && n == q * d + r && r < d
    ensures n / d == q && n % d == r
  {
    var q', r' := n / d, n % d;
    assert q' * d + r' == q * d + r;
    Times(q' + 1, q, d);
    Times(q + 1, q', d);
  }

  lemma Times(a: nat, b: nat, d: nat)
    ensures a <= b ==> a * d <= b * d
  {
  }
}
