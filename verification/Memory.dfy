/** Qwords in memory: little-endian, one behind the other. */
module Memory {
  import opened Numerals
  import opened DataString

  /** The k low-order bytes of a number, least significant first. */
  function LowBytes(n: nat, k: nat): (b: seq<Byte>)
    ensures |b| == k
  {
    if k == 0 then [] else [n % 256] + LowBytes(n / 256, k - 1)
  }

  function WordBytes(w: Uint64): (b: seq<Byte>)
    ensures |b| == 8
  {
    LowBytes(w, 8)
  }

  function Bytes(words: seq<Uint64>): (b: seq<Byte>)
    ensures |b| == 8 * |words|
  {
    if words == [] then [] else Bytes(words[..|words| - 1]) + WordBytes(words[|words| - 1])
  }

  function Zeros(n: nat): (z: seq<Byte>)
    ensures |z| == n && forall i :: 0 <= i < n ==> z[i] == 0
  {
    if n == 0 then [] else Zeros(n - 1) + [0]
  }

  lemma {:induction false} LowBytesValue(n: nat, k: nat)
    requires n < Pow256(k)
    ensures LittleEndian(LowBytes(n, k)) == n
  {
    if k > 0 {
      LowBytesValue(n / 256, k - 1);
      assert LowBytes(n, k)[1..] == LowBytes(n / 256, k - 1);
    }
  }

  /** The eight bytes of a qword denote it. */
  lemma WordBytesValue(w: Uint64)
    ensures LittleEndian(WordBytes(w)) == w
  {
    assert Pow256(8) == TWO_TO_THE_64;
    LowBytesValue(w, 8);
  }

  /** Each qword stands at its own eight bytes. */
  lemma {:induction false} BytesAt(words: seq<Uint64>, k: nat)
    requires k < |words|
    ensures Bytes(words)[8 * k..8 * k + 8] == WordBytes(words[k])
  {
    hide WordBytes;
    var init := words[..|words| - 1];
    if k == |words| - 1 {
      assert Bytes(words)[|Bytes(init)|..] == WordBytes(words[k]);
    } else {
      BytesAt(init, k);
      assert Bytes(words)[8 * k..8 * k + 8] == Bytes(init)[8 * k..8 * k + 8];
    }
  }

  lemma {:induction false} ZeroBytes(k: nat)
    ensures LowBytes(0, k) == Zeros(k)
  {
    if k > 0 {
      ZeroBytes(k - 1);
    }
  }

  /** Zero words behind the others are zero bytes behind the others. */
  lemma {:induction false} BytesOfZeros(words: seq<Uint64>, content: seq<Uint64>)
    requires |words| <= |content| && content[..|words|] == words
    requires forall k :: |words| <= k < |content| ==> content[k] == 0
    ensures Bytes(content) == Bytes(words) + Zeros(8 * (|content| - |words|))
  {
    hide LowBytes;
    if |content| == |words| {
      assert content == words;
    } else {
      var init := content[..|content| - 1];
      assert init[..|words|] == words;
      BytesOfZeros(words, init);
      ZeroBytes(8);
      assert Bytes(content) == Bytes(init) + WordBytes(0);
    }
  }
}
