/** The TOR dump (logTorSectionICXSPR in engine/TorDump.c): three nested loops over CHAs, TOR
    indices and sub-indices with a skip flag that is carried from read to read. Entry n of a
    dump is the n-th turn of the innermost loop. */
module TorDump {
  import opened Numerals
  import opened Json
  import opened CmdInOut
  import opened DataString

  const TD_TORS_PER_CHA: nat := 32
  const TD_SUBINDEX_PER_TOR: nat := 8
  const PER_CHA: nat := 256
  const TD_NA := "N/A"

  datatype Answer = Answer(ret: int, cc: Byte, data: seq<Byte>)

  /** PECI's answer in each turn, should it be asked, and the section's "_skip_on_fail". */
  datatype Env = Env(answers: nat -> Answer, skipOnFail: bool)

  /** Where turn n stands. */
  function Cha(n: nat): nat { n / PER_CHA }
  function Index(n: nat): nat { n / TD_SUBINDEX_PER_TOR % TD_TORS_PER_CHA }
  function SubIndex(n: nat): nat { n % TD_SUBINDEX_PER_TOR }

  function Parent(n: nat): Path { ["cha" + Dec(Cha(n)), "index" + Dec(Index(n))] }
  function Key(n: nat): string { "subindex" + Dec(SubIndex(n)) }
  function PathOf(n: nat): Path { Parent(n) + [Key(n)] }

  /** The skip flag at turn n: cleared for each CHA, set by an unacceptable completion code. */
  predicate Skip(e: Env, n: nat) {
    n % PER_CHA != 0 && (Skip(e, n - 1) || (e.skipOnFail && Unacceptable(e.answers(n - 1).cc)))
  }

  /** torDumpJsonICXSPR: the text of an answer. */
  function AnswerText(a: Answer): string {
    if a.ret != PECI_CC_SUCCESS then "0x0" + CompletionText(a.cc, a.ret)
    else SliceText(a.data) + if Unacceptable(a.cc) then CompletionText(a.cc, a.ret) else []
  }

  function EntryText(e: Env, n: nat): string {
    if Skip(e, n) then TD_NA else AnswerText(e.answers(n))
  }

  /** Find or create the TOR object, then append the entry. */
  function AddEntry(t: Item, n: nat, text: string): Item {
    ResolveEnsurePath(t, Parent(n), Parent(n));
    AddAt(EnsurePath(t, Parent(n)), Parent(n), Key(n), Leaf(text))
  }

  /** The output after n turns. */
  function Tree(e: Env, t: Item, n: nat): Item {
    if n == 0 then t else AddEntry(Tree(e, t, n - 1), n - 1, EntryText(e, n - 1))
  }

  /** The turns in which PECI was asked. */
  function Asked(e: Env, n: nat): seq<nat> {
    if n == 0 then [] else Asked(e, n - 1) + if Skip(e, n - 1) then [] else [n - 1]
  }

  class Dump {
    var tree: Item
    var asked: seq<nat>

    constructor (t: Item)
      ensures tree == t && asked == []
    {
      tree, asked := t, [];
    }

    /** One turn: ask unless skipping, and log. */
    method Turn(e: Env, cha: nat, index: nat, sub: nat, skipCha: bool, ghost n: nat) returns (skip: bool)
      requires index < TD_TORS_PER_CHA && sub < TD_SUBINDEX_PER_TOR && n == cha * PER_CHA + index * 8 + sub
      requires skipCha == Skip(e, n)
      modifies this
      ensures tree == AddEntry(old(tree), n, EntryText(e, n))
      ensures asked == old(asked) + (if skipCha then [] else [n])
      ensures skip == (skipCha || (e.skipOnFail && Unacceptable(e.answers(n).cc)))
    {
      hide AddEntry, Skip, Unacceptable, SliceText, CompletionText;
      skip := skipCha;
      var text := TD_NA;
      if !skipCha {
        asked := asked + [cha * PER_CHA + index * 8 + sub];
        var a := e.answers(cha * PER_CHA + index * 8 + sub);
        if a.ret != PECI_CC_SUCCESS {
          text := "0x0" + CompletionText(a.cc, a.ret);
        } else {
          text := SliceText(a.data);
          if Unacceptable(a.cc) {
            text := text + CompletionText(a.cc, a.ret);
          }
        }
        if Unacceptable(a.cc) && e.skipOnFail {
          skip := true;
        }
      }
      TextIs(e, n, text);
      Position(n, cha, index, sub);
      TorDumpJson(cha, index, sub, text, n);
    }

    /** The output side of torDumpJsonICXSPR. */
    method TorDumpJson(cha: nat, index: nat, sub: nat, text: string, ghost n: nat)
      requires Cha(n) == cha && Index(n) == index && SubIndex(n) == sub
      modifies this`tree
      ensures tree == AddEntry(old(tree), n, text)
    {
      hide Digits, EnsurePath, AddAt;
      var parent := ["cha" + Dec(cha), "index" + Dec(index)];
      ResolveEnsurePath(tree, parent, parent);
      tree := EnsurePath(tree, parent);
      tree := AddAt(tree, parent, "subindex" + Dec(sub), Leaf(text));
    }

    lemma TextIs(e: Env, n: nat, text: string)
      requires text == (if Skip(e, n) then TD_NA
                        else if e.answers(n).ret != PECI_CC_SUCCESS
                        then "0x0" + CompletionText(e.answers(n).cc, e.answers(n).ret)
                        else if Unacceptable(e.answers(n).cc)
                        then SliceText(e.answers(n).data) + CompletionText(e.answers(n).cc, e.answers(n).ret)
                        else SliceText(e.answers(n).data))
      ensures text == EntryText(e, n)
    {
      hide SliceText, CompletionText, Skip, Unacceptable;
    }

    /** logTorSectionICXSPR. */
    method LogTorSection(e: Env, chaCount: nat)
      requires asked == []
      modifies this
      ensures tree == Tree(e, old(tree), chaCount * PER_CHA)
      ensures asked == Asked(e, chaCount * PER_CHA)
    {
      hide EntryText, AddEntry, Skip;
      var skipCha := false;
      for cha := 0 to chaCount
        invariant !skipCha
        invariant tree == Tree(e, old(tree), cha * PER_CHA) && asked == Asked(e, cha * PER_CHA)
      {
        SkipStarts(e, cha);
        for index := 0 to TD_TORS_PER_CHA
          invariant tree == Tree(e, old(tree), cha * PER_CHA + index * 8)
          invariant asked == Asked(e, cha * PER_CHA + index * 8)
          invariant index < TD_TORS_PER_CHA ==> skipCha == Skip(e, cha * PER_CHA + index * 8)
        {
          for sub := 0 to TD_SUBINDEX_PER_TOR
            invariant tree == Tree(e, old(tree), cha * PER_CHA + index * 8 + sub)
            invariant asked == Asked(e, cha * PER_CHA + index * 8 + sub)
            invariant index * 8 + sub < PER_CHA ==> skipCha == Skip(e, cha * PER_CHA + index * 8 + sub)
          {
            ghost var n := cha * PER_CHA + index * 8 + sub;
            Position(n, cha, index, sub);
            SkipNext(e, n);
            skipCha := Turn(e, cha, index, sub, skipCha, n);
          }
        }
        skipCha := false;
      }
    }
  }

  /** The loop variables of turn n. */
  lemma Position(n: nat, cha: nat, index: nat, sub: nat)
    requires index < TD_TORS_PER_CHA && sub < TD_SUBINDEX_PER_TOR && n == cha * PER_CHA + index * 8 + sub
    ensures Cha(n) == cha && Index(n) == index && SubIndex(n) == sub
    ensures (n + 1) % PER_CHA == 0 <==> index * 8 + sub + 1 == PER_CHA
  {
    UniqueQuotient(n, PER_CHA, cha, index * 8 + sub);
    UniqueQuotient(n, 8, cha * 32 + index, sub);
    UniqueQuotient(cha * 32 + index, 32, cha, index);
    if index * 8 + sub + 1 == PER_CHA {
      UniqueQuotient(n + 1, PER_CHA, cha + 1, 0);
    } else {
      UniqueQuotient(n + 1, PER_CHA, cha, index * 8 + sub + 1);
    }
  }

  lemma SkipStarts(e: Env, cha: nat)
    ensures !Skip(e, cha * PER_CHA)
  {
  }

  lemma SkipNext(e: Env, n: nat)
    ensures (n + 1) % PER_CHA != 0 ==>
              Skip(e, n + 1) == (Skip(e, n) || (e.skipOnFail && Unacceptable(e.answers(n).cc)))
  {
  }

  /******* Skipping *******/

  /** The i-th answer of a CHA carries an unacceptable completion code. */
  predicate Rejected(e: Env, cha: nat, i: nat) {
    Unacceptable(e.answers(cha * PER_CHA + i).cc)
  }

  /** Each CHA is a run of reads that ends with the first unacceptable completion code and then
      nothing but "N/A"; the next CHA reads again. Without the option nothing is skipped. */
  lemma {:induction false} SkipExactly(e: Env, cha: nat, j: nat)
    requires j < PER_CHA
    ensures Skip(e, cha * PER_CHA + j) <==>
              e.skipOnFail && exists i :: 0 <= i < j && Rejected(e, cha, i)
  {
    hide Unacceptable;
    var n := cha * PER_CHA + j;
    assert n % PER_CHA == j;
    if j > 0 {
      SkipExactly(e, cha, j - 1);
      assert n - 1 == cha * PER_CHA + (j - 1);
      assert Rejected(e, cha, j - 1) == Unacceptable(e.answers(n - 1).cc);
    }
  }

  lemma {:induction false} AskedExactly(e: Env, n: nat, k: nat)
    ensures k in Asked(e, n) <==> k < n && !Skip(e, k)
  {
    hide Skip;
    if n > 0 {
      AskedExactly(e, n - 1, k);
    }
  }

  /** The whole dump in one statement: in each CHA, up to and including the first turn with an
      unacceptable code PECI is asked and the entry shows the answer; after it, it is not asked
      and the entry is "N/A". */
  lemma EntryOf(e: Env, chaCount: nat, cha: nat, j: nat)
    requires cha < chaCount && j < PER_CHA
    ensures var n := cha * PER_CHA + j;
            var skipped := e.skipOnFail && exists i :: 0 <= i < j && Rejected(e, cha, i);
            && (n in Asked(e, chaCount * PER_CHA) <==> !skipped)
            && EntryText(e, n) == if skipped then TD_NA else AnswerText(e.answers(n))
  {
    hide Skip, Rejected, AnswerText, Asked;
    SkipExactly(e, cha, j);
    var n := cha * PER_CHA + j;
    assert n < chaCount * PER_CHA;
    AskedExactly(e, chaCount * PER_CHA, n);
  }

  /******* Where the entries are *******/

  lemma PathInjective(m: nat, n: nat)
    requires PathOf(m) == PathOf(n)
    ensures m == n
  {
    hide Digits;
    var p, q := PathOf(m), PathOf(n);
    assert p[0] == q[0] && p[1] == q[1] && p[2] == q[2];
    assert p[0][3..] == Dec(Cha(m)) && q[0][3..] == Dec(Cha(n));
    assert p[1][5..] == Dec(Index(m)) && q[1][5..] == Dec(Index(n));
    assert p[2][8..] == Dec(SubIndex(m)) && q[2][8..] == Dec(SubIndex(n));
    DigitsInjective(Cha(m), Cha(n), Ten);
    DigitsInjective(Index(m), Index(n), Ten);
    DigitsInjective(SubIndex(m), SubIndex(n), Ten);
    Composed(m);
    Composed(n);
  }

  lemma Composed(n: nat)
    ensures n == Cha(n) * 256 + Index(n) * 8 + SubIndex(n)
  {
  }

  /** Adding entry n puts its leaf at its own path and touches no other entry. */
  lemma AddEntryResolves(t: Item, n: nat, text: string, k: nat)
    requires Resolve(t, PathOf(n)).None?
    ensures Resolve(AddEntry(t, n, text), PathOf(k)) == if k == n then Some(Leaf(text)) else Resolve(t, PathOf(k))
  {
    var p, q := Parent(n), PathOf(k);
    var u := EnsurePath(t, p);
    if k != n && q[..2] == p && q[2] == Key(n) {
      assert q == PathOf(n);
      PathInjective(k, n);
    }
    hide Parent, Key;
    ResolveEnsurePath(t, p, p);
    ResolveEnsurePath(t, p, q);
    ResolveEnsurePath(t, p, PathOf(n));
    ResolveAddAt(u, p, Key(n), Leaf(text), q);
    ResolveSnoc(u, p, Key(n));
    if p < q {
      assert q[..2] == p;
    }
  }

  lemma {:induction false} ResolveSnoc(t: Item, p: Path, key: string)
    requires Resolve(t, p).Some?
    ensures Resolve(t, p + [key]) == Find(Resolve(t, p).value, key)
    decreases |p|
  {
    if p == [] {
      assert ([] + [key])[1..] == [];
    } else {
      assert (p + [key])[1..] == p[1..] + [key];
      ResolveSnoc(Find(t, p[0]).value, p[1..], key);
    }
  }

  /** After n turns every entry made is found at its path with its text, and none else. */
  lemma {:induction false} EntriesInPlace(e: Env, t: Item, n: nat, k: nat)
    requires forall m: nat :: Resolve(t, PathOf(m)).None?
    ensures Resolve(Tree(e, t, n), PathOf(k)) == if k < n then Some(Leaf(EntryText(e, k))) else None
  {
    hide AddEntry, PathOf, EntryText, Resolve;
    if n > 0 {
      EntriesInPlace(e, t, n - 1, k);
      EntriesInPlace(e, t, n - 1, n - 1);
      AddEntryResolves(Tree(e, t, n - 1), n - 1, EntryText(e, n - 1), k);
    }
  }

  /** n turns add n values: 256 for each CHA, whatever fails. */
  lemma {:induction false} OneEntryPerTurn(e: Env, t: Item, n: nat)
    ensures Leaves(Tree(e, t, n)) == Leaves(t) + n
  {
    hide EntryText, Parent, Key;
    if n > 0 {
      OneEntryPerTurn(e, t, n - 1);
      var u := Tree(e, t, n - 1);
      LeavesEnsurePath(u, Parent(n - 1));
      ResolveEnsurePath(u, Parent(n - 1), Parent(n - 1));
      LeavesAddAt(EnsurePath(u, Parent(n - 1)), Parent(n - 1), Key(n - 1), Leaf(EntryText(e, n - 1)));
    }
  }

  /******* What an entry reads *******/

  /** A failed call shows its codes; a good answer its data; an unacceptable one both. */
  predicate ShowsAnswer(text: string, a: Answer) {
    if a.ret != PECI_CC_SUCCESS then "0x0" <= text && IsCodes(text[3..], a.cc, a.ret)
    else if a.cc == PECI_DEV_CC_SUCCESS || a.cc == PECI_DEV_CC_FATAL_MCA_DETECTED then ShowsBytes(text, a.data)
    else
      var value := SliceText(a.data);
      value <= text && ShowsBytes(value, a.data) && IsCodes(text[|value|..], a.cc, a.ret)
  }

  /** Entry n reads "N/A" if it was skipped, and else what PECI answered. */
  lemma EntryShows(e: Env, n: nat)
    ensures if Skip(e, n) then EntryText(e, n) == "N/A" else ShowsAnswer(EntryText(e, n), e.answers(n))
  {
    hide Skip, IsCodes, CompletionText, ShowsBytes, SliceText;
    var a := e.answers(n);
    SliceTextShows(a.data);
    CompletionTextIs(a.cc, a.ret);
    var codes := CompletionText(a.cc, a.ret);
    assert ("0x0" + codes)[3..] == codes;
    assert (SliceText(a.data) + codes)[|SliceText(a.data)|..] == codes;
    assert SliceText(a.data) + [] == SliceText(a.data);
  }

  /** The entry of a CHA, a TOR index and a sub-index is turn cha * 256 + index * 8 + subindex. */
  lemma PathIs(cha: nat, index: nat, sub: nat)
    requires index < 32 && sub < 8
    ensures PathOf(cha * 256 + index * 8 + sub) == ["cha" + Dec(cha), "index" + Dec(index), "subindex" + Dec(sub)]
  {
    hide Digits;
    Position(cha * 256 + index * 8 + sub, cha, index, sub);
  }
}
