/** Where the logger puts a value (engine/logger.c): path templates such as "crash_data/cpu%d"
    are substituted from the loop context and created on demand in the output tree. */
module Logger {
  import opened Numerals
  import opened Json

  datatype Context = Context(cpu: Byte, core: Byte, thread: Byte, cha: Byte)

  const MAX_PATH_TOKENS: nat := 10

  /** One path token with its placeholder, if it is one, filled in. */
  function Substitute(token: string, ctx: Context): string {
    if token == "cpu%d" then "cpu" + Dec(ctx.cpu)
    else if token == "core%d" then "core" + Dec(ctx.core)
    else if token == "thread%d" then "thread" + Dec(ctx.thread)
    else if token == "cha%d" then "cha" + Dec(ctx.cha)
    else if token == "cbo%d" then "cbo" + Dec(ctx.cha)
    else if token == "CBO%d" then "CBO" + Dec(ctx.cha)
    else token
  }

  function Keys(tokens: Path, ctx: Context): (keys: Path)
    ensures |keys| == |tokens|
  {
    seq(|tokens|, i requires 0 <= i < |tokens| => Substitute(tokens[i], ctx))
  }

  /** A section's output path: its tokens and the level RootAtLevel names (255 when absent). */
  datatype Place = Place(tokens: Path, rootAtLevel: nat) {
    predicate Valid() { |tokens| <= MAX_PATH_TOKENS }

    function RootLevel(): (n: nat)
      ensures n <= |tokens|
    {
      if rootAtLevel <= |tokens| then rootAtLevel else |tokens|
    }
  }

  /** The path of the item that section-wide values go to. */
  function RootPath(place: Place, ctx: Context): Path {
    Keys(place.tokens, ctx)[..place.RootLevel()]
  }

  /** The path of the item that a command's register goes to. */
  function RegisterPath(place: Place, ctx: Context, extra: Option<string>): Path {
    Keys(place.tokens, ctx) + (if extra.Some? then [extra.value] else [])
  }

  class OutputTree {
    var root: Item

    constructor (t: Item)
      ensures root == t
    {
      root := t;
    }

    /** GenerateJsonPath: walk the tokens level by level, appending an object wherever the
        lookup fails, and return the item reached. */
    method GenerateJsonPath(place: Place, ctx: Context, useRootPath: bool, extra: Option<string>)
      returns (node: Path)
      requires place.Valid()
      modifies this
      ensures node == if useRootPath then RootPath(place, ctx) else RegisterPath(place, ctx, extra)
      ensures root == EnsurePath(old(root), node)
      ensures Resolve(root, node).Some?
    {
      ghost var keys := Keys(place.tokens, ctx);
      var itemsToProcess := |place.tokens|;
      if useRootPath && place.rootAtLevel <= |place.tokens| {
        itemsToProcess := place.rootAtLevel;
      }
      node := [];
      for i := 0 to itemsToProcess
        invariant node == keys[..i]
        invariant root == EnsurePath(old(root), node)
      {
        var key := Substitute(place.tokens[i], ctx);
        assert keys[..i + 1] == keys[..i] + [key];
        node := FindOrCreate(node, key, old(root));
      }
      ResolveEnsurePath(old(root), node, node);
      if !useRootPath && extra.Some? {
        node := FindOrCreate(node, extra.value, old(root));
        ResolveEnsurePath(old(root), node, node);
      }
      assert keys[..|place.tokens|] == keys;
    }

    /** One level of the walk: look the key up in the item reached so far, create it if absent. */
    method FindOrCreate(at: Path, key: string, ghost before: Item) returns (node: Path)
      requires root == EnsurePath(before, at)
      modifies this
      ensures node == at + [key]
      ensures root == EnsurePath(before, node)
    {
      EnsureOneMore(before, at, key);
      if Find(Resolve(root, at).value, key).None? {
        root := AddAt(root, at, key, EMPTY);
      }
      node := at + [key];
    }

    /** logVersion and logRecordDisabled: add a section-wide value unless its key is there. */
    method LogOnce(place: Place, ctx: Context, key: string, text: string) returns (missing: bool)
      requires place.Valid()
      modifies this
      ensures root == Once(old(root), RootPath(place, ctx), key, text)
      ensures var u := EnsurePath(old(root), RootPath(place, ctx));
              Resolve(u, RootPath(place, ctx)).Some? &&
              (missing <==> Find(Resolve(u, RootPath(place, ctx)).value, key).None?)
    {
      var node := GenerateJsonPath(place, ctx, true, None);
      var previous := Find(Resolve(root, node).value, key);
      missing := previous.None?;
      if missing {
        AddString(node, key, text);
      }
    }

    /** Another part of the collector is handed the item at a path and adds to it. */
    method GrowAt(at: Path, growths: seq<Growth>)
      requires Resolve(root, at).Some?
      modifies this
      ensures root == Grow(old(root), at, growths)
    {
      EnsureResolvable(root, at);
      ghost var before := root;
      assert growths[..0] == [];
      for k := 0 to |growths|
        invariant root == Grow(before, at, growths[..k])
      {
        assert growths[..k + 1][..k] == growths[..k];
        var path := at + growths[k].below;
        ResolveEnsurePath(root, path, path);
        root := EnsurePath(root, path);
        root := AddAt(root, path, growths[k].key, growths[k].child);
      }
      assert growths[..|growths|] == growths;
    }

    /** cJSON_AddStringToObject under an item already reached. */
    method AddString(at: Path, key: string, text: string)
      requires Resolve(root, at).Some?
      modifies this
      ensures root == AddAt(old(root), at, key, Leaf(text))
      ensures Resolve(root, at).Some?
    {
      ResolveAddAt(root, at, key, Leaf(text), at);
      root := AddAt(root, at, key, Leaf(text));
    }
  }

  /******* Register names and values *******/

  /** sub occurs in s (strstr). */
  predicate Contains(s: string, sub: string) {
    sub <= s || (s != [] && Contains(s[1..], sub))
  }

  /** snprintf of a name with one "%d". */
  function FormatD(s: string, n: nat): string {
    if "%d" <= s then Dec(n) + s[2..]
    else if s == [] then []
    else [s[0]] + FormatD(s[1..], n)
  }

  /** GenerateRegisterName: the first placeholder kind that occurs decides the number. */
  function RegisterName(name: string, ctx: Context, repeats: Byte): string {
    if Contains(name, "cha%d") || Contains(name, "cbo%d") then FormatD(name, ctx.cha)
    else if Contains(name, "core%d") then FormatD(name, ctx.core)
    else if Contains(name, "cpu%d") then FormatD(name, ctx.cpu)
    else if Contains(name, "thread%d") then FormatD(name, ctx.thread)
    else if Contains(name, "%d") then FormatD(name, repeats)
    else name
  }

  /******* Facts about places *******/

  /** The root item is an ancestor of (or equal to) every register item of the section, so
      after a register has been logged the root path needs no creation. */
  lemma RootIsAncestor(t: Item, place: Place, ctx: Context, extra: Option<string>)
    ensures RootPath(place, ctx) <= RegisterPath(place, ctx, extra)
    ensures var u := EnsurePath(t, RegisterPath(place, ctx, extra));
            Resolve(u, RootPath(place, ctx)).Some? && EnsurePath(u, RootPath(place, ctx)) == u
  {
    var p, q := RegisterPath(place, ctx, extra), RootPath(place, ctx);
    assert q == p[..|q|];
    ResolveEnsurePath(t, p, q);
    EnsureIdempotent(t, p, q);
  }

  /** Neither path is a prefix of the other. */
  predicate Diverge(p: Path, q: Path) {
    !(p <= q) && !(q <= p)
  }

  /** Find-or-create p and append one child there. */
  function Graft(t: Item, p: Path, key: string, child: Item): (u: Item)
    ensures Resolve(EnsurePath(t, p), p).Some?
  {
    ResolveEnsurePath(t, p, p);
    AddAt(EnsurePath(t, p), p, key, child)
  }

  /** Everything the logger does to the tree: append one value. */
  function Log(t: Item, p: Path, key: string, text: string): Item {
    Graft(t, p, key, Leaf(text))
  }

  /** One addition below an item that another part of the collector is given to write to. */
  datatype Growth = Growth(below: Path, key: string, child: Item)

  /** The item at p is found or created, and then grows. */
  function Grow(t: Item, p: Path, growths: seq<Growth>): Item {
    if growths == [] then EnsurePath(t, p)
    else
      var g := growths[|growths| - 1];
      Graft(Grow(t, p, growths[..|growths| - 1]), p + g.below, g.key, g.child)
  }

  /** The values that the additions hold. */
  function GrowthLeaves(growths: seq<Growth>): nat {
    if growths == [] then 0
    else GrowthLeaves(growths[..|growths| - 1]) + Leaves(growths[|growths| - 1].child)
  }

  /** Find-or-create p and make sure it has a value called key. */
  function Once(t: Item, p: Path, key: string, text: string): Item {
    var u := EnsurePath(t, p);
    ResolveEnsurePath(t, p, p);
    if Find(Resolve(u, p).value, key).Some? then u else AddAt(u, p, key, Leaf(text))
  }

  /** However often a section runs, for however many sockets that share its root item, the
      value is written once and the first value stays. */
  lemma OnceIsIdempotent(t: Item, p: Path, key: string, first: string, second: string)
    ensures Once(Once(t, p, key, first), p, key, second) == Once(t, p, key, first)
    ensures Resolve(t, p).Some? && Find(Resolve(t, p).value, key).Some? ==> Once(t, p, key, first) == t
    ensures Leaves(Once(t, p, key, first)) <= Leaves(t) + 1
  {
    var u := EnsurePath(t, p);
    var v := Once(t, p, key, first);
    ResolveEnsurePath(t, p, p);
    assert p[|p|..] == [];
    LeavesEnsurePath(t, p);
    if Find(Resolve(u, p).value, key).None? {
      ResolveAddAt(u, p, key, Leaf(first), p);
      FindAppend(Resolve(u, p).value, key, Leaf(first), key);
      LeavesAddAt(u, p, key, Leaf(first));
    }
    EnsureResolvable(v, p);
    if Resolve(t, p).Some? {
      EnsureResolvable(t, p);
    }
  }

  /** A graft under p leaves every path that diverges from p exactly as it was, keeps every item
      that was reachable reachable, and adds exactly the child, last in its parent. */
  lemma GraftEffect(t: Item, p: Path, key: string, child: Item, q: Path)
    ensures Diverge(p, q) ==> Resolve(Graft(t, p, key, child), q) == Resolve(t, q)
    ensures Resolve(t, q).Some? ==> Resolve(Graft(t, p, key, child), q).Some?
    ensures Resolve(Graft(t, p, key, child), p) ==
            Some(Append(Resolve(t, p).GetOr(EMPTY), key, child))
    ensures Leaves(Graft(t, p, key, child)) == Leaves(t) + Leaves(child)
  {
    var u := EnsurePath(t, p);
    ResolveEnsurePath(t, p, p);
    ResolveEnsurePath(t, p, q);
    assert p[|p|..] == [];
    ResolveAddAt(u, p, key, child, q);
    ResolveAddAt(u, p, key, child, p);
    LeavesEnsurePath(t, p);
    LeavesAddAt(u, p, key, child);
  }

  /** The same for one logged value. */
  lemma LogEffect(t: Item, p: Path, key: string, text: string, q: Path)
    ensures Diverge(p, q) ==> Resolve(Log(t, p, key, text), q) == Resolve(t, q)
    ensures Resolve(t, q).Some? ==> Resolve(Log(t, p, key, text), q).Some?
    ensures Resolve(Log(t, p, key, text), p) ==
            Some(Append(Resolve(t, p).GetOr(EMPTY), key, Leaf(text)))
    ensures Leaves(Log(t, p, key, text)) == Leaves(t) + 1
  {
    hide Graft;
    GraftEffect(t, p, key, Leaf(text), q);
    assert Leaves(Leaf(text)) == 1;
  }

  lemma DivergeBelow(p: Path, more: Path, q: Path)
    requires Diverge(p, q)
    ensures Diverge(p + more, q)
  {
  }

  /** Growth at p touches no diverging path, loses nothing, and adds exactly its values. */
  lemma {:induction false} GrowEffect(t: Item, p: Path, growths: seq<Growth>, q: Path)
    ensures Diverge(p, q) ==> Resolve(Grow(t, p, growths), q) == Resolve(t, q)
    ensures Resolve(t, q).Some? ==> Resolve(Grow(t, p, growths), q).Some?
    ensures Leaves(Grow(t, p, growths)) == Leaves(t) + GrowthLeaves(growths)
  {
    hide Graft, Diverge, Leaves;
    if growths == [] {
      LeavesEnsurePath(t, p);
      ResolveEnsurePath(t, p, q);
      if Diverge(p, q) {
        NotPrefix(p, q);
      }
    } else {
      var init, g := growths[..|growths| - 1], growths[|growths| - 1];
      GrowEffect(t, p, init, q);
      GraftEffect(Grow(t, p, init), p + g.below, g.key, g.child, q);
      if Diverge(p, q) {
        DivergeBelow(p, g.below, q);
      }
    }
  }

  lemma NotPrefix(p: Path, q: Path)
    requires Diverge(p, q)
    ensures !(q <= p)
  {
  }

  /** Contexts that differ in the cpu index give diverging paths as soon as the template has a
      "cpu%d" token, whatever lies below it. */
  lemma CpuPathsDiverge(tokens: Path, a: Context, b: Context, i: nat, p: Path, q: Path)
    requires i < |tokens| && tokens[i] == "cpu%d" && a.cpu != b.cpu
    requires Keys(tokens, a)[..i + 1] <= p && Keys(tokens, b)[..i + 1] <= q
    ensures Diverge(p, q)
  {
    if p[i] == q[i] {
      assert "cpu" + Dec(a.cpu) == p[i] == q[i] == "cpu" + Dec(b.cpu);
      assert Dec(a.cpu) == ("cpu" + Dec(a.cpu))[3..] == ("cpu" + Dec(b.cpu))[3..] == Dec(b.cpu);
      DigitsInjective(a.cpu, b.cpu, Ten);
    }
  }

  /** Sockets write into disjoint subtrees: no value logged for one socket changes anything
      below the "cpu%d" level of another. */
  lemma CpuSubtreesDisjoint(
    t: Item, place: Place, a: Context, b: Context, i: nat,
    extra: Option<string>, key: string, text: string, q: Path)
    requires i < |place.tokens| && place.tokens[i] == "cpu%d" && a.cpu != b.cpu
    requires Keys(place.tokens, b)[..i + 1] <= q
    ensures Resolve(Log(t, RegisterPath(place, a, extra), key, text), q) == Resolve(t, q)
  {
    var p := RegisterPath(place, a, extra);
    assert Keys(place.tokens, a)[..i + 1] <= p;
    CpuPathsDiverge(place.tokens, a, b, i, p, q);
    LogEffect(t, p, key, text, q);
  }
}
