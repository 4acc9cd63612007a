/** The JSON tree the collector writes into. An item is an ordered list of named children and
    an optional text value; keys may repeat and a lookup returns the first match. A pointer to
    an item is represented by the key path that reaches it by first-match lookups. */
module Json {
  import opened Numerals

  datatype Item = Item(text: Option<string>, kids: seq<Field>)
  datatype Field = Field(key: string, item: Item)

  type Path = seq<string>

  /** cJSON_CreateObject. */
  const EMPTY: Item := Item(None, [])

  /** cJSON_CreateString. */
  function Leaf(text: string): Item { Item(Some(text), []) }

  /******* Lookup and append *******/

  /** Position of the first child called key, or |kids| when there is none. */
  function IndexOf(kids: seq<Field>, key: string): (i: nat)
    ensures i <= |kids|
    ensures i < |kids| ==> kids[i].key == key
    ensures forall j :: 0 <= j < i ==> kids[j].key != key
  {
    if kids == [] || kids[0].key == key then 0 else 1 + IndexOf(kids[1..], key)
  }

  /** cJSON_GetObjectItemCaseSensitive. */
  function Find(t: Item, key: string): Option<Item> {
    var i := IndexOf(t.kids, key);
    if i < |t.kids| then Some(t.kids[i].item) else None
  }

  /** cJSON_AddItemToObject: always at the end, whether or not the key is taken. */
  function Append(t: Item, key: string, child: Item): Item {
    t.(kids := t.kids + [Field(key, child)])
  }

  /** t with its first child called key replaced. */
  function Replace(t: Item, key: string, child: Item): Item
    requires Find(t, key).Some?
  {
    t.(kids := t.kids[IndexOf(t.kids, key) := Field(key, child)])
  }

  function Resolve(t: Item, path: Path): Option<Item>
    decreases |path|
  {
    if path == [] then Some(t)
    else
      var kid := Find(t, path[0]);
      if kid.None? then None else Resolve(kid.value, path[1..])
  }

  /** Append a child to the item that path reaches. */
  function AddAt(t: Item, path: Path, key: string, child: Item): Item
    requires Resolve(t, path).Some?
    decreases |path|
  {
    if path == [] then Append(t, key, child)
    else Replace(t, path[0], AddAt(Find(t, path[0]).value, path[1..], key, child))
  }

  /** Find the first child called key, or create it as an empty object. */
  function EnsureKid(t: Item, key: string): (r: Item)
    ensures Find(r, key) == Some(Find(t, key).GetOr(EMPTY))
  {
    if Find(t, key).Some? then t
    else
      FindAppend(t, key, EMPTY, key);
      Append(t, key, EMPTY)
  }

  /** Find-or-create along a whole path. */
  function EnsurePath(t: Item, path: Path): Item
    decreases |path|
  {
    if path == [] then t
    else
      var u := EnsureKid(t, path[0]);
      Replace(u, path[0], EnsurePath(Find(u, path[0]).value, path[1..]))
  }

  /******* One level *******/

  lemma IndexOfUnique(kids: seq<Field>, key: string, i: nat)
    requires i < |kids| && kids[i].key == key && forall j :: 0 <= j < i ==> kids[j].key != key
    ensures IndexOf(kids, key) == i
  {
  }

  lemma IndexOfAbsent(kids: seq<Field>, key: string)
    requires forall j :: 0 <= j < |kids| ==> kids[j].key != key
    ensures IndexOf(kids, key) == |kids|
  {
  }

  lemma FindAppend(t: Item, key: string, child: Item, k: string)
    ensures Find(Append(t, key, child), k) ==
            if Find(t, k).Some? then Find(t, k) else if k == key then Some(child) else None
  {
    var kids := Append(t, key, child).kids;
    var i := IndexOf(t.kids, k);
    if i < |t.kids| {
      IndexOfUnique(kids, k, i);
    } else if k == key {
      IndexOfUnique(kids, k, i);
    } else {
      IndexOfAbsent(kids, k);
    }
  }

  lemma FindReplace(t: Item, key: string, child: Item, k: string)
    requires Find(t, key).Some?
    ensures Find(Replace(t, key, child), k) == if k == key then Some(child) else Find(t, k)
  {
    var kids := Replace(t, key, child).kids;
    var i := IndexOf(t.kids, k);
    if i < |t.kids| {
      IndexOfUnique(kids, k, i);
    } else {
      IndexOfAbsent(kids, k);
    }
  }

  lemma ReplaceTwice(t: Item, key: string, a: Item, b: Item)
    requires Find(t, key).Some?
    ensures Find(Replace(t, key, a), key).Some?
    ensures Replace(Replace(t, key, a), key, b) == Replace(t, key, b)
  {
    IndexOfUnique(Replace(t, key, a).kids, key, IndexOf(t.kids, key));
  }

  lemma FindEnsureKid(t: Item, key: string, k: string)
    requires k != key
    ensures Find(EnsureKid(t, key), k) == Find(t, k)
  {
    FindAppend(t, key, EMPTY, k);
  }

  /******* Find-or-create along a path *******/

  /** What every path resolves to after a find-or-create along p. A path that is not a prefix
      of p resolves exactly as before (in particular nothing else appears or disappears); the
      items on p itself keep their content and gain only the missing rest of p. */
  lemma {:induction false} ResolveEnsurePath(t: Item, p: Path, q: Path)
    ensures !(q <= p) ==> Resolve(EnsurePath(t, p), q) == Resolve(t, q)
    ensures q <= p ==> Resolve(EnsurePath(t, p), q) ==
                       Some(EnsurePath(Resolve(t, q).GetOr(EMPTY), p[|q|..]))
    decreases |p|
  {
    if p == [] {
    } else if q == [] {
      assert p[|q|..] == p;
    } else {
      var u := EnsureKid(t, p[0]);
      var kid := Find(u, p[0]).value;
      var kid' := EnsurePath(kid, p[1..]);
      FindReplace(u, p[0], kid', q[0]);
      if q[0] == p[0] {
        ResolveEnsurePath(kid, p[1..], q[1..]);
        assert q <= p <==> q[1..] <= p[1..];
        if q <= p {
          assert p[1..][|q[1..]|..] == p[|q|..];
        }
        ResolveEmpty(q[1..]);
      } else {
        FindEnsureKid(t, p[0], q[0]);
      }
    }
  }

  lemma ResolveEmpty(q: Path)
    ensures q != [] ==> Resolve(EMPTY, q).None?
    ensures q == [] ==> Resolve(EMPTY, q) == Some(EMPTY)
  {
  }

  /** Find-or-create changes nothing when the path already resolves. */
  lemma {:induction false} EnsureResolvable(t: Item, p: Path)
    requires Resolve(t, p).Some?
    ensures EnsurePath(t, p) == t
    decreases |p|
  {
    if p != [] {
      EnsureResolvable(Find(t, p[0]).value, p[1..]);
      assert Replace(t, p[0], Find(t, p[0]).value).kids == t.kids;
    }
  }

  /** A second find-or-create along the same path, or along any prefix of it, is a no-op. */
  lemma EnsureIdempotent(t: Item, p: Path, q: Path)
    requires q <= p
    ensures EnsurePath(EnsurePath(t, p), q) == EnsurePath(t, p)
  {
    ResolveEnsurePath(t, p, q);
    EnsureResolvable(EnsurePath(t, p), q);
  }

  /** One more level: look the key up in the item reached so far and append it if missing. */
  lemma {:induction false} EnsureOneMore(t: Item, p: Path, key: string)
    ensures Resolve(EnsurePath(t, p), p).Some?
    ensures EnsurePath(t, p + [key]) ==
            var u := EnsurePath(t, p);
            if Find(Resolve(u, p).value, key).Some? then u else AddAt(u, p, key, EMPTY)
    decreases |p|
  {
    ResolveEnsurePath(t, p, p);
    if p == [] {
      var v := EnsureKid(t, key);
      assert [key][1..] == [];
      calc {
        EnsurePath(t, [key]);
        Replace(v, key, Find(v, key).value);
        { assert Replace(v, key, Find(v, key).value).kids == v.kids; }
        v;
      }
    } else {
      var v := EnsureKid(t, p[0]);
      var kid := Find(v, p[0]).value;
      assert (p + [key])[1..] == p[1..] + [key];
      EnsureOneMore(kid, p[1..], key);
      var w := EnsurePath(kid, p[1..]);
      FindReplace(v, p[0], w, p[0]);
      if Find(Resolve(w, p[1..]).value, key).None? {
        ReplaceTwice(v, p[0], w, AddAt(w, p[1..], key, EMPTY));
      }
    }
  }

  /******* Appending an entry *******/

  /** What every path resolves to after an entry is appended at p: paths not through p are
      untouched, p itself gains the entry at its end, and an older child of the same name
      keeps hiding the new one. */
  lemma {:induction false} ResolveAddAt(t: Item, p: Path, key: string, child: Item, q: Path)
    requires Resolve(t, p).Some?
    ensures !(q <= p) && !(p <= q) ==> Resolve(AddAt(t, p, key, child), q) == Resolve(t, q)
    ensures q <= p ==> Resolve(t, q).Some? && Resolve(Resolve(t, q).value, p[|q|..]).Some?
                       && Resolve(AddAt(t, p, key, child), q) ==
                          Some(AddAt(Resolve(t, q).value, p[|q|..], key, child))
    ensures p < q ==> Resolve(AddAt(t, p, key, child), q) ==
                      if q[|p|] == key && Find(Resolve(t, p).value, key).None?
                      then Resolve(child, q[|p| + 1..]) else Resolve(t, q)
    ensures Resolve(t, q).Some? ==> Resolve(AddAt(t, p, key, child), q).Some?
    decreases |p|
  {
    if p == [] {
      if q != [] {
        FindAppend(t, key, child, q[0]);
      }
    } else if q == [] {
      assert p[|q|..] == p;
    } else {
      var kid := Find(t, p[0]).value;
      FindReplace(t, p[0], AddAt(kid, p[1..], key, child), q[0]);
      if q[0] == p[0] {
        ResolveAddAt(kid, p[1..], key, child, q[1..]);
        assert q <= p <==> q[1..] <= p[1..];
        assert p <= q <==> p[1..] <= q[1..];
        if q <= p {
          assert p[1..][|q[1..]|..] == p[|q|..];
        }
        if p < q {
          assert q[1..][|p[1..]| + 1..] == q[|p| + 1..];
        }
      }
    }
  }

  /******* Conservation of leaves *******/

  /** How many text values the tree holds. */
  function Leaves(t: Item): nat {
    (if t.text.Some? then 1 else 0) + LeavesOf(t.kids)
  }

  function LeavesOf(kids: seq<Field>): nat {
    if kids == [] then 0 else Leaves(kids[0].item) + LeavesOf(kids[1..])
  }

  lemma {:induction false} LeavesAppend(kids: seq<Field>, f: Field)
    ensures LeavesOf(kids + [f]) == LeavesOf(kids) + Leaves(f.item)
  {
    if kids == [] {
      assert kids + [f] == [f] && [f][1..] == [];
    } else {
      assert (kids + [f])[1..] == kids[1..] + [f];
      LeavesAppend(kids[1..], f);
    }
  }

  lemma {:induction false} LeavesReplace(kids: seq<Field>, i: nat, f: Field)
    requires i < |kids|
    ensures LeavesOf(kids[i := f]) == LeavesOf(kids) - Leaves(kids[i].item) + Leaves(f.item)
  {
    if i == 0 {
      assert kids[0 := f][1..] == kids[1..];
    } else {
      assert kids[i := f][1..] == kids[1..][i - 1 := f];
      LeavesReplace(kids[1..], i - 1, f);
    }
  }

  lemma {:induction false} LeavesAddAt(t: Item, p: Path, key: string, child: Item)
    requires Resolve(t, p).Some?
    ensures Leaves(AddAt(t, p, key, child)) == Leaves(t) + Leaves(child)
    decreases |p|
  {
    if p == [] {
      LeavesAppend(t.kids, Field(key, child));
    } else {
      var kid := Find(t, p[0]).value;
      LeavesAddAt(kid, p[1..], key, child);
      LeavesReplace(t.kids, IndexOf(t.kids, p[0]), Field(p[0], AddAt(kid, p[1..], key, child)));
    }
  }

  /** Building a path creates no values. */
  lemma {:induction false} LeavesEnsurePath(t: Item, p: Path)
    ensures Leaves(EnsurePath(t, p)) == Leaves(t)
    decreases |p|
  {
    if p != [] {
      LeavesAppend(t.kids, Field(p[0], EMPTY));
      var u := EnsureKid(t, p[0]);
      var kid := Find(u, p[0]).value;
      LeavesEnsurePath(kid, p[1..]);
      LeavesReplace(u.kids, IndexOf(u.kids, p[0]), Field(p[0], EnsurePath(kid, p[1..])));
    }
  }
}
