/** Which indices the paths and names of the logged registers show. */
module LoggerLaws {
  import opened Numerals
  import opened Json
  import opened Logger

  /******* Path tokens *******/

  /** The loop index a placeholder is named after. */
  function IndexOf(kind: string, ctx: Context): Option<nat> {
    if kind == "cpu" then Some(ctx.cpu)
    else if kind == "core" then Some(ctx.core)
    else if kind == "thread" then Some(ctx.thread)
    else if kind == "cha" || kind == "cbo" || kind == "CBO" then Some(ctx.cha)
    else None
  }

  lemma TokenLaw(kind: string, ctx: Context)
    ensures IndexOf(kind, ctx).Some? ==> Substitute(kind + "%d", ctx) == kind + Dec(IndexOf(kind, ctx).value)
  {
    hide Digits;
    Placeholders();
  }

  lemma Placeholders()
    ensures "cpu" + "%d" == "cpu%d" && "core" + "%d" == "core%d" && "thread" + "%d" == "thread%d"
    ensures "cha" + "%d" == "cha%d" && "cbo" + "%d" == "cbo%d" && "CBO" + "%d" == "CBO%d"
  {
  }

  lemma OtherTokenLaw(token: string, ctx: Context)
    requires forall kind :: token == kind + "%d" ==> IndexOf(kind, ctx).None?
    ensures Substitute(token, ctx) == token
  {
    hide Digits;
    Placeholders();
  }

  /** A register's path has one level per token, and one more for the extra level; a placeholder
      shows its own index, so two contexts share the level exactly if they share that index. */
  lemma PathsShowContexts(place: Place, a: Context, b: Context, extra: Option<string>, i: nat, kind: string)
    requires i < |place.tokens| && place.tokens[i] == kind + "%d" && IndexOf(kind, a).Some?
    ensures var p, q := RegisterPath(place, a, extra), RegisterPath(place, b, extra);
            && |p| == |place.tokens| + (if extra.Some? then 1 else 0)
            && (extra.Some? ==> p[|p| - 1] == extra.value)
            && p[i] == kind + Dec(IndexOf(kind, a).value)
            && (p[i] == q[i] <==> IndexOf(kind, a) == IndexOf(kind, b))
  {
    hide Substitute, Digits;
    TokenLaw(kind, a);
    TokenLaw(kind, b);
    var m, n := IndexOf(kind, a).value, IndexOf(kind, b).value;
    assert (kind + Dec(m))[|kind|..] == Dec(m) && (kind + Dec(n))[|kind|..] == Dec(n);
    if Dec(m) == Dec(n) {
      DigitsInjective(m, n, Ten);
    }
  }

  /******* Register names *******/

  predicate Plain(s: string) { '%' !in s }

  predicate EndsWith(s: string, w: string) { |w| <= |s| && s[|s| - |w|..] == w }

  lemma {:induction false} NothingToFill(s: string, w: string)
    requires Plain(s)
    ensures !Contains(s, w + "%d")
  {
    var sub := w + "%d";
    assert sub[|w|] == '%';
    if |w| < |s| {
      assert s[|w|] != '%';
    }
    if s != [] {
      NothingToFill(s[1..], w);
    }
  }

  /** Two texts up to their first placeholder. */
  lemma SameFront(x: string, y: string, w: string)
    requires Plain(x) && Plain(w)
    ensures w + "%d" <= x + "%d" + y <==> w == x
  {
    var s, sub := x + "%d" + y, w + "%d";
    assert s[|x|] == '%' && sub[|w|] == '%';
    assert s[..|x|] == x && sub[..|w|] == w;
    if |w| < |x| {
      assert s[|w|] == x[|w|];
    } else if |w| > |x| {
      assert sub[|x|] == w[|x|];
    } else if w == x {
      assert s[..|sub|] == sub;
    } else {
      assert s[..|w|] != sub[..|w|];
    }
  }

  lemma EndOfTail(x: string, w: string)
    requires x != []
    ensures EndsWith(x, w) <==> x == w || EndsWith(x[1..], w)
  {
    if |w| < |x| {
      assert x[1..][|x[1..]| - |w|..] == x[|x| - |w|..];
    }
  }

  /** The only placeholder of a name belongs to a word exactly if the word stands before it. */
  lemma {:induction false} WordBefore(x: string, y: string, w: string)
    requires Plain(x) && Plain(y) && Plain(w)
    ensures Contains(x + "%d" + y, w + "%d") <==> EndsWith(x, w)
  {
    var s, sub := x + "%d" + y, w + "%d";
    SameFront(x, y, w);
    if x == [] {
      assert s[1..] == "d" + y;
      NothingToFill("d" + y, w);
    } else {
      assert s[1..] == x[1..] + "%d" + y;
      WordBefore(x[1..], y, w);
      EndOfTail(x, w);
    }
  }

  lemma {:induction false} FilledName(x: string, y: string, n: nat)
    requires Plain(x)
    ensures FormatD(x + "%d" + y, n) == x + Dec(n) + y
  {
    hide Digits;
    var s := x + "%d" + y;
    if x == [] {
      assert "%d" <= s && s[2..] == y;
      assert [] + Dec(n) == Dec(n);
    } else {
      assert s[0] == x[0] != '%';
      assert s[1..] == x[1..] + "%d" + y;
      FilledName(x[1..], y, n);
      assert [x[0]] + (x[1..] + Dec(n) + y) == x + Dec(n) + y;
    }
  }

  /** The number a register name shows: the index of the word before its placeholder, or the number
      of the repeat. */
  function NumberShown(x: string, ctx: Context, repeats: Byte): nat {
    if EndsWith(x, "cha") || EndsWith(x, "cbo") then ctx.cha
    else if EndsWith(x, "core") then ctx.core
    else if EndsWith(x, "cpu") then ctx.cpu
    else if EndsWith(x, "thread") then ctx.thread
    else repeats
  }

  /** A name with one placeholder shows that number in its place; a name without one is itself. */
  lemma RegisterNameLaw(x: string, y: string, ctx: Context, repeats: Byte)
    requires Plain(x) && Plain(y)
    ensures RegisterName(x + "%d" + y, ctx, repeats) == x + Dec(NumberShown(x, ctx, repeats)) + y
    ensures RegisterName(x, ctx, repeats) == x
  {
    hide FormatD, Contains, EndsWith, Digits;
    Words();
    WordBefore(x, y, "cha");
    WordBefore(x, y, "cbo");
    WordBefore(x, y, "core");
    WordBefore(x, y, "cpu");
    WordBefore(x, y, "thread");
    WordBefore(x, y, "");
    EndsWithNothing(x);
    FilledName(x, y, NumberShown(x, ctx, repeats));
    NothingToFill(x, "cha");
    NothingToFill(x, "cbo");
    NothingToFill(x, "core");
    NothingToFill(x, "cpu");
    NothingToFill(x, "thread");
    NothingToFill(x, "");
  }

  lemma EndsWithNothing(x: string)
    ensures EndsWith(x, "")
  {
  }

  lemma Words()
    ensures "cha" + "%d" == "cha%d" && "cbo" + "%d" == "cbo%d" && "core" + "%d" == "core%d"
    ensures "cpu" + "%d" == "cpu%d" && "thread" + "%d" == "thread%d" && "" + "%d" == "%d"
    ensures Plain("cha") && Plain("cbo") && Plain("core") && Plain("cpu") && Plain("thread") && Plain("")
  {
  }

  /******* Section-wide values *******/

  /** Section-wide values go to the level that RootAtLevel names, if the path has so many levels, and
      else to its end. */
  lemma RootIsCut(place: Place, ctx: Context, extra: Option<string>)
    ensures |RootPath(place, ctx)| ==
            if place.rootAtLevel <= |place.tokens| then place.rootAtLevel else |place.tokens|
    ensures RootPath(place, ctx) == RegisterPath(place, ctx, extra)[..|RootPath(place, ctx)|]
  {
    hide Substitute;
  }

  /** A section-wide value that was missing is there afterwards, under its key at the root path; one
      that was there stays. */
  lemma OnceIsThere(t: Item, p: Path, key: string, text: string)
    ensures var before := Find(Resolve(t, p).GetOr(EMPTY), key);
            && Resolve(Once(t, p, key, text), p).Some?
            && Find(Resolve(Once(t, p, key, text), p).value, key) == Some(before.GetOr(Leaf(text)))
  {
    var u := EnsurePath(t, p);
    ResolveEnsurePath(t, p, p);
    assert p[|p|..] == [];
    if Find(Resolve(u, p).value, key).None? {
      ResolveAddAt(u, p, key, Leaf(text), p);
      FindAppend(Resolve(u, p).value, key, Leaf(text), key);
    }
  }
}
