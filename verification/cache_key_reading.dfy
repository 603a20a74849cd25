/** What a cache key tells about the parts it was built from. */
module CacheKeyReading {
  import opened Text
  import opened StableSort
  import opened CacheKey

  /** No character of this text is one that the key is put together with. */
  predicate Plain(s: string) {
    forall i | 0 <= i < |s| :: s[i] !in "[]{}:,|"
  }

  /** Leaves and names are plain, no leaf looks like null or undefined, and no array holds just an empty text. */
  ghost predicate Readable(v: Js) {
    match v
    case Null => true
    case Undefined => true
    case Leaf(text) => Plain(text) && text != "null" && text != "undefined"
    case Arr(items) => items != [Leaf("")] && forall i | 0 <= i < |items| :: Readable(items[i])
    case Obj(fields) => Distinct(fields) && forall i | 0 <= i < |fields| :: Plain(fields[i].name) && Readable(fields[i].value)
  }

  // ---------------------------------------------------------------- brackets

  function Turn(c: char): int {
    if c == '[' || c == '{' then 1 else if c == ']' || c == '}' then -1 else 0
  }

  /** How many brackets are still open behind this text. */
  function Depth(s: string): int {
    if s == "" then 0 else Depth(s[..|s| - 1]) + Turn(s[|s| - 1])
  }

  lemma {:induction false} DepthAppend(a: string, b: string)
    ensures Depth(a + b) == Depth(a) + Depth(b)
  {
    if b == "" {
      assert a + b == a;
    } else {
      var n := |b| - 1;
      DepthAppend(a, b[..n]);
      assert (a + b)[..|a + b| - 1] == a + b[..n];
    }
  }

  lemma DepthOfOne(c: char)
    ensures Depth([c]) == Turn(c)
  {
    assert [c][..0] == "";
  }

  /** All brackets are closed again, and none is closed too early. */
  ghost predicate Balanced(s: string) {
    Depth(s) == 0 && forall k | 0 <= k <= |s| :: Depth(s[..k]) >= 0
  }

  /** The separator stands nowhere outside all brackets. */
  ghost predicate Sealed(s: string, sep: char) {
    Balanced(s) && forall k | 0 <= k < |s| && s[k] == sep :: Depth(s[..k]) > 0
  }

  lemma {:induction false} PlainDepth(s: string)
    requires Plain(s)
    ensures Depth(s) == 0
  {
    if s != "" {
      PlainDepth(s[..|s| - 1]);
      assert s[|s| - 1] !in "[]{}:,|";
      assert Turn(s[|s| - 1]) == 0 by { NoBracket(s[|s| - 1]); }
    }
  }

  lemma NoBracket(c: char)
    requires c !in "[]{}:,|"
    ensures Turn(c) == 0 && c != ',' && c != '|' && c != ':'
  {
    var all := "[]{}:,|";
    assert all[0] == '[' && all[1] == ']' && all[2] == '{' && all[3] == '}' && all[4] == ':' && all[5] == ',' && all[6] == '|';
  }

  predicate IsSeparator(c: char) {
    c == ',' || c == '|'
  }

  lemma PlainIsSealed(s: string, sep: char)
    requires Plain(s) && IsSeparator(sep)
    ensures Sealed(s, sep)
  {
    PlainDepth(s);
    forall k | 0 <= k <= |s| ensures Depth(s[..k]) == 0 { PlainDepth(s[..k]); }
    forall k | 0 <= k < |s| ensures s[k] != sep { NoBracket(s[k]); }
  }

  lemma BalancedAppend(a: string, b: string)
    requires Balanced(a) && Balanced(b)
    ensures Balanced(a + b)
  {
    DepthAppend(a, b);
    forall k | 0 <= k <= |a + b| ensures Depth((a + b)[..k]) >= 0 {
      PrefixDepth(a, b, k);
    }
  }

  lemma PrefixDepth(a: string, b: string, k: nat)
    requires k <= |a + b|
    ensures Depth((a + b)[..k]) == if k <= |a| then Depth(a[..k]) else Depth(a) + Depth(b[..k - |a|])
  {
    if k <= |a| {
      assert (a + b)[..k] == a[..k];
    } else {
      assert (a + b)[..k] == a + b[..k - |a|];
      DepthAppend(a, b[..k - |a|]);
    }
  }

  lemma SealedAppend(a: string, b: string, sep: char)
    requires Sealed(a, sep) && Sealed(b, sep)
    ensures Sealed(a + b, sep)
  {
    BalancedAppend(a, b);
    forall k | 0 <= k < |a + b| && (a + b)[k] == sep ensures Depth((a + b)[..k]) > 0 {
      PrefixDepth(a, b, k);
      assert k >= |a| ==> b[k - |a|] == sep;
    }
  }

  /** What stands in brackets is sealed. */
  lemma BracketsSeal(inner: string, l: char, r: char, sep: char)
    requires Balanced(inner) && Turn(l) == 1 && Turn(r) == -1 && IsSeparator(sep)
    ensures Sealed([l] + inner + [r], sep)
  {
    var head, s := [l] + inner, [l] + inner + [r];
    DepthOfOne(l);
    DepthOfOne(r);
    DepthAppend([l], inner);
    DepthAppend(head, [r]);
    forall k | 0 <= k <= |s| ensures Depth(s[..k]) >= if 0 < k < |s| then 1 else 0 {
      if k == |s| {
        assert s[..k] == s;
      } else {
        PrefixDepth(head, [r], k);
        HeadDepth(l, inner, k);
      }
    }
  }

  lemma HeadDepth(l: char, inner: string, k: nat)
    requires Balanced(inner) && Turn(l) == 1 && k <= |inner| + 1
    ensures Depth(([l] + inner)[..k]) >= if k == 0 then 0 else 1
  {
    DepthOfOne(l);
    PrefixDepth([l], inner, k);
    if k == 1 { assert [l][..1] == [l]; }
  }

  // ---------------------------------------------------------------- lists of sealed texts

  ghost predicate AllSealed(parts: seq<string>, sep: char) {
    forall i | 0 <= i < |parts| :: Sealed(parts[i], sep)
  }

  lemma {:induction false} JoinBalanced(parts: seq<string>, sep: char)
    requires AllSealed(parts, sep) && IsSeparator(sep)
    ensures Balanced(Join(parts, [sep]))
  {
    var n := |parts| - 1;
    if n > 0 {
      JoinBalanced(parts[..n], sep);
      DepthOfOne(sep);
      assert [sep][..0] == "" && [sep][..1] == [sep];
      assert Balanced([sep]);
      BalancedAppend(Join(parts[..n], [sep]), [sep]);
      BalancedAppend(Join(parts[..n], [sep]) + [sep], parts[n]);
    }
  }

  /** A balanced text, a separator and a sealed text can be told apart again. */
  lemma SplitAtLast(a: string, x: string, b: string, y: string, sep: char)
    requires Balanced(a) && Balanced(b) && Sealed(x, sep) && Sealed(y, sep) && IsSeparator(sep)
    requires a + [sep] + x == b + [sep] + y
    ensures a == b && x == y
  {
    NotShorter(a, x, b, y, sep);
    NotShorter(b, y, a, x, sep);
    var s := a + [sep] + x;
    assert s[..|a|] == a && s[..|b|] == b;
    assert s[|a| + 1..] == x && s[|b| + 1..] == y;
  }

  lemma NotShorter(a: string, x: string, b: string, y: string, sep: char)
    requires Balanced(a) && Balanced(b) && Sealed(x, sep) && IsSeparator(sep)
    requires a + [sep] + x == b + [sep] + y
    ensures |b| <= |a|
  {
    if |a| < |b| {
      DepthOfOne(sep);
      DepthAppend(a, [sep]);
      OuterSeparator(a + [sep], x, b, y, sep, |b| - |a| - 1);
    }
  }

  lemma OuterSeparator(a: string, x: string, b: string, y: string, sep: char, k: nat)
    requires a + x == b + [sep] + y && |a| + k == |b|
    ensures k < |x| && x[k] == sep && Depth(b) == Depth(a) + Depth(x[..k])
  {
    var s := a + x;
    assert |s| == |b| + 1 + |y| && s[|b|] == sep && s[|a| + k] == x[k];
    assert s[..|b|] == b && s[..|b|] == a + x[..k];
    DepthAppend(a, x[..k]);
  }

  /** A single text is no list of several. */
  lemma OneIsNotMore(x: string, b: string, y: string, sep: char)
    requires Sealed(x, sep) && Balanced(b)
    ensures x != b + [sep] + y
  {
    if x == b + [sep] + y {
      assert "" + x == x;
      OuterSeparator("", x, b, y, sep, |b|);
    }
  }

  lemma OneIsJustOne(p: seq<string>, q: seq<string>, sep: char)
    requires AllSealed(p, sep) && AllSealed(q, sep) && IsSeparator(sep)
    requires |p| == 1 && q != [] && Join(p, [sep]) == Join(q, [sep])
    ensures p == q
  {
    var n := |q| - 1;
    if n == 0 {
      assert p == [p[0]] && q == [q[0]];
    } else {
      JoinBalanced(q[..n], sep);
      OneIsNotMore(p[0], Join(q[..n], [sep]), q[n], sep);
    }
  }

  lemma LastsRead(p: seq<string>, q: seq<string>, sep: char)
    requires AllSealed(p, sep) && AllSealed(q, sep) && IsSeparator(sep)
    requires |p| > 1 && |q| > 1 && Join(p, [sep]) == Join(q, [sep])
    ensures p[|p| - 1] == q[|q| - 1] && Join(p[..|p| - 1], [sep]) == Join(q[..|q| - 1], [sep])
  {
    var m, n := |p| - 1, |q| - 1;
    JoinBalanced(p[..m], sep);
    JoinBalanced(q[..n], sep);
    SplitAtLast(Join(p[..m], [sep]), p[m], Join(q[..n], [sep]), q[n], sep);
  }

  /** A list of sealed texts is determined by its joined text, once it is known not to be empty. */
  lemma {:induction false} JoinInjective(p: seq<string>, q: seq<string>, sep: char)
    requires AllSealed(p, sep) && AllSealed(q, sep) && IsSeparator(sep)
    requires p != [] && q != [] && Join(p, [sep]) == Join(q, [sep])
    ensures p == q
  {
    if |p| == 1 {
      OneIsJustOne(p, q, sep);
    } else if |q| == 1 {
      OneIsJustOne(q, p, sep);
    } else {
      var m, n := |p| - 1, |q| - 1;
      LastsRead(p, q, sep);
      JoinInjective(p[..m], q[..n], sep);
      assert p == p[..m] + [p[m]] && q == q[..n] + [q[n]];
    }
  }

  lemma JoinEmpty(p: seq<string>, sep: char)
    requires p != [""]
    ensures Join(p, [sep]) == "" <==> p == []
  {
    if |p| == 1 { assert p == [p[0]]; }
  }

  /** So two lists, neither of just an empty text, join alike only if they are equal. */
  lemma JoinReads(p: seq<string>, q: seq<string>, sep: char)
    requires AllSealed(p, sep) && AllSealed(q, sep) && IsSeparator(sep)
    requires p != [""] && q != [""] && Join(p, [sep]) == Join(q, [sep])
    ensures p == q
  {
    JoinEmpty(p, sep);
    JoinEmpty(q, sep);
    if p != [] {
      JoinInjective(p, q, sep);
    }
  }

  // ---------------------------------------------------------------- texts of readable values

  lemma {:induction false} TextSealed(v: Js, cmp: LocaleCompare, sep: char)
    requires Readable(v) && IsSeparator(sep)
    ensures Sealed(Serialize(v, cmp), sep)
    decreases v, 1
  {
    match v
    case Null => NoWord("null", sep);
    case Undefined => NoWord("undefined", sep);
    case Leaf(text) => PlainIsSealed(text, sep);
    case Arr(items) =>
      ItemsSealed(items, cmp, ',');
      JoinBalanced(SerializeAll(items, cmp), ',');
      BracketsSeal(Join(SerializeAll(items, cmp), ","), '[', ']', sep);
    case Obj(fields) =>
      FieldsSealed(fields, cmp);
      JoinBalanced(FieldTexts(fields, cmp), ',');
      BracketsSeal(Join(FieldTexts(fields, cmp), ","), '{', '}', sep);
  }

  lemma NoWord(word: string, sep: char)
    requires (word == "null" || word == "undefined") && IsSeparator(sep)
    ensures Sealed(word, sep)
  {
    assert Plain(word);
    PlainIsSealed(word, sep);
  }

  lemma {:induction false} ItemsSealed(items: seq<Js>, cmp: LocaleCompare, sep: char)
    requires (forall i | 0 <= i < |items| :: Readable(items[i])) && IsSeparator(sep)
    ensures AllSealed(SerializeAll(items, cmp), sep)
    decreases items, 2
  {
    forall i: nat | i < |items| ensures Sealed(SerializeAll(items, cmp)[i], sep) {
      SerializeAllAt(items, cmp, i);
      TextSealed(items[i], cmp, sep);
    }
  }

  /** The texts of an object's fields, in the order they are written. */
  function FieldTexts(fields: seq<Field>, cmp: LocaleCompare): seq<string> {
    Texts(Sort(Render(fields, cmp), cmp))
  }

  /** Each text of an object is that of a defined field. */
  lemma FieldOfText(fields: seq<Field>, cmp: LocaleCompare, k: nat) returns (i: nat)
    requires k < |FieldTexts(fields, cmp)|
    ensures Defined(fields, i) && FieldTexts(fields, cmp)[k] == fields[i].name + ":" + Serialize(fields[i].value, cmp)
  {
    var y := Sort(Render(fields, cmp), cmp)[k];
    SortElements(Render(fields, cmp), cmp);
    assert y in Sort(Render(fields, cmp), cmp);
    RenderElements(fields, cmp, y);
    i :| 0 <= i < |fields| && Defined(fields, i) && y == Write(fields[i], cmp);
  }

  /** Each defined field has its text in the object. */
  lemma TextOfField(fields: seq<Field>, cmp: LocaleCompare, i: nat) returns (k: nat)
    requires Defined(fields, i)
    ensures k < |FieldTexts(fields, cmp)|
    ensures FieldTexts(fields, cmp)[k] == fields[i].name + ":" + Serialize(fields[i].value, cmp)
  {
    var y := Write(fields[i], cmp);
    RenderElements(fields, cmp, y);
    SortElements(Render(fields, cmp), cmp);
    k :| 0 <= k < |Sort(Render(fields, cmp), cmp)| && Sort(Render(fields, cmp), cmp)[k] == y;
  }

  lemma {:induction false} FieldsSealed(fields: seq<Field>, cmp: LocaleCompare)
    requires forall i | 0 <= i < |fields| :: Plain(fields[i].name) && Readable(fields[i].value)
    ensures AllSealed(FieldTexts(fields, cmp), ',')
    decreases fields, 2
  {
    forall k: nat | k < |FieldTexts(fields, cmp)| ensures Sealed(FieldTexts(fields, cmp)[k], ',') {
      var i := FieldOfText(fields, cmp, k);
      TextSealed(fields[i].value, cmp, ',');
      NamedTextSealed(fields[i].name, Serialize(fields[i].value, cmp));
    }
  }

  lemma NamedTextSealed(name: string, text: string)
    requires Plain(name) && Sealed(text, ',')
    ensures Sealed(name + ":" + text, ',')
  {
    PlainIsSealed(name, ',');
    DepthOfOne(':');
    assert ":"[..0] == "" && ":"[..1] == ":";
    assert Sealed(":", ',');
    SealedAppend(name, ":", ',');
    SealedAppend(name + ":", text, ',');
  }

  // ---------------------------------------------------------------- reading a text back

  /** Only an empty leaf has an empty text. */
  lemma EmptyText(v: Js, cmp: LocaleCompare)
    requires Serialize(v, cmp) == ""
    ensures v == Leaf("")
  {
  }

  lemma ItemsNotEmptyText(items: seq<Js>, cmp: LocaleCompare)
    requires items != [Leaf("")]
    ensures SerializeAll(items, cmp) != [""]
  {
    if |items| == 1 {
      SerializeAllAt(items, cmp, 0);
      assert items == [items[0]];
      if Serialize(items[0], cmp) == "" { EmptyText(items[0], cmp); }
    }
  }

  /** The texts of two lists agree item by item once their joined texts do. */
  lemma ItemsRead(a: seq<Js>, b: seq<Js>, cmp: LocaleCompare, sep: char)
    requires (forall i | 0 <= i < |a| :: Readable(a[i])) && (forall i | 0 <= i < |b| :: Readable(b[i]))
    requires a != [Leaf("")] && b != [Leaf("")] && IsSeparator(sep)
    requires Join(SerializeAll(a, cmp), [sep]) == Join(SerializeAll(b, cmp), [sep])
    ensures |a| == |b| && forall i | 0 <= i < |a| :: Serialize(a[i], cmp) == Serialize(b[i], cmp)
  {
    ItemsSealed(a, cmp, sep);
    ItemsSealed(b, cmp, sep);
    ItemsNotEmptyText(a, cmp);
    ItemsNotEmptyText(b, cmp);
    JoinReads(SerializeAll(a, cmp), SerializeAll(b, cmp), sep);
    forall i: nat | i < |a| ensures Serialize(a[i], cmp) == Serialize(b[i], cmp) {
      SerializeAllAt(a, cmp, i);
      SerializeAllAt(b, cmp, i);
    }
  }

  lemma FieldTextsNotEmpty(fields: seq<Field>, cmp: LocaleCompare)
    ensures FieldTexts(fields, cmp) != [""]
  {
    if FieldTexts(fields, cmp) != [] {
      var i := FieldOfText(fields, cmp, 0);
      assert FieldTexts(fields, cmp)[0][|fields[i].name|] == ':';
    }
  }

  lemma FieldsRead(f: seq<Field>, g: seq<Field>, cmp: LocaleCompare)
    requires Readable(Obj(f)) && Readable(Obj(g))
    requires Join(FieldTexts(f, cmp), ",") == Join(FieldTexts(g, cmp), ",")
    ensures FieldTexts(f, cmp) == FieldTexts(g, cmp)
  {
    FieldsSealed(f, cmp);
    FieldsSealed(g, cmp);
    FieldTextsNotEmpty(f, cmp);
    FieldTextsNotEmpty(g, cmp);
    JoinReads(FieldTexts(f, cmp), FieldTexts(g, cmp), ',');
  }

  /** A field of one object has a partner of its name and text in another with the same texts. */
  lemma Partner(f: seq<Field>, g: seq<Field>, cmp: LocaleCompare, i: nat) returns (j: nat)
    requires Readable(Obj(f)) && Readable(Obj(g)) && FieldTexts(f, cmp) == FieldTexts(g, cmp) && Defined(f, i)
    ensures Defined(g, j) && f[i].name == g[j].name && Serialize(f[i].value, cmp) == Serialize(g[j].value, cmp)
  {
    var k := TextOfField(f, cmp, i);
    j := FieldOfText(g, cmp, k);
    PlainHasNoColon(f[i].name);
    PlainHasNoColon(g[j].name);
    SplitAtFirst(f[i].name, Serialize(f[i].value, cmp), g[j].name, Serialize(g[j].value, cmp), ':');
  }

  lemma PlainHasNoColon(s: string)
    requires Plain(s)
    ensures ':' !in s
  {
    forall i | 0 <= i < |s| ensures s[i] != ':' { NoBracket(s[i]); }
  }

  lemma InnerText(x: string, y: string, l: char, r: char)
    requires [l] + x + [r] == [l] + y + [r]
    ensures x == y
  {
    var s, t := [l] + x + [r], [l] + y + [r];
    assert s[1..|s| - 1] == x && t[1..|t| - 1] == y;
  }

  /** What kind of value a readable text comes from. */
  lemma KindRead(v: Js, w: Js, cmp: LocaleCompare)
    requires Readable(v) && Readable(w) && Serialize(v, cmp) == Serialize(w, cmp)
    ensures v.Arr? <==> w.Arr?
    ensures v.Obj? <==> w.Obj?
    ensures !v.Arr? && !v.Obj? ==> v == w
  {
    FirstChar(v, cmp);
    FirstChar(w, cmp);
  }

  lemma FirstChar(v: Js, cmp: LocaleCompare)
    requires Readable(v)
    ensures var s := Serialize(v, cmp);
            (v.Arr? <==> s != "" && s[0] == '[') && (v.Obj? <==> s != "" && s[0] == '{')
  {
    if v.Leaf? && v.text != "" {
      NoBracket(v.text[0]);
    }
  }

  /** Readable values with the same text have the same content, whatever the comparison of names. */
  lemma {:induction false} ReadBack(v: Js, w: Js, cmp: LocaleCompare)
    requires Readable(v) && Readable(w) && Serialize(v, cmp) == Serialize(w, cmp)
    ensures Same(v, w)
    decreases v, 1
  {
    KindRead(v, w, cmp);
    match v
    case Arr(a) =>
      InnerText(Join(SerializeAll(a, cmp), ","), Join(SerializeAll(w.items, cmp), ","), '[', ']');
      ItemsRead(a, w.items, cmp, ',');
      forall i | 0 <= i < |a| ensures Same(a[i], w.items[i]) { ReadBack(a[i], w.items[i], cmp); }
    case Obj(f) =>
      InnerText(Join(FieldTexts(f, cmp), ","), Join(FieldTexts(w.fields, cmp), ","), '{', '}');
      FieldsRead(f, w.fields, cmp);
      ObjectRead(f, w.fields, cmp);
    case _ =>
  }

  lemma {:induction false} ObjectRead(f: seq<Field>, g: seq<Field>, cmp: LocaleCompare)
    requires Readable(Obj(f)) && Readable(Obj(g)) && FieldTexts(f, cmp) == FieldTexts(g, cmp)
    ensures Same(Obj(f), Obj(g))
    decreases Obj(f), 0
  {
    forall i: nat | i < |f| && Defined(f, i)
      ensures exists j | 0 <= j < |g| && Defined(g, j) :: f[i].name == g[j].name && Same(f[i].value, g[j].value)
    {
      var j := Partner(f, g, cmp, i);
      ReadBack(f[i].value, g[j].value, cmp);
    }
    forall j: nat | j < |g| && Defined(g, j) ensures exists i | 0 <= i < |f| && Defined(f, i) :: f[i].name == g[j].name {
      var i := Partner(g, f, cmp, j);
    }
  }

  // ---------------------------------------------------------------- keys

  ghost predicate ReadableParts(parts: seq<Js>) {
    parts != [Leaf("")] && forall i | 0 <= i < |parts| :: Readable(parts[i])
  }

  ghost predicate SameParts(p: seq<Js>, q: seq<Js>) {
    |p| == |q| && forall i | 0 <= i < |p| :: Same(p[i], q[i])
  }

  /** The key of readable parts tells their content: equal keys if and only if the parts are the same. */
  lemma KeyIffSame(p: seq<Js>, q: seq<Js>, cmp: LocaleCompare, names: set<string>)
    requires Separates(cmp, names) && ReadableParts(p) && ReadableParts(q)
    requires (forall i | 0 <= i < |p| :: Named(p[i], names)) && (forall i | 0 <= i < |q| :: Named(q[i], names))
    ensures BuildKey(p, cmp) == BuildKey(q, cmp) <==> SameParts(p, q)
  {
    if SameParts(p, q) {
      SameKey(p, q, cmp, names);
    } else if BuildKey(p, cmp) == BuildKey(q, cmp) {
      ItemsRead(p, q, cmp, '|');
      forall i | 0 <= i < |p| ensures Same(p[i], q[i]) { ReadBack(p[i], q[i], cmp); }
    }
  }

  /** None of the conditions can be dropped: separators, words and empty texts in leaves make different values meet. */
  lemma TextsMeet(s: string, t: string, cmp: LocaleCompare)
    ensures Serialize(Arr([Leaf(s + "," + t)]), cmp) == Serialize(Arr([Leaf(s), Leaf(t)]), cmp)
    ensures Serialize(Arr([]), cmp) == Serialize(Arr([Leaf("")]), cmp)
    ensures Serialize(Leaf("null"), cmp) == Serialize(Null, cmp)
    ensures Serialize(Leaf("undefined"), cmp) == Serialize(Undefined, cmp)
    ensures !Same(Arr([Leaf(s + "," + t)]), Arr([Leaf(s), Leaf(t)])) && !Same(Arr([]), Arr([Leaf("")]))
  {
    var two := [Leaf(s), Leaf(t)];
    assert two[..1] == [Leaf(s)] && [Leaf(s)][..0] == [];
    assert SerializeAll(two[..1], cmp) == [s];
    assert SerializeAll(two, cmp) == [s, t];
    assert Serialize(Arr(two), cmp) == "[" + Join([s, t], ",") + "]";
    var one := [Leaf(s + "," + t)];
    assert one[..0] == [] && SerializeAll(one, cmp) == [s + "," + t];
    assert [Leaf("")][..0] == [] && SerializeAll([Leaf("")], cmp) == [""];
    assert [s, t][..1] == [s];
    assert Join([s, t], ",") == s + "," + t;
  }
}
