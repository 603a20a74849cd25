/** The text form of request parameters that serves as cache key. */
module CacheKey {
  import opened StableSort

  /** A JavaScript value: a leaf carries its String() form. */
  datatype Js =
    | Null
    | Undefined
    | Leaf(text: string)
    | Arr(items: seq<Js>)
    | Obj(fields: seq<Field>)

  datatype Field = Field(name: string, value: Js)

  /** String.prototype.localeCompare, by its sign. */
  type LocaleCompare = Compare<string>

  type Written = Part<string, string>

  function Join(parts: seq<string>, separator: string): string {
    if parts == [] then ""
    else if |parts| == 1 then parts[0]
    else Join(parts[..|parts| - 1], separator) + separator + parts[|parts| - 1]
  }

  function Texts(s: seq<Written>): seq<string> {
    seq(|s|, i requires 0 <= i < |s| => s[i].value)
  }

  function Serialize(v: Js, cmp: LocaleCompare): string
    decreases v, 0
  {
    match v
    case Null => "null"
    case Undefined => "undefined"
    case Leaf(text) => text
    case Arr(items) => "[" + Join(SerializeAll(items, cmp), ",") + "]"
    case Obj(fields) => "{" + Join(Texts(Sort(Render(fields, cmp), cmp)), ",") + "}"
  }

  function SerializeAll(items: seq<Js>, cmp: LocaleCompare): (r: seq<string>)
    ensures |r| == |items|
    decreases items, 1
  {
    if items == [] then []
    else SerializeAll(items[..|items| - 1], cmp) + [Serialize(items[|items| - 1], cmp)]
  }

  function Write(f: Field, cmp: LocaleCompare): Written
    decreases f, 0
  {
    Part(f.name, f.name + ":" + Serialize(f.value, cmp))
  }

  /** The defined fields with their text; sorting by name before or after writing the text is the same. */
  function Render(fields: seq<Field>, cmp: LocaleCompare): seq<Written>
    decreases fields, 1
  {
    if fields == [] then []
    else
      var last := fields[|fields| - 1];
      Render(fields[..|fields| - 1], cmp) + if last.value.Undefined? then [] else [Write(last, cmp)]
  }

  function BuildKey(parts: seq<Js>, cmp: LocaleCompare): string {
    Join(SerializeAll(parts, cmp), "|")
  }

  // ---------------------------------------------------------------- values with the same content

  predicate Distinct(fields: seq<Field>) {
    forall i, j | 0 <= i < j < |fields| :: fields[i].name != fields[j].name
  }

  predicate Defined(fields: seq<Field>, i: nat) {
    i < |fields| && !fields[i].value.Undefined?
  }

  /** Equal up to the order of object fields and up to undefined fields, at any depth. */
  ghost predicate Same(v: Js, w: Js)
    decreases v
  {
    match (v, w)
    case (Arr(a), Arr(b)) => |a| == |b| && forall i | 0 <= i < |a| :: Same(a[i], b[i])
    case (Obj(f), Obj(g)) =>
      Distinct(f) && Distinct(g)
      && (forall i | 0 <= i < |f| && Defined(f, i) ::
            exists j | 0 <= j < |g| && Defined(g, j) :: f[i].name == g[j].name && Same(f[i].value, g[j].value))
      && (forall j | 0 <= j < |g| && Defined(g, j) ::
            exists i | 0 <= i < |f| && Defined(f, i) :: f[i].name == g[j].name)
    case (Arr(_), _) => false
    case (Obj(_), _) => false
    case _ => v == w
  }

  /** All field names of a value, at any depth, are among these. */
  ghost predicate Named(v: Js, names: set<string>) {
    match v
    case Arr(items) => forall i | 0 <= i < |items| :: Named(items[i], names)
    case Obj(fields) => forall i | 0 <= i < |fields| :: fields[i].name in names && Named(fields[i].value, names)
    case _ => true
  }

  // ---------------------------------------------------------------- the key depends on content only

  lemma {:induction false} RenderElements(fields: seq<Field>, cmp: LocaleCompare, y: Written)
    ensures y in Render(fields, cmp) <==> exists i | 0 <= i < |fields| && Defined(fields, i) :: y == Write(fields[i], cmp)
  {
    if fields != [] {
      var n := |fields| - 1;
      RenderElements(fields[..n], cmp, y);
      assert forall i | 0 <= i < n :: fields[..n][i] == fields[i] && Defined(fields[..n], i) == Defined(fields, i);
      if y in Render(fields, cmp) && y !in Render(fields[..n], cmp) {
        assert Defined(fields, n);
      }
    }
  }

  lemma {:induction false} RenderNames(fields: seq<Field>, cmp: LocaleCompare, names: set<string>)
    requires Distinct(fields) && forall i | 0 <= i < |fields| :: fields[i].name in names
    ensures NamesIn(Render(fields, cmp), names) && DistinctNames(Render(fields, cmp))
  {
    if fields != [] {
      var n := |fields| - 1;
      RenderNames(fields[..n], cmp, names);
      var r := Render(fields[..n], cmp);
      forall i | 0 <= i < |r| ensures r[i].name != fields[n].name {
        RenderElements(fields[..n], cmp, r[i]);
      }
    }
  }

  lemma {:induction false} SerializeAllAt(items: seq<Js>, cmp: LocaleCompare, i: nat)
    requires i < |items|
    ensures SerializeAll(items, cmp)[i] == Serialize(items[i], cmp)
  {
    if i < |items| - 1 {
      SerializeAllAt(items[..|items| - 1], cmp, i);
    }
  }

  /** Fields that match by name and text, both ways, write the same object text. */
  lemma SameFields(f: seq<Field>, g: seq<Field>, cmp: LocaleCompare, names: set<string>)
    requires Separates(cmp, names) && Distinct(f) && Distinct(g)
    requires (forall i | 0 <= i < |f| :: f[i].name in names) && (forall j | 0 <= j < |g| :: g[j].name in names)
    requires forall i | 0 <= i < |f| && Defined(f, i) :: Write(f[i], cmp) in Render(g, cmp)
    requires forall j | 0 <= j < |g| && Defined(g, j) :: Write(g[j], cmp) in Render(f, cmp)
    ensures Serialize(Obj(f), cmp) == Serialize(Obj(g), cmp)
  {
    RenderNames(f, cmp, names);
    RenderNames(g, cmp, names);
    forall y ensures y in Render(f, cmp) <==> y in Render(g, cmp) {
      RenderElements(f, cmp, y);
      RenderElements(g, cmp, y);
    }
    SortIgnoresOrder(Render(f, cmp), Render(g, cmp), cmp, names);
  }

  /** Values with the same content have the same text, whatever the order of their fields. */
  lemma {:induction false} SameText(v: Js, w: Js, cmp: LocaleCompare, names: set<string>)
    requires Separates(cmp, names) && Named(v, names) && Named(w, names) && Same(v, w)
    ensures Serialize(v, cmp) == Serialize(w, cmp)
    decreases v, 2
  {
    match v
    case Arr(a) =>
      var b := w.items;
      forall i | 0 <= i < |a| ensures SerializeAll(a, cmp)[i] == SerializeAll(b, cmp)[i] {
        SameText(a[i], b[i], cmp, names);
        SerializeAllAt(a, cmp, i);
        SerializeAllAt(b, cmp, i);
      }
      assert SerializeAll(a, cmp) == SerializeAll(b, cmp);
    case Obj(f) =>
      SameObject(f, w.fields, cmp, names);
    case _ =>
  }

  lemma {:induction false} SameObject(f: seq<Field>, g: seq<Field>, cmp: LocaleCompare, names: set<string>)
    requires Separates(cmp, names) && Named(Obj(f), names) && Named(Obj(g), names) && Same(Obj(f), Obj(g))
    ensures Serialize(Obj(f), cmp) == Serialize(Obj(g), cmp)
    decreases Obj(f), 1
  {
    forall i: nat | i < |f| && Defined(f, i) ensures Write(f[i], cmp) in Render(g, cmp) { WrittenThere(f, g, cmp, names, i); }
    forall j: nat | j < |g| && Defined(g, j) ensures Write(g[j], cmp) in Render(f, cmp) { WrittenHere(f, g, cmp, names, j); }
    SameFields(f, g, cmp, names);
  }

  /** A field of one object is written the same in the other, and the other way round. */
  lemma {:induction false} WrittenThere(f: seq<Field>, g: seq<Field>, cmp: LocaleCompare, names: set<string>, i: nat)
    requires Separates(cmp, names) && Named(Obj(f), names) && Named(Obj(g), names) && Same(Obj(f), Obj(g)) && Defined(f, i)
    ensures Write(f[i], cmp) in Render(g, cmp)
    decreases f[i].value, 4
  {
    var j := MatchField(f, g, cmp, names, i);
    RenderElements(g, cmp, Write(f[i], cmp));
  }

  lemma {:induction false} WrittenHere(f: seq<Field>, g: seq<Field>, cmp: LocaleCompare, names: set<string>, j: nat)
    requires Separates(cmp, names) && Named(Obj(f), names) && Named(Obj(g), names) && Same(Obj(f), Obj(g)) && Defined(g, j)
    ensures Write(g[j], cmp) in Render(f, cmp)
    decreases Obj(f), 0
  {
    var i := NamedLike(f, g, j);
    WrittenAs(f, g, cmp, names, i, j);
  }

  lemma NamedLike(f: seq<Field>, g: seq<Field>, j: nat) returns (i: nat)
    requires Same(Obj(f), Obj(g)) && Defined(g, j)
    ensures Defined(f, i) && f[i].name == g[j].name
  {
    i :| 0 <= i < |f| && Defined(f, i) && f[i].name == g[j].name;
  }

  lemma {:induction false} WrittenAs(f: seq<Field>, g: seq<Field>, cmp: LocaleCompare, names: set<string>, i: nat, j: nat)
    requires Separates(cmp, names) && Named(Obj(f), names) && Named(Obj(g), names) && Same(Obj(f), Obj(g))
    requires Defined(f, i) && Defined(g, j) && f[i].name == g[j].name
    ensures Write(g[j], cmp) in Render(f, cmp)
    decreases f[i].value, 4
  {
    var k := MatchField(f, g, cmp, names, i);
    RenderElements(f, cmp, Write(g[j], cmp));
  }

  /** The field of the other object that has this one's name has its text too. */
  lemma {:induction false} MatchField(f: seq<Field>, g: seq<Field>, cmp: LocaleCompare, names: set<string>, i: nat) returns (j: nat)
    requires Separates(cmp, names) && Named(Obj(f), names) && Named(Obj(g), names) && Same(Obj(f), Obj(g)) && Defined(f, i)
    ensures Defined(g, j) && f[i].name == g[j].name && Write(f[i], cmp) == Write(g[j], cmp)
    ensures forall k | 0 <= k < |g| && g[k].name == f[i].name :: k == j
    decreases f[i].value, 3
  {
    j :| 0 <= j < |g| && Defined(g, j) && f[i].name == g[j].name && Same(f[i].value, g[j].value);
    SameText(f[i].value, g[j].value, cmp, names);
  }

  /** Equal parts make equal keys. */
  lemma SameKey(parts: seq<Js>, parts': seq<Js>, cmp: LocaleCompare, names: set<string>)
    requires Separates(cmp, names) && |parts| == |parts'|
    requires forall i | 0 <= i < |parts| :: Named(parts[i], names) && Named(parts'[i], names) && Same(parts[i], parts'[i])
    ensures BuildKey(parts, cmp) == BuildKey(parts', cmp)
  {
    forall i | 0 <= i < |parts| ensures SerializeAll(parts, cmp)[i] == SerializeAll(parts', cmp)[i] {
      SameText(parts[i], parts'[i], cmp, names);
      SerializeAllAt(parts, cmp, i);
      SerializeAllAt(parts', cmp, i);
    }
    assert SerializeAll(parts, cmp) == SerializeAll(parts', cmp);
  }

  /** Two names that the comparison ties keep the order they came in, so then the text does depend on it. */
  lemma TiedNamesShow(cmp: LocaleCompare, a: string, b: string)
    requires a != b && cmp(a, b) == 0 && cmp(b, a) == 0
    ensures var one, two := Field(a, Leaf("1")), Field(b, Leaf("2"));
            Same(Obj([one, two]), Obj([two, one]))
            && Serialize(Obj([one, two]), cmp) != Serialize(Obj([two, one]), cmp)
  {
    var one, two := Field(a, Leaf("1")), Field(b, Leaf("2"));
    TiedPair(one, two, cmp);
    TiedPair(two, one, cmp);
    var s, t := Serialize(Obj([one, two]), cmp), Serialize(Obj([two, one]), cmp);
    assert s[|s| - 2] == '2' && t[|t| - 2] == '1';
    SwappedSame(one, two);
  }

  /** The comparison orders these names but may tie some, as localeCompare may. */
  ghost predicate Preorder(cmp: LocaleCompare, names: set<string>) {
    (forall a, b | a in names && b in names :: cmp(a, b) < 0 <==> cmp(b, a) > 0)
    && (forall a, b, c | a in names && b in names && c in names && cmp(a, b) <= 0 && cmp(b, c) <= 0 :: cmp(a, c) <= 0)
  }

  ghost predicate TiesNone(cmp: LocaleCompare, names: set<string>) {
    forall a, b | a in names && b in names && a != b :: cmp(a, b) != 0
  }

  ghost predicate ContentDecides(cmp: LocaleCompare, names: set<string>) {
    forall v, w | Named(v, names) && Named(w, names) && Same(v, w) :: Serialize(v, cmp) == Serialize(w, cmp)
  }

  lemma UntiedSeparates(cmp: LocaleCompare, names: set<string>)
    requires Preorder(cmp, names) && TiesNone(cmp, names)
    ensures Separates(cmp, names)
  {
    forall a, b, c | a in names && b in names && c in names && cmp(a, b) < 0 && cmp(b, c) < 0 ensures cmp(a, c) < 0 {
      assert cmp(a, c) <= 0;
      if a == c { assert false; }
    }
  }

  /** Values of two fields whose names are tied, which content does not decide. */
  lemma TiedPairNamed(a: string, b: string, names: set<string>) returns (v: Js, w: Js)
    requires a in names && b in names
    ensures v == Obj([Field(a, Leaf("1")), Field(b, Leaf("2"))]) && w == Obj([Field(b, Leaf("2")), Field(a, Leaf("1"))])
    ensures Named(v, names) && Named(w, names)
  {
    v, w := Obj([Field(a, Leaf("1")), Field(b, Leaf("2"))]), Obj([Field(b, Leaf("2")), Field(a, Leaf("1"))]);
  }

  lemma ContentDecidesApart(cmp: LocaleCompare, names: set<string>, a: string, b: string)
    requires Preorder(cmp, names) && ContentDecides(cmp, names) && a in names && b in names && a != b
    ensures cmp(a, b) != 0
  {
    if cmp(a, b) == 0 {
      var v, w := TiedPairNamed(a, b, names);
      TiedNamesShow(cmp, a, b);
    }
  }

  /** Over a set of names, the text depends on content only if and only if no two of the names are tied. */
  lemma ContentDecidesIff(cmp: LocaleCompare, names: set<string>)
    requires Preorder(cmp, names)
    ensures ContentDecides(cmp, names) <==> TiesNone(cmp, names)
  {
    if TiesNone(cmp, names) {
      UntiedSeparates(cmp, names);
      forall v, w | Named(v, names) && Named(w, names) && Same(v, w) ensures Serialize(v, cmp) == Serialize(w, cmp) {
        SameText(v, w, cmp, names);
      }
    } else if ContentDecides(cmp, names) {
      forall a, b | a in names && b in names && a != b ensures cmp(a, b) != 0 { ContentDecidesApart(cmp, names, a, b); }
    }
  }

  lemma SwappedSame(x: Field, y: Field)
    requires x.value.Leaf? && y.value.Leaf? && x.name != y.name
    ensures Same(Obj([x, y]), Obj([y, x]))
  {
    var f, g := [x, y], [y, x];
    assert f[0] == g[1] && f[1] == g[0] && Defined(f, 0) && Defined(f, 1) && Defined(g, 0) && Defined(g, 1);
    assert Same(f[0].value, g[1].value) && Same(f[1].value, g[0].value);
  }

  lemma TiedPair(x: Field, y: Field, cmp: LocaleCompare)
    requires x.value.Leaf? && y.value.Leaf? && cmp(x.name, y.name) == 0
    ensures Serialize(Obj([x, y]), cmp) == "{" + (x.name + ":" + x.value.text + "," + (y.name + ":" + y.value.text)) + "}"
  {
    var fields := [x, y];
    assert fields[..1] == [x] && fields[..1][..0] == [];
    var parts: seq<Written> := [Write(x, cmp), Write(y, cmp)];
    assert Render(fields[..1][..0], cmp) == [] && Render(fields[..1], cmp) == [parts[0]];
    assert Render(fields, cmp) == parts;
    assert parts[..1] == [parts[0]] && parts[..1][..0] == [];
    assert Sort(parts[..1][..0], cmp) == [] && Sort(parts[..1], cmp) == [parts[0]];
    assert Sort(parts, cmp) == parts;
    var texts := Texts(parts);
    assert texts == [parts[0].value, parts[1].value] && texts[..1] == [parts[0].value];
    assert Join(texts[..1], ",") == parts[0].value;
    assert Join(texts, ",") == parts[0].value + "," + parts[1].value;
    assert Serialize(Obj(fields), cmp) == "{" + Join(texts, ",") + "}";
    assert Serialize(x.value, cmp) == x.value.text && Serialize(y.value, cmp) == y.value.text;
    assert parts[0].value + "," + parts[1].value
        == x.name + ":" + x.value.text + "," + (y.name + ":" + y.value.text);
  }
}
