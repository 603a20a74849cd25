/** A stable sort of named parts by a comparison of their names. */
module StableSort {

  datatype Part<+K, +V> = Part(name: K, value: V)

  type Compare<!K> = (K, K) -> int

  /** Inserts behind every part that does not compare greater, as a stable sort does. */
  function Insert<K, V>(x: Part<K, V>, s: seq<Part<K, V>>, cmp: Compare<K>): seq<Part<K, V>> {
    if s == [] || cmp(s[|s| - 1].name, x.name) <= 0 then s + [x]
    else Insert(x, s[..|s| - 1], cmp) + [s[|s| - 1]]
  }

  function Sort<K, V>(s: seq<Part<K, V>>, cmp: Compare<K>): seq<Part<K, V>> {
    if s == [] then [] else Insert(s[|s| - 1], Sort(s[..|s| - 1], cmp), cmp)
  }

  /** The comparison is a strict order on these names: it ties no two different ones. */
  ghost predicate Separates<K(!new)>(cmp: Compare<K>, names: set<K>) {
    (forall a, b | a in names && b in names && a != b :: cmp(a, b) < 0 || cmp(b, a) < 0)
    && (forall a, b | a in names && b in names && cmp(a, b) < 0 :: cmp(b, a) > 0)
    && (forall a, b, c | a in names && b in names && c in names && cmp(a, b) < 0 && cmp(b, c) < 0 :: cmp(a, c) < 0)
  }

  ghost predicate Ascending<K(!new), V>(s: seq<Part<K, V>>, cmp: Compare<K>) {
    forall i, j | 0 <= i < j < |s| :: cmp(s[i].name, s[j].name) < 0
  }

  ghost predicate NamesIn<K(!new), V>(s: seq<Part<K, V>>, names: set<K>) {
    forall i | 0 <= i < |s| :: s[i].name in names
  }

  ghost predicate DistinctNames<K(!new), V>(s: seq<Part<K, V>>) {
    forall i, j | 0 <= i < j < |s| :: s[i].name != s[j].name
  }

  ghost predicate SameElements<K(!new), V(!new)>(s: seq<Part<K, V>>, t: seq<Part<K, V>>) {
    forall y :: y in s <==> y in t
  }

  lemma SameEmptiness<K(!new), V(!new)>(s: seq<Part<K, V>>, t: seq<Part<K, V>>)
    requires SameElements(s, t)
    ensures s == [] <==> t == []
  {
    assert s == [] || s[0] in s;
    assert t == [] || t[0] in t;
  }

  lemma {:induction false} InsertElements<K(!new), V(!new)>(x: Part<K, V>, s: seq<Part<K, V>>, cmp: Compare<K>)
    ensures forall y :: y in Insert(x, s, cmp) <==> y == x || y in s
  {
    if s != [] {
      InsertElements(x, s[..|s| - 1], cmp);
      assert s == s[..|s| - 1] + [s[|s| - 1]];
    }
  }

  lemma {:induction false} SortElements<K(!new), V(!new)>(s: seq<Part<K, V>>, cmp: Compare<K>)
    ensures forall y :: y in Sort(s, cmp) <==> y in s
  {
    if s != [] {
      SortElements(s[..|s| - 1], cmp);
      InsertElements(s[|s| - 1], Sort(s[..|s| - 1], cmp), cmp);
      assert s == s[..|s| - 1] + [s[|s| - 1]];
    }
  }

  lemma AppendAscends<K(!new), V(!new)>(s: seq<Part<K, V>>, x: Part<K, V>, cmp: Compare<K>)
    requires Ascending(s, cmp) && forall y | y in s :: cmp(y.name, x.name) < 0
    ensures Ascending(s + [x], cmp)
  {
    assert forall i | 0 <= i < |s| :: s[i] in s;
  }

  /** Everything before the last part compares less than it. */
  lemma BeforeLast<K(!new), V(!new)>(s: seq<Part<K, V>>, cmp: Compare<K>, names: set<K>, y: Part<K, V>)
    requires s != [] && Ascending(s, cmp) && NamesIn(s, names) && y in s[..|s| - 1]
    ensures y in s && y.name in names && cmp(y.name, s[|s| - 1].name) < 0
  {
    var i :| 0 <= i < |s| - 1 && s[i] == y;
  }

  /** Every part of an ascending list compares less than what its last part compares less than. */
  lemma AllBefore<K(!new), V(!new)>(x: Part<K, V>, s: seq<Part<K, V>>, cmp: Compare<K>, names: set<K>, y: Part<K, V>)
    requires Separates(cmp, names) && x.name in names && NamesIn(s, names) && Ascending(s, cmp)
    requires s != [] && cmp(s[|s| - 1].name, x.name) < 0 && y in s
    ensures cmp(y.name, x.name) < 0
  {
    var i :| 0 <= i < |s| && s[i] == y;
    if i < |s| - 1 {
      assert s[i].name in names && s[|s| - 1].name in names;
      assert cmp(s[i].name, s[|s| - 1].name) < 0;
    }
  }

  lemma {:induction false} InsertAscends<K(!new), V(!new)>(x: Part<K, V>, s: seq<Part<K, V>>, cmp: Compare<K>, names: set<K>)
    requires Separates(cmp, names) && x.name in names && NamesIn(s, names)
    requires Ascending(s, cmp) && forall y | y in s :: y.name != x.name
    ensures Ascending(Insert(x, s, cmp), cmp)
    decreases |s|, 1
  {
    if s != [] {
      var last := s[|s| - 1];
      assert last in s && last.name in names;
      if cmp(last.name, x.name) <= 0 {
        assert cmp(last.name, x.name) < 0;
        forall y | y in s ensures cmp(y.name, x.name) < 0 { AllBefore(x, s, cmp, names, y); }
        AppendAscends(s, x, cmp);
      } else {
        InsertBeforeLast(x, s, cmp, names);
      }
    }
  }

  lemma {:induction false} InsertBeforeLast<K(!new), V(!new)>(x: Part<K, V>, s: seq<Part<K, V>>, cmp: Compare<K>, names: set<K>)
    requires Separates(cmp, names) && x.name in names && NamesIn(s, names)
    requires Ascending(s, cmp) && forall y | y in s :: y.name != x.name
    requires s != [] && cmp(s[|s| - 1].name, x.name) > 0
    ensures Ascending(Insert(x, s, cmp), cmp)
    decreases |s|, 0
  {
    var init, last := s[..|s| - 1], s[|s| - 1];
    assert last in s && last.name in names;
    forall y | y in init ensures y in s && cmp(y.name, last.name) < 0 { BeforeLast(s, cmp, names, y); }
    InsertAscends(x, init, cmp, names);
    InsertElements(x, init, cmp);
    AppendAscends(Insert(x, init, cmp), last, cmp);
  }

  lemma {:induction false} SortAscends<K(!new), V(!new)>(s: seq<Part<K, V>>, cmp: Compare<K>, names: set<K>)
    requires Separates(cmp, names) && NamesIn(s, names) && DistinctNames(s)
    ensures Ascending(Sort(s, cmp), cmp) && NamesIn(Sort(s, cmp), names)
  {
    if s != [] {
      var init, last := s[..|s| - 1], s[|s| - 1];
      SortAscends(init, cmp, names);
      SortElements(init, cmp);
      forall y | y in Sort(init, cmp) ensures y.name != last.name {
        var j :| 0 <= j < |init| && init[j] == y;
        assert s[j] == y;
      }
      InsertAscends(last, Sort(init, cmp), cmp, names);
      SortElements(s, cmp);
      forall i | 0 <= i < |Sort(s, cmp)| ensures Sort(s, cmp)[i].name in names {
        assert Sort(s, cmp)[i] in s;
      }
    }
  }

  lemma InitLacksLast<K(!new), V(!new)>(s: seq<Part<K, V>>, y: Part<K, V>, cmp: Compare<K>, names: set<K>)
    requires s != [] && Ascending(s, cmp) && Separates(cmp, names) && NamesIn(s, names)
    ensures y in s[..|s| - 1] <==> y in s && y != s[|s| - 1]
    ensures y in s[..|s| - 1] ==> cmp(y.name, s[|s| - 1].name) < 0
  {
    var last := s[|s| - 1];
    assert s == s[..|s| - 1] + [last];
    if y in s[..|s| - 1] {
      var i :| 0 <= i < |s| - 1 && s[i] == y;
      assert cmp(s[i].name, last.name) < 0;
    }
  }

  lemma InitAscends<K(!new), V(!new)>(s: seq<Part<K, V>>, cmp: Compare<K>, names: set<K>)
    requires s != [] && Ascending(s, cmp) && NamesIn(s, names)
    ensures Ascending(s[..|s| - 1], cmp) && NamesIn(s[..|s| - 1], names)
  {
  }

  lemma LastsAgree<K(!new), V(!new)>(s: seq<Part<K, V>>, t: seq<Part<K, V>>, cmp: Compare<K>, names: set<K>)
    requires s != [] && t != [] && Separates(cmp, names) && NamesIn(s, names) && NamesIn(t, names)
    requires Ascending(s, cmp) && Ascending(t, cmp) && s[|s| - 1] in t && t[|t| - 1] in s
    ensures s[|s| - 1] == t[|t| - 1]
  {
    InitLacksLast(s, t[|t| - 1], cmp, names);
    InitLacksLast(t, s[|s| - 1], cmp, names);
  }

  lemma InitsAgree<K(!new), V(!new)>(s: seq<Part<K, V>>, t: seq<Part<K, V>>, s': seq<Part<K, V>>, t': seq<Part<K, V>>,
                                     cmp: Compare<K>, names: set<K>)
    requires s != [] && t != [] && Separates(cmp, names) && NamesIn(s, names) && NamesIn(t, names)
    requires Ascending(s, cmp) && Ascending(t, cmp) && SameElements(s, t)
    requires s' == s[..|s| - 1] && t' == t[..|t| - 1]
    ensures s == s' + [s[|s| - 1]] && t == t' + [s[|s| - 1]]
    ensures SameElements(s', t')
    ensures Ascending(s', cmp) && NamesIn(s', names) && Ascending(t', cmp) && NamesIn(t', names)
  {
    assert s[|s| - 1] in s && t[|t| - 1] in t;
    LastsAgree(s, t, cmp, names);
    InitAscends(s, cmp, names);
    InitAscends(t, cmp, names);
    forall y ensures y in s' <==> y in t' {
      InitLacksLast(s, y, cmp, names);
      InitLacksLast(t, y, cmp, names);
    }
  }

  /** An ascending sequence is determined by its elements. */
  lemma {:induction false} AscendingUnique<K(!new), V(!new)>(s: seq<Part<K, V>>, t: seq<Part<K, V>>, cmp: Compare<K>, names: set<K>)
    requires Separates(cmp, names) && NamesIn(s, names) && NamesIn(t, names)
    requires Ascending(s, cmp) && Ascending(t, cmp) && SameElements(s, t)
    ensures s == t
  {
    SameEmptiness(s, t);
    if s != [] {
      var s', t' := s[..|s| - 1], t[..|t| - 1];
      InitsAgree(s, t, s', t', cmp, names);
      AscendingUnique(s', t', cmp, names);
    }
  }

  /** Distinctly named parts with the same elements sort to the same sequence, whatever order they come in. */
  lemma SortIgnoresOrder<K(!new), V(!new)>(s: seq<Part<K, V>>, t: seq<Part<K, V>>, cmp: Compare<K>, names: set<K>)
    requires Separates(cmp, names) && NamesIn(s, names) && NamesIn(t, names)
    requires DistinctNames(s) && DistinctNames(t) && SameElements(s, t)
    ensures Sort(s, cmp) == Sort(t, cmp)
  {
    SortAscends(s, cmp, names);
    SortAscends(t, cmp, names);
    SortElements(s, cmp);
    SortElements(t, cmp);
    AscendingUnique(Sort(s, cmp), Sort(t, cmp), cmp, names);
  }
}
