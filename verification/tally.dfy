/** Weights of rows summed per tag: what the loops over counter maps compute. */
module Tally {
  import opened Finite

  lemma TakeMore<T>(s: seq<T>, i: nat)
    requires i < |s|
    ensures s[..i + 1] == s[..i] + [s[i]]
  {
  }

  lemma TakeAll<T>(s: seq<T>)
    ensures s[..|s|] == s
  {
  }

  /** The weight of the rows with a label. */
  ghost function Weigh<T, K>(rows: seq<T>, tag: T -> K, weight: T -> int, k: K): int {
    if rows == [] then 0
    else Weigh(rows[..|rows| - 1], tag, weight, k) + if tag(rows[|rows| - 1]) == k then weight(rows[|rows| - 1]) else 0
  }

  /** The weight of the rows whose label is among some. */
  ghost function WeighIn<T, K>(rows: seq<T>, tag: T -> K, weight: T -> int, labels: set<K>): int {
    if rows == [] then 0
    else WeighIn(rows[..|rows| - 1], tag, weight, labels)
         + if tag(rows[|rows| - 1]) in labels then weight(rows[|rows| - 1]) else 0
  }

  ghost function Labels<T, K(!new)>(rows: seq<T>, tag: T -> K): set<K> {
    set i | 0 <= i < |rows| :: tag(rows[i])
  }

  ghost function Weights<T, K>(rows: seq<T>, tag: T -> K, weight: T -> int): K -> int {
    k => Weigh(rows, tag, weight, k)
  }

  ghost function Each<T>(): T -> int {
    x => 1
  }

  /** The rows, by position, that have a label and a weight of one. */
  ghost function Positions<T, K(!new)>(rows: seq<T>, tag: T -> K, weight: T -> int, k: K): set<nat> {
    set i: nat | i < |rows| && tag(rows[i]) == k && weight(rows[i]) == 1
  }

  lemma PositionsMore<T, K(!new)>(rows: seq<T>, tag: T -> K, weight: T -> int, k: K)
    requires rows != []
    ensures var n := |rows| - 1;
            n !in Positions(rows[..n], tag, weight, k)
            && Positions(rows, tag, weight, k)
               == Positions(rows[..n], tag, weight, k) + if tag(rows[n]) == k && weight(rows[n]) == 1 then {n} else {}
  {
  }

  /** Weighing rows as one or nothing counts those with the label that weigh something. */
  lemma {:induction false} WeighIsCount<T, K(!new)>(rows: seq<T>, tag: T -> K, weight: T -> int, k: K)
    requires forall r :: weight(r) == 0 || weight(r) == 1
    ensures Weigh(rows, tag, weight, k) == |Positions(rows, tag, weight, k)|
  {
    if rows == [] {
      assert Positions(rows, tag, weight, k) == {};
    } else {
      var init, n := rows[..|rows| - 1], |rows| - 1;
      WeighIsCount(init, tag, weight, k);
      PositionsMore(rows, tag, weight, k);
    }
  }

  lemma {:induction false} SumZero<K(!new)>(s: set<K>, f: K -> int)
    requires forall k | k in s :: f(k) == 0
    ensures Sum(s, f) == 0
  {
    if s != {} { SumZero(s - {Pick(s)}, f); }
  }

  /** Changing a measure at one element changes the sum by as much. */
  lemma SumChange<K(!new)>(s: set<K>, f: K -> int, g: K -> int, k: K, more: int)
    requires g(k) == f(k) + more && forall x | x in s && x != k :: g(x) == f(x)
    ensures Sum(s, g) == Sum(s, f) + if k in s then more else 0
  {
    if k in s {
      SumTake(s, f, k);
      SumTake(s, g, k);
      SumSame(s - {k}, f, g);
    } else {
      SumSame(s, f, g);
    }
  }

  /** Summing the weights of some labels is weighing the rows that have one of them. */
  lemma {:induction false} SumOfWeights<T, K(!new)>(rows: seq<T>, tag: T -> K, weight: T -> int, labels: set<K>)
    ensures Sum(labels, Weights(rows, tag, weight)) == WeighIn(rows, tag, weight, labels)
  {
    if rows == [] {
      SumZero(labels, Weights(rows, tag, weight));
    } else {
      var rest, row := rows[..|rows| - 1], rows[|rows| - 1];
      SumOfWeights(rest, tag, weight, labels);
      SumChange(labels, Weights(rest, tag, weight), Weights(rows, tag, weight), tag(row), weight(row));
    }
  }

  ghost function WeighAll<T>(rows: seq<T>, weight: T -> int): int {
    if rows == [] then 0 else WeighAll(rows[..|rows| - 1], weight) + weight(rows[|rows| - 1])
  }

  lemma {:induction false} WeighInAll<T, K(!new)>(rows: seq<T>, tag: T -> K, weight: T -> int, labels: set<K>)
    requires forall i | 0 <= i < |rows| && weight(rows[i]) != 0 :: tag(rows[i]) in labels
    ensures WeighIn(rows, tag, weight, labels) == WeighAll(rows, weight)
  {
    if rows != [] { WeighInAll(rows[..|rows| - 1], tag, weight, labels); }
  }

  lemma {:induction false} WeighEach<T>(rows: seq<T>)
    ensures WeighAll(rows, Each<T>()) == |rows|
  {
    if rows != [] { WeighEach(rows[..|rows| - 1]); }
  }

  lemma {:induction false} WeighEachIn<T, K(!new)>(rows: seq<T>, tag: T -> K, labels: set<K>)
    ensures 0 <= WeighIn(rows, tag, Each<T>(), labels) <= |rows|
    ensures WeighIn(rows, tag, Each<T>(), labels) == |rows| <==> Labels(rows, tag) <= labels
  {
    if rows != [] {
      var rest, row := rows[..|rows| - 1], rows[|rows| - 1];
      WeighEachIn(rest, tag, labels);
      LabelsAppend(rest, row, tag);
      assert rows == rest + [row];
    }
  }

  lemma LabelsAppend<T, K(!new)>(rows: seq<T>, row: T, tag: T -> K)
    ensures Labels(rows + [row], tag) == Labels(rows, tag) + {tag(row)}
  {
    var all := rows + [row];
    assert all[|rows|] == row;
    forall i | 0 <= i < |rows| ensures tag(rows[i]) in Labels(all, tag) { assert all[i] == rows[i]; }
  }

  ghost function Heavy<T(!new)>(rows: seq<T>, weight: T -> int): set<nat> {
    set i: nat | i < |rows| && weight(rows[i]) == 1
  }

  lemma HeavyMore<T(!new)>(rows: seq<T>, weight: T -> int)
    requires rows != []
    ensures var n := |rows| - 1;
            n !in Heavy(rows[..n], weight) && Heavy(rows, weight) == Heavy(rows[..n], weight) + if weight(rows[n]) == 1 then {n} else {}
  {
  }

  /** So does weighing all rows. */
  lemma {:induction false} WeighAllIsCount<T(!new)>(rows: seq<T>, weight: T -> int)
    requires forall r :: weight(r) == 0 || weight(r) == 1
    ensures WeighAll(rows, weight) == |Heavy(rows, weight)|
  {
    if rows == [] {
      assert Heavy(rows, weight) == {};
    } else {
      WeighAllIsCount(rows[..|rows| - 1], weight);
      HeavyMore(rows, weight);
    }
  }

  lemma WeighAppend<T, K>(rows: seq<T>, row: T, tag: T -> K, weight: T -> int, k: K)
    ensures Weigh(rows + [row], tag, weight, k) == Weigh(rows, tag, weight, k) + if tag(row) == k then weight(row) else 0
  {
    assert (rows + [row])[..|rows|] == rows;
  }

  // ---------------------------------------------------------------- counter maps

  /** The map has the labels of the rows, each with the number of its rows. */
  ghost predicate Counts<T, K(!new)>(counter: map<K, int>, rows: seq<T>, tag: T -> K) {
    counter.Keys == Labels(rows, tag) && forall k | k in counter :: counter[k] == Weigh(rows, tag, Each<T>(), k)
  }

  function Bump<K(==)>(counter: map<K, int>, k: K): map<K, int> {
    counter[k := (if k in counter then counter[k] else 0) + 1]
  }

  lemma {:induction false} Unlabelled<T, K(!new)>(rows: seq<T>, tag: T -> K, weight: T -> int, k: K)
    requires k !in Labels(rows, tag)
    ensures Weigh(rows, tag, weight, k) == 0
  {
    if rows != [] {
      LabelsAppend(rows[..|rows| - 1], rows[|rows| - 1], tag);
      assert rows == rows[..|rows| - 1] + [rows[|rows| - 1]];
      Unlabelled(rows[..|rows| - 1], tag, weight, k);
    }
  }

  lemma BumpCounts<T, K(!new)>(counter: map<K, int>, rows: seq<T>, row: T, tag: T -> K)
    requires Counts(counter, rows, tag)
    ensures Counts(Bump(counter, tag(row)), rows + [row], tag)
  {
    LabelsAppend(rows, row, tag);
    if tag(row) !in counter { Unlabelled(rows, tag, Each<T>(), tag(row)); }
    forall k | k in Bump(counter, tag(row))
      ensures Bump(counter, tag(row))[k] == Weigh(rows + [row], tag, Each<T>(), k)
    {
      WeighAppend(rows, row, tag, Each<T>(), k);
    }
  }

  ghost function Value<K>(counter: map<K, int>): K -> int {
    k => if k in counter then counter[k] else 0
  }

  /** The counts of some labels sum to the number of their rows, and to that of all rows just when no label is missing. */
  lemma CountsConserve<T, K(!new)>(counter: map<K, int>, rows: seq<T>, tag: T -> K, kept: set<K>)
    requires Counts(counter, rows, tag) && kept <= counter.Keys
    ensures Sum(kept, Value(counter)) == WeighIn(rows, tag, Each<T>(), kept)
    ensures Sum(kept, Value(counter)) == |rows| <==> kept == counter.Keys
  {
    SumSame(kept, Value(counter), Weights(rows, tag, Each<T>()));
    SumOfWeights(rows, tag, Each<T>(), kept);
    WeighEachIn(rows, tag, kept);
  }
}
