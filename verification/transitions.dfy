/** Approval transitions between finance companies: merged per pair, then summed per first company. */
module Transitions {
  import opened Text
  import opened Finite

  datatype Row = Row(fin1: string, fin2: string, total: int, approved: int, rejected: int)

  /** The three counters a row carries. */
  datatype Counter = Total | Approved | Rejected

  function Value(r: Row, c: Counter): int {
    match c
    case Total => r.total
    case Approved => r.approved
    case Rejected => r.rejected
  }

  predicate Usable(r: Row) {
    !Blank(r.fin1) && !Blank(r.fin2)
  }

  type Choice = (string, string) -> bool

  /** The sum of a counter over the usable rows whose company pair is chosen. */
  ghost function SumWhere(rows: seq<Row>, choice: Choice, c: Counter): int {
    if rows == [] then 0
    else
      var r := rows[|rows| - 1];
      SumWhere(rows[..|rows| - 1], choice, c)
      + if Usable(r) && choice(Trim(r.fin1), Trim(r.fin2)) then Value(r, c) else 0
  }

  ghost function FirstIs(company: string): Choice {
    (a: string, b: string) => a == company
  }

  lemma ConcatLast<T>(a: seq<T>, b: seq<T>)
    requires b != []
    ensures (a + b)[..|a + b| - 1] == a + b[..|b| - 1] && (a + b)[|a + b| - 1] == b[|b| - 1]
  {
  }

  lemma {:induction false} SumWhereConcat(a: seq<Row>, b: seq<Row>, choice: Choice, c: Counter)
    ensures SumWhere(a + b, choice, c) == SumWhere(a, choice, c) + SumWhere(b, choice, c)
  {
    if b == [] {
      assert a + b == a;
    } else {
      SumWhereConcat(a, b[..|b| - 1], choice, c);
      ConcatLast(a, b);
    }
  }

  lemma SumWhereNext(rows: seq<Row>, i: nat, choice: Choice, c: Counter)
    requires i < |rows|
    ensures SumWhere(rows[..i + 1], choice, c) == SumWhere(rows[..i], choice, c) + SumWhere([rows[i]], choice, c)
  {
    SumWhereConcat(rows[..i], [rows[i]], choice, c);
    assert rows[..i + 1] == rows[..i] + [rows[i]];
  }

  /** A row counts for the companies it names, and only if it names both. */
  lemma RowCounts(r: Row, choice: Choice, c: Counter)
    ensures SumWhere([r], choice, c) == if Trim(r.fin1) != "" && Trim(r.fin2) != "" && choice(Trim(r.fin1), Trim(r.fin2)) then Value(r, c) else 0
  {
    assert [r][..0] == [];
  }

  // ---------------------------------------------------------------- the merge by pair

  function Key(fin1: string, fin2: string): string {
    fin1 + "::" + fin2
  }

  /** Company identifiers are UUIDs, so they hold no colon and a key names one pair only. */
  predicate Plain(s: string) {
    ':' !in s
  }

  lemma KeyInjective(a: string, b: string, c: string, d: string)
    requires Plain(a) && Plain(c) && Key(a, b) == Key(c, d)
    ensures a == c && b == d
  {
    var k := Key(a, b);
    assert k[|a|] == ':' && k[|c|] == ':';
    assert forall i | 0 <= i < |a| :: k[i] == a[i];
    assert forall i | 0 <= i < |c| :: k[i] == c[i];
    assert |a| == |c|;
    assert a == k[..|a|] && c == k[..|c|];
    assert b == k[|a| + 2..] && d == k[|c| + 2..];
  }

  ghost function Weight(m: map<string, Row>, choice: Choice, c: Counter): string -> int {
    k => if k in m && choice(m[k].fin1, m[k].fin2) then Value(m[k], c) else 0
  }

  ghost function MapSum(m: map<string, Row>, choice: Choice, c: Counter): int {
    Sum(m.Keys, Weight(m, choice, c))
  }

  /** Replacing one entry changes the sum by the difference of that entry. */
  lemma MapSumWrite(m: map<string, Row>, k: string, r: Row, choice: Choice, c: Counter)
    ensures MapSum(m[k := r], choice, c)
         == MapSum(m, choice, c) - Weight(m, choice, c)(k) + if choice(r.fin1, r.fin2) then Value(r, c) else 0
  {
    var m' := m[k := r];
    SumTake(m'.Keys, Weight(m', choice, c), k);
    SumSame(m.Keys - {k}, Weight(m, choice, c), Weight(m', choice, c));
    assert m'.Keys - {k} == m.Keys - {k};
    if k in m {
      SumTake(m.Keys, Weight(m, choice, c), k);
    } else {
      assert m.Keys - {k} == m.Keys;
    }
  }

  predicate Merged(m: map<string, Row>) {
    forall k | k in m :: k == Key(m[k].fin1, m[k].fin2) && Plain(m[k].fin1) && Usable(m[k])
                         && Trim(m[k].fin1) == m[k].fin1 && Trim(m[k].fin2) == m[k].fin2
  }

  function Plus(a: Row, b: Row): Row {
    a.(total := a.total + b.total, approved := a.approved + b.approved, rejected := a.rejected + b.rejected)
  }

  /** Adding a row to the entry of its pair adds it to every sum over chosen pairs. */
  lemma AddedToPair(m: map<string, Row>, row: Row, existing: Row, choice: Choice, c: Counter)
    requires Merged(m) && Plain(Trim(row.fin1)) && Usable(row)
    requires var key := Key(Trim(row.fin1), Trim(row.fin2));
             existing == if key in m then m[key] else Row(Trim(row.fin1), Trim(row.fin2), 0, 0, 0)
    ensures existing.fin1 == Trim(row.fin1) && existing.fin2 == Trim(row.fin2)
    ensures MapSum(m[Key(Trim(row.fin1), Trim(row.fin2)) := Plus(existing, row)], choice, c)
         == MapSum(m, choice, c) + SumWhere([row], choice, c)
  {
    var key := Key(Trim(row.fin1), Trim(row.fin2));
    if key in m { KeyInjective(m[key].fin1, m[key].fin2, Trim(row.fin1), Trim(row.fin2)); }
    assert [row][..0] == [];
    MapSumWrite(m, key, Plus(existing, row), choice, c);
  }

  lemma MergedWith(m: map<string, Row>, fin1: string, fin2: string, r: Row)
    requires Merged(m) && Plain(fin1) && r.fin1 == fin1 && r.fin2 == fin2 && fin1 != "" && fin2 != ""
    requires Trim(fin1) == fin1 && Trim(fin2) == fin2
    ensures Merged(m[Key(fin1, fin2) := r])
  {
  }

  method AddTransition(m: map<string, Row>, row: Row) returns (m': map<string, Row>)
    requires Merged(m) && Plain(Trim(row.fin1))
    ensures Merged(m')
    ensures forall choice: Choice, c :: MapSum(m', choice, c) == MapSum(m, choice, c) + SumWhere([row], choice, c)
  {
    var fin1, fin2 := Trim(row.fin1), Trim(row.fin2);
    if fin1 == "" || fin2 == "" {
      assert [row][..0] == [];
      return m;
    }
    var key := Key(fin1, fin2);
    var existing := if key in m then m[key] else Row(fin1, fin2, 0, 0, 0);
    forall choice: Choice, c ensures MapSum(m[key := Plus(existing, row)], choice, c) == MapSum(m, choice, c) + SumWhere([row], choice, c) {
      AddedToPair(m, row, existing, choice, c);
    }
    AddedToPair(m, row, existing, FirstIs(fin1), Total);
    TrimIdempotent(row.fin1);
    TrimIdempotent(row.fin2);
    MergedWith(m, fin1, fin2, Plus(existing, row));
    m' := m[key := Plus(existing, row)];
  }

  /** Merges both queries into one row per pair, in any order; every chosen sum is unchanged. */
  method MergeByPair(raw: seq<Row>, fallback: seq<Row>) returns (rows: seq<Row>)
    requires forall r | r in raw + fallback :: Plain(Trim(r.fin1))
    ensures forall choice: Choice, c :: SumWhere(rows, choice, c) == SumWhere(raw + fallback, choice, c)
    ensures forall r | r in rows :: Usable(r) && r.fin1 == Trim(r.fin1) != "" && r.fin2 == Trim(r.fin2) != ""
    ensures PairsDiffer(rows)
  {
    var m: map<string, Row> := map[];
    var all := raw + fallback;
    var i := 0;
    while i < |all|
      invariant i <= |all| && Merged(m)
      invariant forall choice: Choice, c :: MapSum(m, choice, c) == SumWhere(all[..i], choice, c)
    {
      assert all[i] in all;
      var before := m;
      m := AddTransition(m, all[i]);
      forall choice: Choice, c ensures MapSum(m, choice, c) == SumWhere(all[..i + 1], choice, c) {
        assert MapSum(before, choice, c) == SumWhere(all[..i], choice, c);
        SumWhereNext(all, i, choice, c);
      }
      i := i + 1;
    }
    assert all[..i] == all;
    rows := ListRows(m);
  }

  ghost predicate PairsDiffer(rows: seq<Row>) {
    forall i, j | 0 <= i < j < |rows| :: (rows[i].fin1, rows[i].fin2) != (rows[j].fin1, rows[j].fin2)
  }

  /** Rows of the map that are no longer to be listed. */
  ghost predicate TakenFrom(rows: seq<Row>, m: map<string, Row>, left: set<string>) {
    forall r | r in rows :: Key(r.fin1, r.fin2) in m && Key(r.fin1, r.fin2) !in left && m[Key(r.fin1, r.fin2)] == r
  }

  ghost predicate Balanced(rows: seq<Row>, m: map<string, Row>, left: set<string>) {
    forall choice: Choice, c :: SumWhere(rows, choice, c) + Sum(left, Weight(m, choice, c)) == MapSum(m, choice, c)
  }

  lemma ListMore(rows: seq<Row>, m: map<string, Row>, left: set<string>, k: string)
    requires Merged(m) && left <= m.Keys && k in left
    requires TakenFrom(rows, m, left) && PairsDiffer(rows) && Balanced(rows, m, left)
    ensures TakenFrom(rows + [m[k]], m, left - {k}) && PairsDiffer(rows + [m[k]])
  {
    forall i | 0 <= i < |rows| ensures (rows[i].fin1, rows[i].fin2) != (m[k].fin1, m[k].fin2) { assert rows[i] in rows; }
  }

  lemma BalanceMore(rows: seq<Row>, m: map<string, Row>, left: set<string>, k: string)
    requires Merged(m) && left <= m.Keys && k in left && Balanced(rows, m, left)
    ensures Balanced(rows + [m[k]], m, left - {k})
  {
    forall choice: Choice, c
      ensures SumWhere(rows + [m[k]], choice, c) + Sum(left - {k}, Weight(m, choice, c)) == MapSum(m, choice, c)
    {
      SumTake(left, Weight(m, choice, c), k);
      assert (rows + [m[k]])[..|rows|] == rows;
    }
  }

  /** Lists the merged rows in whatever order the map yields them. */
  method ListRows(m: map<string, Row>) returns (rows: seq<Row>)
    requires Merged(m)
    ensures forall choice: Choice, c :: SumWhere(rows, choice, c) == MapSum(m, choice, c)
    ensures forall r | r in rows :: Usable(r) && Trim(r.fin1) == r.fin1 && Trim(r.fin2) == r.fin2
    ensures PairsDiffer(rows)
  {
    rows := [];
    var left := m.Keys;
    while left != {}
      invariant left <= m.Keys && TakenFrom(rows, m, left) && PairsDiffer(rows) && Balanced(rows, m, left)
      decreases left
    {
      var k :| k in left;
      ListMore(rows, m, left, k);
      BalanceMore(rows, m, left, k);
      rows := rows + [m[k]];
      left := left - {k};
    }
  }

  // ---------------------------------------------------------------- the summary per first company

  datatype Totals = Totals(total: int, approved: int, rejected: int)

  ghost function Part(t: Totals, c: Counter): int {
    match c
    case Total => t.total
    case Approved => t.approved
    case Rejected => t.rejected
  }

  ghost function PartOf(summary: map<string, Totals>, company: string, c: Counter): int {
    if company in summary then Part(summary[company], c) else 0
  }

  method AddSummary(summary: map<string, Totals>, row: Row) returns (summary': map<string, Totals>)
    requires Usable(row)
    ensures summary'.Keys == summary.Keys + {Trim(row.fin1)}
    ensures forall company, c :: PartOf(summary', company, c) == PartOf(summary, company, c) + SumWhere([row], FirstIs(company), c)
  {
    var finance1 := Trim(row.fin1);
    var s := if finance1 in summary then summary[finance1] else Totals(0, 0, 0);
    s := Totals(s.total + row.total, s.approved + row.approved, s.rejected + row.rejected);
    summary' := summary[finance1 := s];
    assert [row][..0] == [];
  }

  method SummariseByFirst(rows: seq<Row>) returns (summary: map<string, Totals>)
    requires forall r | r in rows :: Usable(r)
    ensures summary.Keys == set r | r in rows :: Trim(r.fin1)
    ensures forall company, c :: PartOf(summary, company, c) == SumWhere(rows, FirstIs(company), c)
  {
    summary := map[];
    var i := 0;
    while i < |rows|
      invariant i <= |rows|
      invariant summary.Keys == set r | r in rows[..i] :: Trim(r.fin1)
      invariant forall company, c :: PartOf(summary, company, c) == SumWhere(rows[..i], FirstIs(company), c)
    {
      assert rows[i] in rows && rows[..i + 1] == rows[..i] + [rows[i]];
      var before := summary;
      summary := AddSummary(summary, rows[i]);
      forall company, c ensures PartOf(summary, company, c) == SumWhere(rows[..i + 1], FirstIs(company), c) {
        assert PartOf(before, company, c) == SumWhere(rows[..i], FirstIs(company), c);
        SumWhereNext(rows, i, FirstIs(company), c);
      }
      i := i + 1;
    }
    assert rows[..i] == rows;
  }

  /** Merging per pair and then per first company is grouping the raw rows by first company. */
  method TransitionSummary(raw: seq<Row>, fallback: seq<Row>) returns (summary: map<string, Totals>)
    requires forall r | r in raw + fallback :: Plain(Trim(r.fin1))
    ensures forall company, c :: PartOf(summary, company, c) == SumWhere(raw + fallback, FirstIs(company), c)
  {
    var rows := MergeByPair(raw, fallback);
    summary := SummariseByFirst(rows);
  }
}
