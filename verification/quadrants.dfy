/** The quadrant summary: monthly order counts grouped by area and job, and set against the month before. */
module Quadrants {
  import opened Text
  import opened Finite
  import opened Tally

  /** An order count of one area, job and month. */
  datatype Row = Row(province: string, regency: string, jobId: string, jobName: string, year: int, month: int, total: int)

  function TrimSpacesLeft(s: string): string {
    if s != "" && s[0] == ' ' then TrimSpacesLeft(s[1..]) else s
  }

  function TrimSpacesRight(s: string): string {
    if s != "" && s[|s| - 1] == ' ' then TrimSpacesRight(s[..|s| - 1]) else s
  }

  /** SQL's TRIM takes spaces only, no other blanks. */
  function SqlTrim(s: string): string {
    TrimSpacesRight(TrimSpacesLeft(s))
  }

  /** What the query yields: trimmed names, a regency that is not empty, and a count of at least one. */
  predicate Received(r: Row) {
    SqlTrim(r.province) == r.province && SqlTrim(r.jobName) == r.jobName
    && SqlTrim(r.regency) == r.regency && r.regency != "" && r.total > 0
  }

  datatype MonthOf = MonthOf(year: int, month: int)

  function Normalize(value: string): string {
    Lower(Trim(value))
  }

  // ---------------------------------------------------------------- the reference month

  predicate Dated(r: Row) {
    r.year > 0 && 1 <= r.month <= 12
  }

  function MonthKey(year: int, month: int): int {
    year * 100 + month
  }

  /** Rows that may give the latest month: of the selected year, or of any year from year one. */
  predicate Candidate(r: Row, selectedYear: int) {
    1 <= r.month <= 12 && if selectedYear > 0 then r.year == selectedYear else r.year > 0
  }

  predicate Latest(rows: seq<Row>, selectedYear: int, m: MonthOf) {
    (exists x | x in rows :: Candidate(x, selectedYear) && m == MonthOf(x.year, x.month))
    && forall x | x in rows && Candidate(x, selectedYear) :: x.year < m.year || (x.year == m.year && x.month <= m.month)
  }

  /** A row of a dated month, and of the year selected if one is. */
  predicate MayGive(x: Row, selectedYear: int) {
    x.year > 0 && 1 <= x.month <= 12 && (selectedYear > 0 ==> x.year == selectedYear)
  }

  /** The month of such a row, and none of them is of a later one. */
  ghost predicate IsLatest(rows: seq<Row>, selectedYear: int, m: MonthOf) {
    (exists x | x in rows :: MayGive(x, selectedYear) && x.year == m.year && x.month == m.month)
    && forall x | x in rows && MayGive(x, selectedYear) :: 12 * x.year + x.month <= 12 * m.year + m.month
  }

  lemma LatestIs(rows: seq<Row>, selectedYear: int, m: MonthOf)
    requires Latest(rows, selectedYear, m)
    ensures IsLatest(rows, selectedYear, m) && 1 <= m.month <= 12
  {
    var x :| x in rows && Candidate(x, selectedYear) && m == MonthOf(x.year, x.month);
    assert MayGive(x, selectedYear);
    forall y | y in rows && MayGive(y, selectedYear) ensures 12 * y.year + y.month <= 12 * m.year + m.month {
      assert Candidate(y, selectedYear);
    }
  }

  /** The month asked for, or else the latest one among the candidates, if there is any. */
  method Reference(rows: seq<Row>, selectedYear: int, selectedMonth: int) returns (r: Option<MonthOf>)
    ensures selectedYear > 0 && 1 <= selectedMonth <= 12 ==> r == Some(MonthOf(selectedYear, selectedMonth))
    ensures !(selectedYear > 0 && 1 <= selectedMonth <= 12) ==>
              if r.None? then forall x | x in rows :: !MayGive(x, selectedYear) else IsLatest(rows, selectedYear, r.value)
    ensures r.Some? ==> 1 <= r.value.month <= 12
  {
    if selectedYear > 0 && 1 <= selectedMonth <= 12 {
      return Some(MonthOf(selectedYear, selectedMonth));
    }
    var latestKey, latest := 0, MonthOf(0, 0);
    var i := 0;
    while i < |rows|
      invariant i <= |rows|
      invariant forall j | 0 <= j < i && Candidate(rows[j], selectedYear) :: MonthKey(rows[j].year, rows[j].month) <= latestKey
      invariant latestKey != 0 ==> exists j | 0 <= j < i ::
                  Candidate(rows[j], selectedYear) && latest == MonthOf(rows[j].year, rows[j].month) && latestKey == MonthKey(latest.year, latest.month)
    {
      var x := rows[i];
      if Candidate(x, selectedYear) && MonthKey(x.year, x.month) > latestKey {
        latestKey, latest := MonthKey(x.year, x.month), MonthOf(x.year, x.month);
      }
      i := i + 1;
    }
    r := if latestKey == 0 then None else Some(latest);
    if r.Some? { LatestIs(rows, selectedYear, latest); }
  }

  function Previous(m: MonthOf): MonthOf {
    if m.month == 1 then MonthOf(m.year - 1, 12) else MonthOf(m.year, m.month - 1)
  }

  // ---------------------------------------------------------------- groups

  function JobLabel(r: Row): string {
    if Trim(r.jobName) == "" then "-" else Trim(r.jobName)
  }

  function JobToken(r: Row): string {
    var id := Trim(r.jobId);
    if id != "" then id else "__name__:" + Normalize(JobLabel(r))
  }

  function Key(r: Row): string {
    Normalize(r.province) + "|" + Normalize(r.regency) + "|" + Normalize(JobToken(r))
  }

  predicate Current(r: Row, ref: MonthOf) {
    r.year == ref.year && r.month == ref.month
  }

  /** A row counts when it is of the month or the one before. */
  predicate Counted(r: Row, ref: MonthOf) {
    Dated(r) && (Current(r, ref) || Current(r, Previous(ref)))
  }

  datatype Group = Group(province: string, regency: string, jobId: string, jobName: string, current: int, previous: int)

  /** The first counted row of a group gives it its names. */
  ghost function First(rows: seq<Row>, ref: MonthOf, k: string): Option<Row> {
    if rows == [] then None
    else
      var first, row := First(rows[..|rows| - 1], ref, k), rows[|rows| - 1];
      if first.None? && Counted(row, ref) && Key(row) == k then Some(row) else first
  }

  /** What a row adds to the current count, and to the one of the month before. */
  ghost function Now(ref: MonthOf): Row -> int {
    (r: Row) => if Dated(r) && Current(r, ref) then r.total else 0
  }

  ghost function Before(ref: MonthOf): Row -> int {
    (r: Row) => if Dated(r) && Current(r, Previous(ref)) then r.total else 0
  }

  predicate NamedAfter(g: Group, r: Row) {
    g.province == r.province && g.regency == r.regency && g.jobId == Trim(r.jobId)
    && if Blank(r.jobName) then g.jobName == "-" else g.jobName == Trim(r.jobName)
  }

  ghost predicate IsGroup(g: Group, rows: seq<Row>, ref: MonthOf, k: string) {
    First(rows, ref, k).Some? && NamedAfter(g, First(rows, ref, k).value)
    && g.current == Weigh(rows, Key, Now(ref), k) && g.previous == Weigh(rows, Key, Before(ref), k)
  }

  ghost predicate Grouped(groups: map<string, Group>, rows: seq<Row>, ref: MonthOf) {
    (forall k | k in groups :: IsGroup(groups[k], rows, ref, k)) && forall k | First(rows, ref, k).Some? :: k in groups
  }

  // ---------------------------------------------------------------- the loop

  function Widen(groups: map<string, Group>, r: Row, ref: MonthOf): map<string, Group> {
    if !Counted(r, ref) then groups
    else
      var g := if Key(r) in groups then groups[Key(r)] else Group(r.province, r.regency, Trim(r.jobId), JobLabel(r), 0, 0);
      groups[Key(r) := g.(current := g.current + if Current(r, ref) then r.total else 0,
                          previous := g.previous + if Current(r, Previous(ref)) then r.total else 0)]
  }

  lemma TokenNotBlank(r: Row)
    ensures |Key(r)| > 2
  {
    if Trim(r.jobId) != "" { TrimIdempotent(r.jobId); } else { PrefixStays("__name__:", Normalize(JobLabel(r))); }
  }

  /** Trimming keeps what starts with a letter, digit or mark from vanishing. */
  lemma PrefixStays(a: string, b: string)
    requires a != "" && !IsSpace(a[0])
    ensures Trim(a + b) != ""
  {
    TrimRightKeepsFirst(a + b);
  }

  method WidenGroup(groups: map<string, Group>, r: Row, ref: MonthOf) returns (groups': map<string, Group>)
    ensures groups' == Widen(groups, r, ref)
  {
    if r.year <= 0 || r.month <= 0 || r.month > 12 { return groups; }
    var isCurrentMonth, isPreviousMonth := Current(r, ref), Current(r, Previous(ref));
    if !isCurrentMonth && !isPreviousMonth { return groups; }
    var key := Key(r);
    TokenNotBlank(r);
    if key == "||" { return groups; }
    var item := if key in groups then groups[key] else Group(r.province, r.regency, Trim(r.jobId), JobLabel(r), 0, 0);
    if isCurrentMonth {
      item := item.(current := item.current + r.total);
    }
    if isPreviousMonth {
      item := item.(previous := item.previous + r.total);
    }
    groups' := groups[key := item];
  }

  lemma {:induction false} NoFirstNoWeight(rows: seq<Row>, ref: MonthOf, k: string)
    requires First(rows, ref, k).None?
    ensures Weigh(rows, Key, Now(ref), k) == 0 && Weigh(rows, Key, Before(ref), k) == 0
  {
    if rows != [] { NoFirstNoWeight(rows[..|rows| - 1], ref, k); }
  }

  lemma FirstAppend(rows: seq<Row>, r: Row, ref: MonthOf, k: string)
    ensures First(rows + [r], ref, k) == if First(rows, ref, k).None? && Counted(r, ref) && Key(r) == k then Some(r) else First(rows, ref, k)
  {
    assert (rows + [r])[..|rows|] == rows;
  }

  lemma GroupWidens(groups: map<string, Group>, rows: seq<Row>, r: Row, ref: MonthOf, k: string)
    requires Grouped(groups, rows, ref) && k in Widen(groups, r, ref)
    ensures IsGroup(Widen(groups, r, ref)[k], rows + [r], ref, k)
  {
    FirstAppend(rows, r, ref, k);
    WeighAppend(rows, r, Key, Now(ref), k);
    WeighAppend(rows, r, Key, Before(ref), k);
    if k !in groups { NoFirstNoWeight(rows, ref, k); }
  }

  lemma Widens(groups: map<string, Group>, rows: seq<Row>, r: Row, ref: MonthOf)
    requires Grouped(groups, rows, ref)
    ensures Grouped(Widen(groups, r, ref), rows + [r], ref)
  {
    forall k | k in Widen(groups, r, ref) ensures IsGroup(Widen(groups, r, ref)[k], rows + [r], ref, k) {
      GroupWidens(groups, rows, r, ref, k);
    }
    forall k | First(rows + [r], ref, k).Some? ensures k in Widen(groups, r, ref) { FirstAppend(rows, r, ref, k); }
  }

  method GroupRows(rows: seq<Row>, ref: MonthOf) returns (groups: map<string, Group>)
    ensures Grouped(groups, rows, ref)
  {
    groups := map[];
    var i := 0;
    assert rows[..0] == [];
    while i < |rows|
      invariant i <= |rows| && Grouped(groups, rows[..i], ref)
    {
      TakeMore(rows, i);
      Widens(groups, rows[..i], rows[i], ref);
      groups := WidenGroup(groups, rows[i], ref);
      i := i + 1;
    }
    TakeAll(rows);
  }

  // ---------------------------------------------------------------- the results and what they conserve

  /** Change in percent, nothing before counting as growth. */
  function PctChange(current: int, previous: int): real {
    if previous == 0 then if current > 0 then 100.0 else 0.0
    else (current - previous) as real / previous as real * 100.0
  }

  const CREDIT_THRESHOLD := 35.0

  /** One, growing but short of credit; two, neither; three, both; four, credit without growth. */
  function Quadrant(growth: real, capability: real): int {
    if growth >= 0.0 && capability >= CREDIT_THRESHOLD then 3
    else if growth >= 0.0 && capability < CREDIT_THRESHOLD then 1
    else if growth < 0.0 && capability >= CREDIT_THRESHOLD then 4
    else 2
  }

  /** Growth is not negative exactly when there are at least as many orders as before. */
  lemma GrowthMeansNoFewer(current: int, previous: int)
    requires current >= 0 && previous >= 0
    ensures PctChange(current, previous) >= 0.0 <==> current >= previous
  {
    if previous > 0 {
      var q := (current - previous) as real / previous as real;
      assert q * previous as real == (current - previous) as real;
      if q >= 0.0 { assert q * previous as real >= 0.0; } else { assert q * previous as real < 0.0; }
    }
  }

  /** So the quadrant says, by itself, whether orders held up and whether credit suffices. */
  lemma GrowthIs(current: int, previous: int)
    requires previous != 0
    ensures PctChange(current, previous) * previous as real == (current - previous) as real * 100.0
  {
    var q := (current - previous) as real / previous as real;
    assert q * previous as real == (current - previous) as real;
    assert q * 100.0 * previous as real == q * previous as real * 100.0;
  }

  lemma QuadrantSays(current: int, previous: int, capability: real)
    requires current >= 0 && previous >= 0
    ensures var q := Quadrant(PctChange(current, previous), capability);
            (current >= previous <==> q == 1 || q == 3) && (capability >= CREDIT_THRESHOLD <==> q == 3 || q == 4)
  {
    GrowthMeansNoFewer(current, previous);
  }

  datatype Result = Result(key: string, group: Group, growth: real, quadrant: int)

  ghost function CurrentTotal(results: seq<Result>): int {
    if results == [] then 0 else CurrentTotal(results[..|results| - 1]) + results[|results| - 1].group.current
  }

  ghost function Listed(groups: map<string, Group>): set<string> {
    set k | k in groups && !Blank(groups[k].regency)
  }

  ghost function CurrentOf(groups: map<string, Group>): string -> int {
    k => if k in groups then groups[k].current else 0
  }

  ghost function KeysOf(results: seq<Result>): set<string> {
    set r | r in results :: r.key
  }

  ghost predicate DistinctKeys(results: seq<Result>) {
    forall i, j | 0 <= i < j < |results| :: results[i].key != results[j].key
  }

  predicate Classified(r: Result, capability: string -> real) {
    r.growth == PctChange(r.group.current, r.group.previous) && r.quadrant == Quadrant(r.growth, capability(r.key))
  }

  /** Every result is one of these groups, classified. */
  ghost predicate FromGroups(results: seq<Result>, groups: map<string, Group>, capability: string -> real) {
    forall r | r in results :: r.key in groups && r.group == groups[r.key] && Classified(r, capability)
  }

  lemma ResultAppend(results: seq<Result>, r: Result)
    requires DistinctKeys(results) && r.key !in KeysOf(results)
    ensures DistinctKeys(results + [r]) && KeysOf(results + [r]) == KeysOf(results) + {r.key}
    ensures CurrentTotal(results + [r]) == CurrentTotal(results) + r.group.current
  {
    assert (results + [r])[..|results|] == results;
    assert forall x | x in results + [r] :: x in results || x == r;
    assert r in results + [r] && forall x | x in results :: x in results + [r];
    forall i | 0 <= i < |results| ensures results[i].key != r.key { assert results[i] in results; }
  }

  lemma TakeOne(left: set<string>, listed: set<string>, f: string -> int, k: string)
    requires k in left
    ensures Sum(left * listed, f) == Sum((left - {k}) * listed, f) + if k in listed then f(k) else 0
    ensures listed - (left - {k}) == listed - left + if k in listed then {k} else {}
  {
    if k in listed {
      SumTake(left * listed, f, k);
      assert left * listed - {k} == (left - {k}) * listed;
    } else {
      assert left * listed == (left - {k}) * listed;
    }
  }

  /** The groups with a regency, in any order; the capability of each comes from the worksheet. */
  method ListGroups(groups: map<string, Group>, capability: string -> real) returns (results: seq<Result>)
    ensures CurrentTotal(results) == Sum(Listed(groups), CurrentOf(groups))
    ensures FromGroups(results, groups, capability) && DistinctKeys(results) && KeysOf(results) == Listed(groups)
  {
    results := [];
    var left := groups.Keys;
    ghost var listed := Listed(groups);
    assert left * listed == listed && listed - left == {};
    while left != {}
      invariant left <= groups.Keys && CurrentTotal(results) + Sum(left * listed, CurrentOf(groups)) == Sum(listed, CurrentOf(groups))
      invariant FromGroups(results, groups, capability) && DistinctKeys(results) && KeysOf(results) == listed - left
      decreases left
    {
      var k :| k in left;
      TakeOne(left, listed, CurrentOf(groups), k);
      if Trim(groups[k].regency) != "" {
        var growth := PctChange(groups[k].current, groups[k].previous);
        var r := Result(k, groups[k], growth, Quadrant(growth, capability(k)));
        ResultAppend(results, r);
        results := results + [r];
      }
      left := left - {k};
    }
    assert left * listed == {};
  }

  /** A counted row is listed when the row that names its group has a regency. */
  ghost predicate Shown(r: Row, rows: seq<Row>, ref: MonthOf) {
    Counted(r, ref) && First(rows, ref, Key(r)).Some? && !Blank(First(rows, ref, Key(r)).value.regency)
  }

  ghost function ShownNow(rows: seq<Row>, ref: MonthOf): Row -> int {
    (r: Row) => if Shown(r, rows, ref) then Now(ref)(r) else 0
  }

  ghost function WithRegency(ref: MonthOf): Row -> int {
    (r: Row) => if Blank(r.regency) then 0 else Now(ref)(r)
  }

  lemma {:induction false} FirstIsCounted(rows: seq<Row>, ref: MonthOf, k: string)
    requires First(rows, ref, k).Some?
    ensures var first := First(rows, ref, k).value; first in rows && Counted(first, ref) && Key(first) == k
  {
    var rest, row := rows[..|rows| - 1], rows[|rows| - 1];
    if First(rest, ref, k).Some? { FirstIsCounted(rest, ref, k); }
    assert rows == rest + [row];
  }

  lemma {:induction false} CountedHasFirst(rows: seq<Row>, ref: MonthOf, i: nat)
    requires i < |rows| && Counted(rows[i], ref)
    ensures First(rows, ref, Key(rows[i])).Some?
  {
    if i < |rows| - 1 { CountedHasFirst(rows[..|rows| - 1], ref, i); }
  }

  /** What is known of the row that names the group of a counted row. */
  lemma Leader(rows: seq<Row>, ref: MonthOf, r: Row) returns (first: Row)
    requires r in rows && Counted(r, ref)
    ensures First(rows, ref, Key(r)) == Some(first) && first in rows && Counted(first, ref) && Key(first) == Key(r)
  {
    var i :| 0 <= i < |rows| && rows[i] == r;
    CountedHasFirst(rows, ref, i);
    FirstIsCounted(rows, ref, Key(r));
    first := First(rows, ref, Key(r)).value;
  }

  lemma {:induction false} ShownInListed(part: seq<Row>, rows: seq<Row>, ref: MonthOf, groups: map<string, Group>)
    requires Grouped(groups, rows, ref)
    ensures WeighIn(part, Key, Now(ref), Listed(groups)) == WeighAll(part, ShownNow(rows, ref))
  {
    if part != [] { ShownInListed(part[..|part| - 1], rows, ref, groups); }
  }

  lemma ListedSum(groups: map<string, Group>, rows: seq<Row>, ref: MonthOf)
    requires Grouped(groups, rows, ref)
    ensures Sum(Listed(groups), CurrentOf(groups)) == WeighAll(rows, ShownNow(rows, ref))
  {
    SumSame(Listed(groups), CurrentOf(groups), Weights(rows, Key, Now(ref)));
    SumOfWeights(rows, Key, Now(ref), Listed(groups));
    ShownInListed(rows, rows, ref, groups);
  }

  /** Rows of one group agree on whether they have a regency. */
  ghost predicate RegenciesAgree(rows: seq<Row>, ref: MonthOf) {
    forall a, b | a in rows && b in rows && Counted(a, ref) && Counted(b, ref) && Key(a) == Key(b) :: Blank(a.regency) == Blank(b.regency)
  }

  lemma {:induction false} WeighAllSame(rows: seq<Row>, f: Row -> int, g: Row -> int)
    requires forall i | 0 <= i < |rows| :: f(rows[i]) == g(rows[i])
    ensures WeighAll(rows, f) == WeighAll(rows, g)
  {
    if rows != [] { WeighAllSame(rows[..|rows| - 1], f, g); }
  }

  lemma ShownIffRegency(rows: seq<Row>, ref: MonthOf, r: Row)
    requires RegenciesAgree(rows, ref) && r in rows && Counted(r, ref)
    ensures Shown(r, rows, ref) <==> !Blank(r.regency)
  {
    var first := Leader(rows, ref, r);
    assert Blank(first.regency) == Blank(r.regency);
  }

  lemma ShownHaveRegency(rows: seq<Row>, ref: MonthOf, r: Row)
    requires Counted(r, ref) ==> (Shown(r, rows, ref) <==> !Blank(r.regency))
    ensures ShownNow(rows, ref)(r) == WithRegency(ref)(r)
  {
    assert ShownNow(rows, ref)(r) == if Shown(r, rows, ref) then Now(ref)(r) else 0;
    assert WithRegency(ref)(r) == if Blank(r.regency) then 0 else Now(ref)(r);
    assert Now(ref)(r) == if Dated(r) && Current(r, ref) then r.total else 0;
  }

  ghost predicate ListedAsMeant(rows: seq<Row>, ref: MonthOf) {
    forall r | r in rows && Counted(r, ref) :: Shown(r, rows, ref) <==> !Blank(r.regency)
  }

  /** The results list exactly the counted rows with a regency just when rows of one group agree on having one. */
  lemma ListedIffAgree(rows: seq<Row>, ref: MonthOf)
    ensures ListedAsMeant(rows, ref) <==> RegenciesAgree(rows, ref)
  {
    if RegenciesAgree(rows, ref) {
      forall r | r in rows && Counted(r, ref) ensures Shown(r, rows, ref) <==> !Blank(r.regency) { ShownIffRegency(rows, ref, r); }
    }
    if ListedAsMeant(rows, ref) {
      forall a, b | a in rows && b in rows && Counted(a, ref) && Counted(b, ref) && Key(a) == Key(b) ensures Blank(a.regency) == Blank(b.regency) {
        assert Shown(a, rows, ref) == Shown(b, rows, ref);
      }
    }
  }

  /**
   They need not agree: the query lets a regency pass that is a tab, and with a bar in its province that
   row's key can be the key of an area with a regency, which is then lost from the results.
   */
  lemma RegencyLost(ref: MonthOf, a: Row, b: Row)
    requires ref.year > 0 && 1 <= ref.month <= 12
    requires a == Row("x|y", "\t", "j", "", ref.year, ref.month, 1) && b == Row("x", "y|", "j", "", ref.year, ref.month, 1)
    ensures Received(a) && Received(b) && Counted(a, ref) && Counted(b, ref) && !ListedAsMeant([a, b], ref)
    ensures WeighAll([a, b], ShownNow([a, b], ref)) == 0 && WeighAll([a, b], WithRegency(ref)) == 1
  {
    KeysMeet(a, b);
    LostTotals([a, b], a, b, ref);
  }

  lemma KeysMeet(a: Row, b: Row)
    requires a.province == "x|y" && a.regency == "\t" && b.province == "x" && b.regency == "y|" && a.jobId == b.jobId && a.jobName == b.jobName
    ensures Key(a) == Key(b) && Blank(a.regency) && !Blank(b.regency)
  {
    TrimOfClean("x|y");
    TrimOfClean("y|");
    TrimOfClean("x");
    assert TrimLeft("\t") == "";
    assert Lower("x|y") == "x|y" && Lower("y|") == "y|" && Lower("x") == "x" && Lower("") == "";
    assert "x|y" + "|" + "" + "|" == "x" + "|" + "y|" + "|";
  }

  /** A row that is met after one without a regency under its key is not listed. */
  lemma LostTotals(rows: seq<Row>, a: Row, b: Row, ref: MonthOf)
    requires rows == [a, b] && Counted(a, ref) && Counted(b, ref) && Current(a, ref) && Current(b, ref)
    requires Key(a) == Key(b) && Blank(a.regency) && !Blank(b.regency)
    ensures !ListedAsMeant(rows, ref)
    ensures WeighAll(rows, ShownNow(rows, ref)) == 0 && WeighAll(rows, WithRegency(ref)) == b.total
  {
    assert rows[..1] == [a] && [a][..0] == [];
    assert First(rows[..1], ref, Key(a)) == Some(a);
    assert First(rows, ref, Key(b)) == Some(a);
    assert b in rows && !Shown(b, rows, ref) && !Shown(a, rows, ref);
    assert ShownNow(rows, ref)(a) == 0 && ShownNow(rows, ref)(b) == 0;
    assert WithRegency(ref)(a) == 0 && WithRegency(ref)(b) == Now(ref)(b) == b.total;
    assert WeighAll([a], ShownNow(rows, ref)) == 0 && WeighAll([a], WithRegency(ref)) == 0;
  }

  /** Each result is the group of its key over all rows, under a name that has a regency, and every such group is there once. */
  ghost predicate Reports(results: seq<Result>, rows: seq<Row>, ref: MonthOf, capability: string -> real) {
    DistinctKeys(results)
    && (forall r | r in results :: IsGroup(r.group, rows, ref, r.key) && !Blank(r.group.regency) && Classified(r, capability))
    && (forall k | First(rows, ref, k).Some? && !Blank(First(rows, ref, k).value.regency) :: k in KeysOf(results))
  }

  lemma ListedReports(results: seq<Result>, groups: map<string, Group>, rows: seq<Row>, ref: MonthOf, capability: string -> real)
    requires Grouped(groups, rows, ref) && FromGroups(results, groups, capability) && DistinctKeys(results) && KeysOf(results) == Listed(groups)
    ensures Reports(results, rows, ref, capability)
  {
    forall r | r in results ensures !Blank(r.group.regency) { assert r.key in Listed(groups); }
  }

  lemma {:induction false} WeighNotNegative(rows: seq<Row>, weight: Row -> int, k: string)
    requires forall i | 0 <= i < |rows| :: weight(rows[i]) >= 0
    ensures Weigh(rows, Key, weight, k) >= 0
  {
    if rows != [] { WeighNotNegative(rows[..|rows| - 1], weight, k); }
  }

  // ---------------------------------------------------------------- what is counted, told by the calendar

  /** Months are numbered through; the one before January is December of the year before. */
  function MonthNumber(year: int, month: int): int {
    12 * year + month - 1
  }

  /** The orders of a row of a dated month that lies so many months back from the reference. */
  ghost function MonthsBack(ref: MonthOf, back: int): Row -> int {
    (r: Row) => if r.year > 0 && 1 <= r.month <= 12 && MonthNumber(r.year, r.month) == MonthNumber(ref.year, ref.month) - back then r.total else 0
  }

  lemma PreviousIsBefore(ref: MonthOf)
    requires 1 <= ref.month <= 12
    ensures 1 <= Previous(ref).month <= 12
    ensures MonthNumber(Previous(ref).year, Previous(ref).month) == MonthNumber(ref.year, ref.month) - 1
  {
  }

  lemma {:induction false} WeighSame(rows: seq<Row>, f: Row -> int, g: Row -> int, k: string)
    requires forall r :: f(r) == g(r)
    ensures Weigh(rows, Key, f, k) == Weigh(rows, Key, g, k)
  {
    if rows != [] { WeighSame(rows[..|rows| - 1], f, g, k); }
  }

  lemma MonthsAgree(ref: MonthOf)
    requires 1 <= ref.month <= 12
    ensures forall r :: Now(ref)(r) == MonthsBack(ref, 0)(r) && Before(ref)(r) == MonthsBack(ref, 1)(r)
  {
    PreviousIsBefore(ref);
  }

  /** The row that names a group stands first among those of its key that are of the month or of the one before. */
  lemma {:induction false} FirstStands(rows: seq<Row>, ref: MonthOf, k: string) returns (i: nat)
    requires 1 <= ref.month <= 12 && First(rows, ref, k).Some?
    ensures i < |rows| && First(rows, ref, k) == Some(rows[i]) && OfTwoMonths(rows[i], ref) && Key(rows[i]) == k
    ensures forall j | 0 <= j < i :: Key(rows[j]) != k || !OfTwoMonths(rows[j], ref)
  {
    PreviousIsBefore(ref);
    var n := |rows| - 1;
    if First(rows[..n], ref, k).Some? {
      i := FirstStands(rows[..n], ref, k);
      forall j | 0 <= j < i ensures Key(rows[j]) != k || !OfTwoMonths(rows[j], ref) { assert rows[..n][j] == rows[j]; }
    } else {
      i := n;
      forall j | 0 <= j < n ensures Key(rows[j]) != k || !OfTwoMonths(rows[j], ref) {
        if OfTwoMonths(rows[j], ref) { CountedHasFirst(rows[..n], ref, j); }
      }
    }
  }

  predicate OfTwoMonths(r: Row, ref: MonthOf) {
    r.year > 0 && 1 <= r.month <= 12 && 0 <= MonthNumber(ref.year, ref.month) - MonthNumber(r.year, r.month) <= 1
  }

  /** Both totals of a reported area are sums over the rows of its key: of the month, and of the month before it. */
  ghost predicate TotalsOfMonths(results: seq<Result>, rows: seq<Row>, ref: MonthOf) {
    forall r | r in results :: r.group.current == Weigh(rows, Key, MonthsBack(ref, 0), r.key)
                               && r.group.previous == Weigh(rows, Key, MonthsBack(ref, 1), r.key)
  }

  lemma TotalsAreOfMonths(results: seq<Result>, rows: seq<Row>, ref: MonthOf, capability: string -> real)
    requires 1 <= ref.month <= 12 && Reports(results, rows, ref, capability)
    ensures TotalsOfMonths(results, rows, ref)
  {
    MonthsAgree(ref);
    forall r | r in results
      ensures r.group.current == Weigh(rows, Key, MonthsBack(ref, 0), r.key) && r.group.previous == Weigh(rows, Key, MonthsBack(ref, 1), r.key)
    {
      WeighSame(rows, Now(ref), MonthsBack(ref, 0), r.key);
      WeighSame(rows, Before(ref), MonthsBack(ref, 1), r.key);
    }
  }

  /** The rows of an area and job have one key, blanks at the ends and case aside; without bars, no others have it. */
  lemma KeyMeans(a: Row, b: Row)
    requires '|' !in a.province && '|' !in b.province && '|' !in a.regency && '|' !in b.regency
    ensures Key(a) == Key(b)
       <==> Normalize(a.province) == Normalize(b.province) && Normalize(a.regency) == Normalize(b.regency)
            && Normalize(JobToken(a)) == Normalize(JobToken(b))
  {
    NormalizedHasNoBar(a.province);
    NormalizedHasNoBar(b.province);
    NormalizedHasNoBar(a.regency);
    NormalizedHasNoBar(b.regency);
    if Key(a) == Key(b) {
      KeysSplit(Normalize(a.province), Normalize(a.regency), Normalize(JobToken(a)), Normalize(b.province), Normalize(b.regency), Normalize(JobToken(b)));
    }
  }

  lemma KeysSplit(p: string, r: string, j: string, p': string, r': string, j': string)
    requires '|' !in p && '|' !in p' && '|' !in r && '|' !in r' && p + "|" + r + "|" + j == p' + "|" + r' + "|" + j'
    ensures p == p' && r == r' && j == j'
  {
    assert p + "|" + r + "|" + j == p + ['|'] + (r + "|" + j) && p' + "|" + r' + "|" + j' == p' + ['|'] + (r' + "|" + j');
    SplitAtFirst(p, r + "|" + j, p', r' + "|" + j', '|');
    SplitAtFirst(r, j, r', j', '|');
  }

  lemma NormalizedHasNoBar(s: string)
    requires '|' !in s
    ensures '|' !in Normalize(s)
  {
    TrimIsPart(s);
    var t := Trim(s);
    forall i | 0 <= i < |t| ensures Lower(t)[i] != '|' { assert t[i] in s; }
  }

  /** A job is known by its identifier, and only without one by its name. */
  lemma JobTokenMeans(r: Row)
    ensures if Blank(r.jobId) then JobToken(r) == "__name__:" + (if Blank(r.jobName) then "-" else Lower(Trim(r.jobName)))
            else JobToken(r) == Trim(r.jobId)
  {
    TrimIdempotent(r.jobName);
    TrimOfClean("-");
    assert Lower("-") == "-";
  }

  /** The growth is the change in percent of the month before; what comes from nothing grows by a hundred. */
  lemma GrowthSays(r: Result, capability: string -> real)
    requires Classified(r, capability)
    ensures r.group.previous != 0 ==> r.growth * r.group.previous as real == (r.group.current - r.group.previous) as real * 100.0
    ensures r.group.previous == 0 ==> r.growth == if r.group.current > 0 then 100.0 else 0.0
  {
    if r.group.previous != 0 { GrowthIs(r.group.current, r.group.previous); }
  }

  /** Of rows as received, each quadrant tells whether the area's orders held up and whether its credit suffices. */
  lemma ResultSays(r: Result, rows: seq<Row>, ref: MonthOf, capability: string -> real)
    requires IsGroup(r.group, rows, ref, r.key) && Classified(r, capability) && forall x | x in rows :: Received(x)
    ensures 1 <= r.quadrant <= 4
    ensures r.group.current >= r.group.previous <==> r.quadrant == 1 || r.quadrant == 3
    ensures capability(r.key) >= 35.0 <==> r.quadrant == 3 || r.quadrant == 4
  {
    forall i | 0 <= i < |rows| ensures Now(ref)(rows[i]) >= 0 && Before(ref)(rows[i]) >= 0 { assert rows[i] in rows; }
    WeighNotNegative(rows, Now(ref), r.key);
    WeighNotNegative(rows, Before(ref), r.key);
    QuadrantSays(r.group.current, r.group.previous, capability(r.key));
  }

  lemma AgreeingTotals(rows: seq<Row>, ref: MonthOf)
    requires RegenciesAgree(rows, ref)
    ensures WeighAll(rows, ShownNow(rows, ref)) == WeighAll(rows, WithRegency(ref))
  {
    forall i | 0 <= i < |rows| ensures ShownNow(rows, ref)(rows[i]) == WithRegency(ref)(rows[i]) {
      if Counted(rows[i], ref) { ShownIffRegency(rows, ref, rows[i]); }
      ShownHaveRegency(rows, ref, rows[i]);
    }
    WeighAllSame(rows, ShownNow(rows, ref), WithRegency(ref));
  }

  /** When every row has a regency, blanks aside, none is lost, whatever their keys. */
  lemma AllHaveRegency(rows: seq<Row>, ref: MonthOf)
    requires forall r | r in rows :: !Blank(r.regency)
    ensures WeighAll(rows, ShownNow(rows, ref)) == WeighAll(rows, Now(ref))
  {
    AgreeingTotals(rows, ref);
    forall i | 0 <= i < |rows| ensures WithRegency(ref)(rows[i]) == Now(ref)(rows[i]) { assert rows[i] in rows; }
    WeighAllSame(rows, WithRegency(ref), Now(ref));
  }

  /**
   The summary reports each group with a regency once, with both months' totals and its quadrant. Its
   current totals add up to the listed rows of the month: to all rows of the month if every row has a
   regency, and to those that have one if rows of one group agree on having one.
   */
  method Summary(rows: seq<Row>, ref: MonthOf, capability: string -> real) returns (results: seq<Result>)
    ensures Reports(results, rows, ref, capability)
    ensures 1 <= ref.month <= 12 ==> TotalsOfMonths(results, rows, ref)
    ensures CurrentTotal(results) == WeighAll(rows, ShownNow(rows, ref))
    ensures (forall r | r in rows :: !Blank(r.regency)) ==> CurrentTotal(results) == WeighAll(rows, Now(ref))
    ensures RegenciesAgree(rows, ref) ==> CurrentTotal(results) == WeighAll(rows, WithRegency(ref))
  {
    var groups := GroupRows(rows, ref);
    results := ListGroups(groups, capability);
    ListedSum(groups, rows, ref);
    ListedReports(results, groups, rows, ref, capability);
    if 1 <= ref.month <= 12 { TotalsAreOfMonths(results, rows, ref, capability); }
    if RegenciesAgree(rows, ref) { AgreeingTotals(rows, ref); }
    if forall r | r in rows :: !Blank(r.regency) { AllHaveRegency(rows, ref); }
  }
}
