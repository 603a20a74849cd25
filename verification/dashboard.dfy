/** The counters behind the dashboard: one pass over the rows fills them all. */
module Dashboard {
  import opened Text
  import opened Finite
  import opened Tally

  /** Months are only compared, by their text of year and month. */
  type Month = nat

  datatype Row = Row(month: Month, jobName: string, motorTypeName: string, financeCompanyName: string, resultStatus: string, dpPct: real)

  function Labelled(name: string): string {
    if Trim(name) == "" then "-" else Trim(name)
  }

  function MonthOf(r: Row): Month { r.month }
  function JobOf(r: Row): string { Labelled(r.jobName) }
  function ProductOf(r: Row): string { Labelled(r.motorTypeName) }
  function FinanceOf(r: Row): string { Labelled(r.financeCompanyName) }
  function DpOf(r: Row): int { DpRange(r.dpPct) }

  // ---------------------------------------------------------------- down-payment ranges

  const DP_BOUNDS: seq<real> := [10.0, 12.5, 15.0, 20.0, 25.0, 30.0, 40.0]
  const DP_RANGES: set<int> := {0, 1, 2, 3, 4, 5, 6, 7}

  /** Which of the eight ranges a percentage falls into, counted from below. */
  function DpRange(dp: real): int {
    if dp < 10.0 then 0
    else if dp < 12.5 then 1
    else if dp < 15.0 then 2
    else if dp < 20.0 then 3
    else if dp < 25.0 then 4
    else if dp < 30.0 then 5
    else if dp < 40.0 then 6
    else 7
  }

  /** The ranges split the line at the bounds: each percentage is in the one range whose bounds enclose it. */
  lemma DpRangeEncloses(dp: real, i: nat)
    requires i <= |DP_BOUNDS|
    ensures DpRange(dp) == i <==> (i == 0 || DP_BOUNDS[i - 1] <= dp) && (i == |DP_BOUNDS| || dp < DP_BOUNDS[i])
  {
  }

  // ---------------------------------------------------------------- the counters

  datatype Counters = Counters(
    monthly: map<Month, int>, job: map<string, int>, product: map<string, int>, finance: map<string, int>,
    monthlyMotor: map<Month, map<string, int>>, dp: map<int, int>, approved: int)

  function OfMonth(rows: seq<Row>, m: Month): seq<Row> {
    if rows == [] then []
    else OfMonth(rows[..|rows| - 1], m) + if rows[|rows| - 1].month == m then [rows[|rows| - 1]] else []
  }

  lemma {:induction false} OfMonthSize(rows: seq<Row>, m: Month)
    ensures |OfMonth(rows, m)| == Weigh(rows, MonthOf, Each<Row>(), m)
    ensures m in Labels(rows, MonthOf) <==> OfMonth(rows, m) != []
  {
    if rows != [] {
      OfMonthSize(rows[..|rows| - 1], m);
      LabelsAppend(rows[..|rows| - 1], rows[|rows| - 1], MonthOf);
      assert rows == rows[..|rows| - 1] + [rows[|rows| - 1]];
    }
  }

  ghost predicate CountsPerMonth(motors: map<Month, map<string, int>>, rows: seq<Row>) {
    motors.Keys == Labels(rows, MonthOf) && forall m | m in motors :: Counts(motors[m], OfMonth(rows, m), ProductOf)
  }

  ghost predicate CountsRanges(dp: map<int, int>, rows: seq<Row>) {
    dp.Keys == DP_RANGES && forall i | i in dp :: dp[i] == Weigh(rows, DpOf, Each<Row>(), i)
  }

  ghost function Approved(): Row -> int {
    (r: Row) => if r.resultStatus == "approve" then 1 else 0
  }

  ghost predicate CountsNames(c: Counters, rows: seq<Row>) {
    Counts(c.job, rows, JobOf) && Counts(c.product, rows, ProductOf) && Counts(c.finance, rows, FinanceOf)
  }

  ghost predicate CountRows(c: Counters, rows: seq<Row>) {
    CountsNames(c, rows) && Counts(c.monthly, rows, MonthOf) && CountsPerMonth(c.monthlyMotor, rows)
    && CountsRanges(c.dp, rows) && c.approved == WeighAll(rows, Approved())
  }

  // What one row adds to each counter.

  function BumpMotors(motors: map<Month, map<string, int>>, m: Month, product: string): map<Month, map<string, int>> {
    motors[m := Bump(MotorsOf(motors, m), product)]
  }

  function AddRow(c: Counters, row: Row): Counters {
    Counters(
      Bump(c.monthly, MonthOf(row)), Bump(c.job, JobOf(row)), Bump(c.product, ProductOf(row)), Bump(c.finance, FinanceOf(row)),
      BumpMotors(c.monthlyMotor, row.month, ProductOf(row)), Bump(c.dp, DpOf(row)),
      if row.resultStatus == "approve" then c.approved + 1 else c.approved)
  }

  lemma OfMonthAppend(rows: seq<Row>, row: Row, m: Month)
    ensures OfMonth(rows + [row], m) == if m == row.month then OfMonth(rows, m) + [row] else OfMonth(rows, m)
  {
    assert (rows + [row])[..|rows|] == rows;
  }

  function MotorsOf(motors: map<Month, map<string, int>>, m: Month): map<string, int> {
    if m in motors then motors[m] else map[]
  }

  lemma MonthBumped(motors: map<Month, map<string, int>>, rows: seq<Row>, row: Row, product: string)
    requires CountsPerMonth(motors, rows) && product == ProductOf(row)
    ensures Counts(Bump(MotorsOf(motors, row.month), product), OfMonth(rows + [row], row.month), ProductOf)
  {
    OfMonthSize(rows, row.month);
    OfMonthAppend(rows, row, row.month);
    BumpCounts(MotorsOf(motors, row.month), OfMonth(rows, row.month), row, ProductOf);
  }

  lemma MotorCounts(motors: map<Month, map<string, int>>, rows: seq<Row>, row: Row, product: string)
    requires CountsPerMonth(motors, rows) && product == ProductOf(row)
    ensures CountsPerMonth(BumpMotors(motors, row.month, product), rows + [row])
  {
    LabelsAppend(rows, row, MonthOf);
    MonthBumped(motors, rows, row, product);
    forall m | m in motors && m != row.month ensures OfMonth(rows + [row], m) == OfMonth(rows, m) {
      OfMonthAppend(rows, row, m);
    }
  }

  lemma RangeCounts(dp: map<int, int>, rows: seq<Row>, row: Row)
    requires CountsRanges(dp, rows)
    ensures CountsRanges(Bump(dp, DpOf(row)), rows + [row])
  {
    forall i | i in DP_RANGES ensures Bump(dp, DpOf(row))[i] == Weigh(rows + [row], DpOf, Each<Row>(), i) {
      WeighAppend(rows, row, DpOf, Each<Row>(), i);
    }
  }

  lemma NameCounts(c: Counters, rows: seq<Row>, row: Row)
    requires CountsNames(c, rows)
    ensures CountsNames(AddRow(c, row), rows + [row])
  {
    BumpCounts(c.job, rows, row, JobOf);
    BumpCounts(c.product, rows, row, ProductOf);
    BumpCounts(c.finance, rows, row, FinanceOf);
  }

  lemma RowCounts(c: Counters, rows: seq<Row>, row: Row)
    requires CountRows(c, rows)
    ensures CountRows(AddRow(c, row), rows + [row])
  {
    NameCounts(c, rows, row);
    BumpCounts(c.monthly, rows, row, MonthOf);
    MotorCounts(c.monthlyMotor, rows, row, ProductOf(row));
    RangeCounts(c.dp, rows, row);
    assert (rows + [row])[..|rows|] == rows;
  }

  method CountMotor(motors: map<Month, map<string, int>>, m: Month, product: string) returns (motors': map<Month, map<string, int>>)
    ensures motors' == BumpMotors(motors, m, product)
  {
    motors' := motors;
    if m !in motors' {
      motors' := motors'[m := map[]];
    }
    motors' := motors'[m := Bump(motors'[m], product)];
  }

  method BumpAll(c: Counters, row: Row) returns (c': Counters)
    ensures c' == AddRow(c, row)
  {
    c' := c.(monthly := Bump(c.monthly, row.month));
    var jobLabel := Labelled(row.jobName);
    c' := c'.(job := Bump(c.job, jobLabel));
    var productLabel := Labelled(row.motorTypeName);
    c' := c'.(product := Bump(c.product, productLabel));
    var motors := CountMotor(c.monthlyMotor, row.month, productLabel);
    c' := c'.(monthlyMotor := motors);
    var financeLabel := Labelled(row.financeCompanyName);
    c' := c'.(finance := Bump(c.finance, financeLabel));
    if row.resultStatus == "approve" {
      c' := c'.(approved := c.approved + 1);
    }
    c' := c'.(dp := Bump(c.dp, DpRange(row.dpPct)));
  }

  /** One turn of the loop: counters of the rows so far become those of one row more. */
  method CountRow(c: Counters, ghost rows: seq<Row>, row: Row) returns (c': Counters)
    requires CountRows(c, rows)
    ensures CountRows(c', rows + [row])
  {
    RowCounts(c, rows, row);
    c' := BumpAll(c, row);
  }

  /** No labels yet, but all eight ranges. */
  const EMPTY := Counters(map[], map[], map[], map[], map[],
                          map[0 := 0, 1 := 0, 2 := 0, 3 := 0, 4 := 0, 5 := 0, 6 := 0, 7 := 0], 0)

  lemma NothingCounted()
    ensures CountRows(EMPTY, [])
  {
  }

  /** A name as it is shown: trimmed, or a dash for none. */
  predicate ShownAs(name: string, shown: string) {
    if Blank(name) then shown == "-" else shown == Trim(name)
  }

  /** The counter has exactly the names that rows have, each with the number of its rows. */
  ghost predicate CountsShown(counter: map<string, int>, rows: seq<Row>, name: Row -> string) {
    (forall k :: k in counter <==> exists i | 0 <= i < |rows| :: ShownAs(name(rows[i]), k))
    && forall k | k in counter :: counter[k] == |set i: nat | i < |rows| && ShownAs(name(rows[i]), k)|
  }

  lemma ShownCounts(counter: map<string, int>, rows: seq<Row>, tag: Row -> string, name: Row -> string)
    requires Counts(counter, rows, tag) && forall r, k :: ShownAs(name(r), k) <==> tag(r) == k
    ensures CountsShown(counter, rows, name)
  {
    forall k ensures k in counter <==> exists i | 0 <= i < |rows| :: ShownAs(name(rows[i]), k) {
      if k in counter { var i :| 0 <= i < |rows| && tag(rows[i]) == k; }
      if i :| 0 <= i < |rows| && ShownAs(name(rows[i]), k) { assert tag(rows[i]) in Labels(rows, tag); }
    }
    forall k | k in counter ensures counter[k] == |set i: nat | i < |rows| && ShownAs(name(rows[i]), k)| {
      WeighIsCount(rows, tag, Each<Row>(), k);
      assert (set i: nat | i < |rows| && ShownAs(name(rows[i]), k)) == Positions(rows, tag, Each<Row>(), k);
    }
  }

  /** The rows counted by month, by range of the down payment and as approved. */
  ghost predicate CountsOutright(c: Counters, rows: seq<Row>) {
    (forall m :: m in c.monthly <==> exists i | 0 <= i < |rows| :: rows[i].month == m)
    && (forall m | m in c.monthly :: c.monthly[m] == |set i: nat | i < |rows| && rows[i].month == m|)
    && (forall k | k in c.dp :: c.dp[k] == |set i: nat | i < |rows| && DpRange(rows[i].dpPct) == k|)
    && c.approved == |ApprovedRows(rows)|
  }

  lemma MonthsCounted(counter: map<Month, int>, rows: seq<Row>)
    requires Counts(counter, rows, MonthOf)
    ensures forall m :: m in counter <==> exists i | 0 <= i < |rows| :: rows[i].month == m
    ensures forall m | m in counter :: counter[m] == |set i: nat | i < |rows| && rows[i].month == m|
  {
    forall m | m in counter ensures counter[m] == |set i: nat | i < |rows| && rows[i].month == m| {
      WeighIsCount(rows, MonthOf, Each<Row>(), m);
      assert (set i: nat | i < |rows| && rows[i].month == m) == Positions(rows, MonthOf, Each<Row>(), m);
    }
  }

  lemma DpCounted(dp: map<int, int>, rows: seq<Row>)
    requires CountsRanges(dp, rows)
    ensures forall k | k in dp :: dp[k] == |set i: nat | i < |rows| && DpRange(rows[i].dpPct) == k|
  {
    forall k | k in dp ensures dp[k] == |set i: nat | i < |rows| && DpRange(rows[i].dpPct) == k| {
      WeighIsCount(rows, DpOf, Each<Row>(), k);
      assert (set i: nat | i < |rows| && DpRange(rows[i].dpPct) == k) == Positions(rows, DpOf, Each<Row>(), k);
    }
  }

  ghost function ApprovedRows(rows: seq<Row>): set<nat> {
    set i: nat | i < |rows| && rows[i].resultStatus == "approve"
  }

  lemma ApprovedCounted(rows: seq<Row>)
    ensures WeighAll(rows, Approved()) == |ApprovedRows(rows)|
  {
    WeighAllIsCount(rows, Approved());
    assert ApprovedRows(rows) == Heavy(rows, Approved());
  }

  lemma RowsCounted(c: Counters, rows: seq<Row>)
    requires CountRows(c, rows)
    ensures CountsOutright(c, rows)
  {
    MonthsCounted(c.monthly, rows);
    DpCounted(c.dp, rows);
    ApprovedCounted(rows);
  }

  /** The rows counted by job, product and finance company, by their names as shown. */
  lemma NamesShown(c: Counters, rows: seq<Row>)
    requires CountsNames(c, rows)
    ensures CountsShown(c.job, rows, (r: Row) => r.jobName)
    ensures CountsShown(c.product, rows, (r: Row) => r.motorTypeName)
    ensures CountsShown(c.finance, rows, (r: Row) => r.financeCompanyName)
  {
    ShownCounts(c.job, rows, JobOf, (r: Row) => r.jobName);
    ShownCounts(c.product, rows, ProductOf, (r: Row) => r.motorTypeName);
    ShownCounts(c.finance, rows, FinanceOf, (r: Row) => r.financeCompanyName);
  }

  method CountAll(rows: seq<Row>) returns (c: Counters)
    ensures CountRows(c, rows)
    ensures CountsShown(c.job, rows, (r: Row) => r.jobName)
    ensures CountsShown(c.product, rows, (r: Row) => r.motorTypeName)
    ensures CountsShown(c.finance, rows, (r: Row) => r.financeCompanyName)
    ensures CountsOutright(c, rows)
  {
    c := EMPTY;
    var i := 0;
    NothingCounted();
    assert rows[..0] == [];
    while i < |rows|
      invariant i <= |rows| && CountRows(c, rows[..i])
    {
      TakeMore(rows, i);
      c := CountRow(c, rows[..i], rows[i]);
      i := i + 1;
    }
    TakeAll(rows);
    NamesShown(c, rows);
    RowsCounted(c, rows);
  }

  // ---------------------------------------------------------------- what they conserve

  /** Every breakdown sums to the number of rows, and that of a month over its motors to the month. */
  lemma CountersConserve(c: Counters, rows: seq<Row>)
    requires CountRows(c, rows)
    ensures Sum(c.monthly.Keys, Value(c.monthly)) == Sum(c.job.Keys, Value(c.job)) == Sum(c.product.Keys, Value(c.product))
         == Sum(c.finance.Keys, Value(c.finance)) == Sum(DP_RANGES, Value(c.dp)) == |rows|
    ensures 0 <= c.approved <= |rows|
  {
    CountsConserve(c.monthly, rows, MonthOf, c.monthly.Keys);
    CountsConserve(c.job, rows, JobOf, c.job.Keys);
    CountsConserve(c.product, rows, ProductOf, c.product.Keys);
    CountsConserve(c.finance, rows, FinanceOf, c.finance.Keys);
    RangesConserve(c.dp, rows);
    ApprovedAtMostAll(rows);
  }

  lemma MonthConserves(c: Counters, rows: seq<Row>, m: Month)
    requires CountRows(c, rows) && m in c.monthly
    ensures m in c.monthlyMotor && Sum(c.monthlyMotor[m].Keys, Value(c.monthlyMotor[m])) == c.monthly[m]
  {
    CountsConserve(c.monthlyMotor[m], OfMonth(rows, m), ProductOf, c.monthlyMotor[m].Keys);
    OfMonthSize(rows, m);
  }

  lemma RangesAreAll(rows: seq<Row>)
    ensures Labels(rows, DpOf) <= DP_RANGES
  {
    forall i | 0 <= i < |rows| ensures DpOf(rows[i]) in DP_RANGES {}
  }

  lemma RangesConserve(dp: map<int, int>, rows: seq<Row>)
    requires CountsRanges(dp, rows)
    ensures Sum(DP_RANGES, Value(dp)) == |rows|
  {
    forall k | k in DP_RANGES ensures Value(dp)(k) == Weights(rows, DpOf, Each<Row>())(k) { assert k in dp; }
    SumSame(DP_RANGES, Value(dp), Weights(rows, DpOf, Each<Row>()));
    SumOfWeights(rows, DpOf, Each<Row>(), DP_RANGES);
    RangesAreAll(rows);
    WeighEachIn(rows, DpOf, DP_RANGES);
  }

  lemma {:induction false} ApprovedAtMostAll(rows: seq<Row>)
    ensures 0 <= WeighAll(rows, Approved()) <= |rows|
  {
    if rows != [] { ApprovedAtMostAll(rows[..|rows| - 1]); }
  }

  const MONTHS_SHOWN := 12

  /** The series shows the last twelve months that have rows. */
  ghost predicate LastMonths(months: set<Month>, shown: set<Month>) {
    shown <= months && |shown| == (if |months| > MONTHS_SHOWN then MONTHS_SHOWN else |months|)
    && forall a, b | a in months - shown && b in shown :: a < b
  }

  /** So the totals of the series sum to the rows of the months shown, and to all rows just when there are at most twelve months. */
  lemma SeriesConserves(c: Counters, rows: seq<Row>, shown: set<Month>)
    requires CountRows(c, rows) && LastMonths(c.monthly.Keys, shown)
    ensures Sum(shown, Value(c.monthly)) == WeighIn(rows, MonthOf, Each<Row>(), shown)
    ensures Sum(shown, Value(c.monthly)) == |rows| <==> |c.monthly| <= MONTHS_SHOWN
  {
    CountsConserve(c.monthly, rows, MonthOf, shown);
    SubsetSize(shown, c.monthly.Keys);
  }

  datatype Bar = Bar(month: Month, total: int)

  ghost predicate Ascends(months: seq<Month>) {
    forall i, j | 0 <= i < j < |months| :: months[i] < months[j]
  }

  ghost function Elements<T>(s: seq<T>): set<T> {
    set x | x in s
  }

  method Least(months: set<Month>) returns (m: Month)
    requires months != {}
    ensures m in months && forall x | x in months && x != m :: m < x
  {
    m :| m in months;
    var left := months - {m};
    while left != {}
      invariant left <= months && m in months && m !in left
      invariant forall x | x in months && x !in left :: m <= x
      decreases left
    {
      var x :| x in left;
      m := if x < m then x else m;
      left := left - {x} - {m};
    }
  }

  lemma AscendsAppend(keys: seq<Month>, m: Month)
    requires Ascends(keys) && forall a | a in keys :: a < m
    ensures Ascends(keys + [m])
  {
    forall i | 0 <= i < |keys| ensures keys[i] < m { assert keys[i] in keys; }
  }

  method SortMonths(months: set<Month>) returns (keys: seq<Month>)
    ensures Ascends(keys) && Elements(keys) == months
  {
    keys := [];
    var left := months;
    while left != {}
      invariant left <= months && Ascends(keys)
      invariant forall m :: m in keys <==> m in months && m !in left
      invariant forall a, b | a in keys && b in left :: a < b
      decreases left
    {
      var m := Least(left);
      AscendsAppend(keys, m);
      keys := keys + [m];
      left := left - {m};
    }
    assert forall m :: m in Elements(keys) <==> m in months;
  }

  lemma {:induction false} AscendingSize(months: seq<Month>)
    requires Ascends(months)
    ensures |Elements(months)| == |months|
  {
    if months != [] {
      var init, last := months[..|months| - 1], months[|months| - 1];
      AscendingSize(init);
      assert months == init + [last];
      assert Elements(months) == Elements(init) + {last} && last !in Elements(init);
    }
  }

  lemma NotInTail(months: seq<Month>, from: nat, i: nat)
    requires from <= |months| && i < |months| && months[i] !in months[from..]
    ensures i < from
  {
    var tail := months[from..];
    assert forall j | from <= j < |months| :: tail[j - from] == months[j];
  }

  /** Cutting an ascending list of months to its last twelve keeps the last twelve months. */
  lemma LastOfSorted(months: seq<Month>, from: nat)
    requires Ascends(months) && from == if |months| > MONTHS_SHOWN then |months| - MONTHS_SHOWN else 0
    ensures Ascends(months[from..]) && LastMonths(Elements(months), Elements(months[from..]))
  {
    AscendingSize(months);
    AscendingSize(months[from..]);
    forall a, b | a in Elements(months) - Elements(months[from..]) && b in Elements(months[from..]) ensures a < b {
      var i :| 0 <= i < |months| && months[i] == a;
      var j :| 0 <= j < |months[from..]| && months[from..][j] == b;
      NotInTail(months, from, i);
      assert months[from + j] == b;
    }
  }

  ghost function SeriesTotal(series: seq<Bar>): int {
    if series == [] then 0 else SeriesTotal(series[..|series| - 1]) + series[|series| - 1].total
  }

  /** The bars of some months, each as high as its counter. */
  ghost predicate BarsOf(series: seq<Bar>, counter: map<Month, int>, keys: seq<Month>) {
    |series| == |keys| && forall i | 0 <= i < |keys| :: keys[i] in counter && series[i] == Bar(keys[i], counter[keys[i]])
  }

  lemma {:induction false} BarsTotal(series: seq<Bar>, counter: map<Month, int>, keys: seq<Month>)
    requires Ascends(keys) && BarsOf(series, counter, keys)
    ensures SeriesTotal(series) == Sum(Elements(keys), Value(counter))
  {
    if keys != [] {
      var init, last := keys[..|keys| - 1], keys[|keys| - 1];
      BarsTotal(series[..|series| - 1], counter, init);
      assert keys == init + [last];
      assert Elements(keys) == Elements(init) + {last} && last !in Elements(init);
      SumTake(Elements(keys), Value(counter), last);
      assert Elements(keys) - {last} == Elements(init);
    }
  }

  method Bars(counter: map<Month, int>, keys: seq<Month>) returns (series: seq<Bar>)
    requires forall i | 0 <= i < |keys| :: keys[i] in counter
    ensures BarsOf(series, counter, keys)
  {
    series := [];
    var i := 0;
    while i < |keys|
      invariant i <= |keys| && |series| == i && forall j | 0 <= j < i :: series[j] == Bar(keys[j], counter[keys[j]])
    {
      series := series + [Bar(keys[i], counter[keys[i]])];
      i := i + 1;
    }
  }

  lemma KeysCounted(counter: map<Month, int>, keys: seq<Month>)
    requires Elements(keys) <= counter.Keys
    ensures forall i | 0 <= i < |keys| :: keys[i] in counter
  {
    forall i | 0 <= i < |keys| ensures keys[i] in counter { assert keys[i] in Elements(keys); }
  }

  /** The bars of the last months count the rows of theirs. */
  lemma BarsCountRows(series: seq<Bar>, c: Counters, rows: seq<Row>, keys: seq<Month>)
    requires CountRows(c, rows) && Ascends(keys) && LastMonths(c.monthly.Keys, Elements(keys)) && BarsOf(series, c.monthly, keys)
    ensures forall i | 0 <= i < |series| :: series[i].total == |OfMonth(rows, series[i].month)|
    ensures SeriesTotal(series) == WeighIn(rows, MonthOf, Each<Row>(), Elements(keys))
    ensures SeriesTotal(series) == |rows| <==> |Labels(rows, MonthOf)| <= MONTHS_SHOWN
  {
    BarsTotal(series, c.monthly, keys);
    SeriesConserves(c, rows, Elements(keys));
    forall i | 0 <= i < |series| ensures series[i].total == |OfMonth(rows, series[i].month)| { OfMonthSize(rows, keys[i]); }
  }

  /**
   The monthly series: the last twelve months with rows, in order, each with its number of rows. Its
   totals are all rows just when no more than twelve months have rows.
   */
  method MonthlySeries(c: Counters, ghost rows: seq<Row>) returns (series: seq<Bar>, ghost shown: seq<Month>)
    requires CountRows(c, rows)
    ensures Ascends(shown) && LastMonths(Labels(rows, MonthOf), Elements(shown))
    ensures BarsOf(series, c.monthly, shown) && forall i | 0 <= i < |series| :: series[i].total == |OfMonth(rows, series[i].month)|
    ensures SeriesTotal(series) == WeighIn(rows, MonthOf, Each<Row>(), Elements(shown))
    ensures SeriesTotal(series) == |rows| <==> |Labels(rows, MonthOf)| <= MONTHS_SHOWN
  {
    var keys := SortMonths(c.monthly.Keys);
    var from := if |keys| > MONTHS_SHOWN then |keys| - MONTHS_SHOWN else 0;
    LastOfSorted(keys, from);
    keys := keys[from..];
    KeysCounted(c.monthly, keys);
    series := Bars(c.monthly, keys);
    shown := keys;
    BarsCountRows(series, c, rows, keys);
  }

  // ---------------------------------------------------------------- proportions

  datatype Item = Item(name: string, total: int, percent: real)

  ghost function Total(items: seq<Item>): int {
    if items == [] then 0 else Total(items[..|items| - 1]) + items[|items| - 1].total
  }

  ghost function Percent(items: seq<Item>): real {
    if items == [] then 0.0 else Percent(items[..|items| - 1]) + items[|items| - 1].percent
  }

  lemma TotalsAppend(items: seq<Item>, item: Item)
    ensures Total(items + [item]) == Total(items) + item.total
    ensures Percent(items + [item]) == Percent(items) + item.percent
  {
    assert (items + [item])[..|items|] == items;
  }

  ghost function NamesOf(items: seq<Item>): set<string> {
    set item | item in items :: item.name
  }

  ghost predicate NamesApart(items: seq<Item>) {
    forall i, j | 0 <= i < j < |items| :: items[i].name != items[j].name
  }

  lemma NamesAppend(items: seq<Item>, item: Item)
    requires NamesApart(items) && item.name !in NamesOf(items)
    ensures NamesApart(items + [item]) && NamesOf(items + [item]) == NamesOf(items) + {item.name}
  {
    assert forall x | x in items + [item] :: x in items || x == item;
    assert item in items + [item] && forall x | x in items :: x in items + [item];
    forall i | 0 <= i < |items| ensures items[i].name != item.name { assert items[i] in items; }
  }

  function Share(total: int, of: int): real {
    if of > 0 then total as real / of as real * 100.0 else 0.0
  }

  lemma SharesAdd(a: int, b: int, of: int)
    ensures Share(a + b, of) == Share(a, of) + Share(b, of)
  {
  }

  /** The items of some labels of a counter; those without rows are left out. */
  ghost predicate ItemsOf(items: seq<Item>, counter: map<string, int>, names: set<string>) {
    NamesApart(items)
    && (forall item | item in items :: item.total > 0 && item.name in names && item.name in counter && item.total == counter[item.name])
    && forall name | name in names && name in counter && counter[name] > 0 :: name in NamesOf(items)
  }

  ghost predicate SharesOf(items: seq<Item>, counter: map<string, int>, names: set<string>, totalOrders: int) {
    Total(items) == Sum(names, Value(counter)) && Percent(items) == Share(Total(items), totalOrders)
  }

  lemma ItemsMore(items: seq<Item>, counter: map<string, int>, names: set<string>, item: Item)
    requires ItemsOf(items, counter, names) && item.name in counter && item.name !in names
    requires item.total == counter[item.name] > 0
    ensures ItemsOf(items + [item], counter, names + {item.name})
  {
    NamesAppend(items, item);
  }

  lemma SharesMore(items: seq<Item>, counter: map<string, int>, names: set<string>, totalOrders: int, item: Item)
    requires SharesOf(items, counter, names, totalOrders) && item.name in counter && item.name !in names
    requires item.total == counter[item.name] && item.percent == Share(item.total, totalOrders)
    ensures SharesOf(items + [item], counter, names + {item.name}, totalOrders)
  {
    TotalsAppend(items, item);
    SharesAdd(Total(items), item.total, totalOrders);
    SumTake(names + {item.name}, Value(counter), item.name);
    assert names + {item.name} - {item.name} == names;
  }

  lemma SharesSkip(items: seq<Item>, counter: map<string, int>, names: set<string>, totalOrders: int, name: string)
    requires SharesOf(items, counter, names, totalOrders) && name in counter && name !in names && counter[name] == 0
    ensures SharesOf(items, counter, names + {name}, totalOrders)
  {
    SumTake(names + {name}, Value(counter), name);
    assert names + {name} - {name} == names;
  }

  method AddItem(items: seq<Item>, counter: map<string, int>, ghost names: set<string>, totalOrders: int, name: string) returns (items': seq<Item>)
    requires ItemsOf(items, counter, names) && SharesOf(items, counter, names, totalOrders)
    requires name in counter && name !in names && counter[name] >= 0
    ensures ItemsOf(items', counter, names + {name}) && SharesOf(items', counter, names + {name}, totalOrders)
  {
    var total := counter[name];
    if total <= 0 {
      SharesSkip(items, counter, names, totalOrders, name);
      return items;
    }
    var item := Item(name, total, Share(total, totalOrders));
    ItemsMore(items, counter, names, item);
    SharesMore(items, counter, names, totalOrders, item);
    return items + [item];
  }

  /** The items of a counter, in any order: each label with rows once, and together the whole total and its share. */
  method BuildProportions(counter: map<string, int>, totalOrders: int) returns (result: seq<Item>)
    requires forall k | k in counter :: counter[k] >= 0
    ensures ItemsOf(result, counter, counter.Keys)
    ensures Total(result) == Sum(counter.Keys, Value(counter)) && Percent(result) == Share(Total(result), totalOrders)
  {
    result := [];
    var left := counter.Keys;
    ghost var done: set<string> := {};
    while left != {}
      invariant done + left == counter.Keys && done !! left
      invariant ItemsOf(result, counter, done) && SharesOf(result, counter, done, totalOrders)
      decreases left
    {
      var name :| name in left;
      result := AddItem(result, counter, done, totalOrders, name);
      done := done + {name};
      left := left - {name};
    }
    assert done == counter.Keys;
  }

  lemma {:induction false} WeighEachPositive<K>(rows: seq<Row>, tag: Row -> K, k: K)
    ensures Weigh(rows, tag, Each<Row>(), k) >= 0
  {
    if rows != [] { WeighEachPositive(rows[..|rows| - 1], tag, k); }
  }

  lemma JobsConserve(c: Counters, rows: seq<Row>)
    requires CountRows(c, rows)
    ensures Sum(c.job.Keys, Value(c.job)) == |rows| && forall k | k in c.job :: c.job[k] >= 0
  {
    CountsConserve(c.job, rows, JobOf, c.job.Keys);
    forall k | k in c.job ensures c.job[k] >= 0 { WeighEachPositive(rows, JobOf, k); }
  }

  lemma Signs(a: real, n: real)
    requires n > 0.0
    ensures (a > 0.0 ==> a * n > 0.0) && (a < 0.0 ==> a * n < 0.0)
  {
  }

  lemma Cancel(x: real, n: real)
    requires n > 0.0 && x * n == n
    ensures x == 1.0
  {
    Signs(x - 1.0, n);
    assert (x - 1.0) * n == x * n - n;
  }

  lemma ShareOfAll(n: int)
    requires n > 0
    ensures Share(n, n) == 100.0
  {
    var x := n as real / n as real;
    assert x * n as real == n as real;
    Cancel(x, n as real);
  }

  /** The proportions of jobs: their totals are the number of rows and their percentages add up to a hundred. */
  method JobProportions(c: Counters, rows: seq<Row>) returns (result: seq<Item>)
    requires CountRows(c, rows)
    ensures NamesApart(result) && forall item | item in result :: item.total == Weigh(rows, JobOf, Each<Row>(), item.name)
    ensures Total(result) == |rows|
    ensures rows != [] ==> Percent(result) == 100.0
  {
    JobsConserve(c, rows);
    result := BuildProportions(c.job, |rows|);
    if rows != [] { ShareOfAll(|rows|); }
  }
}
