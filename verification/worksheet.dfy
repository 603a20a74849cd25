/** The credit worksheet's buckets: orders by installment and by down payment, with their decisions. */
module Worksheet {
  import opened Text
  import opened Finite
  import opened Tally
  import opened Dashboard

  const BUCKET_SIZE := 250000

  /** An order that matches the area asked for; its status may be written in any case. */
  datatype Order = Order(installment: real, dpPct: real, financeStatus: string)

  datatype RangeCounter = RangeCounter(total: int, approve: int, reject: int)

  /** Installments below zero count as zero; a bucket is the number of whole sizes in the amount. */
  function Bucket(installment: real): int {
    (if installment < 0.0 then 0.0 else installment / BUCKET_SIZE as real).Floor
  }

  function BucketOf(o: Order): int { Bucket(o.installment) }
  function RangeOf(o: Order): int { DpRange(o.dpPct) }

  /** An amount lies in the range of its bucket exactly when it is not negative. */
  lemma AmountInRange(installment: real)
    ensures (Bucket(installment) * BUCKET_SIZE) as real <= installment < ((Bucket(installment) + 1) * BUCKET_SIZE) as real
       <==> installment >= 0.0
    ensures Bucket(installment) >= 0
  {
    if installment >= 0.0 {
      var q := installment / BUCKET_SIZE as real;
      assert q * BUCKET_SIZE as real == installment;
      assert q.Floor as real <= q < (q.Floor + 1) as real;
    }
  }

  // ---------------------------------------------------------------- the counters

  datatype Part = All | Approvals | Rejections

  function Of(c: RangeCounter, part: Part): int {
    match part
    case All => c.total
    case Approvals => c.approve
    case Rejections => c.reject
  }

  function Status(o: Order): string {
    Lower(Trim(o.financeStatus))
  }

  predicate Approve(o: Order) { Status(o) == "approve" }
  predicate Reject(o: Order) { Status(o) == "reject" }

  ghost function Weight(part: Part): Order -> int {
    match part
    case All => Each<Order>()
    case Approvals => (o: Order) => if Approve(o) then 1 else 0
    case Rejections => (o: Order) => if Reject(o) then 1 else 0
  }

  /** Each label counts its orders, its approvals and its rejections. */
  ghost predicate Ranges(counters: map<int, RangeCounter>, orders: seq<Order>, tag: Order -> int) {
    Labels(orders, tag) <= counters.Keys
    && forall k, part | k in counters :: Of(counters[k], part) == Weigh(orders, tag, Weight(part), k)
  }

  const NONE := RangeCounter(0, 0, 0)

  function Add(c: RangeCounter, approve: bool, reject: bool): RangeCounter {
    RangeCounter(c.total + 1, if approve then c.approve + 1 else c.approve, if reject then c.reject + 1 else c.reject)
  }

  function Found(counters: map<int, RangeCounter>, k: int): RangeCounter {
    if k in counters then counters[k] else NONE
  }

  lemma AddCounts(counters: map<int, RangeCounter>, orders: seq<Order>, o: Order, tag: Order -> int, k: int)
    requires Ranges(counters, orders, tag) && k == tag(o)
    ensures Ranges(counters[k := Add(Found(counters, k), Approve(o), Reject(o))], orders + [o], tag)
  {
    var counters' := counters[k := Add(Found(counters, k), Approve(o), Reject(o))];
    LabelsAppend(orders, o, tag);
    forall j, part | j in counters' ensures Of(counters'[j], part) == Weigh(orders + [o], tag, Weight(part), j) {
      WeighAppend(orders, o, tag, Weight(part), j);
      if j !in counters { Unlabelled(orders, tag, Weight(part), j); }
    }
  }

  /** One turn of the loop: both counters are there before the status is looked at. */
  method CountOrder(buckets: map<int, RangeCounter>, ranges: map<int, RangeCounter>, ghost orders: seq<Order>, o: Order)
    returns (buckets': map<int, RangeCounter>, ranges': map<int, RangeCounter>)
    requires Ranges(buckets, orders, BucketOf) && Ranges(ranges, orders, RangeOf)
    ensures Ranges(buckets', orders + [o], BucketOf) && Ranges(ranges', orders + [o], RangeOf)
    ensures buckets'.Keys == buckets.Keys + {BucketOf(o)} && ranges'.Keys == ranges.Keys + {RangeOf(o)}
  {
    var bucket, range := Bucket(o.installment), DpRange(o.dpPct);
    AddCounts(buckets, orders, o, BucketOf, bucket);
    AddCounts(ranges, orders, o, RangeOf, range);
    var approve, reject := Approve(o), Reject(o);
    buckets' := buckets[bucket := Add(Found(buckets, bucket), approve, reject)];
    ranges' := ranges[range := Add(Found(ranges, range), approve, reject)];
  }

  /** Every down-payment range has a counter from the start. */
  method CountOrders(orders: seq<Order>) returns (buckets: map<int, RangeCounter>, ranges: map<int, RangeCounter>)
    ensures Ranges(buckets, orders, BucketOf) && buckets.Keys == Labels(orders, BucketOf)
    ensures Ranges(ranges, orders, RangeOf) && ranges.Keys == DP_RANGES
  {
    buckets := map[];
    ranges := map[0 := NONE, 1 := NONE, 2 := NONE, 3 := NONE, 4 := NONE, 5 := NONE, 6 := NONE, 7 := NONE];
    assert orders[..0] == [];
    var i := 0;
    while i < |orders|
      invariant i <= |orders|
      invariant Ranges(buckets, orders[..i], BucketOf) && buckets.Keys == Labels(orders[..i], BucketOf)
      invariant Ranges(ranges, orders[..i], RangeOf) && ranges.Keys == DP_RANGES
    {
      assert orders[..i + 1] == orders[..i] + [orders[i]];
      LabelsAppend(orders[..i], orders[i], BucketOf);
      buckets, ranges := CountOrder(buckets, ranges, orders[..i], orders[i]);
      i := i + 1;
    }
    assert orders[..i] == orders;
  }

  // ---------------------------------------------------------------- what they conserve

  ghost function Value(counters: map<int, RangeCounter>, part: Part): int -> int {
    k => Of(Found(counters, k), part)
  }

  /** Over any labels that include those of the orders, each part sums to its orders. */
  lemma RangesConserve(counters: map<int, RangeCounter>, orders: seq<Order>, tag: Order -> int, part: Part, labels: set<int>)
    requires Ranges(counters, orders, tag) && Labels(orders, tag) <= labels
    ensures Sum(labels, Value(counters, part)) == WeighAll(orders, Weight(part))
  {
    forall k | k in labels ensures Value(counters, part)(k) == Weights(orders, tag, Weight(part))(k) {
      if k !in counters { Unlabelled(orders, tag, Weight(part), k); }
    }
    SumSame(labels, Value(counters, part), Weights(orders, tag, Weight(part)));
    SumOfWeights(orders, tag, Weight(part), labels);
    WeighInAll(orders, tag, Weight(part), labels);
  }

  /** Decisions never outnumber the orders of a label, and no order is both approved and rejected. */
  lemma {:induction false} DecisionsWithinTotal(orders: seq<Order>, tag: Order -> int, k: int)
    ensures 0 <= Weigh(orders, tag, Weight(Approvals), k) && 0 <= Weigh(orders, tag, Weight(Rejections), k)
    ensures Weigh(orders, tag, Weight(Approvals), k) + Weigh(orders, tag, Weight(Rejections), k) <= Weigh(orders, tag, Weight(All), k)
  {
    if orders != [] { DecisionsWithinTotal(orders[..|orders| - 1], tag, k); }
  }

  // ---------------------------------------------------------------- the series

  datatype Line = Line(rangeStart: int, rangeEnd: int, counter: RangeCounter, productHit: int)

  ghost function Elements(keys: seq<int>): set<int> {
    set k | k in keys
  }

  ghost predicate Distinct(keys: seq<int>) {
    forall i, j | 0 <= i < j < |keys| :: keys[i] != keys[j]
  }

  method OneOf(s: set<int>) returns (k: int)
    requires s != {}
    ensures k in s
  {
    ghost var some: int := Pick(s);
    assert some in s;
    k :| k in s;
  }

  method AppendNew(keys: seq<int>, more: set<int>) returns (keys': seq<int>)
    requires Distinct(keys)
    ensures Distinct(keys') && Elements(keys') == Elements(keys) + more
  {
    keys' := keys;
    var left := more;
    while left != {}
      invariant left <= more && Distinct(keys')
      invariant forall k :: k in keys' <==> k in keys || (k in more && k !in left)
      decreases left
    {
      var k := OneOf(left);
      if k !in keys' {
        keys' := keys' + [k];
      }
      left := left - {k};
    }
    assert forall k :: k in Elements(keys') <==> k in Elements(keys) + more;
  }

  /** The buckets of orders and of products, each once. */
  method BucketKeys(ofOrders: set<int>, ofProducts: set<int>) returns (keys: seq<int>)
    ensures Distinct(keys) && Elements(keys) == ofOrders + ofProducts
  {
    keys := AppendNew([], ofOrders);
    keys := AppendNew(keys, ofProducts);
  }

  ghost function LineSum(lines: seq<Line>, part: Part): int {
    if lines == [] then 0 else LineSum(lines[..|lines| - 1], part) + Of(lines[|lines| - 1].counter, part)
  }

  lemma ElementsAppend(keys: seq<int>, i: nat)
    requires i < |keys| && Distinct(keys)
    ensures Elements(keys[..i + 1]) == Elements(keys[..i]) + {keys[i]} && keys[i] !in Elements(keys[..i])
  {
    assert keys[..i + 1] == keys[..i] + [keys[i]];
  }

  ghost predicate Summed(lines: seq<Line>, counters: map<int, RangeCounter>, keys: set<int>) {
    forall part :: LineSum(lines, part) == Sum(keys, Value(counters, part))
  }

  lemma SummedAppend(lines: seq<Line>, counters: map<int, RangeCounter>, keys: set<int>, line: Line, k: int)
    requires Summed(lines, counters, keys) && k !in keys && line.counter == Found(counters, k)
    ensures Summed(lines + [line], counters, keys + {k})
  {
    assert (lines + [line])[..|lines|] == lines;
    forall part ensures LineSum(lines + [line], part) == Sum(keys + {k}, Value(counters, part)) {
      SumTake(keys + {k}, Value(counters, part), k);
      assert keys + {k} - {k} == keys;
    }
  }

  function LineOf(counters: map<int, RangeCounter>, products: map<int, int>, k: int): Line {
    Line(k * BUCKET_SIZE, (k + 1) * BUCKET_SIZE, Found(counters, k), if k in products then products[k] else 0)
  }

  /** A line per bucket of orders or products, adjacent buckets having adjacent ranges. */
  method InstallmentSeries(counters: map<int, RangeCounter>, products: map<int, int>, keys: seq<int>) returns (lines: seq<Line>)
    requires Distinct(keys)
    ensures Summed(lines, counters, Elements(keys))
    ensures LinesOf(lines, counters, products, keys)
  {
    lines := [];
    var i := 0;
    assert Elements(keys[..0]) == {};
    while i < |keys|
      invariant i <= |keys| && |lines| == i && Summed(lines, counters, Elements(keys[..i]))
      invariant forall j | 0 <= j < i :: lines[j] == LineOf(counters, products, keys[j])
    {
      var rangeStart := keys[i] * BUCKET_SIZE;
      var rangeEnd := rangeStart + BUCKET_SIZE;
      var line := Line(rangeStart, rangeEnd, Found(counters, keys[i]), if keys[i] in products then products[keys[i]] else 0);
      ElementsAppend(keys, i);
      SummedAppend(lines, counters, Elements(keys[..i]), line, keys[i]);
      lines := lines + [line];
      i := i + 1;
    }
    assert keys[..i] == keys;
  }

  lemma WithinTotal(buckets: map<int, RangeCounter>, orders: seq<Order>, k: int)
    requires Ranges(buckets, orders, BucketOf)
    ensures var c := Found(buckets, k); 0 <= c.approve + c.reject <= c.total
  {
    DecisionsWithinTotal(orders, BucketOf, k);
    if k in buckets {
      assert forall part :: Of(buckets[k], part) == Weigh(orders, BucketOf, Weight(part), k);
      assert Of(buckets[k], All) == buckets[k].total && Of(buckets[k], Approvals) == buckets[k].approve
          && Of(buckets[k], Rejections) == buckets[k].reject;
    }
  }

  /** The lines and the ranges each add up to the same orders, part by part. */
  ghost predicate Agree(lines: seq<Line>, ranges: map<int, RangeCounter>, orders: seq<Order>) {
    forall part :: LineSum(lines, part) == Sum(DP_RANGES, Value(ranges, part)) == WeighAll(orders, Weight(part))
  }

  lemma BothConserve(buckets: map<int, RangeCounter>, ranges: map<int, RangeCounter>, orders: seq<Order>, keys: set<int>, lines: seq<Line>)
    requires Ranges(buckets, orders, BucketOf) && Labels(orders, BucketOf) <= keys && Summed(lines, buckets, keys)
    requires Ranges(ranges, orders, RangeOf) && Labels(orders, RangeOf) <= DP_RANGES
    ensures Agree(lines, ranges, orders) && LineSum(lines, All) == |orders|
  {
    forall part ensures LineSum(lines, part) == Sum(DP_RANGES, Value(ranges, part)) == WeighAll(orders, Weight(part)) {
      RangesConserve(buckets, orders, BucketOf, part, keys);
      RangesConserve(ranges, orders, RangeOf, part, DP_RANGES);
    }
    WeighEach(orders);
  }

  /** A line has the range of one bucket, and counts that bucket's orders in every part. */
  ghost predicate CountsItsBucket(line: Line, orders: seq<Order>) {
    line.rangeStart % BUCKET_SIZE == 0 && line.rangeEnd == line.rangeStart + BUCKET_SIZE
    && forall part :: Of(line.counter, part) == Weigh(orders, BucketOf, Weight(part), line.rangeStart / BUCKET_SIZE)
  }

  /** The order's installment lies in the line's range; one below zero counts as zero. */
  predicate InLine(line: Line, o: Order) {
    if o.installment < 0.0 then line.rangeStart == 0
    else line.rangeStart as real <= o.installment < line.rangeEnd as real
  }

  ghost function OrdersOf(line: Line, orders: seq<Order>): set<nat> {
    set i: nat | i < |orders| && InLine(line, orders[i])
  }

  ghost function DecidedOf(line: Line, orders: seq<Order>, status: string): set<nat> {
    set i: nat | i < |orders| && InLine(line, orders[i]) && Lower(Trim(orders[i].financeStatus)) == status
  }

  /** The line counts exactly the orders whose installment it has, and of those the approved and the rejected ones. */
  ghost predicate CountsItsOrders(line: Line, orders: seq<Order>) {
    line.counter.total == |OrdersOf(line, orders)|
    && line.counter.approve == |DecidedOf(line, orders, "approve")| && line.counter.reject == |DecidedOf(line, orders, "reject")|
  }

  lemma InLineIff(line: Line, o: Order)
    requires line.rangeStart % BUCKET_SIZE == 0 && line.rangeEnd == line.rangeStart + BUCKET_SIZE
    ensures BucketOf(o) == line.rangeStart / BUCKET_SIZE <==> InLine(line, o)
  {
    var k := line.rangeStart / BUCKET_SIZE;
    assert k * BUCKET_SIZE == line.rangeStart;
    if o.installment >= 0.0 {
      AmountInRange(o.installment);
      BucketUnique(Bucket(o.installment), k, o.installment);
    }
  }

  /** An amount lies in the range of one bucket only. */
  lemma BucketUnique(j: int, k: int, amount: real)
    requires (j * BUCKET_SIZE) as real <= amount < ((j + 1) * BUCKET_SIZE) as real
    ensures (k * BUCKET_SIZE) as real <= amount < ((k + 1) * BUCKET_SIZE) as real <==> j == k
  {
    assert j < k ==> (j + 1) * BUCKET_SIZE <= k * BUCKET_SIZE;
    assert k < j ==> (k + 1) * BUCKET_SIZE <= j * BUCKET_SIZE;
  }

  lemma LineCountsOrders(line: Line, orders: seq<Order>)
    requires CountsItsBucket(line, orders)
    ensures CountsItsOrders(line, orders)
  {
    var k := line.rangeStart / BUCKET_SIZE;
    forall i: nat | i < |orders| ensures BucketOf(orders[i]) == k <==> InLine(line, orders[i]) { InLineIff(line, orders[i]); }
    PartCount(line, orders, k, All, "");
    PartCount(line, orders, k, Approvals, "approve");
    PartCount(line, orders, k, Rejections, "reject");
  }

  lemma PartCount(line: Line, orders: seq<Order>, k: int, part: Part, status: string)
    requires CountsItsBucket(line, orders) && k == line.rangeStart / BUCKET_SIZE
    requires forall i: nat | i < |orders| :: BucketOf(orders[i]) == k <==> InLine(line, orders[i])
    requires (part == Approvals && status == "approve") || (part == Rejections && status == "reject") || part == All
    ensures Of(line.counter, part) == if part == All then |OrdersOf(line, orders)| else |DecidedOf(line, orders, status)|
  {
    WeighIsCount(orders, BucketOf, Weight(part), k);
    assert Positions(orders, BucketOf, Weight(part), k) == if part == All then OrdersOf(line, orders) else DecidedOf(line, orders, status);
  }

  ghost predicate RangesApart(lines: seq<Line>) {
    forall i, j | 0 <= i < j < |lines| :: lines[i].rangeStart != lines[j].rangeStart
  }

  predicate Encloses(line: Line, o: Order) {
    line.rangeStart as real <= o.installment < line.rangeEnd as real
  }

  /** Every order is counted on one line, whose range it lies in unless its installment is negative. */
  ghost predicate HasLine(lines: seq<Line>, o: Order) {
    exists i | 0 <= i < |lines| :: lines[i].rangeStart == BucketOf(o) * BUCKET_SIZE && (o.installment >= 0.0 ==> Encloses(lines[i], o))
  }

  ghost predicate LinesOf(lines: seq<Line>, counters: map<int, RangeCounter>, products: map<int, int>, keys: seq<int>) {
    |lines| == |keys| && forall i | 0 <= i < |keys| :: lines[i] == LineOf(counters, products, keys[i])
  }

  /** The products whose installment falls into the line's bucket. */
  function HitsOf(line: Line, products: map<int, int>): int {
    var k := line.rangeStart / BUCKET_SIZE;
    if k in products then products[k] else 0
  }

  lemma LineCounts(counters: map<int, RangeCounter>, products: map<int, int>, k: int, orders: seq<Order>)
    requires Ranges(counters, orders, BucketOf)
    ensures CountsItsBucket(LineOf(counters, products, k), orders)
  {
    assert k * BUCKET_SIZE / BUCKET_SIZE == k && k * BUCKET_SIZE % BUCKET_SIZE == 0;
    forall part ensures Of(Found(counters, k), part) == Weigh(orders, BucketOf, Weight(part), k) {
      if k !in counters { Unlabelled(orders, BucketOf, Weight(part), k); }
    }
  }

  lemma OrderHasLine(lines: seq<Line>, counters: map<int, RangeCounter>, products: map<int, int>, keys: seq<int>, o: Order)
    requires LinesOf(lines, counters, products, keys) && BucketOf(o) in Elements(keys)
    ensures HasLine(lines, o)
  {
    var i :| 0 <= i < |keys| && keys[i] == BucketOf(o);
    AmountInRange(o.installment);
    assert lines[i] == LineOf(counters, products, keys[i]);
  }

  lemma LinesApart(lines: seq<Line>, counters: map<int, RangeCounter>, products: map<int, int>, keys: seq<int>)
    requires LinesOf(lines, counters, products, keys) && Distinct(keys)
    ensures RangesApart(lines)
  {
  }

  /**
   A line per bucket of orders or products: it counts the orders of its own range, every order has its
   line, and no decisions exceed their total. Installment series and down-payment ranges tell the same
   orders: each part, total, approvals and rejections, adds up to the same number in both.
   */
  method Build(orders: seq<Order>, products: map<int, int>) returns (lines: seq<Line>, ranges: map<int, RangeCounter>)
    ensures forall i | 0 <= i < |lines| :: CountsItsBucket(lines[i], orders) && CountsItsOrders(lines[i], orders)
    ensures forall i | 0 <= i < |lines| :: lines[i].productHit == HitsOf(lines[i], products) && WithinItsTotal(lines[i])
    ensures RangesApart(lines) && forall o | o in orders :: HasLine(lines, o)
    ensures Ranges(ranges, orders, RangeOf) && ranges.Keys == DP_RANGES
    ensures Agree(lines, ranges, orders) && LineSum(lines, All) == |orders|
  {
    var buckets;
    buckets, ranges := CountOrders(orders);
    var keys := BucketKeys(buckets.Keys, products.Keys);
    lines := InstallmentSeries(buckets, products, keys);
    BothConserve(buckets, ranges, orders, Elements(keys), lines);
    LinesApart(lines, buckets, products, keys);
    LinesCount(lines, buckets, products, keys, orders);
    AllHaveLines(lines, buckets, products, keys, orders);
  }

  /** What is true of every line. */
  predicate WithinItsTotal(line: Line) {
    0 <= line.counter.approve + line.counter.reject <= line.counter.total
  }

  lemma LineTells(buckets: map<int, RangeCounter>, products: map<int, int>, k: int, orders: seq<Order>)
    requires Ranges(buckets, orders, BucketOf)
    ensures var line := LineOf(buckets, products, k);
            CountsItsBucket(line, orders) && CountsItsOrders(line, orders) && line.productHit == HitsOf(line, products) && WithinItsTotal(line)
  {
    LineCounts(buckets, products, k, orders);
    LineCountsOrders(LineOf(buckets, products, k), orders);
    WithinTotal(buckets, orders, k);
    assert k * BUCKET_SIZE / BUCKET_SIZE == k;
  }

  lemma LinesCount(lines: seq<Line>, buckets: map<int, RangeCounter>, products: map<int, int>, keys: seq<int>, orders: seq<Order>)
    requires Ranges(buckets, orders, BucketOf) && LinesOf(lines, buckets, products, keys)
    ensures forall i | 0 <= i < |lines| :: CountsItsBucket(lines[i], orders) && CountsItsOrders(lines[i], orders)
    ensures forall i | 0 <= i < |lines| :: lines[i].productHit == HitsOf(lines[i], products) && WithinItsTotal(lines[i])
  {
    forall i | 0 <= i < |lines|
      ensures CountsItsBucket(lines[i], orders) && CountsItsOrders(lines[i], orders)
      ensures lines[i].productHit == HitsOf(lines[i], products) && WithinItsTotal(lines[i])
    {
      LineTells(buckets, products, keys[i], orders);
    }
  }

  lemma AllHaveLines(lines: seq<Line>, buckets: map<int, RangeCounter>, products: map<int, int>, keys: seq<int>, orders: seq<Order>)
    requires LinesOf(lines, buckets, products, keys) && Labels(orders, BucketOf) <= Elements(keys)
    ensures forall o | o in orders :: HasLine(lines, o)
  {
    forall o | o in orders ensures HasLine(lines, o) {
      BucketListed(orders, o);
      OrderHasLine(lines, buckets, products, keys, o);
    }
  }

  lemma BucketListed(orders: seq<Order>, o: Order)
    requires o in orders
    ensures BucketOf(o) in Labels(orders, BucketOf)
  {
  }
}
