/** The migration report grouped by second finance company: window counts over rank-one rows. */
module ReportGroups {
  import opened Text
  import opened Orders
  import opened Finite
  import opened MigrationReport
  import opened OrderRuns

  datatype Row = Row(id: Id, company: string, status: string, decidedAt: int, createdAt: int)

  predicate Approved(r: Row) {
    r.status in {"approve", "approved", "success"}
  }

  predicate Refused(r: Row) {
    r.status in {"reject", "rejected", "error"}
  }

  ghost const ANY: Row -> bool := r => true
  ghost const APPROVED: Row -> bool := r => Approved(r)
  ghost const REFUSED: Row -> bool := r => Refused(r)

  /** The rank order within a company: latest decision, then latest creation, then largest identifier. */
  predicate Ranked(r: Row, s: Row) {
    r.decidedAt > s.decidedAt
    || (r.decidedAt == s.decidedAt && (r.createdAt > s.createdAt || (r.createdAt == s.createdAt && r.id > s.id)))
  }

  ghost function Group(rows: set<Row>, company: string): set<Row> {
    set r | r in rows && r.company == company
  }

  /** The rows that get row number one in their company's partition. */
  ghost function RankOne(rows: set<Row>): set<Row> {
    set r | r in rows && forall s | s in Group(rows, r.company) :: s == r || Ranked(r, s)
  }

  ghost function Those(rows: set<Row>, wanted: Row -> bool): set<Row> {
    set s | s in rows && wanted(s)
  }

  ghost function Matching(rows: set<Row>, company: string, wanted: Row -> bool): set<Row> {
    set s | s in rows && s.company == company && wanted(s)
  }

  /** A windowed count: how many rows of this row's company satisfy the condition. */
  ghost function Windowed(rows: set<Row>, wanted: Row -> bool): Row -> int {
    (r: Row) => |Matching(rows, r.company, wanted)|
  }

  ghost predicate DistinctIds(rows: set<Row>) {
    forall r, s | r in rows && s in rows && r.id == s.id :: r == s
  }

  ghost function Covered(heads: set<Row>, rows: set<Row>, wanted: Row -> bool): set<Row> {
    set s | s in rows && wanted(s) && (exists r | r in heads :: r.company == s.company)
  }

  lemma {:induction false} SumOverCompanies(heads: set<Row>, rows: set<Row>, wanted: Row -> bool)
    requires forall r, s | r in heads && s in heads && r.company == s.company :: r == s
    ensures Sum(heads, Windowed(rows, wanted))
         == |Covered(heads, rows, wanted)|
  {
    if heads == {} {
      assert Covered(heads, rows, wanted) == {};
    } else {
      var h := Pick(heads);
      SumOverCompanies(heads - {h}, rows, wanted);
      var mine, theirs := Matching(rows, h.company, wanted), Covered(heads - {h}, rows, wanted);
      assert Covered(heads, rows, wanted) == mine + theirs && mine !! theirs;
      assert Windowed(rows, wanted)(h) == |mine|;
    }
  }

  lemma RankOneCovers(rows: set<Row>, s: Row)
    requires DistinctIds(rows) && s in rows
    ensures exists r | r in RankOne(rows) :: r.company == s.company
  {
    var g := Group(rows, s.company);
    assert s in g;
    var first := FirstExists(g, (a: Row, b: Row) => Ranked(a, b));
    assert Group(rows, first.company) == g;
    assert first in RankOne(rows);
  }

  lemma OneHead(rows: set<Row>, r: Row, s: Row)
    requires r in RankOne(rows) && s in RankOne(rows) && r.company == s.company
    ensures r == s
  {
    assert r in Group(rows, s.company) && s in Group(rows, r.company);
  }

  /** Every company with rows has exactly one rank-one row. */
  lemma HeadsPerCompany(rows: set<Row>, c: string)
    requires DistinctIds(rows)
    ensures |set r | r in RankOne(rows) && r.company == c| == if Group(rows, c) == {} then 0 else 1
  {
    var heads := set r | r in RankOne(rows) && r.company == c;
    if s :| s in Group(rows, c) {
      RankOneCovers(rows, s);
      var h :| h in RankOne(rows) && h.company == c;
      forall r | r in heads ensures r == h { OneHead(rows, r, h); }
      assert h in heads && heads == {h};
    } else {
      assert forall r | r in heads :: r in Group(rows, c);
      assert heads == {};
    }
  }

  /** Summed over the rank-one rows, a windowed count is the count over all rows: none lost, none twice. */
  lemma GroupsConserve(rows: set<Row>, wanted: Row -> bool)
    requires DistinctIds(rows)
    ensures Sum(RankOne(rows), Windowed(rows, wanted)) == |Those(rows, wanted)|
  {
    forall r, s | r in RankOne(rows) && s in RankOne(rows) && r.company == s.company ensures r == s { OneHead(rows, r, s); }
    SumOverCompanies(RankOne(rows), rows, wanted);
    forall s | s in rows ensures exists r | r in RankOne(rows) :: r.company == s.company { RankOneCovers(rows, s); }
    assert Covered(RankOne(rows), rows, wanted) == Those(rows, wanted);
  }

  // ---------------------------------------------------------------- rows of the tables

  function FirstNonEmpty(a: string, b: string): string {
    if a != "" then a else b
  }

  /** The displayed status of the second company: its attempt's, the peer's attempt's, the peer's own, or a dash. */
  ghost function Status2(db: Db, id: Id): string
    requires db.orders.Keys == db.attempts.Keys && id in db.orders
  {
    var a2, p := Latest(db.attempts[id], 2), FirstPeer(db, id);
    var own := if a2.Some? then Lower(a2.value.status) else "";
    var peer := if p.Some? && p.value in db.orders && Latest(db.attempts[p.value], 1).Some?
                then Lower(Latest(db.attempts[p.value], 1).value.status) else "";
    var result := if p.Some? && p.value in db.orders then Lower(db.orders[p.value].status) else "";
    FirstNonEmpty(own, FirstNonEmpty(peer, FirstNonEmpty(result, "-")))
  }

  lemma FirstPeerIs(db: Db, id: Id, p: Id)
    requires IsFirstPeer(db, id, p)
    ensures FirstPeer(db, id) == Some(p)
  {
    FirstPeerExists(db, id, p);
    var q := FirstPeer(db, id).value;
    assert Peers(db, id, p) && Peers(db, id, q);
  }

  predicate SaysStatus(a: Option<Attempt>) {
    a.Some? && a.value.status != ""
  }

  /** The order's own second attempt tells the status; failing that the first peer does, by its first attempt or itself. */
  lemma StatusShown(db: Db, id: Id)
    requires db.orders.Keys == db.attempts.Keys && id in db.orders
    ensures SaysStatus(Latest(db.attempts[id], 2)) ==> Status2(db, id) == Lower(Latest(db.attempts[id], 2).value.status)
    ensures !SaysStatus(Latest(db.attempts[id], 2)) ==>
              (forall p | IsFirstPeer(db, id, p) ::
                 Status2(db, id) == if SaysStatus(Latest(db.attempts[p], 1)) then Lower(Latest(db.attempts[p], 1).value.status)
                                    else if db.orders[p].status != "" then Lower(db.orders[p].status) else "-")
              && ((forall p :: !IsFirstPeer(db, id, p)) ==> Status2(db, id) == "-")
  {
    assert Lower("") == "";
    forall p: Id | IsFirstPeer(db, id, p) ensures FirstPeer(db, id) == Some(p) { FirstPeerIs(db, id, p); }
    forall s: string ensures |Lower(s)| == |s| {}
  }

  /** Of a rejecting create with a second company the report shows that company's status, or "reject" if none was given. */
  lemma RejectedCreateShows(db: Db, env: Env, scope: Scope, req: CreateRequest, drawn: Drawn)
    requires db.orders.Keys == db.attempts.Keys && NewIds(db, drawn) && LiveIds(db.orders, req.pooling) == {}
    requires Rejected(req.status) && !Blank(req.company2) && StampedFirst(drawn)
    requires NewOrder(env, scope, req, drawn.orderAt).Ok?
    ensures var db1 := Create(db, env, scope, req, drawn).0;
            db1.orders.Keys == db1.attempts.Keys && drawn.order in db1.orders
            && Status2(db1, drawn.order) == if req.status2 != "" then Lower(req.status2) else "reject"
  {
    var o := NewOrder(env, scope, req, drawn.orderAt).value;
    var copy := Copy(o, CopyStatus(req), CopyNotes(o, req), drawn.cloneAt);
    NewOrderFacts(env, scope, req, drawn.orderAt, o);
    RejectedPair(db, o, req, drawn);
    PairLive(db, o, copy, drawn);
    PairShows(AfterCreate(db, o, req, drawn), o, copy, req, drawn);
  }

  lemma PairShows(db1: Db, o: Order, copy: Order, req: CreateRequest, drawn: Drawn)
    requires db1.orders.Keys == db1.attempts.Keys && drawn.order != drawn.clone && !Blank(req.company2) && Rejected(req.status)
    requires StampedFirst(drawn) && LiveIds(db1.orders, o.pooling) == {drawn.order, drawn.clone}
    requires drawn.order in db1.orders && db1.orders[drawn.order] == o && drawn.clone in db1.orders && db1.orders[drawn.clone] == copy
    requires copy.pooling == o.pooling && copy.dealer == o.dealer && !o.deleted && !copy.deleted
    requires db1.attempts[drawn.order] == FirstAttempts(req, drawn)
    requires db1.attempts[drawn.clone] == CloneAttempts(CopyStatus(req), CopyNotes(o, req), req.company2, drawn)
    ensures Status2(db1, drawn.order) == if req.status2 != "" then Lower(req.status2) else "reject"
  {
    ClonePeers(db1, o, copy, drawn);
    StatusShown(db1, drawn.order);
    OwnSecond(req, drawn);
    CloneFirst(CopyStatus(req), CopyNotes(o, req), req.company2, drawn);
    PlainReject(req);
  }

  lemma CloneFirst(status: string, notes: string, company: string, drawn: Drawn)
    requires !Blank(company)
    ensures var a1 := Latest(CloneAttempts(status, notes, company, drawn), 1); a1.Some? && a1.value.status == status
  {
    var cloned := CloneAttempts(status, notes, company, drawn);
    assert cloned == [cloned[0]] && cloned[0].no == 1;
  }

  lemma PlainReject(req: CreateRequest)
    ensures req.status2 == "" ==> CopyStatus(req) == "reject"
    ensures Lower("reject") == "reject" && Lower(Lower(req.status2)) == Lower(req.status2)
  {
    assert Blank("");
    LowerIdempotent(req.status2);
  }

  lemma ClonePeers(db1: Db, o: Order, copy: Order, drawn: Drawn)
    requires drawn.order != drawn.clone && LiveIds(db1.orders, o.pooling) == {drawn.order, drawn.clone}
    requires drawn.order in db1.orders && db1.orders[drawn.order] == o && drawn.clone in db1.orders && db1.orders[drawn.clone] == copy
    requires copy.pooling == o.pooling && copy.dealer == o.dealer && !o.deleted && !copy.deleted
    ensures IsFirstPeer(db1, drawn.order, drawn.clone)
  {
    forall q | Peers(db1, drawn.order, q) ensures q == drawn.clone { assert q in LiveIds(db1.orders, o.pooling); }
  }

  lemma OwnSecond(req: CreateRequest, drawn: Drawn)
    requires Rejected(req.status) && req.company2 != ""
    ensures var a2 := Latest(FirstAttempts(req, drawn), 2);
            (a2.Some? <==> req.status2 != "") && (a2.Some? ==> a2.value.status == Lower(req.status2) && |a2.value.status| == |req.status2|)
  {
    var own := FirstAttempts(req, drawn);
    assert own[0].no == 1;
    if req.status2 != "" { assert own[1].no == 2; }
  }

  ghost function RowOf(db: Db, id: Id): Row
    requires db.orders.Keys == db.attempts.Keys && id in db.orders && Listed(db, id)
  {
    var second := Finance2(db, id).value;
    Row(id, second.company, Status2(db, id), second.createdAt, db.orders[id].createdAt)
  }

  ghost function ListedIds(db: Db, filter: Id -> bool): set<Id>
    requires db.orders.Keys == db.attempts.Keys
  {
    set id | id in db.orders && Listed(db, id) && filter(id)
  }

  /** The base query under any further filter. */
  ghost function ReportRows(db: Db, filter: Id -> bool): set<Row>
    requires db.orders.Keys == db.attempts.Keys
  {
    Image(ListedIds(db, filter), id requires id in ListedIds(db, filter) => RowOf(db, id))
  }

  datatype Summary = Summary(totalRows: int, totalData: int, approve: int, reject: int)

  ghost function MigrationSummary(rows: set<Row>): Summary {
    Summary(|RankOne(rows)|,
            Sum(RankOne(rows), Windowed(rows, ANY)),
            Sum(RankOne(rows), Windowed(rows, APPROVED)),
            Sum(RankOne(rows), Windowed(rows, REFUSED)))
  }

  ghost function OfStatus(rows: set<Row>, a: string, b: string, c: string): set<Row> {
    set r | r in rows && (r.status == a || r.status == b || r.status == c)
  }

  lemma DecidedRows(rows: set<Row>)
    ensures Those(rows, APPROVED) == OfStatus(rows, "approve", "approved", "success")
    ensures Those(rows, REFUSED) == OfStatus(rows, "reject", "rejected", "error")
  {
  }

  /** The summary of any rows counts each once, and approvals and refusals never exceed the total. */
  lemma SummaryConserves(rows: set<Row>)
    requires DistinctIds(rows)
    ensures var s := MigrationSummary(rows);
            s.totalData == |rows|
            && s.approve == |OfStatus(rows, "approve", "approved", "success")| && s.reject == |OfStatus(rows, "reject", "rejected", "error")|
            && s.approve + s.reject <= s.totalData
  {
    GroupsConserve(rows, ANY);
    GroupsConserve(rows, APPROVED);
    GroupsConserve(rows, REFUSED);
    assert Those(rows, ANY) == rows;
    assert Those(rows, APPROVED) !! Those(rows, REFUSED);
    DecidedRows(rows);
    SubsetSize(Those(rows, APPROVED) + Those(rows, REFUSED), rows);
  }

  /** On the tables: the grouped total is the number of listed orders, whatever the filter. */
  lemma ReportSummaryConserves(db: Db, filter: Id -> bool)
    requires db.orders.Keys == db.attempts.Keys
    ensures DistinctIds(ReportRows(db, filter))
    ensures MigrationSummary(ReportRows(db, filter)).totalData == |ListedIds(db, filter)|
  {
    ImageSize(ListedIds(db, filter), id requires id in ListedIds(db, filter) => RowOf(db, id));
    SummaryConserves(ReportRows(db, filter));
  }
}
