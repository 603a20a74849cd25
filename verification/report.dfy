/** The migration report: which orders it lists, and how its grouped form adds up. */
module MigrationReport {
  import opened Text
  import opened Orders
  import opened OrderRuns
  import opened Finite

  // ---------------------------------------------------------------- the joins

  predicate Newer(a: Attempt, b: Attempt) {
    a.createdAt > b.createdAt || (a.createdAt == b.createdAt && a.id > b.id)
  }

  /** The newest attempt with this number: ordered by creation and identifier, limited to one row. */
  function Latest(atts: seq<Attempt>, no: int): (r: Option<Attempt>)
    ensures r.Some? <==> HasAttempt(atts, no)
    ensures r.Some? ==> r.value in atts && r.value.no == no
                        && forall a | a in atts && a.no == no ::
                             a.createdAt < r.value.createdAt || (a.createdAt == r.value.createdAt && a.id <= r.value.id)
  {
    if atts == [] then None
    else
      var rest := Latest(atts[1..], no);
      if atts[0].no != no then rest
      else if rest.None? || Newer(atts[0], rest.value) then Some(atts[0])
      else rest
  }

  predicate Earlier(db: Db, a: Id, b: Id)
    requires a in db.orders && b in db.orders
  {
    db.orders[a].createdAt < db.orders[b].createdAt
    || (db.orders[a].createdAt == db.orders[b].createdAt && a < b)
  }

  /** Another live order with the same pooling number and dealer. */
  predicate Peers(db: Db, a: Id, b: Id) {
    Live(db, a) && Live(db, b) && a != b
    && db.orders[a].pooling == db.orders[b].pooling && db.orders[a].dealer == db.orders[b].dealer
  }

  ghost predicate IsFirstPeer(db: Db, id: Id, p: Id) {
    Peers(db, id, p) && forall q | Peers(db, id, q) && q != p :: Earlier(db, p, q)
  }

  ghost function FirstPeer(db: Db, id: Id): Option<Id> {
    if p: Id :| IsFirstPeer(db, id, p) then Some(p) else None
  }

  /** The second finance company: of the order's own second attempt, else of the first peer's first attempt. */
  ghost function Finance2(db: Db, id: Id): Option<Attempt>
    requires db.orders.Keys == db.attempts.Keys && id in db.orders
  {
    var a2 := Latest(db.attempts[id], 2);
    if a2.Some? then a2
    else var p := FirstPeer(db, id);
         if p.Some? then Latest(db.attempts[p.value], 1) else None
  }

  /** The rows of the base query, before its optional filters. */
  ghost predicate Listed(db: Db, id: Id)
    requires db.orders.Keys == db.attempts.Keys
  {
    Live(db, id)
    && (var a1 := Latest(db.attempts[id], 1); a1.Some? && Rejected(a1.value.status))
    && Finance2(db, id).Some?
    && (forall q | Peers(db, q, id) :: !Earlier(db, q, id))
  }

  ghost function ListedFor(db: Db, pooling: string, dealer: string): set<Id>
    requires db.orders.Keys == db.attempts.Keys
  {
    set id | id in db.orders && Listed(db, id) && db.orders[id].pooling == pooling && db.orders[id].dealer == dealer
  }

  /** The limit of the peer join is met whenever there is a peer at all. */
  lemma FirstPeerExists(db: Db, id: Id, p: Id)
    requires Peers(db, id, p)
    ensures FirstPeer(db, id).Some? && IsFirstPeer(db, id, FirstPeer(db, id).value)
  {
    var peers := set q | q in db.orders && Peers(db, id, q);
    var before := (a: Id, b: Id) => a in db.orders && b in db.orders && Earlier(db, a, b);
    assert p in peers;
    var first := FirstExists<Id>(peers, before);
    forall q | Peers(db, id, q) && q != first ensures Earlier(db, first, q) {
      assert q in peers;
    }
    assert IsFirstPeer(db, id, first);
  }

  /** At most one row for each pooling number and dealer. */
  lemma OneRowPerPoolingAndDealer(db: Db, a: Id, b: Id)
    requires db.orders.Keys == db.attempts.Keys
    requires Listed(db, a) && Listed(db, b)
    requires db.orders[a].pooling == db.orders[b].pooling && db.orders[a].dealer == db.orders[b].dealer
    ensures a == b
  {
    assert a != b ==> Peers(db, a, b) && Peers(db, b, a);
  }

  // ---------------------------------------------------------------- what Create writes, the report reads

  predicate StampedFirst(drawn: Drawn) {
    drawn.orderAt < drawn.cloneAt || (drawn.orderAt == drawn.cloneAt && drawn.order < drawn.clone)
  }

  function CopyStatus(req: CreateRequest): string {
    if Blank(req.status2) then "reject" else Lower(Trim(req.status2))
  }

  lemma RejectIsClean(status: string)
    requires Rejected(status)
    ensures Trim(Lower(status)) == "reject" && TrimRejected(Lower(status))
  {
    TrimOfClean("reject");
    LowerIdempotent(status);
  }

  lemma CopyStatusIs(o: Order, req: CreateRequest)
    requires o.status == Lower(req.status) && Rejected(req.status)
    ensures CloneStatus(o, CloneResult(o.status, o.notes, req.status2, req.notes2).0) == CopyStatus(req)
  {
    RejectIsClean(req.status);
    TrimOfClean("reject");
    if !Blank(req.status2) {
      TrimLowerCommute(Trim(req.status2));
      TrimIdempotent(req.status2);
      LowerIdempotent(Trim(req.status2));
    }
  }

  function CopyNotes(o: Order, req: CreateRequest): string {
    CloneResult(o.status, o.notes, req.status2, req.notes2).1
  }

  ghost function PairTables(db: Db, o: Order, req: CreateRequest, drawn: Drawn): Db {
    Db(db.orders[drawn.order := o][drawn.clone := Copy(o, CopyStatus(req), CopyNotes(o, req), drawn.cloneAt)],
       db.attempts[drawn.order := FirstAttempts(req, drawn)]
         [drawn.clone := CloneAttempts(CopyStatus(req), CopyNotes(o, req), req.company2, drawn)])
  }

  /** The two rows that a rejecting Create leaves on a pooling number nobody uses. */
  lemma RejectedPair(db: Db, o: Order, req: CreateRequest, drawn: Drawn)
    requires NewIds(db, drawn) && LiveIds(db.orders, o.pooling) == {}
    requires o.status == Lower(req.status) && Rejected(req.status)
    ensures AfterCreate(db, o, req, drawn) == PairTables(db, o, req, drawn)
  {
    RejectIsClean(req.status);
    CopyStatusIs(o, req);
    var orders1 := db.orders[drawn.order := o];
    LiveAfterWrite(db.orders, drawn.order, o, o.pooling);
    SubsetSize(LiveIds(orders1, o.pooling), {drawn.order});
  }

  /** The report on a pooling number whose live orders are two, of one dealer, the first created before the second. */
  lemma PairReport(db: Db, a: Id, b: Id, pooling: string, dealer: string)
    requires db.orders.Keys == db.attempts.Keys
    requires a != b && LiveIds(db.orders, pooling) == {a, b}
    requires db.orders[a].dealer == dealer == db.orders[b].dealer && Earlier(db, a, b)
    ensures Finance2(db, a) == if HasAttempt(db.attempts[a], 2) then Latest(db.attempts[a], 2) else Latest(db.attempts[b], 1)
    ensures ListedFor(db, pooling, dealer)
         == if Latest(db.attempts[a], 1).Some? && Rejected(Latest(db.attempts[a], 1).value.status) && Finance2(db, a).Some?
            then {a} else {}
  {
    assert a in LiveIds(db.orders, pooling) && b in LiveIds(db.orders, pooling);
    assert Peers(db, a, b) && Peers(db, b, a);
    forall q ensures Peers(db, a, q) <==> q == b {
      assert Peers(db, a, q) ==> q in LiveIds(db.orders, pooling);
    }
    FirstPeerExists(db, a, b);
    forall id ensures id in ListedFor(db, pooling, dealer) ==> id == a {
      assert id in ListedFor(db, pooling, dealer) ==> id in LiveIds(db.orders, pooling);
    }
    forall q | Peers(db, q, a) ensures !Earlier(db, q, a) {
      assert Peers(db, a, q);
    }
  }

  /** An order without a peer is listed when it was rejected first and has a second attempt of its own. */
  lemma AloneReport(db: Db, id: Id)
    requires db.orders.Keys == db.attempts.Keys && id in db.orders && forall q :: !Peers(db, id, q)
    ensures Listed(db, id) <==> !db.orders[id].deleted && HasAttempt(db.attempts[id], 2)
                                && Latest(db.attempts[id], 1).Some? && Lower(Latest(db.attempts[id], 1).value.status) == "reject"
    ensures Listed(db, id) ==> Finance2(db, id) == Latest(db.attempts[id], 2)
  {
    forall q | Peers(db, q, id) ensures Peers(db, id, q) {}
    forall p ensures !IsFirstPeer(db, id, p) {}
  }

  lemma PairLive(db: Db, o: Order, copy: Order, drawn: Drawn)
    requires NewIds(db, drawn) && LiveIds(db.orders, o.pooling) == {}
    requires !o.deleted && !copy.deleted && copy.pooling == o.pooling
    ensures LiveIds(db.orders[drawn.order := o][drawn.clone := copy], o.pooling) == {drawn.order, drawn.clone}
  {
    LiveAfterWrite(db.orders, drawn.order, o, o.pooling);
    LiveAfterWrite(db.orders[drawn.order := o], drawn.clone, copy, o.pooling);
  }

  lemma ReadPair(db1: Db, o: Order, req: CreateRequest, drawn: Drawn)
    requires db1.orders.Keys == db1.attempts.Keys && drawn.order != drawn.clone
    requires LiveIds(db1.orders, o.pooling) == {drawn.order, drawn.clone}
    requires drawn.order in db1.orders && db1.orders[drawn.order] == o && o.createdAt == drawn.orderAt
    requires drawn.clone in db1.orders && db1.orders[drawn.clone] == Copy(o, CopyStatus(req), CopyNotes(o, req), drawn.cloneAt)
    requires db1.attempts[drawn.order] == FirstAttempts(req, drawn)
    requires db1.attempts[drawn.clone] == CloneAttempts(CopyStatus(req), CopyNotes(o, req), req.company2, drawn)
    requires Rejected(req.status) && !Blank(req.company2)
    ensures StampedFirst(drawn) ==>
              ListedFor(db1, o.pooling, o.dealer) == {drawn.order} && Finance2(db1, drawn.order).Some?
              && Finance2(db1, drawn.order).value.company == if req.status2 != "" then req.company2 else Trim(req.company2)
    ensures !StampedFirst(drawn) ==>
              ListedFor(db1, o.pooling, o.dealer) == if CopyStatus(req) == "reject" then {drawn.clone} else {}
  {
    LowerIdempotent(req.status);
    LowerIdempotent(Trim(req.status2));
    var own, cloned := FirstAttempts(req, drawn), CloneAttempts(CopyStatus(req), CopyNotes(o, req), req.company2, drawn);
    assert own[0].no == 1 && own[0] in own;
    assert cloned == [cloned[0]] && cloned[0].no == 1;
    assert req.company2 != "";
    if req.status2 != "" { assert own[1].no == 2; }
    if StampedFirst(drawn) {
      PairReport(db1, drawn.order, drawn.clone, o.pooling, o.dealer);
    } else {
      PairReport(db1, drawn.clone, drawn.order, o.pooling, o.dealer);
    }
  }

  /**
   A rejecting Create with a second finance company, on a pooling number with no live order, leaves
   exactly one report row for it: the original, showing the requested company, whether that is read
   from its second attempt or from the copy's first. This needs the original to be stamped first; on
   equal clock readings the smaller identifier wins, and then the copy takes the row or there is none.
   */
  lemma RejectedCreateIsReported(db: Db, env: Env, scope: Scope, req: CreateRequest, drawn: Drawn)
    requires db.orders.Keys == db.attempts.Keys && NewIds(db, drawn) && LiveIds(db.orders, req.pooling) == {}
    requires Rejected(req.status) && !Blank(req.company2)
    requires NewOrder(env, scope, req, drawn.orderAt).Ok?
    ensures var (db1, r) := Create(db, env, scope, req, drawn);
            && r.Ok? && db1.orders.Keys == db1.attempts.Keys && drawn.order in db1.orders
            && (ListedFor(db1, req.pooling, r.value.dealer) == {drawn.order} <==> StampedFirst(drawn))
            && (StampedFirst(drawn) ==>
                  Finance2(db1, drawn.order).Some?
                  && Finance2(db1, drawn.order).value.company == if req.status2 != "" then req.company2 else Trim(req.company2))
            && (!StampedFirst(drawn) ==>
                  ListedFor(db1, req.pooling, r.value.dealer) == if CopyStatus(req) == "reject" then {drawn.clone} else {})
  {
    var o := NewOrder(env, scope, req, drawn.orderAt).value;
    NewOrderFacts(env, scope, req, drawn.orderAt, o);
    RejectedPair(db, o, req, drawn);
    PairLive(db, o, Copy(o, CopyStatus(req), CopyNotes(o, req), drawn.cloneAt), drawn);
    ReadPair(AfterCreate(db, o, req, drawn), o, req, drawn);
  }
}
