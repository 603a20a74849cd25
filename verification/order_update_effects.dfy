/**
 What an update does, told of the request and the tables before: when it is accepted, why it is refused,
 what every field of the row and of its attempts is afterwards, and what the copy is made of.
 */
module UpdateEffects {
  import opened Text
  import opened Orders
  import opened OrderRuns
  import opened OrderEffects

  // ---------------------------------------------------------------- the row

  /** A field is what was asked for, where something was. */
  predicate Takes<T(==)>(asked: Option<T>, before: T, after: T) {
    match asked
    case Some(v) => after == v
    case None => after == before
  }

  /** So is a reference, where a blank one asks for nothing. */
  predicate TakesId(asked: Option<string>, before: string, after: string) {
    if asked.Some? && !Blank(asked.value) then after == Trim(asked.value) else after == before
  }

  predicate Names(asked: Option<string>) {
    asked.Some? && !Blank(asked.value)
  }

  predicate BadId(env: Env, asked: Option<string>) {
    Names(asked) && !env.isUuid(Trim(asked.value))
  }

  predicate IdsRead(env: Env, req: UpdateRequest) {
    !BadId(env, req.dealer) && !BadId(env, req.company) && !BadId(env, req.job) && !BadId(env, req.motor) && !BadId(env, req.company2)
    && (req.dealer.Some? ==> Names(req.dealer)) && (req.company.Some? ==> Names(req.company))
  }

  function Asked(asked: Option<string>, before: string): string {
    if Names(asked) then Trim(asked.value) else before
  }

  /** Motor and dealer as they would be, when there is a motor, are in the catalogue and fit each other. */
  predicate CatalogueFits(env: Env, motor: string, dealer: string) {
    motor != "" ==> motor in env.motors && dealer in env.dealers && !AreaClash(env.motors[motor], env.dealers[dealer])
  }

  /** The fields of the request can all be taken by this row. */
  predicate Changeable(env: Env, req: UpdateRequest, o: Order) {
    req.poolingAt != Malformed && req.resultAt != Malformed
    && (req.province.Some? ==> !Blank(req.province.value))
    && (req.installment.Some? ==> req.installment.value >= 0.0)
    && (Names(req.motor) ==> Trim(req.motor.value) in env.motors)
    && CatalogueFits(env, Asked(req.motor, o.motor), Asked(req.dealer, o.dealer))
  }

  ghost predicate Updatable(db: Db, env: Env, scope: Scope, id: Id, req: UpdateRequest) {
    IdsRead(env, req) && id in db.orders && !db.orders[id].deleted && Permitted(scope, db.orders[id], "orders:update_all")
    && Changeable(env, req, db.orders[id])
  }

  /** A reason that holds for not changing the row. */
  ghost predicate NotUpdatable(db: Db, env: Env, scope: Scope, id: Id, req: UpdateRequest, e: Error) {
    match e
    case BadId => BadId(env, req.dealer) || BadId(env, req.company) || BadId(env, req.job) || BadId(env, req.motor) || BadId(env, req.company2)
    case EmptyId => (req.dealer.Some? && Blank(req.dealer.value)) || (req.company.Some? && Blank(req.company.value))
    case NotFound => id !in db.orders || db.orders[id].deleted
    case NotAllowed => id in db.orders && !Permitted(scope, db.orders[id], "orders:update_all")
    case _ => id in db.orders && NotChangeable(env, req, db.orders[id], e)
  }

  predicate NotChangeable(env: Env, req: UpdateRequest, o: Order, e: Error) {
    var motor, dealer := Asked(req.motor, o.motor), Asked(req.dealer, o.dealer);
    match e
    case BadTime => req.poolingAt == Malformed || req.resultAt == Malformed
    case ProvinceRequired => req.province.Some? && Blank(req.province.value)
    case MotorNotFound => motor !in env.motors
    case DealerNotFound => dealer !in env.dealers
    case AreaMismatch => motor in env.motors && dealer in env.dealers && AreaClash(env.motors[motor], env.dealers[dealer])
    case NegativeInstallment => req.installment.Some? && req.installment.value < 0.0
    case _ => false
  }

  /** The price after an update: the new motor's, or the old one, or for want of it the catalogue's. */
  predicate RepricedAs(env: Env, req: UpdateRequest, o: Order, o': Order) {
    if Names(req.motor) then o'.motor in env.motors && o'.otr == env.motors[o'.motor].otr
    else if o.otr <= 0.0 && o.motor != "" then o.motor in env.motors && o'.otr == env.motors[o.motor].otr
    else o'.otr == o.otr
  }

  /** The percentage is that of the price the row had or the new motor has; without one it stays. */
  predicate PercentAs(req: UpdateRequest, o: Order, o': Order) {
    if Names(req.motor) || o.otr > 0.0
    then (if o'.otr > 0.0 then o'.dpPct * o'.otr == o'.dpPaid * 100.0 else o'.dpPct == o.dpPct)
    else o'.dpPct == o.dpPct
  }

  predicate PlainTaken(req: UpdateRequest, o: Order, o': Order) {
    Takes(req.pooling, o.pooling, o'.pooling) && TakesId(req.dealer, o.dealer, o'.dealer) && TakesId(req.job, o.job, o'.job)
    && Takes(req.consumerName, o.consumerName, o'.consumerName) && Takes(req.consumerPhone, o.consumerPhone, o'.consumerPhone)
    && Takes(req.regency, o.regency, o'.regency) && Takes(req.district, o.district, o'.district)
    && Takes(req.village, o.village, o'.village) && Takes(req.address, o.address, o'.address)
    && Takes(req.dpGross, o.dpGross, o'.dpGross) && Takes(req.tenor, o.tenor, o'.tenor)
    && o'.status == (if req.status.Some? then Lower(req.status.value) else o.status)
    && Takes(req.notes, o.notes, o'.notes)
  }

  /** A time that is blank or zero leaves the time of pooling, and clears that of the result. */
  predicate TimesTaken(req: UpdateRequest, o: Order, o': Order) {
    o'.poolingAt == (if req.poolingAt.At? && req.poolingAt.t != ZERO_TIME then req.poolingAt.t else o.poolingAt)
    && o'.resultAt == (match req.resultAt case Absent => o.resultAt case At(t) => if t != ZERO_TIME then Some(t) else None case _ => None)
  }

  predicate PaymentTaken(env: Env, req: UpdateRequest, o: Order, o': Order) {
    TakesId(req.motor, o.motor, o'.motor) && Takes(req.installment, o.installment, o'.installment)
    && Takes(req.dpPaid, o.dpPaid, o'.dpPaid) && RepricedAs(env, req, o, o') && PercentAs(req, o, o')
  }

  /** Every field of the row after an update: the request's where it gives one, else the old one. */
  predicate UpdatedRow(env: Env, req: UpdateRequest, o: Order, o': Order) {
    PlainTaken(req, o, o') && TimesTaken(req, o, o') && PaymentTaken(env, req, o, o')
    && o'.province == (if req.province.Some? then Trim(req.province.value) else o.province)
    && o'.createdBy == o.createdBy && o'.createdAt == o.createdAt && o'.deleted == o.deleted
  }

  /** The references of the request as they are read. */
  predicate RefsAre(req: UpdateRequest, refs: Refs) {
    refs.dealer == (if Names(req.dealer) then Some(Trim(req.dealer.value)) else None)
    && refs.company == (if Names(req.company) then Some(Trim(req.company.value)) else None)
    && refs.job == (if Names(req.job) then Some(Trim(req.job.value)) else None)
    && refs.motor == (if Names(req.motor) then Some(Trim(req.motor.value)) else None)
    && refs.company2 == (if Names(req.company2) then Some(Trim(req.company2.value)) else None)
  }

  lemma IdsReadIff(req: UpdateRequest, env: Env)
    ensures var r := ParseRefs(req, env);
            (r.Ok? <==> IdsRead(env, req)) && (r.Ok? ==> RefsAre(req, r.value))
            && (r.Err? ==> match r.error
                           case BadId => BadId(env, req.dealer) || BadId(env, req.company) || BadId(env, req.job) || BadId(env, req.motor) || BadId(env, req.company2)
                           case EmptyId => (req.dealer.Some? && Blank(req.dealer.value)) || (req.company.Some? && Blank(req.company.value))
                           case _ => false)
  {
  }

  // The stages of a change, one at a time: what each refuses and what it leaves.

  lemma PlainStage(o: Order, refs: Refs, req: UpdateRequest)
    requires RefsAre(req, refs)
    ensures var o1 := WithPlainFields(o, refs, req);
            PlainTaken(req, o, o1) && o1.dealer == Asked(req.dealer, o.dealer)
            && o1.poolingAt == o.poolingAt && o1.resultAt == o.resultAt && o1.province == o.province
            && o1.motor == o.motor && o1.otr == o.otr && o1.installment == o.installment && o1.dpPaid == o.dpPaid && o1.dpPct == o.dpPct
            && o1.createdBy == o.createdBy && o1.createdAt == o.createdAt && o1.deleted == o.deleted
  {
  }

  /** The row with its times, if both can be read, and its province, if it is not blank. */
  lemma TimesStage(o1: Order, req: UpdateRequest)
    ensures var r := WithTimes(o1, req);
            (r.Ok? <==> req.poolingAt != Malformed && req.resultAt != Malformed) && (r.Err? ==> r.error == BadTime)
            && (r.Ok? ==> TimesTaken(req, o1, r.value) && r.value == o1.(poolingAt := r.value.poolingAt, resultAt := r.value.resultAt))
  {
  }

  lemma PaymentStage(env: Env, o2: Order, refs: Refs, req: UpdateRequest)
    requires RefsAre(req, refs)
    ensures var r := WithPayment(env, o2, refs, req);
            (r.Ok? <==> (Names(req.motor) ==> Trim(req.motor.value) in env.motors) && (req.installment.Some? ==> req.installment.value >= 0.0))
            && (r.Err? ==> NotChangeable(env, req, o2, r.error))
            && (r.Ok? ==> Paid(env, req, o2, r.value))
  {
    var r := WithPayment(env, o2, refs, req);
    if r.Ok? && r.value.otr > 0.0 { PercentOf(r.value.dpPaid, r.value.otr); }
  }

  /** The row with its payment, before the catalogue may fill in a price. */
  predicate Paid(env: Env, req: UpdateRequest, o2: Order, o3: Order) {
    TakesId(req.motor, o2.motor, o3.motor) && Takes(req.installment, o2.installment, o3.installment)
    && Takes(req.dpPaid, o2.dpPaid, o3.dpPaid)
    && (if Names(req.motor) then o3.motor in env.motors && o3.otr == env.motors[o3.motor].otr else o3.otr == o2.otr)
    && (if o3.otr > 0.0 then o3.dpPct * o3.otr == o3.dpPaid * 100.0 else o3.dpPct == o2.dpPct)
    && o3 == o2.(motor := o3.motor, otr := o3.otr, dpPaid := o3.dpPaid, installment := o3.installment, dpPct := o3.dpPct)
  }

  lemma CatalogueStage(env: Env, o3: Order, refs: Refs, req: UpdateRequest)
    requires RefsAre(req, refs)
    ensures var r := WithCatalogue(env, o3, refs);
            (r.Ok? <==> CatalogueFits(env, o3.motor, o3.dealer))
            && (r.Err? ==> match r.error
                           case MotorNotFound => o3.motor !in env.motors
                           case DealerNotFound => o3.dealer !in env.dealers
                           case AreaMismatch => o3.motor in env.motors && o3.dealer in env.dealers && AreaClash(env.motors[o3.motor], env.dealers[o3.dealer])
                           case _ => false)
            && (r.Ok? ==> r.value == o3.(otr := if !Names(req.motor) && o3.otr <= 0.0 && o3.motor != "" then env.motors[o3.motor].otr else o3.otr))
  {
    if o3.motor in env.motors && o3.dealer in env.dealers { AllowedIff(env.motors[o3.motor], env.dealers[o3.dealer]); }
  }

  /** Payment and catalogue together. */
  function PaidAndListed(env: Env, o2: Order, refs: Refs, req: UpdateRequest): Result<Order> {
    var o3 :- WithPayment(env, o2, refs, req);
    WithCatalogue(env, o3, refs)
  }

  lemma LateStages(env: Env, o2: Order, refs: Refs, req: UpdateRequest)
    requires RefsAre(req, refs) && o2.dealer == Asked(req.dealer, o2.dealer)
    ensures var r := PaidAndListed(env, o2, refs, req);
            (r.Ok? <==> (Names(req.motor) ==> Trim(req.motor.value) in env.motors) && (req.installment.Some? ==> req.installment.value >= 0.0)
                        && CatalogueFits(env, Asked(req.motor, o2.motor), o2.dealer))
            && (r.Err? ==> NotChangeable(env, req, o2, r.error))
  {
    PaymentStage(env, o2, refs, req);
    var r := WithPayment(env, o2, refs, req);
    if r.Ok? { CatalogueStage(env, r.value, refs, req); }
  }

  lemma ChangedIff(env: Env, o: Order, refs: Refs, req: UpdateRequest)
    requires RefsAre(req, refs)
    ensures var r := ChangedOrder(env, o, refs, req);
            (r.Ok? <==> Changeable(env, req, o)) && (r.Err? ==> NotChangeable(env, req, o, r.error))
  {
    var o1 := WithPlainFields(o, refs, req);
    PlainStage(o, refs, req);
    TimesStage(o1, req);
    var timed := WithTimes(o1, req);
    if timed.Ok? {
      var placed := WithProvince(timed.value, req);
      if placed.Ok? {
        LateStages(env, placed.value, refs, req);
        assert ChangedOrder(env, o, refs, req) == PaidAndListed(env, placed.value, refs, req);
      }
    }
  }

  lemma RowOfStages(env: Env, req: UpdateRequest, o: Order, o1: Order, o2: Order, o3: Order, o': Order)
    requires PlainTaken(req, o, o1) && TimesTaken(req, o, o2) && Paid(env, req, o2, o3)
    requires o1.motor == o.motor && o1.otr == o.otr && o1.installment == o.installment && o1.dpPaid == o.dpPaid && o1.dpPct == o.dpPct
    requires o1.createdBy == o.createdBy && o1.createdAt == o.createdAt && o1.deleted == o.deleted
    requires o2 == o1.(poolingAt := o2.poolingAt, resultAt := o2.resultAt, province := o2.province)
    requires o2.province == if req.province.Some? then Trim(req.province.value) else o.province
    requires CatalogueFits(env, o3.motor, o3.dealer)
    requires o' == o3.(otr := if !Names(req.motor) && o3.otr <= 0.0 && o3.motor != "" then env.motors[o3.motor].otr else o3.otr)
    ensures UpdatedRow(env, req, o, o')
  {
  }

  lemma ChangedRow(env: Env, o: Order, refs: Refs, req: UpdateRequest, o': Order)
    requires RefsAre(req, refs) && ChangedOrder(env, o, refs, req) == Ok(o')
    ensures UpdatedRow(env, req, o, o')
  {
    var o1 := WithPlainFields(o, refs, req);
    PlainStage(o, refs, req);
    TimesStage(o1, req);
    var o2 := WithProvince(WithTimes(o1, req).value, req).value;
    PaymentStage(env, o2, refs, req);
    var o3 := WithPayment(env, o2, refs, req).value;
    CatalogueStage(env, o3, refs, req);
    RowOfStages(env, req, o, o1, o2, o3, o');
  }

  // ---------------------------------------------------------------- the attempts

  /** What an attempt becomes: the first takes the request's company, status and notes, the second its own. */
  predicate KeptAs(a: Attempt, x: Attempt, rejected: bool, req: UpdateRequest) {
    x.id == a.id && x.no == a.no && x.createdAt == a.createdAt
    && (a.no == 1 || (a.no == 2 && rejected && (req.company2.Some? ==> Names(req.company2))))
    && if a.no == 1
       then TakesId(req.company, a.company, x.company) && Takes(req.notes, a.notes, x.notes)
            && x.status == if req.status.Some? then Lower(req.status.value) else a.status
       else TakesId(req.company2, a.company, x.company) && Takes(req.notes2, a.notes, x.notes)
            && x.status == if req.status2.Some? && req.status2.value != "" then Lower(req.status2.value) else a.status
  }

  /** The second attempt that a rejection with a second company gets, if there was none. */
  ghost predicate AddedAs(atts: seq<Attempt>, x: Attempt, rejected: bool, req: UpdateRequest, drawn: Drawn) {
    rejected && Names(req.company2) && (forall a | a in atts :: a.no != 2)
    && x.id == drawn.attempt2 && x.no == 2 && x.createdAt == drawn.attempt2At && x.company == Trim(req.company2.value)
    && x.status == (if req.status2.Some? then Lower(req.status2.value) else "")
    && Takes(req.notes2, "", x.notes)
  }

  /** The attempts after an update: exactly those kept and the one added. */
  ghost predicate UpdatedAttempts(atts: seq<Attempt>, after: seq<Attempt>, rejected: bool, req: UpdateRequest, drawn: Drawn) {
    Numbered(after)
    && forall x :: x in after <==> (exists a | a in atts :: KeptAs(a, x, rejected, req)) || AddedAs(atts, x, rejected, req, drawn)
  }

  lemma RewriteIff(a: Attempt, x: Attempt, rejected: bool, refs: Refs, req: UpdateRequest)
    requires RefsAre(req, refs) && (a.no == 1 || a.no == 2)
    ensures Rewrite(a, rejected, refs, req) == Some(x) <==> KeptAs(a, x, rejected, req)
  {
  }

  lemma {:induction false} RewrittenIff(atts: seq<Attempt>, x: Attempt, rejected: bool, refs: Refs, req: UpdateRequest)
    ensures x in RewriteAll(atts, rejected, refs, req) <==> exists a | a in atts :: Rewrite(a, rejected, refs, req) == Some(x)
  {
    if atts != [] {
      var init, last := atts[..|atts| - 1], atts[|atts| - 1];
      assert atts == init + [last];
      RewrittenIff(init, x, rejected, refs, req);
    }
  }

  lemma NoSecond(atts: seq<Attempt>)
    ensures HasAttempt(atts, 2) <==> exists a | a in atts :: a.no == 2
  {
    if HasAttempt(atts, 2) { var i :| 0 <= i < |atts| && atts[i].no == 2; assert atts[i] in atts; }
    if a :| a in atts && a.no == 2 { var i :| 0 <= i < |atts| && atts[i] == a; }
  }

  lemma AddedIff(atts: seq<Attempt>, x: Attempt, rejected: bool, refs: Refs, req: UpdateRequest, drawn: Drawn)
    requires RefsAre(req, refs)
    ensures x in AddedAttempts(atts, rejected, refs, req, drawn) <==> AddedAs(atts, x, rejected, req, drawn)
  {
    assert Lower("") == "";
    NoSecond(atts);
  }

  lemma AttemptsUpdated(atts: seq<Attempt>, after: seq<Attempt>, rejected: bool, refs: Refs, req: UpdateRequest, drawn: Drawn)
    requires RefsAre(req, refs) && Numbered(atts) && Numbered(after)
    requires after == RewriteAll(atts, rejected, refs, req) + AddedAttempts(atts, rejected, refs, req, drawn)
    ensures UpdatedAttempts(atts, after, rejected, req, drawn)
  {
    forall x ensures x in after <==> (exists a | a in atts :: KeptAs(a, x, rejected, req)) || AddedAs(atts, x, rejected, req, drawn) {
      RewrittenIff(atts, x, rejected, refs, req);
      AddedIff(atts, x, rejected, refs, req, drawn);
      forall a | a in atts ensures Rewrite(a, rejected, refs, req) == Some(x) <==> KeptAs(a, x, rejected, req) {
        RewriteIff(a, x, rejected, refs, req);
      }
    }
  }

  // ---------------------------------------------------------------- the copy and the tables

  /** A newly rejected order whose pooling number no other live order has is copied. */
  ghost predicate UpdateCopies(db: Db, id: Id, o': Order) {
    id in db.orders && Lower(Trim(o'.status)) == "reject" && Lower(Trim(db.orders[id].status)) != "reject"
    && forall k | k != id :: !IsLiveOn(db.orders, k, o'.pooling)
  }

  /** The stored second attempt, if there is one. */
  ghost predicate SecondIs(atts: seq<Attempt>, second: Option<Attempt>) {
    match second
    case Some(a) => a in atts && a.no == 2
    case None => forall a | a in atts :: a.no != 2
  }

  /** What the request says of the second company, else what is stored of it, else what the order says. */
  function Preferred(asked: Option<string>, stored: Option<string>, own: string): string {
    if Names(asked) then Trim(asked.value) else if Names(stored) then Trim(stored.value) else Trim(own)
  }

  function StatusIn(a: Option<Attempt>): Option<string> {
    if a.Some? then Some(a.value.status) else None
  }

  function NotesIn(a: Option<Attempt>): Option<string> {
    if a.Some? then Some(a.value.notes) else None
  }

  function CompanyMeant(req: UpdateRequest, second: Option<Attempt>): string {
    if Names(req.company2) then req.company2.value else if second.Some? then second.value.company else ""
  }

  ghost predicate UpdateCopy(db: Db, id: Id, o': Order, req: UpdateRequest, copy: Order, atts: seq<Attempt>, drawn: Drawn)
    requires id in db.attempts
  {
    exists second :: SecondIs(db.attempts[id], second) && CopiesAs(second, o', req, copy, atts, drawn)
  }

  /** The copy with its attempt, when this is the stored second attempt. */
  predicate CopiesAs(second: Option<Attempt>, o': Order, req: UpdateRequest, copy: Order, atts: seq<Attempt>, drawn: Drawn) {
    var status := Lower(Preferred(req.status2, StatusIn(second), o'.status));
    var notes := Preferred(req.notes2, NotesIn(second), o'.notes);
    IsCopy(copy, o', status, notes, drawn.cloneAt) && CopyAttempts(atts, CompanyMeant(req, second), status, notes, drawn)
  }

  /** The tables after an accepted update: the row, its attempts, the copy if there is one, and all other rows. */
  ghost predicate UpdateLeaves(db: Db, db': Db, id: Id, o': Order, req: UpdateRequest, drawn: Drawn) {
    id in db.orders && id in db.attempts
    && db'.orders.Keys == db.orders.Keys + (if UpdateCopies(db, id, o') then {drawn.clone} else {})
    && db'.attempts.Keys == db'.orders.Keys
    && KeepsRows(db, db', {id})
    && db'.orders[id] == o' && UpdatedAttempts(db.attempts[id], db'.attempts[id], Lower(o'.status) == "reject", req, drawn)
    && (UpdateCopies(db, id, o') ==> UpdateCopy(db, id, o', req, db'.orders[drawn.clone], db'.attempts[drawn.clone], drawn))
  }

  /** A status that is lower-cased and trimmed and not empty stays as it is. */
  lemma StatusStays(o': Order, status: string)
    ensures Trim(status) != "" ==> CloneStatus(o', Lower(Trim(status))) == Lower(Trim(status))
  {
    TrimmedStatus(status);
    assert |Lower(Trim(status))| == |Trim(status)|;
  }

  lemma PreferredStatus(o': Order, asked: Option<string>, stored: Option<string>, raw: string, notes2: string)
    requires TrimRejected(o'.status) && (asked.Some? ==> Blank(asked.value) || raw == asked.value)
    requires !Names(asked) ==> (if stored.Some? then raw == stored.value else Blank(raw))
    ensures CloneStatus(o', CloneResult(o'.status, o'.notes, raw, notes2).0) == Lower(Preferred(asked, stored, o'.status))
  {
    StatusStays(o', raw);
    StatusStays(o', o'.status);
    assert Lower(Trim(o'.status)) == "reject" && Trim(o'.status) != "";
  }

  lemma PreferredNotes(o': Order, asked: Option<string>, stored: Option<string>, raw: string, status2: string)
    requires asked.Some? ==> Blank(asked.value) || raw == asked.value
    requires !Names(asked) ==> (if stored.Some? then raw == stored.value else Blank(raw))
    ensures Trim(CloneResult(o'.status, o'.notes, status2, raw).1) == Preferred(asked, stored, o'.notes)
  {
    TrimIdempotent(raw);
    TrimIdempotent(o'.notes);
  }

  /** The stored second attempt, or that there is none, as the copy's maker finds it. */
  lemma SecondOf(atts: seq<Attempt>) returns (second: Option<Attempt>)
    ensures SecondIs(atts, second) && FindAttempt(atts, 2) == second
  {
    second := FindAttempt(atts, 2);
    NoSecond(atts);
  }

  lemma SecondInTail(atts: seq<Attempt>)
    requires atts != []
    ensures HasAttempt(atts, 2) <==> atts[0].no == 2 || HasAttempt(atts[1..], 2)
  {
    var tail := atts[1..];
    if HasAttempt(atts, 2) && atts[0].no != 2 { var i :| 0 <= i < |atts| && atts[i].no == 2; assert tail[i - 1].no == 2; }
    if HasAttempt(tail, 2) { var i :| 0 <= i < |tail| && tail[i].no == 2; assert atts[i + 1].no == 2; }
  }

  lemma {:induction false} FoundInAppended(atts: seq<Attempt>, added: seq<Attempt>)
    requires forall a | a in added :: a.no == 2
    ensures FindAttempt(atts + added, 2)
         == if HasAttempt(atts, 2) then FindAttempt(atts, 2) else if added != [] then Some(added[0]) else None
  {
    if atts == [] {
      assert atts + added == added;
    } else {
      assert (atts + added)[1..] == atts[1..] + added;
      FoundInAppended(atts[1..], added);
      SecondInTail(atts);
    }
  }

  /** Status or notes of the second company as the copy's maker finds them among the attempts in memory. */
  function RawOf(asked: Option<string>, found: Option<string>): string {
    if Blank(OrElse(asked, "")) && found.Some? then found.value else OrElse(asked, "")
  }

  /** When the second attempt was only just added, it has nothing that the request does not say. */
  lemma AddedSaysNoMore(atts: seq<Attempt>, rejected: bool, refs: Refs, req: UpdateRequest, drawn: Drawn)
    requires !HasAttempt(atts, 2)
    ensures var added := AddedAttempts(atts, rejected, refs, req, drawn);
            added == [] || (refs.company2.Some? && (!Names(req.status2) ==> Blank(added[0].status)) && (!Names(req.notes2) ==> Blank(added[0].notes)))
  {
    TrimLowerCommute(OrElse(req.status2, ""));
    assert Blank("");
  }

  lemma RawStatus(o': Order, asked: Option<string>, stored: Option<string>, found: Option<string>, notes2: string)
    requires TrimRejected(o'.status) && (found == stored || (stored.None? && (!Names(asked) ==> found.Some? && Blank(found.value))))
    ensures CloneStatus(o', CloneResult(o'.status, o'.notes, RawOf(asked, found), notes2).0) == Lower(Preferred(asked, stored, o'.status))
  {
    assert Blank("");
    PreferredStatus(o', asked, stored, RawOf(asked, found), notes2);
  }

  lemma RawNotes(o': Order, asked: Option<string>, stored: Option<string>, found: Option<string>, status2: string)
    requires found == stored || (stored.None? && (!Names(asked) ==> found.Some? && Blank(found.value)))
    ensures Trim(CloneResult(o'.status, o'.notes, status2, RawOf(asked, found)).1) == Preferred(asked, stored, o'.notes)
  {
    assert Blank("");
    PreferredNotes(o', asked, stored, RawOf(asked, found), status2);
  }

  /** What is found in memory is what is stored, or a second attempt just added that says no more than the request. */
  predicate TellsNoMore(second: Option<Attempt>, found: Option<Attempt>, req: UpdateRequest) {
    found == second
    || (second.None? && found.Some? && Names(req.company2) && (!Names(req.status2) ==> Blank(found.value.status))
        && (!Names(req.notes2) ==> Blank(found.value.notes)))
  }

  lemma FoundTells(atts: seq<Attempt>, rejected: bool, refs: Refs, req: UpdateRequest, drawn: Drawn) returns (second: Option<Attempt>)
    requires RefsAre(req, refs)
    ensures SecondIs(atts, second)
    ensures TellsNoMore(second, FindAttempt(atts + AddedAttempts(atts, rejected, refs, req, drawn), 2), req)
  {
    second := SecondOf(atts);
    FoundInAppended(atts, AddedAttempts(atts, rejected, refs, req, drawn));
    if second.None? { AddedSaysNoMore(atts, rejected, refs, req, drawn); }
  }

  function CompanyOf(refs: Refs, found: Option<Attempt>): string {
    if refs.company2.Some? then refs.company2.value else if found.Some? then found.value.company else ""
  }

  lemma CompanyTaken(second: Option<Attempt>, found: Option<Attempt>, refs: Refs, req: UpdateRequest, status: string, notes: string, drawn: Drawn)
    requires RefsAre(req, refs) && TellsNoMore(second, found, req)
    ensures CopyAttempts(CloneAttempts(status, notes, CompanyOf(refs, found), drawn), CompanyMeant(req, second), status, Trim(notes), drawn)
  {
    CopyAttemptsAre(status, notes, CompanyOf(refs, found), drawn);
    if Names(req.company2) { TrimIdempotent(req.company2.value); }
  }

  lemma CopiesFrom(second: Option<Attempt>, found: Option<Attempt>, o': Order, refs: Refs, req: UpdateRequest, drawn: Drawn)
    requires RefsAre(req, refs) && TrimRejected(o'.status) && TellsNoMore(second, found, req)
    ensures var (s, n) := CloneResult(o'.status, o'.notes, RawOf(req.status2, StatusIn(found)), RawOf(req.notes2, NotesIn(found)));
            var status := CloneStatus(o', s);
            CopiesAs(second, o', req, Copy(o', status, n, drawn.cloneAt), CloneAttempts(status, n, CompanyOf(refs, found), drawn), drawn)
  {
    var (s, n) := CloneResult(o'.status, o'.notes, RawOf(req.status2, StatusIn(found)), RawOf(req.notes2, NotesIn(found)));
    var status := CloneStatus(o', s);
    RawStatus(o', req.status2, StatusIn(second), StatusIn(found), RawOf(req.notes2, NotesIn(found)));
    RawNotes(o', req.notes2, NotesIn(second), NotesIn(found), RawOf(req.status2, StatusIn(found)));
    CopyIs(o', status, n, drawn.cloneAt);
    CompanyTaken(second, found, refs, req, status, n, drawn);
  }

  /** The copy that an update makes of a newly rejected order. */
  lemma CopyMadeAs(atts: seq<Attempt>, o': Order, refs: Refs, req: UpdateRequest, drawn: Drawn)
    requires RefsAre(req, refs) && TrimRejected(o'.status)
    ensures var (s, n, company) := CopyOf(o', atts + AddedAttempts(atts, Rejected(o'.status), refs, req, drawn), refs, req);
            var status := CloneStatus(o', s);
            exists second :: SecondIs(atts, second)
              && CopiesAs(second, o', req, Copy(o', status, n, drawn.cloneAt), CloneAttempts(status, n, company, drawn), drawn)
  {
    var second := FoundTells(atts, Rejected(o'.status), refs, req, drawn);
    CopiesFrom(second, FindAttempt(atts + AddedAttempts(atts, Rejected(o'.status), refs, req, drawn), 2), o', refs, req, drawn);
  }

  /** The changed row alone is live on its pooling number, or another one is with it. */
  lemma OthersStay(db: Db, id: Id, o': Order)
    requires !o'.deleted
    ensures |LiveIds(db.orders[id := o'], o'.pooling)| >= 2 <==> exists k | k != id :: IsLiveOn(db.orders, k, o'.pooling)
  {
    var orders' := db.orders[id := o'];
    RoomForCopyIff(orders', id, o'.pooling);
    if k :| k != id && IsLiveOn(db.orders, k, o'.pooling) { assert IsLiveOn(orders', k, o'.pooling); }
    if k :| k != id && IsLiveOn(orders', k, o'.pooling) { assert IsLiveOn(db.orders, k, o'.pooling); }
  }

  lemma OneRewritten(db: Db, id: Id, x: Order, p: seq<Attempt>, db': Db)
    requires db.orders.Keys == db.attempts.Keys && id in db.orders && db' == Db(db.orders[id := x], db.attempts[id := p])
    ensures db'.orders.Keys == db.orders.Keys + {} == db'.attempts.Keys && KeepsRows(db, db', {id})
    ensures db'.orders[id] == x && db'.attempts[id] == p
  {
  }

  lemma RewrittenAndAdded(db: Db, id: Id, x: Order, p: seq<Attempt>, b: Id, y: Order, q: seq<Attempt>, db': Db)
    requires db.orders.Keys == db.attempts.Keys && id in db.orders && b !in db.orders
    requires db' == Db(db.orders[id := x][b := y], db.attempts[id := p][b := q])
    ensures db'.orders.Keys == db.orders.Keys + {b} == db'.attempts.Keys && KeepsRows(db, db', {id})
    ensures db'.orders[id] == x && db'.attempts[id] == p && db'.orders[b] == y && db'.attempts[b] == q
  {
  }

  lemma UpdatedTables(db: Db, id: Id, o': Order, refs: Refs, req: UpdateRequest, drawn: Drawn)
    requires db.orders.Keys == db.attempts.Keys && id in db.orders && drawn.clone !in db.orders && RefsAre(req, refs) && !o'.deleted
    requires UpdatedAttempts(db.attempts[id], AfterSave(db, id, o', refs, req, drawn).attempts[id], Lower(o'.status) == "reject", req, drawn)
    ensures UpdateLeaves(db, AfterUpdate(db, id, o', refs, req, drawn), id, o', req, drawn)
  {
    var saved, after := AfterSave(db, id, o', refs, req, drawn), AfterUpdate(db, id, o', refs, req, drawn);
    OthersStay(db, id, o');
    if UpdateCopies(db, id, o') {
      CopyMadeAs(db.attempts[id], o', refs, req, drawn);
      var (s, n, company) := CopyOf(o', db.attempts[id] + AddedAttempts(db.attempts[id], Rejected(o'.status), refs, req, drawn), refs, req);
      var status := CloneStatus(o', s);
      RewrittenAndAdded(db, id, o', saved.attempts[id], drawn.clone, Copy(o', status, n, drawn.cloneAt),
                        CloneAttempts(status, n, company, drawn), after);
    } else {
      OneRewritten(db, id, o', saved.attempts[id], after);
    }
  }

  function AskedPooling(db: Db, id: Id, req: UpdateRequest): string {
    if req.pooling.Some? then req.pooling.value else if id in db.orders then db.orders[id].pooling else ""
  }

  lemma RequestedIff(db: Db, env: Env, scope: Scope, id: Id, req: UpdateRequest)
    ensures var r := Requested(db, env, scope, id, req);
            (r.Ok? <==> Updatable(db, env, scope, id, req)) && (r.Err? ==> NotUpdatable(db, env, scope, id, req, r.error))
            && (r.Ok? ==> RefsAre(req, r.value.0) && id in db.orders && ChangedOrder(env, db.orders[id], r.value.0, req) == Ok(r.value.1))
  {
    IdsReadIff(req, env);
    if id in db.orders { MayChangeIff(scope, db.orders[id], "orders:update_all"); }
    var refs := ParseRefs(req, env);
    if refs.Ok? && id in db.orders { ChangedIff(env, db.orders[id], refs.value, req); }
  }

  lemma AcceptedUpdate(db: Db, env: Env, id: Id, refs: Refs, o': Order, req: UpdateRequest, drawn: Drawn)
    requires Inv(db) && NewIds(db, drawn) && id in db.orders && !db.orders[id].deleted && RefsAre(req, refs)
    requires ChangedOrder(env, db.orders[id], refs, req) == Ok(o')
    ensures UpdatedRow(env, req, db.orders[id], o') && UpdateLeaves(db, AfterUpdate(db, id, o', refs, req, drawn), id, o', req, drawn)
  {
    ChangedRow(env, db.orders[id], refs, req, o');
    ChangedOrderFacts(env, db.orders[id], refs, req, o');
    UpdatedInStep(db.attempts[id], db.orders[id], o', refs, req, drawn);
    AttemptsUpdated(db.attempts[id], AfterSave(db, id, o', refs, req, drawn).attempts[id], Rejected(o'.status), refs, req, drawn);
    UpdatedTables(db, id, o', refs, req, drawn);
  }

  /** The update of a request that passes the checks before the transaction, or of one that does not. */
  lemma UpdateOf(db: Db, env: Env, scope: Scope, id: Id, req: UpdateRequest, drawn: Drawn)
    requires db.orders.Keys == db.attempts.Keys
    ensures match Requested(db, env, scope, id, req)
            case Err(e) => Update(db, env, scope, id, req, drawn) == (db, Err(e))
            case Ok((refs, o')) =>
              Update(db, env, scope, id, req, drawn)
              == if |LiveIds(db.orders, o'.pooling) - {id}| >= 2 then (db, Err(PoolingFull)) else (AfterUpdate(db, id, o', refs, req, drawn), Ok(o'))
  {
  }

  /** No check before the transaction refuses for want of room. */
  lemma NoRoomIsLate(db: Db, env: Env, scope: Scope, id: Id, req: UpdateRequest, e: Error)
    requires NotUpdatable(db, env, scope, id, req, e)
    ensures e != PoolingFull
  {
  }

  /** An update is accepted when it passes the checks and no two other live orders have the pooling number asked for. */
  lemma UpdateAcceptedIff(db: Db, env: Env, scope: Scope, id: Id, req: UpdateRequest, drawn: Drawn)
    requires Inv(db) && NewIds(db, drawn)
    ensures var (db', r) := Update(db, env, scope, id, req, drawn);
            var full := TwoOthersLive(db.orders, id, AskedPooling(db, id, req));
            (r.Ok? <==> Updatable(db, env, scope, id, req) && !full)
            && (r == Err(PoolingFull) <==> Updatable(db, env, scope, id, req) && full)
            && (r.Err? ==> db' == db && (r.error == PoolingFull || NotUpdatable(db, env, scope, id, req, r.error)))
  {
    RequestedIff(db, env, scope, id, req);
    UpdateOf(db, env, scope, id, req, drawn);
    var requested := Requested(db, env, scope, id, req);
    if requested.Ok? {
      FullOfOthersIff(db.orders, id, AskedPooling(db, id, req));
      ChangedRow(env, db.orders[id], requested.value.0, req, requested.value.1);
    } else {
      NoRoomIsLate(db, env, scope, id, req, requested.error);
    }
  }

  /** And then every field is as asked for, and every row and attempt accounted for. */
  lemma UpdateAcceptedLeaves(db: Db, env: Env, scope: Scope, id: Id, req: UpdateRequest, drawn: Drawn)
    requires Inv(db) && NewIds(db, drawn) && Update(db, env, scope, id, req, drawn).1.Ok?
    ensures var (db', r) := Update(db, env, scope, id, req, drawn);
            id in db.orders && UpdatedRow(env, req, db.orders[id], r.value) && UpdateLeaves(db, db', id, r.value, req, drawn)
  {
    RequestedIff(db, env, scope, id, req);
    UpdateOf(db, env, scope, id, req, drawn);
    var requested := Requested(db, env, scope, id, req);
    AcceptedUpdate(db, env, id, requested.value.0, requested.value.1, req, drawn);
  }
}
