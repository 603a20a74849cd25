/** The net incomes per job and area: no two rows of a job may claim the same area. */
module NetIncomes {
  import opened Text
  import opened Areas

  /** Row and job identifiers are opaque; a text that is no identifier is none. */
  type Id = nat

  datatype Row = Row(job: Id, netIncome: real, areas: Json)

  datatype Request = Request(job: Option<Id>, netIncome: real, areas: seq<Area>)

  datatype Error = NegativeIncome | NoArea | JobNotFound | BadId | BadJobId | NotFound | Overlap | StoreFailed

  datatype Result = Ok(areas: seq<Area>) | Err(error: Error)

  function IdentityKey(a: Area): string {
    Lower(Trim(a.provinceCode)) + "|" + Lower(Trim(a.regencyCode))
  }

  /** The keys that count; an area without codes has the empty key, which does not. */
  function Keys(areas: seq<Area>): set<string> {
    set a | a in areas && IdentityKey(a) != "|" :: IdentityKey(a)
  }

  function Claimed(row: Row): set<string> {
    Keys(Decoded(row.areas))
  }

  /** Rows of a job, but for one. */
  ghost predicate Rival(rows: map<Id, Row>, job: Id, exclude: Option<Id>, id: Id) {
    id in rows && rows[id].job == job && exclude != Some(id)
  }

  ghost predicate Overlaps(rows: map<Id, Row>, job: Id, exclude: Option<Id>, areas: seq<Area>) {
    exists id | Rival(rows, job, exclude, id) :: !(Keys(areas) !! Claimed(rows[id]))
  }

  // ---------------------------------------------------------------- the operations

  /** A checked row is stored unless it overlaps a rival of its job. */
  ghost function Put(rows: map<Id, Row>, id: Id, exclude: Option<Id>, row: Row, areas: seq<Area>, stores: bool): (map<Id, Row>, Result) {
    if Overlaps(rows, row.job, exclude, areas) then (rows, Err(Overlap))
    else if !stores then (rows, Err(StoreFailed))
    else (rows[id := row], Ok(areas))
  }

  ghost function CreateWith(rows: map<Id, Row>, req: Request, areas: seq<Area>, encoded: Json, jobs: set<Id>, drawn: Id, stores: bool): (map<Id, Row>, Result) {
    if req.netIncome < 0.0 then (rows, Err(NegativeIncome))
    else if areas == [] then (rows, Err(NoArea))
    else if req.job.None? || req.job.value !in jobs then (rows, Err(JobNotFound))
    else Put(rows, drawn, None, Row(req.job.value, req.netIncome, encoded), areas, stores && drawn !in rows)
  }

  ghost function Create(rows: map<Id, Row>, req: Request, jobs: set<Id>, drawn: Id, stores: bool): (map<Id, Row>, Result) {
    CreateWith(rows, req, Normalized(req.areas), Encoded(Normalized(req.areas)), jobs, drawn, stores)
  }

  ghost function UpdateWith(rows: map<Id, Row>, id: Option<Id>, req: Request, areas: seq<Area>, encoded: Json, jobs: set<Id>, stores: bool): (map<Id, Row>, Result) {
    if id.None? then (rows, Err(BadId))
    else if req.job.None? then (rows, Err(BadJobId))
    else if id.value !in rows then (rows, Err(NotFound))
    else if req.netIncome < 0.0 then (rows, Err(NegativeIncome))
    else if areas == [] then (rows, Err(NoArea))
    else if req.job.value !in jobs then (rows, Err(JobNotFound))
    else Put(rows, id.value, id, Row(req.job.value, req.netIncome, encoded), areas, stores)
  }

  ghost function Update(rows: map<Id, Row>, id: Option<Id>, req: Request, jobs: set<Id>, stores: bool): (map<Id, Row>, Result) {
    UpdateWith(rows, id, req, Normalized(req.areas), Encoded(Normalized(req.areas)), jobs, stores)
  }

  // ---------------------------------------------------------------- over every run

  /** No two rows of a job claim the same key. */
  ghost predicate Disjoint(rows: map<Id, Row>) {
    forall i, j | i in rows && j in rows && i != j && rows[i].job == rows[j].job :: Claimed(rows[i]) !! Claimed(rows[j])
  }

  lemma AddKeepsDisjoint(rows: map<Id, Row>, id: Id, exclude: Option<Id>, row: Row)
    requires Disjoint(rows) && (id !in rows || exclude == Some(id)) && (exclude.Some? ==> exclude.value == id)
    requires forall i | Rival(rows, row.job, exclude, i) :: Claimed(row) !! Claimed(rows[i])
    ensures Disjoint(rows[id := row])
  {
    forall i | i in rows && i != id && rows[i].job == row.job ensures Claimed(rows[i]) !! Claimed(row) {
      assert Rival(rows, row.job, exclude, i);
    }
  }

  lemma PutKeepsDisjoint(rows: map<Id, Row>, id: Id, exclude: Option<Id>, row: Row, areas: seq<Area>, stores: bool)
    requires Disjoint(rows) && Decoded(row.areas) == areas
    requires if exclude.Some? then exclude.value == id else stores ==> id !in rows
    ensures Disjoint(Put(rows, id, exclude, row, areas, stores).0)
  {
    if stores && !Overlaps(rows, row.job, exclude, areas) {
      AddKeepsDisjoint(rows, id, exclude, row);
    }
  }

  lemma StoredAsGiven(areas: seq<Area>)
    ensures Decoded(Encoded(Normalized(areas))) == Normalized(areas)
  {
    DecodeAfterEncode(Normalized(areas));
    NormalizedIdempotent(areas);
  }

  lemma CreateWithKeepsDisjoint(rows: map<Id, Row>, req: Request, areas: seq<Area>, encoded: Json, jobs: set<Id>, drawn: Id, stores: bool)
    requires Disjoint(rows) && Decoded(encoded) == areas
    ensures Disjoint(CreateWith(rows, req, areas, encoded, jobs, drawn, stores).0)
  {
    var after := CreateWith(rows, req, areas, encoded, jobs, drawn, stores).0;
    if after != rows {
      PutKeepsDisjoint(rows, drawn, None, Row(req.job.value, req.netIncome, encoded), areas, stores && drawn !in rows);
    }
  }

  lemma UpdateWithKeepsDisjoint(rows: map<Id, Row>, id: Option<Id>, req: Request, areas: seq<Area>, encoded: Json, jobs: set<Id>, stores: bool)
    requires Disjoint(rows) && Decoded(encoded) == areas
    ensures Disjoint(UpdateWith(rows, id, req, areas, encoded, jobs, stores).0)
  {
    var after := UpdateWith(rows, id, req, areas, encoded, jobs, stores).0;
    if after != rows {
      PutKeepsDisjoint(rows, id.value, id, Row(req.job.value, req.netIncome, encoded), areas, stores);
    }
  }

  lemma CreateKeepsDisjoint(rows: map<Id, Row>, req: Request, jobs: set<Id>, drawn: Id, stores: bool)
    requires Disjoint(rows)
    ensures Disjoint(Create(rows, req, jobs, drawn, stores).0)
  {
    StoredAsGiven(req.areas);
    CreateWithKeepsDisjoint(rows, req, Normalized(req.areas), Encoded(Normalized(req.areas)), jobs, drawn, stores);
  }

  lemma UpdateKeepsDisjoint(rows: map<Id, Row>, id: Option<Id>, req: Request, jobs: set<Id>, stores: bool)
    requires Disjoint(rows)
    ensures Disjoint(Update(rows, id, req, jobs, stores).0)
  {
    StoredAsGiven(req.areas);
    UpdateWithKeepsDisjoint(rows, id, req, Normalized(req.areas), Encoded(Normalized(req.areas)), jobs, stores);
  }

  /** What is done, with the jobs there are at the time and whether the database obeys. */
  datatype Step =
    | Creating(req: Request, jobs: set<Id>, drawn: Id, stores: bool)
    | Updating(id: Option<Id>, req: Request, jobs: set<Id>, stores: bool)
    | Deleting(gone: Id)

  ghost function Next(rows: map<Id, Row>, s: Step): map<Id, Row> {
    match s
    case Creating(req, jobs, drawn, stores) => Create(rows, req, jobs, drawn, stores).0
    case Updating(id, req, jobs, stores) => Update(rows, id, req, jobs, stores).0
    case Deleting(gone) => rows - {gone}
  }

  ghost function Run(rows: map<Id, Row>, steps: seq<Step>): map<Id, Row> {
    if steps == [] then rows else Next(Run(rows, steps[..|steps| - 1]), steps[|steps| - 1])
  }

  lemma {:induction false} RunKeepsDisjoint(rows: map<Id, Row>, steps: seq<Step>)
    requires Disjoint(rows)
    ensures Disjoint(Run(rows, steps))
  {
    if steps != [] {
      var before := Run(rows, steps[..|steps| - 1]);
      RunKeepsDisjoint(rows, steps[..|steps| - 1]);
      match steps[|steps| - 1]
      case Creating(req, jobs, drawn, stores) => CreateKeepsDisjoint(before, req, jobs, drawn, stores);
      case Updating(id, req, jobs, stores) => UpdateKeepsDisjoint(before, id, req, jobs, stores);
      case Deleting(gone) =>
    }
  }

  lemma ClaimsItsKey(row: Row, a: Area)
    requires a in Decoded(row.areas)
    ensures IdentityKey(a) == "|" || IdentityKey(a) in Claimed(row)
  {
  }

  /** So an area that two rows of a job have in common, after whatever was done, is one without codes. */
  lemma CommonAreaHasNoCodes(steps: seq<Step>, i: Id, j: Id, a: Area)
    requires var rows := Run(map[], steps);
             i in rows && j in rows && i != j && rows[i].job == rows[j].job
             && a in Decoded(rows[i].areas) && a in Decoded(rows[j].areas)
    ensures Trim(a.provinceCode) == "" && Trim(a.regencyCode) == ""
  {
    RunKeepsDisjoint(map[], steps);
    var rows := Run(map[], steps);
    ClaimsItsKey(rows[i], a);
    ClaimsItsKey(rows[j], a);
    assert |IdentityKey(a)| == |Trim(a.provinceCode)| + 1 + |Trim(a.regencyCode)|;
  }

  /** The areas of a request that give names only: their codes are blank and a regency is named. */
  ghost predicate NamesOnly(areas: seq<Area>) {
    (forall a | a in areas :: Blank(a.provinceCode) && Blank(a.regencyCode))
    && exists a | a in areas :: !Blank(a.regencyName)
  }

  lemma {:induction false} BlankCodesHaveNoKey(areas: seq<Area>)
    requires forall a | a in areas :: Blank(a.provinceCode) && Blank(a.regencyCode)
    ensures forall a | a in Normalized(areas) :: IdentityKey(a) == "|"
  {
    if areas != [] {
      BlankCodesHaveNoKey(areas[..|areas| - 1]);
      var a := areas[|areas| - 1];
      assert a in areas;
      assert Cleaned(a).provinceCode == "" && Cleaned(a).regencyCode == "";
    }
  }

  lemma {:induction false} NamedAreaStays(areas: seq<Area>, a: Area)
    requires a in areas && !Blank(a.regencyName)
    ensures Normalized(areas) != []
  {
    if a in areas[..|areas| - 1] {
      NamedAreaStays(areas[..|areas| - 1], a);
    } else {
      LastApart(areas);
      assert Usable(Cleaned(a));
      assert Joined(Cleaned(a)) in Joins(Normalized(areas[..|areas| - 1])) || Cleaned(a) in Normalized(areas);
    }
  }

  lemma KeylessIsFree(rows: map<Id, Row>, req: Request, areas: seq<Area>, encoded: Json, jobs: set<Id>, drawn: Id)
    requires req.netIncome >= 0.0 && req.job.Some? && req.job.value in jobs && drawn !in rows
    requires areas != [] && forall a | a in areas :: IdentityKey(a) == "|"
    ensures CreateWith(rows, req, areas, encoded, jobs, drawn, true)
         == (rows[drawn := Row(req.job.value, req.netIncome, encoded)], Ok(areas))
  {
    assert Keys(areas) == {};
  }

  /** Areas without codes are no obstacle: they are accepted whatever the other rows of the job have. */
  lemma NamesAloneAreNotGuarded(rows: map<Id, Row>, req: Request, jobs: set<Id>, drawn: Id)
    requires req.netIncome >= 0.0 && req.job.Some? && req.job.value in jobs && drawn !in rows && NamesOnly(req.areas)
    ensures Create(rows, req, jobs, drawn, true).1 == Ok(Normalized(req.areas)) && Normalized(req.areas) != []
    ensures Create(rows, req, jobs, drawn, true).0
         == rows[drawn := Row(req.job.value, req.netIncome, Encoded(Normalized(req.areas)))]
  {
    var a :| a in req.areas && !Blank(a.regencyName);
    NamedAreaStays(req.areas, a);
    BlankCodesHaveNoKey(req.areas);
    KeylessIsFree(rows, req, Normalized(req.areas), Encoded(Normalized(req.areas)), jobs, drawn);
  }

  /** So the same request made twice leaves its job with two rows for the same areas. */
  lemma NamedTwice(rows: map<Id, Row>, req: Request, jobs: set<Id>, one: Id, two: Id)
    requires req.netIncome >= 0.0 && req.job.Some? && req.job.value in jobs && NamesOnly(req.areas)
    requires one !in rows && two !in rows && one != two
    ensures var after := Next(Next(rows, Creating(req, jobs, one, true)), Creating(req, jobs, two, true));
            one in after && two in after && after[one].job == after[two].job
            && Decoded(after[one].areas) == Decoded(after[two].areas) == Normalized(req.areas) != []
  {
    NamesAloneAreNotGuarded(rows, req, jobs, one);
    NamesAloneAreNotGuarded(Create(rows, req, jobs, one, true).0, req, jobs, two);
    StoredAsGiven(req.areas);
  }

  lemma LowerHasNoBar(s: string)
    ensures '|' in Lower(s) <==> '|' in s
  {
    forall i | 0 <= i < |s| ensures LowerChar(s[i]) == '|' <==> s[i] == '|' {}
    if '|' in s { var i :| 0 <= i < |s| && s[i] == '|'; assert Lower(s)[i] == '|'; }
  }

  /** Unless a province code has a bar in it, the same key means the same codes but for case and outer blanks. */
  lemma KeyMeansCodes(a: Area, b: Area)
    requires '|' !in Trim(a.provinceCode) && '|' !in Trim(b.provinceCode)
    ensures IdentityKey(a) == IdentityKey(b)
       <==> Lower(Trim(a.provinceCode)) == Lower(Trim(b.provinceCode)) && Lower(Trim(a.regencyCode)) == Lower(Trim(b.regencyCode))
  {
    LowerHasNoBar(Trim(a.provinceCode));
    LowerHasNoBar(Trim(b.provinceCode));
    if IdentityKey(a) == IdentityKey(b) {
      SplitAtFirst(Lower(Trim(a.provinceCode)), Lower(Trim(a.regencyCode)), Lower(Trim(b.provinceCode)), Lower(Trim(b.regencyCode)), '|');
    }
  }

  // ---------------------------------------------------------------- when a row must be accepted

  /** Two areas are the same to the check: they have equal codes, not both blank. */
  predicate SameArea(a: Area, b: Area) {
    IdentityKey(a) == IdentityKey(b) && !(Blank(a.provinceCode) && Blank(a.regencyCode))
  }

  /** Some row of the job, not the one left aside, holds one of these areas. */
  ghost predicate Taken(rows: map<Id, Row>, job: Id, aside: Option<Id>, areas: seq<Area>) {
    exists other, a, b | other in rows && Some(other) != aside :: rows[other].job == job
      && a in areas && b in Decoded(rows[other].areas) && SameArea(a, b)
  }

  lemma EmptyKeyIff(a: Area)
    ensures IdentityKey(a) == "|" <==> Blank(a.provinceCode) && Blank(a.regencyCode)
  {
    assert |IdentityKey(a)| == |Trim(a.provinceCode)| + 1 + |Trim(a.regencyCode)|;
  }

  lemma KeyIff(areas: seq<Area>, k: string)
    ensures k in Keys(areas) <==> exists a | a in areas :: IdentityKey(a) == k && k != "|"
  {
  }

  lemma CommonKey(areas: seq<Area>, others: seq<Area>, k: string) returns (a: Area, b: Area)
    requires k in Keys(areas) && k in Keys(others)
    ensures a in areas && b in others && SameArea(a, b)
  {
    KeyIff(areas, k);
    KeyIff(others, k);
    a :| a in areas && IdentityKey(a) == k;
    b :| b in others && IdentityKey(b) == k;
    EmptyKeyIff(a);
  }

  lemma SameAreaMeets(areas: seq<Area>, others: seq<Area>, a: Area, b: Area)
    requires a in areas && b in others && SameArea(a, b)
    ensures !(Keys(areas) !! Keys(others))
  {
    EmptyKeyIff(a);
    KeyIff(areas, IdentityKey(a));
    KeyIff(others, IdentityKey(a));
  }

  lemma MeetIff(areas: seq<Area>, others: seq<Area>)
    ensures !(Keys(areas) !! Keys(others)) <==> exists a, b | a in areas && b in others :: SameArea(a, b)
  {
    if a, b :| a in areas && b in others && SameArea(a, b) {
      SameAreaMeets(areas, others, a, b);
    }
    if k :| k in Keys(areas) && k in Keys(others) {
      var a, b := CommonKey(areas, others, k);
    }
  }

  lemma OverlapsIff(rows: map<Id, Row>, job: Id, aside: Option<Id>, areas: seq<Area>)
    ensures Overlaps(rows, job, aside, areas) <==> Taken(rows, job, aside, areas)
  {
    if id :| Rival(rows, job, aside, id) && !(Keys(areas) !! Claimed(rows[id])) {
      MeetIff(areas, Decoded(rows[id].areas));
      var a, b :| a in areas && b in Decoded(rows[id].areas) && SameArea(a, b);
    }
    if other, a, b :| other in rows && Some(other) != aside && rows[other].job == job
                      && a in areas && b in Decoded(rows[other].areas) && SameArea(a, b) {
      MeetIff(areas, Decoded(rows[other].areas));
      assert Rival(rows, job, aside, other);
    }
  }

  /** The checks before the one for overlap. */
  predicate Creatable(req: Request, jobs: set<Id>) {
    req.netIncome >= 0.0 && Normalized(req.areas) != [] && req.job.Some? && req.job.value in jobs
  }

  predicate Updatable(rows: map<Id, Row>, id: Option<Id>, req: Request, jobs: set<Id>) {
    id.Some? && id.value in rows && Creatable(req, jobs)
  }

  /** A reason that holds for refusing. */
  ghost predicate Refusable(rows: map<Id, Row>, id: Option<Id>, req: Request, jobs: set<Id>, aside: Option<Id>, stores: bool, e: Error) {
    match e
    case NegativeIncome => req.netIncome < 0.0
    case NoArea => Normalized(req.areas) == []
    case JobNotFound => req.job.None? || req.job.value !in jobs
    case BadId => id.None?
    case BadJobId => req.job.None?
    case NotFound => id.Some? && id.value !in rows
    case Overlap => req.job.Some? && Taken(rows, req.job.value, aside, Normalized(req.areas))
    case StoreFailed => !stores
  }

  /** The row that a request asks for, with its areas read back as they were normalised. */
  predicate AskedRow(row: Row, req: Request) {
    req.job == Some(row.job) && row.netIncome == req.netIncome && Decoded(row.areas) == Normalized(req.areas)
  }

  ghost predicate OneWritten(before: map<Id, Row>, after: map<Id, Row>, id: Id) {
    after.Keys == before.Keys + {id} && forall k | k in before && k != id :: after[k] == before[k]
  }

  lemma PutDecides(rows: map<Id, Row>, id: Id, aside: Option<Id>, row: Row, areas: seq<Area>, stores: bool)
    ensures var (after, r) := Put(rows, id, aside, row, areas, stores);
            var taken := Taken(rows, row.job, aside, areas);
            (r == Err(Overlap) <==> taken) && (r.Ok? <==> !taken && stores) && (r.Err? ==> after == rows && (r.error == Overlap || (r.error == StoreFailed && !stores)))
            && (r.Ok? ==> r.areas == areas && OneWritten(rows, after, id) && after[id] == row)
  {
    OverlapsIff(rows, row.job, aside, areas);
  }

  lemma CreateDecides(rows: map<Id, Row>, req: Request, jobs: set<Id>, drawn: Id, stores: bool)
    requires drawn !in rows
    ensures var (after, r) := Create(rows, req, jobs, drawn, stores);
            var taken := req.job.Some? && Taken(rows, req.job.value, None, Normalized(req.areas));
            (r == Err(Overlap) <==> Creatable(req, jobs) && taken)
            && (r.Ok? <==> Creatable(req, jobs) && !taken && stores)
            && (r.Ok? ==> r.areas == Normalized(req.areas) && OneWritten(rows, after, drawn) && AskedRow(after[drawn], req))
            && (r.Err? ==> after == rows && Refusable(rows, Some(drawn), req, jobs, None, stores, r.error))
  {
    StoredAsGiven(req.areas);
    if Creatable(req, jobs) {
      PutDecides(rows, drawn, None, Row(req.job.value, req.netIncome, Encoded(Normalized(req.areas))), Normalized(req.areas), stores);
    }
  }

  lemma UpdateDecides(rows: map<Id, Row>, id: Option<Id>, req: Request, jobs: set<Id>, stores: bool)
    ensures var (after, r) := Update(rows, id, req, jobs, stores);
            var taken := req.job.Some? && Taken(rows, req.job.value, id, Normalized(req.areas));
            (r == Err(Overlap) <==> Updatable(rows, id, req, jobs) && taken)
            && (r.Ok? <==> Updatable(rows, id, req, jobs) && !taken && stores)
            && (r.Ok? ==> r.areas == Normalized(req.areas) && OneWritten(rows, after, id.value) && AskedRow(after[id.value], req))
            && (r.Err? ==> after == rows && Refusable(rows, id, req, jobs, id, stores, r.error))
  {
    StoredAsGiven(req.areas);
    if Updatable(rows, id, req, jobs) {
      PutDecides(rows, id.value, id, Row(req.job.value, req.netIncome, Encoded(Normalized(req.areas))), Normalized(req.areas), stores);
    }
  }

  /** In a store that is disjoint, a row that keeps its job and its areas is never refused for overlap. */
  lemma SelfIsNoRival(rows: map<Id, Row>, id: Id, req: Request, jobs: set<Id>, stores: bool)
    requires Disjoint(rows) && id in rows && req.job == Some(rows[id].job) && Normalized(req.areas) == Decoded(rows[id].areas)
    ensures Update(rows, Some(id), req, jobs, stores).1 != Err(Overlap)
  {
    UpdateDecides(rows, Some(id), req, jobs, stores);
    if other, a, b :| other in rows && Some(other) != Some(id) && rows[other].job == rows[id].job
                      && a in Normalized(req.areas) && b in Decoded(rows[other].areas) && SameArea(a, b) {
      MeetIff(Normalized(req.areas), Decoded(rows[other].areas));
      assert Claimed(rows[id]) !! Claimed(rows[other]);
    }
  }

  // ---------------------------------------------------------------- the check, and the service

  lemma KeysAppend(areas: seq<Area>, a: Area)
    ensures Keys(areas + [a]) == Keys(areas) + if IdentityKey(a) == "|" then {} else {IdentityKey(a)}
  {
    assert forall x | x in areas + [a] :: x in areas || x == a;
    assert a in areas + [a] && forall x | x in areas :: x in areas + [a];
  }

  method CurrentKeys(areas: seq<Area>) returns (keys: set<string>)
    ensures keys == Keys(areas)
  {
    keys := {};
    var i := 0;
    while i < |areas|
      invariant i <= |areas| && keys == Keys(areas[..i])
    {
      assert areas[..i + 1] == areas[..i] + [areas[i]];
      KeysAppend(areas[..i], areas[i]);
      var key := IdentityKey(areas[i]);
      if key != "|" {
        keys := keys + {key};
      }
      i := i + 1;
    }
    assert areas[..i] == areas;
  }

  method Meets(areas: seq<Area>, keys: set<string>) returns (found: bool)
    ensures found <==> !(Keys(areas) !! keys)
  {
    var i := 0;
    while i < |areas|
      invariant i <= |areas| && Keys(areas[..i]) !! keys
    {
      assert areas[..i + 1] == areas[..i] + [areas[i]];
      KeysAppend(areas[..i], areas[i]);
      var key := IdentityKey(areas[i]);
      if key != "|" && key in keys {
        assert areas[i] in areas && key in Keys(areas);
        return true;
      }
      i := i + 1;
    }
    assert areas[..i] == areas;
    found := false;
  }

  ghost predicate FreeOf(keys: set<string>, rows: seq<Row>) {
    forall r | r in rows :: keys !! Claimed(r)
  }

  /** Whether the areas are free of those of the existing rows. */
  method EnsureNoOverlappingAreas(current: seq<Area>, existingRows: seq<Row>) returns (free: bool)
    ensures free <==> FreeOf(Keys(current), existingRows)
  {
    if |current| == 0 || |existingRows| == 0 {
      return true;
    }
    var currentKeys := CurrentKeys(current);
    var i := 0;
    while i < |existingRows|
      invariant i <= |existingRows| && FreeOf(currentKeys, existingRows[..i])
    {
      FreeOfMore(currentKeys, existingRows, i);
      var existingAreas := DecodeAreaNetIncome(existingRows[i].areas);
      var met := Meets(existingAreas, currentKeys);
      if met {
        assert existingRows[i] in existingRows;
        return false;
      }
      i := i + 1;
    }
    assert existingRows[..i] == existingRows;
    free := true;
  }

  lemma FreeOfMore(keys: set<string>, rows: seq<Row>, i: nat)
    requires i < |rows|
    ensures FreeOf(keys, rows[..i + 1]) <==> FreeOf(keys, rows[..i]) && keys !! Claimed(rows[i])
  {
    assert rows[..i + 1] == rows[..i] + [rows[i]];
  }

  class Service {
    var rows: map<Id, Row>

    constructor ()
      ensures rows == map[]
    {
      rows := map[];
    }

    /** The rows of a job but for one, in any order. */
    method ListByJobId(job: Id, exclude: Option<Id>) returns (found: seq<Row>)
      ensures forall r :: r in found <==> exists id | Rival(rows, job, exclude, id) :: rows[id] == r
    {
      found := [];
      var left := rows.Keys;
      while left != {}
        invariant left <= rows.Keys
        invariant forall r | r in found :: exists id | Rival(rows, job, exclude, id) :: rows[id] == r
        invariant forall id | Rival(rows, job, exclude, id) && id !in left :: rows[id] in found
        decreases |left|
      {
        var id :| id in left;
        if rows[id].job == job && exclude != Some(id) {
          assert Rival(rows, job, exclude, id);
          found := found + [rows[id]];
        }
        left := left - {id};
      }
    }

    method Free(job: Id, exclude: Option<Id>, areas: seq<Area>) returns (free: bool)
      ensures free <==> !Overlaps(rows, job, exclude, areas)
    {
      var existingRows := ListByJobId(job, exclude);
      free := EnsureNoOverlappingAreas(areas, existingRows);
      if !free {
        ghost var r :| r in existingRows && !(Keys(areas) !! Claimed(r));
        ghost var id :| Rival(rows, job, exclude, id) && rows[id] == r;
      } else {
        forall id | Rival(rows, job, exclude, id) ensures rows[id] in existingRows {}
      }
    }

    method CreateRow(req: Request, jobs: set<Id>, drawn: Id, stores: bool) returns (r: Result)
      modifies this
      ensures (rows, r) == Create(old(rows), req, jobs, drawn, stores)
      ensures drawn !in old(rows) ==>
                var taken := req.job.Some? && Taken(old(rows), req.job.value, None, Normalized(req.areas));
                (r == Err(Overlap) <==> Creatable(req, jobs) && taken) && (r.Ok? <==> Creatable(req, jobs) && !taken && stores)
      ensures drawn !in old(rows) && r.Ok? ==>
                r.areas == Normalized(req.areas) && OneWritten(old(rows), rows, drawn) && AskedRow(rows[drawn], req)
      ensures r.Err? ==> rows == old(rows)
      ensures drawn !in old(rows) && r.Err? ==> Refusable(old(rows), Some(drawn), req, jobs, None, stores, r.error)
    {
      if drawn !in rows { CreateDecides(rows, req, jobs, drawn, stores); }
      if req.netIncome < 0.0 { return Err(NegativeIncome); }
      var areas := NormalizeAreaNetIncome(req.areas);
      if |areas| == 0 { return Err(NoArea); }
      if req.job.None? || req.job.value !in jobs { return Err(JobNotFound); }
      var free := Free(req.job.value, None, areas);
      if !free { return Err(Overlap); }
      var encoded := EncodeAreaNetIncome(areas);
      if !stores || drawn in rows { return Err(StoreFailed); }
      rows := rows[drawn := Row(req.job.value, req.netIncome, encoded)];
      r := Ok(areas);
    }

    method UpdateRow(id: Option<Id>, req: Request, jobs: set<Id>, stores: bool) returns (r: Result)
      modifies this
      ensures (rows, r) == Update(old(rows), id, req, jobs, stores)
      ensures var taken := req.job.Some? && Taken(old(rows), req.job.value, id, Normalized(req.areas));
              (r == Err(Overlap) <==> Updatable(old(rows), id, req, jobs) && taken)
              && (r.Ok? <==> Updatable(old(rows), id, req, jobs) && !taken && stores)
      ensures r.Ok? ==> r.areas == Normalized(req.areas) && OneWritten(old(rows), rows, id.value) && AskedRow(rows[id.value], req)
      ensures r.Err? ==> rows == old(rows) && Refusable(old(rows), id, req, jobs, id, stores, r.error)
    {
      UpdateDecides(rows, id, req, jobs, stores);
      if id.None? { return Err(BadId); }
      if req.job.None? { return Err(BadJobId); }
      if id.value !in rows { return Err(NotFound); }
      var row := rows[id.value];
      if req.netIncome < 0.0 { return Err(NegativeIncome); }
      var areas := NormalizeAreaNetIncome(req.areas);
      if |areas| == 0 { return Err(NoArea); }
      if req.job.value !in jobs { return Err(JobNotFound); }
      var free := Free(req.job.value, id, areas);
      if !free { return Err(Overlap); }
      var encoded := EncodeAreaNetIncome(areas);
      row := row.(job := req.job.value);
      row := row.(netIncome := req.netIncome);
      row := row.(areas := encoded);
      if !stores { return Err(StoreFailed); }
      rows := rows[id.value := row];
      r := Ok(areas);
    }

    method DeleteRow(id: Id)
      modifies this
      ensures rows == old(rows) - {id}
    {
      rows := rows - {id};
    }
  }
}
