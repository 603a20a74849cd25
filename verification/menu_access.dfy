/** The two computations of a user's menus: an ancestor walk per resource, and a search by frontier. */
module MenuAccess {
  import opened Text
  import opened Finite
  import opened Menus

  // ---------------------------------------------------------------- the walk

  /** The listed menus that satisfy a condition, in their order. */
  ghost function Keep(menus: seq<Menu>, ids: set<Id>): seq<Menu> {
    if menus == [] then []
    else Keep(menus[..|menus| - 1], ids) + if menus[|menus| - 1].id in ids then [menus[|menus| - 1]] else []
  }

  lemma {:induction false} KeepElements(menus: seq<Menu>, ids: set<Id>)
    ensures forall m :: m in Keep(menus, ids) <==> m in menus && m.id in ids
  {
    if menus != [] {
      KeepElements(menus[..|menus| - 1], ids);
      assert menus == menus[..|menus| - 1] + [menus[|menus| - 1]];
    }
  }

  ghost predicate IndexedBy(menus: seq<Menu>, byId: map<Id, Menu>, byName: map<Name, Menu>) {
    (forall m | m in menus :: m.id in byId && byId[m.id] == m && m.name in byName && byName[m.name] == m)
    && (forall k | k in byId :: byId[k] in menus && byId[k].id == k)
    && (forall k | k in byName :: byName[k] in menus && byName[k].name == k)
  }

  method Index(menus: seq<Menu>) returns (byId: map<Id, Menu>, byName: map<Name, Menu>)
    requires Unique(menus)
    ensures IndexedBy(menus, byId, byName)
  {
    byId, byName := map[], map[];
    var i := 0;
    while i < |menus|
      invariant i <= |menus| && IndexedBy(menus[..i], byId, byName)
    {
      assert menus[..i + 1] == menus[..i] + [menus[i]];
      byId, byName := byId[menus[i].id := menus[i]], byName[menus[i].name := menus[i]];
      i := i + 1;
    }
    assert menus[..i] == menus;
  }

  lemma FindIndexed(menus: seq<Menu>, byId: map<Id, Menu>, byName: map<Name, Menu>, id: Id)
    requires IndexedBy(menus, byId, byName)
    ensures Find(menus, id) == if id in byId then Some(byId[id]) else None
  {
  }

  ghost function Ids(menus: seq<Menu>, seeds: set<Menu>): set<Id> {
    set m | m in menus && Reached(menus, seeds, m) :: m.id
  }

  /** Adds a named menu and all its active ancestors; the walk must end. */
  method Walk(menus: seq<Menu>, byId: map<Id, Menu>, ghost byName: map<Name, Menu>, named: Menu, before: set<Id>) returns (allowed: set<Id>)
    requires IndexedBy(menus, byId, byName) && named in menus && Ends(menus, named)
    ensures allowed == before + Ids(menus, {named})
  {
    ghost var end: nat :| Ancestor(menus, named, end).None?;
    ghost var k: nat := 0;
    allowed := before + {named.id};
    var parentId := named.parent;
    ghost var current := named;
    WalkAdds(menus, named, 0);
    while parentId.Some?
      invariant Ancestor(menus, named, k) == Some(current) && current in menus && k < end
      invariant allowed == before + WalkedIds(menus, named, k)
      invariant parentId == current.parent || (parentId.None? && ActiveParent(menus, current).None?)
      decreases end - k, parentId.Some?
    {
      FindIndexed(menus, byId, byName, parentId.value);
      if parentId.value !in byId || !byId[parentId.value].active || byId[parentId.value].deleted {
        parentId := None;
      } else {
        var parentMenu := byId[parentId.value];
        allowed := allowed + {parentMenu.id};
        assert Ancestor(menus, named, k + 1) == Some(parentMenu);
        WalkAdds(menus, named, k + 1);
        parentId := parentMenu.parent;
        current := parentMenu;
        k := k + 1;
      }
    }
    WalkedAll(menus, named, k);
  }

  /** The identifiers of the first ancestors, the menu itself included. */
  ghost function WalkedIds(menus: seq<Menu>, m: Menu, k: nat): set<Id> {
    (if k == 0 then {} else WalkedIds(menus, m, k - 1))
    + if Ancestor(menus, m, k).Some? then {Ancestor(menus, m, k).value.id} else {}
  }

  lemma WalkAdds(menus: seq<Menu>, m: Menu, k: nat)
    requires Ancestor(menus, m, k).Some?
    ensures WalkedIds(menus, m, k) == (if k == 0 then {} else WalkedIds(menus, m, k - 1)) + {Ancestor(menus, m, k).value.id}
  {
  }

  lemma {:induction false} WalkedHas(menus: seq<Menu>, m: Menu, k: nat, n: nat)
    requires n <= k && Ancestor(menus, m, n).Some?
    ensures Ancestor(menus, m, n).value.id in WalkedIds(menus, m, k)
  {
    if n < k { WalkedHas(menus, m, k - 1, n); }
  }

  lemma {:induction false} WalkedFrom(menus: seq<Menu>, m: Menu, k: nat, id: Id) returns (n: nat)
    requires id in WalkedIds(menus, m, k)
    ensures n <= k && Ancestor(menus, m, n).Some? && Ancestor(menus, m, n).value.id == id
  {
    n := k;
    if !(Ancestor(menus, m, k).Some? && Ancestor(menus, m, k).value.id == id) {
      n := WalkedFrom(menus, m, k - 1, id);
    }
  }

  lemma WalkedAll(menus: seq<Menu>, m: Menu, k: nat)
    requires m in menus && Ancestor(menus, m, k).Some? && Ancestor(menus, m, k + 1).None?
    ensures WalkedIds(menus, m, k) == Ids(menus, {m})
  {
    forall id | id in WalkedIds(menus, m, k) ensures id in Ids(menus, {m}) {
      var n := WalkedFrom(menus, m, k, id);
      AncestorListed(menus, m, n);
      assert m in {m} && Reached(menus, {m}, Ancestor(menus, m, n).value);
    }
    forall id | id in Ids(menus, {m}) ensures id in WalkedIds(menus, m, k) {
      var x :| x in menus && Reached(menus, {m}, x) && x.id == id;
      var s, n: nat :| s in {m} && Ancestor(menus, s, n) == Some(x);
      if k < n { EndedStays(menus, m, k + 1, n); }
      WalkedHas(menus, m, k, n);
    }
  }

  /**
   The menus named by a resource and their active ancestors, in the order of the list. The walk has
   no other way to stop than to run out of parents, so it must end for every menu that is named.
   */
  method ResolveAccessibleMenus(activeMenus: seq<Menu>, resources: seq<Name>) returns (ret: seq<Menu>)
    requires Unique(activeMenus)
    requires forall m | m in activeMenus && m.name in resources :: Ends(activeMenus, m)
    ensures ret == Keep(activeMenus, Ids(activeMenus, Named(activeMenus, set r | r in resources)))
    ensures Sees(activeMenus, ret, (m: Menu) => m.name in resources)
  {
    var byId, byName := Index(activeMenus);
    var allowed: set<Id> := {};
    ghost var seeds: set<Menu> := {};
    var i := 0;
    while i < |resources|
      invariant i <= |resources|
      invariant seeds == Named(activeMenus, set r | r in resources[..i]) && allowed == Ids(activeMenus, seeds)
    {
      var r := resources[i];
      assert resources[..i + 1] == resources[..i] + [r];
      if r in byName {
        var menu := byName[r];
        allowed := Walk(activeMenus, byId, byName, menu, allowed);
        MoreSeeds(activeMenus, seeds, menu);
        seeds := seeds + {menu};
      }
      ghost var done := resources[..i + 1];
      assert seeds == Named(activeMenus, set x | x in done);
      i := i + 1;
    }
    assert resources[..i] == resources;
    ret := [];
    i := 0;
    while i < |activeMenus|
      invariant i <= |activeMenus| && ret == Keep(activeMenus[..i], allowed)
    {
      assert activeMenus[..i + 1][..i] == activeMenus[..i];
      if activeMenus[i].id in allowed {
        ret := ret + [activeMenus[i]];
      }
      i := i + 1;
    }
    assert activeMenus[..i] == activeMenus;
    KeptSees(activeMenus, resources, ret);
  }

  lemma MoreSeeds(menus: seq<Menu>, seeds: set<Menu>, m: Menu)
    ensures Ids(menus, seeds + {m}) == Ids(menus, seeds) + Ids(menus, {m})
  {
    forall x | x in menus ensures Reached(menus, seeds + {m}, x) <==> Reached(menus, seeds, x) || Reached(menus, {m}, x) {
      if Reached(menus, seeds + {m}, x) {
        var s, n: nat :| s in seeds + {m} && Ancestor(menus, s, n) == Some(x);
        assert s in seeds || s in {m};
      }
      if Reached(menus, seeds, x) {
        var s, n: nat :| s in seeds && Ancestor(menus, s, n) == Some(x);
        assert s in seeds + {m};
      }
      if Reached(menus, {m}, x) {
        var s, n: nat :| s in {m} && Ancestor(menus, s, n) == Some(x);
        assert s in seeds + {m};
      }
    }
  }

  /**
   The list has every wanted menu and every active parent of a menu it has, and nothing but wanted menus
   and active parents of its own.
   */
  ghost predicate Sees(menus: seq<Menu>, ret: seq<Menu>, wanted: Menu -> bool) {
    (forall m | m in menus && wanted(m) :: m in ret)
    && (forall c, p | c in ret && p in menus && c.parent == Some(p.id) && p.active && !p.deleted :: p in ret)
    && (forall m | m in ret :: m in menus && (wanted(m) || (m.active && !m.deleted && exists c | c in ret :: c.parent == Some(m.id))))
  }

  /** A reached menu is a seed, or an active parent of a reached one. */
  lemma ReachedFrom(menus: seq<Menu>, seeds: set<Menu>, m: Menu)
    requires Reached(menus, seeds, m) && m !in seeds
    ensures m.active && !m.deleted && exists c :: Reached(menus, seeds, c) && c.parent == Some(m.id)
  {
    var s, n: nat :| s in seeds && Ancestor(menus, s, n) == Some(m);
    var c := Ancestor(menus, s, n - 1).value;
    assert Reached(menus, seeds, c) && ActiveParent(menus, c) == Some(m);
  }

  lemma ReachedListed(menus: seq<Menu>, seeds: set<Menu>, m: Menu)
    requires Reached(menus, seeds, m) && forall s | s in seeds :: s in menus
    ensures m in menus
  {
    var s, n: nat :| s in seeds && Ancestor(menus, s, n) == Some(m);
    AncestorListed(menus, s, n);
  }

  lemma SeedReached(menus: seq<Menu>, seeds: set<Menu>, m: Menu)
    requires m in seeds
    ensures Reached(menus, seeds, m)
  {
    assert Ancestor(menus, m, 0) == Some(m);
  }

  lemma ParentAlso(menus: seq<Menu>, seeds: set<Menu>, c: Menu, p: Menu)
    requires Unique(menus) && Reached(menus, seeds, c) && p in menus && c.parent == Some(p.id) && p.active && !p.deleted
    ensures Reached(menus, seeds, p)
  {
    var found := Find(menus, p.id).value;
    SameId(menus, found, p);
    ReachedIsClosed(menus, seeds, c);
  }

  lemma ReachedSees(menus: seq<Menu>, ret: seq<Menu>, seeds: set<Menu>, wanted: Menu -> bool)
    requires Unique(menus) && (forall m :: m in ret <==> Reached(menus, seeds, m))
    requires forall m :: m in seeds <==> m in menus && wanted(m)
    ensures Sees(menus, ret, wanted)
  {
    forall m | m in menus && wanted(m) ensures m in ret { SeedReached(menus, seeds, m); }
    forall c, p | c in ret && p in menus && c.parent == Some(p.id) && p.active && !p.deleted ensures p in ret { ParentAlso(menus, seeds, c, p); }
    forall m | m in ret ensures m in menus && (wanted(m) || (m.active && !m.deleted && exists c | c in ret :: c.parent == Some(m.id))) {
      ReachedListed(menus, seeds, m);
      if m !in seeds { ReachedFrom(menus, seeds, m); }
    }
  }

  lemma KeepReached(menus: seq<Menu>, seeds: set<Menu>, m: Menu)
    requires Unique(menus) && forall s | s in seeds :: s in menus
    ensures m in Keep(menus, Ids(menus, seeds)) <==> Reached(menus, seeds, m)
  {
    KeepElements(menus, Ids(menus, seeds));
    if Reached(menus, seeds, m) { ReachedListed(menus, seeds, m); }
    if m in Keep(menus, Ids(menus, seeds)) {
      var x :| x in menus && Reached(menus, seeds, x) && x.id == m.id;
      SameId(menus, x, m);
    }
  }

  lemma SameId(menus: seq<Menu>, m: Menu, m': Menu)
    requires Unique(menus) && m in menus && m' in menus && m.id == m'.id
    ensures m == m'
  {
    var i, j :| 0 <= i < |menus| && 0 <= j < |menus| && menus[i] == m && menus[j] == m';
  }

  /** The menus that the walks keep are those named and their active ancestors, in outright terms. */
  lemma KeptSees(menus: seq<Menu>, resources: seq<Name>, ret: seq<Menu>)
    requires Unique(menus) && ret == Keep(menus, Ids(menus, Named(menus, set r | r in resources)))
    ensures Sees(menus, ret, (m: Menu) => m.name in resources)
  {
    var seeds := Named(menus, set r | r in resources);
    forall m ensures m in ret <==> Reached(menus, seeds, m) { KeepReached(menus, seeds, m); }
    ReachedSees(menus, ret, seeds, (m: Menu) => m.name in resources);
  }

  // ---------------------------------------------------------------- the frontier search

  /** The rows of the table that satisfy a query's condition. */
  method Load(menus: seq<Menu>, wanted: Menu -> bool) returns (rows: seq<Menu>)
    ensures forall m :: m in rows <==> m in menus && wanted(m)
    ensures Unique(menus) ==> |set m | m in rows| == |rows|
  {
    rows := [];
    var i := 0;
    assert (set m | m in rows) == {};
    while i < |menus|
      invariant i <= |menus|
      invariant forall m :: m in rows <==> m in menus[..i] && wanted(m)
      invariant Unique(menus) ==> |set m | m in rows| == |rows|
    {
      assert menus[..i + 1] == menus[..i] + [menus[i]];
      if wanted(menus[i]) {
        assert (set m | m in rows + [menus[i]]) == (set m | m in rows) + {menus[i]};
        rows := rows + [menus[i]];
      }
      i := i + 1;
    }
    assert menus[..i] == menus;
  }

  ghost function Seeds(menus: seq<Menu>, resources: set<Name>): set<Menu> {
    set m | m in menus && m.name in resources && Usable(m)
  }

  // What the search has found: reached menus only, each with its active parent found or pending.

  ghost predicate AllReached(menus: seq<Menu>, seeds: set<Menu>, found: set<Menu>) {
    seeds <= found && forall m | m in found :: m in menus && Usable(m) && Reached(menus, seeds, m)
  }

  ghost predicate ParentsCovered(menus: seq<Menu>, found: set<Menu>, pending: set<Id>) {
    forall m | m in found && ActiveParent(menus, m).Some? :: ActiveParent(menus, m).value in found || m.parent.value in pending
  }

  ghost predicate AskedFor(found: set<Menu>, pending: set<Id>) {
    forall p | p in pending :: exists m | m in found :: m.parent == Some(p)
  }

  ghost predicate Found(menus: seq<Menu>, seeds: set<Menu>, found: set<Menu>, pending: set<Id>) {
    AllReached(menus, seeds, found) && ParentsCovered(menus, found, pending) && AskedFor(found, pending)
  }

  ghost function IdsOf(found: set<Menu>): set<Id> {
    set m | m in found :: m.id
  }

  lemma ParentIs(menus: seq<Menu>, m: Menu, p: Menu)
    requires Unique(menus) && p in menus && Usable(p) && m.parent == Some(p.id)
    ensures ActiveParent(menus, m) == Some(p)
  {
  }

  lemma ParentReached(menus: seq<Menu>, seeds: set<Menu>, child: Menu, m: Menu)
    requires Unique(menus) && Reached(menus, seeds, child) && m in menus && Usable(m) && child.parent == Some(m.id)
    ensures Reached(menus, seeds, m)
  {
    ParentIs(menus, child, m);
    ReachedIsClosed(menus, seeds, child);
  }

  lemma AddReached(menus: seq<Menu>, seeds: set<Menu>, found: set<Menu>, m: Menu)
    requires AllReached(menus, seeds, found) && m in menus && Usable(m) && Reached(menus, seeds, m)
    ensures AllReached(menus, seeds, found + {m})
  {
  }

  lemma Asker(found: set<Menu>, pending: set<Id>, id: Id) returns (child: Menu)
    requires AskedFor(found, pending) && id in pending
    ensures child in found && child.parent == Some(id)
  {
    child :| child in found && child.parent == Some(id);
  }

  lemma ReachedMore(menus: seq<Menu>, seeds: set<Menu>, found: set<Menu>, pending: set<Id>, m: Menu)
    requires Unique(menus) && AllReached(menus, seeds, found) && AskedFor(found, pending)
    requires m in menus && Usable(m) && m.id in pending
    ensures AllReached(menus, seeds, found + {m})
  {
    var child := Asker(found, pending, m.id);
    assert Reached(menus, seeds, child);
    ParentReached(menus, seeds, child, m);
    AddReached(menus, seeds, found, m);
  }

  /** What is pending once this menu is found. */
  ghost function Next(found: set<Menu>, pending: set<Id>, m: Menu): set<Id> {
    if m.parent.Some? && m.parent.value !in IdsOf(found + {m}) then pending + {m.parent.value} else pending
  }

  lemma CoveredMore(menus: seq<Menu>, seeds: set<Menu>, found: set<Menu>, pending: set<Id>, m: Menu)
    requires Unique(menus) && Found(menus, seeds, found, pending) && m in menus && Usable(m)
    ensures ParentsCovered(menus, found + {m}, Next(found, pending, m)) && AskedFor(found + {m}, Next(found, pending, m))
  {
    if ActiveParent(menus, m).Some? && m.parent.value in IdsOf(found + {m}) {
      var x :| x in found + {m} && x.id == m.parent.value;
      ParentIs(menus, m, x);
    }
    forall p | p in Next(found, pending, m) ensures exists x | x in found + {m} :: x.parent == Some(p) {
      if p in pending {
        var x :| x in found && x.parent == Some(p);
        assert x in found + {m};
      } else {
        assert m in found + {m};
      }
    }
  }

  lemma FoundMore(menus: seq<Menu>, seeds: set<Menu>, found: set<Menu>, pending: set<Id>, m: Menu)
    requires Unique(menus) && Found(menus, seeds, found, pending) && m in menus && Usable(m) && m.id in pending
    ensures Found(menus, seeds, found + {m}, Next(found, pending, m))
  {
    ReachedMore(menus, seeds, found, pending, m);
    CoveredMore(menus, seeds, found, pending, m);
  }

  /** Once all active rows among the pending identifiers are found, those need not stay pending. */
  lemma PendingDone(menus: seq<Menu>, seeds: set<Menu>, found: set<Menu>, pending: set<Id>, next: set<Id>)
    requires Found(menus, seeds, found, pending + next)
    requires forall m | m in menus && m.id in pending && Usable(m) :: m in found
    ensures Found(menus, seeds, found, next)
  {
    forall m | m in found && ActiveParent(menus, m).Some? ensures ActiveParent(menus, m).value in found || m.parent.value in next {
      if m.parent.value in pending { assert ActiveParent(menus, m).value in menus; }
    }
  }

  ghost function Elements<T>(s: seq<T>): set<T> {
    set x | x in s
  }

  lemma ElementsAppend<T>(s: seq<T>, x: T)
    ensures Elements(s + [x]) == Elements(s) + {x}
  {
  }

  lemma AskedMore<T>(pending: seq<T>, next: seq<T>, x: T)
    ensures Elements(pending) + Elements(next + [x]) == Elements(pending) + Elements(next) + {x}
  {
    ElementsAppend(next, x);
  }

  /** The menus found, as the search keeps them: a list without repetition and the set of their identifiers. */
  ghost predicate Kept(menus: seq<Menu>, ret: seq<Menu>, known: set<Id>) {
    |Elements(ret)| == |ret| && known == IdsOf(Elements(ret)) && Elements(ret) <= Elements(menus)
  }

  lemma KeptMore(menus: seq<Menu>, ret: seq<Menu>, known: set<Id>, m: Menu)
    requires Kept(menus, ret, known) && m in menus && m.id !in known
    ensures Kept(menus, ret + [m], known + {m.id}) && Elements(ret + [m]) == Elements(ret) + {m}
  {
    ElementsAppend(ret, m);
    assert m !in Elements(ret);
    assert IdsOf(Elements(ret) + {m}) == IdsOf(Elements(ret)) + {m.id};
  }

  lemma KnownMenu(menus: seq<Menu>, ret: seq<Menu>, known: set<Id>, m: Menu)
    requires Unique(menus) && Kept(menus, ret, known) && m in menus && m.id in known
    ensures m in ret
  {
    var x :| x in Elements(ret) && x.id == m.id;
    assert x in Elements(menus);
  }

  method AskForParent(ghost found: set<Menu>, ghost pending: seq<Id>, next: seq<Id>, known: set<Id>, menu: Menu) returns (next': seq<Id>)
    requires known == IdsOf(found + {menu})
    ensures Elements(pending) + Elements(next') == Next(found, Elements(pending) + Elements(next), menu)
  {
    next' := next;
    if menu.parent.Some? && menu.parent.value !in known {
      AskedMore(pending, next, menu.parent.value);
      next' := next + [menu.parent.value];
    }
  }

  /** A newly loaded menu is kept, and its parent asked for unless it is known. */
  method Add(menus: seq<Menu>, ghost seeds: set<Menu>, ret: seq<Menu>, known: set<Id>, ghost pending: seq<Id>, next: seq<Id>, menu: Menu)
    returns (ret': seq<Menu>, known': set<Id>, next': seq<Id>)
    requires Unique(menus) && Found(menus, seeds, Elements(ret), Elements(pending) + Elements(next)) && Kept(menus, ret, known)
    requires menu in menus && Usable(menu) && menu.id in pending && menu.id !in known
    ensures Found(menus, seeds, Elements(ret'), Elements(pending) + Elements(next')) && Kept(menus, ret', known')
    ensures |ret'| == |ret| + 1 && Elements(ret') == Elements(ret) + {menu}
  {
    FoundMore(menus, seeds, Elements(ret), Elements(pending) + Elements(next), menu);
    KeptMore(menus, ret, known, menu);
    known' := known + {menu.id};
    ret' := ret + [menu];
    next' := AskForParent(Elements(ret), pending, next, known', menu);
  }

  ghost predicate Visited(rows: seq<Menu>, i: nat, found: set<Menu>) {
    forall j | 0 <= j < i && j < |rows| :: rows[j] in found
  }

  lemma VisitedMore(rows: seq<Menu>, i: nat, found: set<Menu>, found': set<Menu>)
    requires i < |rows| && Visited(rows, i, found) && found <= found' && rows[i] in found'
    ensures Visited(rows, i + 1, found')
  {
  }

  ghost predicate Searching(menus: seq<Menu>, seeds: set<Menu>, ret: seq<Menu>, known: set<Id>, pending: seq<Id>, next: seq<Id>) {
    Found(menus, seeds, Elements(ret), Elements(pending) + Elements(next)) && Kept(menus, ret, known)
  }

  /** One loaded row: found before, or added now. */
  method Visit(menus: seq<Menu>, ghost seeds: set<Menu>, ret: seq<Menu>, known: set<Id>, ghost pending: seq<Id>, next: seq<Id>, menu: Menu)
    returns (ret': seq<Menu>, known': set<Id>, next': seq<Id>)
    requires Unique(menus) && Searching(menus, seeds, ret, known, pending, next)
    requires menu in menus && Usable(menu) && menu.id in pending
    ensures Searching(menus, seeds, ret', known', pending, next')
    ensures menu in Elements(ret') && Elements(ret) <= Elements(ret')
    ensures |ret| <= |ret'| && (|ret'| == |ret| ==> next' == next)
  {
    if menu.id !in known {
      ret', known', next' := Add(menus, seeds, ret, known, pending, next, menu);
    } else {
      KnownMenu(menus, ret, known, menu);
      ret', known', next' := ret, known, next;
    }
  }

  lemma RoundStarts(menus: seq<Menu>, seeds: set<Menu>, ret: seq<Menu>, known: set<Id>, pending: seq<Id>)
    requires Found(menus, seeds, Elements(ret), Elements(pending)) && Kept(menus, ret, known)
    ensures Searching(menus, seeds, ret, known, pending, [])
  {
    var none: seq<Id> := [];
    assert Elements(pending) + Elements(none) == Elements(pending);
  }

  lemma RoundEnds(menus: seq<Menu>, seeds: set<Menu>, ret: seq<Menu>, known: set<Id>, pending: seq<Id>, next: seq<Id>, rows: seq<Menu>)
    requires Searching(menus, seeds, ret, known, pending, next) && Visited(rows, |rows|, Elements(ret))
    requires forall m | m in menus && m.id in pending && Usable(m) :: m in rows
    ensures Found(menus, seeds, Elements(ret), Elements(next))
  {
    PendingDone(menus, seeds, Elements(ret), Elements(pending), Elements(next));
  }

  /** One round: the active rows among the pending parents that were not found before, and their parents in turn. */
  method Expand(menus: seq<Menu>, ghost seeds: set<Menu>, ret: seq<Menu>, known: set<Id>, pending: seq<Id>)
    returns (ret': seq<Menu>, known': set<Id>, next: seq<Id>)
    requires Unique(menus) && Found(menus, seeds, Elements(ret), Elements(pending)) && Kept(menus, ret, known)
    ensures Found(menus, seeds, Elements(ret'), Elements(next)) && Kept(menus, ret', known')
    ensures |ret| <= |ret'| && (|ret'| == |ret| ==> next == [])
  {
    var parentMenus := Load(menus, (m: Menu) => m.id in pending && Usable(m));
    ret', known', next := ret, known, [];
    RoundStarts(menus, seeds, ret, known, pending);
    var i := 0;
    while i < |parentMenus|
      invariant i <= |parentMenus| && |ret| <= |ret'| && (|ret'| == |ret| ==> next == [])
      invariant Searching(menus, seeds, ret', known', pending, next) && Visited(parentMenus, i, Elements(ret'))
    {
      ghost var before := Elements(ret');
      assert parentMenus[i] in parentMenus;
      ret', known', next := Visit(menus, seeds, ret', known', pending, next, parentMenus[i]);
      VisitedMore(parentMenus, i, before, Elements(ret'));
      i := i + 1;
    }
    RoundEnds(menus, seeds, ret', known', pending, next, parentMenus);
  }

  /** The parents of the first menus: known by then, or asked for. */
  ghost predicate Asked(ret: seq<Menu>, i: nat, known: set<Id>, pending: seq<Id>) {
    i <= |ret| && known == (set j | 0 <= j < i :: ret[j].id)
    && (forall j | 0 <= j < i && ret[j].parent.Some? :: ret[j].parent.value in pending || ret[j].parent.value in known)
    && forall p | p in pending :: exists m | m in ret :: m.parent == Some(p)
  }

  lemma SeedsReached(menus: seq<Menu>, seeds: set<Menu>)
    requires forall m | m in seeds :: m in menus && Usable(m)
    ensures AllReached(menus, seeds, seeds)
  {
    forall m | m in seeds ensures Reached(menus, seeds, m) { assert Ancestor(menus, m, 0) == Some(m); }
  }

  lemma KnownAreSeeds(ret: seq<Menu>, known: set<Id>, pending: seq<Id>)
    requires Asked(ret, |ret|, known, pending)
    ensures known == IdsOf(Elements(ret))
  {
    forall m | m in Elements(ret) ensures m.id in known { var j :| 0 <= j < |ret| && ret[j] == m; }
    forall k | k in known ensures k in IdsOf(Elements(ret)) { var j :| 0 <= j < |ret| && ret[j].id == k; assert ret[j] in Elements(ret); }
  }

  lemma SeedCovered(menus: seq<Menu>, ret: seq<Menu>, known: set<Id>, pending: seq<Id>, m: Menu)
    requires Unique(menus) && Asked(ret, |ret|, known, pending) && (forall x | x in ret :: x in menus && Usable(x))
    requires m in ret && ActiveParent(menus, m).Some?
    ensures ActiveParent(menus, m).value in ret || m.parent.value in pending
  {
    var j :| 0 <= j < |ret| && ret[j] == m;
    if m.parent.value in known {
      var i :| 0 <= i < |ret| && ret[i].id == m.parent.value;
      assert ret[i] in ret;
      ParentIs(menus, m, ret[i]);
    }
  }

  lemma FrontierFound(menus: seq<Menu>, ret: seq<Menu>, known: set<Id>, pending: seq<Id>)
    requires Unique(menus) && |Elements(ret)| == |ret| && (forall m | m in ret :: m in menus && Usable(m))
    requires Asked(ret, |ret|, known, pending)
    ensures Found(menus, Elements(ret), Elements(ret), Elements(pending)) && Kept(menus, ret, known)
  {
    SeedsReached(menus, Elements(ret));
    KnownAreSeeds(ret, known, pending);
    forall m | m in Elements(ret) && ActiveParent(menus, m).Some?
      ensures ActiveParent(menus, m).value in Elements(ret) || m.parent.value in Elements(pending)
    {
      SeedCovered(menus, ret, known, pending, m);
    }
  }

  /** The first frontier: parents of the named menus that were not met before them. */
  method FirstFrontier(menus: seq<Menu>, ret: seq<Menu>) returns (known: set<Id>, pending: seq<Id>)
    requires Unique(menus) && |Elements(ret)| == |ret| && forall m | m in ret :: m in menus && Usable(m)
    ensures Found(menus, Elements(ret), Elements(ret), Elements(pending)) && Kept(menus, ret, known)
  {
    known, pending := {}, [];
    var i := 0;
    while i < |ret|
      invariant i <= |ret| && Asked(ret, i, known, pending)
    {
      known := known + {ret[i].id};
      if ret[i].parent.Some? && ret[i].parent.value !in known {
        pending := pending + [ret[i].parent.value];
      }
      i := i + 1;
    }
    FrontierFound(menus, ret, known, pending);
  }

  /** With nothing pending, what was found is what is reached. */
  lemma SearchDone(menus: seq<Menu>, seeds: set<Menu>, found: set<Menu>)
    requires Found(menus, seeds, found, {})
    ensures forall m :: m in found <==> Reached(menus, seeds, m)
  {
    forall m | Reached(menus, seeds, m) ensures m in found {
      var s, n: nat :| s in seeds && Ancestor(menus, s, n) == Some(m);
      ReachedIsLeast(menus, found, s, n);
    }
  }

  lemma FoundFewer(menus: seq<Menu>, ret: seq<Menu>, known: set<Id>)
    requires Kept(menus, ret, known)
    ensures |ret| <= |menus|
  {
    Listed(menus);
    SubsetSize(Elements(ret), Elements(menus));
  }

  /** Every search ends, parent cycles or not: each round finds a new menu or is the last. */
  method GetUserMenus(menus: seq<Menu>, resources: set<Name>) returns (ret: seq<Menu>)
    requires Unique(menus)
    ensures forall m :: m in ret <==> Reached(menus, Seeds(menus, resources), m)
    ensures Sees(menus, ret, (m: Menu) => m.name in resources && m.active && !m.deleted)
    ensures |Elements(ret)| == |ret|
  {
    ret := Load(menus, (m: Menu) => m.name in resources && Usable(m));
    ghost var seeds := Elements(ret);
    assert seeds == Seeds(menus, resources);
    var known, pending := FirstFrontier(menus, ret);
    while pending != []
      invariant Found(menus, seeds, Elements(ret), Elements(pending)) && Kept(menus, ret, known)
      decreases |menus| - |ret|, |pending|
    {
      ret, known, pending := Expand(menus, seeds, ret, known, pending);
      FoundFewer(menus, ret, known);
    }
    assert Elements(pending) == {};
    SearchDone(menus, seeds, Elements(ret));
    ReachedSees(menus, ret, seeds, (m: Menu) => m.name in resources && m.active && !m.deleted);
  }

  // ---------------------------------------------------------------- both find the same menus

  ghost predicate ActiveRows(menus: seq<Menu>, activeMenus: seq<Menu>) {
    forall m :: m in activeMenus <==> m in menus && Usable(m)
  }

  lemma SameParent(menus: seq<Menu>, activeMenus: seq<Menu>, m: Menu)
    requires Unique(menus) && ActiveRows(menus, activeMenus)
    ensures ActiveParent(activeMenus, m) == ActiveParent(menus, m)
  {
    if m.parent.Some? {
      var p, p' := Find(activeMenus, m.parent.value), Find(menus, m.parent.value);
      if p.Some? && p'.Some? { SameId(menus, p.value, p'.value); }
    }
  }

  lemma {:induction false} SameAncestor(menus: seq<Menu>, activeMenus: seq<Menu>, m: Menu, n: nat)
    requires Unique(menus) && ActiveRows(menus, activeMenus)
    ensures Ancestor(activeMenus, m, n) == Ancestor(menus, m, n)
  {
    if n > 0 {
      SameAncestor(menus, activeMenus, m, n - 1);
      if Ancestor(menus, m, n - 1).Some? { SameParent(menus, activeMenus, Ancestor(menus, m, n - 1).value); }
    }
  }

  /** The walk over the active rows and the search over the whole table give the same menus. */
  lemma WalkAndSearchAgree(menus: seq<Menu>, activeMenus: seq<Menu>, resources: set<Name>, m: Menu)
    requires Unique(menus) && ActiveRows(menus, activeMenus)
    ensures m in Keep(activeMenus, Ids(activeMenus, Named(activeMenus, resources))) <==> Reached(menus, Seeds(menus, resources), m)
  {
    var seeds := Seeds(menus, resources);
    assert Named(activeMenus, resources) == seeds;
    KeepElements(activeMenus, Ids(activeMenus, seeds));
    if Reached(menus, seeds, m) {
      var s, n: nat :| s in seeds && Ancestor(menus, s, n) == Some(m);
      SameAncestor(menus, activeMenus, s, n);
      AncestorListed(activeMenus, s, n);
    }
    if m in Keep(activeMenus, Ids(activeMenus, seeds)) {
      var x :| x in activeMenus && Reached(activeMenus, seeds, x) && x.id == m.id;
      SameId(menus, x, m);
      var s, n: nat :| s in seeds && Ancestor(activeMenus, s, n) == Some(m);
      SameAncestor(menus, activeMenus, s, n);
    }
  }
}
