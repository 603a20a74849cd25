/** Which menus a user may see: those named by a resource, and their active ancestors. */
module Menus {
  import opened Text
  import opened Finite

  /** Identifiers and names are only compared for equality; an empty parent is none. */
  type Id = nat
  type Name = nat

  datatype Menu = Menu(id: Id, name: Name, parent: Option<Id>, active: bool, deleted: bool)

  /** Identifiers and names are unique in the table. */
  ghost predicate Unique(menus: seq<Menu>) {
    forall i, j | 0 <= i < j < |menus| :: menus[i].id != menus[j].id && menus[i].name != menus[j].name
  }

  predicate Usable(m: Menu) {
    m.active && !m.deleted
  }

  function Find(menus: seq<Menu>, id: Id): (r: Option<Menu>)
    ensures r.Some? ==> r.value in menus && r.value.id == id
    ensures r.None? ==> forall m | m in menus :: m.id != id
  {
    if menus == [] then None
    else if menus[0].id == id then Some(menus[0])
    else Find(menus[1..], id)
  }

  /** The parent a walk continues with: known, active and not deleted. */
  function ActiveParent(menus: seq<Menu>, m: Menu): Option<Menu> {
    if m.parent.None? then None
    else
      var p := Find(menus, m.parent.value);
      if p.Some? && Usable(p.value) then p else None
  }

  function Ancestor(menus: seq<Menu>, m: Menu, n: nat): Option<Menu> {
    if n == 0 then Some(m)
    else
      var a := Ancestor(menus, m, n - 1);
      if a.None? then None else ActiveParent(menus, a.value)
  }

  /** The menu is a seed or an active ancestor of one. */
  ghost predicate Reached(menus: seq<Menu>, seeds: set<Menu>, m: Menu) {
    exists s, n: nat | s in seeds :: Ancestor(menus, s, n) == Some(m)
  }

  ghost predicate ClosedUnderParents(menus: seq<Menu>, c: set<Menu>) {
    forall m | m in c && ActiveParent(menus, m).Some? :: ActiveParent(menus, m).value in c
  }

  ghost function Named(menus: seq<Menu>, resources: set<Name>): set<Menu> {
    set m | m in menus && m.name in resources
  }

  // ---------------------------------------------------------------- the closure is the least one

  /** Being reached is closed under active parents. */
  lemma ReachedIsClosed(menus: seq<Menu>, seeds: set<Menu>, m: Menu)
    requires Reached(menus, seeds, m) && ActiveParent(menus, m).Some?
    ensures Reached(menus, seeds, ActiveParent(menus, m).value)
  {
    var s, n: nat :| s in seeds && Ancestor(menus, s, n) == Some(m);
    assert Ancestor(menus, s, n + 1) == ActiveParent(menus, m);
  }

  /** Every closed set with the seeds in it holds whatever is reached. */
  lemma {:induction false} ReachedIsLeast(menus: seq<Menu>, c: set<Menu>, s: Menu, n: nat)
    requires ClosedUnderParents(menus, c) && s in c && Ancestor(menus, s, n).Some?
    ensures Ancestor(menus, s, n).value in c
  {
    if n > 0 {
      ReachedIsLeast(menus, c, s, n - 1);
    }
  }

  // ---------------------------------------------------------------- when the walk ends

  ghost predicate Ends(menus: seq<Menu>, m: Menu) {
    exists n: nat :: Ancestor(menus, m, n).None?
  }

  /** The walk meets some menu twice. */
  ghost predicate Repeats(menus: seq<Menu>, m: Menu) {
    exists i: nat, j: nat | i < j :: RepeatsAt(menus, m, i, j)
  }

  predicate RepeatsAt(menus: seq<Menu>, m: Menu, i: nat, j: nat) {
    Ancestor(menus, m, i).Some? && Ancestor(menus, m, i) == Ancestor(menus, m, j)
  }

  lemma {:induction false} EndedStays(menus: seq<Menu>, m: Menu, n: nat, k: nat)
    requires Ancestor(menus, m, n).None? && n <= k
    ensures Ancestor(menus, m, k).None?
    decreases k
  {
    if n < k { EndedStays(menus, m, n, k - 1); }
  }

  lemma {:induction false} Periodic(menus: seq<Menu>, m: Menu, i: nat, j: nat, k: nat)
    requires i < j && RepeatsAt(menus, m, i, j) && i <= k
    ensures Ancestor(menus, m, k + (j - i)) == Ancestor(menus, m, k)
    decreases k
  {
    if i < k { Periodic(menus, m, i, j, k - 1); }
  }

  lemma {:induction false} RepeatingGoesOn(menus: seq<Menu>, m: Menu, i: nat, j: nat, n: nat)
    requires i < j && RepeatsAt(menus, m, i, j)
    ensures Ancestor(menus, m, n).Some?
    decreases n
  {
    if n <= j {
      if Ancestor(menus, m, n).None? { EndedStays(menus, m, n, j); }
    } else {
      Periodic(menus, m, i, j, n - (j - i));
      RepeatingGoesOn(menus, m, i, j, n - (j - i));
    }
  }

  lemma AncestorListed(menus: seq<Menu>, m: Menu, n: nat)
    requires m in menus && Ancestor(menus, m, n).Some?
    ensures Ancestor(menus, m, n).value in menus
  {
  }

  lemma {:induction false} Listed(menus: seq<Menu>)
    ensures |set m | m in menus| <= |menus|
  {
    if menus != [] {
      Listed(menus[1..]);
      var rest := set m | m in menus[1..];
      assert (set m | m in menus) == rest + {menus[0]};
    } else {
      assert (set m | m in menus) == {};
    }
  }

  /** More steps than there are menus cannot all lead to different ones. */
  lemma LongWalkRepeats(menus: seq<Menu>, m: Menu)
    requires m in menus && Ancestor(menus, m, |menus|).Some?
    ensures Repeats(menus, m)
  {
    var steps := UpTo(|menus|);
    UpToFacts(|menus|);
    forall i: nat | i <= |menus| ensures Ancestor(menus, m, i).Some? {
      if Ancestor(menus, m, i).None? { EndedStays(menus, m, i, |menus|); }
    }
    var f: nat --> Menu := (i: nat) requires Ancestor(menus, m, i).Some? => Ancestor(menus, m, i).value;
    if forall i, j | i in steps && j in steps && f(i) == f(j) :: i == j {
      ImageSize<nat, Menu>(steps, f);
      forall x | x in Image<nat, Menu>(steps, f) ensures x in menus {
        var i :| i in steps && f(i) == x;
        AncestorListed(menus, m, i);
      }
      Listed(menus);
      SubsetSize(Image<nat, Menu>(steps, f), set x | x in menus);
      assert false;
    }
    var i, j :| i in steps && j in steps && f(i) == f(j) && i != j;
    assert RepeatsAt(menus, m, if i < j then i else j, if i < j then j else i);
  }

  ghost function UpTo(n: nat): set<nat> {
    if n == 0 then {0} else UpTo(n - 1) + {n}
  }

  lemma {:induction false} UpToFacts(n: nat)
    ensures |UpTo(n)| == n + 1 && forall i :: i in UpTo(n) <==> 0 <= i <= n
  {
    if n > 0 { UpToFacts(n - 1); }
  }

  /** The walk from a menu ends, and then within as many steps as there are menus, exactly when it never meets a menu twice. */
  lemma WalkEndsIff(menus: seq<Menu>, m: Menu)
    requires m in menus
    ensures Ends(menus, m) <==> !Repeats(menus, m)
    ensures Ends(menus, m) <==> Ancestor(menus, m, |menus|).None?
  {
    if Repeats(menus, m) {
      var i: nat, j: nat :| i < j && RepeatsAt(menus, m, i, j);
      forall n: nat ensures Ancestor(menus, m, n).Some? { RepeatingGoesOn(menus, m, i, j, n); }
    } else if Ancestor(menus, m, |menus|).Some? {
      LongWalkRepeats(menus, m);
    }
  }

  /** No menu is its own proper ancestor. */
  ghost predicate Acyclic(menus: seq<Menu>) {
    forall m, n: nat | m in menus && n > 0 :: Ancestor(menus, m, n) != Some(m)
  }

  lemma {:induction false} AncestorAdds(menus: seq<Menu>, m: Menu, i: nat, n: nat)
    requires Ancestor(menus, m, i).Some?
    ensures Ancestor(menus, m, i + n) == Ancestor(menus, Ancestor(menus, m, i).value, n)
  {
    if n > 0 { AncestorAdds(menus, m, i, n - 1); }
  }

  /** In a table without parent cycles every walk ends. */
  lemma AcyclicEnds(menus: seq<Menu>, m: Menu)
    requires Acyclic(menus) && m in menus
    ensures Ends(menus, m)
  {
    WalkEndsIff(menus, m);
    if Repeats(menus, m) {
      var i: nat, j: nat :| i < j && RepeatsAt(menus, m, i, j);
      AncestorAdds(menus, m, i, j - i);
      AncestorListed(menus, m, i);
    }
  }
}
