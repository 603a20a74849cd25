/** Finite sets under an order, and sums over them. */
module Finite {

  ghost predicate Orders<T(!new)>(s: set<T>, before: (T, T) -> bool) {
    (forall x, y | x in s && y in s && x != y :: before(x, y) || before(y, x))
    && (forall x, y, z | x in s && y in s && z in s && before(x, y) && before(y, z) :: before(x, z))
  }

  /** A nonempty finite set has an element before all others. */
  lemma {:induction false} FirstExists<T(!new)>(s: set<T>, before: (T, T) -> bool) returns (first: T)
    requires s != {} && Orders(s, before)
    ensures first in s && forall x | x in s && x != first :: before(first, x)
  {
    var x :| x in s;
    if s == {x} {
      first := x;
    } else {
      var f := FirstExists(s - {x}, before);
      first := if before(x, f) then x else f;
    }
  }

  ghost function Pick<T>(s: set<T>): (x: T)
    requires s != {}
    ensures x in s
  {
    var x :| x in s; x
  }

  /** The sum of a measure over a set. */
  ghost function Sum<T(!new)>(s: set<T>, f: T -> int): int {
    if s == {} then 0 else var x := Pick(s); f(x) + Sum(s - {x}, f)
  }

  /** A sum does not depend on the order in which the elements are taken. */
  lemma {:induction false} SumTake<T(!new)>(s: set<T>, f: T -> int, x: T)
    requires x in s
    ensures Sum(s, f) == f(x) + Sum(s - {x}, f)
  {
    var p := Pick(s);
    if p != x {
      SumTake(s - {p}, f, x);
      SumTake(s - {x}, f, p);
      assert s - {p} - {x} == s - {x} - {p};
    }
  }

  lemma {:induction false} SumSame<T(!new)>(s: set<T>, f: T -> int, g: T -> int)
    requires forall x | x in s :: f(x) == g(x)
    ensures Sum(s, f) == Sum(s, g)
  {
    if s != {} {
      SumSame(s - {Pick(s)}, f, g);
    }
  }

  lemma {:induction false} SubsetSize<T>(a: set<T>, b: set<T>)
    requires a <= b
    ensures |a| <= |b|
    ensures |a| == |b| ==> a == b
  {
    if a != {} {
      var x :| x in a;
      SubsetSize(a - {x}, b - {x});
    }
  }

  ghost function Image<A(!new), B(!new)>(s: set<A>, f: A --> B): set<B>
    requires forall x | x in s :: f.requires(x)
  {
    set x | x in s :: f(x)
  }

  lemma {:induction false} ImageSize<A(!new), B(!new)>(s: set<A>, f: A --> B)
    requires forall x | x in s :: f.requires(x)
    requires forall x, y | x in s && y in s && f(x) == f(y) :: x == y
    ensures |Image(s, f)| == |s|
  {
    if s == {} {
      assert Image(s, f) == {};
    } else {
      var x :| x in s;
      ImageSize(s - {x}, f);
      assert Image(s, f) == Image(s - {x}, f) + {f(x)};
    }
  }
}
