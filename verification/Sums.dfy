/** Finite sums of reals over lists. */
module Sums {
  import opened Sequences

  function Total<T>(xs: seq<T>, f: T -> real): real {
    if xs == [] then 0.0 else Total(Front(xs), f) + f(Last(xs))
  }

  lemma {:induction false} TotalSame<T>(xs: seq<T>, f: T -> real, g: T -> real)
    requires forall x :: x in xs ==> f(x) == g(x)
    ensures Total(xs, f) == Total(xs, g)
  {
    if xs != [] {
      assert Last(xs) in xs;
      TotalSame(Front(xs), f, g);
    }
  }

  lemma {:induction false} TotalConcat<T>(xs: seq<T>, ys: seq<T>, f: T -> real)
    ensures Total(xs + ys, f) == Total(xs, f) + Total(ys, f)
  {
    if ys == [] {
      assert xs + ys == xs;
    } else {
      assert Front(xs + ys) == xs + Front(ys);
      TotalConcat(xs, Front(ys), f);
    }
  }

  /** A sum goes through any additive function. */
  lemma {:induction false} TotalThrough<T>(xs: seq<T>, h: real -> real, f: T -> real, g: T -> real)
    requires h(0.0) == 0.0 && forall x, y :: h(x + y) == h(x) + h(y)
    requires forall x :: x in xs ==> g(x) == h(f(x))
    ensures Total(xs, g) == h(Total(xs, f))
  {
    if xs != [] {
      assert Last(xs) in xs;
      TotalThrough(Front(xs), h, f, g);
    }
  }

  function Times(c: real, x: real): real {
    c * x
  }

  lemma TimesAdds(c: real)
    ensures Times(c, 0.0) == 0.0 && forall x, y :: Times(c, x + y) == Times(c, x) + Times(c, y)
  {
  }

  lemma TotalScale<T>(xs: seq<T>, c: real, f: T -> real, g: T -> real)
    requires forall x :: x in xs ==> g(x) == Times(c, f(x))
    ensures Total(xs, g) == Times(c, Total(xs, f))
  {
    TimesAdds(c);
    TotalThrough(xs, x => Times(c, x), f, g);
  }

  lemma {:induction false} TotalSum<T>(xs: seq<T>, f: T -> real, g: T -> real, h: T -> real)
    requires forall x :: x in xs ==> h(x) == f(x) + g(x)
    ensures Total(xs, h) == Total(xs, f) + Total(xs, g)
  {
    if xs != [] {
      assert Last(xs) in xs;
      TotalSum(Front(xs), f, g, h);
    }
  }

  lemma TotalMore<T>(xs: seq<T>, y: T, f: T -> real)
    ensures Total(xs + [y], f) == Total(xs, f) + f(y)
  {
    assert Front(xs + [y]) == xs;
  }

  lemma {:induction false} TotalZero<T>(xs: seq<T>, f: T -> real)
    requires forall x :: x in xs ==> f(x) == 0.0
    ensures Total(xs, f) == 0.0
  {
    if xs != [] {
      assert Last(xs) in xs;
      TotalZero(Front(xs), f);
    }
  }

  function Across<X, Y>(f: (X, Y) -> real, x: X): Y -> real {
    y => f(x, y)
  }

  function Down<X, Y>(f: (X, Y) -> real, y: Y): X -> real {
    x => f(x, y)
  }

  function Rows<X, Y>(ys: seq<Y>, f: (X, Y) -> real): X -> real {
    x => Total(ys, Across(f, x))
  }

  function Columns<X, Y>(xs: seq<X>, f: (X, Y) -> real): Y -> real {
    y => Total(xs, Down(f, y))
  }

  /** Sums may be taken in either order. */
  lemma {:induction false} TotalSwap<X, Y>(xs: seq<X>, ys: seq<Y>, f: (X, Y) -> real)
    ensures Total(xs, Rows(ys, f)) == Total(ys, Columns(xs, f))
  {
    if xs == [] {
      TotalZero(ys, Columns(xs, f));
    } else {
      TotalSwap(Front(xs), ys, f);
      TotalSum(ys, Columns(Front(xs), f), Across(f, Last(xs)), Columns(xs, f));
    }
  }

  lemma {:induction false} TotalPositive<T>(xs: seq<T>, f: T -> real)
    requires forall x :: x in xs ==> f(x) >= 0.0
    ensures Total(xs, f) >= 0.0
    ensures Total(xs, f) > 0.0 <==> exists x :: x in xs && f(x) > 0.0
  {
    if xs != [] {
      assert Last(xs) in xs;
      TotalPositive(Front(xs), f);
      assert forall x :: x in xs <==> x in Front(xs) || x == Last(xs);
    }
  }

  /** How often x occurs in xs. */
  function Count<T(==)>(xs: seq<T>, x: T): nat {
    if xs == [] then 0 else Count(Front(xs), x) + if Last(xs) == x then 1 else 0
  }

  lemma {:induction false} CountPositive<T>(xs: seq<T>, x: T)
    ensures Count(xs, x) > 0 <==> x in xs
  {
    if xs != [] {
      CountPositive(Front(xs), x);
      assert x in xs <==> x in Front(xs) || x == Last(xs);
    }
  }

  lemma {:induction false} CountConcat<T>(xs: seq<T>, ys: seq<T>, x: T)
    ensures Count(xs + ys, x) == Count(xs, x) + Count(ys, x)
  {
    if ys == [] {
      assert xs + ys == xs;
    } else {
      assert Front(xs + ys) == xs + Front(ys);
      CountConcat(xs, Front(ys), x);
    }
  }

  /** The sum of n copies of d. */
  function Copies(n: nat, d: real): real {
    if n == 0 then 0.0 else Copies(n - 1, d) + d
  }

  /** Changing the summand at one point changes the sum once for each occurrence. */
  lemma {:induction false} TotalChange<T>(xs: seq<T>, f: T -> real, g: T -> real, a: T)
    requires forall x :: x in xs && x != a ==> f(x) == g(x)
    ensures Total(xs, g) == Total(xs, f) + Copies(Count(xs, a), g(a) - f(a))
  {
    if xs != [] {
      assert Last(xs) in xs;
      TotalChange(Front(xs), f, g, a);
    }
  }

  function Without<T>(xs: seq<T>, i: nat): (ys: seq<T>)
    requires i < |xs|
    ensures |ys| == |xs| - 1
  {
    if i == |xs| - 1 then Front(xs) else Without(Front(xs), i) + [Last(xs)]
  }

  lemma {:induction false} TotalWithout<T>(xs: seq<T>, i: nat, f: T -> real)
    requires i < |xs|
    ensures Total(xs, f) == Total(Without(xs, i), f) + f(xs[i])
  {
    if i < |xs| - 1 {
      TotalWithout(Front(xs), i, f);
      assert Front(Without(xs, i)) == Without(Front(xs), i);
    }
  }

  lemma {:induction false} CountWithout<T>(xs: seq<T>, i: nat, z: T)
    requires i < |xs|
    ensures Count(xs, z) == Count(Without(xs, i), z) + if z == xs[i] then 1 else 0
  {
    if i < |xs| - 1 {
      CountWithout(Front(xs), i, z);
      assert Front(Without(xs, i)) == Without(Front(xs), i);
    }
  }

  /** ys holds the copies of the elements of xs that the filter keeps. */
  ghost predicate Filters<T(!new)>(xs: seq<T>, ys: seq<T>, keep: T -> bool) {
    forall z :: Count(ys, z) == if keep(z) then Count(xs, z) else 0
  }

  lemma FiltersNext<T(!new)>(xs: seq<T>, ys: seq<T>, keep: T -> bool) returns (ys': seq<T>, i: nat)
    requires xs != [] && Filters(xs, ys, keep)
    ensures Filters(Front(xs), ys', keep)
    ensures if keep(Last(xs)) then i < |ys| && ys[i] == Last(xs) && ys' == Without(ys, i) else ys' == ys
  {
    var x := Last(xs);
    ys', i := ys, 0;
    if keep(x) {
      assert Count(ys, x) > 0;
      CountPositive(ys, x);
      i :| 0 <= i < |ys| && ys[i] == x;
      ys' := Without(ys, i);
      forall z
        ensures Count(ys, z) == Count(ys', z) + if z == x then 1 else 0
      {
        CountWithout(ys, i, z);
      }
    }
  }

  lemma FiltersNone<T(!new)>(ys: seq<T>, keep: T -> bool)
    requires Filters([], ys, keep)
    ensures ys == []
  {
    assert ys == [] || Count(ys, Last(ys)) > 0;
  }

  lemma TotalKept<T>(ys: seq<T>, i: nat, kept: bool, x: T, f: T -> real)
    requires kept ==> i < |ys| && ys[i] == x
    ensures Total(ys, f) == if kept then Total(Without(ys, i), f) + f(x) else Total(ys, f)
  {
    if kept {
      TotalWithout(ys, i, f);
    }
  }

  /** A sum over what a filter keeps is the sum of the kept terms. */
  lemma {:induction false} TotalFiltered<T(!new)>(xs: seq<T>, ys: seq<T>, keep: T -> bool, f: T -> real, g: T -> real)
    requires Filters(xs, ys, keep)
    requires forall x :: x in xs ==> g(x) == if keep(x) then f(x) else 0.0
    ensures Total(ys, f) == Total(xs, g)
    decreases |xs|
  {
    if xs == [] {
      FiltersNone(ys, keep);
    } else {
      assert Last(xs) in xs;
      var ys', i := FiltersNext(xs, ys, keep);
      TotalFiltered(Front(xs), ys', keep, f, g);
      TotalKept(ys, i, keep(Last(xs)), Last(xs), f);
    }
  }

  lemma {:induction false} OccursOnce<T>(xs: seq<T>, a: T)
    requires NoRepeats(xs)
    ensures Count(xs, a) == if a in xs then 1 else 0
  {
    if xs != [] {
      OccursOnce(Front(xs), a);
      assert a in xs <==> a in Front(xs) || a == Last(xs);
    }
  }

  /** In a list without repeats one term can be set apart. */
  lemma TotalApart<T>(xs: seq<T>, f: T -> real, g: T -> real, a: T)
    requires NoRepeats(xs) && a in xs && g(a) == 0.0
    requires forall x :: x in xs && x != a ==> f(x) == g(x)
    ensures Total(xs, f) == f(a) + Total(xs, g)
  {
    OccursOnce(xs, a);
    TotalChange(xs, g, f, a);
  }
}
