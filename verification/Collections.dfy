/** Sequence vocabulary shared by the models: options, filters, sums and time order. */
module Collections {

  datatype Option<+T> = None | Some(value: T)

  function Max(a: real, b: real): real {
    if a < b then b else a
  }

  function Last<T>(xs: seq<T>): T
    requires xs != []
  {
    xs[|xs| - 1]
  }

  function Front<T>(xs: seq<T>): seq<T>
    requires xs != []
  {
    xs[..|xs| - 1]
  }

  lemma FrontAndLast<T>(xs: seq<T>)
    requires xs != []
    ensures xs == Front(xs) + [Last(xs)]
  {
  }

  /** The last n elements, or all of them when there are fewer. */
  function Tail<T>(xs: seq<T>, n: nat): (r: seq<T>)
    ensures |r| == if |xs| < n then |xs| else n
    ensures r == xs[|xs| - |r|..]
  {
    if |xs| <= n then xs else xs[|xs| - n..]
  }

  predicate Distinct<T(==)>(xs: seq<T>) {
    forall i, j :: 0 <= i < j < |xs| ==> xs[i] != xs[j]
  }

  // ------------------------------------------------------------- filtering

  function Filter<T>(xs: seq<T>, keep: T -> bool): seq<T> {
    if xs == [] then []
    else Filter(Front(xs), keep) + if keep(Last(xs)) then [Last(xs)] else []
  }

  lemma FilterSnoc<T>(xs: seq<T>, x: T, keep: T -> bool)
    ensures Filter(xs + [x], keep) == Filter(xs, keep) + if keep(x) then [x] else []
  {
    assert Front(xs + [x]) == xs;
  }

  lemma {:induction false} FilterConcat<T>(a: seq<T>, b: seq<T>, keep: T -> bool)
    ensures Filter(a + b, keep) == Filter(a, keep) + Filter(b, keep)
  {
    if b == [] {
      assert a + b == a;
    } else {
      FilterConcat(a, Front(b), keep);
      assert Front(a + b) == a + Front(b);
    }
  }

  lemma {:induction false} FilterMembers<T>(xs: seq<T>, keep: T -> bool)
    ensures forall x :: x in Filter(xs, keep) <==> x in xs && keep(x)
    ensures |Filter(xs, keep)| <= |xs|
  {
    if xs != [] {
      FilterMembers(Front(xs), keep);
      assert xs == Front(xs) + [Last(xs)];
    }
  }

  /** A filter changes nothing exactly when it drops no element. */
  lemma {:induction false} FilterAll<T>(xs: seq<T>, keep: T -> bool)
    ensures Filter(xs, keep) == xs <==> forall x :: x in xs ==> keep(x)
  {
    FilterMembers(xs, keep);
    if xs != [] && forall x :: x in xs ==> keep(x) {
      FilterAll(Front(xs), keep);
      assert xs == Front(xs) + [Last(xs)];
    }
  }

  lemma {:induction false} FilterNone<T>(xs: seq<T>, keep: T -> bool)
    requires forall x :: x in xs ==> !keep(x)
    ensures Filter(xs, keep) == []
  {
    if xs != [] {
      FilterNone(Front(xs), keep);
    }
  }

  // --------------------------------------------------------------- summing

  function SumBy<T>(xs: seq<T>, f: T -> int): int {
    if xs == [] then 0 else SumBy(Front(xs), f) + f(Last(xs))
  }

  /** The function f on the elements that satisfy keep, and 0 on the rest. */
  function OnlyWhere<T>(f: T -> int, keep: T -> bool): T -> int {
    (x: T) => if keep(x) then f(x) else 0
  }

  lemma {:induction false} SumConcat<T>(a: seq<T>, b: seq<T>, f: T -> int)
    ensures SumBy(a + b, f) == SumBy(a, f) + SumBy(b, f)
  {
    if b == [] {
      assert a + b == a;
    } else {
      SumConcat(a, Front(b), f);
      assert Front(a + b) == a + Front(b);
    }
  }

  lemma {:induction false} SumSplit<T>(xs: seq<T>, f: T -> int, g: T -> int, h: T -> int)
    requires forall x :: x in xs ==> f(x) == g(x) + h(x)
    ensures SumBy(xs, f) == SumBy(xs, g) + SumBy(xs, h)
  {
    if xs != [] {
      SumSplit(Front(xs), f, g, h);
    }
  }

  lemma {:induction false} SumMonotone<T>(xs: seq<T>, f: T -> int, g: T -> int)
    requires forall x :: x in xs ==> f(x) <= g(x)
    ensures SumBy(xs, f) <= SumBy(xs, g)
  {
    if xs != [] {
      SumMonotone(Front(xs), f, g);
    }
  }

  lemma {:induction false} SumCongruence<T>(xs: seq<T>, f: T -> int, g: T -> int)
    requires forall x :: x in xs ==> f(x) == g(x)
    ensures SumBy(xs, f) == SumBy(xs, g)
  {
    if xs != [] {
      SumCongruence(Front(xs), f, g);
    }
  }

  /** Of two functions, one below the other, the sums are equal exactly when the functions agree on every element. */
  lemma {:induction false} SumsEqualIff<T>(xs: seq<T>, f: T -> int, g: T -> int)
    requires forall x :: x in xs ==> f(x) <= g(x)
    ensures SumBy(xs, f) == SumBy(xs, g) <==> forall x :: x in xs ==> f(x) == g(x)
  {
    if xs != [] {
      SumsEqualIff(Front(xs), f, g);
      SumMonotone(Front(xs), f, g);
      assert xs == Front(xs) + [Last(xs)];
      assert Last(xs) in xs;
    }
  }

  function Zero<T>(): T -> int {
    (x: T) => 0
  }

  lemma {:induction false} SumOfZero<T>(xs: seq<T>)
    ensures SumBy(xs, Zero()) == 0
  {
    if xs != [] {
      SumOfZero(Front(xs));
    }
  }

  lemma {:induction false} SumNonNegative<T>(xs: seq<T>, f: T -> int)
    requires forall x :: x in xs ==> 0 <= f(x)
    ensures 0 <= SumBy(xs, f)
  {
    if xs != [] {
      SumNonNegative(Front(xs), f);
    }
  }

  lemma {:induction false} SumFilter<T>(xs: seq<T>, f: T -> int, keep: T -> bool)
    ensures SumBy(Filter(xs, keep), f) == SumBy(xs, OnlyWhere(f, keep))
  {
    if xs != [] {
      SumFilter(Front(xs), f, keep);
      SumConcat(Filter(Front(xs), keep), if keep(Last(xs)) then [Last(xs)] else [], f);
      assert SumBy([Last(xs)], f) == SumBy([], f) + f(Last(xs));
    }
  }
}
