/** Sums over finite sets. */
module SetSum {

  ghost function Sum<T>(s: set<T>, f: T -> int): int {
    if s == {} then 0
    else
      var x :| x in s;
      f(x) + Sum(s - {x}, f)
  }

  lemma {:induction false} SumWithout<T>(s: set<T>, f: T -> int, x: T)
    requires x in s
    ensures Sum(s, f) == f(x) + Sum(s - {x}, f)
    decreases |s|
  {
    var y :| y in s && Sum(s, f) == f(y) + Sum(s - {y}, f);
    if y != x {
      SumWithout(s - {y}, f, x);
      SumWithout(s - {x}, f, y);
      assert s - {y} - {x} == s - {x} - {y};
    }
  }

  lemma {:induction false} SumUnion<T>(a: set<T>, b: set<T>, f: T -> int)
    requires a !! b
    ensures Sum(a + b, f) == Sum(a, f) + Sum(b, f)
    decreases |a|
  {
    if a == {} {
      assert a + b == b;
    } else {
      var x :| x in a;
      SumWithout(a, f, x);
      SumWithout(a + b, f, x);
      assert a + b - {x} == (a - {x}) + b;
      SumUnion(a - {x}, b, f);
    }
  }

  lemma {:induction false} SumCongruent<T>(s: set<T>, f: T -> int, g: T -> int)
    requires forall x :: x in s ==> f(x) == g(x)
    ensures Sum(s, f) == Sum(s, g)
    decreases |s|
  {
    if s != {} {
      var x :| x in s;
      SumWithout(s, f, x);
      SumWithout(s, g, x);
      SumCongruent(s - {x}, f, g);
    }
  }

  lemma {:induction false} SumNonNegative<T>(s: set<T>, f: T -> int)
    requires forall x :: x in s ==> f(x) >= 0
    ensures Sum(s, f) >= 0
    decreases |s|
  {
    if s != {} {
      var x :| x in s;
      SumWithout(s, f, x);
      SumNonNegative(s - {x}, f);
    }
  }

  /** Sums of pointwise larger, non-negative addends are larger; equal sums mean
      equal addends, and none but zeros beside them. */
  lemma {:induction false} SumGrows<T>(a: set<T>, f: T -> int, b: set<T>, g: T -> int)
    requires a <= b && (forall x :: x in a ==> f(x) <= g(x)) && (forall x :: x in b ==> g(x) >= 0)
    ensures Sum(a, f) <= Sum(b, g)
    ensures Sum(a, f) == Sum(b, g) ==> forall x :: x in a ==> f(x) == g(x)
    ensures Sum(a, f) == Sum(b, g) ==> forall x :: x in b - a ==> g(x) == 0
    decreases |b|
  {
    if b != {} {
      var x :| x in b;
      SumWithout(b, g, x);
      if x in a {
        SumWithout(a, f, x);
        SumGrows(a - {x}, f, b - {x}, g);
      } else {
        SumGrows(a, f, b - {x}, g);
      }
    }
  }
}
