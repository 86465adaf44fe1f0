/** Finite sums. */
module Sums {
  ghost function Sum<T(!new)>(s: set<T>, f: T -> nat): nat {
    if s == {} then 0 else var x :| x in s; f(x) + Sum(s - {x}, f)
  }

  lemma {:induction false} SumSplit<T(!new)>(s: set<T>, f: T -> nat, x: T)
    requires x in s
    ensures Sum(s, f) == f(x) + Sum(s - {x}, f)
    decreases s
  {
    var y :| y in s && Sum(s, f) == f(y) + Sum(s - {y}, f);
    if y != x {
      SumSplit(s - {y}, f, x);
      SumSplit(s - {x}, f, y);
      assert s - {y} - {x} == s - {x} - {y};
    }
  }

  lemma {:induction false} SumSame<T(!new)>(s: set<T>, f: T -> nat, g: T -> nat)
    requires forall x :: x in s ==> f(x) == g(x)
    ensures Sum(s, f) == Sum(s, g)
    decreases s
  {
    if s != {} {
      var x :| x in s;
      SumSplit(s, f, x);
      SumSplit(s, g, x);
      SumSame(s - {x}, f, g);
    }
  }

  lemma {:induction false} SumPart<T(!new)>(part: set<T>, s: set<T>, f: T -> nat)
    requires part <= s
    ensures Sum(part, f) <= Sum(s, f)
    decreases part
  {
    if part != {} {
      var x :| x in part;
      SumSplit(part, f, x);
      SumSplit(s, f, x);
      SumPart(part - {x}, s - {x}, f);
    }
  }

  /** At most one term counts. */
  lemma {:induction false} SumOne<T(!new)>(s: set<T>, f: T -> nat, x: T)
    requires forall y :: y in s && y != x ==> f(y) == 0
    ensures Sum(s, f) == if x in s then f(x) else 0
    decreases s
  {
    if s != {} {
      var y :| y in s;
      SumSplit(s, f, y);
      SumOne(s - {y}, f, x);
    }
  }
}
