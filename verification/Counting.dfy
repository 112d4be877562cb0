/** Sums and bags over sequences, independent of order. */
module Counting {
  import opened Text

  function Sum<A>(xs: seq<A>, f: A -> nat): nat {
    if xs == [] then 0 else Sum(Init(xs), f) + f(Last(xs))
  }

  /** One for `x`, zero for everything else. */
  function Is<A(==)>(x: A): A -> nat {
    y => if y == x then 1 else 0
  }

  /** How often `x` occurs in `xs`. */
  function Occurrences<A(==)>(xs: seq<A>, x: A): nat {
    Sum(xs, Is(x))
  }

  lemma {:induction false} SumConcat<A>(xs: seq<A>, ys: seq<A>, f: A -> nat)
    ensures Sum(xs + ys, f) == Sum(xs, f) + Sum(ys, f)
    decreases |ys|
  {
    if ys == [] {
      assert xs + ys == xs;
    } else {
      SumConcat(xs, Init(ys), f);
      assert Init(xs + ys) == xs + Init(ys);
    }
  }

  lemma SumOne<A>(x: A, f: A -> nat)
    ensures Sum([x], f) == f(x)
  {
    assert Init([x]) == [];
  }

  lemma SumHead<A>(xs: seq<A>, f: A -> nat)
    requires xs != []
    ensures Sum(xs, f) == f(xs[0]) + Sum(xs[1..], f)
  {
    SumConcat([xs[0]], xs[1..], f);
    SumOne(xs[0], f);
    assert [xs[0]] + xs[1..] == xs;
  }

  lemma {:induction false} SumUpdate<A>(xs: seq<A>, i: nat, x: A, f: A -> nat)
    requires i < |xs|
    ensures Sum(xs[i := x], f) + f(xs[i]) == Sum(xs, f) + f(x)
  {
    if i == |xs| - 1 {
      assert Init(xs[i := x]) == Init(xs);
    } else {
      SumUpdate(Init(xs), i, x, f);
      assert Init(xs[i := x]) == Init(xs)[i := x];
    }
  }

  lemma SumAppend<A>(xs: seq<A>, x: A, f: A -> nat)
    ensures Sum(xs + [x], f) == Sum(xs, f) + f(x)
  {
    assert Init(xs + [x]) == xs;
  }

  lemma {:induction false} SumPositive<A>(xs: seq<A>, f: A -> nat)
    ensures Sum(xs, f) > 0 <==> exists i :: 0 <= i < |xs| && f(xs[i]) > 0
  {
    if xs != [] {
      SumPositive(Init(xs), f);
      assert forall i | 0 <= i < |xs| - 1 :: Init(xs)[i] == xs[i];
      if i :| 0 <= i < |xs| && f(xs[i]) > 0 {
        if i < |xs| - 1 { assert f(Init(xs)[i]) > 0; }
      }
      if f(Last(xs)) > 0 { assert f(xs[|xs| - 1]) > 0; }
      if Sum(Init(xs), f) > 0 {
        var i :| 0 <= i < |Init(xs)| && f(Init(xs)[i]) > 0;
        assert f(xs[i]) > 0;
      }
    }
  }

  lemma OccursIn<A>(xs: seq<A>, x: A)
    ensures Occurrences(xs, x) > 0 <==> x in xs
  {
    SumPositive(xs, Is(x));
    if x in xs {
      var i :| 0 <= i < |xs| && xs[i] == x;
      assert Is(x)(xs[i]) > 0;
    }
  }

  lemma {:induction false} SumZero<A>(xs: seq<A>, f: A -> nat)
    requires forall i | 0 <= i < |xs| :: f(xs[i]) == 0
    ensures Sum(xs, f) == 0
  {
    if xs != [] {
      assert forall i | 0 <= i < |xs| - 1 :: Init(xs)[i] == xs[i];
      SumZero(Init(xs), f);
    }
  }

  lemma {:induction false} SumBound<A>(xs: seq<A>, f: A -> nat, bound: nat)
    requires forall i | 0 <= i < |xs| :: f(xs[i]) <= bound
    ensures Sum(xs, f) <= |xs| * bound
  {
    if xs != [] {
      assert forall i | 0 <= i < |xs| - 1 :: Init(xs)[i] == xs[i];
      SumBound(Init(xs), f, bound);
      assert |xs| * bound == (|xs| - 1) * bound + bound;
    }
  }

  lemma SumRemove<A>(xs: seq<A>, i: nat, f: A -> nat)
    requires i < |xs|
    ensures Sum(xs, f) == Sum(xs[..i] + xs[i + 1..], f) + f(xs[i])
  {
    hide Sum;
    assert xs == xs[..i] + [xs[i]] + xs[i + 1..];
    SumConcat(xs[..i] + [xs[i]], xs[i + 1..], f);
    SumAppend(xs[..i], xs[i], f);
    SumConcat(xs[..i], xs[i + 1..], f);
  }

  lemma TwoPlacesSum<A>(xs: seq<A>, f: A -> nat, i: nat, j: nat)
    requires i < |xs| && j < |xs| && i != j && f(xs[i]) > 0 && f(xs[j]) > 0
    ensures Sum(xs, f) >= 2
  {
    SumRemove(xs, i, f);
    var rest := xs[..i] + xs[i + 1..];
    SumPositive(rest, f);
    var k := if j < i then j else j - 1;
    assert rest[k] == xs[j];
  }

  /** A sum of one has one place it comes from. */
  lemma SumOfOneIsUnique<A>(xs: seq<A>, f: A -> nat, i: nat, j: nat)
    requires Sum(xs, f) == 1 && i < |xs| && j < |xs| && f(xs[i]) > 0 && f(xs[j]) > 0
    ensures i == j
  {
    if i != j {
      TwoPlacesSum(xs, f, i, j);
    }
  }

  /** Lists with the same occurrences have the same sums. */
  lemma {:induction false} SumOfPermutation<A>(xs: seq<A>, ys: seq<A>, f: A -> nat)
    requires forall x :: Occurrences(xs, x) == Occurrences(ys, x)
    ensures Sum(xs, f) == Sum(ys, f)
    decreases |xs|
  {
    if xs == [] {
      if ys != [] {
        OccursIn(xs, ys[0]);
        OccursIn(ys, ys[0]);
      }
    } else {
      var x := Last(xs);
      OccursIn(xs, x);
      OccursIn(ys, x);
      var i :| 0 <= i < |ys| && ys[i] == x;
      var rest := ys[..i] + ys[i + 1..];
      forall y ensures Occurrences(Init(xs), y) == Occurrences(rest, y) {
        assert Occurrences(xs, y) == Occurrences(ys, y);
        SumRemove(ys, i, Is(y));
      }
      SumOfPermutation(Init(xs), rest, f);
      SumRemove(ys, i, f);
    }
  }
}
