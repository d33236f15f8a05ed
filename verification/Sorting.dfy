/** Hash-map keys come in no particular order; sorting them removes that freedom. */
module Sorting {

  ghost predicate TotalOrder<T(!new)>(leq: (T, T) -> bool) {
    && (forall x, y :: leq(x, y) || leq(y, x))
    && (forall x, y, z :: leq(x, y) && leq(y, z) ==> leq(x, z))
  }

  ghost predicate SortedBy<T>(leq: (T, T) -> bool, xs: seq<T>) {
    forall i, j :: 0 <= i < j < |xs| ==> leq(xs[i], xs[j])
  }

  ghost predicate Distinct<T>(xs: seq<T>) {
    forall i, j :: 0 <= i < j < |xs| ==> xs[i] != xs[j]
  }

  /** The elements of a set, in an arbitrary order. */
  method Collect<T(==)>(s: set<T>) returns (xs: seq<T>)
    ensures Distinct(xs)
    ensures forall x :: x in xs <==> x in s
  {
    xs := [];
    var rest := s;
    while rest != {}
      invariant rest <= s
      invariant Distinct(xs)
      invariant forall x :: x in xs <==> x in s - rest
      decreases rest
    {
      var x :| x in rest;
      assert x !in xs;
      xs := xs + [x];
      rest := rest - {x};
    }
  }

  method Sort<T(!new)>(xs: seq<T>, leq: (T, T) -> bool) returns (ys: seq<T>)
    requires TotalOrder(leq)
    requires Distinct(xs)
    ensures SortedBy(leq, ys) && Distinct(ys)
    ensures forall x :: x in ys <==> x in xs
  {
    ys := [];
    for i := 0 to |xs|
      invariant SortedBy(leq, ys) && Distinct(ys)
      invariant forall x :: x in ys <==> x in xs[..i]
    {
      var j := |ys|;
      while j > 0 && !leq(ys[j - 1], xs[i])
        invariant 0 <= j <= |ys|
        invariant forall k :: j <= k < |ys| ==> leq(xs[i], ys[k])
      {
        j := j - 1;
      }
      assert xs[i] !in xs[..i];
      assert xs[..i + 1] == xs[..i] + [xs[i]];
      InsertAt(ys, j, xs[i], leq);
      ys := ys[..j] + [xs[i]] + ys[j..];
    }
    assert xs[..|xs|] == xs;
  }

  lemma InsertAt<T(!new)>(ys: seq<T>, j: nat, x: T, leq: (T, T) -> bool)
    requires TotalOrder(leq) && SortedBy(leq, ys) && Distinct(ys)
    requires j <= |ys| && x !in ys
    requires j > 0 ==> leq(ys[j - 1], x)
    requires forall k :: j <= k < |ys| ==> leq(x, ys[k])
    ensures var zs := ys[..j] + [x] + ys[j..];
            && SortedBy(leq, zs) && Distinct(zs)
            && forall y :: y in zs <==> y in ys || y == x
  {
    forall k | 0 <= k < j ensures leq(ys[k], x) {
      assert k == j - 1 || leq(ys[k], ys[j - 1]);
    }
    var zs := ys[..j] + [x] + ys[j..];
    forall y | y in ys ensures y in zs {
      var k :| 0 <= k < |ys| && ys[k] == y;
      assert zs[if k < j then k else k + 1] == y;
    }
  }

  lemma TakeSnoc<T>(s: seq<T>, i: nat)
    requires i < |s|
    ensures s[..i + 1] == s[..i] + [s[i]]
  {
  }
}
