/** The arithmetic several parts share: sums for counting and for measures over sequences of
    entities, and remainders. */
module Sums {

  function Sum(xs: seq<nat>): nat {
    if xs == [] then 0 else Sum(xs[..|xs| - 1]) + xs[|xs| - 1]
  }

  lemma SumAppend(xs: seq<nat>, x: nat)
    ensures Sum(xs + [x]) == Sum(xs) + x
  {
    assert (xs + [x])[..|xs|] == xs;
  }

  lemma {:induction false} SumUpdate(xs: seq<nat>, i: nat, x: nat)
    requires i < |xs|
    ensures xs[i] <= Sum(xs) && Sum(xs[i := x]) == Sum(xs) - xs[i] + x
  {
    var last := |xs| - 1;
    if i == last {
      assert xs[i := x][..last] == xs[..last];
    } else {
      SumUpdate(xs[..last], i, x);
      assert xs[i := x][..last] == xs[..last][i := x];
    }
  }

  lemma {:induction false} SumRemove(xs: seq<nat>, i: nat)
    requires i < |xs|
    ensures Sum(xs[..i] + xs[i + 1..]) == Sum(xs) - xs[i]
    decreases |xs|
  {
    var last := |xs| - 1;
    if i == last {
      assert xs[..i] + xs[i + 1..] == xs[..last];
    } else {
      SumRemove(xs[..last], i);
      assert xs[..i] + xs[i + 1..] == (xs[..last][..i] + xs[..last][i + 1..]) + [xs[last]];
      SumAppend(xs[..last][..i] + xs[..last][i + 1..], xs[last]);
    }
  }

  lemma {:induction false} SumOfEqual(xs: seq<nat>, x: nat)
    requires forall i :: 0 <= i < |xs| ==> xs[i] == x
    ensures Sum(xs) == |xs| * x
  {
    if xs != [] {
      var last := |xs| - 1;
      SumOfEqual(xs[..last], x);
      assert (last + 1) * x == last * x + x;
    }
  }

  // ------------------------------------------------------------------ multiples and remainders

  lemma {:induction false} MultiplesAreSpaced(a: int, b: int, size: nat)
    ensures a <= b ==> a * size <= b * size
    ensures a < b ==> a * size + size <= b * size
    decreases b - a
  {
    if a < b {
      MultiplesAreSpaced(a, b - 1, size);
      OneMoreTimes(b - 1, size);
    }
  }

  lemma OneMoreTimes(a: int, size: nat)
    ensures (a + 1) * size == a * size + size
  {
  }

  /** A quotient and a remainder are the only ones. */
  lemma DivisionIsUnique(n: nat, q: int, r: nat, p: int, t: nat)
    requires q * n + r == p * n + t && r < n && t < n
    ensures q == p && r == t
  {
    MultiplesAreSpaced(q, p, n);
    MultiplesAreSpaced(p, q, n);
  }

  lemma RemainderIs(a: nat, n: nat, q: int, r: nat)
    requires r < n && a == q * n + r
    ensures a % n == r
  {
    DivisionIsUnique(n, a / n, a % n, q, r);
  }

  lemma NextRemainder(a: nat, n: nat)
    requires 0 < n
    ensures (a % n + 1) % n == (a + 1) % n
  {
    var q, r := a / n, a % n;
    if r + 1 == n {
      OneMoreTimes(q, n);
      RemainderIs(a + 1, n, q + 1, 0);
      RemainderIs(n, n, 1, 0);
    } else {
      RemainderIs(a + 1, n, q, r + 1);
      RemainderIs(r + 1, n, 0, r + 1);
    }
  }
}
