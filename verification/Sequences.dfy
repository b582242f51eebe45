/** Filtering and mapping over sequences. */
module Sequences {

  function Filter<T(!new)>(keep: T -> bool, s: seq<T>): (r: seq<T>)
    ensures |r| <= |s|
    ensures forall x :: x in r <==> x in s && keep(x)
  {
    if s == [] then []
    else
      assert s == [s[0]] + s[1..];
      var rest := Filter(keep, s[1..]);
      if keep(s[0]) then [s[0]] + rest else rest
  }

  function Map<T, U>(f: T -> U, s: seq<T>): (r: seq<U>)
    ensures |r| == |s| && forall i | 0 <= i < |s| :: r[i] == f(s[i])
  {
    seq(|s|, i requires 0 <= i < |s| => f(s[i]))
  }

  ghost predicate Distinct<T>(s: seq<T>) {
    forall i, j | 0 <= i < j < |s| :: s[i] != s[j]
  }

  lemma FilterAppend<T(!new)>(keep: T -> bool, a: seq<T>, b: seq<T>)
    ensures Filter(keep, a + b) == Filter(keep, a) + Filter(keep, b)
  {
    if a == [] {
      assert a + b == b;
    } else {
      assert (a + b)[1..] == a[1..] + b;
    }
  }

  lemma FilterAll<T(!new)>(keep: T -> bool, s: seq<T>)
    requires forall x | x in s :: keep(x)
    ensures Filter(keep, s) == s
  {
  }

  lemma FilterNone<T(!new)>(keep: T -> bool, s: seq<T>)
    requires forall x | x in s :: !keep(x)
    ensures Filter(keep, s) == []
  {
  }

  /** In a list without repeated keys, a filter that names one key keeps one element. */
  lemma {:induction false} FilterSingle<T(!new)>(keep: T -> bool, s: seq<T>, i: nat)
    requires i < |s| && keep(s[i])
    requires forall j | 0 <= j < |s| && j != i :: !keep(s[j])
    ensures Filter(keep, s) == [s[i]]
  {
    if i == 0 {
      FilterNone(keep, s[1..]);
    } else {
      FilterSingle(keep, s[1..], i - 1);
    }
  }

  // ----- Elements -----

  function Elements<T>(s: seq<T>): set<T> {
    set x | x in s
  }

  /** A list has as many members as elements exactly when nothing repeats. */
  lemma {:induction false} DistinctExactly<T>(s: seq<T>)
    ensures |Elements(s)| <= |s|
    ensures |Elements(s)| == |s| <==> Distinct(s)
  {
    if s == [] {
      assert Elements(s) == {};
    } else {
      var n := |s| - 1;
      DistinctExactly(s[..n]);
      var front := Elements(s[..n]);
      assert s == s[..n] + [s[n]];
      assert Elements(s) == front + {s[n]};
      if Distinct(s) {
        assert s[n] !in front;
      } else if s[n] !in s[..n] {
        assert !Distinct(s[..n]);
      } else {
        var k :| 0 <= k < n && s[..n][k] == s[n];
        assert s[k] == s[n] && s[n] in front;
      }
    }
  }

  function Below(n: nat): (r: set<nat>)
    ensures |r| == n && forall i :: i in r <==> 0 <= i < n
  {
    if n == 0 then {} else Below(n - 1) + {n - 1}
  }

  lemma {:induction false} SubsetSize<T>(a: set<T>, b: set<T>)
    requires a <= b
    ensures |a| <= |b|
    ensures |a| == |b| ==> a == b
  {
    if a != {} {
      var x :| x in a;
      SubsetSize(a - {x}, b - {x});
      assert a == (a - {x}) + {x} && b == (b - {x}) + {x};
    }
  }

  /** A list of n distinct indices below n leaves none out. */
  lemma DistinctIsOnto(f: seq<nat>, j: nat)
    requires Distinct(f) && (forall i | 0 <= i < |f| :: f[i] < |f|) && j < |f|
    ensures j in f
  {
    DistinctExactly(f);
    SubsetSize(Elements(f), Below(|f|));
    assert j in Elements(f);
  }
}
