/** Small shared vocabulary: optional values and order-preserving filtering. */
module Common {

  datatype Option<+T> = None | Some(value: T) {
    /** This value, or the other one when there is none. */
    function Or(other: Option<T>): Option<T> {
      if Some? then this else other
    }

    function GetOr(default: T): T {
      if Some? then value else default
    }
  }

  function Elements<T>(s: seq<T>): set<T> { set x | x in s }

  ghost predicate Distinct<T>(s: seq<T>) {
    forall i, j | 0 <= i < j < |s| :: s[i] != s[j]
  }

  lemma {:induction false} DistinctFitsIn<T>(s: seq<T>, all: set<T>)
    requires Distinct(s) && forall x | x in s :: x in all
    ensures |s| <= |all|
  {
    if s != [] {
      DistinctFitsIn(s[..|s| - 1], all - {s[|s| - 1]});
    }
  }

  /** The first `n` elements, or all of fewer. */
  function First<T>(s: seq<T>, n: nat): seq<T> {
    if |s| <= n then s else s[..n]
  }

  /** The elements of `s` that satisfy `keep`, in their order. */
  function Filter<T(!new)>(s: seq<T>, keep: T -> bool): (r: seq<T>)
    ensures |r| <= |s|
    ensures forall x :: x in r <==> x in s && keep(x)
  {
    if s == [] then []
    else if keep(s[0]) then [s[0]] + Filter(s[1..], keep)
    else Filter(s[1..], keep)
  }

  lemma {:induction false} FilterJoins<T(!new)>(a: seq<T>, b: seq<T>, keep: T -> bool)
    ensures Filter(a + b, keep) == Filter(a, keep) + Filter(b, keep)
  {
    if a == [] {
      assert a + b == b;
    } else {
      assert (a + b)[1..] == a[1..] + b;
      FilterJoins(a[1..], b, keep);
    }
  }

  /** How a loop that looks at one more element extends what it kept. */
  lemma FilterGrows<T(!new)>(s: seq<T>, i: nat, keep: T -> bool)
    requires i < |s|
    ensures Filter(s[..i + 1], keep) == Filter(s[..i], keep) + (if keep(s[i]) then [s[i]] else [])
  {
    assert s[..i + 1] == s[..i] + [s[i]];
    FilterJoins(s[..i], [s[i]], keep);
  }

  lemma {:induction false} FilterAgrees<T(!new)>(s: seq<T>, keep: T -> bool, other: T -> bool)
    requires forall x | x in s :: keep(x) <==> other(x)
    ensures Filter(s, keep) == Filter(s, other)
  {
    if s != [] {
      FilterAgrees(s[1..], keep, other);
    }
  }

  /** What `f` makes of each element, in order. */
  function Map<T, U>(s: seq<T>, f: T -> U): (r: seq<U>)
    ensures |r| == |s|
    ensures forall i | 0 <= i < |s| :: r[i] == f(s[i])
  {
    if s == [] then [] else [f(s[0])] + Map(s[1..], f)
  }

  lemma {:induction false} FilterKeepsDistinct<T(!new), U>(s: seq<T>, keep: T -> bool, key: T -> U)
    requires Distinct(Map(s, key))
    ensures Distinct(Map(Filter(s, keep), key))
  {
    if s != [] {
      var rest := s[1..];
      var keys := Map(s, key);
      assert forall i | 0 <= i < |rest| :: rest[i] == s[i + 1] && keys[i + 1] == key(s[i + 1]) && keys[0] == key(s[0]);
      FilterKeepsDistinct(rest, keep, key);
      var kept := Filter(rest, keep);
      if keep(s[0]) {
        var r := Filter(s, keep);
        assert r == [s[0]] + kept;
        forall j | 0 <= j < |kept| ensures key(kept[j]) != key(s[0]) {
          assert kept[j] in kept;
          var i :| 0 <= i < |rest| && rest[i] == kept[j];
          assert keys[0] != keys[i + 1];
        }
        forall i, j | 0 <= i < j < |r| ensures Map(r, key)[i] != Map(r, key)[j] {
          assert Map(kept, key)[j - 1] == key(kept[j - 1]) == key(r[j]);
          if i > 0 {
            assert Map(kept, key)[i - 1] == key(kept[i - 1]) == key(r[i]);
          }
        }
      }
    }
  }
}
