/**
 * The lodash helpers the release pipeline relies on, stated over Dafny
 * sequences: `includes` on a string, `filter`, `groupBy` and `dropRight`.
 */
module Lodash {

  predicate StartsWith(s: string, prefix: string)
  {
    |prefix| <= |s| && s[..|prefix|] == prefix
  }

  /** `value` occurs in `s` starting at index `i`. */
  predicate OccursAt(s: string, value: string, i: int)
  {
    0 <= i && i + |value| <= |s| && s[i..i + |value|] == value
  }

  /**
   * `_.includes(collection, value)` with a string collection, which lodash
   * evaluates as `collection.indexOf(value) > -1`: a substring test.
   */
  function Includes(collection: string, value: string): (r: bool)
    ensures StartsWith(collection, value) ==> r
    ensures r ==> |value| <= |collection|
    decreases |collection|
  {
    StartsWith(collection, value) || (|collection| > 0 && Includes(collection[1..], value))
  }

  /** A witness occurrence makes `Includes` hold. */
  lemma {:induction false} OccursAtIncludes(collection: string, value: string, i: int)
    requires OccursAt(collection, value, i)
    ensures Includes(collection, value)
    decreases i
  {
    if i == 0 {
      assert StartsWith(collection, value);
    } else {
      assert collection[1..][i - 1..i - 1 + |value|] == collection[i..i + |value|];
      OccursAtIncludes(collection[1..], value, i - 1);
    }
  }

  /** `Includes` holds exactly when `value` occurs somewhere in `collection`. */
  lemma {:induction false} IncludesIsSubstring(collection: string, value: string)
    ensures Includes(collection, value) <==> exists i :: OccursAt(collection, value, i)
    decreases |collection|
  {
    if StartsWith(collection, value) {
      assert OccursAt(collection, value, 0);
    } else if Includes(collection, value) {
      var tail := collection[1..];
      IncludesIsSubstring(tail, value);
      var i :| OccursAt(tail, value, i);
      assert collection[i + 1..i + 1 + |value|] == tail[i..i + |value|];
      assert OccursAt(collection, value, i + 1);
    }
    if exists i :: OccursAt(collection, value, i) {
      var i :| OccursAt(collection, value, i);
      OccursAtIncludes(collection, value, i);
    }
  }

  /**
   * An occurrence fits inside the collection, and a value as long as the
   * collection is included only when it is the collection itself.
   */
  lemma IncludesBounds(collection: string, value: string)
    requires Includes(collection, value)
    ensures |value| <= |collection|
    ensures |value| == |collection| ==> value == collection
  {
    IncludesIsSubstring(collection, value);
    var i :| OccursAt(collection, value, i);
    if |value| == |collection| {
      assert i == 0 && collection[0..|collection|] == collection;
    }
  }

  /** A value one shorter than the collection is included only as its first or last part. */
  lemma IncludesOneShorter(collection: string, value: string)
    requires Includes(collection, value) && |value| + 1 == |collection|
    ensures value == collection[..|value|] || value == collection[1..]
  {
    IncludesIsSubstring(collection, value);
    var i :| OccursAt(collection, value, i);
    assert i == 0 || i == 1;
  }

  /** `_.map(xs, f)`. */
  function Map<T, U>(xs: seq<T>, f: T -> U): (r: seq<U>)
    ensures |r| == |xs|
    ensures forall i | 0 <= i < |xs| :: r[i] == f(xs[i])
  {
    seq(|xs|, i requires 0 <= i < |xs| => f(xs[i]))
  }

  /** `_.filter(xs, p)`: the elements of `xs` satisfying `p`, in order. */
  function Filter<T>(xs: seq<T>, p: T -> bool): (r: seq<T>)
    ensures |r| <= |xs|
    ensures forall i | 0 <= i < |r| :: p(r[i])
    ensures forall x | x in r :: x in xs
  {
    if xs == [] then []
    else if p(xs[0]) then [xs[0]] + Filter(xs[1..], p)
    else Filter(xs[1..], p)
  }

  /** `xs` is obtained from `ys` by deleting elements, order kept. */
  predicate IsSubsequence<T(==)>(xs: seq<T>, ys: seq<T>)
    decreases |ys|
  {
    if ys == [] then xs == []
    else (xs != [] && xs[0] == ys[0] && IsSubsequence(xs[1..], ys[1..])) || IsSubsequence(xs, ys[1..])
  }

  /**
   * A filter keeps input order, loses exactly the elements failing `p`, and
   * keeps every passing element as often as it occurs.
   */
  lemma {:induction false} FilterIsSubsequence<T>(xs: seq<T>, p: T -> bool)
    ensures IsSubsequence(Filter(xs, p), xs)
    ensures forall x | x in xs :: x in Filter(xs, p) <==> p(x)
    ensures forall x :: multiset(Filter(xs, p))[x] == if p(x) then multiset(xs)[x] else 0
  {
    FilterCounts(xs, p);
    if xs != [] {
      FilterIsSubsequence(xs[1..], p);
      assert forall x | x in xs :: x == xs[0] || x in xs[1..];
      if p(xs[0]) {
        assert Filter(xs, p)[1..] == Filter(xs[1..], p);
      }
    }
  }

  lemma {:induction false} FilterCounts<T>(xs: seq<T>, p: T -> bool)
    ensures forall x :: multiset(Filter(xs, p))[x] == if p(x) then multiset(xs)[x] else 0
  {
    if xs != [] {
      var rest := Filter(xs[1..], p);
      FilterCounts(xs[1..], p);
      assert xs == [xs[0]] + xs[1..];
      assert multiset(xs) == multiset{xs[0]} + multiset(xs[1..]);
      if p(xs[0]) {
        assert multiset(Filter(xs, p)) == multiset{xs[0]} + multiset(rest);
      } else {
        assert multiset(Filter(xs, p)) == multiset(rest);
      }
    }
  }

  /** Nothing passes a filter that no element satisfies. */
  lemma {:induction false} FilterNone<T>(xs: seq<T>, p: T -> bool)
    requires forall i | 0 <= i < |xs| :: !p(xs[i])
    ensures Filter(xs, p) == []
  {
    if xs != [] {
      assert forall i | 0 <= i < |xs[1..]| :: xs[1..][i] == xs[i + 1];
      FilterNone(xs[1..], p);
    }
  }

  /** The elements of `xs` whose key is `k`, in order. */
  function WithKey<T, K(==)>(xs: seq<T>, key: T -> K, k: K): (r: seq<T>)
    ensures |r| <= |xs|
    ensures forall i | 0 <= i < |r| :: key(r[i]) == k
  {
    if xs == [] then []
    else if key(xs[0]) == k then [xs[0]] + WithKey(xs[1..], key, k)
    else WithKey(xs[1..], key, k)
  }

  lemma {:induction false} WithKeyAppend<T, K>(xs: seq<T>, x: T, key: T -> K, k: K)
    ensures WithKey(xs + [x], key, k) == WithKey(xs, key, k) + (if key(x) == k then [x] else [])
  {
    if xs == [] {
      assert [x][1..] == [];
    } else {
      assert (xs + [x])[1..] == xs[1..] + [x];
      WithKeyAppend(xs[1..], x, key, k);
    }
  }

  /**
   * `_.groupBy(xs, key)`: one group per key that occurs, each group the
   * elements with that key in input order. Lodash walks the collection from
   * the front and pushes each element onto its key's group.
   */
  function GroupBy<T, K(==)>(xs: seq<T>, key: T -> K): (groups: map<K, seq<T>>)
    ensures forall k | k in groups :: groups[k] != [] && forall j | 0 <= j < |groups[k]| :: groups[k][j] in xs && key(groups[k][j]) == k
    ensures |xs| > 0 ==> key(xs[|xs| - 1]) in groups
    decreases |xs|
  {
    if xs == [] then map[]
    else
      var groups := GroupBy(xs[..|xs| - 1], key);
      var x := xs[|xs| - 1];
      groups[key(x) := (if key(x) in groups then groups[key(x)] else []) + [x]]
  }

  /**
   * The groups are exactly the keys that occur, every group is non-empty and
   * holds precisely the elements with its key, in input order.
   */
  lemma {:induction false} GroupByIsPartition<T, K>(xs: seq<T>, key: T -> K)
    ensures forall k :: k in GroupBy(xs, key) <==> exists i :: 0 <= i < |xs| && key(xs[i]) == k
    ensures forall k | k in GroupBy(xs, key) :: GroupBy(xs, key)[k] == WithKey(xs, key, k) != []
    ensures forall k | k !in GroupBy(xs, key) :: WithKey(xs, key, k) == []
    decreases |xs|
  {
    if xs != [] {
      var front, x := xs[..|xs| - 1], xs[|xs| - 1];
      assert xs == front + [x];
      GroupByIsPartition(front, key);
      var groups := GroupBy(front, key);
      forall k ensures WithKey(xs, key, k) == WithKey(front, key, k) + (if key(x) == k then [x] else []) {
        WithKeyAppend(front, x, key, k);
      }
      forall k ensures k in GroupBy(xs, key) <==> exists i :: 0 <= i < |xs| && key(xs[i]) == k {
        if k in GroupBy(xs, key) && k != key(x) {
          var i :| 0 <= i < |front| && key(front[i]) == k;
          assert key(xs[i]) == k;
        }
        if (exists i :: 0 <= i < |xs| && key(xs[i]) == k) && k != key(x) {
          var i :| 0 <= i < |xs| && key(xs[i]) == k;
          assert i < |front| && key(front[i]) == k;
        }
      }
      forall k | k in GroupBy(xs, key) ensures GroupBy(xs, key)[k] == WithKey(xs, key, k) != [] {
        var g := GroupBy(xs, key);
        assert g == groups[key(x) := (if key(x) in groups then groups[key(x)] else []) + [x]];
        if k == key(x) {
          if k !in groups {
            assert WithKey(front, key, k) == [];
          }
          assert g[k] == WithKey(front, key, k) + [x];
        } else {
          assert g[k] == groups[k] == WithKey(front, key, k);
        }
      }
    }
  }

  /** `_.dropRight(xs)`: every element but the last. */
  function DropRight<T>(xs: seq<T>): (r: seq<T>)
    ensures |xs| > 0 ==> |r| == |xs| - 1 && xs == r + [xs[|xs| - 1]]
    ensures |xs| == 0 ==> r == []
  {
    if xs == [] then [] else xs[..|xs| - 1]
  }
}
