/**
 * The array idioms every variant uses on its records: `findIndex` / `find`
 * (the first match), `splice(index, 1)`, `filter`, and writing a field of the
 * record `find` returned.
 */
module Records {
  import opened Wrappers

  /** `s.findIndex(p)`: the first index whose element satisfies `p`, `None` for -1. */
  function FindIndex<T>(s: seq<T>, p: T -> bool): (r: Option<nat>)
    ensures r.Some? ==> r.value < |s| && p(s[r.value])
    ensures r.Some? ==> forall j :: 0 <= j < r.value ==> !p(s[j])
    ensures r.None? <==> forall j :: 0 <= j < |s| ==> !p(s[j])
  {
    if s == [] then None
    else if p(s[0]) then Some(0)
    else
      var r := FindIndex(s[1..], p);
      if r.Some? then Some(r.value + 1) else None
  }

  /** Removes the element at index `i` and keeps the others in order. */
  function RemoveAt<T>(s: seq<T>, i: nat): (r: seq<T>)
    requires i < |s|
    ensures |r| == |s| - 1
    ensures forall j :: 0 <= j < i ==> r[j] == s[j]
    ensures forall j :: i <= j < |r| ==> r[j] == s[j + 1]
  {
    s[..i] + s[i + 1..]
  }

  /** `findIndex` then `splice(index, 1)` when found: the first match goes, nothing else changes. */
  function RemoveFirst<T>(s: seq<T>, p: T -> bool): (r: seq<T>)
    ensures FindIndex(s, p).None? ==> r == s
    ensures FindIndex(s, p).Some? ==> r == RemoveAt(s, FindIndex(s, p).value)
  {
    var i := FindIndex(s, p);
    if i.Some? then RemoveAt(s, i.value) else s
  }

  /** `find(p)` followed by writes to the record found: only the first match changes. */
  function UpdateFirst<T>(s: seq<T>, p: T -> bool, f: T -> T): (r: seq<T>)
    ensures |r| == |s|
    ensures FindIndex(s, p).None? ==> r == s
    ensures FindIndex(s, p).Some? ==> r == s[FindIndex(s, p).value := f(s[FindIndex(s, p).value])]
  {
    var i := FindIndex(s, p);
    if i.Some? then s[i.value := f(s[i.value])] else s
  }

  /** `s.filter(p)`. */
  function Filter<T>(s: seq<T>, p: T -> bool): (r: seq<T>)
    ensures |r| <= |s|
    ensures forall i :: 0 <= i < |r| ==> r[i] in s && p(r[i])
    ensures forall i :: 0 <= i < |s| && p(s[i]) ==> s[i] in r
  {
    if s == [] then []
    else (if p(s[0]) then [s[0]] else []) + Filter(s[1..], p)
  }

  /** `filter` keeps the order: it distributes over concatenation. */
  lemma {:induction false} FilterAppend<T>(a: seq<T>, b: seq<T>, p: T -> bool)
    ensures Filter(a + b, p) == Filter(a, p) + Filter(b, p)
  {
    if a == [] {
      assert a + b == b;
    } else {
      assert (a + b)[1..] == a[1..] + b;
      FilterAppend(a[1..], b, p);
    }
  }

  /** Every element `filter` drops fails the test, so a filter that drops nothing is the identity. */
  lemma {:induction false} FilterAll<T>(s: seq<T>, p: T -> bool)
    requires forall i :: 0 <= i < |s| ==> p(s[i])
    ensures Filter(s, p) == s
  {
    if s != [] {
      FilterAll(s[1..], p);
    }
  }

  /** `filter` decides on the first element, then goes on with the rest. */
  lemma FilterFirst<T>(s: seq<T>, p: T -> bool)
    requires s != []
    ensures Filter(s, p) == (if p(s[0]) then [s[0]] else []) + Filter(s[1..], p)
  {
  }

  /** Filtering only looks at the test's answers on the elements themselves. */
  lemma {:induction false} FilterAgree<T>(s: seq<T>, p: T -> bool, q: T -> bool)
    requires forall i :: 0 <= i < |s| ==> p(s[i]) == q(s[i])
    ensures Filter(s, p) == Filter(s, q)
  {
    if s != [] {
      FilterAgree(s[1..], p, q);
    }
  }

  /** Two filters in a row are one filter by both tests. */
  lemma {:induction false} FilterFilter<T>(s: seq<T>, p: T -> bool, q: T -> bool, both: T -> bool)
    requires forall i :: 0 <= i < |s| ==> both(s[i]) == (p(s[i]) && q(s[i]))
    ensures Filter(Filter(s, p), q) == Filter(s, both)
  {
    if s != [] {
      FilterFilter(s[1..], p, q, both);
      FilterAppend(if p(s[0]) then [s[0]] else [], Filter(s[1..], p), q);
    }
  }

  /** A filter whose test fails on every element keeps nothing. */
  lemma {:induction false} FilterNone<T>(s: seq<T>, p: T -> bool)
    requires forall i :: 0 <= i < |s| ==> !p(s[i])
    ensures Filter(s, p) == []
  {
    if s != [] {
      FilterNone(s[1..], p);
    }
  }

  /** `r` is the elements of `s` at the strictly increasing indices `idx`: a subsequence, in order. */
  ghost predicate PicksInOrder<T>(r: seq<T>, s: seq<T>, idx: seq<nat>) {
    |idx| == |r|
    && (forall k :: 0 <= k < |r| ==> idx[k] < |s| && s[idx[k]] == r[k])
    && (forall k, l :: 0 <= k < l < |r| ==> idx[k] < idx[l])
  }

  /** `filter` keeps the order: its result is a subsequence of the array. */
  lemma {:induction false} FilterInOrder<T>(s: seq<T>, p: T -> bool)
    ensures exists idx :: PicksInOrder(Filter(s, p), s, idx)
  {
    if s == [] {
      assert PicksInOrder(Filter(s, p), s, []);
    } else {
      FilterInOrder(s[1..], p);
      var idx :| PicksInOrder(Filter(s[1..], p), s[1..], idx);
      PicksFromTail(Filter(s[1..], p), s, idx);
      FilterFirst(s, p);
      var shifted := seq(|idx|, k requires 0 <= k < |idx| => idx[k] + 1);
      if p(s[0]) {
        assert PicksInOrder(Filter(s, p), s, [0] + shifted);
      } else {
        assert PicksInOrder(Filter(s, p), s, shifted);
      }
    }
  }

  /** Picks from `s[1..]` are picks from `s` one index further on, and may be preceded by `s[0]`. */
  lemma PicksFromTail<T>(r: seq<T>, s: seq<T>, idx: seq<nat>)
    requires s != [] && PicksInOrder(r, s[1..], idx)
    ensures PicksInOrder(r, s, seq(|idx|, k requires 0 <= k < |idx| => idx[k] + 1))
    ensures PicksInOrder([s[0]] + r, s, [0] + seq(|idx|, k requires 0 <= k < |idx| => idx[k] + 1))
  {
    var shifted := seq(|idx|, k requires 0 <= k < |idx| => idx[k] + 1);
    assert PicksInOrder(r, s, shifted);
    var r', idx' := [s[0]] + r, [0] + shifted;
    forall k | 0 < k < |r'| ensures idx'[k] < |s| && s[idx'[k]] == r'[k] && 0 < idx'[k] {
      assert idx'[k] == shifted[k - 1] && r'[k] == r[k - 1];
    }
  }

  /** `filter` keeps every copy of an element that passes and none of one that fails. */
  lemma {:induction false} FilterCounts<T>(s: seq<T>, p: T -> bool)
    ensures forall x :: multiset(Filter(s, p))[x] == if p(x) then multiset(s)[x] else 0
  {
    if s != [] {
      FilterCounts(s[1..], p);
      assert s == [s[0]] + s[1..];
    }
  }

  /** The values `key` gives to the elements of `s`, in order. */
  function Keys<T>(s: seq<T>, key: T -> string): (r: seq<string>)
    ensures |r| == |s| && forall i :: 0 <= i < |s| ==> r[i] == key(s[i])
  {
    seq(|s|, i requires 0 <= i < |s| => key(s[i]))
  }

  /** No two elements of `s` share a key. */
  predicate Distinct(keys: seq<string>) {
    forall i, j :: 0 <= i < j < |keys| ==> keys[i] != keys[j]
  }

  /** Where `x` first occurs in `s`. */
  function IndexOf(s: seq<string>, x: string): (r: Option<nat>)
    ensures r.Some? ==> r.value < |s| && s[r.value] == x && forall j :: 0 <= j < r.value ==> s[j] != x
    ensures r.None? <==> x !in s
  {
    var r := FindIndex(s, (y: string) => y == x);
    assert r.None? ==> forall j :: 0 <= j < |s| ==> s[j] != x;
    r
  }

  /**
   * The side-panel reorder: for the i-th panel id in turn, the first record
   * with that id gets order `base + i`; ids with no record are skipped.
   */
  function AssignOrders<T(!new)>(s: seq<T>, panel: seq<string>, base: int, key: T -> string, setOrder: (T, int) -> T): (r: seq<T>)
    requires forall x, o :: key(setOrder(x, o)) == key(x)
    ensures |r| == |s| && forall i :: 0 <= i < |s| ==> key(r[i]) == key(s[i])
    decreases |panel|
  {
    if panel == [] then s
    else
      var n := |panel| - 1;
      UpdateFirst(AssignOrders(s, panel[..n], base, key, setOrder), x => key(x) == panel[n], x => setOrder(x, base + n))
  }

  /**
   * With distinct record ids and distinct panel ids, every record listed in
   * the panel gets its panel index plus `base` as order, and every other
   * record is unchanged.
   */
  lemma {:induction false} AssignOrdersAt<T(!new)>(s: seq<T>, panel: seq<string>, base: int, key: T -> string, setOrder: (T, int) -> T, k: nat)
    requires forall x, o :: key(setOrder(x, o)) == key(x)
    requires Distinct(Keys(s, key)) && Distinct(panel)
    requires k < |s|
    ensures AssignOrders(s, panel, base, key, setOrder)[k] ==
      (var at := IndexOf(panel, key(s[k])); if at.Some? then setOrder(s[k], base + at.value) else s[k])
  {
    if panel != [] {
      var n := |panel| - 1;
      var prev := AssignOrders(s, panel[..n], base, key, setOrder);
      AssignOrdersAt(s, panel[..n], base, key, setOrder, k);
      var p := (x: T) => key(x) == panel[n];
      var i := FindIndex(prev, p);
      if i.Some? && i.value == k {
        assert IndexOf(panel, key(s[k])) == Some(n);
        assert key(s[k]) !in panel[..n];
      } else {
        assert key(s[k]) != panel[n];
        if key(s[k]) in panel[..n] {
          assert IndexOf(panel, key(s[k])) == IndexOf(panel[..n], key(s[k]));
        } else {
          assert key(s[k]) !in panel;
        }
      }
    }
  }

  /** At most one element of `s` satisfies `p`. */
  predicate AtMostOne<T>(s: seq<T>, p: T -> bool) {
    forall i, j :: 0 <= i < j < |s| && p(s[i]) ==> !p(s[j])
  }

  /**
   * When at most one element matches, removing the first match is the same
   * as filtering every match out: nothing else goes and the order is kept.
   */
  lemma {:induction false} RemoveOnlyMatch<T>(s: seq<T>, p: T -> bool, q: T -> bool)
    requires AtMostOne(s, p)
    requires forall i :: 0 <= i < |s| ==> q(s[i]) == !p(s[i])
    ensures RemoveFirst(s, p) == Filter(s, q)
  {
    if s != [] {
      if p(s[0]) {
        assert FindIndex(s, p) == Some(0);
        assert RemoveFirst(s, p) == s[1..];
        FilterAll(s[1..], q);
      } else {
        OnlyMatchTail(s, p, q);
        RemoveOnlyMatch(s[1..], p, q);
        assert Filter(s, q) == [s[0]] + Filter(s[1..], q);
        RemoveFirstPast(s, p);
      }
    }
  }

  /** The tail of a sequence with at most one match has at most one match, and `q` still negates `p` on it. */
  lemma OnlyMatchTail<T>(s: seq<T>, p: T -> bool, q: T -> bool)
    requires s != [] && AtMostOne(s, p)
    requires forall i :: 0 <= i < |s| ==> q(s[i]) == !p(s[i])
    ensures AtMostOne(s[1..], p)
    ensures forall i :: 0 <= i < |s[1..]| ==> q(s[1..][i]) == !p(s[1..][i])
  {
    var t := s[1..];
    forall i, j | 0 <= i < j < |t| && p(t[i]) ensures !p(t[j]) {
      assert t[i] == s[i + 1] && t[j] == s[j + 1];
    }
    forall i | 0 <= i < |t| ensures q(t[i]) == !p(t[i]) {
      assert t[i] == s[i + 1];
    }
  }

  /** When the first element does not match, removing the first match happens in the tail. */
  lemma RemoveFirstPast<T>(s: seq<T>, p: T -> bool)
    requires s != [] && !p(s[0])
    ensures RemoveFirst(s, p) == [s[0]] + RemoveFirst(s[1..], p)
  {
    var t := s[1..];
    var i := FindIndex(t, p);
    if i.Some? {
      assert FindIndex(s, p) == Some(i.value + 1);
      assert RemoveAt(s, i.value + 1) == [s[0]] + RemoveAt(t, i.value);
    } else {
      assert FindIndex(s, p).None?;
    }
  }

  /** No two elements of `s` share the value `f` gives them. */
  predicate DistinctBy<T, K(==)>(s: seq<T>, f: T -> K) {
    forall i, j :: 0 <= i < j < |s| ==> f(s[i]) != f(s[j])
  }

  /** `filter` keeps values distinct. */
  lemma {:induction false} FilterDistinctBy<T, K>(s: seq<T>, p: T -> bool, f: T -> K)
    requires DistinctBy(s, f)
    ensures DistinctBy(Filter(s, p), f)
  {
    if s != [] {
      assert DistinctBy(s[1..], f);
      FilterDistinctBy(s[1..], p, f);
      var rest := Filter(s[1..], p);
      forall i | 0 <= i < |rest| ensures f(rest[i]) != f(s[0]) {
        var j :| 0 <= j < |s[1..]| && s[1..][j] == rest[i];
        assert s[j + 1] == rest[i];
      }
    }
  }

  /** An element whose value no other element shares occurs once. */
  lemma CountOne<T, K>(s: seq<T>, f: T -> K, a: nat)
    requires DistinctBy(s, f) && a < |s|
    ensures multiset(s)[s[a]] == 1
  {
    assert s == s[..a] + [s[a]] + s[a + 1..];
    assert s[a] !in s[..a] by {
      forall k | 0 <= k < a ensures s[..a][k] != s[a] {
        assert f(s[k]) != f(s[a]);
      }
    }
    var tail := s[a + 1..];
    assert s[a] !in tail by {
      forall k | 0 <= k < |tail| ensures tail[k] != s[a] {
        assert f(s[a]) != f(s[a + 1 + k]);
      }
    }
  }

  /** An element at two positions occurs at least twice. */
  lemma CountTwo<T>(r: seq<T>, i: nat, j: nat)
    requires i < j < |r| && r[i] == r[j]
    ensures multiset(r)[r[i]] >= 2
  {
    assert r == r[..j] + r[j..];
    assert r[..j][i] == r[i];
    assert r[j..][0] == r[i];
    assert multiset(r) == multiset(r[..j]) + multiset(r[j..]);
  }

  /** Reordering keeps values distinct. */
  lemma PermutationDistinctBy<T, K>(s: seq<T>, r: seq<T>, f: T -> K)
    requires multiset(r) == multiset(s) && DistinctBy(s, f)
    ensures DistinctBy(r, f)
  {
    forall i, j | 0 <= i < j < |r| ensures f(r[i]) != f(r[j]) {
      assert r[i] in multiset(s) && r[j] in multiset(s);
      var a :| 0 <= a < |s| && s[a] == r[i];
      var b :| 0 <= b < |s| && s[b] == r[j];
      if a == b {
        CountOne(s, f, a);
        CountTwo(r, i, j);
        assert false;
      }
    }
  }
}
