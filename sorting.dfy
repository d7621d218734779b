/**
 * `Array.prototype.sort` with a comparator of the form `key(a) - key(b)`:
 * since ECMAScript 2019 the sort is stable, so it is the insertion sort
 * below, which puts each element after the last one whose key is not
 * greater.
 */
module Sorting {
  import opened Records

  predicate SortedBy<T>(s: seq<T>, key: T -> int) {
    forall i, j :: 0 <= i < j < |s| ==> key(s[i]) <= key(s[j])
  }

  /** The elements of `s` whose key is `k`. */
  function KeyIs<T>(key: T -> int, k: int): T -> bool {
    (x: T) => key(x) == k
  }

  /** One step of the stable sort: `b` goes after the last element whose key is not greater than its own. */
  function InsertBy<T>(s: seq<T>, b: T, key: T -> int): (r: seq<T>)
    ensures |r| == |s| + 1
    ensures multiset(r) == multiset(s) + multiset{b}
    decreases |s|
  {
    if s == [] || key(s[|s| - 1]) <= key(b) then s + [b]
    else
      assert s == s[..|s| - 1] + [s[|s| - 1]];
      InsertBy(s[..|s| - 1], b, key) + [s[|s| - 1]]
  }

  /** Inserting into a sorted sequence keeps it sorted. */
  lemma {:induction false} InsertBySorted<T>(s: seq<T>, b: T, key: T -> int)
    requires SortedBy(s, key)
    ensures SortedBy(InsertBy(s, b, key), key)
    decreases |s|
  {
    if s != [] && key(s[|s| - 1]) > key(b) {
      var init, last := s[..|s| - 1], s[|s| - 1];
      assert s == init + [last];
      InsertBySorted(init, b, key);
      var ins := InsertBy(init, b, key);
      forall i | 0 <= i < |ins| ensures key(ins[i]) <= key(last) {
        assert ins[i] in multiset(ins);
        assert ins[i] in multiset(init) || ins[i] == b;
      }
    }
  }

  /** The sorted sequence: same elements, keys ascending. */
  function SortBy<T>(s: seq<T>, key: T -> int): (r: seq<T>)
    ensures SortedBy(r, key)
    ensures multiset(r) == multiset(s)
    ensures |r| == |s|
    decreases |s|
  {
    if s == [] then []
    else
      var init := s[..|s| - 1];
      assert s == init + [s[|s| - 1]];
      InsertBySorted(SortBy(init, key), s[|s| - 1], key);
      InsertBy(SortBy(init, key), s[|s| - 1], key)
  }

  /** Sorting a sequence that is already sorted leaves it as it is. */
  lemma {:induction false} SortBySorted<T>(s: seq<T>, key: T -> int)
    requires SortedBy(s, key)
    ensures SortBy(s, key) == s
    decreases |s|
  {
    if s != [] {
      var init, last := s[..|s| - 1], s[|s| - 1];
      assert SortedBy(init, key) by {
        forall i, j | 0 <= i < j < |init| ensures key(init[i]) <= key(init[j]) {
          assert init[i] == s[i] && init[j] == s[j];
        }
      }
      SortBySorted(init, key);
      assert s == init + [last];
      assert SortBy(s, key) == InsertBy(init, last, key);
      if init != [] {
        assert key(init[|init| - 1]) <= key(last) by {
          assert init[|init| - 1] == s[|s| - 2];
        }
      }
    }
  }

  /** Sorting twice is sorting once. */
  lemma SortByIdempotent<T>(s: seq<T>, key: T -> int)
    ensures SortBy(SortBy(s, key), key) == SortBy(s, key)
  {
    SortBySorted(SortBy(s, key), key);
  }

  /** Inserting appends `b` to the elements of its own key and leaves the other keys' elements alone. */
  lemma {:induction false} InsertByStable<T>(s: seq<T>, b: T, key: T -> int, k: int)
    requires SortedBy(s, key)
    ensures Filter(InsertBy(s, b, key), KeyIs(key, k)) == Filter(s, KeyIs(key, k)) + (if key(b) == k then [b] else [])
    decreases |s|
  {
    var p := KeyIs(key, k);
    if s == [] || key(s[|s| - 1]) <= key(b) {
      FilterAppend(s, [b], p);
      assert Filter([b], p) == (if key(b) == k then [b] else []) by {
        assert [b][1..] == [];
      }
    } else {
      var init, last := s[..|s| - 1], s[|s| - 1];
      assert s == init + [last];
      assert SortedBy(init, key) by {
        forall i, j | 0 <= i < j < |init| ensures key(init[i]) <= key(init[j]) {
          assert init[i] == s[i] && init[j] == s[j];
        }
      }
      InsertByStable(init, b, key, k);
      var ins := InsertBy(init, b, key);
      assert InsertBy(s, b, key) == ins + [last];
      var fb := if key(b) == k then [b] else [];
      assert fb == [] || !p(last);
      FilterSnocSwap(ins, init, last, p, fb);
    }
  }

  /** Appending one element `last` on both sides keeps `Filter(ins) == Filter(init) + fb` when `fb` is empty or `last` is filtered out. */
  lemma FilterSnocSwap<T>(ins: seq<T>, init: seq<T>, last: T, p: T -> bool, fb: seq<T>)
    requires Filter(ins, p) == Filter(init, p) + fb
    requires fb == [] || !p(last)
    ensures Filter(ins + [last], p) == Filter(init + [last], p) + fb
  {
    FilterAppend(ins, [last], p);
    FilterAppend(init, [last], p);
    var fl := Filter([last], p);
    assert fl == (if p(last) then [last] else []) by {
      assert [last][1..] == [];
    }
    var fi := Filter(init, p);
    if fb == [] {
      assert fi + fb == fi;
      assert fi + fl + fb == fi + fl;
    } else {
      assert fl == [];
      assert fi + fb + fl == fi + fb;
      assert fi + fl == fi;
    }
  }

  /**
   * The sort is stable: the elements sharing any one key come out in the
   * order they went in.
   */
  lemma {:induction false} SortByStable<T>(s: seq<T>, key: T -> int, k: int)
    ensures Filter(SortBy(s, key), KeyIs(key, k)) == Filter(s, KeyIs(key, k))
    decreases |s|
  {
    if s != [] {
      var init, last := s[..|s| - 1], s[|s| - 1];
      assert s == init + [last];
      SortByStable(init, key, k);
      InsertByStable(SortBy(init, key), last, key, k);
      FilterAppend(init, [last], KeyIs(key, k));
      assert Filter([last], KeyIs(key, k)) == (if key(last) == k then [last] else []) by {
        assert [last][1..] == [];
      }
    }
  }
}
