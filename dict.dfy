/**
 * A JavaScript object used as a dictionary with string keys that are not
 * array indices: a map from keys to values together with the order in which
 * the keys were first added, which `Object.values` and `JSON.stringify`
 * follow. Assigning to a present key keeps its place; `delete` removes it.
 */
module Dict {
  import opened Wrappers
  import opened Records

  datatype Dict<V> = Dict(order: seq<string>, values: map<string, V>)

  /** Every key is listed once, and the listed keys are the keys of the map. */
  predicate Valid<V>(d: Dict<V>) {
    Distinct(d.order) && d.values.Keys == set k | k in d.order
  }

  /** `{}`. */
  function Empty<V>(): (d: Dict<V>)
    ensures Valid(d) && d.values == map[]
  {
    Dict([], map[])
  }

  /** `obj[k]`, `None` for `undefined`. */
  function Get<V>(d: Dict<V>, k: string): Option<V> {
    if k in d.values then Some(d.values[k]) else None
  }

  /** `obj[k] = v`: a present key keeps its place, a new one goes last. */
  function Put<V>(d: Dict<V>, k: string, v: V): (r: Dict<V>)
    requires Valid(d)
    ensures Valid(r)
    ensures Get(r, k) == Some(v)
    ensures forall k' :: k' != k ==> Get(r, k') == Get(d, k')
    ensures r.order == if k in d.values then d.order else d.order + [k]
  {
    Dict(if k in d.values then d.order else d.order + [k], d.values[k := v])
  }

  /** `delete obj[k]`. */
  function Remove<V>(d: Dict<V>, k: string): (r: Dict<V>)
    requires Valid(d)
    ensures Valid(r)
    ensures Get(r, k) == None
    ensures forall k' :: k' != k ==> Get(r, k') == Get(d, k')
    ensures exists idx :: PicksInOrder(r.order, d.order, idx)
  {
    var order := Filter(d.order, (x: string) => x != k);
    FilterDistinct(d.order, (x: string) => x != k);
    FilterInOrder(d.order, (x: string) => x != k);
    Dict(order, d.values - {k})
  }

  /** Filtering a list without repetitions leaves one without repetitions. */
  lemma {:induction false} FilterDistinct(s: seq<string>, p: string -> bool)
    requires Distinct(s)
    ensures Distinct(Filter(s, p))
  {
    if s != [] {
      FilterDistinct(s[1..], p);
      assert s[0] !in s[1..] by {
        forall j | 0 <= j < |s| - 1 ensures s[1..][j] != s[0] {
          assert s[j + 1] != s[0];
        }
      }
      if p(s[0]) {
        assert Filter(s, p) == [s[0]] + Filter(s[1..], p);
        forall j | 0 <= j < |Filter(s[1..], p)| ensures Filter(s[1..], p)[j] != s[0] {
          assert Filter(s[1..], p)[j] in s[1..];
        }
      }
    }
  }

  /** `Object.values(obj)`: the values in key order. */
  function Values<V>(d: Dict<V>): (vs: seq<V>)
    requires Valid(d)
    ensures |vs| == |d.order|
    ensures forall i :: 0 <= i < |d.order| ==> vs[i] == d.values[d.order[i]]
  {
    seq(|d.order|, i requires 0 <= i < |d.order| && Valid(d) => d.values[d.order[i]])
  }
}
