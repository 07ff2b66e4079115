/** Python dictionaries with string keys. Their iteration order is insertion
    order, which the progress store depends on: a user's position among the
    keys decides their sentence block, and the admin tables list users and
    translations in that order. */
module Dicts {

  /** No key is listed twice. */
  ghost predicate Distinct(s: seq<string>) {
    forall i, j :: 0 <= i < j < |s| ==> s[i] != s[j]
  }

  /** A dictionary: its keys in insertion order and the value under each key. */
  datatype Dict<V> = Dict(keys: seq<string>, values: map<string, V>)
  {
    /** Every key is listed exactly once, and only keys are listed. */
    ghost predicate Valid() {
      Distinct(keys) && (forall k :: k in values <==> k in keys)
    }

    /** `d[k] = v`: an existing key is overwritten where it stands, a new
        key goes after all the others. */
    function Put(k: string, v: V): (d: Dict<V>)
      ensures Valid() ==> d.Valid()
      ensures d.values == values[k := v]
      ensures d.keys == if k in values then keys else keys + [k]
    {
      if k in values then Dict(keys, values[k := v]) else Dict(keys + [k], values[k := v])
    }
  }

  /** `{}` */
  function Empty<V>(): (d: Dict<V>)
    ensures d.Valid() && d.keys == [] && d.values == map[]
  {
    Dict([], map[])
  }

  /** A list without repetitions has as many elements as it has members. */
  lemma {:induction false} DistinctCard(s: seq<string>)
    requires Distinct(s)
    ensures |set k | k in s| == |s|
  {
    if s != [] {
      var t := s[1..];
      assert Distinct(t) by {
        forall i, j | 0 <= i < j < |t| ensures t[i] != t[j] {
          assert t[i] == s[i + 1] && t[j] == s[j + 1];
        }
      }
      DistinctCard(t);
      assert (set k | k in s) == {s[0]} + (set k | k in t);
      assert s[0] !in (set k | k in t) by {
        forall i | 0 <= i < |t| ensures t[i] != s[0] {
          assert t[i] == s[i + 1];
        }
      }
    }
  }

  /** `len(d)` is the number of listed keys. */
  lemma SizeIsLength<V>(d: Dict<V>)
    requires d.Valid()
    ensures |d.values| == |d.keys|
  {
    assert d.values.Keys == set k | k in d.keys;
    DistinctCard(d.keys);
  }

  /** `list.index(k)`: the position of the first occurrence of `k`. */
  function IndexOf(s: seq<string>, k: string): (p: nat)
    requires k in s
    ensures p < |s| && s[p] == k
    ensures forall q :: 0 <= q < p ==> s[q] != k
  {
    if s[0] == k then 0 else 1 + IndexOf(s[1..], k)
  }

  /** Writing back the value a key already holds changes nothing. */
  lemma PutSame<V>(d: Dict<V>, k: string)
    requires d.Valid() && k in d.values
    ensures d.Put(k, d.values[k]) == d
  {
  }

  /** In a list without repetitions, the element at `p` is found at `p`. */
  lemma IndexOfDistinct(s: seq<string>, p: nat)
    requires Distinct(s) && p < |s|
    ensures IndexOf(s, s[p]) == p
  {
  }
}
