/**
 * An insertion-ordered map held as a sequence of key/value pairs: putting a
 * key that is already present replaces its value where it stands, putting a
 * new key appends it. This is how the serialiser's OrderRetainingMap keeps
 * the order in which keys were first put.
 */
module OrderRetainingMaps {

  datatype Pair<K, V> = Pair(key: K, value: V)

  /** The keys of a pair sequence, in order. */
  function Keys<K, V>(m: seq<Pair<K, V>>): (ks: seq<K>)
    ensures |ks| == |m|
    ensures forall i :: 0 <= i < |m| ==> ks[i] == m[i].key
  {
    seq(|m|, i requires 0 <= i < |m| => m[i].key)
  }

  /** No element occurs twice. */
  predicate Distinct<K(==)>(s: seq<K>) {
    forall i, j :: 0 <= i < j < |s| ==> s[i] != s[j]
  }

  /** lastIndexOf: the position of the last occurrence of `k`, or -1. */
  function LastIndexOf<K(==)>(s: seq<K>, k: K): (i: int)
    ensures -1 <= i < |s|
    ensures i >= 0 ==> s[i] == k && forall j :: i < j < |s| ==> s[j] != k
    ensures i < 0 ==> k !in s
  {
    if s == [] then -1
    else if s[|s| - 1] == k then |s| - 1
    else
      assert s == s[..|s| - 1] + [s[|s| - 1]];
      LastIndexOf(s[..|s| - 1], k)
  }

  /** put(k, v): the value of a present key is replaced in place, an absent
      key is appended with its value. */
  function Put<K(==), V>(m: seq<Pair<K, V>>, k: K, v: V): (r: seq<Pair<K, V>>)
    ensures Keys(r) == if k in Keys(m) then Keys(m) else Keys(m) + [k]
    ensures Distinct(Keys(m)) ==> Distinct(Keys(r))
    ensures Distinct(Keys(m)) ==>
      forall i :: 0 <= i < |r| ==>
        if i < |m| && m[i].key != k then r[i] == m[i] else r[i] == Pair(k, v)
  {
    var i := LastIndexOf(Keys(m), k);
    if i < 0 then m + [Pair(k, v)] else m[i := Pair(k, v)]
  }

  /** The sequence with every repeated element after its first occurrence
      removed. */
  function Dedup<K(==)>(s: seq<K>): (d: seq<K>)
    ensures forall i :: 0 <= i < |d| ==> d[i] in s
    ensures forall i :: 0 <= i < |s| ==> s[i] in d
    ensures Distinct(d)
  {
    if s == [] then []
    else
      var d := Dedup(s[..|s| - 1]);
      var x := s[|s| - 1];
      assert s == s[..|s| - 1] + [x];
      if x in d then d else d + [x]
  }

  /** A sequence without repetitions is its own deduplication. */
  lemma {:induction false} DedupOfDistinct<K>(s: seq<K>)
    requires Distinct(s)
    ensures Dedup(s) == s
  {
    if s != [] {
      var p := s[..|s| - 1];
      DedupOfDistinct(p);
      assert s[|s| - 1] !in p;
      assert s == p + [s[|s| - 1]];
    }
  }
}
