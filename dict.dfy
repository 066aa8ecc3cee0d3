/** Python dicts with int keys, as the list of their items in insertion
    order: assigning to a present key replaces its value in place, a new
    key goes to the end. */
module Dicts {
  import opened Sorting

  function Keys<V>(d: seq<(int, V)>): (r: seq<int>)
    ensures |r| == |d| && forall i :: 0 <= i < |d| ==> r[i] == d[i].0
  {
    seq(|d|, i requires 0 <= i < |d| => d[i].0)
  }

  predicate DistinctKeys<V>(d: seq<(int, V)>)
  {
    Distinct(Keys(d))
  }

  /** Where key k sits in d. */
  function IndexOf<V>(d: seq<(int, V)>, k: int): (i: nat)
    requires k in Keys(d)
    ensures i < |d| && d[i].0 == k
    ensures forall j :: 0 <= j < i ==> d[j].0 != k
  {
    if d[0].0 == k then 0
    else
      assert k in Keys(d[1..]) by {
        var j :| 0 <= j < |d| && Keys(d)[j] == k;
        assert Keys(d[1..])[j - 1] == k;
      }
      IndexOf(d[1..], k) + 1
  }

  /** `d[k]`. */
  function Get<V>(d: seq<(int, V)>, k: int): V
    requires k in Keys(d)
  {
    d[IndexOf(d, k)].1
  }

  /** `d[k] = v`. */
  function Put<V>(d: seq<(int, V)>, k: int, v: V): (r: seq<(int, V)>)
    ensures k in Keys(d) ==> r == d[IndexOf(d, k) := (k, v)]
    ensures k !in Keys(d) ==> r == d + [(k, v)]
  {
    if k in Keys(d) then d[IndexOf(d, k) := (k, v)] else d + [(k, v)]
  }

  /** `{k: v for (k, v) in pairs}`. */
  function FromPairs<V>(pairs: seq<(int, V)>): seq<(int, V)>
  {
    if |pairs| == 0 then []
    else Put(FromPairs(pairs[..|pairs| - 1]), pairs[|pairs| - 1].0, pairs[|pairs| - 1].1)
  }

  lemma PutKeys<V>(d: seq<(int, V)>, k: int, v: V)
    requires DistinctKeys(d)
    ensures DistinctKeys(Put(d, k, v))
    ensures forall x :: x in Keys(Put(d, k, v)) <==> x in Keys(d) || x == k
    ensures k in Keys(Put(d, k, v)) && Get(Put(d, k, v), k) == v
  {
    var r := Put(d, k, v);
    if k in Keys(d) {
      var i := IndexOf(d, k);
      assert Keys(r) == Keys(d);
      assert IndexOf(r, k) == i;
    } else {
      assert Keys(r) == Keys(d) + [k];
      assert IndexOf(r, k) == |d|;
    }
  }

  /** A dict comprehension has distinct keys, and exactly the keys listed. */
  lemma {:induction false} FromPairsKeys<V>(pairs: seq<(int, V)>)
    ensures DistinctKeys(FromPairs(pairs))
    ensures forall x :: x in Keys(FromPairs(pairs)) <==> x in Keys(pairs)
  {
    if |pairs| > 0 {
      var init := pairs[..|pairs| - 1];
      FromPairsKeys(init);
      PutKeys(FromPairs(init), pairs[|pairs| - 1].0, pairs[|pairs| - 1].1);
      assert Keys(pairs) == Keys(init) + [pairs[|pairs| - 1].0];
    }
  }

  /** With distinct keys the comprehension keeps every pair, in order. */
  lemma {:induction false} FromPairsDistinct<V>(pairs: seq<(int, V)>)
    requires DistinctKeys(pairs)
    ensures FromPairs(pairs) == pairs
  {
    if |pairs| > 0 {
      var init := pairs[..|pairs| - 1];
      FromPairsDistinct(init);
      var k := pairs[|pairs| - 1].0;
      assert k !in Keys(init);
      assert init + [pairs[|pairs| - 1]] == pairs;
    }
  }
}
