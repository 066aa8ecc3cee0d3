/** Python's `sorted` on a list of ints, as an insertion sort. */
module Sorting {

  predicate Ascending(s: seq<int>)
  {
    forall i, j :: 0 <= i < j < |s| ==> s[i] <= s[j]
  }

  function Insert(x: int, s: seq<int>): seq<int>
  {
    if |s| == 0 || x <= s[0] then [x] + s else [s[0]] + Insert(x, s[1..])
  }

  function Sort(s: seq<int>): seq<int>
  {
    if |s| == 0 then [] else Insert(s[0], Sort(s[1..]))
  }

  lemma {:induction false} InsertSpec(x: int, s: seq<int>)
    requires Ascending(s)
    ensures Ascending(Insert(x, s))
    ensures multiset(Insert(x, s)) == multiset(s) + multiset{x}
  {
    InsertAscending(x, s);
    InsertPermutes(x, s);
  }

  lemma {:induction false} InsertAscending(x: int, s: seq<int>)
    requires Ascending(s)
    ensures Ascending(Insert(x, s))
  {
    if |s| > 0 && x > s[0] {
      var r := Insert(x, s[1..]);
      InsertAscending(x, s[1..]);
      InsertMembers(x, s[1..]);
      forall k | 0 <= k < |r| ensures s[0] <= r[k] {
        assert r[k] in r;
      }
      assert Insert(x, s) == [s[0]] + r;
    }
  }

  lemma {:induction false} InsertPermutes(x: int, s: seq<int>)
    ensures multiset(Insert(x, s)) == multiset(s) + multiset{x}
  {
    if |s| > 0 && x > s[0] {
      InsertPermutes(x, s[1..]);
      assert s == [s[0]] + s[1..];
    }
  }

  /** `sorted(s)` is in ascending order and is a permutation of `s`. */
  lemma {:induction false} SortSpec(s: seq<int>)
    ensures Ascending(Sort(s))
    ensures multiset(Sort(s)) == multiset(s)
  {
    if |s| > 0 {
      SortSpec(s[1..]);
      InsertSpec(s[0], Sort(s[1..]));
      assert s == [s[0]] + s[1..];
    }
  }

  /** Sorting a list that is already ascending leaves it as it is. */
  lemma {:induction false} SortAscending(s: seq<int>)
    requires Ascending(s)
    ensures Sort(s) == s
  {
    if |s| > 0 {
      SortAscending(s[1..]);
    }
  }

  predicate Distinct(s: seq<int>)
  {
    forall i, j :: 0 <= i < j < |s| ==> s[i] != s[j]
  }

  lemma {:induction false} InsertMembers(x: int, s: seq<int>)
    ensures |Insert(x, s)| == |s| + 1
    ensures forall y :: y in Insert(x, s) <==> y == x || y in s
  {
    if |s| > 0 && x > s[0] {
      InsertMembers(x, s[1..]);
      assert s == [s[0]] + s[1..];
    }
  }

  /** `sorted` keeps the elements: same length, same members. */
  lemma {:induction false} SortMembers(s: seq<int>)
    ensures |Sort(s)| == |s|
    ensures forall y :: y in Sort(s) <==> y in s
  {
    if |s| > 0 {
      SortMembers(s[1..]);
      InsertMembers(s[0], Sort(s[1..]));
      assert s == [s[0]] + s[1..];
    }
  }

  lemma {:induction false} InsertDistinct(x: int, s: seq<int>)
    requires Distinct(s) && x !in s
    ensures Distinct(Insert(x, s))
  {
    if |s| > 0 && x > s[0] {
      InsertDistinct(x, s[1..]);
      InsertMembers(x, s[1..]);
      assert s == [s[0]] + s[1..];
      assert s[0] !in s[1..];
    }
  }

  /** Sorting distinct elements gives distinct elements. */
  lemma {:induction false} SortDistinct(s: seq<int>)
    requires Distinct(s)
    ensures Distinct(Sort(s))
  {
    if |s| > 0 {
      SortDistinct(s[1..]);
      SortMembers(s[1..]);
      assert s == [s[0]] + s[1..];
      assert s[0] !in s[1..];
      InsertDistinct(s[0], Sort(s[1..]));
    }
  }
}
