/** Ascending numeric ordering of integer lists: the result of sorting an
    array with the comparator `(a, b) => a - b`. */
module NumericSort {

  predicate Ascending(s: seq<int>) {
    forall i, j :: 0 <= i < j < |s| ==> s[i] <= s[j]
  }

  /** Places `x` into an already ascending list. */
  function InsertAscending(x: int, s: seq<int>): (r: seq<int>)
    requires Ascending(s)
    ensures Ascending(r)
    ensures multiset(r) == multiset(s) + multiset{x}
  {
    if s == [] || x <= s[0] then
      [x] + s
    else
      assert s == [s[0]] + s[1..];
      var rest := InsertAscending(x, s[1..]);
      assert forall k :: 0 <= k < |rest| ==> rest[k] in multiset(rest);
      [s[0]] + rest
  }

  /** The ascending permutation of `s`. */
  function Sort(s: seq<int>): (r: seq<int>)
    ensures Ascending(r)
    ensures multiset(r) == multiset(s)
  {
    if s == [] then
      []
    else
      assert s == [s[0]] + s[1..];
      InsertAscending(s[0], Sort(s[1..]))
  }

  /** Sorting keeps exactly the members of the list. */
  lemma SortKeepsMembers(s: seq<int>)
    ensures forall x :: x in Sort(s) <==> x in s
  {
    var r := Sort(s);
    forall x
      ensures x in r <==> x in s
    {
      calc {
        x in r;
        x in multiset(r);
        x in multiset(s);
        x in s;
      }
    }
  }
}
