/** Sequence helpers shared by the tables of the store: the `Where` filter,
    lookup by primary key, and keys that increase along a table. */
module Seqs {
  import opened Optional

  /** `Where(keep)`: the elements that satisfy `keep`, in their original order. */
  function Filter<T(!new)>(s: seq<T>, keep: T -> bool): (r: seq<T>)
    ensures |r| <= |s|
    ensures forall x :: x in r <==> x in s && keep(x)
  {
    if s == [] then []
    else (if keep(s[0]) then [s[0]] else []) + Filter(s[1..], keep)
  }

  /** `Where` keeps every kept element as often as it occurs and drops the rest. */
  lemma {:induction false} FilterCounts<T(!new)>(s: seq<T>, keep: T -> bool)
    ensures forall x :: multiset(Filter(s, keep))[x] == if keep(x) then multiset(s)[x] else 0
  {
    if s != [] {
      FilterCounts(s[1..], keep);
      assert s == [s[0]] + s[1..];
    }
  }

  /** Keys strictly increase along `s`, as primary keys handed out in order do. */
  predicate IncreasingBy<T>(s: seq<T>, key: T -> int) {
    forall i, j :: 0 <= i < j < |s| ==> key(s[i]) < key(s[j])
  }

  /** Removing rows keeps the keys of the rest increasing. */
  lemma {:induction false} FilterKeepsIncreasing<T(!new)>(s: seq<T>, keep: T -> bool, key: T -> int)
    requires IncreasingBy(s, key)
    ensures IncreasingBy(Filter(s, keep), key)
  {
    if s != [] {
      FilterKeepsIncreasing(s[1..], keep, key);
      var rest := Filter(s[1..], keep);
      forall x | x in rest ensures key(s[0]) < key(x) {
        var j :| 0 <= j < |s[1..]| && s[1..][j] == x;
        assert s[j + 1] == x;
      }
    }
  }

  /** Keys are unique along an increasing table. */
  lemma IncreasingKeysUnique<T>(s: seq<T>, key: T -> int, x: T, y: T)
    requires IncreasingBy(s, key)
    requires x in s && y in s && key(x) == key(y)
    ensures x == y
  {
    var i :| 0 <= i < |s| && s[i] == x;
    var j :| 0 <= j < |s| && s[j] == y;
    assert !(i < j) && !(j < i);
  }

  /** Lookup by primary key (`FindAsync`, `FirstOrDefaultAsync(r => r.Id == k)`):
      the position of the row whose key is `k`, if any. */
  function IndexOf<T(!new)>(s: seq<T>, key: T -> int, k: int): (r: Option<nat>)
    ensures r.None? <==> forall x :: x in s ==> key(x) != k
    ensures r.Some? ==> r.value < |s| && key(s[r.value]) == k
  {
    if s == [] then None
    else if key(s[0]) == k then Some(0)
    else match IndexOf(s[1..], key, k)
      case None => None
      case Some(i) => Some(i + 1)
  }
}
