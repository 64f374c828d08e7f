/** One coordinate index of the searcher, a `std::multimap<double, std::string>`
    from a coordinate to a city name, modelled as its iteration order: a
    sequence of entries whose keys never decrease. Positions in the sequence
    play the part of the map's iterators. */
module CoordinateIndex {
  import opened StringOrder
  import opened NameSet

  /** One (coordinate, city name) pair of the multimap. */
  datatype Entry = Entry(key: real, name: string)

  /** Keys never decrease along the index. */
  predicate Sorted(idx: seq<Entry>)
  {
    forall i, j :: 0 <= i < j < |idx| ==> idx[i].key <= idx[j].key
  }

  /** `lower_bound(k)`: the first position whose key is not below `k`. */
  function LowerBound(idx: seq<Entry>, k: real): (i: nat)
    requires Sorted(idx)
    ensures i <= |idx|
    ensures forall j :: 0 <= j < i ==> idx[j].key < k
    ensures forall j :: i <= j < |idx| ==> idx[j].key >= k
  {
    if |idx| == 0 || idx[0].key >= k then 0
    else
      var i := 1 + LowerBound(idx[1..], k);
      assert forall j :: 1 <= j < |idx| ==> idx[j] == idx[1..][j - 1];
      i
  }

  /** `upper_bound(k)`: the first position whose key is above `k`. */
  function UpperBound(idx: seq<Entry>, k: real): (i: nat)
    requires Sorted(idx)
    ensures i <= |idx|
    ensures forall j :: 0 <= j < i ==> idx[j].key <= k
    ensures forall j :: i <= j < |idx| ==> idx[j].key > k
  {
    if |idx| == 0 || idx[0].key > k then 0
    else
      var i := 1 + UpperBound(idx[1..], k);
      assert forall j :: 1 <= j < |idx| ==> idx[j] == idx[1..][j - 1];
      i
  }

  /** For `lo <= hi` the range from `lower_bound(lo)` to `upper_bound(hi)` is a
      valid iterator range. */
  lemma BoundsOrdered(idx: seq<Entry>, lo: real, hi: real)
    requires Sorted(idx) && lo <= hi
    ensures LowerBound(idx, lo) <= UpperBound(idx, hi)
  {
  }

  /** In a sorted index no entry has a key below the first one. */
  lemma HeadBelowAll(idx: seq<Entry>)
    requires Sorted(idx) && |idx| > 0
    ensures forall x :: x in idx ==> idx[0].key <= x.key
  {
  }

  /** An entry whose key is at most every key of a sorted index may go first. */
  lemma SortedCons(h: Entry, s: seq<Entry>)
    requires Sorted(s)
    requires forall x :: x in s ==> h.key <= x.key
    ensures Sorted([h] + s)
  {
    var r := [h] + s;
    forall i, j | 0 <= i < j < |r|
      ensures r[i].key <= r[j].key
    {
      assert r[j] == s[j - 1];
      if i > 0 {
        assert r[i] == s[i - 1];
      } else {
        assert s[j - 1] in s;
      }
    }
  }

  /** `emplace(k, n)`: the new entry goes after every entry with an equal or
      smaller key, and the entries are the old ones and the new one. */
  function Emplace(idx: seq<Entry>, e: Entry): (r: seq<Entry>)
    requires Sorted(idx)
    ensures Sorted(r)
    ensures |r| == |idx| + 1
    ensures forall x :: x in r <==> x in idx || x == e
  {
    if |idx| == 0 || idx[0].key > e.key then
      if |idx| == 0 then [e]
      else
        HeadBelowAll(idx);
        SortedCons(e, idx);
        [e] + idx
    else
      var rest := Emplace(idx[1..], e);
      assert idx == [idx[0]] + idx[1..];
      HeadBelowAll(idx);
      SortedCons(idx[0], rest);
      [idx[0]] + rest
  }

  /** Nothing already in the index moves out or disappears, duplicates
      included: `emplace` adds exactly one occurrence of the new entry. */
  lemma {:induction false} EmplaceCounts(idx: seq<Entry>, e: Entry)
    requires Sorted(idx)
    ensures multiset(Emplace(idx, e)) == multiset(idx) + multiset{e}
    decreases |idx|
  {
    if |idx| > 0 && idx[0].key <= e.key {
      EmplaceCounts(idx[1..], e);
      assert idx == [idx[0]] + idx[1..];
    }
  }

  /** `emplace` places the entry exactly at the `upper_bound` of its key. */
  lemma {:induction false} EmplaceAtUpperBound(idx: seq<Entry>, e: Entry)
    requires Sorted(idx)
    ensures Emplace(idx, e) == idx[..UpperBound(idx, e.key)] + [e] + idx[UpperBound(idx, e.key)..]
    decreases |idx|
  {
    if |idx| == 0 {
      assert Emplace(idx, e) == [e];
    } else if idx[0].key > e.key {
      assert UpperBound(idx, e.key) == 0;
      assert idx[..0] == [] && idx[0..] == idx;
    } else {
      var rest := idx[1..];
      EmplaceAtUpperBound(rest, e);
      var u := UpperBound(rest, e.key);
      assert UpperBound(idx, e.key) == u + 1;
      assert Emplace(idx, e) == [idx[0]] + Emplace(rest, e);
      assert idx[..u + 1] == [idx[0]] + rest[..u];
      assert idx[u + 1..] == rest[u..];
    }
  }

  /** The names of the entries, gathered into a set one after the other in
      index order as `std::transform` with `std::inserter` does. */
  function Collect(acc: seq<string>, es: seq<Entry>): (r: seq<string>)
    requires Ascending(acc)
    ensures Ascending(r)
    ensures forall x :: x in r <==> x in acc || exists e :: e in es && e.name == x
    decreases |es|
  {
    if |es| == 0 then acc
    else
      var r := Collect(Insert(acc, es[0].name), es[1..]);
      assert es == [es[0]] + es[1..];
      r
  }

  /** Names of the closed key range `[lo, hi]`: the scan from `lower_bound(lo)`
      to `upper_bound(hi)`. Every entry in range contributes its name, stale or
      not; names sharing a key all appear. */
  function RangeNames(idx: seq<Entry>, lo: real, hi: real): (r: seq<string>)
    requires Sorted(idx) && lo <= hi
    ensures Ascending(r)
    ensures forall n :: n in r <==> exists e :: e in idx && lo <= e.key <= hi && e.name == n
  {
    BoundsOrdered(idx, lo, hi);
    var l, u := LowerBound(idx, lo), UpperBound(idx, hi);
    var slice := idx[l..u];
    assert forall e :: e in slice <==> e in idx && lo <= e.key <= hi by {
      forall e ensures e in slice <==> e in idx && lo <= e.key <= hi {
        if e in idx && lo <= e.key <= hi {
          var j :| 0 <= j < |idx| && idx[j] == e;
          assert slice[j - l] == e;
        }
      }
    }
    Collect([], slice)
  }

  /** Names from `lower_bound(lo)` to the end of the index: every entry whose
      key is at least `lo`, ties included. */
  function SuffixNames(idx: seq<Entry>, lo: real): (r: seq<string>)
    requires Sorted(idx)
    ensures Ascending(r)
    ensures forall n :: n in r <==> exists e :: e in idx && e.key >= lo && e.name == n
  {
    var l := LowerBound(idx, lo);
    var slice := idx[l..];
    assert forall e :: e in slice <==> e in idx && e.key >= lo by {
      forall e ensures e in slice <==> e in idx && e.key >= lo {
        if e in idx && e.key >= lo {
          var j :| 0 <= j < |idx| && idx[j] == e;
          assert slice[j - l] == e;
        }
      }
    }
    Collect([], slice)
  }
}
