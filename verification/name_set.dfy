/** A `std::set<std::string>` of city names, modelled by the sequence it is
    iterated in: strictly ascending, hence free of duplicates. The module holds
    the two set algorithms the searcher uses, insertion through `std::inserter`
    and `std::set_intersection`, and the sublist relation `std::remove_if`
    keeps. */
module NameSet {
  import opened StringOrder

  /** Every earlier name sorts strictly before every later one. */
  predicate Ascending(s: seq<string>)
  {
    forall i, j :: 0 <= i < j < |s| ==> Less(s[i], s[j])
  }

  /** An ascending sequence holds no name twice. */
  lemma AscendingDistinct(s: seq<string>, i: int, j: int)
    requires Ascending(s)
    requires 0 <= i < j < |s|
    ensures s[i] != s[j]
  {
    LessIrreflexive(s[i]);
  }

  /** Putting a name that sorts before all of an ascending sequence in front
      keeps it ascending. */
  lemma AscendingCons(x: string, s: seq<string>)
    requires Ascending(s)
    requires forall y :: y in s ==> Less(x, y)
    ensures Ascending([x] + s)
  {
    var t := [x] + s;
    forall i, j | 0 <= i < j < |t|
      ensures Less(t[i], t[j])
    {
      if i > 0 {
        assert t[i] == s[i - 1] && t[j] == s[j - 1];
      } else {
        assert t[j] == s[j - 1];
        assert t[j] in s;
      }
    }
  }

  /** A name sorting before the first of an ascending sequence is not in it. */
  lemma BelowHeadAbsent(x: string, s: seq<string>)
    requires Ascending(s) && |s| > 0
    requires Less(x, s[0])
    ensures x !in s
    ensures forall y :: y in s ==> Less(x, y)
  {
    forall y | y in s
      ensures Less(x, y)
    {
      var k :| 0 <= k < |s| && s[k] == y;
      if k > 0 {
        LessTransitive(x, s[0], y);
      }
    }
    if x in s {
      LessIrreflexive(x);
    }
  }

  /** Inserting a name into a set: nothing happens when it is present,
      otherwise it goes to its place in the order. */
  function Insert(s: seq<string>, n: string): (r: seq<string>)
    requires Ascending(s)
    ensures Ascending(r)
    ensures forall x :: x in r <==> x in s || x == n
    ensures n in s ==> r == s
    ensures n !in s ==> |r| == |s| + 1
  {
    if |s| == 0 then [n]
    else if Less(n, s[0]) then
      BelowHeadAbsent(n, s);
      AscendingCons(n, s);
      [n] + s
    else if n == s[0] then s
    else
      LessTotal(n, s[0]);
      var rest := Insert(s[1..], n);
      assert forall y :: y in s[1..] ==> Less(s[0], y) by {
        forall y | y in s[1..] ensures Less(s[0], y) {
          var k :| 0 <= k < |s[1..]| && s[1..][k] == y;
          assert s[k + 1] == y;
        }
      }
      AscendingCons(s[0], rest);
      assert s == [s[0]] + s[1..];
      [s[0]] + rest
  }

  /** The names both ascending sequences hold, in ascending order: the merge
      `std::set_intersection` performs, taking the element from the first range
      on a match. */
  function Intersect(a: seq<string>, b: seq<string>): (r: seq<string>)
    requires Ascending(a) && Ascending(b)
    ensures Ascending(r)
    ensures forall x :: x in r <==> x in a && x in b
    decreases |a| + |b|
  {
    if |a| == 0 || |b| == 0 then []
    else if Less(a[0], b[0]) then
      BelowHeadAbsent(a[0], b);
      assert a == [a[0]] + a[1..];
      Intersect(a[1..], b)
    else if Less(b[0], a[0]) then
      BelowHeadAbsent(b[0], a);
      assert b == [b[0]] + b[1..];
      Intersect(a, b[1..])
    else
      LessTotal(a[0], b[0]);
      var rest := Intersect(a[1..], b[1..]);
      assert forall y :: y in a[1..] ==> Less(a[0], y) by {
        forall y | y in a[1..] ensures Less(a[0], y) {
          var k :| 0 <= k < |a[1..]| && a[1..][k] == y;
          assert a[k + 1] == y;
        }
      }
      assert a == [a[0]] + a[1..] && b == [b[0]] + b[1..];
      AscendingCons(a[0], rest);
      [a[0]] + rest
  }

  /** `a` is `b` with some elements removed, the rest keeping their order. */
  predicate IsSublist(a: seq<string>, b: seq<string>)
    decreases |b|
  {
    |a| <= |b| &&
    (|a| == 0 || (a[0] == b[0] && IsSublist(a[1..], b[1..])) || IsSublist(a, b[1..]))
  }

  /** Every element of a sublist comes from the list. */
  lemma {:induction false} SublistElements(a: seq<string>, b: seq<string>)
    requires IsSublist(a, b)
    ensures forall x :: x in a ==> x in b
    decreases |b|
  {
    if |a| > 0 {
      if a[0] == b[0] && IsSublist(a[1..], b[1..]) {
        SublistElements(a[1..], b[1..]);
        assert a == [a[0]] + a[1..];
      } else {
        SublistElements(a, b[1..]);
      }
    }
  }

  /** The tail of an ascending sequence is ascending and above its head. */
  lemma AscendingTail(s: seq<string>)
    requires Ascending(s) && |s| > 0
    ensures Ascending(s[1..])
    ensures forall y :: y in s[1..] ==> Less(s[0], y)
  {
    forall y | y in s[1..] ensures Less(s[0], y) {
      var k :| 0 <= k < |s[1..]| && s[1..][k] == y;
      assert s[k + 1] == y;
    }
  }

  /** An ascending sequence is determined by its elements. */
  lemma {:induction false} AscendingUnique(a: seq<string>, b: seq<string>)
    requires Ascending(a) && Ascending(b)
    requires forall x :: x in a <==> x in b
    ensures a == b
    decreases |a|
  {
    if |a| > 0 && |b| > 0 {
      AscendingTail(a);
      AscendingTail(b);
      if a[0] != b[0] {
        LessTotal(a[0], b[0]);
        if Less(a[0], b[0]) {
          BelowHeadAbsent(a[0], b);
        } else {
          BelowHeadAbsent(b[0], a);
        }
      }
      assert a == [a[0]] + a[1..] && b == [b[0]] + b[1..];
      forall x ensures x in a[1..] <==> x in b[1..] {
        if x in a[1..] {
          assert Less(a[0], x);
          LessIrreflexive(x);
          assert x in b && x != b[0];
        }
        if x in b[1..] {
          assert Less(b[0], x);
          LessIrreflexive(x);
          assert x in a && x != a[0];
        }
      }
      AscendingUnique(a[1..], b[1..]);
      assert a == [a[0]] + a[1..] && b == [b[0]] + b[1..];
    } else if |a| == 0 {
      NoElementsEmpty(b);
    } else {
      NoElementsEmpty(a);
    }
  }

  /** A sequence without elements is empty. */
  lemma NoElementsEmpty(s: seq<string>)
    requires forall x :: x !in s
    ensures s == []
  {
    HeadIsElement(s);
  }

  /** The first element of a non-empty sequence is one of its elements. */
  lemma HeadIsElement(s: seq<string>)
    ensures |s| > 0 ==> s[0] in s
  {
  }
}
