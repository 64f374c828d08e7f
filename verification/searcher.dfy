/** The query pipeline of the searcher: a bounding-box prune by two range scans
    over the coordinate indexes, the intersection of their name sets, and an
    exact distance filter that looks every candidate up in the registry; and,
    beside it, the scan for cities to the north. */
module Searcher {
  import opened Geometry
  import opened Distance
  import opened StringOrder
  import opened NameSet
  import opened CoordinateIndex
  import opened LocationStore

  /** `_filterCitiesByXRange`: names of every x-index entry with
      `c.x - r <= x <= c.x + r`. */
  function XRangeCities(st: Store, c: Location, r: real): (names: seq<string>)
    requires IndexesSorted(st) && r >= 0.0
    ensures Ascending(names)
    ensures forall n :: n in names <==> exists e :: e in st.xIndex && c.x - r <= e.key <= c.x + r && e.name == n
  {
    RangeNames(st.xIndex, c.x - r, c.x + r)
  }

  /** `_filterCitiesByYRange`: names of every y-index entry with
      `c.y - r <= y <= c.y + r`. */
  function YRangeCities(st: Store, c: Location, r: real): (names: seq<string>)
    requires IndexesSorted(st) && r >= 0.0
    ensures Ascending(names)
    ensures forall n :: n in names <==> exists e :: e in st.yIndex && c.y - r <= e.key <= c.y + r && e.name == n
  {
    RangeNames(st.yIndex, c.y - r, c.y + r)
  }

  /** `_getCitiesToTheNorth`: names of every y-index entry from
      `lower_bound(c.y)` on, so ties count as north and stale entries are not
      checked against the registry. */
  function NorthCities(st: Store, c: Location): (names: seq<string>)
    requires IndexesSorted(st)
    ensures Ascending(names)
    ensures forall n :: n in names <==> exists e :: e in st.yIndex && e.key >= c.y && e.name == n
  {
    SuffixNames(st.yIndex, c.y)
  }

  /** The `remove_if` pass: drop every name whose current registry location is
      farther than `r` from `c`, keeping the order of the rest. */
  function RemoveFarther(registry: map<string, Location>, m: Metric, c: Location, r: real,
                         names: seq<string>): (kept: seq<string>)
    requires r >= 0.0
    requires forall n :: n in names ==> n in registry
    ensures IsSublist(kept, names)
    ensures forall n :: n in kept <==> n in names && !Exceeds(m, c, registry[n], r)
    ensures Ascending(names) ==> Ascending(kept)
    decreases |names|
  {
    if |names| == 0 then []
    else
      var rest := RemoveFarther(registry, m, c, r, names[1..]);
      assert names == [names[0]] + names[1..];
      if Exceeds(m, c, registry[names[0]], r) then
        rest
      else
        KeepHead(names, rest);
        [names[0]] + rest
  }

  /** Keeping the head of an ascending list in front of a kept part of its tail
      stays ascending. */
  lemma KeepHead(names: seq<string>, rest: seq<string>)
    requires |names| > 0
    requires forall n :: n in rest ==> n in names[1..]
    requires Ascending(names[1..]) ==> Ascending(rest)
    ensures Ascending(names) ==> Ascending([names[0]] + rest)
  {
    if Ascending(names) {
      AscendingTail(names);
      AscendingCons(names[0], rest);
    }
  }

  /** The matching list of a query: the intersection of the two range sets
      with the cities beyond the radius removed. It is exactly the registered
      cities whose current location is within distance `r` of `c`, in
      ascending name order, whatever stale index entries exist. */
  function MatchingCities(st: Store, m: Metric, c: Location, r: real): (matching: seq<string>)
    requires Valid(st) && r >= 0.0
    ensures Ascending(matching)
    ensures IsSublist(matching, Intersect(XRangeCities(st, c, r), YRangeCities(st, c, r)))
    ensures forall n :: n in matching <==> n in st.registry && !Exceeds(m, c, st.registry[n], r)
  {
    var xs := XRangeCities(st, c, r);
    var ys := YRangeCities(st, c, r);
    var both := Intersect(xs, ys);
    CandidatesRegistered(st, c, r);
    var matching := RemoveFarther(st.registry, m, c, r, both);
    forall n | n in st.registry && !Exceeds(m, c, st.registry[n], r)
      ensures n in matching
    {
      BallInCandidates(st, m, c, r, n);
    }
    matching
  }

  /** Every name the range scans produce is registered, so the registry
      lookups of the filter never miss. */
  lemma CandidatesRegistered(st: Store, c: Location, r: real)
    requires Valid(st) && r >= 0.0
    ensures forall n :: n in Intersect(XRangeCities(st, c, r), YRangeCities(st, c, r)) ==> n in st.registry
  {
  }

  /** A registered city within the radius lies in both range sets. */
  lemma BallInCandidates(st: Store, m: Metric, c: Location, r: real, n: string)
    requires Valid(st) && r >= 0.0
    requires n in st.registry && !Exceeds(m, c, st.registry[n], r)
    ensures n in XRangeCities(st, c, r) && n in YRangeCities(st, c, r)
  {
    var p := st.registry[n];
    assert Entry(p.x, n) in st.xIndex && Entry(p.y, n) in st.yIndex;
  }

  /** The selected city is always among its own matches. */
  lemma SelectedCityMatches(st: Store, m: Metric, name: string, r: real)
    requires Valid(st) && r >= 0.0 && name in st.registry
    ensures name in MatchingCities(st, m, st.registry[name], r)
  {
  }

  /** The bounding-box prune keeps every city the exact filter keeps. */
  lemma PruneIsSuperset(st: Store, m: Metric, c: Location, r: real)
    requires Valid(st) && r >= 0.0
    ensures forall n :: n in MatchingCities(st, m, c, r) ==>
              n in XRangeCities(st, c, r) && n in YRangeCities(st, c, r)
  {
    var both := Intersect(XRangeCities(st, c, r), YRangeCities(st, c, r));
    SublistElements(MatchingCities(st, m, c, r), both);
  }

  /** Stale index entries never change a query's matches: two valid stores
      with the same registry give the same list, so it is the ascending list
      of registered names within the radius. */
  lemma MatchingDependsOnlyOnRegistry(st1: Store, st2: Store, m: Metric, c: Location, r: real)
    requires Valid(st1) && Valid(st2) && r >= 0.0
    requires st1.registry == st2.registry
    ensures MatchingCities(st1, m, c, r) == MatchingCities(st2, m, c, r)
  {
    AscendingUnique(MatchingCities(st1, m, c, r), MatchingCities(st2, m, c, r));
  }

  /** Every registered city whose current y is at least `c.y` is north,
      including the selected city itself. */
  lemma NorthIncludesCurrent(st: Store, c: Location, name: string)
    requires Valid(st) && name in st.registry && st.registry[name].y >= c.y
    ensures name in NorthCities(st, c)
  {
    assert Entry(st.registry[name].y, name) in st.yIndex;
  }

  /** Without stale entries the north list is exactly the registered cities
      whose current y is at least `c.y`. */
  lemma NorthExactWithoutStaleEntries(st: Store, c: Location)
    requires Valid(st) && NoStaleEntries(st)
    ensures forall n :: n in NorthCities(st, c) <==> n in st.registry && st.registry[n].y >= c.y
  {
    forall n | n in st.registry && st.registry[n].y >= c.y
      ensures n in NorthCities(st, c)
    {
      NorthIncludesCurrent(st, c, n);
    }
  }
}
