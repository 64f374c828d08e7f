/** The searcher's data: the registry from city name to location and the two
    coordinate indexes built beside it while the data file is read. */
module LocationStore {
  import opened Geometry
  import opened CoordinateIndex

  /** `_cityLocationMap`, `_xCoordinateMap` and `_yCoordinateMap`. */
  datatype Store = Store(registry: map<string, Location>, xIndex: seq<Entry>, yIndex: seq<Entry>)

  /** The two coordinate axes, one index each. */
  datatype Axis = X | Y

  /** A location's coordinate on an axis. */
  function Coordinate(loc: Location, axis: Axis): real
  {
    match axis
    case X => loc.x
    case Y => loc.y
  }

  /** The store before any record is read. */
  const Empty := Store(map[], [], [])

  /** Both indexes are in key order, as the multimaps keep them. */
  predicate IndexesSorted(st: Store)
  {
    Sorted(st.xIndex) && Sorted(st.yIndex)
  }

  /** What reading records maintains: both indexes are in key order, every
      index entry names a registered city, and every registered city has an
      entry for its current coordinate in each index. Entries for a location a
      later duplicate overwrote may remain ("stale" entries). */
  predicate Valid(st: Store)
  {
    && IndexesSorted(st)
    && (forall e :: e in st.xIndex ==> e.name in st.registry)
    && (forall e :: e in st.yIndex ==> e.name in st.registry)
    && (forall n :: n in st.registry ==> Entry(st.registry[n].x, n) in st.xIndex)
    && (forall n :: n in st.registry ==> Entry(st.registry[n].y, n) in st.yIndex)
  }

  /** No index entry is stale: each one carries its city's current coordinate. */
  predicate NoStaleEntries(st: Store)
    requires Valid(st)
  {
    && (forall e :: e in st.xIndex ==> st.registry[e.name].x == e.key)
    && (forall e :: e in st.yIndex ==> st.registry[e.name].y == e.key)
  }

  /** The effect of one accepted record: the registry entry is overwritten, so
      the last duplicate wins, and each index gains exactly one entry while
      losing none. */
  function AddRecord(st: Store, name: string, loc: Location): (r: Store)
    requires IndexesSorted(st)
    ensures IndexesSorted(r)
    ensures r.registry == st.registry[name := loc]
    ensures |r.xIndex| == |st.xIndex| + 1 && |r.yIndex| == |st.yIndex| + 1
  {
    Store(st.registry[name := loc],
          Emplace(st.xIndex, Entry(loc.x, name)),
          Emplace(st.yIndex, Entry(loc.y, name)))
  }

  /** Each index gains exactly the one new entry and loses none. */
  lemma AddRecordIndexes(st: Store, name: string, loc: Location)
    requires IndexesSorted(st)
    ensures multiset(AddRecord(st, name, loc).xIndex) == multiset(st.xIndex) + multiset{Entry(loc.x, name)}
    ensures multiset(AddRecord(st, name, loc).yIndex) == multiset(st.yIndex) + multiset{Entry(loc.y, name)}
  {
    EmplaceCounts(st.xIndex, Entry(loc.x, name));
    EmplaceCounts(st.yIndex, Entry(loc.y, name));
  }

  /** Recording a city keeps the store valid: the city's new entries are
      present, and every other city keeps its entries and its location. */
  lemma AddRecordValid(st: Store, name: string, loc: Location)
    requires Valid(st)
    ensures Valid(AddRecord(st, name, loc))
  {
    var r := AddRecord(st, name, loc);
  }

  /** The empty store satisfies the invariant. */
  lemma EmptyValid()
    ensures Valid(Empty) && NoStaleEntries(Empty)
  {
  }
}
