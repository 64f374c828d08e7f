/** Worked examples of the model on small concrete inputs. */
module Scenarios {
  import opened Wrappers
  import opened Geometry
  import opened Distance
  import opened StringOrder
  import opened NameSet
  import opened CoordinateIndex
  import opened LocationStore
  import opened Loader
  import opened Searcher

  /** A coordinate line is cut at its first dash only: "3--4" reads as x "3"
      and y "-4", while a negative x such as "-3-4" leaves an empty x part. */
  lemma SplitExamples()
    ensures SplitCoordinates("3--4") == Success(("3", "-4"))
    ensures SplitCoordinates("-3-4") == Success(("", "3-4"))
    ensures SplitCoordinates("3-") == Failure(InvalidFileFormat)
    ensures SplitCoordinates("34") == Failure(InvalidFileFormat)
    ensures SplitCoordinates("") == Failure(InvalidFileFormat)
  {
    assert "3--4" == "3" + "-" + "-4";
    SplitJoin("3", "-4");
    assert "-3-4" == "" + "-" + "3-4";
    SplitJoin("", "3-4");
    assert "3-"[1] == '-';
    assert "34"[0] != '-' && "34"[1] != '-';
  }

  /** A name line without a coordinate line, and a coordinate part the
      conversion rejects, each fail the whole read. */
  lemma LoadErrorExamples(parse: Parser)
    requires parse("abc") == None
    ensures ReadLocationData(["A"], parse) == Failure(IncompleteData("A"))
    ensures ReadLocationData(["A", "abc-1"], parse) == Failure(InvalidCoordinate("abc-1"))
  {
    SplitJoin("abc", "1");
    assert "abc-1" == "abc" + "-" + "1";
  }

  /** A at (0,0), B at (1,0) and C at (0,5). */
  function CityMap(): map<string, Location>
  {
    map["A" := Location(0.0, 0.0), "B" := Location(1.0, 0.0), "C" := Location(0.0, 5.0)]
  }

  /** Reading A, B and C in that order yields a valid store over `CityMap`. */
  function ThreeCities(): (st: Store)
    ensures Valid(st)
    ensures st.registry == CityMap()
  {
    EmptyValid();
    var s1 := AddRecord(Empty, "A", Location(0.0, 0.0));
    AddRecordValid(Empty, "A", Location(0.0, 0.0));
    var s2 := AddRecord(s1, "B", Location(1.0, 0.0));
    AddRecordValid(s1, "B", Location(1.0, 0.0));
    AddRecordValid(s2, "C", Location(0.0, 5.0));
    AddRecord(s2, "C", Location(0.0, 5.0))
  }

  /** The data file listing A at 0-0, B at 1-0 and C at 0-5. */
  function ThreeCityLines(): seq<string>
  {
    ["A", "0-0", "B", "1-0", "C", "0-5"]
  }

  /** With a conversion that reads "0", "1" and "5", each coordinate line of
      the three-city file gives its location. */
  lemma ThreeCityLocations(parse: Parser)
    requires parse("0") == Some(0.0) && parse("1") == Some(1.0) && parse("5") == Some(5.0)
    ensures ParseLocation("0-0", parse) == Success(Location(0.0, 0.0))
    ensures ParseLocation("1-0", parse) == Success(Location(1.0, 0.0))
    ensures ParseLocation("0-5", parse) == Success(Location(0.0, 5.0))
  {
    assert "0-0" == "0" + "-" + "0" && "1-0" == "1" + "-" + "0" && "0-5" == "0" + "-" + "5";
    SplitJoin("0", "0");
    SplitJoin("1", "0");
    SplitJoin("0", "5");
  }

  /** The three-city file reads as the records A, B and C in order. */
  lemma ThreeCityRecords(parse: Parser)
    requires parse("0") == Some(0.0) && parse("1") == Some(1.0) && parse("5") == Some(5.0)
    ensures ParseRecords(ThreeCityLines(), parse) ==
            Success([Record("A", Location(0.0, 0.0)), Record("B", Location(1.0, 0.0)), Record("C", Location(0.0, 5.0))])
  {
    ThreeCityLocations(parse);
    var l3: seq<string> := ["C", "0-5"];
    var l2: seq<string> := ["B", "1-0"] + l3;
    var l1: seq<string> := ["A", "0-0"] + l2;
    assert l3[2..] == [] && l2[2..] == l3 && l1[2..] == l2 && l1 == ThreeCityLines();
    assert l3[0] == "C" && l3[1] == "0-5" && l2[0] == "B" && l2[1] == "1-0" && l1[0] == "A" && l1[1] == "0-0";
    var rc := [Record("C", Location(0.0, 5.0))];
    assert ParseRecords(l3[2..], parse) == Success([]);
    assert ParseLocation(l3[1], parse) == Success(Location(0.0, 5.0));
    assert rc + [] == rc;
    assert ParseRecords(l3, parse) == Success(rc);
    var rb := [Record("B", Location(1.0, 0.0))] + rc;
    assert ParseLocation(l2[1], parse) == Success(Location(1.0, 0.0));
    assert ParseRecords(l2, parse) == Success(rb);
    var ra := [Record("A", Location(0.0, 0.0))] + rb;
    assert ParseLocation(l1[1], parse) == Success(Location(0.0, 0.0));
    assert ParseRecords(l1, parse) == Success(ra);
    assert ra == [Record("A", Location(0.0, 0.0)), Record("B", Location(1.0, 0.0)), Record("C", Location(0.0, 5.0))];
  }

  /** Reading the three-city file succeeds and registers exactly `CityMap`. */
  lemma ReadExample(parse: Parser)
    requires parse("0") == Some(0.0) && parse("1") == Some(1.0) && parse("5") == Some(5.0)
    ensures ReadLocationData(ThreeCityLines(), parse).Success?
    ensures ReadLocationData(ThreeCityLines(), parse).value.registry == CityMap()
  {
    ThreeCityRecords(parse);
    var recs := [Record("A", Location(0.0, 0.0)), Record("B", Location(1.0, 0.0)), Record("C", Location(0.0, 5.0))];
    var r1 := [recs[0]];
    var r2 := [recs[0], recs[1]];
    assert recs[..2] == r2 && r2[..1] == r1 && r1[..0] == [];
    assert RegistryOf(r1) == map["A" := Location(0.0, 0.0)];
    assert RegistryOf(r2) == map["A" := Location(0.0, 0.0), "B" := Location(1.0, 0.0)];
    assert RegistryOf(recs) == CityMap();
  }

  /** End to end: after reading the three-city file, the cities within radius
      1 of A under the Euclidean norm are A and B. */
  lemma ReadThenQueryExample(parse: Parser)
    requires parse("0") == Some(0.0) && parse("1") == Some(1.0) && parse("5") == Some(5.0)
    ensures ReadLocationData(ThreeCityLines(), parse).Success? &&
            MatchingCities(ReadLocationData(ThreeCityLines(), parse).value, Euclidean, Location(0.0, 0.0), 1.0) == ["A", "B"]
  {
    ReadExample(parse);
    RadiusExample(ReadLocationData(ThreeCityLines(), parse).value);
  }

  /** The example name lists are in the set's order. */
  lemma AscendingExamples()
    ensures Ascending(["A", "B"])
    ensures Ascending(["A", "B", "C"])
  {
    assert Less("A", "B") && Less("B", "C") && Less("A", "C");
  }

  /** The names within radius 1 of A are A and B, in some order. */
  lemma RadiusMembers(st: Store)
    requires Valid(st) && st.registry == CityMap()
    ensures forall n :: n in MatchingCities(st, Euclidean, Location(0.0, 0.0), 1.0) <==> n in ["A", "B"]
  {
    assert st.registry.Keys == {"A", "B", "C"};
    assert Exceeds(Euclidean, Location(0.0, 0.0), st.registry["C"], 1.0);
  }

  /** In any valid store over `CityMap`, the cities within radius 1 of A under
      the Euclidean norm are exactly A and B, in that order; C, at distance 5,
      is dropped. */
  lemma RadiusExample(st: Store)
    requires Valid(st) && st.registry == CityMap()
    ensures MatchingCities(st, Euclidean, Location(0.0, 0.0), 1.0) == ["A", "B"]
  {
    RadiusMembers(st);
    AscendingExamples();
    AscendingUnique(MatchingCities(st, Euclidean, Location(0.0, 0.0), 1.0), ["A", "B"]);
  }

  /** The names north of A are A, B and C, in some order. */
  lemma NorthMembers(st: Store)
    requires Valid(st) && st.registry == CityMap()
    ensures forall n :: n in NorthCities(st, Location(0.0, 0.0)) <==> n in ["A", "B", "C"]
  {
    assert st.registry.Keys == {"A", "B", "C"};
    NorthIncludesCurrent(st, Location(0.0, 0.0), "A");
    NorthIncludesCurrent(st, Location(0.0, 0.0), "B");
    NorthIncludesCurrent(st, Location(0.0, 0.0), "C");
  }

  /** North of A lists A itself and B, whose y equals A's, as well as C: the
      scan starts at the lower bound of A's y, so ties count as north. */
  lemma NorthTiesExample(st: Store)
    requires Valid(st) && st.registry == CityMap()
    ensures NorthCities(st, Location(0.0, 0.0)) == ["A", "B", "C"]
  {
    NorthMembers(st);
    AscendingExamples();
    AscendingUnique(NorthCities(st, Location(0.0, 0.0)), ["A", "B", "C"]);
  }

  /** Recording a city into a valid store keeps it valid and keeps every
      y-index entry. */
  lemma RecordKeeps(st: Store, name: string, loc: Location)
    requires Valid(st)
    ensures Valid(AddRecord(st, name, loc))
    ensures forall e :: e in st.yIndex ==> e in AddRecord(st, name, loc).yIndex
  {
    AddRecordValid(st, name, loc);
  }

  /** Reading A at (0,5), then B at (0,1), then A again at (0,0). */
  function DuplicateCity(): (st: Store)
    ensures Valid(st)
    ensures st.registry == map["A" := Location(0.0, 0.0), "B" := Location(0.0, 1.0)]
    ensures Entry(5.0, "A") in st.yIndex
  {
    var s1 := AddRecord(Empty, "A", Location(0.0, 5.0));
    var s2 := AddRecord(s1, "B", Location(0.0, 1.0));
    var s3 := AddRecord(s2, "A", Location(0.0, 0.0));
    assert s3.registry == map["A" := Location(0.0, 0.0), "B" := Location(0.0, 1.0)];
    EmptyValid();
    RecordKeeps(Empty, "A", Location(0.0, 5.0));
    assert Entry(5.0, "A") in s1.yIndex;
    RecordKeeps(s1, "B", Location(0.0, 1.0));
    RecordKeeps(s2, "A", Location(0.0, 0.0));
    s3
  }

  /** The second A overwrites the first in the registry, yet the stale y-index
      entry (5, A) stays, so A counts as north of B although A's current y is
      0, below B's 1. The radius filter, which rereads the registry, is not
      misled: with radius 0.5 around B, A is not a match. */
  lemma StaleNorthExample()
    ensures DuplicateCity().registry["A"].y < DuplicateCity().registry["B"].y
    ensures "A" in NorthCities(DuplicateCity(), Location(0.0, 1.0))
    ensures "A" !in MatchingCities(DuplicateCity(), Chebyshev, Location(0.0, 1.0), 0.5)
  {
    var st := DuplicateCity();
    assert Exceeds(Chebyshev, Location(0.0, 1.0), st.registry["A"], 0.5);
  }
}
