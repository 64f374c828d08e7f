/** Reading the data file: lines are taken in pairs, a city name and then a
    coordinate line `<x>-<y>`, and each accepted pair is recorded in the
    registry and in both coordinate indexes. The first problem ends the read
    with an error and no store. The conversion of text to a number
    (`std::stod`) is a parameter: any partial function from text to a real. */
module Loader {
  import opened Wrappers
  import opened Geometry
  import opened CoordinateIndex
  import opened LocationStore

  /** The exceptions reading can throw once the file is open. */
  datatype LoadError =
    | InvalidFileFormat                 // the coordinate line does not split at '-'
    | InvalidCoordinate(line: string)   // a part of the coordinate line is not a number
    | IncompleteData(city: string)      // a name line without a coordinate line

  /** The text each error carries: the coordinate and incomplete-data errors
      end with the offending line or city name. */
  function Message(e: LoadError): (text: string)
    ensures e.InvalidCoordinate? ==> |e.line| <= |text| && text[|text| - |e.line|..] == e.line
    ensures e.IncompleteData? ==> |e.city| <= |text| && text[|text| - |e.city|..] == e.city
  {
    match e
    case InvalidFileFormat => "Invalid file format: data.txt"
    case InvalidCoordinate(line) => "Invalid coordinate value: " + line
    case IncompleteData(city) => "Incomplete data for city: " + city
  }

  /** A text-to-number conversion; `None` stands for the conversion throwing. */
  type Parser = string -> Option<real>

  /** Different errors never print the same text, so the message identifies
      the error and its line or city. */
  lemma MessageInjective(e1: LoadError, e2: LoadError)
    requires Message(e1) == Message(e2)
    ensures e1 == e2
  {
    MessageMarks(e1);
    MessageMarks(e2);
    var coord, incomplete := "Invalid coordinate value: ", "Incomplete data for city: ";
    if e1.InvalidCoordinate? && e2.InvalidCoordinate? {
      assert e1.line == (coord + e1.line)[|coord|..] == (coord + e2.line)[|coord|..] == e2.line;
    } else if e1.IncompleteData? && e2.IncompleteData? {
      assert e1.city == (incomplete + e1.city)[|incomplete|..] == (incomplete + e2.city)[|incomplete|..] == e2.city;
    }
  }

  /** The third and ninth characters of a message tell the three kinds apart. */
  lemma MessageMarks(e: LoadError)
    ensures |Message(e)| > 8
    ensures e.InvalidFileFormat? ==> Message(e)[2] == 'v' && Message(e)[8] == 'f'
    ensures e.InvalidCoordinate? ==> Message(e)[2] == 'v' && Message(e)[8] == 'c'
    ensures e.IncompleteData? ==> Message(e)[2] == 'c'
  {
    match e
    case InvalidFileFormat =>
      PrefixChars("Invalid file format: data.txt", "");
      assert Message(e) == "Invalid file format: data.txt" + "";
    case InvalidCoordinate(line) =>
      PrefixChars("Invalid coordinate value: ", line);
    case IncompleteData(city) =>
      PrefixChars("Incomplete data for city: ", city);
  }

  /** Appending text leaves the characters of a prefix in place. */
  lemma PrefixChars(prefix: string, rest: string)
    ensures forall i :: 0 <= i < |prefix| ==> (prefix + rest)[i] == prefix[i]
  {
  }

  /** Position of the first '-' in the line, or its length when there is none. */
  function FirstDash(line: string): (i: nat)
    ensures i <= |line|
    ensures forall j :: 0 <= j < i ==> line[j] != '-'
    ensures i < |line| ==> line[i] == '-'
  {
    if |line| == 0 || line[0] == '-' then 0 else 1 + FirstDash(line[1..])
  }

  /** `getline(iss, xStr, '-') && getline(iss, yStr)`: the x part is the text
      before the first '-', the y part all the text after it, which may hold
      further dashes. The split fails when the line has no '-' or when nothing
      follows the first one. */
  function SplitCoordinates(line: string): (r: Result<(string, string), LoadError>)
    ensures r.Success? <==> exists i :: 0 <= i < |line| - 1 && line[i] == '-'
    ensures r.Success? ==> line == r.value.0 + "-" + r.value.1
    ensures r.Success? ==> '-' !in r.value.0 && |r.value.1| > 0
    ensures r.Failure? ==> r.error == InvalidFileFormat
  {
    var i := FirstDash(line);
    if i + 1 >= |line| then Failure(InvalidFileFormat)
    else
      assert line == line[..i] + "-" + line[i + 1..];
      Success((line[..i], line[i + 1..]))
  }

  /** Joining an x part without '-' and a non-empty y part with a dash and
      splitting the result gives the two parts back. */
  lemma SplitJoin(xs: string, ys: string)
    requires '-' !in xs && |ys| > 0
    ensures SplitCoordinates(xs + "-" + ys) == Success((xs, ys))
  {
    var line := xs + "-" + ys;
    assert line[|xs|] == '-';
    var r := SplitCoordinates(line);
    assert r.Success?;
    var xs', ys' := r.value.0, r.value.1;
    assert line == xs' + "-" + ys';
    assert xs' == line[..|xs|] == xs;
    assert ys' == line[|xs| + 1..] == ys;
  }

  /** One coordinate line converted to a location. A line that splits but has
      a part the conversion rejects fails with the whole line in the error. */
  function ParseLocation(line: string, parse: Parser): (r: Result<Location, LoadError>)
    ensures r.Success? ==> SplitCoordinates(line).Success?
    ensures r.Success? ==> parse(SplitCoordinates(line).value.0) == Some(r.value.x)
    ensures r.Success? ==> parse(SplitCoordinates(line).value.1) == Some(r.value.y)
    ensures r.Failure? ==> r.error == InvalidFileFormat || r.error == InvalidCoordinate(line)
    ensures r.Failure? && r.error == InvalidFileFormat <==> SplitCoordinates(line).Failure?
    ensures (SplitCoordinates(line).Success? &&
             parse(SplitCoordinates(line).value.0).Some? &&
             parse(SplitCoordinates(line).value.1).Some?) ==> r.Success?
  {
    match SplitCoordinates(line)
    case Failure(e) => Failure(e)
    case Success((xs, ys)) =>
      match (parse(xs), parse(ys))
      case (Some(x), Some(y)) => Success(Location(x, y))
      case _ => Failure(InvalidCoordinate(line))
  }

  /** One accepted pair of lines: a city name and its location. */
  datatype Record = Record(name: string, at: Location)

  /** The reading loop: take a name line, require a coordinate line after it,
      convert it, and go on with the remaining lines. The first failure is the
      result of the whole read. */
  function ParseRecords(lines: seq<string>, parse: Parser): (r: Result<seq<Record>, LoadError>)
    ensures r.Success? ==> |lines| % 2 == 0 && |r.value| == |lines| / 2
    ensures r.Success? ==> forall k :: 0 <= k < |r.value| ==> r.value[k].name == lines[2 * k]
    decreases |lines|
  {
    if |lines| == 0 then Success([])
    else if |lines| == 1 then Failure(IncompleteData(lines[0]))
    else
      match ParseLocation(lines[1], parse)
      case Failure(e) => Failure(e)
      case Success(loc) =>
        match ParseRecords(lines[2..], parse)
        case Failure(e) => Failure(e)
        case Success(rest) =>
          var recs := [Record(lines[0], loc)] + rest;
          forall k | 1 <= k < |recs|
            ensures recs[k].name == lines[2 * k]
          {
            var j := k - 1;
            assert recs[k] == rest[j];
            assert lines[2..][2 * j] == lines[2 * k];
          }
          Success(recs)
  }

  /** The registry after recording the given records in order. */
  function RegistryOf(recs: seq<Record>): (registry: map<string, Location>)
    ensures |recs| > 0 ==> recs[|recs| - 1].name in registry
    ensures |recs| > 0 ==> registry[recs[|recs| - 1].name] == recs[|recs| - 1].at
  {
    if |recs| == 0 then map[]
    else
      var n := |recs| - 1;
      RegistryOf(recs[..n])[recs[n].name := recs[n].at]
  }

  /** One coordinate index after recording the given records in order. */
  function IndexOf(recs: seq<Record>, axis: Axis): (idx: seq<Entry>)
    ensures Sorted(idx)
    ensures |idx| == |recs|
  {
    if |recs| == 0 then []
    else
      var n := |recs| - 1;
      Emplace(IndexOf(recs[..n], axis), Entry(Coordinate(recs[n].at, axis), recs[n].name))
  }

  /** The store after recording the given records in order. */
  function Build(recs: seq<Record>): (st: Store)
    ensures IndexesSorted(st)
    ensures |st.xIndex| == |st.yIndex| == |recs|
  {
    Store(RegistryOf(recs), IndexOf(recs, X), IndexOf(recs, Y))
  }

  /** Building is the reading loop: each record is added to the store the
      records before it produced. */
  lemma BuildStep(recs: seq<Record>)
    requires |recs| > 0
    ensures Build(recs) == AddRecord(Build(recs[..|recs| - 1]), recs[|recs| - 1].name, recs[|recs| - 1].at)
  {
  }

  /** Recording the records one by one keeps the store valid. */
  lemma {:induction false} BuildValid(recs: seq<Record>)
    ensures Valid(Build(recs))
    decreases |recs|
  {
    if |recs| == 0 {
      EmptyValid();
    } else {
      var n := |recs| - 1;
      BuildValid(recs[..n]);
      BuildStep(recs);
      AddRecordValid(Build(recs[..n]), recs[n].name, recs[n].at);
    }
  }

  /** The names of the records. */
  function RecordNames(recs: seq<Record>): set<string>
  {
    set k | 0 <= k < |recs| :: recs[k].name
  }

  /** The registry holds exactly the names of the records: one key per distinct
      name, however often it repeats. */
  lemma {:induction false} RegistryKeys(recs: seq<Record>)
    ensures RegistryOf(recs).Keys == RecordNames(recs)
    decreases |recs|
  {
    if |recs| > 0 {
      var n := |recs| - 1;
      RegistryKeys(recs[..n]);
      forall x ensures x in RecordNames(recs) <==> x in RecordNames(recs[..n]) || x == recs[n].name {
        if x in RecordNames(recs) {
          var k :| 0 <= k < |recs| && recs[k].name == x;
          if k < n {
            assert recs[..n][k].name == x;
          }
        }
        if x in RecordNames(recs[..n]) {
          var k :| 0 <= k < n && recs[..n][k].name == x;
          assert recs[k].name == x;
        }
      }
    }
  }

  /** The registry maps a name to the location of the last record with that
      name. */
  lemma {:induction false} RegistryLastWins(recs: seq<Record>, k: nat)
    requires k < |recs|
    requires forall j :: k < j < |recs| ==> recs[j].name != recs[k].name
    ensures recs[k].name in RegistryOf(recs)
    ensures RegistryOf(recs)[recs[k].name] == recs[k].at
    decreases |recs|
  {
    var n := |recs| - 1;
    if k < n {
      var prefix := recs[..n];
      assert prefix[k] == recs[k];
      forall j | k < j < |prefix|
        ensures prefix[j].name != prefix[k].name
      {
        assert prefix[j] == recs[j];
      }
      RegistryLastWins(prefix, k);
    }
  }

  /** Every record, stale or current, leaves one entry in each index. */
  lemma {:induction false} IndexHoldsRecords(recs: seq<Record>, axis: Axis, k: nat)
    requires k < |recs|
    ensures Entry(Coordinate(recs[k].at, axis), recs[k].name) in IndexOf(recs, axis)
    decreases |recs|
  {
    var n := |recs| - 1;
    var e := Entry(Coordinate(recs[k].at, axis), recs[k].name);
    var prev := IndexOf(recs[..n], axis);
    assert IndexOf(recs, axis) == Emplace(prev, Entry(Coordinate(recs[n].at, axis), recs[n].name));
    if k < n {
      assert recs[..n][k] == recs[k];
      IndexHoldsRecords(recs[..n], axis, k);
    }
  }

  /** `_readLocationData` on the lines of the file. Any error throws away what
      was recorded before it, so parsing every pair first and recording them
      afterwards gives the same outcome as the interleaved loop. */
  function ReadLocationData(lines: seq<string>, parse: Parser): (r: Result<Store, LoadError>)
    ensures r.Success? <==> ParseRecords(lines, parse).Success?
    ensures r.Success? ==> Valid(r.value)
    ensures r.Success? ==> |lines| % 2 == 0
    ensures r.Success? ==> |r.value.xIndex| == |r.value.yIndex| == |lines| / 2
    ensures r.Success? ==> r.value.registry.Keys == NameLines(lines)
  {
    match ParseRecords(lines, parse)
    case Failure(e) => Failure(e)
    case Success(recs) =>
      var st := Build(recs);
      BuildValid(recs);
      RegistryKeys(recs);
      RecordNamesAreNameLines(lines, parse);
      Success(st)
  }

  /** The names on the even (name) lines. */
  function NameLines(lines: seq<string>): set<string>
  {
    set i | 0 <= i < |lines| && i % 2 == 0 :: lines[i]
  }

  /** Each record read holds the location its coordinate line converts to. */
  lemma {:induction false} RecordLocation(lines: seq<string>, parse: Parser, k: nat)
    requires ParseRecords(lines, parse).Success?
    requires k < |ParseRecords(lines, parse).value|
    ensures ParseLocation(lines[2 * k + 1], parse) == Success(ParseRecords(lines, parse).value[k].at)
    decreases k
  {
    var recs := ParseRecords(lines, parse).value;
    var rest := ParseRecords(lines[2..], parse);
    assert ParseLocation(lines[1], parse).Success? && rest.Success?;
    assert recs == [Record(lines[0], ParseLocation(lines[1], parse).value)] + rest.value;
    if k > 0 {
      RecordLocation(lines[2..], parse, k - 1);
      assert lines[2..][2 * (k - 1) + 1] == lines[2 * k + 1];
      assert recs[k] == rest.value[k - 1];
    }
  }

  /** The names of the records read are the names on the name lines. */
  lemma RecordNamesAreNameLines(lines: seq<string>, parse: Parser)
    requires ParseRecords(lines, parse).Success?
    ensures RecordNames(ParseRecords(lines, parse).value) == NameLines(lines)
  {
    var recs := ParseRecords(lines, parse).value;
    forall n | n in NameLines(lines)
      ensures n in RecordNames(recs)
    {
      var i :| 0 <= i < |lines| && i % 2 == 0 && lines[i] == n;
      var k := HalfOfEven(i, |lines|);
      assert recs[k].name == lines[2 * k];
    }
    forall n | n in RecordNames(recs)
      ensures n in NameLines(lines)
    {
      var k :| 0 <= k < |recs| && recs[k].name == n;
      var i := DoubleBelow(k, |lines|);
      assert lines[i] == n;
    }
  }

  /** An even position below an even length is twice a position of the
      half-length sequence of records. */
  lemma HalfOfEven(i: nat, len: nat) returns (k: nat)
    requires i < len && i % 2 == 0 && len % 2 == 0
    ensures 2 * k == i && k < len / 2
  {
    k := i / 2;
  }

  /** Twice a record position is an even line position in range. */
  lemma DoubleBelow(k: nat, len: nat) returns (i: nat)
    requires len % 2 == 0 && k < len / 2
    ensures i == 2 * k && i < len && i % 2 == 0
  {
    i := 2 * k;
  }

  /** Reading two consecutive runs of whole records: the first run's error is
      the result; otherwise the records are those of both runs. */
  lemma {:induction false} ParseAppend(a: seq<string>, b: seq<string>, parse: Parser)
    requires |a| % 2 == 0
    ensures ParseRecords(a + b, parse) ==
            match ParseRecords(a, parse)
            case Failure(e) => Failure(e)
            case Success(ra) =>
              match ParseRecords(b, parse)
              case Failure(e) => Failure(e)
              case Success(rb) => Success(ra + rb)
    decreases |a|
  {
    if |a| == 0 {
      assert a + b == b;
      match ParseRecords(b, parse)
      case Failure(e) =>
      case Success(rb) => assert [] + rb == rb;
    } else {
      var ab := a + b;
      assert ab[2..] == a[2..] + b;
      assert ab[0] == a[0] && ab[1] == a[1];
      ParseAppend(a[2..], b, parse);
      match ParseLocation(a[1], parse)
      case Failure(e) =>
      case Success(loc) =>
        match ParseRecords(a[2..], parse)
        case Failure(e) =>
        case Success(ra) =>
          match ParseRecords(b, parse)
          case Failure(e) =>
          case Success(rb) =>
            assert [Record(a[0], loc)] + (ra + rb) == ([Record(a[0], loc)] + ra) + rb;
    }
  }

  /** A record appended to a readable file is recorded on top of the store the
      file gives, so its location replaces any earlier one under that name. */
  lemma LastRecordWins(lines: seq<string>, name: string, coords: string, parse: Parser)
    requires ReadLocationData(lines, parse).Success?
    requires ParseLocation(coords, parse).Success?
    ensures ReadLocationData(lines + [name, coords], parse) ==
            Success(AddRecord(ReadLocationData(lines, parse).value, name, ParseLocation(coords, parse).value))
    ensures ReadLocationData(lines + [name, coords], parse).value.registry[name] == ParseLocation(coords, parse).value
  {
    ParseAppend(lines, [name, coords], parse);
    var recs := ParseRecords(lines, parse).value;
    var rec := Record(name, ParseLocation(coords, parse).value);
    var pair := [name, coords];
    assert pair[0] == name && pair[1] == coords && pair[2..] == [];
    assert ParseRecords(pair[2..], parse) == Success([]);
    assert ParseRecords(pair, parse) == Success([rec] + []);
    assert [rec] + [] == [rec];
    assert (recs + [rec])[..|recs + [rec]| - 1] == recs;
  }

  /** A coordinate line that does not convert, appended to a readable file,
      fails the read with that line's error. */
  lemma BadCoordinatesFail(lines: seq<string>, name: string, coords: string, parse: Parser)
    requires ReadLocationData(lines, parse).Success?
    requires ParseLocation(coords, parse).Failure?
    ensures ReadLocationData(lines + [name, coords], parse) == Failure(ParseLocation(coords, parse).error)
  {
    ParseAppend(lines, [name, coords], parse);
  }

  /** A name line at the end of an otherwise readable file fails the read with
      that name. */
  lemma OrphanNameFails(lines: seq<string>, name: string, parse: Parser)
    requires ReadLocationData(lines, parse).Success?
    ensures ReadLocationData(lines + [name], parse) == Failure(IncompleteData(name))
  {
    ParseAppend(lines, [name], parse);
  }

  /** Once a whole number of records has failed, no later line is looked at:
      the error stays the same whatever follows. */
  lemma ErrorStopsReading(lines: seq<string>, more: seq<string>, parse: Parser)
    requires |lines| % 2 == 0
    requires ReadLocationData(lines, parse).Failure?
    ensures ReadLocationData(lines + more, parse) == ReadLocationData(lines, parse)
  {
    ParseAppend(lines, more, parse);
  }

  /** A read succeeds exactly when the lines pair up and every coordinate line
      converts. */
  lemma {:induction false} ReadSucceedsIff(lines: seq<string>, parse: Parser)
    ensures ParseRecords(lines, parse).Success? <==> |lines| % 2 == 0 && CoordinateLinesParse(lines, parse)
    decreases |lines|
  {
    if |lines| >= 2 {
      ReadSucceedsIff(lines[2..], parse);
      CoordinateLinesCons(lines, parse);
    }
  }

  /** Every odd (coordinate) line converts to a location. */
  predicate CoordinateLinesParse(lines: seq<string>, parse: Parser)
  {
    forall i :: 0 <= i < |lines| && i % 2 == 1 ==> ParseLocation(lines[i], parse).Success?
  }

  /** The coordinate lines of a file are its second line and those of the
      file after its first record. */
  lemma CoordinateLinesCons(lines: seq<string>, parse: Parser)
    requires |lines| >= 2
    ensures CoordinateLinesParse(lines, parse) <==>
            ParseLocation(lines[1], parse).Success? && CoordinateLinesParse(lines[2..], parse)
  {
    var rest := lines[2..];
    if ParseLocation(lines[1], parse).Success? && CoordinateLinesParse(rest, parse) {
      forall i | 0 <= i < |lines| && i % 2 == 1
        ensures ParseLocation(lines[i], parse).Success?
      {
        if i > 1 {
          assert lines[i] == rest[i - 2] && (i - 2) % 2 == 1;
        }
      }
    }
    if CoordinateLinesParse(lines, parse) {
      assert 1 % 2 == 1;
      forall i | 0 <= i < |rest| && i % 2 == 1
        ensures ParseLocation(rest[i], parse).Success?
      {
        assert rest[i] == lines[i + 2] && (i + 2) % 2 == 1;
      }
    }
  }

}
