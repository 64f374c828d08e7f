# Location searcher — a Dafny model

This project models the core of a small C++ command-line program. The program:

- reads cities from a text file, alternating a name line with an `x-y` coordinate line;
- keeps them in a name → location map and in two coordinate multimaps, one keyed by x and one keyed by y;
- then answers queries in a loop. A query is a city name, a radius and a norm:
  0 is Euclidean (L2), 1 is Chebyshev (L∞), 2 is Manhattan (L1).

A query prunes the candidates with two range scans over the multimaps: the x range `[cx-r, cx+r]` and the y range `[cy-r, cy+r]`. It intersects the two name sets and removes every candidate whose distance from the selected city exceeds the radius. It also lists every city whose index entry is at or above the selected city's y ("north").

The model is functional:

- **Wrappers** holds `Option` and `Result`.
- **Geometry** holds points and the axis box.
- **Distance** holds the three calculators and the radius test.
- **StringOrder** is the lexicographic order `std::string` uses, taken character by character.
- **NameSet** is `std::set<std::string>` as a strictly ascending sequence, with the `inserter` and `set_intersection` operations.
- **CoordinateIndex** is `std::multimap<double, std::string>`, modelled as its non-decreasing iteration order. It provides `lower_bound`, `upper_bound`, `emplace` and the transform-into-set scans.
- **LocationStore** holds the three containers and the invariant that reading maintains.
- **Loader** is `_readLocationData` with its three error messages.
- **Searcher** is the range scans, the north scan, the intersection and the `remove_if` radius filter.
- **Session** is one iteration of the interactive loop.
- **Scenarios** holds worked examples on concrete data.

Points the model makes explicit:

- **Split on the first dash.** The coordinate line is cut at its first `-`: `"3--4"` is x = 3, y = -4. A negative x therefore leaves an empty x part. `"-3-4"` splits into `""` and `"3-4"`, and the conversion of `""` fails, which gives "Invalid coordinate value". A line with no dash, or whose only dash is last, is "Invalid file format".
- **Duplicate names.** The later record overwrites the registry entry. The earlier index entries stay ("stale" entries). The radius filter rereads the registry, so stale entries never change the matching list. The north list is read straight from the y index, so a stale entry can put a city there.
- **North includes ties.** The north scan starts at `lower_bound` of the selected city's y. It therefore includes the selected city itself and every city at exactly the same y. The header comment at `Task05/include/LocationSearcher.h:70-74` calls these cities "located to the north". The model follows the code.
- **Exceptions end the read.** Each error throws and abandons the partly filled containers. The model therefore parses every record first (`Loader.ParseRecords`) and only then records them (`Loader.Build`). This has the same outcome as the interleaved loop: the same error on the first bad record, and otherwise the same containers.

## Model

| member | source | states |
|---|---|---|
| Geometry.InBoxIffOffsets | Task05/src/LocationSearcher.cpp:114-142 | a point lies in the box the two range scans keep exactly when both coordinate offsets are at most the radius |
| Distance.MetricOf | Task05/src/LocationSearcher.cpp:8-13 | norm numbers 0, 1 and 2 select three different calculators: the selected calculator's norm number is the one entered |
| Distance.MetricOfNorm | Task05/src/LocationSearcher.cpp:8-13 | selecting by a calculator's own norm number returns that calculator, so the selection is a bijection onto {0, 1, 2} |
| Distance.EuclideanSquared | Task05/src/EuclideanDistanceCalculator.cpp:4 | the squared Euclidean distance is non-negative and at least the square of each coordinate offset |
| Distance.ChebyshevDistance | Task05/src/ChebyshevDistanceCalculator.cpp:4 | the Chebyshev distance is non-negative, at least each absolute offset, and equal to one of them |
| Distance.ManhattanDistance | Task05/src/ManhattanDistanceCalculator.cpp:4 | the Manhattan distance is non-negative and at least the larger absolute offset |
| Distance.Exceeds | Task05/src/LocationSearcher.cpp:105 | the radius test: a point that passes it under any norm lies in the box the range scans keep, so the prune loses nothing, and the selected location itself always passes |
| Distance.SquareWithinOffsets | Task05/src/EuclideanDistanceCalculator.cpp:4 | a squared Euclidean distance within r² keeps both coordinate offsets within r |
| Distance.NormsOrdered | Task05/src/ManhattanDistanceCalculator.cpp:4 | Chebyshev ≤ Manhattan ≤ 2·Chebyshev, and Chebyshev² ≤ Euclidean² ≤ Manhattan² |
| Distance.EuclideanExceedsAgreesWithRoot | Task05/src/EuclideanDistanceCalculator.cpp:4 | for a non-negative radius, comparing the squared distance with r² decides `sqrt(dx²+dy²) > r` for any non-negative square root |
| Distance.EuclideanRootDominatesOffsets | Task05/src/EuclideanDistanceCalculator.cpp:4 | the Euclidean distance is at least each absolute coordinate offset |
| Distance.SelfDistanceZero | Task05/src/LocationSearcher.cpp:105 | every calculator gives zero from a location to itself |
| Distance.DistanceSymmetric | Task05/src/LocationSearcher.cpp:105 | every calculator is symmetric in its two locations |
| Distance.ExceedsSymmetric | Task05/src/LocationSearcher.cpp:105 | the radius test gives the same answer with center and city swapped |
| Distance.ChebyshevBallIsBox | Task05/src/ChebyshevDistanceCalculator.cpp:4 | under Chebyshev distance, passing the radius test is equivalent to lying in the box |
| Distance.ThreeFourFive | Task05/src/EuclideanDistanceCalculator.cpp:4 | from (0,0) to (3,4) the squared Euclidean distance is 25 = 5², the Chebyshev distance 4 and the Manhattan distance 7 |
| StringOrder.LessIrreflexive | Task05/src/LocationSearcher.cpp:119 | no name sorts before itself in the set's order |
| StringOrder.LessTransitive | Task05/src/LocationSearcher.cpp:119 | the set's order on names is transitive |
| StringOrder.LessTotal | Task05/src/LocationSearcher.cpp:119 | of two different names one sorts first |
| StringOrder.LessAsymmetric | Task05/src/LocationSearcher.cpp:119 | two names never each sort before the other |
| NameSet.Insert | Task05/src/LocationSearcher.cpp:120-124 | inserting keeps the set ascending; the result holds exactly the old names and the new one; a name already present leaves the set unchanged, and otherwise the set grows by one |
| NameSet.Intersect | Task05/src/LocationSearcher.cpp:158-168 | `set_intersection` of two ascending sets is ascending and holds exactly the names in both |
| NameSet.AscendingUnique | Task05/src/LocationSearcher.cpp:119 | two ascending lists with the same names are equal: a set has one iteration order |
| NameSet.SublistElements | Task05/src/LocationSearcher.cpp:102-106 | a list obtained by removing elements in place holds only names of the original |
| CoordinateIndex.LowerBound | Task05/src/LocationSearcher.cpp:120 | `lower_bound(k)` is the position dividing keys below k from keys at or above k |
| CoordinateIndex.UpperBound | Task05/src/LocationSearcher.cpp:120 | `upper_bound(k)` is the position dividing keys at or below k from keys above k |
| CoordinateIndex.BoundsOrdered | Task05/src/LocationSearcher.cpp:120 | for lo ≤ hi, `lower_bound(lo)` does not come after `upper_bound(hi)`, so the scanned range is well formed |
| CoordinateIndex.Emplace | Task05/src/LocationSearcher.cpp:47-48 | `emplace` keeps the keys non-decreasing, adds one entry, and leaves the entries as the old ones plus the new one |
| CoordinateIndex.EmplaceCounts | Task05/src/LocationSearcher.cpp:47-48 | `emplace` adds exactly one occurrence of the new entry and keeps every old occurrence, duplicates included |
| CoordinateIndex.EmplaceAtUpperBound | Task05/src/LocationSearcher.cpp:47-48 | `emplace` inserts at the `upper_bound` of the key, after every entry with an equal key |
| CoordinateIndex.Collect | Task05/src/LocationSearcher.cpp:120-124 | transforming entries into a set yields an ascending set of the earlier names plus the entries' names |
| CoordinateIndex.RangeNames | Task05/src/LocationSearcher.cpp:120-124 | the scan from `lower_bound(lo)` to `upper_bound(hi)` yields exactly the names of entries with lo ≤ key ≤ hi, ascending |
| CoordinateIndex.SuffixNames | Task05/src/LocationSearcher.cpp:149-153 | the scan from `lower_bound(lo)` to the end yields exactly the names of entries with key ≥ lo, ascending |
| LocationStore.AddRecord | Task05/src/LocationSearcher.cpp:46-48 | recording a city overwrites its registry entry, keeps both indexes sorted, and grows each index by one |
| LocationStore.AddRecordIndexes | Task05/src/LocationSearcher.cpp:47-48 | each index gains exactly the new (coordinate, name) entry and loses nothing |
| LocationStore.AddRecordValid | Task05/src/LocationSearcher.cpp:46-48 | recording keeps the invariant: indexes sorted, every index name registered, every registered city indexed at its current location |
| Loader.Message | Task05/src/LocationSearcher.cpp:39-56 | the coordinate error text ends with the whole offending line and the incomplete-data text ends with the city name |
| Loader.MessageInjective | Task05/src/LocationSearcher.cpp:39-56 | different errors never print the same text: the message identifies the error kind and its line or city |
| Loader.FirstDash | Task05/src/LocationSearcher.cpp:37 | the x part read up to the delimiter ends at the first dash, or at the end of a line that has no dash |
| Loader.SplitCoordinates | Task05/src/LocationSearcher.cpp:36-40 | the split succeeds exactly when some dash is not the last character; the x part then has no dash, the y part is non-empty, and x + "-" + y is the line; otherwise the error is "Invalid file format" |
| Loader.SplitJoin | Task05/src/LocationSearcher.cpp:36-40 | joining a dash-free x part and a non-empty y part with a dash splits back into the same two parts |
| Loader.ParseLocation | Task05/src/LocationSearcher.cpp:36-52 | a line is accepted exactly when it splits and both parts convert, and then as the location of the two converted values; a split failure is "Invalid file format", and any other failure is "Invalid coordinate value" with the whole line |
| Loader.ParseRecords | Task05/src/LocationSearcher.cpp:32-58 | a successful read has an even number of lines and one record per pair, named by the pair's first line |
| Loader.RecordLocation | Task05/src/LocationSearcher.cpp:44-46 | the k-th record holds the location its coordinate line converts to |
| Loader.RegistryOf | Task05/src/LocationSearcher.cpp:46 | the registry after the records maps the last record's name to its location; `Loader.RegistryKeys` and `Loader.RegistryLastWins` give its keys and every entry |
| Loader.IndexOf | Task05/src/LocationSearcher.cpp:47-48 | the index after the records is sorted and has one entry per record |
| Loader.Build | Task05/src/LocationSearcher.cpp:46-48 | the store after the records has sorted indexes, each with one entry per record |
| Loader.BuildStep | Task05/src/LocationSearcher.cpp:32-48 | building is the reading loop: each record is added to the store built from the records before it |
| Loader.BuildValid | Task05/src/LocationSearcher.cpp:32-58 | the store built from any records satisfies the invariant |
| Loader.RegistryKeys | Task05/src/LocationSearcher.cpp:46 | the registry's names are exactly the records' names |
| Loader.RegistryLastWins | Task05/src/LocationSearcher.cpp:46 | a registered name maps to the location of its last record |
| Loader.IndexHoldsRecords | Task05/src/LocationSearcher.cpp:47-48 | every record, including one a later duplicate overwrote, leaves its entry in each index |
| Loader.ReadLocationData | Task05/src/LocationSearcher.cpp:21-61 | reading succeeds exactly when every pair parses; the store then satisfies the invariant, holds half as many index entries as lines, and registers exactly the names on the name lines |
| Loader.RecordNamesAreNameLines | Task05/src/LocationSearcher.cpp:32-46 | the names recorded are exactly the even-numbered lines |
| Loader.ParseAppend | Task05/src/LocationSearcher.cpp:32-58 | reading two runs of whole records gives the first run's error, else the second's, else the records of both in order |
| Loader.LastRecordWins | Task05/src/LocationSearcher.cpp:46 | a well-formed pair appended to a readable file is recorded on top of that file's store, so its location replaces any earlier one |
| Loader.BadCoordinatesFail | Task05/src/LocationSearcher.cpp:50-52 | a pair whose coordinate line fails, appended to a readable file, makes the whole read fail with that line's error |
| Loader.OrphanNameFails | Task05/src/LocationSearcher.cpp:54-57 | a name line with no coordinate line after it fails with "Incomplete data for city" and that name |
| Loader.ErrorStopsReading | Task05/src/LocationSearcher.cpp:32-58 | once a prefix of whole records fails, no further lines change the outcome |
| Loader.ReadSucceedsIff | Task05/src/LocationSearcher.cpp:32-58 | the read succeeds exactly when the line count is even and every coordinate line converts |
| Searcher.XRangeCities | Task05/src/LocationSearcher.cpp:114-127 | the x scan yields exactly the names of x-index entries within cx ± r, ascending, stale entries included |
| Searcher.YRangeCities | Task05/src/LocationSearcher.cpp:129-142 | the y scan yields exactly the names of y-index entries within cy ± r, ascending, stale entries included |
| Searcher.NorthCities | Task05/src/LocationSearcher.cpp:144-156 | the north scan yields exactly the names of y-index entries with key ≥ cy (ties included), ascending |
| Searcher.RemoveFarther | Task05/src/LocationSearcher.cpp:101-106 | `remove_if` keeps the survivors in their order and keeps exactly the names whose current location passes the radius test |
| Searcher.MatchingCities | Task05/src/LocationSearcher.cpp:93-106 | the matching list is ascending, drawn from the intersection, and holds exactly the registered cities within the radius: the prune neither loses a city nor lets a farther one through |
| Searcher.CandidatesRegistered | Task05/src/LocationSearcher.cpp:104 | every candidate is registered, so the registry lookup in the filter never inserts a default entry |
| Searcher.BallInCandidates | Task05/src/LocationSearcher.cpp:95-99 | a registered city within the radius is in both range sets |
| Searcher.SelectedCityMatches | Task05/src/LocationSearcher.cpp:93-106 | the selected city is always among its own matches |
| Searcher.PruneIsSuperset | Task05/src/LocationSearcher.cpp:95-106 | every match lies in both range sets |
| Searcher.MatchingDependsOnlyOnRegistry | Task05/src/LocationSearcher.cpp:104 | two valid stores with the same registry give the same matching list, whatever their stale entries |
| Searcher.NorthIncludesCurrent | Task05/src/LocationSearcher.cpp:144-156 | every registered city whose current y is at least cy is in the north list |
| Searcher.NorthExactWithoutStaleEntries | Task05/src/LocationSearcher.cpp:144-156 | without stale entries, the north list is exactly the registered cities with y ≥ cy |
| Session.Step | Task05/src/LocationSearcher.cpp:68-111 | "0" exits; an unregistered name gives the "is not found" message; otherwise the reply lists exactly the cities within the radius under the selected norm and the north scan's names; the selected city is in both lists and both are ascending |
| Session.NoQueryReadOnMiss | Task05/src/LocationSearcher.cpp:76-84 | on "0" or an unknown name, the radius and norm play no part in the iteration |
| Session.SentinelWins | Task05/src/LocationSearcher.cpp:76-78 | "0" exits even when a city of that name is registered |
| Scenarios.SplitExamples | Task05/src/LocationSearcher.cpp:37 | "3--4" splits into "3" and "-4", and "-3-4" into "" and "3-4"; "3-", "34" and "" are format errors |
| Scenarios.LoadErrorExamples | Task05/src/LocationSearcher.cpp:50-57 | a lone name line fails as incomplete data, and an unconvertible x part fails as an invalid coordinate naming the whole line |
| Scenarios.ThreeCities | Task05/src/LocationSearcher.cpp:46-48 | reading A (0,0), B (1,0) and C (0,5) gives a valid store registering exactly those locations |
| Scenarios.ThreeCityLocations | Task05/src/LocationSearcher.cpp:36-46 | with a conversion reading "0", "1" and "5", the lines "0-0", "1-0" and "0-5" give (0,0), (1,0) and (0,5) |
| Scenarios.ThreeCityRecords | Task05/src/LocationSearcher.cpp:32-58 | the file A, 0-0, B, 1-0, C, 0-5 reads as the records A, B and C in order |
| Scenarios.ReadExample | Task05/src/LocationSearcher.cpp:21-61 | reading that file succeeds and registers exactly A (0,0), B (1,0) and C (0,5) |
| Scenarios.ReadThenQueryExample | Task05/src/LocationSearcher.cpp:95-106 | after reading that file, the cities within radius 1 of A under the Euclidean norm are ["A", "B"] |
| Scenarios.RadiusExample | Task05/src/LocationSearcher.cpp:95-106 | around A with radius 1 under the Euclidean norm, the matching list is exactly ["A", "B"] |
| Scenarios.NorthTiesExample | Task05/src/LocationSearcher.cpp:144-156 | north of A is ["A", "B", "C"]: A itself and B, at equal y, are included |
| Scenarios.DuplicateCity | Task05/src/LocationSearcher.cpp:46-48 | reading A (0,5), B (0,1) and then A (0,0) registers A at (0,0) but keeps the y entry (5, A) |
| Scenarios.StaleNorthExample | Task05/src/LocationSearcher.cpp:144-156 | in that store A is north of B though A's current y is below B's, while the radius filter correctly drops A |

## Left out

- Opening the file and the "Failed to open data.txt" error (lines 23-27, 60): the model receives the file's lines.
- End-of-file behaviour of `getline`: a final line without a newline and a trailing empty line are not distinguished. The lines are taken as given.
- `std::stod`: a parameter `parse` of the loader, an arbitrary partial function from text to a real. Its acceptance of leading whitespace and trailing junk, and its overflow errors, are not modelled.
- IEEE doubles, `std::pow` and `std::sqrt`: coordinates are exact reals. The Euclidean test compares squares, which agrees with the square root for a non-negative radius (`Distance.EuclideanExceedsAgreesWithRoot`). Rounding, NaN and infinities are not modelled.
- Prompts, reading the radius and norm from standard input, `cin` failure states and the `cin.ignore` call (lines 73-74, 86-91, 180): the session step takes the name, radius and norm as parameters.
- `_printSearchResults` and `_printErrorMessage` (lines 63-66, 171-181): the reply carries the lists and the message that would be printed. The counts and formatting are not modelled.
- `main` and `run`: the try/catch in main only prints the error message, which `Loader.Message` gives.
- Virtual dispatch through `DistanceCalculator` and `unique_ptr`: a `Metric` datatype selects the formula.
- Session.Step: requires a norm in {0, 1, 2} for a registered city. For any other norm, `_distanceCalculators[norm]` inserts a null pointer, and calling it is undefined behaviour.
- Session.Step: requires a non-negative radius for a registered city. With a negative radius, `lower_bound(c-r)` can lie after `upper_bound(c+r)`, and the transform over that range is undefined behaviour.
- Searcher.MatchingCities: requires the store invariant, so the registry lookups of lines 93 and 104 never insert a default location. `Searcher.CandidatesRegistered` proves that they never do.
- StringOrder: compares names as sequences of Dafny `char`s, which are Unicode scalar values, while `std::string` holds bytes compared as `unsigned char`. The two orders agree on names that are valid UTF-8, because UTF-8 byte order follows code-point order. Names that are not valid UTF-8 cannot be represented.
- The interactive loop as a whole: the model covers one iteration (`Session.Step`) and does not model the repetition until "0".
