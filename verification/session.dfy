/** One iteration of the interactive loop: read a city name, stop on the
    sentinel, report an unknown name, or run a query with the radius and norm
    read next. Prompts, number parsing and printing are not modelled; the reply
    carries what the loop prints. */
module Session {
  import opened Geometry
  import opened Distance
  import opened NameSet
  import opened LocationStore
  import opened Searcher

  /** What one iteration produces. */
  datatype Reply =
    | Exit                                                // the sentinel was entered
    | NotFound(message: string)                           // one error line, then the next prompt
    | Report(matching: seq<string>, north: seq<string>)   // the two result lists

  /** The name that ends the loop. */
  const Sentinel := "0"

  /** The iteration for the entered `cityName`. The radius and norm are read
      only when the name is registered, so they are constrained only then. */
  function Step(st: Store, cityName: string, radius: real, norm: int): (reply: Reply)
    requires Valid(st)
    requires cityName != Sentinel && cityName in st.registry ==> radius >= 0.0 && 0 <= norm <= 2
    ensures reply.Exit? <==> cityName == Sentinel
    ensures reply.NotFound? <==> cityName != Sentinel && cityName !in st.registry
    ensures reply.NotFound? ==> reply.message == cityName + " is not found in the city list. Please try again."
    ensures reply.Report? ==> cityName in reply.matching && cityName in reply.north
    ensures reply.Report? ==> Ascending(reply.matching) && Ascending(reply.north)
    ensures reply.Report? ==>
              forall n :: n in reply.matching <==>
                n in st.registry && !Exceeds(MetricOf(norm), st.registry[cityName], st.registry[n], radius)
    ensures reply.Report? ==>
              forall n :: n in reply.north <==>
                exists e :: e in st.yIndex && e.key >= st.registry[cityName].y && e.name == n
  {
    if cityName == Sentinel then Exit
    else if cityName !in st.registry then
      NotFound(cityName + " is not found in the city list. Please try again.")
    else
      var selected := st.registry[cityName];
      SelectedCityMatches(st, MetricOf(norm), cityName, radius);
      NorthIncludesCurrent(st, selected, cityName);
      Report(MatchingCities(st, MetricOf(norm), selected, radius), NorthCities(st, selected))
  }

  /** On the sentinel or an unknown name no radius or norm is read: the
      iteration is the same whatever they would have been. */
  lemma NoQueryReadOnMiss(st: Store, cityName: string, r1: real, n1: int, r2: real, n2: int)
    requires Valid(st)
    requires cityName == Sentinel || cityName !in st.registry
    ensures Step(st, cityName, r1, n1) == Step(st, cityName, r2, n2)
  {
  }

  /** The sentinel ends the loop even when a city is called "0". */
  lemma SentinelWins(st: Store, radius: real, norm: int)
    requires Valid(st) && Sentinel in st.registry
    ensures Step(st, Sentinel, radius, norm) == Exit
  {
  }
}
