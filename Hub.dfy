/** The `SportsHub` object: the loaded events, the filtered view and the
    three filter settings, updated by loading, by the timeframe buttons, by the
    search box and by the sport drop-down. The fetched documents are inputs:
    `None` stands for a request or a parse that failed. */
module Hub {
  import opened Common
  import opened Text
  import opened Events
  import opened EventSort
  import opened ViewFilter

  class SportsHub {
    var allEvents: seq<Event>
    var filteredEvents: seq<Event>
    var currentFilter: Timeframe
    var currentSportFilter: string
    var searchQuery: string

    /** The stored query is always in the normal form the search box gives
        it: lower case and without surrounding white space. */
    ghost predicate Valid()
      reads this
    {
      IsLowerCase(searchQuery) && IsTrimmed(searchQuery)
    }

    /** The initial state: nothing loaded, today's window, every sport, no
        query. */
    constructor()
      ensures Valid()
      ensures allEvents == [] && filteredEvents == []
      ensures currentFilter == Today && currentSportFilter == "all" && searchQuery == ""
    {
      allEvents := [];
      filteredEvents := [];
      currentFilter := Today;
      currentSportFilter := "all";
      searchQuery := "";
    }

    /** `loadData`. Without the team fixture nothing changes. Otherwise the
        events come from the baseball adapter; only when it yields none is
        the sample fixture used, and a missing sample leaves the empty list.
        Whatever was chosen is then sorted in place by start instant. */
    method LoadData(teamsFixture: Option<seq<Team>>, mlbResponse: Option<Schedule>,
                    sampleFixture: Option<seq<Event>>)
      returns (loaded: bool)
      requires Valid()
      modifies this
      ensures Valid()
      ensures filteredEvents == old(filteredEvents) && currentFilter == old(currentFilter)
      ensures currentSportFilter == old(currentSportFilter) && searchQuery == old(searchQuery)
      ensures teamsFixture.None? ==> !loaded && allEvents == old(allEvents)
      ensures teamsFixture.Some? ==>
                && allEvents == LoadedEvents(ApiEvents(teamsFixture.value, mlbResponse), sampleFixture)
                && (loaded <==> ApiEvents(teamsFixture.value, mlbResponse) != [] || sampleFixture.Some?)
    {
      if teamsFixture.None? {
        return false;
      }
      var events := FetchEventsFromAPIs(teamsFixture.value, mlbResponse);
      var chosen := events;
      if |events| == 0 {
        if sampleFixture.None? {
          allEvents := events;
          return false;
        }
        chosen := sampleFixture.value;
      }
      allEvents := SortInPlace(chosen);
      loaded := true;
    }

    /** `applyFilters`: recomputes the view from the loaded events and the
        current window and query; the loaded events stay as they are. */
    method ApplyFilters(startOfToday: int)
      requires Valid()
      modifies this
      ensures Valid()
      ensures filteredEvents == FilterView(allEvents, currentFilter, searchQuery, startOfToday)
      ensures IsSubsequence(filteredEvents, allEvents)
      ensures forall e :: e in filteredEvents ==> startOfToday <= e.start
      ensures allEvents == old(allEvents) && currentFilter == old(currentFilter)
      ensures currentSportFilter == old(currentSportFilter) && searchQuery == old(searchQuery)
    {
      filteredEvents := FilterView(allEvents, currentFilter, searchQuery, startOfToday);
    }

    /** `filterEvents`: selects a window and recomputes the view. */
    method FilterEvents(timeframe: Timeframe, startOfToday: int)
      requires Valid()
      modifies this
      ensures Valid()
      ensures currentFilter == timeframe
      ensures filteredEvents == FilterView(allEvents, timeframe, searchQuery, startOfToday)
      ensures allEvents == old(allEvents)
      ensures currentSportFilter == old(currentSportFilter) && searchQuery == old(searchQuery)
    {
      currentFilter := timeframe;
      ApplyFilters(startOfToday);
    }

    /** The search box's input handler: stores the lower-cased, trimmed
        input and recomputes the view. */
    method SetSearchQuery(input: string, startOfToday: int)
      modifies this
      ensures Valid()
      ensures searchQuery == Trim(Lower(input))
      ensures filteredEvents == FilterView(allEvents, currentFilter, searchQuery, startOfToday)
      ensures allEvents == old(allEvents) && currentFilter == old(currentFilter)
      ensures currentSportFilter == old(currentSportFilter)
    {
      searchQuery := Trim(Lower(input));
      NormalizedQueryIsLowerCase(input);
      ApplyFilters(startOfToday);
    }

    /** The drop-down's change handler: stores the selected sport and
        recomputes the view, which does not depend on it. */
    method SetSportFilter(value: string, startOfToday: int)
      requires Valid()
      modifies this
      ensures Valid()
      ensures currentSportFilter == value
      ensures filteredEvents == FilterView(allEvents, currentFilter, searchQuery, startOfToday)
      ensures allEvents == old(allEvents) && currentFilter == old(currentFilter)
      ensures searchQuery == old(searchQuery)
    {
      currentSportFilter := value;
      ApplyFilters(startOfToday);
    }

    /** `init`: loads the data, lists the sports and shows today's events.
        The returned options are those `populateSportFilter` appends. */
    method Init(teamsFixture: Option<seq<Team>>, mlbResponse: Option<Schedule>,
                sampleFixture: Option<seq<Event>>, startOfToday: int)
      returns (options: seq<SportOption>)
      requires Valid()
      modifies this
      ensures Valid()
      ensures teamsFixture.None? ==> allEvents == old(allEvents)
      ensures teamsFixture.Some? ==>
                allEvents == LoadedEvents(ApiEvents(teamsFixture.value, mlbResponse), sampleFixture)
      ensures options == SportOptions(allEvents)
      ensures currentFilter == Today
      ensures searchQuery == old(searchQuery) && currentSportFilter == old(currentSportFilter)
      ensures filteredEvents == FilterView(allEvents, Today, searchQuery, startOfToday)
      ensures forall e :: e in filteredEvents ==> startOfToday <= e.start < startOfToday + DAY
    {
      var _ := LoadData(teamsFixture, mlbResponse, sampleFixture);
      options := SportOptions(allEvents);
      FilterEvents(Today, startOfToday);
    }
  }

  /** The list `loadData` leaves in `allEvents` when the team fixture loads
      and the baseball adapter yields `api`: those events, or the sample's
      when there are none, or nothing when the sample is missing too, sorted
      by start instant. */
  function LoadedEvents(api: seq<Event>, sample: Option<seq<Event>>): seq<Event> {
    if api != [] then SortByStart(api)
    else if sample.Some? then SortByStart(sample.value)
    else []
  }

  /** The loaded list is in start order and is a reordering of the list it
      was chosen from; the sample is consulted only when the adapter yields
      nothing. */
  lemma LoadedEventsSpec(api: seq<Event>, sample: Option<seq<Event>>)
    ensures SortedByStart(LoadedEvents(api, sample))
    ensures api != [] ==> multiset(LoadedEvents(api, sample)) == multiset(api)
    ensures api == [] && sample.Some? ==> multiset(LoadedEvents(api, sample)) == multiset(sample.value)
    ensures api == [] && sample.None? ==> LoadedEvents(api, sample) == []
  {
    if api != [] {
      SortPermutes(api);
      SortIsSorted(api);
    } else if sample.Some? {
      SortPermutes(sample.value);
      SortIsSorted(sample.value);
    }
  }
}
