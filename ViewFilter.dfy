/** The view the hub shows: the time window and the free-text search that
    `applyFilters` applies to the loaded events, and the list of sports that
    `populateSportFilter` offers. Instants are milliseconds; the start of the
    local day is an input, and a day is a fixed 24 hours. */
module ViewFilter {
  import opened Common
  import opened Text
  import opened Events

  /** The four time windows of the filter buttons. */
  datatype Timeframe = Today | Tomorrow | Week | All

  /** One day in milliseconds. */
  const DAY: int := 86_400_000

  /** The time-window test of `applyFilters`, relative to the start of today
      `sot`: a half-open interval per window, open-ended for `All`. */
  predicate InWindow(tf: Timeframe, start: int, sot: int) {
    match tf
    case Today => !(start < sot || start >= sot + DAY)
    case Tomorrow => !(start < sot + DAY || start >= sot + 2 * DAY)
    case Week => !(start < sot || start >= sot + 7 * DAY)
    case All => !(start < sot)
  }

  /** No window ever lets an event from before today through; `Today` and
      `Tomorrow` are disjoint and both lie inside `Week`, which lies inside
      `All`. */
  lemma WindowsNest(start: int, sot: int)
    ensures forall tf :: InWindow(tf, start, sot) ==> sot <= start
    ensures InWindow(Today, start, sot) ==> !InWindow(Tomorrow, start, sot)
    ensures InWindow(Today, start, sot) || InWindow(Tomorrow, start, sot) ==> InWindow(Week, start, sot)
    ensures InWindow(Week, start, sot) ==> InWindow(All, start, sot)
  {
  }

  // ---------------------------------------------------------------- search

  /** The values of the truthy fields among `fields`, in order
      (`.filter(Boolean)`). */
  function TruthyValues(fields: seq<Option<string>>): (r: seq<string>)
    ensures |r| == |Keep(fields, Truthy)|
    ensures forall k :: 0 <= k < |r| ==> Keep(fields, Truthy)[k] == Some(r[k])
    ensures forall v :: v in r <==> Some(v) in fields && v != ""
  {
    if fields == [] then []
    else
      assert forall f :: f in fields <==> f == fields[0] || f in fields[1..];
      var rest := TruthyValues(fields[1..]);
      assert Keep(fields, Truthy) == (if Truthy(fields[0]) then [fields[0]] else []) + Keep(fields[1..], Truthy);
      (if Truthy(fields[0]) then [fields[0].value] else []) + rest
  }

  /** The searchable fields of an event, in the order the search joins them. */
  function SearchFields(e: Event): seq<Option<string>> {
    [e.teamA, e.teamB, e.fighterA, e.fighterB, e.league, e.promotion, e.sport]
  }

  /** The string the search looks in: the truthy fields joined by spaces,
      lower-cased. */
  function SearchText(e: Event): string {
    Lower(Join(" ", TruthyValues(SearchFields(e))))
  }

  /** The search test of `applyFilters`: an empty query lets everything
      through. */
  predicate MatchesSearch(e: Event, query: string) {
    query == "" || Includes(SearchText(e), query)
  }

  /** What decides whether `applyFilters` keeps an event. The sport selected in
      the drop-down plays no part in it. */
  predicate Visible(e: Event, tf: Timeframe, query: string, sot: int) {
    InWindow(tf, e.start, sot) && MatchesSearch(e, query)
  }

  function VisibleIn(tf: Timeframe, query: string, sot: int): Event -> bool {
    e => Visible(e, tf, query, sot)
  }

  /** The list `applyFilters` stores in `filteredEvents`: the events of the
      window whose search text contains the query, in their order. */
  function FilterView(events: seq<Event>, tf: Timeframe, query: string, sot: int): (r: seq<Event>)
    ensures IsSubsequence(r, events)
    ensures forall e :: multiset(r)[e] ==
                        if InWindow(tf, e.start, sot) && (query != "" ==> IsSubstring(query, SearchText(e)))
                        then multiset(events)[e] else 0
    ensures forall e :: e in r ==> sot <= e.start
  {
    Keep(events, VisibleIn(tf, query, sot))
  }

  /** Filtering the filtered list again changes nothing, so recomputing the
      view from its own output is harmless. */
  lemma FilterViewIdempotent(events: seq<Event>, tf: Timeframe, query: string, sot: int)
    ensures FilterView(FilterView(events, tf, query, sot), tf, query, sot) == FilterView(events, tf, query, sot)
  {
    KeepIdempotent(events, VisibleIn(tf, query, sot));
  }

  /** An empty query leaves exactly the events of the window. */
  lemma EmptyQueryKeepsWindow(events: seq<Event>, tf: Timeframe, sot: int)
    ensures forall e :: e in FilterView(events, tf, "", sot) <==> e in events && InWindow(tf, e.start, sot)
  {
  }

  /** Searching for a piece of any truthy field finds the event, whatever the
      case of the field: the query, which is lower case, only has to occur in
      the lower-cased field. */
  lemma SearchFindsField(e: Event, query: string, field: Option<string>)
    requires field in SearchFields(e) && Truthy(field)
    requires IsSubstring(query, Lower(field.value))
    ensures MatchesSearch(e, query)
  {
    var parts := TruthyValues(SearchFields(e));
    assert field.value in parts;
    JoinContainsPart(" ", parts, field.value);
    LowerKeepsSubstring(field.value, Join(" ", parts));
    SubstringTransitive(query, Lower(field.value), SearchText(e));
  }

  // ---------------------------------------------------------------- sports

  /** Strictly increasing in the default string order: sorted and without
      duplicates. */
  predicate StrictlySorted(s: seq<string>) {
    forall i, j :: 0 <= i < j < |s| ==> StrLess(s[i], s[j])
  }

  /** Adds `x` to a strictly sorted list unless it is already there. */
  function InsertLabel(sorted: seq<string>, x: string): (r: seq<string>)
    requires StrictlySorted(sorted)
    ensures StrictlySorted(r)
    ensures forall y :: y in r <==> y in sorted || y == x
  {
    if sorted == [] then [x]
    else if x == sorted[0] then sorted
    else if StrLess(x, sorted[0]) then
      assert forall j :: 0 <= j < |sorted| ==> StrLess(x, sorted[j]) by {
        forall j | 0 <= j < |sorted| ensures StrLess(x, sorted[j]) {
          if j > 0 {
            StrLessTransitive(x, sorted[0], sorted[j]);
          }
        }
      }
      [x] + sorted
    else
      StrLessTotal(x, sorted[0]);
      assert forall y :: y in sorted <==> y == sorted[0] || y in sorted[1..];
      var rest := InsertLabel(sorted[1..], x);
      assert forall k :: 0 <= k < |rest| ==> StrLess(sorted[0], rest[k]) by {
        forall k | 0 <= k < |rest| ensures StrLess(sorted[0], rest[k]) {
          assert rest[k] in rest;
        }
      }
      [sorted[0]] + rest
  }

  /** The distinct truthy sport names of `events`, sorted. */
  function SportLabels(events: seq<Event>): (r: seq<string>)
    ensures StrictlySorted(r)
    ensures forall y :: y in r <==> exists e :: e in events && e.sport == Some(y) && y != ""
  {
    if events == [] then []
    else
      var front := events[..|events| - 1];
      var last := events[|events| - 1];
      assert forall e :: e in events <==> e in front || e == last by {
        assert events == front + [last];
      }
      var labels := SportLabels(front);
      if Truthy(last.sport) then InsertLabel(labels, last.sport.value) else labels
  }

  /** One entry of the sport drop-down: the lower-cased value and the text shown. */
  datatype SportOption = SportOption(value: string, text: string)

  /** The options `populateSportFilter` appends after "All Sports": one per
      distinct truthy sport of the events, in the default sort order, each
      with its lower-cased name as value. */
  function SportOptions(events: seq<Event>): (r: seq<SportOption>)
    ensures forall k :: 0 <= k < |r| ==> r[k].value == Lower(r[k].text)
    ensures forall i, j :: 0 <= i < j < |r| ==> StrLess(r[i].text, r[j].text)
    ensures forall y :: (exists k :: 0 <= k < |r| && r[k].text == y) <==>
                        (exists e :: e in events && e.sport == Some(y) && y != "")
  {
    var labels := SportLabels(events);
    var r := seq(|labels|, k requires 0 <= k < |labels| => SportOption(Lower(labels[k]), labels[k]));
    assert forall y :: (exists k :: 0 <= k < |r| && r[k].text == y) <==> y in labels by {
      forall y ensures (exists k :: 0 <= k < |r| && r[k].text == y) <==> y in labels {
        if y in labels {
          var k :| 0 <= k < |labels| && labels[k] == y;
          assert r[k].text == y;
        }
      }
    }
    r
  }
}
