/** Cutting a history into pages of rows: one page, and all pages back to a time. */
module HistoryPage {
  import opened Basics
  import opened HistoryTypes
  import opened Entries

  /** A search result and its visits before the query's `endTime`, oldest first. */
  datatype Visits = Visits(item: HistoryItem, visits: seq<Time>)

  function VisitsBefore(source: HistorySource, item: HistoryItem, endTime: Time): Visits {
    Visits(item, SortedBy(Filter(source.getVisits(item.url), Before(endTime)), Earliest()))
  }

  function Visited(source: HistorySource, items: seq<HistoryItem>, endTime: Time): seq<Visits> {
    seq(|items|, i requires 0 <= i < |items| => VisitsBefore(source, items[i], endTime))
  }

  /** The last visit, or the URL of a result that has none. */
  function Latest(visited: Visits): Result<Time, string> {
    if visited.visits == [] then Failure(visited.item.url) else Success(visited.visits[|visited.visits| - 1])
  }

  /** The earliest of the pages' latest visits. */
  function OldestLatest(visited: seq<Visits>): (r: Result<Time, string>)
    requires visited != []
    ensures r.Success? ==> exists i :: 0 <= i < |visited| && Latest(visited[i]) == r
    ensures r.Success? ==> forall i :: 0 <= i < |visited| ==>
              Latest(visited[i]).Success? && r.value <= Latest(visited[i]).value
    ensures r.Failure? ==> exists i :: 0 <= i < |visited| && Latest(visited[i]).Failure?
  {
    var first := Latest(visited[0]);
    if |visited| == 1 || first.Failure? then first
    else
      var rest := OldestLatest(visited[1..]);
      if rest.Failure? || rest.value <= first.value then rest else first
  }

  function Row(startOfDay: Time -> Time, item: HistoryItem, visits: seq<Time>, day: Time): Entry
    requires Filter(visits, OnDay(startOfDay, day)) != []
  {
    var onDay := Filter(visits, OnDay(startOfDay, day));
    Entry(day, item.favicon, LatestOf(onDay), item.title, item.url, onDay)
  }

  lemma DayHasVisits(startOfDay: Time -> Time, visits: seq<Time>, day: Time)
    requires day in FirstSeen(visits, startOfDay)
    ensures Filter(visits, OnDay(startOfDay, day)) != []
  {
    var i :| 0 <= i < |visits| && startOfDay(visits[i]) == day;
    assert visits[i] in Filter(visits, OnDay(startOfDay, day));
  }

  /** `visits` split by day, in the order of their first visit of each day. */
  function ByDay(startOfDay: Time -> Time, item: HistoryItem, visits: seq<Time>): seq<Entry> {
    var days := FirstSeen(visits, startOfDay);
    seq(|days|, i requires 0 <= i < |days| =>
      DayHasVisits(startOfDay, visits, days[i]);
      Row(startOfDay, item, visits, days[i]))
  }

  function Rows(startOfDay: Time -> Time, visited: seq<Visits>, cutoff: Option<Time>): seq<Entry> {
    if visited == [] then []
    else
      var v := visited[0];
      (if Hidden(v.item.url) then [] else ByDay(startOfDay, v.item, Filter(v.visits, AtLeast(cutoff))))
      + Rows(startOfDay, visited[1..], cutoff)
  }

  /**
   * The rows of what one search finds. With as many results as asked for, the
   * rows stop at the earliest of the results' latest visits, which is `next`;
   * with fewer they do not stop. The failure is the URL of a result with no
   * visit, which matters only where such a `next` is needed.
   */
  function LoadPage(source: HistorySource, startOfDay: Time -> Time, query: PageQuery): (r: Result<Page, string>)
    requires query.maxResults >= 1
    ensures r.Success? && r.value.next.Some? ==> r.value.next.value < query.endTime
  {
    var items := source.search(query);
    var visited := Visited(source, items, query.endTime);
    if |items| < query.maxResults then
      Success(Page(SortedBy(Rows(startOfDay, visited, None), Newest()), None))
    else
      var next := OldestLatest(visited);
      if next.Failure? then Failure(next.error)
      else
        LatestIsBefore(source, items, query.endTime);
        Success(Page(SortedBy(Rows(startOfDay, visited, Some(next.value)), Newest()), Some(next.value)))
  }

  lemma LatestIsBefore(source: HistorySource, items: seq<HistoryItem>, endTime: Time)
    ensures forall v :: v in Visited(source, items, endTime) && Latest(v).Success? ==> Latest(v).value < endTime
  {
    forall v | v in Visited(source, items, endTime) && Latest(v).Success? ensures Latest(v).value < endTime {
      var kept := Filter(source.getVisits(v.item.url), Before(endTime));
      MultisetIn(SortedBy(kept, Earliest()), kept);
      assert Latest(v).value in v.visits;
    }
  }

  /**
   * All pages from `query.endTime` down to the first whose `next` is not after
   * `until`, merged. It ends for every source, as each `next` is below the
   * `endTime` before it.
   */
  function LoadSince(source: HistorySource, startOfDay: Time -> Time, until: Time, query: PageQuery)
    : Result<Page, string>
    requires query.maxResults >= 1
    decreases query.endTime - until
  {
    var page := LoadPage(source, startOfDay, query);
    if page.Failure? || page.value.next.None? || page.value.next.value <= until then page
    else
      var rest := LoadSince(source, startOfDay, until, query.(endTime := page.value.next.value));
      if rest.Failure? then rest
      else Success(Page(AppendEntries(page.value.entries, rest.value.entries), rest.value.next))
  }
}
