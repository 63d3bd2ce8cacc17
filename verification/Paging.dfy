/** Pages, appended one by one, hold what one unbounded page holds, exactly when visible pages share no visit times. */
module Paging {
  import opened Basics
  import opened HistoryTypes
  import opened Entries
  import opened HistoryPage
  import opened Listing
  import opened FakeHistory

  /** No visible page has a visit before `endTime` at the time of another page's visit. */
  ghost predicate NoSharedTimes(found: Found, endTime: Time) {
    forall url, other, t | url in found && other in found && url != other && !Hidden(url) ::
      t in found[url].visits && t in found[other].visits ==> endTime <= t
  }

  /** The rows of `w`, newest first: what the list should show of it. */
  ghost predicate Shows(rows: seq<Entry>, found: Found, startOfDay: Time -> Time, w: Window) {
    Lists(rows, found, startOfDay, w) && NewestFirst(rows)
  }

  lemma SameTimeSameRow(a: Entry, b: Entry, found: Found, startOfDay: Time -> Time, w: Window)
    requires IsRow(a, found, startOfDay, w) && IsRow(b, found, startOfDay, w) && NoSharedTimes(found, w.until)
    requires a.time == b.time
    ensures a.Id() == b.Id()
  {
    RowTime(a, found, startOfDay, w);
    RowTime(b, found, startOfDay, w);
  }

  lemma NewestFirstWithoutTies(rows: seq<Entry>, found: Found, startOfDay: Time -> Time, w: Window)
    requires forall e :: e in rows ==> IsRow(e, found, startOfDay, w)
    requires DistinctIds(rows) && Ascending(rows, Newest()) && NoSharedTimes(found, w.until)
    ensures NewestFirst(rows)
  {
    forall i, j | 0 <= i < j < |rows| ensures rows[j].time < rows[i].time {
      assert Newest()(rows[i]) <= Newest()(rows[j]);
      if rows[i].time == rows[j].time {
        SameTimeSameRow(rows[i], rows[j], found, startOfDay, w);
      }
    }
  }

  /** Without shared times, a page shows everything from its `next` up to its `endTime`. */
  lemma LoadPageShows(source: HistorySource, found: Found, startOfDay: Time -> Time, query: PageQuery)
    requires query.maxResults >= 1 && Serves(source, found, query.text) && NoSharedTimes(found, query.endTime)
    ensures var r := LoadPage(source, startOfDay, query);
            r.Success? && Shows(r.value.entries, found, startOfDay, Window(r.value.next, query.endTime))
  {
    LoadPageLists(source, found, startOfDay, query);
    var items := source.search(query);
    var page := LoadPage(source, startOfDay, query).value;
    var w := Window(page.next, query.endTime);
    AllListed(items, found, page.next, query.endTime);
    ListsAll(page.entries, items, found, startOfDay, w);
    NewestFirstWithoutTies(page.entries, found, startOfDay, w);
  }

  /** The cutoff argument: a page left out has no visit from the cutoff on. */
  lemma AllListed(items: seq<HistoryItem>, found: Found, next: Option<Time>, endTime: Time)
    requires NoSharedTimes(found, endTime) && ItemsOf(items, found)
    requires next.Some? ==> next.value < endTime
    requires next.Some? ==> exists i :: 0 <= i < |items| && next.value in found[items[i].url].visits
    requires forall url :: url in found && HasVisitBefore(found[url], endTime) && !Listed(items, url) ==>
               next.Some? && LatestBefore(found[url], endTime) <= next.value
    ensures forall url, t | url in found && !Hidden(url) && t in found[url].visits && Window(next, endTime).Holds(t) ::
              Listed(items, url)
  {
    forall url, t | url in found && !Hidden(url) && t in found[url].visits && Window(next, endTime).Holds(t)
      ensures Listed(items, url)
    {
      assert HasVisitBefore(found[url], endTime);
      if next.Some? {
        var i :| 0 <= i < |items| && next.value in found[items[i].url].visits;
        assert items[i].url == url ==> Listed(items, url);
        assert t == next.value || Listed(items, url);
      }
    }
  }

  lemma ListsAll(rows: seq<Entry>, items: seq<HistoryItem>, found: Found, startOfDay: Time -> Time, w: Window)
    requires Lists(rows, Only(found, items), startOfDay, w)
    requires forall url, t | url in found && !Hidden(url) && t in found[url].visits && w.Holds(t) :: Listed(items, url)
    ensures Lists(rows, found, startOfDay, w)
  {
    forall e | e in rows ensures IsRow(e, found, startOfDay, w) {
      assert IsRow(e, Only(found, items), startOfDay, w);
    }
    forall url, t | url in found && !Hidden(url) && t in found[url].visits && w.Holds(t)
      ensures HasRow(rows, url, startOfDay(t))
    {
      assert url in Only(found, items);
    }
  }

  // Appending the next page.

  lemma {:induction false} OnSplits(times: seq<Time>, startOfDay: Time -> Time, day: Time, from: Option<Time>,
                                    middle: Time, until: Time)
    requires Ascending(times, Earliest()) && middle <= until && (from.Some? ==> from.value <= middle)
    ensures Filter(times, InWindowOnDay(startOfDay, day, Window(from, middle)))
          + Filter(times, InWindowOnDay(startOfDay, day, Window(Some(middle), until)))
         == Filter(times, InWindowOnDay(startOfDay, day, Window(from, until)))
  {
    if times != [] {
      forall i, j | 0 <= i < j < |times[1..]| ensures Earliest()(times[1..][i]) <= Earliest()(times[1..][j]) {
        assert Earliest()(times[i + 1]) <= Earliest()(times[j + 1]);
      }
      OnSplits(times[1..], startOfDay, day, from, middle, until);
      if middle <= times[0] {
        var early := Filter(times, InWindowOnDay(startOfDay, day, Window(from, middle)));
        forall t | t in times ensures middle <= t {
          var i :| 0 <= i < |times| && times[i] == t;
          assert i > 0 ==> Earliest()(times[0]) <= Earliest()(times[i]);
        }
        HeadIn(early);
      }
    }
  }

  lemma JoinedVisits(record: Record, startOfDay: Time -> Time, day: Time, from: Option<Time>, middle: Time, until: Time)
    requires middle <= until && (from.Some? ==> from.value <= middle)
    ensures On(record, startOfDay, day, Window(from, middle)) + On(record, startOfDay, day, Window(Some(middle), until))
         == On(record, startOfDay, day, Window(from, until))
  {
    SortedByAscending(record.visits, Earliest());
    OnSplits(SortedBy(record.visits, Earliest()), startOfDay, day, from, middle, until);
  }

  lemma NoRowNoVisits(rows: seq<Entry>, found: Found, startOfDay: Time -> Time, w: Window, id: (Time, string))
    requires Lists(rows, found, startOfDay, w) && RowWithId(rows, id).None? && id.1 in found && !Hidden(id.1)
    ensures On(found[id.1], startOfDay, id.0, w) == []
  {
    var on := On(found[id.1], startOfDay, id.0, w);
    OnHolds(found[id.1], startOfDay, id.0, w);
    HeadIn(on);
    assert on != [] ==> HasRow(rows, id.1, startOfDay(on[0]));
  }

  /** A loaded row, with its older visits, is a row of both windows. */
  lemma ExtendedIsRow(row: Entry, page: seq<Entry>, found: Found, startOfDay: Time -> Time, from: Option<Time>,
                      middle: Time, until: Time)
    requires middle <= until && (from.Some? ==> from.value <= middle)
    requires IsRow(row, found, startOfDay, Window(Some(middle), until))
    requires Lists(page, found, startOfDay, Window(from, middle))
    ensures IsRow(Extended(row, page), found, startOfDay, Window(from, until))
    ensures Extended(row, page).time == row.time
  {
    JoinedVisits(found[row.url], startOfDay, row.day, from, middle, until);
    var more := RowWithId(page, row.Id());
    if more.None? {
      NoRowNoVisits(page, found, startOfDay, Window(from, middle), row.Id());
      assert [] + row.visits == row.visits;
    }
  }

  /** A row of the page that no loaded row stands for. */
  lemma AddedIsRow(row: Entry, loaded: seq<Entry>, found: Found, startOfDay: Time -> Time, from: Option<Time>,
                   middle: Time, until: Time)
    requires middle <= until && (from.Some? ==> from.value <= middle)
    requires IsRow(row, found, startOfDay, Window(from, middle))
    requires Lists(loaded, found, startOfDay, Window(Some(middle), until)) && RowWithId(loaded, row.Id()).None?
    ensures IsRow(row, found, startOfDay, Window(from, until))
  {
    JoinedVisits(found[row.url], startOfDay, row.day, from, middle, until);
    NoRowNoVisits(loaded, found, startOfDay, Window(Some(middle), until), row.Id());
    assert row.visits + [] == row.visits;
  }

  /** Appending a page to the rows of the window above it gives the rows of both. */
  lemma AppendShows(loaded: seq<Entry>, page: seq<Entry>, found: Found, startOfDay: Time -> Time, from: Option<Time>,
                    middle: Time, until: Time)
    requires middle <= until && (from.Some? ==> from.value <= middle)
    requires Shows(loaded, found, startOfDay, Window(Some(middle), until))
    requires Shows(page, found, startOfDay, Window(from, middle))
    ensures Shows(AppendEntries(loaded, page), found, startOfDay, Window(from, until))
  {
    var all := AppendEntries(loaded, page);
    AppendKeepsDistinct(loaded, page);
    AppendRows(loaded, page, found, startOfDay, from, middle, until);
    AppendCovers(loaded, page, found, startOfDay, from, middle, until);
    forall e | e in all ensures IsRow(e, found, startOfDay, Window(from, until)) {
      var i :| 0 <= i < |all| && all[i] == e;
    }
    AppendOrder(loaded, page, middle);
  }

  lemma AppendOrder(loaded: seq<Entry>, page: seq<Entry>, middle: Time)
    requires NewestFirst(loaded) && NewestFirst(page)
    requires var all := AppendEntries(loaded, page);
             forall i :: 0 <= i < |all| ==>
               if i < |loaded| then all[i].time == loaded[i].time && middle <= all[i].time else all[i].time < middle
    ensures NewestFirst(AppendEntries(loaded, page))
  {
    var all := AppendEntries(loaded, page);
    var added := Filter(page, NotIn(loaded));
    FilterOrder(page, NotIn(loaded));
    forall i, j | 0 <= i < j < |all| ensures all[j].time < all[i].time {
      if |loaded| <= i {
        assert all[i] == added[i - |loaded|] && all[j] == added[j - |loaded|];
      }
    }
  }

  lemma AppendRows(loaded: seq<Entry>, page: seq<Entry>, found: Found, startOfDay: Time -> Time, from: Option<Time>,
                   middle: Time, until: Time)
    requires middle <= until && (from.Some? ==> from.value <= middle)
    requires Lists(loaded, found, startOfDay, Window(Some(middle), until))
    requires Lists(page, found, startOfDay, Window(from, middle))
    ensures var all := AppendEntries(loaded, page);
            forall i :: 0 <= i < |all| ==>
              && IsRow(all[i], found, startOfDay, Window(from, until))
              && if i < |loaded| then all[i].time == loaded[i].time && middle <= all[i].time else all[i].time < middle
  {
    var all := AppendEntries(loaded, page);
    var added := Filter(page, NotIn(loaded));
    forall i | 0 <= i < |all|
      ensures IsRow(all[i], found, startOfDay, Window(from, until))
      ensures if i < |loaded| then all[i].time == loaded[i].time && middle <= all[i].time else all[i].time < middle
    {
      if i < |loaded| {
        assert loaded[i] in loaded;
        ExtendedIsRow(loaded[i], page, found, startOfDay, from, middle, until);
        RowTime(loaded[i], found, startOfDay, Window(Some(middle), until));
      } else {
        var e := added[i - |loaded|];
        assert all[i] == e && e in added;
        AddedIsRow(e, loaded, found, startOfDay, from, middle, until);
        RowTime(e, found, startOfDay, Window(from, middle));
      }
    }
  }

  lemma AppendCovers(loaded: seq<Entry>, page: seq<Entry>, found: Found, startOfDay: Time -> Time,
                     from: Option<Time>, middle: Time, until: Time)
    requires middle <= until && (from.Some? ==> from.value <= middle)
    requires Lists(loaded, found, startOfDay, Window(Some(middle), until))
    requires Lists(page, found, startOfDay, Window(from, middle))
    ensures Covers(AppendEntries(loaded, page), found, startOfDay, Window(from, until))
  {
    var all := AppendEntries(loaded, page);
    AppendIds(loaded, page);
    forall url, t | url in found && !Hidden(url) && t in found[url].visits && Window(from, until).Holds(t)
      ensures HasRow(all, url, startOfDay(t))
    {
      if middle <= t {
        assert HasRow(loaded, url, startOfDay(t));
      } else {
        assert HasRow(page, url, startOfDay(t));
      }
      assert (startOfDay(t), url) in Ids(loaded) + Ids(page);
      assert (startOfDay(t), url) in Ids(all);
    }
  }

  lemma {:induction false} FilterOrder(rows: seq<Entry>, keep: Entry -> bool)
    requires NewestFirst(rows)
    ensures NewestFirst(Filter(rows, keep))
  {
    if rows != [] {
      FilterOrder(rows[1..], keep);
      forall e | e in Filter(rows[1..], keep) ensures e.time < rows[0].time {
        var i :| 0 <= i < |rows[1..]| && rows[1..][i] == e;
        assert rows[i + 1] == e;
      }
    }
  }

  /** Only one list shows a window. */
  lemma ShowsOnce(a: seq<Entry>, b: seq<Entry>, found: Found, startOfDay: Time -> Time, w: Window)
    requires Shows(a, found, startOfDay, w) && Shows(b, found, startOfDay, w)
    ensures a == b
  {
    ShownBy(a, b, found, startOfDay, w);
    ShownBy(b, a, found, startOfDay, w);
    SameRows(a, b);
  }

  lemma ShownBy(a: seq<Entry>, b: seq<Entry>, found: Found, startOfDay: Time -> Time, w: Window)
    requires Lists(a, found, startOfDay, w) && Lists(b, found, startOfDay, w)
    ensures forall e :: e in a ==> e in b
  {
    forall e | e in a ensures e in b {
      RowTime(e, found, startOfDay, w);
      assert HasRow(b, e.url, startOfDay(e.time));
    }
  }

  lemma {:induction false} SameRows(a: seq<Entry>, b: seq<Entry>)
    requires NewestFirst(a) && NewestFirst(b)
    requires forall e :: e in a <==> e in b
    ensures a == b
  {
    if a == [] {
      HeadIn(b);
    } else {
      assert a[0] in a;
      assert b != [];
      assert b[0] in b;
      var i :| 0 <= i < |b| && b[i] == a[0];
      var j :| 0 <= j < |a| && a[j] == b[0];
      assert i == 0;
      forall e ensures e in a[1..] <==> e in b[1..] {
        InTail(a, e);
        InTail(b, e);
      }
      SameRows(a[1..], b[1..]);
    }
  }

  lemma InTail(rows: seq<Entry>, e: Entry)
    requires rows != [] && NewestFirst(rows)
    ensures e in rows[1..] <==> e in rows && e != rows[0]
  {
    if e in rows[1..] {
      var k :| 0 <= k < |rows[1..]| && rows[1..][k] == e;
      assert rows[k + 1] == e;
    } else if e in rows {
      assert rows == [rows[0]] + rows[1..];
    }
  }

  // Loading every page.

  ghost function TimesBefore(found: Found, endTime: Time): set<Time> {
    set url, t | url in found && t in found[url].visits && t < endTime :: t
  }

  /** `loaded` with every page from `endTime` down appended to it, as the list grows when scrolled to its end. */
  ghost function LoadMore(source: HistorySource, found: Found, startOfDay: Time -> Time, loaded: seq<Entry>,
                          query: PageQuery): seq<Entry>
    requires query.maxResults >= 1 && Serves(source, found, query.text)
    decreases TimesBefore(found, query.endTime)
  {
    LoadPageLists(source, found, startOfDay, query);
    var page := LoadPage(source, startOfDay, query).value;
    var rows := AppendEntries(loaded, page.entries);
    if page.next.None? then rows
    else
      assert page.next.value in TimesBefore(found, query.endTime);
      assert page.next.value !in TimesBefore(found, page.next.value);
      LoadMore(source, found, startOfDay, rows, query.(endTime := page.next.value))
  }

  /** Everything, a page of `query.maxResults` results at a time. */
  ghost function Paged(source: HistorySource, found: Found, startOfDay: Time -> Time, query: PageQuery): seq<Entry>
    requires query.maxResults >= 1 && Serves(source, found, query.text)
  {
    LoadMore(source, found, startOfDay, [], query)
  }

  lemma {:induction false} LoadMoreShows(source: HistorySource, found: Found, startOfDay: Time -> Time,
                                         loaded: seq<Entry>, query: PageQuery, until: Time)
    requires query.maxResults >= 1 && Serves(source, found, query.text) && NoSharedTimes(found, until)
    requires query.endTime <= until && Shows(loaded, found, startOfDay, Window(Some(query.endTime), until))
    ensures Shows(LoadMore(source, found, startOfDay, loaded, query), found, startOfDay, Window(None, until))
    decreases TimesBefore(found, query.endTime)
  {
    LoadPageShows(source, found, startOfDay, query);
    LoadPageLists(source, found, startOfDay, query);
    var page := LoadPage(source, startOfDay, query).value;
    AppendShows(loaded, page.entries, found, startOfDay, page.next, query.endTime, until);
    if page.next.Some? {
      assert page.next.value in TimesBefore(found, query.endTime);
      assert page.next.value !in TimesBefore(found, page.next.value);
      LoadMoreShows(source, found, startOfDay, AppendEntries(loaded, page.entries),
                    query.(endTime := page.next.value), until);
    }
  }

  ghost predicate Unbounded(found: Found, maxResults: nat) { |found| < maxResults }

  lemma {:induction false} FewerThanFound(items: seq<HistoryItem>, found: Found)
    requires ItemsOf(items, found)
    ensures |items| <= |found|
  {
    if items != [] {
      var last := |items| - 1;
      var others := found - {items[last].url};
      assert others.Keys == found.Keys - {items[last].url};
      FewerThanFound(items[..last], others);
      assert |others| == |found| - 1;
    }
  }

  /** One unbounded page loads everything before its `endTime`. */
  lemma UnboundedIsWhole(source: HistorySource, found: Found, startOfDay: Time -> Time, query: PageQuery)
    requires Unbounded(found, query.maxResults) && Serves(source, found, query.text)
    ensures var r := LoadPage(source, startOfDay, query);
            r.Success? && r.value.next.None? && Lists(r.value.entries, found, startOfDay, Window(None, query.endTime))
  {
    LoadPageLists(source, found, startOfDay, query);
    var items := source.search(query);
    FewerThanFound(items, found);
    var entries, w := LoadPage(source, startOfDay, query).value.entries, Window(None, query.endTime);
    forall e | e in entries ensures IsRow(e, found, startOfDay, w) {
      assert IsRow(e, Only(found, items), startOfDay, w);
    }
    forall url, t | url in found && !Hidden(url) && t in found[url].visits && w.Holds(t)
      ensures HasRow(entries, url, startOfDay(t))
    {
      assert HasVisitBefore(found[url], query.endTime);
      assert url in Only(found, items);
    }
  }

  lemma NothingShown(found: Found, startOfDay: Time -> Time, until: Time)
    ensures Shows([], found, startOfDay, Window(Some(until), until))
  {
  }

  lemma PagedShows(source: HistorySource, found: Found, startOfDay: Time -> Time, query: PageQuery)
    requires query.maxResults >= 1 && Serves(source, found, query.text) && NoSharedTimes(found, query.endTime)
    ensures Shows(Paged(source, found, startOfDay, query), found, startOfDay, Window(None, query.endTime))
  {
    hide LoadMore, Serves, NoSharedTimes, Shows;
    NothingShown(found, startOfDay, query.endTime);
    LoadMoreShows(source, found, startOfDay, [], query, query.endTime);
  }

  /**
   * Paged loading gives what one unbounded page gives: the same rows, with the
   * same ids, visits and times, in the same order.
   */
  lemma PagingIsWhole(source: HistorySource, found: Found, startOfDay: Time -> Time, query: PageQuery, unbounded: nat)
    requires query.maxResults >= 1 && Serves(source, found, query.text) && Unbounded(found, unbounded)
    requires NoSharedTimes(found, query.endTime)
    ensures LoadPage(source, startOfDay, query.(maxResults := unbounded))
         == Success(Page(Paged(source, found, startOfDay, query), None))
  {
    hide LoadPage, Paged, Serves, NoSharedTimes, Shows, Lists;
    var whole := query.(maxResults := unbounded);
    UnboundedIsWhole(source, found, startOfDay, whole);
    LoadPageShows(source, found, startOfDay, whole);
    PagedShows(source, found, startOfDay, query);
    ShowsOnce(LoadPage(source, startOfDay, whole).value.entries, Paged(source, found, startOfDay, query),
              found, startOfDay, Window(None, query.endTime));
  }

  /**
   * `LoadSince` shows exactly the visits from its `next` on, all of them if it
   * has none, so everything at or after `until` is there.
   */
  lemma {:induction false} LoadSinceShows(source: HistorySource, found: Found, startOfDay: Time -> Time, until: Time,
                                          query: PageQuery)
    requires query.maxResults >= 1 && Serves(source, found, query.text) && NoSharedTimes(found, query.endTime)
    ensures var r := LoadSince(source, startOfDay, until, query);
            && r.Success?
            && Shows(r.value.entries, found, startOfDay, Window(r.value.next, query.endTime))
            && (r.value.next.Some? ==> r.value.next.value <= until && r.value.next.value < query.endTime)
    decreases query.endTime - until
  {
    LoadPageShows(source, found, startOfDay, query);
    var page := LoadPage(source, startOfDay, query).value;
    if page.next.Some? && page.next.value > until {
      var older := query.(endTime := page.next.value);
      LoadSinceShows(source, found, startOfDay, until, older);
      var rest := LoadSince(source, startOfDay, until, older).value;
      AppendShows(page.entries, rest.entries, found, startOfDay, rest.next, older.endTime, query.endTime);
    }
  }

  // Where times are shared, some source and page size lose a visit.

  /** No row of `url` holds a visit at `t`. */
  ghost predicate Misses(rows: seq<Entry>, url: string, t: Time) {
    forall e :: e in rows && e.url == url ==> t !in e.visits
  }

  lemma AppendMisses(loaded: seq<Entry>, page: seq<Entry>, url: string, t: Time)
    requires Misses(loaded, url, t) && Misses(page, url, t)
    ensures Misses(AppendEntries(loaded, page), url, t)
  {
    var all := AppendEntries(loaded, page);
    forall e | e in all && e.url == url ensures t !in e.visits {
      var i :| 0 <= i < |all| && all[i] == e;
      if i < |loaded| {
        assert loaded[i] in loaded;
      } else {
        assert e in Filter(page, NotIn(loaded));
      }
    }
  }

  /** Among pages whose latest visits tie, `source` puts `other` before `url`. */
  ghost predicate Prefers(source: HistorySource, found: Found, other: string, url: string, text: string)
    requires other in found && url in found
  {
    forall endTime :: var query := PageQuery(endTime, 1, text);
      && Listed(source.search(query), url)
      && HasVisitBefore(found[url], endTime) && HasVisitBefore(found[other], endTime) ==>
        LatestBefore(found[other], endTime) < LatestBefore(found[url], endTime)
  }

  lemma PageMisses(source: HistorySource, found: Found, startOfDay: Time -> Time, query: PageQuery,
                   url: string, other: string, t: Time)
    requires query.maxResults == 1 && Serves(source, found, query.text)
    requires url in found && other in found && t in found[url].visits && t in found[other].visits
    requires Prefers(source, found, other, url, query.text)
    ensures Misses(LoadPage(source, startOfDay, query).value.entries, url, t)
  {
    LoadPageLists(source, found, startOfDay, query);
    var items, page := source.search(query), LoadPage(source, startOfDay, query).value;
    forall e | e in page.entries && e.url == url ensures t !in e.visits {
      assert IsRow(e, Only(found, items), startOfDay, Window(page.next, query.endTime));
      OnHolds(found[url], startOfDay, e.day, Window(page.next, query.endTime));
      if t in e.visits {
        assert query == PageQuery(query.endTime, 1, query.text);
        assert Answers(items, found, query);
        assert page.next.value <= t <= LatestBefore(found[other], query.endTime);
        assert items[0].url == url;
        RowTime(e, Only(found, items), startOfDay, Window(page.next, query.endTime));
        SoleCutoff(source, found, startOfDay, query);
        assert false;
      }
    }
  }

  /** A full page of one result is cut at that result's latest visit. */
  lemma SoleCutoff(source: HistorySource, found: Found, startOfDay: Time -> Time, query: PageQuery)
    requires query.maxResults == 1 && Serves(source, found, query.text) && |source.search(query)| == 1
    ensures var r := LoadPage(source, startOfDay, query);
            r.Success? && r.value.next == Some(LatestBefore(found[source.search(query)[0].url], query.endTime))
  {
    var items := source.search(query);
    assert Answers(items, found, query);
    LatestIsLatest(source, items[0], found[items[0].url], query.endTime);
  }

  lemma {:induction false} LoadMoreMisses(source: HistorySource, found: Found, startOfDay: Time -> Time,
                                          loaded: seq<Entry>, query: PageQuery, url: string, other: string, t: Time)
    requires query.maxResults == 1 && Serves(source, found, query.text)
    requires url in found && other in found && t in found[url].visits && t in found[other].visits
    requires Prefers(source, found, other, url, query.text) && Misses(loaded, url, t)
    ensures Misses(LoadMore(source, found, startOfDay, loaded, query), url, t)
    decreases TimesBefore(found, query.endTime)
  {
    PageMisses(source, found, startOfDay, query, url, other, t);
    LoadPageLists(source, found, startOfDay, query);
    var page := LoadPage(source, startOfDay, query).value;
    AppendMisses(loaded, page.entries, url, t);
    if page.next.Some? {
      assert page.next.value in TimesBefore(found, query.endTime);
      assert page.next.value !in TimesBefore(found, page.next.value);
      LoadMoreMisses(source, found, startOfDay, AppendEntries(loaded, page.entries),
                     query.(endTime := page.next.value), url, other, t);
    }
  }

  lemma PagesOf(found: Found) returns (pages: seq<FakePage>)
    ensures FakeHistory.Holds(found, pages)
    decreases |found|
  {
    if found == map[] {
      pages := [];
    } else {
      var url :| url in found;
      var others := found - {url};
      assert others.Keys == found.Keys - {url};
      assert |others| == |found| - 1;
      var rest := PagesOf(others);
      pages := PagesWith(found, url, rest);
    }
  }

  lemma PagesWith(found: Found, url: string, rest: seq<FakePage>) returns (pages: seq<FakePage>)
    requires url in found && FakeHistory.Holds(found - {url}, rest)
    ensures FakeHistory.Holds(found, pages) && pages != [] && pages[0].url == url
  {
    var record := found[url];
    pages := [FakePage(record.favicon, record.title, url, record.visits)] + rest;
    assert forall i :: 0 < i < |pages| ==> pages[i] == rest[i - 1];
    forall u | u in found ensures exists i :: 0 <= i < |pages| && pages[i].url == u {
      if u == url {
        assert pages[0].url == u;
      } else {
        assert u in found - {url};
        var i :| 0 <= i < |rest| && rest[i].url == u;
        assert pages[i + 1].url == u;
      }
    }
  }

  /** A source over `found` that puts `other` first among pages that tie. */
  lemma SourcePreferring(found: Found, other: string, url: string, text: string) returns (source: HistorySource)
    requires other in found && url in found && other != url
    ensures Serves(source, found, text) && Prefers(source, found, other, url, text)
  {
    var rest := PagesOf(found - {other});
    var pages := PagesWith(found, other, rest);
    source := HistorySource((query: PageQuery) => Ranked(pages, query), (u: string) => VisitsOf(pages, u));
    forall query: PageQuery | query.text == text ensures Answers(source.search(query), found, query) {
      RankedAnswers(pages, found, query);
    }
    forall u | u in found ensures source.getVisits(u) == found[u].visits {
      var i :| 0 <= i < |pages| && pages[i].url == u;
      VisitsOfPage(pages, i);
    }
    forall endTime | && Listed(source.search(PageQuery(endTime, 1, text)), url)
                     && HasVisitBefore(found[url], endTime) && HasVisitBefore(found[other], endTime)
      ensures LatestBefore(found[other], endTime) < LatestBefore(found[url], endTime)
    {
      FirstWins(pages, found, url, PageQuery(endTime, 1, text));
    }
  }

  lemma HeadFirst(pages: seq<FakePage>, keep: FakePage -> bool, key: FakePage -> int)
    requires pages != [] && keep(pages[0])
    ensures var ranked := SortedBy(Filter(pages, keep), key);
            ranked != [] && (ranked[0] == pages[0] || key(ranked[0]) < key(pages[0]))
  {
    var rest := Filter(pages[1..], keep);
    assert Filter(pages, keep) == [pages[0]] + rest;
    assert ([pages[0]] + rest)[1..] == rest;
    assert SortedBy(Filter(pages, keep), key) == Inserted(pages[0], SortedBy(rest, key), key);
  }

  lemma FirstWins(pages: seq<FakePage>, found: Found, url: string, query: PageQuery)
    requires FakeHistory.Holds(found, pages) && pages != [] && url in found && url != pages[0].url
    requires query.maxResults == 1 && HasVisitBefore(found[pages[0].url], query.endTime)
    requires HasVisitBefore(found[url], query.endTime) && Listed(Ranked(pages, query), url)
    ensures LatestBefore(found[pages[0].url], query.endTime) < LatestBefore(found[url], query.endTime)
  {
    var key := NewestVisit(query.endTime);
    var ranked := SortedBy(Filter(pages, HasVisit(query.endTime)), key);
    RankedKeys(pages[0], found[pages[0].url], query.endTime);
    HeadFirst(pages, HasVisit(query.endTime), key);
    RankedPages(pages, found, query.endTime);
    assert ranked[0].url == url && ranked[0] in ranked;
  }

  /** Paging with pages of `size` results gives what one page of `unbounded` results gives. */
  ghost predicate Same(source: HistorySource, found: Found, startOfDay: Time -> Time, text: string, endTime: Time,
                       size: nat, unbounded: nat)
    requires size >= 1 && unbounded >= 1 && Serves(source, found, text)
  {
    LoadPage(source, startOfDay, PageQuery(endTime, unbounded, text))
    == Success(Page(Paged(source, found, startOfDay, PageQuery(endTime, size, text)), None))
  }

  /**
   * Paging loses nothing, whatever the source and page size, exactly when no
   * visible page shares a visit time with another page.
   */
  lemma PagingIsWholeExactly(found: Found, startOfDay: Time -> Time, text: string, endTime: Time)
    ensures NoSharedTimes(found, endTime) <==>
            forall source, size: nat, unbounded: nat |
              size >= 1 && |found| < unbounded && Serves(source, found, text) ::
              Same(source, found, startOfDay, text, endTime, size, unbounded)
  {
    if NoSharedTimes(found, endTime) {
      forall source, size: nat, unbounded: nat | size >= 1 && |found| < unbounded && Serves(source, found, text)
        ensures Same(source, found, startOfDay, text, endTime, size, unbounded)
      {
        PagingIsWhole(source, found, startOfDay, PageQuery(endTime, size, text), unbounded);
      }
    } else {
      var url, other, t :| url in found && other in found && url != other && !Hidden(url)
        && t in found[url].visits && t in found[other].visits && t < endTime;
      TieIsLost(found, startOfDay, text, endTime, url, other, t);
    }
  }

  /** For every tie, some source that keeps its promises loses the visit when paged by one result. */
  lemma TieIsLost(found: Found, startOfDay: Time -> Time, text: string, endTime: Time, url: string, other: string,
                  t: Time)
    requires url in found && other in found && other != url && !Hidden(url)
    requires t in found[url].visits && t in found[other].visits && t < endTime
    ensures exists source ::
              Serves(source, found, text) && !Same(source, found, startOfDay, text, endTime, 1, |found| + 1)
  {
    var source := SourcePreferring(found, other, url, text);
    LosesTied(source, found, startOfDay, text, endTime, url, other, t);
  }

  /** Pages of one result never show a visit tied with a page the source puts first. */
  lemma LosesTied(source: HistorySource, found: Found, startOfDay: Time -> Time, text: string, endTime: Time,
                  url: string, other: string, t: Time)
    requires Serves(source, found, text) && url in found && other in found && !Hidden(url)
    requires t in found[url].visits && t in found[other].visits && t < endTime
    requires Prefers(source, found, other, url, text)
    ensures !Same(source, found, startOfDay, text, endTime, 1, |found| + 1)
  {
    var one, whole := PageQuery(endTime, 1, text), PageQuery(endTime, |found| + 1, text);
    LoadMoreMisses(source, found, startOfDay, [], one, url, other, t);
    UnboundedIsWhole(source, found, startOfDay, whole);
    var entries := LoadPage(source, startOfDay, whole).value.entries;
    assert HasRow(entries, url, startOfDay(t));
    var e :| e in entries && e.url == url && e.day == startOfDay(t);
    OnHolds(found[url], startOfDay, e.day, Window(None, endTime));
    assert t in e.visits;
  }

  /** A clock whose days come in order. */
  ghost predicate Monotone(startOfDay: Time -> Time) {
    forall s, t :: s <= t ==> startOfDay(s) <= startOfDay(t)
  }

  /** The list keeps its order under its day headers, whose days descend, each once. */
  lemma ShownUnderDays(rows: seq<Entry>, found: Found, startOfDay: Time -> Time, w: Window)
    requires Monotone(startOfDay) && Shows(rows, found, startOfDay, w)
    ensures Flattened(GroupByDay(rows)) == rows
    ensures forall i, j :: 0 <= i < j < |GroupByDay(rows)| ==> GroupByDay(rows)[j].day < GroupByDay(rows)[i].day
  {
    forall i, j | 0 <= i < j < |rows| ensures rows[j].day <= rows[i].day {
      assert rows[i] in rows && rows[j] in rows;
      RowTime(rows[i], found, startOfDay, w);
      RowTime(rows[j], found, startOfDay, w);
    }
    GroupsInOrder(rows);
    HeadersDescend(rows);
  }
}
