/** What a list of rows should hold of a window of time, said without loading; and that loading a page gives it. */
module Listing {
  import opened Basics
  import opened HistoryTypes
  import opened Entries
  import opened HistoryPage

  /** The visits in window `w` that fall on `day`, in ascending order. */
  ghost function On(record: Record, startOfDay: Time -> Time, day: Time, w: Window): seq<Time> {
    Filter(SortedBy(record.visits, Earliest()), InWindowOnDay(startOfDay, day, w))
  }

  ghost predicate IsRow(e: Entry, found: Found, startOfDay: Time -> Time, w: Window) {
    && e.url in found && !Hidden(e.url)
    && e.favicon == found[e.url].favicon && e.title == found[e.url].title
    && e.visits == On(found[e.url], startOfDay, e.day, w)
    && e.visits != [] && e.time == e.visits[|e.visits| - 1]
  }

  ghost predicate HasRow(rows: seq<Entry>, url: string, day: Time) {
    exists e :: e in rows && e.url == url && e.day == day
  }

  ghost predicate Covers(rows: seq<Entry>, found: Found, startOfDay: Time -> Time, w: Window) {
    forall url, t :: url in found && !Hidden(url) && t in found[url].visits && w.Holds(t) ==>
      HasRow(rows, url, startOfDay(t))
  }

  /** `rows` are exactly the rows of `w`, each once, in any order. */
  ghost predicate Lists(rows: seq<Entry>, found: Found, startOfDay: Time -> Time, w: Window) {
    && (forall e :: e in rows ==> IsRow(e, found, startOfDay, w))
    && Covers(rows, found, startOfDay, w)
    && DistinctIds(rows)
  }

  ghost predicate NewestFirst(rows: seq<Entry>) {
    forall i, j :: 0 <= i < j < |rows| ==> rows[j].time < rows[i].time
  }

  lemma OnHolds(record: Record, startOfDay: Time -> Time, day: Time, w: Window)
    ensures Ascending(On(record, startOfDay, day, w), Earliest())
    ensures forall t :: t in On(record, startOfDay, day, w) <==>
              t in record.visits && w.Holds(t) && startOfDay(t) == day
  {
    MultisetIn(SortedBy(record.visits, Earliest()), record.visits);
    SortedByAscending(record.visits, Earliest());
    FilterAscending(SortedBy(record.visits, Earliest()), Earliest(), InWindowOnDay(startOfDay, day, w));
  }

  /** A row's time is one of its page's visits, on its day and in the window. */
  lemma RowTime(e: Entry, found: Found, startOfDay: Time -> Time, w: Window)
    requires IsRow(e, found, startOfDay, w)
    ensures e.time in found[e.url].visits && w.Holds(e.time) && startOfDay(e.time) == e.day
  {
    OnHolds(found[e.url], startOfDay, e.day, w);
    assert e.time in e.visits;
  }

  // Loading one page.

  lemma KeptOnDay(record: Record, startOfDay: Time -> Time, cutoff: Option<Time>, endTime: Time, day: Time)
    ensures var kept := Filter(SortedBy(Filter(record.visits, Before(endTime)), Earliest()), AtLeast(cutoff));
            Filter(kept, OnDay(startOfDay, day)) == On(record, startOfDay, day, Window(cutoff, endTime))
  {
    var w := Window(cutoff, endTime);
    var sorted := SortedBy(record.visits, Earliest());
    FilterSorted(record.visits, Earliest(), Before(endTime));
    FilterTwice(sorted, Before(endTime), AtLeast(cutoff), InWindow(w));
    FilterTwice(sorted, InWindow(w), OnDay(startOfDay, day), InWindowOnDay(startOfDay, day, w));
  }

  lemma LastIsMax(times: seq<Time>)
    requires times != [] && Ascending(times, Earliest())
    ensures LatestOf(times) == times[|times| - 1]
  {
    var i :| 0 <= i < |times| && times[i] == LatestOf(times);
    assert Earliest()(times[i]) <= Earliest()(times[|times| - 1]);
    assert times[|times| - 1] in times;
  }

  lemma RowIsRow(item: HistoryItem, kept: seq<Time>, onDay: seq<Time>, startOfDay: Time -> Time, day: Time)
    requires onDay != [] && onDay == Filter(kept, OnDay(startOfDay, day)) && Ascending(onDay, Earliest())
    ensures Row(startOfDay, item, kept, day)
         == Entry(day, item.favicon, onDay[|onDay| - 1], item.title, item.url, onDay)
  {
    LastIsMax(onDay);
  }

  /** The rows of one search result. */
  lemma ByDayLists(v: Visits, record: Record, startOfDay: Time -> Time, cutoff: Option<Time>, endTime: Time)
    requires !Hidden(v.item.url) && v.item == ItemOf(v.item.url, record)
    requires v.visits == SortedBy(Filter(record.visits, Before(endTime)), Earliest())
    ensures Lists(ByDay(startOfDay, v.item, Filter(v.visits, AtLeast(cutoff))), map[v.item.url := record],
                  startOfDay, Window(cutoff, endTime))
  {
    hide Filter, FirstSeen, SortedBy, On;
    var w, kept := Window(cutoff, endTime), Filter(v.visits, AtLeast(cutoff));
    var days := FirstSeen(kept, startOfDay);
    var rows := ByDay(startOfDay, v.item, kept);
    FirstSeenDistinct(kept, startOfDay);
    forall i | 0 <= i < |days|
      ensures IsRow(rows[i], map[v.item.url := record], startOfDay, w) && rows[i].Id() == (days[i], v.item.url)
    {
      KeptOnDay(record, startOfDay, cutoff, endTime, days[i]);
      ByDayRow(v.item, kept, record, startOfDay, w, i);
    }
    forall t | t in record.visits && w.Holds(t) ensures HasRow(rows, v.item.url, startOfDay(t)) {
      ByDayHasRow(v, record, startOfDay, cutoff, endTime, t);
    }
  }

  lemma ByDayRow(item: HistoryItem, kept: seq<Time>, record: Record, startOfDay: Time -> Time, w: Window, i: nat)
    requires !Hidden(item.url) && item == ItemOf(item.url, record)
    requires i < |FirstSeen(kept, startOfDay)|
    requires var day := FirstSeen(kept, startOfDay)[i];
             Filter(kept, OnDay(startOfDay, day)) == On(record, startOfDay, day, w)
    ensures var row := ByDay(startOfDay, item, kept)[i];
            && IsRow(row, map[item.url := record], startOfDay, w)
            && row.Id() == (FirstSeen(kept, startOfDay)[i], item.url)
  {
    hide Filter, FirstSeen, SortedBy, On, Hidden, Row, Ascending;
    var day := FirstSeen(kept, startOfDay)[i];
    OnHolds(record, startOfDay, day, w);
    DayHasVisits(startOfDay, kept, day);
    RowIsRow(item, kept, On(record, startOfDay, day, w), startOfDay, day);
  }

  lemma ByDayHasRow(v: Visits, record: Record, startOfDay: Time -> Time, cutoff: Option<Time>, endTime: Time, t: Time)
    requires v.visits == SortedBy(Filter(record.visits, Before(endTime)), Earliest())
    requires t in record.visits && Window(cutoff, endTime).Holds(t)
    ensures HasRow(ByDay(startOfDay, v.item, Filter(v.visits, AtLeast(cutoff))), v.item.url, startOfDay(t))
  {
    var kept := Filter(v.visits, AtLeast(cutoff));
    var rows := ByDay(startOfDay, v.item, kept);
    MultisetIn(v.visits, Filter(record.visits, Before(endTime)));
    assert t in kept;
    var j :| 0 <= j < |kept| && kept[j] == t;
    var i :| 0 <= i < |rows| && FirstSeen(kept, startOfDay)[i] == startOfDay(t);
    assert rows[i] in rows;
  }

  ghost function Only(found: Found, items: seq<HistoryItem>): Found {
    map url | url in found && Listed(items, url) :: found[url]
  }

  ghost predicate ItemsOf(items: seq<HistoryItem>, found: Found) {
    && (forall i :: 0 <= i < |items| ==>
         items[i].url in found && items[i] == ItemOf(items[i].url, found[items[i].url]))
    && (forall i, j :: 0 <= i < j < |items| ==> items[i].url != items[j].url)
  }

  /** Two lists of rows of different pages, one after the other. */
  lemma ListsTogether(first: seq<Entry>, rest: seq<Entry>, one: Found, others: Found, all: Found,
                      startOfDay: Time -> Time, w: Window)
    requires Lists(first, one, startOfDay, w) && Lists(rest, others, startOfDay, w)
    requires one.Keys !! others.Keys && all == one + others
    ensures Lists(first + rest, all, startOfDay, w)
  {
    var rows := first + rest;
    forall e | e in rows ensures IsRow(e, all, startOfDay, w) {
      if e in first {
        assert IsRow(e, one, startOfDay, w);
      } else {
        assert IsRow(e, others, startOfDay, w);
      }
    }
    forall url, t | url in all && !Hidden(url) && t in all[url].visits && w.Holds(t)
      ensures HasRow(rows, url, startOfDay(t))
    {
      if url in others {
        assert HasRow(rest, url, startOfDay(t));
      } else {
        assert HasRow(first, url, startOfDay(t));
      }
    }
    forall i, j | 0 <= i < j < |rows| ensures rows[i].Id() != rows[j].Id() {
      if i < |first| <= j {
        assert rows[i] in first && rows[j] in rest;
      }
    }
  }

  /** The rows of a list of search results, before they are sorted. */
  lemma {:induction false} RowsList(
    source: HistorySource, items: seq<HistoryItem>, found: Found, startOfDay: Time -> Time, cutoff: Option<Time>,
    endTime: Time)
    requires forall url :: url in found ==> source.getVisits(url) == found[url].visits
    requires ItemsOf(items, found)
    ensures Lists(Rows(startOfDay, Visited(source, items, endTime), cutoff), Only(found, items), startOfDay,
                  Window(cutoff, endTime))
  {
    if items != [] {
      var w := Window(cutoff, endTime);
      var visited := Visited(source, items, endTime);
      var v := visited[0];
      assert visited[1..] == Visited(source, items[1..], endTime);
      RowsList(source, items[1..], found, startOfDay, cutoff, endTime);
      var one := map[v.item.url := found[v.item.url]];
      var first := if Hidden(v.item.url) then [] else ByDay(startOfDay, v.item, Filter(v.visits, AtLeast(cutoff)));
      if !Hidden(v.item.url) {
        ByDayLists(v, found[v.item.url], startOfDay, cutoff, endTime);
      }
      OnlyFirst(found, items);
      ListsTogether(first, Rows(startOfDay, visited[1..], cutoff), one, Only(found, items[1..]), Only(found, items),
                    startOfDay, w);
    }
  }

  lemma OnlyFirst(found: Found, items: seq<HistoryItem>)
    requires items != [] && ItemsOf(items, found)
    ensures var one := map[items[0].url := found[items[0].url]];
            one.Keys !! Only(found, items[1..]).Keys && Only(found, items) == one + Only(found, items[1..])
  {
    assert Listed(items, items[0].url);
    forall url | Listed(items[1..], url) ensures Listed(items, url) && url != items[0].url {
      var i :| 0 <= i < |items[1..]| && items[1..][i].url == url;
      assert items[i + 1].url == url;
    }
    forall url | Listed(items, url) && url != items[0].url ensures Listed(items[1..], url) {
      var i :| 0 <= i < |items| && items[i].url == url;
      assert items[1..][i - 1].url == url;
    }
  }

  lemma DistinctAfterSort(rows: seq<Entry>)
    requires DistinctIds(rows)
    ensures DistinctIds(SortedBy(rows, Newest()))
  {
    var sorted := SortedBy(rows, Newest());
    MultisetIn(sorted, rows);
    forall i, j | 0 <= i < j < |sorted| ensures sorted[i].Id() != sorted[j].Id() {
      OnceEach(rows, sorted[j]);
      if sorted[i] == sorted[j] {
        TwiceIn(sorted, i, j);
      }
      assert sorted[i] in sorted && sorted[j] in sorted;
      var a :| 0 <= a < |rows| && rows[a] == sorted[i];
      var b :| 0 <= b < |rows| && rows[b] == sorted[j];
    }
  }

  lemma TwiceIn(rows: seq<Entry>, i: nat, j: nat)
    requires i < j < |rows| && rows[i] == rows[j]
    ensures multiset(rows)[rows[j]] >= 2
  {
    assert rows == rows[..j] + [rows[j]] + rows[j + 1..];
    assert rows[..j][i] in multiset(rows[..j]);
  }

  lemma {:induction false} OnceEach(rows: seq<Entry>, row: Entry)
    requires DistinctIds(rows)
    ensures multiset(rows)[row] <= 1
  {
    if rows != [] {
      assert rows == [rows[0]] + rows[1..];
      OnceEach(rows[1..], row);
      if rows[0] == row {
        assert row !in rows[1..];
      }
    }
  }

  lemma SortedLists(rows: seq<Entry>, found: Found, startOfDay: Time -> Time, w: Window)
    requires Lists(rows, found, startOfDay, w)
    ensures Lists(SortedBy(rows, Newest()), found, startOfDay, w)
    ensures Ascending(SortedBy(rows, Newest()), Newest())
  {
    var sorted := SortedBy(rows, Newest());
    MultisetIn(sorted, rows);
    DistinctAfterSort(rows);
    SortedByAscending(rows, Newest());
    forall url, t | url in found && !Hidden(url) && t in found[url].visits && w.Holds(t)
      ensures HasRow(sorted, url, startOfDay(t))
    {
      assert HasRow(rows, url, startOfDay(t));
    }
  }

  /**
   * A page loaded from a source that keeps its promises lists its window's
   * visits to the pages the search returned. `next` is below `endTime`, is
   * some page's visit, and is the time no page left out has a later one than.
   */
  lemma LoadPageLists(source: HistorySource, found: Found, startOfDay: Time -> Time, query: PageQuery)
    requires query.maxResults >= 1 && Serves(source, found, query.text)
    ensures var items, r := source.search(query), LoadPage(source, startOfDay, query);
            && r.Success? && ItemsOf(items, found)
            && Lists(r.value.entries, Only(found, items), startOfDay, Window(r.value.next, query.endTime))
            && Ascending(r.value.entries, Newest())
            && (r.value.next.None? <==> |items| < query.maxResults)
            && (r.value.next.Some? ==>
                 && (exists i :: 0 <= i < |items| && r.value.next.value in found[items[i].url].visits)
                 && forall url :: url in found && HasVisitBefore(found[url], query.endTime) && !Listed(items, url) ==>
                      LatestBefore(found[url], query.endTime) <= r.value.next.value)
            && (r.value.next.None? ==>
                 forall url :: url in found && HasVisitBefore(found[url], query.endTime) ==> Listed(items, url))
  {
    hide SortedBy, Rows, Lists, Ascending;
    var items := source.search(query);
    assert Answers(items, found, query);
    var visited := Visited(source, items, query.endTime);
    forall i | 0 <= i < |items|
      ensures Latest(visited[i]) == Success(LatestBefore(found[items[i].url], query.endTime))
    {
      LatestIsLatest(source, items[i], found[items[i].url], query.endTime);
    }
    var next := if |items| < query.maxResults then None else Some(OldestLatest(visited).value);
    RowsList(source, items, found, startOfDay, next, query.endTime);
    SortedLists(Rows(startOfDay, visited, next), Only(found, items), startOfDay, Window(next, query.endTime));
    if next.Some? {
      var i :| 0 <= i < |visited| && Latest(visited[i]) == OldestLatest(visited);
      assert next.value in found[items[i].url].visits;
    }
  }

  lemma LatestIsLatest(source: HistorySource, item: HistoryItem, record: Record, endTime: Time)
    requires source.getVisits(item.url) == record.visits && HasVisitBefore(record, endTime)
    ensures Latest(VisitsBefore(source, item, endTime)) == Success(LatestBefore(record, endTime))
  {
    var kept := Filter(record.visits, Before(endTime));
    var sorted := SortedBy(kept, Earliest());
    MultisetIn(sorted, kept);
    SortedByAscending(kept, Earliest());
    var m := LatestBefore(record, endTime);
    assert m in kept;
    assert m in sorted;
    var i :| 0 <= i < |sorted| && sorted[i] == m;
    assert Earliest()(sorted[i]) <= Earliest()(sorted[|sorted| - 1]);
    assert sorted[|sorted| - 1] in sorted;
  }
}
