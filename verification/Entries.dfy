/** Merging one list of rows into another by id, and grouping rows by day. */
module Entries {
  import opened Basics
  import opened HistoryTypes

  /** The last row of `page` with `id`: what a map built from the rows holds. */
  function RowWithId(page: seq<Entry>, id: (Time, string)): (r: Option<Entry>)
    ensures r.Some? ==> r.value in page && r.value.Id() == id
    ensures r.None? ==> forall e :: e in page ==> e.Id() != id
  {
    if page == [] then None
    else if page[|page| - 1].Id() == id then Some(page[|page| - 1])
    else
      assert page == page[..|page| - 1] + [page[|page| - 1]];
      RowWithId(page[..|page| - 1], id)
  }

  function Extended(row: Entry, page: seq<Entry>): Entry {
    var more := RowWithId(page, row.Id());
    if more.None? then row else row.(visits := more.value.visits + row.visits)
  }

  function NotIn(loaded: seq<Entry>): Entry -> bool {
    (row: Entry) => RowWithId(loaded, row.Id()).None?
  }

  /**
   * Each row of `loaded`, with the visits of the row of `page` that has its id,
   * and then the rows of `page` whose ids `loaded` does not have.
   */
  function AppendEntries(loaded: seq<Entry>, page: seq<Entry>): seq<Entry> {
    seq(|loaded|, i requires 0 <= i < |loaded| => Extended(loaded[i], page)) + Filter(page, NotIn(loaded))
  }

  ghost predicate DistinctIds(rows: seq<Entry>) {
    forall i, j :: 0 <= i < j < |rows| ==> rows[i].Id() != rows[j].Id()
  }

  function Ids(rows: seq<Entry>): set<(Time, string)> {
    set row | row in rows :: row.Id()
  }

  lemma {:induction false} FilterKeepsDistinct(rows: seq<Entry>, keep: Entry -> bool)
    requires DistinctIds(rows)
    ensures DistinctIds(Filter(rows, keep))
  {
    if rows != [] {
      FilterKeepsDistinct(rows[1..], keep);
      if keep(rows[0]) {
        forall e | e in Filter(rows[1..], keep) ensures e.Id() != rows[0].Id() {
          var i :| 0 <= i < |rows[1..]| && rows[1..][i] == e;
          assert rows[i + 1] == e;
        }
      }
    }
  }

  lemma AddedRows(loaded: seq<Entry>, page: seq<Entry>)
    ensures var all := AppendEntries(loaded, page);
            && (forall i :: 0 <= i < |loaded| ==> all[i].Id() == loaded[i].Id())
            && (forall i :: |loaded| <= i < |all| ==> all[i] in page && all[i].Id() !in Ids(loaded))
  {
    var all := AppendEntries(loaded, page);
    var added := Filter(page, NotIn(loaded));
    forall i | |loaded| <= i < |all| ensures all[i] in page && all[i].Id() !in Ids(loaded) {
      assert all[i] == added[i - |loaded|];
      assert all[i] in added;
    }
  }

  /** Appending keeps ids apart. */
  lemma AppendKeepsDistinct(loaded: seq<Entry>, page: seq<Entry>)
    requires DistinctIds(loaded) && DistinctIds(page)
    ensures DistinctIds(AppendEntries(loaded, page))
  {
    var all := AppendEntries(loaded, page);
    var added := Filter(page, NotIn(loaded));
    AddedRows(loaded, page);
    FilterKeepsDistinct(page, NotIn(loaded));
    forall i, j | 0 <= i < j < |all| ensures all[i].Id() != all[j].Id() {
      if j < |loaded| {
      } else if i < |loaded| {
        assert loaded[i].Id() in Ids(loaded);
      } else {
        assert all[i] == added[i - |loaded|] && all[j] == added[j - |loaded|];
      }
    }
  }

  /** Appending lists a row's id when either list did. */
  lemma AppendIds(loaded: seq<Entry>, page: seq<Entry>)
    ensures Ids(AppendEntries(loaded, page)) == Ids(loaded) + Ids(page)
  {
    var all := AppendEntries(loaded, page);
    AddedRows(loaded, page);
    forall id | id in Ids(loaded) ensures id in Ids(all) {
      var i :| 0 <= i < |loaded| && loaded[i].Id() == id;
      assert all[i] in all;
    }
    forall id | id in Ids(page) - Ids(loaded) ensures id in Ids(all) {
      var row :| row in page && row.Id() == id;
      assert row in Filter(page, NotIn(loaded));
      assert row in all;
    }
    forall id | id in Ids(all) ensures id in Ids(loaded) + Ids(page) {
      var i :| 0 <= i < |all| && all[i].Id() == id;
      assert i < |loaded| ==> loaded[i] in loaded;
    }
  }

  /** The rows of `day`, which is the start of that day. */
  datatype Day = Day(day: Time, entries: seq<Entry>)

  function DayOf(): Entry -> Time { (e: Entry) => e.day }
  function IsOn(day: Time): Entry -> bool { (e: Entry) => e.day == day }

  /** The days in the order in which `entries` first has them, each with its rows in their order. */
  function GroupByDay(entries: seq<Entry>): seq<Day> {
    Under(entries, FirstSeen(entries, DayOf()))
  }

  function Under(entries: seq<Entry>, days: seq<Time>): seq<Day> {
    if days == [] then [] else [Day(days[0], Filter(entries, IsOn(days[0])))] + Under(entries, days[1..])
  }

  /** All rows in `days`, one day after another. */
  function Flattened(days: seq<Day>): seq<Entry> {
    if days == [] then [] else days[0].entries + Flattened(days[1..])
  }

  ghost predicate DaysDescend(rows: seq<Entry>) {
    forall i, j :: 0 <= i < j < |rows| ==> rows[j].day <= rows[i].day
  }

  /** The day of a first row leads the days, which go on as they were without it. */
  lemma DaysOfMore(rows: seq<Entry>)
    requires rows != [] && DaysDescend(rows)
    ensures var day, days := rows[0].day, FirstSeen(rows[1..], DayOf());
            FirstSeen(rows, DayOf()) == [day] + (if |rows| > 1 && rows[1].day == day then days[1..] else days)
    ensures var day, days := rows[0].day, FirstSeen(rows[1..], DayOf());
            if |rows| > 1 && rows[1].day == day then days != [] && days[0] == day && day !in days[1..]
            else day !in days && Filter(rows[1..], IsOn(day)) == []
  {
    var day, rest, days := rows[0].day, rows[1..], FirstSeen(rows[1..], DayOf());
    if rest != [] && rest[0].day == day {
      FirstSeenDistinct(rest, DayOf());
      FilterAll(days[1..], Other(day));
    } else {
      LaterDays(rows);
      FilterAll(days, Other(day));
    }
  }

  /** Where the second row is not on the day of the first, no later row is. */
  lemma LaterDays(rows: seq<Entry>)
    requires rows != [] && DaysDescend(rows) && (|rows| > 1 ==> rows[1].day != rows[0].day)
    ensures rows[0].day !in FirstSeen(rows[1..], DayOf()) && Filter(rows[1..], IsOn(rows[0].day)) == []
  {
    hide Filter, FirstSeen;
    var day, rest := rows[0].day, rows[1..];
    assert forall i :: 0 <= i < |rest| ==> rest[i].day == rows[i + 1].day <= rows[1].day < day;
    HeadIn(Filter(rest, IsOn(day)));
  }

  /** Rows whose days descend keep their order under the headers. */
  lemma {:induction false} GroupsInOrder(rows: seq<Entry>)
    requires DaysDescend(rows)
    ensures Flattened(GroupByDay(rows)) == rows
  {
    if rows != [] {
      hide Filter, Under, Flattened, FirstSeen;
      var day, rest, days := rows[0].day, rows[1..], FirstSeen(rows[1..], DayOf());
      GroupsInOrder(rest);
      DaysOfMore(rows);
      if rest != [] && rest[0].day == day {
        assert days == [day] + days[1..];
        UnderFirst(rest, day, days[1..]);
        FirstUnder(rows, days[1..]);
      } else {
        FirstUnder(rows, days);
      }
    }
  }

  /** A first row, under its day, and the rest as they were. */
  lemma FirstUnder(rows: seq<Entry>, later: seq<Time>)
    requires rows != [] && rows[0].day !in later
    requires Filter(rows[1..], IsOn(rows[0].day)) + Flattened(Under(rows[1..], later)) == rows[1..]
    ensures Flattened(Under(rows, [rows[0].day] + later)) == rows
  {
    hide Under, Flattened, Filter;
    var day, rest := rows[0].day, rows[1..];
    var onDay, after := Filter(rest, IsOn(day)), Flattened(Under(rest, later));
    UnderLater(rows, later);
    UnderFirst(rows, day, later);
    FilterFirst(rows, IsOn(day));
    assert [rows[0]] + onDay + after == [rows[0]] + (onDay + after);
  }

  lemma UnderFirst(rows: seq<Entry>, day: Time, days: seq<Time>)
    ensures Flattened(Under(rows, [day] + days)) == Filter(rows, IsOn(day)) + Flattened(Under(rows, days))
  {
    assert ([day] + days)[1..] == days;
    var group, later := Day(day, Filter(rows, IsOn(day))), Under(rows, days);
    assert Under(rows, [day] + days) == [group] + later;
    assert ([group] + later)[1..] == later;
  }

  /** The headers of rows whose days descend descend too, each day once. */
  lemma HeadersDescend(rows: seq<Entry>)
    requires DaysDescend(rows)
    ensures forall i, j :: 0 <= i < j < |GroupByDay(rows)| ==> GroupByDay(rows)[j].day < GroupByDay(rows)[i].day
  {
    UnderDays(rows, FirstSeen(rows, DayOf()));
    FirstSeenDescend(rows);
  }

  lemma {:induction false} FirstSeenDescend(rows: seq<Entry>)
    requires DaysDescend(rows)
    ensures var days := FirstSeen(rows, DayOf());
            && (forall i, j :: 0 <= i < j < |days| ==> days[j] < days[i])
            && (rows != [] ==> days != [] && days[0] == rows[0].day)
  {
    if rows != [] {
      var day, rest, days := rows[0].day, rows[1..], FirstSeen(rows[1..], DayOf());
      FirstSeenDescend(rest);
      DaysOfMore(rows);
      if rest != [] {
        assert rest[0].day <= day;
      }
    }
  }

  lemma {:induction false} UnderDays(rows: seq<Entry>, days: seq<Time>)
    ensures |Under(rows, days)| == |days|
    ensures forall i :: 0 <= i < |days| ==> Under(rows, days)[i].day == days[i]
  {
    if days != [] {
      UnderDays(rows, days[1..]);
    }
  }

  lemma {:induction false} UnderLater(rows: seq<Entry>, days: seq<Time>)
    requires rows != [] && rows[0].day !in days
    ensures Under(rows, days) == Under(rows[1..], days)
  {
    if days != [] {
      UnderLater(rows, days[1..]);
    }
  }
}
