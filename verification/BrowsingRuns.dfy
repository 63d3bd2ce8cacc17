/**
 * Whole runs of the history list over a history that changes under it. Each
 * accepted load is answered from the history as it is then; between loads, rows
 * are deleted from it and visits are added to it.
 */
module BrowsingRuns {
  import opened Basics
  import opened HistoryTypes
  import opened Entries
  import opened HistoryPage
  import opened Listing
  import opened Paging
  import opened UseHistory

  // What is left of a history when rows are deleted.

  /** What `found` holds of `url` on `day`, as a row before `endTime` would show it. */
  ghost function Held(found: Found, startOfDay: Time -> Time, url: string, day: Time, endTime: Time): Option<Record> {
    if url in found && On(found[url], startOfDay, day, Window(None, endTime)) != [] then
      Some(found[url].(visits := On(found[url], startOfDay, day, Window(None, endTime))))
    else None
  }

  /** Before `endTime`, the two histories differ in the rows `gone` at most. */
  ghost predicate AgreeBut(gone: set<Id>, a: Found, b: Found, startOfDay: Time -> Time, endTime: Time) {
    forall url, day :: (day, url) !in gone ==>
      Held(a, startOfDay, url, day, endTime) == Held(b, startOfDay, url, day, endTime)
  }

  /** Before `endTime`, `rest` is what `found` is without the rows `gone`. */
  ghost predicate IsLeft(gone: set<Id>, found: Found, rest: Found, startOfDay: Time -> Time, endTime: Time) {
    && AgreeBut(gone, found, rest, startOfDay, endTime)
    && forall url, day :: (day, url) in gone ==> Held(rest, startOfDay, url, day, endTime).None?
  }

  function Stays(gone: set<Id>, startOfDay: Time -> Time, url: string): Time -> bool {
    t => (startOfDay(t), url) !in gone
  }

  /** `found` without the visits of the rows `gone`. */
  function Less(found: Found, gone: set<Id>, startOfDay: Time -> Time): Found {
    map url | url in found :: found[url].(visits := Filter(found[url].visits, Stays(gone, startOfDay, url)))
  }

  lemma LessIsLeft(found: Found, gone: set<Id>, startOfDay: Time -> Time, endTime: Time)
    ensures IsLeft(gone, found, Less(found, gone, startOfDay), startOfDay, endTime)
  {
    var w := Window(None, endTime);
    forall url, day | url in found
      ensures On(Less(found, gone, startOfDay)[url], startOfDay, day, w)
           == if (day, url) in gone then [] else On(found[url], startOfDay, day, w)
    {
      OnLess(found[url], Less(found, gone, startOfDay)[url], gone, startOfDay, url, day, w);
    }
  }

  lemma OnLess(record: Record, rest: Record, gone: set<Id>, startOfDay: Time -> Time, url: string, day: Time, w: Window)
    requires rest.visits == Filter(record.visits, Stays(gone, startOfDay, url))
    ensures On(rest, startOfDay, day, w) == if (day, url) in gone then [] else On(record, startOfDay, day, w)
  {
    var stays, onDay := Stays(gone, startOfDay, url), InWindowOnDay(startOfDay, day, w);
    var sorted := SortedBy(record.visits, Earliest());
    FilterSorted(record.visits, Earliest(), stays);
    if (day, url) in gone {
      HeadIn(Filter(Filter(sorted, stays), onDay));
    } else {
      FilterTwice(sorted, stays, onDay, onDay);
    }
  }

  /** A window before `endTime` has the same visits when all before it are the same. */
  lemma HeldInWindow(a: Found, b: Found, startOfDay: Time -> Time, url: string, day: Time, w: Window, endTime: Time)
    requires w.until <= endTime && Held(a, startOfDay, url, day, endTime) == Held(b, startOfDay, url, day, endTime)
    requires url in a && On(a[url], startOfDay, day, w) != []
    ensures url in b && a[url].favicon == b[url].favicon && a[url].title == b[url].title
    ensures On(a[url], startOfDay, day, w) == On(b[url], startOfDay, day, w)
  {
    OnIn(a[url], startOfDay, day, w, endTime);
    HeadIn(On(a[url], startOfDay, day, w));
    OnIn(b[url], startOfDay, day, w, endTime);
  }

  lemma OnIn(record: Record, startOfDay: Time -> Time, day: Time, w: Window, endTime: Time)
    requires w.until <= endTime
    ensures On(record, startOfDay, day, w) == Filter(On(record, startOfDay, day, Window(None, endTime)), InWindow(w))
  {
    FilterTwice(SortedBy(record.visits, Earliest()), InWindowOnDay(startOfDay, day, Window(None, endTime)), InWindow(w),
                InWindowOnDay(startOfDay, day, w));
  }

  /** `rows` but those that are `gone`. */
  function Kept(rows: seq<Entry>, gone: set<Id>): seq<Entry> { Filter(rows, NotRemoved(gone)) }

  /** Where rows show a history, those that stay show what is left of it. */
  lemma KeptShows(rows: seq<Entry>, gone: set<Id>, found: Found, rest: Found, startOfDay: Time -> Time, w: Window,
                  endTime: Time)
    requires Shows(rows, found, startOfDay, w) && IsLeft(gone, found, rest, startOfDay, endTime) && w.until <= endTime
    ensures Shows(Kept(rows, gone), rest, startOfDay, w)
  {
    hide Held, On;
    var kept := Kept(rows, gone);
    FilterKeepsDistinct(rows, NotRemoved(gone));
    FilterOrder(rows, NotRemoved(gone));
    forall e | e in kept ensures IsRow(e, rest, startOfDay, w) {
      assert IsRow(e, found, startOfDay, w);
      HeldInWindow(found, rest, startOfDay, e.url, e.day, w, endTime);
    }
    forall url, t | url in rest && !Hidden(url) && t in rest[url].visits && w.Holds(t)
      ensures HasRow(kept, url, startOfDay(t))
    {
      VisitIsKept(rows, gone, found, rest, startOfDay, w, endTime, url, t);
    }
  }

  lemma VisitIsKept(rows: seq<Entry>, gone: set<Id>, found: Found, rest: Found, startOfDay: Time -> Time, w: Window,
                    endTime: Time, url: string, t: Time)
    requires Shows(rows, found, startOfDay, w) && IsLeft(gone, found, rest, startOfDay, endTime) && w.until <= endTime
    requires url in rest && !Hidden(url) && t in rest[url].visits && w.Holds(t)
    ensures HasRow(Kept(rows, gone), url, startOfDay(t))
  {
    hide On;
    var day := startOfDay(t);
    OnHolds(rest[url], startOfDay, day, w);
    OnHolds(rest[url], startOfDay, day, Window(None, endTime));
    assert t in On(rest[url], startOfDay, day, w);
    HeldInWindow(rest, found, startOfDay, url, day, w, endTime);
    OnHolds(found[url], startOfDay, day, w);
    assert HasRow(rows, url, day);
    var e :| e in rows && e.url == url && e.day == day;
    assert e in Kept(rows, gone);
  }

  // Merging and leaving rows out commute.

  lemma {:induction false} RowStays(page: seq<Entry>, gone: set<Id>, id: Id)
    requires id !in gone
    ensures RowWithId(Kept(page, gone), id) == RowWithId(page, id)
  {
    if page != [] {
      var last := |page| - 1;
      assert page == page[..last] + [page[last]];
      FilterAppend(page[..last], [page[last]], NotRemoved(gone));
      RowStays(page[..last], gone, id);
      var before := Kept(page[..last], gone);
      assert (before + [page[last]])[..|before|] == before;
      assert before + [] == before;
    }
  }

  function AllExtended(loaded: seq<Entry>, page: seq<Entry>): seq<Entry> {
    seq(|loaded|, i requires 0 <= i < |loaded| => Extended(loaded[i], page))
  }

  lemma {:induction false} ExtendedStay(loaded: seq<Entry>, page: seq<Entry>, gone: set<Id>)
    ensures Kept(AllExtended(loaded, page), gone) == AllExtended(Kept(loaded, gone), Kept(page, gone))
  {
    if loaded != [] {
      ExtendedStay(loaded[1..], page, gone);
      assert AllExtended(loaded, page)[1..] == AllExtended(loaded[1..], page);
      if loaded[0].Id() !in gone {
        RowStays(page, gone, loaded[0].Id());
      }
    }
  }

  lemma MergedStay(loaded: seq<Entry>, page: seq<Entry>, gone: set<Id>)
    ensures Kept(AppendEntries(loaded, page), gone) == AppendEntries(Kept(loaded, gone), Kept(page, gone))
  {
    var keep := NotRemoved(gone);
    ExtendedStay(loaded, page, gone);
    FilterAppend(AllExtended(loaded, page), Filter(page, NotIn(loaded)), keep);
    var both := (row: Entry) => keep(row) && NotIn(loaded)(row);
    forall row | row in page && keep(row) ensures NotIn(Kept(loaded, gone))(row) == NotIn(loaded)(row) {
      RowStays(loaded, gone, row.Id());
    }
    FilterTwice(page, NotIn(loaded), keep, both);
    FilterTwice(page, keep, NotIn(Kept(loaded, gone)), both);
  }

  // Runs.

  /**
   * What the list is to show: the history of the load it shows, from the time
   * that load asked for, without the rows deleted since. Before a load is
   * answered, it is to show nothing.
   */
  datatype Shown = Shown(asked: Time, loaded: bool, found: Found, gone: set<Id>)

  /** The history an answer is read from, and rows whose deletion has begun by then. */
  datatype Moment = Moment(source: HistorySource, found: Found, deleted: set<Id>)

  /** `event` brings a page that counts. */
  predicate IsAccepted(s: System, event: Event) {
    event.Answered? && event.id in s.pending && event.id == s.generation
  }

  function After(s: System, event: Event, h: Shown, m: Moment): Shown {
    if IsAccepted(s, event) && !s.pending[event.id].LoadMore? then
      Shown(s.pending[event.id].endTime, true, m.found, m.deleted)
    else
      match event
      case Started(now) => h.(asked := now, loaded := false)
      case Retried(now) => if s.state.failure == Some(LoadFailed) then h.(asked := now, loaded := false)
                           else h.(gone := h.gone + m.deleted)
      case _ => h.(gone := h.gone + m.deleted)
  }

  function RunAfter(s: System, events: seq<Event>, h: Shown, moments: seq<Moment>): Shown
    requires |events| == |moments|
    decreases |events|
  {
    if events == [] then h
    else RunAfter(Step(s, events[0]), events[1..], After(s, events[0], h, moments[0]), moments[1..])
  }

  /**
   * Pages that count are read from a history in which no visible page shares a
   * time with another, and further pages from what is left of the history that
   * is shown, with any later visits. Rows are said to be removed only once their
   * deletion has begun, and so are rows on the list when they are said to have
   * left.
   */
  ghost predicate Browsing(s: System, event: Event, h: Shown, m: Moment, startOfDay: Time -> Time, size: nat,
                           text: string)
    requires size >= 1
  {
    var gone := After(s, event, h, m).gone;
    && (IsAccepted(s, event) ==>
         && Serves(m.source, m.found, text) && (forall endTime :: NoSharedTimes(m.found, endTime))
         && Success(event.page) == Fetched(m.source, startOfDay, size, text, s.pending[event.id])
         && (s.pending[event.id].LoadMore? ==> AgreeBut(gone, h.found, m.found, startOfDay, h.asked)))
    && (event.RowsRemoved? ==> event.ids <= gone)
    && (event.Settled? ==> event.row in gone || event.row !in Ids(s.state.entries))
  }

  ghost predicate BrowsingRun(s: System, events: seq<Event>, h: Shown, moments: seq<Moment>, startOfDay: Time -> Time,
                              size: nat, text: string)
    requires size >= 1 && |events| == |moments|
    decreases |events|
  {
    events == [] ||
    (Browsing(s, events[0], h, moments[0], startOfDay, size, text)
     && BrowsingRun(Step(s, events[0]), events[1..], After(s, events[0], h, moments[0]), moments[1..],
                    startOfDay, size, text))
  }

  /** The list, but for rows being deleted, shows what is left of the history, from its `next` on. */
  ghost predicate ShowsLeft(s: System, h: Shown, startOfDay: Time -> Time) {
    Shows(Kept(s.state.entries, h.gone), Less(h.found, h.gone, startOfDay), startOfDay, Window(s.state.next, h.asked))
  }

  ghost predicate Faithful(s: System, h: Shown, startOfDay: Time -> Time) {
    && (h.loaded ==>
         && ShowsLeft(s, h, startOfDay)
         && (s.state.next.Some? ==> s.state.next.value < h.asked) && s.state.removed <= h.gone)
    && (!h.loaded ==>
         && s.state.entries == [] && s.state.next.None?
         && (s.state.loading || s.state.failure.Some?))
    && (s.generation in s.pending && s.pending[s.generation].LoadMore? ==>
         s.state.next == Some(s.pending[s.generation].endTime))
    && (forall id :: id in s.pending ==> id <= s.generation)
  }

  lemma NothingGone(rows: seq<Entry>)
    ensures Kept(rows, {}) == rows
  {
    FilterAll(rows, NotRemoved({}));
  }

  /** A page shows what is left of the history it was read from, also of one that had more. */
  lemma PageShowsLeft(rows: seq<Entry>, gone: set<Id>, found: Found, read: Found, startOfDay: Time -> Time, w: Window,
                      asked: Time)
    requires Shows(rows, read, startOfDay, w) && AgreeBut(gone, found, read, startOfDay, asked) && w.until <= asked
    ensures Shows(Kept(rows, gone), Less(found, gone, startOfDay), startOfDay, w)
  {
    hide Shows, Held, Less;
    LessIsLeft(found, gone, startOfDay, asked);
    KeptShows(rows, gone, read, Less(found, gone, startOfDay), startOfDay, w, asked);
  }

  /**
   * Whatever the list was and whatever was removed, once a load or a reload is
   * accepted it shows the history that was read, up to the time it asked for.
   */
  lemma ReplacedShows(s: System, id: nat, page: Page, source: HistorySource, found: Found, startOfDay: Time -> Time,
                      size: nat, text: string)
    requires size >= 1 && Serves(source, found, text) && (forall endTime :: NoSharedTimes(found, endTime))
    requires id in s.pending && id == s.generation && !s.pending[id].LoadMore?
    requires Success(page) == Fetched(source, startOfDay, size, text, s.pending[id])
    ensures var after, endTime := Step(s, Answered(id, page)).state, s.pending[id].endTime;
            && Shows(after.entries, found, startOfDay, Window(after.next, endTime))
            && (after.next.Some? ==> after.next.value < endTime)
            && after.removed == {} && after.failure.None? && !after.loading
  {
    hide Shows;
    var query := PageQuery(s.pending[id].endTime, size, text);
    match s.pending[id]
    case Load(_) => LoadPageShows(source, found, startOfDay, query);
    case Reload(oldest, _) => LoadSinceShows(source, found, startOfDay, oldest, query);
  }

  lemma MoreGone(rows: seq<Entry>, gone: set<Id>, more: set<Id>, found: Found, startOfDay: Time -> Time, w: Window)
    requires gone <= more && Shows(Kept(rows, gone), Less(found, gone, startOfDay), startOfDay, w)
    ensures Shows(Kept(rows, more), Less(found, more, startOfDay), startOfDay, w)
  {
    hide Shows, Held, Less;
    var before, after := Less(found, gone, startOfDay), Less(found, more, startOfDay);
    LessIsLeft(found, gone, startOfDay, w.until);
    LessIsLeft(found, more, startOfDay, w.until);
    forall url, day | (day, url) !in more
      ensures Held(before, startOfDay, url, day, w.until) == Held(after, startOfDay, url, day, w.until)
    {
    }
    KeptShows(Kept(rows, gone), more, before, after, startOfDay, w, w.until);
    FilterTwice(rows, NotRemoved(gone), NotRemoved(more), NotRemoved(more));
  }

  lemma ReplacedFaithful(s: System, event: Event, h: Shown, m: Moment, startOfDay: Time -> Time, size: nat,
                         text: string)
    requires size >= 1 && Faithful(s, h, startOfDay) && Browsing(s, event, h, m, startOfDay, size, text)
    requires IsAccepted(s, event) && !s.pending[event.id].LoadMore?
    ensures Faithful(Step(s, event), After(s, event, h, m), startOfDay)
  {
    hide Shows, Held, Less, Serves;
    var endTime, after := s.pending[event.id].endTime, Step(s, event).state;
    ReplacedShows(s, event.id, event.page, m.source, m.found, startOfDay, size, text);
    PageShowsLeft(after.entries, m.deleted, m.found, m.found, startOfDay, Window(after.next, endTime), endTime);
  }

  lemma ExtendedFaithful(s: System, event: Event, h: Shown, m: Moment, startOfDay: Time -> Time, size: nat,
                         text: string)
    requires size >= 1 && Faithful(s, h, startOfDay) && Browsing(s, event, h, m, startOfDay, size, text)
    requires IsAccepted(s, event) && s.pending[event.id].LoadMore?
    ensures Faithful(Step(s, event), After(s, event, h, m), startOfDay)
  {
    hide Shows, Held, Less, Serves, AppendEntries;
    var gone, rows, page, endTime := h.gone + m.deleted, s.state.entries, event.page, s.pending[event.id].endTime;
    var added := Filter(page.entries, NotRemoved(s.state.removed));
    MoreGone(rows, h.gone, gone, h.found, startOfDay, Window(Some(endTime), h.asked));
    LoadPageShows(m.source, m.found, startOfDay, PageQuery(endTime, size, text));
    PageShowsLeft(page.entries, gone, h.found, m.found, startOfDay, Window(page.next, endTime), h.asked);
    AppendShows(Kept(rows, gone), Kept(page.entries, gone), Less(h.found, gone, startOfDay), startOfDay,
                page.next, endTime, h.asked);
    FilterTwice(page.entries, NotRemoved(s.state.removed), NotRemoved(gone), NotRemoved(gone));
    MergedStay(rows, added, gone);
  }

  lemma OthersFaithful(s: System, event: Event, h: Shown, m: Moment, startOfDay: Time -> Time, size: nat, text: string)
    requires size >= 1 && Faithful(s, h, startOfDay) && Browsing(s, event, h, m, startOfDay, size, text)
    requires !IsAccepted(s, event)
    ensures Faithful(Step(s, event), After(s, event, h, m), startOfDay)
  {
    hide Shows, Held, Less;
    var gone := h.gone + m.deleted;
    if h.loaded {
      MoreGone(s.state.entries, h.gone, gone, h.found, startOfDay, Window(s.state.next, h.asked));
      if event.Settled? && event.row in gone {
        FilterTwice(s.state.entries, Unsettled(event.row), NotRemoved(gone), NotRemoved(gone));
      } else if event.Settled? {
        FilterAll(s.state.entries, Unsettled(event.row));
      }
    }
  }

  /**
   * Whatever loads, reloads, removals, failures and late answers come, the list
   * shows what is left of the history of its last load, from its `next` up to
   * the time that load asked for; besides that it has only rows whose deletion
   * has begun.
   */
  lemma {:induction false} RunFaithful(s: System, events: seq<Event>, h: Shown, moments: seq<Moment>,
                                       startOfDay: Time -> Time, size: nat, text: string)
    requires size >= 1 && |events| == |moments|
    requires Faithful(s, h, startOfDay) && BrowsingRun(s, events, h, moments, startOfDay, size, text)
    ensures Faithful(Run(s, events), RunAfter(s, events, h, moments), startOfDay)
    decreases |events|
  {
    hide Faithful, Browsing;
    if events != [] {
      if !IsAccepted(s, events[0]) {
        OthersFaithful(s, events[0], h, moments[0], startOfDay, size, text);
      } else if s.pending[events[0].id].LoadMore? {
        ExtendedFaithful(s, events[0], h, moments[0], startOfDay, size, text);
      } else {
        ReplacedFaithful(s, events[0], h, moments[0], startOfDay, size, text);
      }
      RunFaithful(Step(s, events[0]), events[1..], After(s, events[0], h, moments[0]), moments[1..],
                  startOfDay, size, text);
    }
  }

  // A complete list.

  ghost predicate NothingBefore(found: Found, endTime: Time) {
    forall url :: url in found && !Hidden(url) ==> !HasVisitBefore(found[url], endTime)
  }

  /** The history is what a list that was loaded shows, and later visits. */
  ghost predicate IsCurrent(found: Found, h: Shown, startOfDay: Time -> Time) {
    h.loaded ==> IsLeft(h.gone, h.found, found, startOfDay, h.asked)
  }

  lemma ShowsNothing(found: Found, startOfDay: Time -> Time, endTime: Time)
    ensures Shows([], found, startOfDay, Window(None, endTime)) <==> NothingBefore(found, endTime)
  {
    forall url, t | url in found && t in found[url].visits && t < endTime ensures HasVisitBefore(found[url], endTime) {
    }
    if !NothingBefore(found, endTime) {
      var url :| url in found && !Hidden(url) && HasVisitBefore(found[url], endTime);
      var t :| t in found[url].visits && t < endTime;
      assert Window(None, endTime).Holds(t);
      assert !HasRow([], url, startOfDay(t));
    }
  }

  lemma WholeIsShown(rows: seq<Entry>, source: HistorySource, found: Found, startOfDay: Time -> Time, whole: PageQuery)
    requires Serves(source, found, whole.text) && NoSharedTimes(found, whole.endTime)
    requires Unbounded(found, whole.maxResults)
    ensures LoadPage(source, startOfDay, whole) == Success(Page(rows, None))
       <==> Shows(rows, found, startOfDay, Window(None, whole.endTime))
  {
    hide Shows, Lists, LoadPage, Serves, NoSharedTimes;
    var w := Window(None, whole.endTime);
    UnboundedIsWhole(source, found, startOfDay, whole);
    LoadPageShows(source, found, startOfDay, whole);
    if Shows(rows, found, startOfDay, w) {
      ShowsOnce(LoadPage(source, startOfDay, whole).value.entries, rows, found, startOfDay, w);
    }
  }

  /**
   * A complete list is the one unbounded page, at the time it was last asked
   * for, of what is left of the history, exactly when nothing has failed, or
   * it has a row, or there is nothing to show.
   */
  lemma CompleteIsWholeExactly(s: System, h: Shown, source: HistorySource, found: Found, startOfDay: Time -> Time,
                               text: string, unbounded: nat)
    requires Faithful(s, h, startOfDay) && Complete(s) && IsCurrent(found, h, startOfDay)
    requires Serves(source, found, text) && NoSharedTimes(found, h.asked) && Unbounded(found, unbounded)
    ensures LoadPage(source, startOfDay, PageQuery(h.asked, unbounded, text))
            == Success(Page(Kept(s.state.entries, h.gone), None))
       <==> s.state.failure.None? || Kept(s.state.entries, h.gone) != [] || NothingBefore(found, h.asked)
  {
    hide Shows, Held, Less, LoadPage, Serves, NoSharedTimes, NothingBefore;
    var rows := Kept(s.state.entries, h.gone);
    WholeIsShown(rows, source, found, startOfDay, PageQuery(h.asked, unbounded, text));
    ShowsNothing(found, startOfDay, h.asked);
    if h.loaded {
      var left := Less(h.found, h.gone, startOfDay);
      LessIsLeft(h.found, h.gone, startOfDay, h.asked);
      forall url, day
        ensures Held(left, startOfDay, url, day, h.asked) == Held(found, startOfDay, url, day, h.asked)
      {
      }
      KeptShows(rows, {}, left, found, startOfDay, Window(None, h.asked), h.asked);
      NothingGone(rows);
    }
  }

  /** From the load that a list starts with. */
  lemma CompleteIsWhole(now: Time, events: seq<Event>, moments: seq<Moment>, source: HistorySource, found: Found,
                        startOfDay: Time -> Time, size: nat, text: string, unbounded: nat)
    requires size >= 1 && |events| == |moments|
    requires BrowsingRun(Start(INITIAL, now), events, Shown(now, false, map[], {}), moments, startOfDay, size, text)
    requires var h := RunAfter(Start(INITIAL, now), events, Shown(now, false, map[], {}), moments);
             && IsCurrent(found, h, startOfDay) && NoSharedTimes(found, h.asked)
             && Serves(source, found, text) && Unbounded(found, unbounded)
    ensures var s := Run(Start(INITIAL, now), events);
            var h := RunAfter(Start(INITIAL, now), events, Shown(now, false, map[], {}), moments);
            Complete(s) ==>
              (LoadPage(source, startOfDay, PageQuery(h.asked, unbounded, text))
               == Success(Page(Kept(s.state.entries, h.gone), None))
               <==> s.state.failure.None? || Kept(s.state.entries, h.gone) != [] || NothingBefore(found, h.asked))
  {
    hide Shows, Held, Less, LoadPage, Serves, NoSharedTimes, NothingBefore, Unbounded, IsCurrent, Browsing;
    var s := Run(Start(INITIAL, now), events);
    var h := RunAfter(Start(INITIAL, now), events, Shown(now, false, map[], {}), moments);
    RunFaithful(Start(INITIAL, now), events, Shown(now, false, map[], {}), moments, startOfDay, size, text);
    if Complete(s) {
      CompleteIsWholeExactly(s, h, source, found, startOfDay, text, unbounded);
    }
  }

  /** A first load that fails leaves a list with no row that counts as complete, whatever the history holds. */
  lemma FailedLoadLooksComplete(now: Time)
    ensures var s := Run(INITIAL, [Started(now), Failed(1)]);
            Complete(s) && s.state.entries == [] && s.state.failure == Some(LoadFailed)
  {
    var started := Step(INITIAL, Started(now));
    assert Run(INITIAL, [Started(now), Failed(1)]) == Run(started, [Failed(1)]) == Step(started, Failed(1));
  }

  /** Dropping a row leaves the list right if and only if its deletion has begun or it is not on the list. */
  lemma SettlesExactly(s: System, h: Shown, startOfDay: Time -> Time, row: Id)
    requires ShowsLeft(s, h, startOfDay)
    ensures ShowsLeft(Step(s, Settled(row)), h, startOfDay) <==> row in h.gone || row !in Ids(s.state.entries)
  {
    hide Less;
    var rows, left, w := s.state.entries, Less(h.found, h.gone, startOfDay), Window(s.state.next, h.asked);
    if row in h.gone {
      FilterTwice(rows, Unsettled(row), NotRemoved(h.gone), NotRemoved(h.gone));
    } else if row !in Ids(rows) {
      FilterAll(rows, Unsettled(row));
    } else {
      var e :| e in rows && e.Id() == row;
      assert e in Kept(rows, h.gone);
      RowTime(e, left, startOfDay, w);
      assert !HasRow(Kept(Filter(rows, Unsettled(row)), h.gone), e.url, startOfDay(e.time));
    }
  }

  /**
   * A row that is removed, visited again and loaded again before it has
   * finished leaving goes from the list when it has, though the history has it.
   */
  lemma ReturnedRowIsLost(now: Time, later: Time, row: Entry)
    ensures var page := Page([row], None);
            var s := Run(INITIAL, [Started(now), Answered(1, page), RowsRemoved({row.Id()}), Reloaded(later),
                                   Answered(2, page)]);
            && Complete(s) && s.state.entries == [row] && s.state.removed == {}
            && Step(s, Settled(row.Id())).state.entries == [] && Complete(Step(s, Settled(row.Id())))
  {
    var page, ids := Page([row], None), {row.Id()};
    var a := Step(INITIAL, Started(now));
    var b := Step(a, Answered(1, page));
    var c := Step(b, RowsRemoved(ids));
    var d := Step(c, Reloaded(later));
    var e := Step(d, Answered(2, page));
    assert Run(INITIAL, [Started(now), Answered(1, page), RowsRemoved(ids), Reloaded(later), Answered(2, page)])
        == Run(a, [Answered(1, page), RowsRemoved(ids), Reloaded(later), Answered(2, page)])
        == Run(b, [RowsRemoved(ids), Reloaded(later), Answered(2, page)])
        == Run(c, [Reloaded(later), Answered(2, page)])
        == Run(d, [Answered(2, page)])
        == e;
    FilterAppend([row], [], Unsettled(row.Id()));
  }
}
