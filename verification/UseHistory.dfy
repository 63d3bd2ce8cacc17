/**
 * The history list as a state machine: loads whose answers may come late or
 * never, removals, and rows that finish leaving. Each event is one atomic step
 * whose guards read the current state.
 */
module UseHistory {
  import opened Basics
  import opened HistoryTypes
  import opened Entries
  import opened HistoryPage
  import opened Listing
  import opened Paging

  type Id = (Time, string)

  datatype Failure = LoadFailed | LoadMoreFailed | ReloadFailed | RemoveFailed

  datatype State = State(
    entries: seq<Entry>, failure: Option<Failure>, leaving: set<Id>, loading: bool, next: Option<Time>,
    removed: set<Id>)

  const LOADING := State([], None, {}, true, None, {})

  /** What a load asked for: the whole list, the list back to `until`, or the page after it. */
  datatype Request =
    | Load(endTime: Time)
    | Reload(until: Time, endTime: Time)
    | LoadMore(endTime: Time)

  /** The list, the load whose answer counts, and every load not yet answered. */
  datatype System = System(state: State, generation: nat, pending: map<nat, Request>)

  const INITIAL := System(LOADING, 0, map[])

  datatype Event =
    | Started(now: Time)
    | Reloaded(now: Time)
    | MoreWanted
    | Answered(id: nat, page: Page)
    | Failed(id: nat)
    | RowsRemoved(ids: set<Id>)
    | RemovalFailed
    | Settled(row: Id)
    | Retried(now: Time)

  function Unsettled(row: Id): Entry -> bool { (e: Entry) => e.Id() != row }
  function NotRemoved(removed: set<Id>): Entry -> bool { (e: Entry) => e.Id() !in removed }

  function Sent(s: System, request: Request): System {
    System(s.state, s.generation + 1, s.pending[s.generation + 1 := request])
  }

  function Start(s: System, now: Time): System {
    Sent(s.(state := LOADING), Load(now))
  }

  function ReloadFrom(s: System, now: Time): System {
    var rows := s.state.entries;
    var oldest := if rows == [] then now else rows[|rows| - 1].time;
    Sent(s.(state := s.state.(loading := true)), Reload(oldest, now))
  }

  function More(s: System): System {
    if s.state.loading || s.state.next.None? then s
    else Sent(s.(state := s.state.(loading := true)), LoadMore(s.state.next.value))
  }

  /** The state after the answer that counts: `LoadMore` appends what was not removed, the others start afresh. */
  function Merged(state: State, request: Request, page: Page): State {
    var (entries, removed) :=
      if request.LoadMore? then
        (AppendEntries(state.entries, Filter(page.entries, NotRemoved(state.removed))), state.removed)
      else (page.entries, {});
    State(entries, None, state.leaving * Ids(entries), false, page.next, removed)
  }

  function FailureOf(request: Request): Failure {
    match request
    case Load(_) => LoadFailed
    case Reload(_, _) => ReloadFailed
    case LoadMore(_) => LoadMoreFailed
  }

  function Step(s: System, event: Event): System {
    match event
    case Started(now) => Start(s, now)
    case Reloaded(now) => ReloadFrom(s, now)
    case MoreWanted => More(s)
    case Answered(id, page) =>
      if id !in s.pending then s
      else
        var state := if id == s.generation then Merged(s.state, s.pending[id], page) else s.state;
        s.(state := state, pending := s.pending - {id})
    case Failed(id) =>
      if id !in s.pending then s
      else
        var state := if id == s.generation
                     then s.state.(failure := Some(FailureOf(s.pending[id])), loading := false)
                     else s.state;
        s.(state := state, pending := s.pending - {id})
    case RowsRemoved(ids) =>
      s.(state := s.state.(leaving := s.state.leaving + ids, removed := s.state.removed + ids))
    case RemovalFailed => s.(state := s.state.(failure := Some(RemoveFailed)))
    case Settled(row) =>
      s.(state := s.state.(entries := Filter(s.state.entries, Unsettled(row)), leaving := s.state.leaving - {row}))
    case Retried(now) =>
      // With nothing to try again, the source throws and changes nothing.
      match s.state.failure
      case Some(LoadFailed) => Start(s, now)
      case Some(LoadMoreFailed) => More(s)
      case Some(ReloadFailed) => ReloadFrom(s, now)
      case _ => s
  }

  function Run(s: System, events: seq<Event>): System
    decreases |events|
  {
    if events == [] then s else Run(Step(s, events[0]), events[1..])
  }

  /** The list is loaded to its end. */
  predicate Complete(s: System) { !s.state.loading && s.state.next.None? }

  /** Every page an answer brings holds each row once, as loaded pages do. */
  ghost predicate PagesDistinct(events: seq<Event>) {
    forall e :: e in events && e.Answered? ==> DistinctIds(e.page.entries)
  }

  ghost predicate Inv(s: System) {
    && DistinctIds(s.state.entries)
    && Ids(s.state.entries) * s.state.removed <= s.state.leaving
    && (forall id :: id in s.pending ==> id <= s.generation)
    && (s.generation > 0 ==> (s.state.loading <==> s.generation in s.pending))
    && (s.generation == 0 ==> s.pending == map[])
  }

  lemma MergedInv(state: State, request: Request, page: Page)
    requires DistinctIds(state.entries) && DistinctIds(page.entries)
    requires Ids(state.entries) * state.removed <= state.leaving
    ensures var after := Merged(state, request, page);
            DistinctIds(after.entries) && Ids(after.entries) * after.removed <= after.leaving
  {
    if request.LoadMore? {
      var kept := Filter(page.entries, NotRemoved(state.removed));
      FilterKeepsDistinct(page.entries, NotRemoved(state.removed));
      AppendKeepsDistinct(state.entries, kept);
      AppendIds(state.entries, kept);
    }
  }

  lemma StepInv(s: System, event: Event)
    requires Inv(s) && (event.Answered? ==> DistinctIds(event.page.entries))
    ensures Inv(Step(s, event))
  {
    match event
    case Answered(id, page) =>
      if id in s.pending && id == s.generation {
        MergedInv(s.state, s.pending[id], page);
      }
    case Settled(row) => FilterKeepsDistinct(s.state.entries, Unsettled(row));
    case _ =>
  }

  /**
   * In every run: ids stay distinct, a removed row still listed is marked
   * leaving, and the list is loading exactly while an answer that counts is due.
   */
  lemma {:induction false} RunInv(s: System, events: seq<Event>)
    requires Inv(s) && PagesDistinct(events)
    ensures Inv(Run(s, events))
    decreases |events|
  {
    if events != [] {
      assert events[0] in events && forall e :: e in events[1..] ==> e in events;
      StepInv(s, events[0]);
      RunInv(Step(s, events[0]), events[1..]);
    }
  }

  lemma InitialInv()
    ensures Inv(INITIAL)
  {
  }

  /** `event` answers or fails a load other than the last one sent. */
  predicate IsStale(s: System, event: Event) {
    match event
    case Answered(id, _) => id != s.generation
    case Failed(id) => id != s.generation
    case _ => false
  }

  /** The events of a run from `s` but those that are stale when they come. */
  function WithoutStale(s: System, events: seq<Event>): seq<Event>
    decreases |events|
  {
    if events == [] then []
    else (if IsStale(s, events[0]) then [] else [events[0]]) + WithoutStale(Step(s, events[0]), events[1..])
  }

  /** One list, with one last load that is due in both or in neither. */
  ghost predicate Alike(a: System, b: System) {
    && a.state == b.state && a.generation == b.generation
    && (a.generation in a.pending <==> b.generation in b.pending)
    && (a.generation in a.pending ==> a.pending[a.generation] == b.pending[b.generation])
  }

  lemma StepAlike(a: System, b: System, event: Event)
    requires Alike(a, b)
    ensures Alike(Step(a, event), if IsStale(a, event) then b else Step(b, event))
  {
  }

  lemma {:induction false} RunAlike(a: System, b: System, events: seq<Event>)
    requires Alike(a, b)
    ensures Alike(Run(a, events), Run(b, WithoutStale(a, events)))
    decreases |events|
  {
    if events != [] {
      var later := WithoutStale(Step(a, events[0]), events[1..]);
      StepAlike(a, b, events[0]);
      if IsStale(a, events[0]) {
        assert WithoutStale(a, events) == later;
        RunAlike(Step(a, events[0]), b, events[1..]);
      } else {
        assert WithoutStale(a, events) == [events[0]] + later;
        RunAlike(Step(a, events[0]), Step(b, events[0]), events[1..]);
      }
    }
  }

  /** In every run, answers and failures of loads that another has replaced might as well never have come. */
  lemma StaleMightNotHaveCome(s: System, events: seq<Event>)
    ensures Run(s, events).state == Run(s, WithoutStale(s, events)).state
  {
    RunAlike(s, s, events);
  }

  /** `event` puts a loaded list in the list's place, or empties it to load one. */
  ghost predicate Replaces(s: System, event: Event) {
    match event
    case Started(_) => true
    case Retried(_) => s.state.failure == Some(LoadFailed)
    case Answered(id, _) => id in s.pending && id == s.generation && !s.pending[id].LoadMore?
    case _ => false
  }

  ghost predicate NeverReplaced(s: System, events: seq<Event>)
    decreases |events|
  {
    events == [] || (!Replaces(s, events[0]) && NeverReplaced(Step(s, events[0]), events[1..]))
  }

  ghost predicate Gone(s: System, row: Id) {
    row in s.state.removed && row !in Ids(s.state.entries)
  }

  lemma StepGone(s: System, event: Event, row: Id)
    requires Gone(s, row) && !Replaces(s, event)
    ensures Gone(Step(s, event), row)
  {
    if event.Answered? && event.id in s.pending && event.id == s.generation {
      AppendIds(s.state.entries, Filter(event.page.entries, NotRemoved(s.state.removed)));
    }
  }

  /** A removed row that has gone stays gone, whatever pages come, until a load replaces the list. */
  lemma {:induction false} GoneStaysGone(s: System, events: seq<Event>, row: Id)
    requires Gone(s, row) && NeverReplaced(s, events)
    ensures Gone(Run(s, events), row)
    decreases |events|
  {
    if events != [] {
      StepGone(s, events[0], row);
      GoneStaysGone(Step(s, events[0]), events[1..], row);
    }
  }

  // What loads bring.

  /** What the history answers a request with. */
  function Fetched(source: HistorySource, startOfDay: Time -> Time, size: nat, text: string, request: Request)
    : Result<Page, string>
    requires size >= 1
  {
    match request
    case Load(endTime) => LoadPage(source, startOfDay, PageQuery(endTime, size, text))
    case LoadMore(endTime) => LoadPage(source, startOfDay, PageQuery(endTime, size, text))
    case Reload(until, endTime) => LoadSince(source, startOfDay, until, PageQuery(endTime, size, text))
  }

  /** What a kept promise brings holds each row once, shared times or not. */
  lemma FetchedDistinct(source: HistorySource, found: Found, startOfDay: Time -> Time, size: nat, text: string,
                        request: Request)
    requires size >= 1 && Serves(source, found, text)
    ensures var r := Fetched(source, startOfDay, size, text, request);
            r.Success? && DistinctIds(r.value.entries)
  {
    var query := PageQuery(request.endTime, size, text);
    LoadPageLists(source, found, startOfDay, query);
    if request.Reload? {
      LoadSinceDistinct(source, found, startOfDay, request.until, query);
    }
  }

  lemma {:induction false} LoadSinceDistinct(source: HistorySource, found: Found, startOfDay: Time -> Time,
                                             until: Time, query: PageQuery)
    requires query.maxResults >= 1 && Serves(source, found, query.text)
    ensures var r := LoadSince(source, startOfDay, until, query);
            r.Success? && DistinctIds(r.value.entries)
    decreases query.endTime - until
  {
    LoadPageLists(source, found, startOfDay, query);
    var page := LoadPage(source, startOfDay, query).value;
    if page.next.Some? && page.next.value > until {
      var older := query.(endTime := page.next.value);
      LoadSinceDistinct(source, found, startOfDay, until, older);
      AppendKeepsDistinct(page.entries, LoadSince(source, startOfDay, until, older).value.entries);
    }
  }
}
