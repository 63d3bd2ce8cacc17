/** The history list's data: pages, rows, queries and what a search promises. */
module HistoryTypes {
  import opened Basics

  // Only the order of times matters to the list.
  type Time = int

  /** One search result. */
  datatype HistoryItem = HistoryItem(favicon: Option<string>, title: string, url: string)

  datatype PageQuery = PageQuery(endTime: Time, maxResults: nat, text: string)

  /** Any two functions with the types of a search and of a look-up of visits. */
  datatype HistorySource = HistorySource(search: PageQuery -> seq<HistoryItem>, getVisits: string -> seq<Time>)

  /** One row of the list. Its `visits` are those of `url` on `day`, and `time` is the last of them. */
  datatype Entry = Entry(
    day: Time, favicon: Option<string>, time: Time, title: string, url: string, visits: seq<Time>)
  {
    function Id(): (Time, string) { (day, url) }
  }

  /** Rows, and where to go on from when they are not all there is. */
  datatype Page = Page(entries: seq<Entry>, next: Option<Time>)

  const HIDDEN_SCHEMES := ["domicile:", "chrome-extension:"]

  predicate Hidden(url: string) {
    exists i | 0 <= i < |HIDDEN_SCHEMES| :: HIDDEN_SCHEMES[i] <= url
  }

  /** The times from `from` on, if it is given, and before `until`. */
  datatype Window = Window(from: Option<Time>, until: Time) {
    predicate Holds(t: Time) { t < until && (from.Some? ==> from.value <= t) }
  }

  // Named function values, so that equal arguments give equal functions.
  function Earliest(): Time -> int { t => t }
  function Newest(): Entry -> int { (e: Entry) => -e.time }
  function Before(endTime: Time): Time -> bool { t => t < endTime }
  function AtLeast(cutoff: Option<Time>): Time -> bool { t => cutoff.Some? ==> cutoff.value <= t }
  function InWindow(w: Window): Time -> bool { t => w.Holds(t) }
  function OnDay(startOfDay: Time -> Time, day: Time): Time -> bool { t => startOfDay(t) == day }
  function InWindowOnDay(startOfDay: Time -> Time, day: Time, w: Window): Time -> bool {
    t => w.Holds(t) && startOfDay(t) == day
  }

  function LatestOf(times: seq<Time>): (m: Time)
    requires times != []
    ensures m in times
    ensures forall t :: t in times ==> t <= m
  {
    if |times| == 1 then times[0]
    else
      assert times == [times[0]] + times[1..];
      var rest := LatestOf(times[1..]);
      if times[0] < rest then rest else times[0]
  }

  /** What the history holds about one page. */
  datatype Record = Record(favicon: Option<string>, title: string, visits: seq<Time>)

  /** What a search is about: by URL, the record of each page that matches it. */
  type Found = map<string, Record>

  function ItemOf(url: string, record: Record): HistoryItem {
    HistoryItem(record.favicon, record.title, url)
  }

  ghost predicate HasVisitBefore(record: Record, endTime: Time) {
    exists t :: t in record.visits && t < endTime
  }

  function LatestBefore(record: Record, endTime: Time): (m: Time)
    requires HasVisitBefore(record, endTime)
    ensures m in record.visits && m < endTime
    ensures forall t :: t in record.visits && t < endTime ==> t <= m
  {
    var t :| t in record.visits && t < endTime;
    assert t in Filter(record.visits, Before(endTime));
    LatestOf(Filter(record.visits, Before(endTime)))
  }

  ghost predicate Listed(items: seq<HistoryItem>, url: string) {
    exists i :: 0 <= i < |items| && items[i].url == url
  }

  /**
   * `items` are a right answer: different pages, each visited before `endTime`,
   * in the order of their latest visit before it, and no page left out was
   * visited later than one of them. Pages that tie may come in either order.
   */
  ghost predicate Answers(items: seq<HistoryItem>, found: Found, query: PageQuery) {
    && |items| <= query.maxResults
    && (forall i :: 0 <= i < |items| ==>
         && items[i].url in found
         && items[i] == ItemOf(items[i].url, found[items[i].url])
         && HasVisitBefore(found[items[i].url], query.endTime))
    && (forall i, j :: 0 <= i < j < |items| ==>
         && items[i].url != items[j].url
         && LatestBefore(found[items[j].url], query.endTime) <= LatestBefore(found[items[i].url], query.endTime))
    && (forall url :: url in found && HasVisitBefore(found[url], query.endTime) && !Listed(items, url) ==>
         && |items| == query.maxResults
         && forall i :: 0 <= i < |items| ==>
              LatestBefore(found[url], query.endTime) <= LatestBefore(found[items[i].url], query.endTime))
  }

  /** `source` keeps its promises for searches of `text`, which matches `found`. */
  ghost predicate Serves(source: HistorySource, found: Found, text: string) {
    && (forall query: PageQuery :: query.text == text ==> Answers(source.search(query), found, query))
    && (forall url :: url in found ==> source.getVisits(url) == found[url].visits)
  }
}
