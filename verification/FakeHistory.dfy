/** A history kept in memory, which answers searches the way the browser's does. */
module FakeHistory {
  import opened Basics
  import opened HistoryTypes

  datatype FakePage = FakePage(favicon: Option<string>, title: string, url: string, visits: seq<Time>)

  function HasVisit(endTime: Time): FakePage -> bool {
    (page: FakePage) => Filter(page.visits, Before(endTime)) != []
  }

  function NewestVisit(endTime: Time): FakePage -> int {
    (page: FakePage) =>
      var before := Filter(page.visits, Before(endTime));
      if before == [] then 0 else -LatestOf(before)
  }

  function Item(page: FakePage): HistoryItem { HistoryItem(page.favicon, page.title, page.url) }

  /** The first `maxResults` pages in the order of their newest visit that is early enough. */
  function Ranked(pages: seq<FakePage>, query: PageQuery): seq<HistoryItem> {
    var ranked := SortedBy(Filter(pages, HasVisit(query.endTime)), NewestVisit(query.endTime));
    var kept := if |ranked| <= query.maxResults then |ranked| else query.maxResults;
    seq(kept, i requires 0 <= i < kept => Item(ranked[i]))
  }

  predicate Includes(whole: string, part: string) {
    exists i | 0 <= i <= |whole| :: part <= whole[i..]
  }

  function Matches(text: string): FakePage -> bool {
    (page: FakePage) => Includes(page.title + " " + page.url, text)
  }

  function VisitsOf(pages: seq<FakePage>, url: string): seq<Time> {
    if pages == [] then [] else if pages[0].url == url then pages[0].visits else VisitsOf(pages[1..], url)
  }

  function Source(pages: seq<FakePage>): HistorySource {
    HistorySource(
      (query: PageQuery) => Ranked(Filter(pages, Matches(query.text)), query),
      (url: string) => VisitsOf(pages, url))
  }

  ghost predicate DistinctUrls(pages: seq<FakePage>) {
    forall i, j :: 0 <= i < j < |pages| ==> pages[i].url != pages[j].url
  }

  /** `pages` by their URLs. */
  ghost predicate Holds(found: Found, pages: seq<FakePage>) {
    && DistinctUrls(pages)
    && (forall i :: 0 <= i < |pages| ==>
         && pages[i].url in found
         && found[pages[i].url] == Record(pages[i].favicon, pages[i].title, pages[i].visits))
    && forall url :: url in found ==> exists i :: 0 <= i < |pages| && pages[i].url == url
  }

  lemma RankedKeys(page: FakePage, record: Record, endTime: Time)
    requires record == Record(page.favicon, page.title, page.visits)
    ensures HasVisit(endTime)(page) <==> HasVisitBefore(record, endTime)
    ensures HasVisitBefore(record, endTime) ==> NewestVisit(endTime)(page) == -LatestBefore(record, endTime)
  {
    var before := Filter(page.visits, Before(endTime));
    if HasVisitBefore(record, endTime) {
      var t :| t in record.visits && t < endTime;
      assert t in before;
    }
    if before != [] {
      assert before[0] in before;
    }
  }

  lemma {:induction false} FilterUrls(pages: seq<FakePage>, keep: FakePage -> bool)
    requires DistinctUrls(pages)
    ensures DistinctUrls(Filter(pages, keep))
  {
    if pages != [] {
      FilterUrls(pages[1..], keep);
      forall p | p in Filter(pages[1..], keep) ensures p.url != pages[0].url {
        var i :| 0 <= i < |pages[1..]| && pages[1..][i] == p;
        assert pages[i + 1] == p;
      }
    }
  }

  lemma {:induction false} SortedUrls(pages: seq<FakePage>, key: FakePage -> int)
    requires DistinctUrls(pages)
    ensures DistinctUrls(SortedBy(pages, key))
  {
    if pages != [] {
      var rest := SortedBy(pages[1..], key);
      SortedUrls(pages[1..], key);
      MultisetIn(rest, pages[1..]);
      forall p | p in rest ensures p.url != pages[0].url {
        var i :| 0 <= i < |pages[1..]| && pages[1..][i] == p;
        assert pages[i + 1] == p;
      }
      InsertedUrls(pages[0], rest, key);
    }
  }

  lemma {:induction false} InsertedUrls(page: FakePage, pages: seq<FakePage>, key: FakePage -> int)
    requires DistinctUrls(pages) && forall p :: p in pages ==> p.url != page.url
    ensures DistinctUrls(Inserted(page, pages, key))
  {
    hide SortedBy, Filter;
    if pages != [] && key(page) > key(pages[0]) {
      var rest := Inserted(page, pages[1..], key);
      InsertedUrls(page, pages[1..], key);
      forall p | p in rest ensures p.url != pages[0].url {
        assert p in multiset(rest);
        assert p == page || p in pages[1..];
      }
    }
  }

  /** The ranking holds each page with a visit once, under its latest visit. */
  lemma RankedPages(pages: seq<FakePage>, found: Found, endTime: Time)
    requires Holds(found, pages)
    ensures var key := NewestVisit(endTime);
            var ranked := SortedBy(Filter(pages, HasVisit(endTime)), key);
            && DistinctUrls(ranked) && Ascending(ranked, key)
            && (forall p :: p in ranked ==>
                 && p.url in found && found[p.url] == Record(p.favicon, p.title, p.visits)
                 && HasVisitBefore(found[p.url], endTime) && key(p) == -LatestBefore(found[p.url], endTime))
            && (forall url :: url in found && HasVisitBefore(found[url], endTime) ==>
                 exists i :: 0 <= i < |ranked| && ranked[i].url == url)
  {
    var visited := Filter(pages, HasVisit(endTime));
    var key := NewestVisit(endTime);
    var ranked := SortedBy(visited, key);
    MultisetIn(ranked, visited);
    SortedByAscending(visited, key);
    FilterUrls(pages, HasVisit(endTime));
    SortedUrls(visited, key);
    forall p | p in ranked
      ensures p.url in found && found[p.url] == Record(p.favicon, p.title, p.visits)
      ensures HasVisitBefore(found[p.url], endTime) && key(p) == -LatestBefore(found[p.url], endTime)
    {
      var i :| 0 <= i < |pages| && pages[i] == p;
      RankedKeys(p, found[p.url], endTime);
    }
    forall url | url in found && HasVisitBefore(found[url], endTime)
      ensures exists i :: 0 <= i < |ranked| && ranked[i].url == url
    {
      var p :| 0 <= p < |pages| && pages[p].url == url;
      RankedKeys(pages[p], found[url], endTime);
      assert pages[p] in ranked;
    }
  }

  lemma RankedAnswers(pages: seq<FakePage>, found: Found, query: PageQuery)
    requires Holds(found, pages)
    ensures Answers(Ranked(pages, query), found, query)
  {
    var key := NewestVisit(query.endTime);
    var ranked := SortedBy(Filter(pages, HasVisit(query.endTime)), key);
    RankedPages(pages, found, query.endTime);
    TopAnswers(ranked, key, found, query, Ranked(pages, query));
  }

  /** The top of a ranking that holds every page with a visit. */
  lemma TopAnswers(ranked: seq<FakePage>, key: FakePage -> int, found: Found, query: PageQuery,
                   items: seq<HistoryItem>)
    requires DistinctUrls(ranked) && Ascending(ranked, key)
    requires forall p :: p in ranked ==>
               && p.url in found && found[p.url] == Record(p.favicon, p.title, p.visits)
               && HasVisitBefore(found[p.url], query.endTime)
               && key(p) == -LatestBefore(found[p.url], query.endTime)
    requires forall url :: url in found && HasVisitBefore(found[url], query.endTime) ==>
               exists i :: 0 <= i < |ranked| && ranked[i].url == url
    requires |items| == if |ranked| <= query.maxResults then |ranked| else query.maxResults
    requires forall i :: 0 <= i < |items| ==> items[i] == Item(ranked[i])
    ensures Answers(items, found, query)
  {
    assert forall i :: 0 <= i < |ranked| ==> ranked[i] in ranked;
    forall i, j | 0 <= i < j < |ranked|
      ensures LatestBefore(found[ranked[j].url], query.endTime) <= LatestBefore(found[ranked[i].url], query.endTime)
    {
      assert key(ranked[i]) <= key(ranked[j]);
    }
    forall url | url in found && HasVisitBefore(found[url], query.endTime) && !Listed(items, url)
      ensures |items| == query.maxResults
      ensures forall i :: 0 <= i < |items| ==>
                LatestBefore(found[url], query.endTime) <= LatestBefore(found[items[i].url], query.endTime)
    {
      var r :| 0 <= r < |ranked| && ranked[r].url == url;
      assert r < |items| ==> Listed(items, url);
    }
  }

  lemma {:induction false} VisitsOfPage(pages: seq<FakePage>, i: nat)
    requires DistinctUrls(pages) && i < |pages|
    ensures VisitsOf(pages, pages[i].url) == pages[i].visits
  {
    if i > 0 {
      VisitsOfPage(pages[1..], i - 1);
    }
  }

  /** The fake history keeps what a search promises, for every text. */
  lemma FakeServes(pages: seq<FakePage>, found: Found, text: string)
    requires DistinctUrls(pages) && Holds(found, Filter(pages, Matches(text)))
    ensures Serves(Source(pages), found, text)
  {
    var matching := Filter(pages, Matches(text));
    forall query: PageQuery | query.text == text ensures Answers(Source(pages).search(query), found, query) {
      RankedAnswers(matching, found, query);
    }
    forall url | url in found ensures Source(pages).getVisits(url) == found[url].visits {
      var i :| 0 <= i < |matching| && matching[i].url == url;
      assert matching[i] in pages;
      var j :| 0 <= j < |pages| && pages[j] == matching[i];
      VisitsOfPage(pages, j);
    }
  }
}
