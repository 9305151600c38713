/** `main` (GrandExchangeScript.py:93-117 and :213-237) and the order in
    which the file runs its two copies of it (:119-120, :239-240). */
module Script {
  import opened Wrappers
  import opened Json
  import opened Api
  import opened Prices
  import opened DetailPipeline
  import opened Crawler

  /** `[item["id"] for item in all_fetched_items]`: the first item without
      an id raises. */
  function ItemIds(items: seq<Json>): (r: Outcome<seq<Json>>)
    ensures r.Ok? <==> forall i :: 0 <= i < |items| ==> Subscript(items[i], "id").Ok?
    ensures r.Ok? ==> |r.value| == |items| &&
                      forall i :: 0 <= i < |items| ==> Subscript(items[i], "id") == Ok(r.value[i])
  {
    if items == [] then Ok([])
    else
      var id :- Subscript(items[0], "id");
      var rest :- ItemIds(items[1..]);
      assert forall i :: 1 <= i < |items| ==> items[i] == items[1..][i - 1];
      Ok([id] + rest)
  }

  /** What one call of `main()` hands to `save_to_csv`, or the error it
      raises. */
  function Run(category: int, v: Variant, fetch: Oracle, bound: nat): Outcome<seq<Row>>
    requires PagesBounded(fetch, category, bound)
  {
    var crawled := CrawlLetters(fetch, category, LETTERS, bound);
    if crawled.error.Some? then Err(crawled.error.value)
    else
      var ids :- ItemIds(crawled.items);
      Details(v, fetch, ids)
  }

  method ScanCategory(category: int, v: Variant, fetch: Oracle, ghost bound: nat) returns (r: Outcome<seq<Row>>)
    requires PagesBounded(fetch, category, bound)
    ensures r == Run(category, v, fetch, bound)
  {
    var crawled := Crawl(category, fetch, bound);
    if crawled.error.Some? {
      return Err(crawled.error.value);
    }
    var ids := ItemIds(crawled.items);
    if ids.Err? {
      return Err(ids.error);
    }
    r := FetchItemDetails(v, fetch, ids.value);
  }

  /** The category each copy of the script crawls. */
  const FIRST_CATEGORY: int := 41
  const SECOND_CATEGORY: int := 16

  /** Running the file: the first copy's `main()` runs with its own
      definitions, then the second copy redefines them and runs again; an
      error in the first run ends the file before the second starts. Each
      completed run saves its rows to the same file, so `saved` lists the
      successive contents of that file. */
  method RunFile(fetch: Oracle, ghost bound: nat) returns (saved: seq<seq<Row>>, failure: Option<Error>)
    requires PagesBounded(fetch, FIRST_CATEGORY, bound)
    requires PagesBounded(fetch, SECOND_CATEGORY, bound)
    ensures var first := Run(FIRST_CATEGORY, NoBillions, fetch, bound);
            var second := Run(SECOND_CATEGORY, Billions, fetch, bound);
            if first.Err? then saved == [] && failure == Some(first.error)
            else if second.Err? then saved == [first.value] && failure == Some(second.error)
            else saved == [first.value, second.value] && failure == None
  {
    saved := [];
    var first := ScanCategory(FIRST_CATEGORY, NoBillions, fetch, bound);
    if first.Err? {
      return saved, Some(first.error);
    }
    saved := saved + [first.value];
    var second := ScanCategory(SECOND_CATEGORY, Billions, fetch, bound);
    if second.Err? {
      return saved, Some(second.error);
    }
    saved := saved + [second.value];
    failure := None;
  }

  /** Every row a run saves has a positive margin equal to sell minus buy,
      and carries the id of an item the crawl received. */
  lemma SavedRowsQualify(category: int, v: Variant, fetch: Oracle, bound: nat)
    requires PagesBounded(fetch, category, bound)
    requires Run(category, v, fetch, bound).Ok?
    ensures var crawled := CrawlLetters(fetch, category, LETTERS, bound);
            forall row :: row in Run(category, v, fetch, bound).value ==>
              row.margin > 0 && row.margin == row.sell - row.buy &&
              exists item :: item in crawled.items && Subscript(item, "id") == Ok(row.id)
  {
    var crawled := CrawlLetters(fetch, category, LETTERS, bound);
    var ids := ItemIds(crawled.items).value;
    RowsQualify(v, fetch, ids);
    forall row | row in Run(category, v, fetch, bound).value
      ensures row.margin > 0 && row.margin == row.sell - row.buy
      ensures exists item :: item in crawled.items && Subscript(item, "id") == Ok(row.id)
    {
      var i :| 0 <= i < |ids| && ids[i] == row.id && Assess(v, ids[i], fetch(Detail(ids[i]))) == Ok(Some(row));
      assert crawled.items[i] in crawled.items;
    }
  }

  /** The catalogue crawl, over the alphabet: requests go letter by letter
      in alphabetical order and page by page, the items kept are those of
      the pages that had some, in request order and without de-duplication,
      and when nothing raised page 1 of every letter was requested. */
  lemma CatalogueCrawl(fetch: Oracle, category: int, bound: nat)
    requires PagesBounded(fetch, category, bound)
    ensures var c := CrawlLetters(fetch, category, LETTERS, bound);
            Increasing(c.requests) &&
            c.items == Gathered(fetch, c.requests) &&
            (c.error.None? ==> forall l :: l in LETTERS ==> Listing(category, l, 1) in c.requests)
  {
    LettersSorted();
    CrawlRequestsIncrease(fetch, category, LETTERS, bound);
    CrawlGathers(fetch, category, LETTERS, bound);
    if CrawlLetters(fetch, category, LETTERS, bound).error.None? {
      EveryLetterVisited(fetch, category, LETTERS, bound);
    }
  }
}
