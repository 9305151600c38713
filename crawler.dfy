/** The catalogue crawl of `main` (GrandExchangeScript.py:99-111 and
    :219-231): for every letter a to z, listing pages 1, 2, 3, ... are
    requested until one yields no items; every item received is kept. */
module Crawler {
  import opened Wrappers
  import opened Json
  import opened Api

  const LETTERS: string := "abcdefghijklmnopqrstuvwxyz"

  /** What the crawl does after fetching one listing page: stop this letter,
      extend the list with the page's items and go on, or raise. */
  datatype Step = Stop | Extend(items: seq<Json>) | Fail(error: Error)

  /** `if data and data.get("items"): all_fetched_items.extend(data["items"])`. */
  function PageStep(data: Option<Json>): (s: Step)
    ensures data.None? ==> s == Stop
    ensures s.Extend? ==> |s.items| > 0
    ensures s.Extend? ==> data.Some? && data.value.JObject? &&
                          Lookup(data.value.members, "items").Some? &&
                          Iterate(Lookup(data.value.members, "items").value) == Ok(s.items)
  {
    if data.None? || !Truthy(data.value) then Stop
    else
      match Get(data.value, "items")
      case Err(e) => Fail(e)
      case Ok(items) =>
        if items.None? || !Truthy(items.value) then Stop
        else
          match Iterate(items.value)
          case Err(e) => Fail(e)
          case Ok(xs) => Extend(xs)
  }

  /** What each kind of page does: an absent or false page, or one whose
      `items` is missing or false, stops the letter; a true page that is not
      a dict raises AttributeError at `.get`; true `items` extend the list
      with what iterating them yields (a list: its elements), or raise
      TypeError when they cannot be iterated. */
  lemma PageStepCases(data: Option<Json>)
    ensures data.None? || !Truthy(data.value) ==> PageStep(data) == Stop
    ensures data.Some? && Truthy(data.value) && !data.value.JObject? ==> PageStep(data) == Fail(AttributeError)
    ensures data.Some? && Truthy(data.value) && data.value.JObject? ==>
              var items := Lookup(data.value.members, "items");
              (items.None? || !Truthy(items.value) ==> PageStep(data) == Stop) &&
              (items.Some? && Truthy(items.value) && items.value.JArray? ==> PageStep(data) == Extend(items.value.elems)) &&
              (items.Some? && Truthy(items.value) && Iterate(items.value).Ok? ==>
                 PageStep(data) == Extend(Iterate(items.value).value)) &&
              (items.Some? && Truthy(items.value) && Iterate(items.value).Err? ==> PageStep(data) == Fail(TypeError))
  {
  }

  /** No listing of the category has items beyond page `bound`: the remote
      page space is finite, which is what makes the inner loop end. */
  ghost predicate PagesBounded(fetch: Oracle, category: int, bound: nat) {
    forall letter: char, page: int :: page > bound ==> !PageStep(fetch(Listing(category, letter, page))).Extend?
  }

  /** A page that continues the crawl lies within the bound. */
  lemma WithinBound(fetch: Oracle, category: int, letter: char, page: int, bound: nat)
    requires PagesBounded(fetch, category, bound)
    requires PageStep(fetch(Listing(category, letter, page))).Extend?
    ensures page <= bound
  {
  }

  /** The state of the crawl: the items gathered, the requests made in order,
      and the error that ended it, if one did. */
  datatype Crawled = Crawled(items: seq<Json>, requests: seq<Request>, error: Option<Error>)

  /** `a`, then `b` unless `a` raised. */
  function Then(a: Crawled, b: Crawled): Crawled {
    if a.error.Some? then a else Crawled(a.items + b.items, a.requests + b.requests, b.error)
  }

  /** The inner `while True` loop for one letter, from `page` on. */
  function LetterCrawl(fetch: Oracle, category: int, letter: char, page: int, bound: nat): Crawled
    requires 1 <= page <= bound + 1 && PagesBounded(fetch, category, bound)
    decreases bound + 1 - page
  {
    var request := Listing(category, letter, page);
    match PageStep(fetch(request))
    case Stop => Crawled([], [request], None)
    case Fail(e) => Crawled([], [request], Some(e))
    case Extend(xs) =>
      WithinBound(fetch, category, letter, page, bound);
      Then(Crawled(xs, [request], None), LetterCrawl(fetch, category, letter, page + 1, bound))
  }

  /** The outer `for letter in letters` loop. */
  function CrawlLetters(fetch: Oracle, category: int, letters: string, bound: nat): Crawled
    requires PagesBounded(fetch, category, bound)
  {
    if letters == [] then Crawled([], [], None)
    else Then(LetterCrawl(fetch, category, letters[0], 1, bound), CrawlLetters(fetch, category, letters[1..], bound))
  }

  method Crawl(category: int, fetch: Oracle, ghost bound: nat) returns (c: Crawled)
    requires PagesBounded(fetch, category, bound)
    ensures c == CrawlLetters(fetch, category, LETTERS, bound)
  {
    var allFetchedItems: seq<Json> := [];
    var requests: seq<Request> := [];
    ThenUnit(CrawlLetters(fetch, category, LETTERS, bound));
    assert LETTERS[0..] == LETTERS;
    for i := 0 to |LETTERS|
      invariant Then(Crawled(allFetchedItems, requests, None), CrawlLetters(fetch, category, LETTERS[i..], bound))
                == CrawlLetters(fetch, category, LETTERS, bound)
    {
      var letter := LETTERS[i];
      ghost var rest := CrawlLetters(fetch, category, LETTERS[i + 1..], bound);
      assert LETTERS[i..][0] == letter && LETTERS[i..][1..] == LETTERS[i + 1..];
      var page := 1;
      while true
        invariant 1 <= page <= bound + 1
        invariant Then(Crawled(allFetchedItems, requests, None), Then(LetterCrawl(fetch, category, letter, page, bound), rest))
                  == CrawlLetters(fetch, category, LETTERS, bound)
        decreases bound + 1 - page
      {
        var request := Listing(category, letter, page);
        var data := fetch(request);
        ghost var before := Crawled(allFetchedItems, requests, None);
        requests := requests + [request];
        var items: Option<Json> := None;
        if data.Some? && Truthy(data.value) {
          var got := Get(data.value, "items");
          if got.Err? {
            assert PageStep(data) == Fail(got.error);
            ThenAssoc(before, Crawled([], [request], Some(got.error)), rest);
            assert allFetchedItems + [] == allFetchedItems;
            return Crawled(allFetchedItems, requests, Some(got.error));
          }
          items := got.value;
        }
        if items.Some? && Truthy(items.value) {
          var xs := Iterate(items.value);
          if xs.Err? {
            assert PageStep(data) == Fail(xs.error);
            ThenAssoc(before, Crawled([], [request], Some(xs.error)), rest);
            assert allFetchedItems + [] == allFetchedItems;
            return Crawled(allFetchedItems, requests, Some(xs.error));
          }
          assert PageStep(data) == Extend(xs.value);
          WithinBound(fetch, category, letter, page, bound);
          ghost var next := LetterCrawl(fetch, category, letter, page + 1, bound);
          ThenAssoc(before, Crawled(xs.value, [request], None), Then(next, rest));
          ThenAssoc(Crawled(xs.value, [request], None), next, rest);
          allFetchedItems := allFetchedItems + xs.value;
          page := page + 1;
        } else {
          assert PageStep(data) == Stop;
          ThenAssoc(before, Crawled([], [request], None), rest);
          assert allFetchedItems + [] == allFetchedItems;
          break;
        }
      }
    }
    assert LETTERS[|LETTERS|..] == [];
    assert allFetchedItems + [] == allFetchedItems && requests + [] == requests;
    c := Crawled(allFetchedItems, requests, None);
  }

  lemma ThenUnit(c: Crawled)
    ensures Then(Crawled([], [], None), c) == c
  {
    assert [] + c.items == c.items && [] + c.requests == c.requests;
  }

  lemma ThenAssoc(a: Crawled, b: Crawled, c: Crawled)
    ensures Then(Then(a, b), c) == Then(a, Then(b, c))
  {
    if a.error.None? && b.error.None? {
      assert (a.items + b.items) + c.items == a.items + (b.items + c.items);
      assert (a.requests + b.requests) + c.requests == a.requests + (b.requests + c.requests);
    }
  }

  /** The items of the requested pages that continued the crawl, page after
      page, with nothing merged or dropped. */
  function Gathered(fetch: Oracle, requests: seq<Request>): seq<Json> {
    if requests == [] then []
    else
      var step := PageStep(fetch(requests[0]));
      (if step.Extend? then step.items else []) + Gathered(fetch, requests[1..])
  }

  lemma {:induction false} GatheredAppend(fetch: Oracle, a: seq<Request>, b: seq<Request>)
    ensures Gathered(fetch, a + b) == Gathered(fetch, a) + Gathered(fetch, b)
  {
    if a == [] {
      assert a + b == b;
    } else {
      assert (a + b)[0] == a[0] && (a + b)[1..] == a[1..] + b;
      GatheredAppend(fetch, a[1..], b);
    }
  }

  /** For one letter the crawl requests pages `page`, `page + 1`, ... in
      turn, and at least one. */
  lemma {:induction false} LetterCrawlPages(fetch: Oracle, category: int, letter: char, page: int, bound: nat)
    requires 1 <= page <= bound + 1 && PagesBounded(fetch, category, bound)
    ensures var rs := LetterCrawl(fetch, category, letter, page, bound).requests;
            |rs| >= 1 && forall k :: 0 <= k < |rs| ==> rs[k] == Listing(category, letter, page + k)
    decreases bound + 1 - page
  {
    var request := Listing(category, letter, page);
    if PageStep(fetch(request)).Extend? {
      WithinBound(fetch, category, letter, page, bound);
      LetterCrawlPages(fetch, category, letter, page + 1, bound);
      var rs := LetterCrawl(fetch, category, letter, page, bound).requests;
      var next := LetterCrawl(fetch, category, letter, page + 1, bound).requests;
      assert rs == [request] + next;
      forall k | 0 <= k < |rs| ensures rs[k] == Listing(category, letter, page + k) {
        if k > 0 {
          assert rs[k] == next[k - 1];
        }
      }
    }
  }

  /** Every page the letter's crawl requested but the last had items; the
      last had none, or raised the error the crawl ends with. */
  lemma LetterCrawlStops(fetch: Oracle, category: int, letter: char, page: int, bound: nat)
    requires 1 <= page <= bound + 1 && PagesBounded(fetch, category, bound)
    ensures var c := LetterCrawl(fetch, category, letter, page, bound);
            var n := |c.requests|;
            n >= 1 &&
            (forall k :: 0 <= k < n - 1 ==> PageStep(fetch(c.requests[k])).Extend?) &&
            var last := PageStep(fetch(c.requests[n - 1]));
            !last.Extend? && c.error == (if last.Fail? then Some(last.error) else None)
  {
    LetterCrawlContinues(fetch, category, letter, page, bound);
    LetterCrawlEnds(fetch, category, letter, page, bound);
  }

  lemma {:induction false} LetterCrawlContinues(fetch: Oracle, category: int, letter: char, page: int, bound: nat)
    requires 1 <= page <= bound + 1 && PagesBounded(fetch, category, bound)
    ensures var rs := LetterCrawl(fetch, category, letter, page, bound).requests;
            forall k :: 0 <= k < |rs| - 1 ==> PageStep(fetch(rs[k])).Extend?
    decreases bound + 1 - page
  {
    var request := Listing(category, letter, page);
    if PageStep(fetch(request)).Extend? {
      WithinBound(fetch, category, letter, page, bound);
      LetterCrawlContinues(fetch, category, letter, page + 1, bound);
      var rs := LetterCrawl(fetch, category, letter, page, bound).requests;
      var next := LetterCrawl(fetch, category, letter, page + 1, bound).requests;
      assert rs == [request] + next;
      assert var later := LetterCrawl(fetch, category, letter, page + 1, bound).requests;
             forall k :: 0 <= k < |later| - 1 ==> PageStep(fetch(later[k])).Extend?;
      forall k | 0 <= k < |rs| - 1 ensures PageStep(fetch(rs[k])).Extend? {
        if k > 0 {
          assert rs[k] == next[k - 1];
        } else {
          assert rs[k] == request;
        }
      }
    }
  }

  lemma {:induction false} LetterCrawlEnds(fetch: Oracle, category: int, letter: char, page: int, bound: nat)
    requires 1 <= page <= bound + 1 && PagesBounded(fetch, category, bound)
    ensures var c := LetterCrawl(fetch, category, letter, page, bound);
            |c.requests| >= 1 &&
            var last := PageStep(fetch(c.requests[|c.requests| - 1]));
            !last.Extend? && c.error == (if last.Fail? then Some(last.error) else None)
    decreases bound + 1 - page
  {
    var request := Listing(category, letter, page);
    if PageStep(fetch(request)).Extend? {
      WithinBound(fetch, category, letter, page, bound);
      LetterCrawlEnds(fetch, category, letter, page + 1, bound);
      var c := LetterCrawl(fetch, category, letter, page, bound);
      var next := LetterCrawl(fetch, category, letter, page + 1, bound);
      assert c == Then(Crawled(PageStep(fetch(request)).items, [request], None), next);
      assert c.requests[|c.requests| - 1] == next.requests[|next.requests| - 1];
    }
  }

  /** The items one letter contributes are those of its pages, in order. */
  lemma {:induction false} LetterCrawlGathers(fetch: Oracle, category: int, letter: char, page: int, bound: nat)
    requires 1 <= page <= bound + 1 && PagesBounded(fetch, category, bound)
    ensures var c := LetterCrawl(fetch, category, letter, page, bound);
            c.items == Gathered(fetch, c.requests)
    decreases bound + 1 - page
  {
    var request := Listing(category, letter, page);
    assert [request][1..] == [];
    if PageStep(fetch(request)).Extend? {
      WithinBound(fetch, category, letter, page, bound);
      LetterCrawlGathers(fetch, category, letter, page + 1, bound);
      var next := LetterCrawl(fetch, category, letter, page + 1, bound);
      GatheredAppend(fetch, [request], next.requests);
    }
  }

  /** A letter whose first page is empty contributes nothing, and only its
      first page is requested. */
  lemma EmptyFirstPage(fetch: Oracle, category: int, letter: char, bound: nat)
    requires PagesBounded(fetch, category, bound)
    requires PageStep(fetch(Listing(category, letter, 1))) == Stop
    ensures LetterCrawl(fetch, category, letter, 1, bound) == Crawled([], [Listing(category, letter, 1)], None)
  {
  }

  /** The list the crawl builds is the plain concatenation of the items of
      every page that had some, in the order the pages were requested. */
  lemma {:induction false} CrawlGathers(fetch: Oracle, category: int, letters: string, bound: nat)
    requires PagesBounded(fetch, category, bound)
    ensures var c := CrawlLetters(fetch, category, letters, bound);
            c.items == Gathered(fetch, c.requests)
  {
    if letters != [] {
      LetterCrawlGathers(fetch, category, letters[0], 1, bound);
      CrawlGathers(fetch, category, letters[1..], bound);
      var first := LetterCrawl(fetch, category, letters[0], 1, bound);
      var rest := CrawlLetters(fetch, category, letters[1..], bound);
      if first.error.None? {
        GatheredAppend(fetch, first.requests, rest.requests);
      }
    }
  }

  /** Listing requests ordered by letter, then by page. */
  predicate Precedes(a: Request, b: Request) {
    a.Listing? && b.Listing? &&
    (a.letter < b.letter || (a.letter == b.letter && a.page < b.page))
  }

  predicate StrictlySorted(letters: string) {
    forall i, j :: 0 <= i < j < |letters| ==> letters[i] < letters[j]
  }

  predicate Increasing(rs: seq<Request>) {
    forall i, j :: 0 <= i < j < |rs| ==> Precedes(rs[i], rs[j])
  }

  lemma IncreasingAppend(a: seq<Request>, b: seq<Request>)
    requires Increasing(a) && Increasing(b)
    requires forall x, y :: x in a && y in b ==> Precedes(x, y)
    ensures Increasing(a + b)
  {
    var rs := a + b;
    forall i, j | 0 <= i < j < |rs| ensures Precedes(rs[i], rs[j]) {
      if j < |a| {
        assert rs[i] == a[i] && rs[j] == a[j];
      } else if i < |a| {
        assert rs[i] in a && rs[j] == b[j - |a|] && rs[j] in b;
      } else {
        assert rs[i] == b[i - |a|] && rs[j] == b[j - |a|];
      }
    }
  }

  /** Every request of the crawl is a listing of the category, for one of
      the letters, at a page from 1 on. */
  lemma {:induction false} CrawlRequestsAreListings(fetch: Oracle, category: int, letters: string, bound: nat)
    requires PagesBounded(fetch, category, bound)
    ensures forall r :: r in CrawlLetters(fetch, category, letters, bound).requests ==>
              r.Listing? && r.category == category && r.letter in letters && r.page >= 1
  {
    if letters != [] {
      LetterCrawlPages(fetch, category, letters[0], 1, bound);
      CrawlRequestsAreListings(fetch, category, letters[1..], bound);
      var first := LetterCrawl(fetch, category, letters[0], 1, bound).requests;
      assert forall r :: r in first ==> exists k :: 0 <= k < |first| && first[k] == r;
      assert forall l :: l in letters[1..] ==> l in letters;
    }
  }

  /** Over letters in alphabetical order, the requests go letter by letter
      and, within a letter, page by page: no page is requested twice. */
  lemma {:induction false} CrawlRequestsIncrease(fetch: Oracle, category: int, letters: string, bound: nat)
    requires PagesBounded(fetch, category, bound)
    requires StrictlySorted(letters)
    ensures Increasing(CrawlLetters(fetch, category, letters, bound).requests)
  {
    if letters != [] {
      LetterCrawlPages(fetch, category, letters[0], 1, bound);
      CrawlRequestsIncrease(fetch, category, letters[1..], bound);
      CrawlRequestsAreListings(fetch, category, letters[1..], bound);
      var first := LetterCrawl(fetch, category, letters[0], 1, bound).requests;
      var rest := CrawlLetters(fetch, category, letters[1..], bound).requests;
      assert forall r :: r in rest ==> letters[0] < r.letter by {
        forall r | r in rest ensures letters[0] < r.letter {
          var j :| 0 <= j < |letters[1..]| && letters[1..][j] == r.letter;
          assert letters[j + 1] == r.letter;
        }
      }
      assert Increasing(first);
      assert forall r :: r in first ==> r.Listing? && r.letter == letters[0] by {
        forall r | r in first ensures r.Listing? && r.letter == letters[0] {
          var k :| 0 <= k < |first| && first[k] == r;
        }
      }
      if LetterCrawl(fetch, category, letters[0], 1, bound).error.None? {
        IncreasingAppend(first, rest);
      }
    }
  }

  /** When no page raised, page 1 of every letter was requested. */
  lemma {:induction false} EveryLetterVisited(fetch: Oracle, category: int, letters: string, bound: nat)
    requires PagesBounded(fetch, category, bound)
    requires CrawlLetters(fetch, category, letters, bound).error.None?
    ensures forall l :: l in letters ==> Listing(category, l, 1) in CrawlLetters(fetch, category, letters, bound).requests
  {
    if letters != [] {
      LetterCrawlPages(fetch, category, letters[0], 1, bound);
      var first := LetterCrawl(fetch, category, letters[0], 1, bound);
      assert first.error.None?;
      EveryLetterVisited(fetch, category, letters[1..], bound);
      assert first.requests[0] == Listing(category, letters[0], 1);
      assert forall l :: l in letters ==> l == letters[0] || l in letters[1..];
    }
  }

  lemma LettersSorted()
    ensures StrictlySorted(LETTERS)
  {
    assert LETTERS == seq(26, i requires 0 <= i < 26 => (('a' as int) + i) as char);
  }
}
