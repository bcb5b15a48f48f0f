/** The page loop: pages 1..N are requested in order, a page that cannot be
    fetched is passed over, and the records of every fetched page are
    appended in item order with skipped items dropped. An exception from an
    extraction escapes and ends the loop. Fetching is a parameter: it maps
    a page number to the page's items, or `None` when the request fails. */
module Scraping {
  import opened Wrappers
  import opened Exceptions
  import opened Text
  import opened Books
  import opened Extraction
  import opened ScraperConfig

  type Fetcher = int -> Option<seq<Item>>

  /** The records gathered so far and the progress counter after them. */
  datatype Scraped = Scraped(books: seq<Book>, counter: nat)

  /** The address requested for a page. */
  function PageUrl(page: int): string {
    BaseUrl + "/page-" + IntToString(page) + ".html"
  }

  /** Distinct pages are requested at distinct addresses. */
  lemma PageUrlInjective(p: int, q: int)
    requires PageUrl(p) == PageUrl(q)
    ensures p == q
  {
    var prefix := BaseUrl + "/page-";
    var a := IntToString(p);
    var b := IntToString(q);
    assert PageUrl(p) == prefix + a + ".html";
    assert a == PageUrl(p)[|prefix|..|PageUrl(p)| - 5];
    assert b == PageUrl(q)[|prefix|..|PageUrl(q)| - 5];
    IntToStringInjective(p, q);
  }

  /** No item of the sequence makes the extractor raise. */
  predicate NoRaise(parse: PriceParser, items: seq<Item>) {
    forall i :: 0 <= i < |items| ==> !Extract(parse, 0, items[i]).outcome.Raise?
  }

  /** `e` is the exception of the first item that raises: every item before
      position i extracts without raising, and item i raises `e`. */
  ghost predicate FirstRaise(parse: PriceParser, items: seq<Item>, e: Exception) {
    exists i :: FirstRaiseAt(parse, items, i, e)
  }

  /** Item i is the first to raise, and it raises `e`. */
  predicate FirstRaiseAt(parse: PriceParser, items: seq<Item>, i: int, e: Exception) {
    0 <= i < |items| && NoRaise(parse, items[..i]) && Extract(parse, 0, items[i]).outcome == Raise(e)
  }

  /** A raising first item is the first to raise. */
  lemma FirstRaiseHead(parse: PriceParser, items: seq<Item>, e: Exception)
    requires items != [] && Extract(parse, 0, items[0]).outcome == Raise(e)
    ensures FirstRaise(parse, items, e)
  {
    assert NoRaise(parse, items[..0]);
    assert FirstRaiseAt(parse, items, 0, e);
  }

  /** A first item that does not raise leaves the first raising item of the
      rest the first overall. */
  lemma FirstRaiseCons(parse: PriceParser, items: seq<Item>, r: Result<Scraped, Exception>)
    requires items != [] && !Extract(parse, 0, items[0]).outcome.Raise?
    ensures r.Failure? && FirstRaise(parse, items[1..], r.error) ==> FirstRaise(parse, items, r.error)
  {
    if r.Failure? && FirstRaise(parse, items[1..], r.error) {
      var rest := items[1..];
      var i :| FirstRaiseAt(parse, rest, i, r.error);
      assert items[i + 1] == rest[i];
      var pre := items[..i + 1];
      var restPre := rest[..i];
      forall k | 0 <= k < |pre|
        ensures !Extract(parse, 0, pre[k]).outcome.Raise?
      {
        if k > 0 {
          assert pre[k] == restPre[k - 1];
        }
      }
      assert NoRaise(parse, pre);
      assert FirstRaiseAt(parse, items, i + 1, r.error);
    }
  }

  /** Prefixes `books` to a successful result; a failure passes through. */
  function Prepend(books: seq<Book>, r: Result<Scraped, Exception>): Result<Scraped, Exception> {
    match r
    case Success(s) => Success(Scraped(books + s.books, s.counter))
    case Failure(e) => Failure(e)
  }

  /** The records the items yield, in item order: a kept item contributes its
      record, and a skipped or raising item contributes nothing. */
  function Kept(parse: PriceParser, items: seq<Item>): seq<Book>
    decreases |items|
  {
    if items == [] then [] else KeptOf(parse, items[0]) + Kept(parse, items[1..])
  }

  /** The record one item yields, if it is kept. */
  function KeptOf(parse: PriceParser, item: Item): seq<Book> {
    var o := Extract(parse, 0, item).outcome;
    if o.Keep? then [o.book] else []
  }

  /** `list(filter(None, map(extract_book_info, items)))`: extraction runs
      item by item, `None` results are dropped, and the first exception
      escapes. It succeeds exactly when no item raises, and then holds at
      most one valid record per item with the counter advanced once per
      record. */
  function ExtractAll(parse: PriceParser, counter: nat, items: seq<Item>): (r: Result<Scraped, Exception>)
    ensures r.Success? <==> NoRaise(parse, items)
    ensures r.Success? ==> |r.value.books| <= |items|
    ensures r.Success? ==> r.value.counter == counter + |r.value.books|
    ensures r.Success? ==> forall b :: b in r.value.books ==> Valid(b)
    ensures r.Success? ==> r.value.books == Kept(parse, items)
    ensures r.Failure? ==> FirstRaise(parse, items, r.error)
    decreases |items|
  {
    if items == [] then Success(Scraped([], counter))
    else
      var step := Extract(parse, counter, items[0]);
      OutcomeIgnoresCounter(parse, counter, 0, items[0]);
      assert forall i :: 1 <= i < |items| ==> items[1..][i - 1] == items[i];
      match step.outcome
      case Raise(e) =>
        FirstRaiseHead(parse, items, e);
        Failure(e)
      case Skip =>
        var rest := ExtractAll(parse, step.counter, items[1..]);
        FirstRaiseCons(parse, items, rest);
        rest
      case Keep(b) =>
        var rest := ExtractAll(parse, step.counter, items[1..]);
        FirstRaiseCons(parse, items, rest);
        Prepend([b], rest)
  }

  lemma PrependEmpty(r: Result<Scraped, Exception>)
    ensures Prepend([], r) == r
  {
    if r.Success? {
      assert [] + r.value.books == r.value.books;
    }
  }

  lemma PrependTwice(a: seq<Book>, b: seq<Book>, r: Result<Scraped, Exception>)
    ensures Prepend(a, Prepend(b, r)) == Prepend(a + b, r)
  {
    if r.Success? {
      assert a + (b + r.value.books) == (a + b) + r.value.books;
    }
  }

  /** Continues a partial extraction with more items. */
  function ContinueWith(parse: PriceParser, r: Result<Scraped, Exception>, ys: seq<Item>): Result<Scraped, Exception> {
    match r
    case Failure(e) => Failure(e)
    case Success(s) => Prepend(s.books, ExtractAll(parse, s.counter, ys))
  }

  /** Extraction distributes over concatenation of item sequences. */
  lemma {:induction false} ExtractAllAppend(parse: PriceParser, counter: nat, xs: seq<Item>, ys: seq<Item>)
    ensures ExtractAll(parse, counter, xs + ys) == ContinueWith(parse, ExtractAll(parse, counter, xs), ys)
    decreases |xs|
  {
    if xs == [] {
      assert xs + ys == ys;
      PrependEmpty(ExtractAll(parse, counter, ys));
    } else {
      var step := Extract(parse, counter, xs[0]);
      assert (xs + ys)[0] == xs[0];
      assert (xs + ys)[1..] == xs[1..] + ys;
      ExtractAllAppend(parse, step.counter, xs[1..], ys);
      var rest := ExtractAll(parse, step.counter, xs[1..]);
      match step.outcome {
        case Raise(e) =>
        case Skip =>
        case Keep(b) =>
          if rest.Success? {
            PrependTwice([b], rest.value.books, ExtractAll(parse, rest.value.counter, ys));
          }
      }
    }
  }

  /** The kept records of two item sequences, back to back. */
  lemma {:induction false} KeptAppend(parse: PriceParser, xs: seq<Item>, ys: seq<Item>)
    ensures Kept(parse, xs + ys) == Kept(parse, xs) + Kept(parse, ys)
    decreases |xs|
  {
    if xs == [] {
      assert xs + ys == ys;
    } else {
      var rest := xs[1..] + ys;
      assert xs + ys == [xs[0]] + rest;
      KeptCons(parse, xs[0], rest);
      KeptAppend(parse, xs[1..], ys);
      var head := KeptOf(parse, xs[0]);
      assert head + (Kept(parse, xs[1..]) + Kept(parse, ys)) == (head + Kept(parse, xs[1..])) + Kept(parse, ys);
    }
  }

  /** Unfolds `Kept` once on a sequence with a known first item. */
  lemma KeptCons(parse: PriceParser, x: Item, rest: seq<Item>)
    ensures Kept(parse, [x] + rest) == KeptOf(parse, x) + Kept(parse, rest)
  {
    assert ([x] + rest)[0] == x;
    assert ([x] + rest)[1..] == rest;
  }

  /** A record is kept exactly when some item yields it. */
  lemma {:induction false} KeptMembers(parse: PriceParser, items: seq<Item>, b: Book)
    ensures b in Kept(parse, items) <==>
              exists i :: 0 <= i < |items| && Extract(parse, 0, items[i]).outcome == Keep(b)
    decreases |items|
  {
    if items != [] {
      var rest := items[1..];
      KeptMembers(parse, rest, b);
      if exists i :: 0 <= i < |rest| && Extract(parse, 0, rest[i]).outcome == Keep(b) {
        var i :| 0 <= i < |rest| && Extract(parse, 0, rest[i]).outcome == Keep(b);
        assert items[i + 1] == rest[i];
      }
      if exists i :: 0 <= i < |items| && Extract(parse, 0, items[i]).outcome == Keep(b) {
        var i :| 0 <= i < |items| && Extract(parse, 0, items[i]).outcome == Keep(b);
        if i > 0 {
          assert rest[i - 1] == items[i];
        }
      }
    }
  }

  /** A skipped item leaves no trace: extracting the items with it removed
      gives the same result, records and counter alike. */
  lemma ExtractAllDropsSkip(parse: PriceParser, counter: nat, items: seq<Item>, i: nat)
    requires i < |items|
    requires Extract(parse, 0, items[i]).outcome.Skip?
    ensures ExtractAll(parse, counter, items) == ExtractAll(parse, counter, items[..i] + items[i + 1..])
  {
    var pre := items[..i];
    var post := items[i + 1..];
    assert items == pre + ([items[i]] + post);
    ExtractAllAppend(parse, counter, pre, [items[i]] + post);
    ExtractAllAppend(parse, counter, pre, post);
    match ExtractAll(parse, counter, pre) {
      case Failure(e) =>
      case Success(s) =>
        OutcomeIgnoresCounter(parse, s.counter, 0, items[i]);
        assert ([items[i]] + post)[0] == items[i];
        assert ([items[i]] + post)[1..] == post;
    }
  }

  /** When every item yields a record, the records are the items' records
      in item order, one per item. */
  lemma {:induction false} ExtractAllKeepsAll(parse: PriceParser, counter: nat, items: seq<Item>)
    requires forall i :: 0 <= i < |items| ==> Extract(parse, 0, items[i]).outcome.Keep?
    ensures ExtractAll(parse, counter, items).Success?
    ensures |ExtractAll(parse, counter, items).value.books| == |items|
    ensures forall i :: 0 <= i < |items| ==>
              ExtractAll(parse, counter, items).value.books[i] == Extract(parse, 0, items[i]).outcome.book
    decreases |items|
  {
    if items != [] {
      var step := Extract(parse, counter, items[0]);
      OutcomeIgnoresCounter(parse, counter, 0, items[0]);
      assert forall i :: 1 <= i < |items| ==> items[1..][i - 1] == items[i];
      ExtractAllKeepsAll(parse, step.counter, items[1..]);
    }
  }

  /** The items of the fetched pages among 1..n, concatenated in page
      order; a page whose request fails adds nothing. */
  function FetchedItems(fetch: Fetcher, n: int): seq<Item>
    decreases n
  {
    if n <= 0 then []
    else FetchedItems(fetch, n - 1) + (match fetch(n) case None => [] case Some(items) => items)
  }

  /** `scrape_books(n, session)`, page by page: the result after page n is
      the result after page n - 1 followed by page n's records. */
  function ScrapePages(parse: PriceParser, fetch: Fetcher, n: int, counter: nat): Result<Scraped, Exception>
    decreases n
  {
    if n <= 0 then Success(Scraped([], counter))
    else
      match ScrapePages(parse, fetch, n - 1, counter)
      case Failure(e) => Failure(e)
      case Success(prev) =>
        match fetch(n)
        case None => Success(prev)
        case Some(items) => Prepend(prev.books, ExtractAll(parse, prev.counter, items))
  }

  /** The whole scrape is one extraction run over the fetched pages' items
      in page order: failed pages contribute nothing, and records keep the
      order of pages and, within a page, of items. */
  lemma {:induction false} ScrapeIsExtractionOfFetchedItems(parse: PriceParser, fetch: Fetcher, n: int, counter: nat)
    ensures ScrapePages(parse, fetch, n, counter) == ExtractAll(parse, counter, FetchedItems(fetch, n))
    decreases n
  {
    if n > 0 {
      ScrapeIsExtractionOfFetchedItems(parse, fetch, n - 1, counter);
      var page := match fetch(n) case None => [] case Some(items) => items;
      ExtractAllAppend(parse, counter, FetchedItems(fetch, n - 1), page);
      match ExtractAll(parse, counter, FetchedItems(fetch, n - 1)) {
        case Failure(e) =>
        case Success(prev) =>
          if fetch(n).None? {
            assert ExtractAll(parse, prev.counter, page) == Success(Scraped([], prev.counter));
            assert prev.books + [] == prev.books;
          }
      }
    }
  }

  /** One more page, given the result after the pages before it. */
  lemma ScrapeNextPage(parse: PriceParser, fetch: Fetcher, page: int, counter: nat, books: seq<Book>, c: nat)
    requires page >= 1
    requires ScrapePages(parse, fetch, page - 1, counter) == Success(Scraped(books, c))
    ensures fetch(page).None? ==> ScrapePages(parse, fetch, page, counter) == Success(Scraped(books, c))
    ensures fetch(page).Some? ==>
              ScrapePages(parse, fetch, page, counter) == Prepend(books, ExtractAll(parse, c, fetch(page).value))
  {
  }

  /** Once an exception escapes, later pages change nothing: the run has
      ended. */
  lemma {:induction false} FailureEndsScrape(parse: PriceParser, fetch: Fetcher, m: int, n: int, counter: nat)
    requires m <= n
    requires ScrapePages(parse, fetch, m, counter).Failure?
    ensures ScrapePages(parse, fetch, n, counter) == ScrapePages(parse, fetch, m, counter)
    decreases n - m
  {
    if m < n {
      FailureEndsScrape(parse, fetch, m, n - 1, counter);
    }
  }

  /** A successful scrape yields valid records only, and the counter has
      moved once per record. */
  lemma ScrapeKeepsCountAndValidity(parse: PriceParser, fetch: Fetcher, n: int, counter: nat)
    ensures ScrapePages(parse, fetch, n, counter).Success? <==> NoRaise(parse, FetchedItems(fetch, n))
    ensures ScrapePages(parse, fetch, n, counter).Success? ==>
              && ScrapePages(parse, fetch, n, counter).value.counter == counter + |ScrapePages(parse, fetch, n, counter).value.books|
              && |ScrapePages(parse, fetch, n, counter).value.books| <= |FetchedItems(fetch, n)|
              && (forall b :: b in ScrapePages(parse, fetch, n, counter).value.books ==> Valid(b))
              && ScrapePages(parse, fetch, n, counter).value.books == Kept(parse, FetchedItems(fetch, n))
    ensures ScrapePages(parse, fetch, n, counter).Failure? ==>
              FirstRaise(parse, FetchedItems(fetch, n), ScrapePages(parse, fetch, n, counter).error)
  {
    ScrapeIsExtractionOfFetchedItems(parse, fetch, n, counter);
  }

  /** When every request fails the scrape still completes, with no
      records. */
  lemma AllPagesFailed(parse: PriceParser, fetch: Fetcher, n: int, counter: nat)
    requires forall p :: 1 <= p <= n ==> fetch(p).None?
    ensures ScrapePages(parse, fetch, n, counter) == Success(Scraped([], counter))
  {
    AllPagesFailedNoItems(fetch, n);
    ScrapeIsExtractionOfFetchedItems(parse, fetch, n, counter);
  }

  lemma {:induction false} AllPagesFailedNoItems(fetch: Fetcher, n: int)
    requires forall p :: 1 <= p <= n ==> fetch(p).None?
    ensures FetchedItems(fetch, n) == []
    decreases n
  {
    if n > 0 {
      AllPagesFailedNoItems(fetch, n - 1);
    }
  }

  /** When every fetched item yields a record, the scrape returns exactly
      one record per fetched item, in order. */
  lemma ScrapeOfWellFormedPages(parse: PriceParser, fetch: Fetcher, n: int, counter: nat)
    requires forall i :: 0 <= i < |FetchedItems(fetch, n)| ==> Extract(parse, 0, FetchedItems(fetch, n)[i]).outcome.Keep?
    ensures ScrapePages(parse, fetch, n, counter).Success?
    ensures |ScrapePages(parse, fetch, n, counter).value.books| == |FetchedItems(fetch, n)|
    ensures forall i :: 0 <= i < |FetchedItems(fetch, n)| ==>
              ScrapePages(parse, fetch, n, counter).value.books[i] == Extract(parse, 0, FetchedItems(fetch, n)[i]).outcome.book
  {
    ScrapeIsExtractionOfFetchedItems(parse, fetch, n, counter);
    ExtractAllKeepsAll(parse, counter, FetchedItems(fetch, n));
  }

  /** The records of one fetched page, computed item by item. */
  method ExtractPage(parse: PriceParser, counter: nat, items: seq<Item>) returns (r: Result<Scraped, Exception>)
    ensures r == ExtractAll(parse, counter, items)
  {
    var books: seq<Book> := [];
    var c := counter;
    var j := 0;
    assert items[j..] == items;
    PrependEmpty(ExtractAll(parse, c, items));
    while j < |items|
      invariant 0 <= j <= |items|
      invariant ExtractAll(parse, counter, items) == Prepend(books, ExtractAll(parse, c, items[j..]))
      decreases |items| - j
    {
      var step := Extract(parse, c, items[j]);
      assert items[j..][1..] == items[j + 1..];
      match step.outcome {
        case Raise(e) =>
          return Failure(e);
        case Skip =>
        case Keep(b) =>
          PrependTwice(books, [b], ExtractAll(parse, step.counter, items[j + 1..]));
          books := books + [b];
      }
      c := step.counter;
      j := j + 1;
    }
    assert ExtractAll(parse, c, items[j..]) == Success(Scraped([], c));
    r := Success(Scraped(books, c));
    assert books + [] == books;
  }

  /** One pass of the loop body: fetch the page and, when that succeeds,
      append its records. */
  method VisitPage(parse: PriceParser, fetch: Fetcher, page: int, counter: nat, books: seq<Book>, c: nat)
    returns (r: Result<Scraped, Exception>)
    requires page >= 1
    requires ScrapePages(parse, fetch, page - 1, counter) == Success(Scraped(books, c))
    ensures r == ScrapePages(parse, fetch, page, counter)
  {
    ScrapeNextPage(parse, fetch, page, counter, books, c);
    match fetch(page) {
      case None =>
        r := Success(Scraped(books, c));
      case Some(items) =>
        var pageResult := ExtractPage(parse, c, items);
        r := Prepend(books, pageResult);
    }
  }

  /** `scrape_books` as a loop over pages 1..numPages, returning what the
      page-by-page definition returns. A failed request does not stop the
      loop; only an exception does, after the page that raised. The page
      order of the fetches themselves is fixed by the recursion of
      `ScrapePages` and `FetchedItems`; `requested` is the loop's own record
      of the page numbers it visited, which `fetch` does not see. */
  method ScrapeBooks(parse: PriceParser, fetch: Fetcher, numPages: int, counter: nat)
    returns (r: Result<Scraped, Exception>, requested: seq<int>)
    ensures r == ScrapePages(parse, fetch, numPages, counter)
    ensures forall i :: 0 <= i < |requested| ==> requested[i] == i + 1
    ensures r.Success? ==> |requested| == if numPages < 0 then 0 else numPages
    ensures r.Failure? ==> 1 <= |requested| <= numPages
  {
    var books: seq<Book> := [];
    var c := counter;
    requested := [];
    var page := 1;
    while page <= numPages
      invariant if numPages < 0 then page == 1 else 1 <= page <= numPages + 1
      invariant ScrapePages(parse, fetch, page - 1, counter) == Success(Scraped(books, c))
      invariant |requested| == page - 1
      invariant forall i :: 0 <= i < |requested| ==> requested[i] == i + 1
      decreases numPages - page
    {
      requested := requested + [page];
      var result := VisitPage(parse, fetch, page, counter, books, c);
      match result {
        case Failure(e) =>
          FailureEndsScrape(parse, fetch, page, numPages, counter);
          return Failure(e), requested;
        case Success(s) =>
          books := s.books;
          c := s.counter;
      }
      page := page + 1;
    }
    r := Success(Scraped(books, c));
  }
}
