/** One run of the script after the configuration is built: scrape, save,
    summarise. Timing, logging and console output are not modelled. */
module Pipeline {
  import opened Wrappers
  import opened Exceptions
  import opened Books
  import opened ScraperConfig
  import opened Extraction
  import opened Scraping
  import opened CsvRows
  import opened Summary

  /** What a completed run leaves behind. */
  datatype RunOutput = RunOutput(books: seq<Book>, counter: nat, csv: CsvOutcome, report: Report)

  /** `main` with the summary's empty case handled: the run raises only
      when an extraction raises or a record without rating reaches the CSV
      writer. */
  function Run(config: Config, parse: PriceParser, fetch: Fetcher): (r: Result<RunOutput, Exception>)
    ensures r.Success? ==>
              && ScrapePages(parse, fetch, config.npages, config.bookCounter) == Success(Scraped(r.value.books, r.value.counter))
              && SaveToCsv(r.value.books) == Success(r.value.csv)
              && r.value.report.total == |r.value.books|
              && r.value.counter == config.bookCounter + |r.value.books|
              && r.value.report == Analyze(r.value.books)
    ensures r.Failure? <==>
              || ScrapePages(parse, fetch, config.npages, config.bookCounter).Failure?
              || SaveToCsv(ScrapePages(parse, fetch, config.npages, config.bookCounter).value.books).Failure?
    ensures r.Failure? ==>
              r.error == if ScrapePages(parse, fetch, config.npages, config.bookCounter).Failure?
                         then ScrapePages(parse, fetch, config.npages, config.bookCounter).error
                         else NoRatingValue
  {
    ScrapeKeepsCountAndValidity(parse, fetch, config.npages, config.bookCounter);
    var scraped :- ScrapePages(parse, fetch, config.npages, config.bookCounter);
    var csv :- SaveToCsv(scraped.books);
    Success(RunOutput(scraped.books, scraped.counter, csv, Analyze(scraped.books)))
  }

  /** `main` as written, with the unguarded reductions of the summary: it
      raises whenever the corrected run raises, with the same exception, and
      also when that run completes with no records. */
  function RunAsWritten(config: Config, parse: PriceParser, fetch: Fetcher): (r: Result<RunOutput, Exception>)
    ensures r.Success? ==> Run(config, parse, fetch) == r
    ensures r.Failure? <==> Run(config, parse, fetch).Failure? || Run(config, parse, fetch).value.books == []
    ensures Run(config, parse, fetch).Failure? ==> r == Failure(Run(config, parse, fetch).error)
    ensures Run(config, parse, fetch).Success? && Run(config, parse, fetch).value.books == [] ==>
              r == Failure(TypeError(EmptyReduceMessage))
  {
    var scraped :- ScrapePages(parse, fetch, config.npages, config.bookCounter);
    var csv :- SaveToCsv(scraped.books);
    var report :- AnalyzeAsWritten(scraped.books);
    Success(RunOutput(scraped.books, scraped.counter, csv, report))
  }

  /** When no page can be fetched the script as written still raises, in
      the summary, after reporting that there was nothing to save. */
  lemma AllPagesFailedRaisesAsWritten(config: Config, parse: PriceParser, fetch: Fetcher)
    requires forall p :: 1 <= p <= config.npages ==> fetch(p).None?
    ensures RunAsWritten(config, parse, fetch) == Failure(TypeError(EmptyReduceMessage))
  {
    AllPagesFailed(parse, fetch, config.npages, config.bookCounter);
  }

  /** With the summary corrected, a run in which every request fails
      completes: nothing is saved and the summary counts zero books with no
      price range. */
  lemma AllPagesFailedCompletes(config: Config, parse: PriceParser, fetch: Fetcher)
    requires forall p :: 1 <= p <= config.npages ==> fetch(p).None?
    ensures Run(config, parse, fetch).Success?
    ensures Run(config, parse, fetch).value.csv == NothingToSave
    ensures Run(config, parse, fetch).value.report == Report(0, 0.0, None, None)
  {
    AllPagesFailed(parse, fetch, config.npages, config.bookCounter);
  }

  /** An item that becomes a record with a known rating. */
  predicate WellFormed(parse: PriceParser, item: Item) {
    var s := Extract(parse, 0, item);
    s.outcome.Keep? && s.outcome.book.rating.Some?
  }

  /** When every fetched item is well formed, the run keeps one record per
      item, the CSV holds a header and one line per item, and the summary
      counts them all. */
  lemma WellFormedRun(config: Config, parse: PriceParser, fetch: Fetcher)
    requires forall i :: 0 <= i < |FetchedItems(fetch, config.npages)| ==>
               WellFormed(parse, FetchedItems(fetch, config.npages)[i])
    requires |FetchedItems(fetch, config.npages)| > 0
    ensures Run(config, parse, fetch).Success?
    ensures LineCount(Run(config, parse, fetch).value.csv) == |FetchedItems(fetch, config.npages)| + 1
    ensures Run(config, parse, fetch).value.report.total == |FetchedItems(fetch, config.npages)|
  {
    var items := FetchedItems(fetch, config.npages);
    ScrapeOfWellFormedPages(parse, fetch, config.npages, config.bookCounter);
    var books := ScrapePages(parse, fetch, config.npages, config.bookCounter).value.books;
    assert forall i :: 0 <= i < |books| ==> books[i].rating.Some?;
    SavedLineCount(books);
  }
}
