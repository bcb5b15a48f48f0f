# Book scraper decision logic, modelled in Dafny

The scraper fetches catalogue pages 1..N of a book-listing site. From each
listing fragment it extracts a title, a price, a stock flag and a star
rating. It keeps the records in page and item order, writes them as CSV
rows under a fixed header, and prints a summary: the count, the average
price, and the cheapest and dearest book. This project models the pure
decisions of that pipeline as Dafny functions over immutable datatypes,
and proves what each decision promises.

| file | module | models |
|---|---|---|
| `wrappers.dfy` | `Wrappers` | `Option` (Python's `None`) and `Result` (may raise) |
| `exceptions.dfy` | `Exceptions` | the Python exceptions that can escape |
| `text.dfy` | `Text` | `str.strip`, `str.endswith`, `s[k:]`, `str(int)` |
| `ratings.dfy` | `Ratings` | `Rating`, its label table and star rendering |
| `books.dfy` | `Books` | `Book` and its negative-price check |
| `config.dfy` | `ScraperConfig` | `ScraperConfig` validation, the counter, the spinner glyph |
| `extraction.dfy` | `Extraction` | `extract_book_info` on an abstract listing fragment |
| `scraping.dfy` | `Scraping` | the page loop of `scrape_books` |
| `csv_rows.dfy` | `CsvRows` | header and row shaping of `save_to_csv` |
| `summary.dfy` | `Summary` | `safe_average` and the reductions of `book_analysis` |
| `pipeline.dfy` | `Pipeline` | `main`: scrape, save, summarise |

How the model treats the external pieces:

- A listing fragment is an `Item` with four optional parts: the image with
  an optional `alt`, the price text, the stock text, and the class list of
  the rating element.
- Fetching is a parameter `fetch: int -> Option<seq<Item>>`. It gives the
  items of a page, or `None` when the request fails.
- Python's `float` on the price string is a parameter
  `parse: string -> Option<real>`. `None` means `float` raised
  `ValueError`.
- An exception that escapes is a `Failure` carrying the Python exception.
  Nothing in the script catches these except the price parse, so one
  escaping exception ends the run.

Behaviour the model makes explicit:

- When an item has no rating element, `rating` is never bound. Building
  the record then raises `UnboundLocalError`. The model returns that
  exception; it does not produce a record with an undefined rating.
- A price that parses to a negative number is not skipped. The record
  constructor raises `ValueError` outside the `try`, so the run ends.
- An image without `alt` raises `KeyError`. A rating element with fewer
  than two classes raises `IndexError`.
- An unknown rating label is stored as `None` without complaint. Writing
  that record to CSV later raises `AttributeError`.
- A missing price element becomes the string `"0.00"`, which still goes
  through `float`. The model keeps this step. The lemma about a missing
  price assumes the parser reads `"0.00"` as zero, as `float` does.
- The code always drops the first two characters of the price text. On
  the site's pages the sign decodes as the two characters `Â£`, so this
  works there. A one-character `£` would also cut off the first digit
  (`TwoCharactersCut`), so "£12.34" would read as 2.34, not 12.34. The
  model follows the code.
- The progress counter advances at line 188, after the price has parsed
  and before the record is built. So it advances for every kept record,
  and also for an item that then raises `UnboundLocalError` (no rating
  element) or the record's negative-price `ValueError`. It does not
  advance for a skipped item, for a missing `alt`, or for a rating element
  with fewer than two classes. The counter never affects the outcome.
- The configuration's CSV and log messages are plain strings, so the
  constructor raises them with the braces verbatim (`NewConfig`). The
  intended, interpolated messages are modelled separately
  (`NewConfigIntended`).

## Model

| member | source | states |
|---|---|---|
| `Ratings.FromString` | book_scraper.py:34-50 | returns a rating exactly for the five labels "One".."Five" and `None` for every other string; the label of a returned rating is the input |
| `Ratings.FromStringOfLabel` | book_scraper.py:40-49 | each of the five ratings is read back from its own label |
| `Ratings.FromStringValues` | book_scraper.py:40-49 | the k-th label of the table maps to the value k+1, so values are 1..5 in label order |
| `Ratings.FromValue` | book_scraper.py:28-32 | `Rating(v)` exists exactly for v in 1..5 and has value v |
| `Ratings.Stars` | book_scraper.py:52-56 | the star string has length 5; position i is a full star exactly when i < value, and an empty star otherwise |
| `Ratings.StarsShowValue` | book_scraper.py:56 | counting the full stars of the rendering gives back the rating's value |
| `Ratings.StarsInjective` | book_scraper.py:56 | different ratings render differently |
| `Books.NewBook` | book_scraper.py:58-70 | construction raises `ValueError` exactly when price < 0; otherwise every field is stored unchanged and the record is valid |
| `ScraperConfig.Validate` | book_scraper.py:87-95 | succeeds exactly when 0 < delay < 5, the CSV name ends in ".csv", the log name ends in ".log" and npages >= 0; otherwise it reports the first failing check in that order |
| `ScraperConfig.NewConfig` | book_scraper.py:72-95 | a config built from the three arguments gets the fixed 0.4 s delay and counter 0; it succeeds exactly when the names and page count pass; otherwise it raises `ValueError` with the as-written message of the first failing check: the literal `{self.csv_name}` / `{self.log_file}` text, or the interpolated page count |
| `ScraperConfig.MessageAsWritten` | book_scraper.py:88-95 | the four messages as the source spells them; the CSV and log ones keep their braces (its property is stated by `MessageAsWrittenDropsName`) |
| `ScraperConfig.NewConfigIntended` | book_scraper.py:88-95 | the constructor with interpolated messages accepts exactly what `NewConfig` accepts, with the same config, and a rejection names the offending CSV name, log name or page count |
| `ScraperConfig.RejectedNamesAsWrittenAndIntended` | book_scraper.py:90-93 | two configs rejected for different CSV names raise the same error as written, and different errors as intended |
| `ScraperConfig.NewConfigNeverRejectsDelay` | book_scraper.py:85-89 | the delay check cannot fire, because the delay is always the 0.4 default |
| `ScraperConfig.MessageAsWrittenDropsName` | book_scraper.py:90-93 | for any two names, the CSV message as written is the same, and so is the log message: neither depends on the rejected name |
| `ScraperConfig.Message` | book_scraper.py:88-95 | the corrected messages, each field interpolated as the f-string on line 95 does; what they promise, that distinct failures give distinct messages, is `MessageInjective` |
| `ScraperConfig.MessageInjective` | book_scraper.py:88-95 | distinct validation failures give distinct corrected messages |
| `ScraperConfig.IncrementCounter` | book_scraper.py:97-98 | the counter grows by one and no other setting changes; validity is kept |
| `ScraperConfig.Glyph` | book_scraper.py:152-154 | the spinner glyph is one of `| / ― \` and equals the glyph at counter mod 4 |
| `ScraperConfig.GlyphPeriod` | book_scraper.py:153-154 | the spinner repeats every four books |
| `Text.TrimStart` | book_scraper.py:179 | leading whitespace is cut: the result is a suffix, the cut part is all whitespace, and the result does not start with whitespace |
| `Text.TrimEnd` | book_scraper.py:179 | trailing whitespace is cut: the result is a prefix, the cut part is all whitespace, and the result does not end with whitespace |
| `Text.StripIsStripOf` | book_scraper.py:179 | `strip()` returns the infix of the text between whitespace-only padding, with no whitespace at either end |
| `Text.StripOfIsStrip` | book_scraper.py:179 | any infix described that way is exactly what `strip()` returns |
| `Text.Strip` | book_scraper.py:179 | `str.strip()` as leading then trailing whitespace removal; what it returns is characterised in both directions by `StripIsStripOf` / `StripOfIsStrip` |
| `Text.EndsWith` | book_scraper.py:90-93 | `str.endswith` as a comparison with the tail of the name (characterised by `EndsWithIffAppended`) |
| `Text.EndsWithIffAppended` | book_scraper.py:90-93 | `endswith(suffix)` holds exactly when the name is something followed by the suffix |
| `Text.DropFirst` | book_scraper.py:170 | `text[2:]` keeps all but the first two characters and is empty for shorter text |
| `Text.NatToStringRoundTrip` | book_scraper.py:197 | the decimal page number in a URL reads back to the page number |
| `Text.IntToStringInjective` | book_scraper.py:95 | distinct integers have distinct decimal forms |
| `Extraction.Title` | book_scraper.py:165-166 | raises `KeyError("alt")` exactly when the image is present without `alt`; the title otherwise comes from the `alt` text (`TitleFromAlt`) or is "Unknown" (`TitleFallback`) |
| `Extraction.PriceString` | book_scraper.py:169-170 | "0.00" when the price element is missing; otherwise the tail of the text with its first two characters cut, empty for shorter text |
| `Extraction.Price` | book_scraper.py:170-175 | an empty price string gives 0.0; the price is missing exactly when the string is non-empty and does not parse |
| `Extraction.Available` | book_scraper.py:177-181 | available only when the stock element exists (the exact condition is `AvailableIffPadded`) |
| `Extraction.Extract` | book_scraper.py:161-191 | skip exactly when the title is readable and the price does not parse; a record exactly when title, a non-negative price and a rating label are present; a record carries the item's title, parsed price, stock flag and looked-up label; the counter moves once per record and not for a skip; a raised exception is one of `KeyError("alt")`, `IndexError("list index out of range")`, `UnboundLocalError("rating")` or the negative-price `ValueError` |
| `Extraction.TitleFallback` | book_scraper.py:165-166 | an item without an image is titled "Unknown" |
| `Extraction.TitleFromAlt` | book_scraper.py:165-166 | an item whose image has `alt` text, once kept, is titled with exactly that text |
| `Extraction.MissingAltRaises` | book_scraper.py:165-166 | an image without `alt` raises `KeyError("alt")` before anything else is read, and the counter does not move |
| `Extraction.ShortClassListRaises` | book_scraper.py:183-185 | a rating element with fewer than two classes raises `IndexError("list index out of range")` before the counter moves |
| `Extraction.MissingPriceIsZero` | book_scraper.py:169-172 | a missing price element gives price 0.00 |
| `Extraction.ShortPriceIsZero` | book_scraper.py:170-172 | a price text of at most two characters gives 0.00 without calling the parser |
| `Extraction.PriceFromRemainder` | book_scraper.py:169-172 | otherwise the price is the parse of the text minus its first two characters |
| `Extraction.TwoCharactersCut` | book_scraper.py:170 | "Â£12.34" leaves "12.34", while "£12.34" leaves "2.34" |
| `Extraction.UnparseablePriceSkips` | book_scraper.py:171-175 | an unparseable remainder makes the item a skip, never a record with a default price, and leaves the counter alone |
| `Extraction.AvailableIffPadded` | book_scraper.py:177-181 | available exactly when the stock element is present and its text is "In stock" padded only by whitespace |
| `Extraction.MissingRatingRaises` | book_scraper.py:183-191 | with no rating element the extraction raises `UnboundLocalError("rating")` instead of returning a record, after the counter has moved |
| `Extraction.NegativePriceRaises` | book_scraper.py:169-191 | a negative parsed price raises the record's `ValueError("Price cannot be negative")` instead of being skipped, after the counter has moved |
| `Extraction.OutcomeIgnoresCounter` | book_scraper.py:152-191 | the progress counter does not influence what an item becomes |
| `Scraping.PageUrl` | book_scraper.py:197 | the requested address, base URL + "/page-" + number + ".html" (distinct pages get distinct addresses by `PageUrlInjective`) |
| `Scraping.PageUrlInjective` | book_scraper.py:196-197 | distinct page numbers are requested at distinct URLs |
| `Scraping.ExtractAll` | book_scraper.py:206-208 | extracting a page succeeds exactly when no item raises; the records are then exactly the kept items' records in item order (`Kept`), all valid, at most one per item, and the counter advanced once per record; a failure carries the exception of the first raising item, every earlier item extracting without raising (`FirstRaise`) |
| `Scraping.Kept` | book_scraper.py:208 | the reference for `filter(None, map(...))`: each item's record if it is kept, nothing for a skipped or raising item, in item order |
| `Scraping.KeptCons` | book_scraper.py:208 | the kept records of an item followed by a list are that item's record, if kept, before the list's kept records |
| `Scraping.KeptAppend` | book_scraper.py:208 | the kept records of two item lists back to back are the two lists' kept records concatenated |
| `Scraping.KeptMembers` | book_scraper.py:208 | a record is among the kept records exactly when some item yields it |
| `Scraping.ExtractAllDropsSkip` | book_scraper.py:206-208 | removing a skipped item from anywhere in the list changes neither the records nor the counter nor a failure |
| `Scraping.ExtractAllAppend` | book_scraper.py:208 | extracting two item lists back to back equals extracting their concatenation |
| `Scraping.ExtractAllKeepsAll` | book_scraper.py:208 | when every item yields a record, the page gives exactly those records in item order |
| `Scraping.ScrapePages` | book_scraper.py:193-212 | the loop page by page: a failed fetch keeps the previous result, a fetched page appends its extraction, an exception ends the run (stated by the lemmas below) |
| `Scraping.ScrapeIsExtractionOfFetchedItems` | book_scraper.py:193-212 | the scrape equals one extraction over the fetched pages' items in page order; failed pages contribute nothing |
| `Scraping.ScrapeKeepsCountAndValidity` | book_scraper.py:193-212 | the scrape succeeds exactly when no fetched item raises; then every record is valid, the records are the kept records of the fetched items in order, there are at most as many as items, and the counter grew once per record; a failure carries the exception of the first raising fetched item |
| `Scraping.AllPagesFailed` | book_scraper.py:196-203 | when every request fails the loop still completes, with no records |
| `Scraping.ScrapeOfWellFormedPages` | book_scraper.py:196-212 | when every fetched item yields a record, the scrape returns one record per item, in order |
| `Scraping.FailureEndsScrape` | book_scraper.py:196-212 | an escaping exception ends the run: later pages change nothing |
| `Scraping.ExtractPage` | book_scraper.py:206-208 | the item-by-item loop returns what `ExtractAll` defines |
| `Scraping.VisitPage` | book_scraper.py:197-210 | one loop pass extends the previous pages' result by this page's result |
| `Scraping.ScrapeBooks` | book_scraper.py:193-212 | pages 1..N are requested once each in increasing order, a failed page does not stop the loop, and the result is the page-by-page definition |
| `CsvRows.BookRow` | book_scraper.py:223-228 | a row has the four header columns; it exists exactly when the rating is present, and otherwise the write raises `AttributeError` |
| `CsvRows.RowRoundTrip` | book_scraper.py:223-228 | a row reads back to the record it was written from |
| `CsvRows.RowRatingInRange` | book_scraper.py:227 | the rating column holds an integer in 1..5 |
| `CsvRows.Rows` | book_scraper.py:222-228 | one row per record in order, each reading back to its record; it raises exactly when some record has no rating |
| `CsvRows.SaveToCsv` | book_scraper.py:214-228 | nothing is written exactly for an empty list; otherwise the header is Title, Price, Available, Rating and the rows match the records one to one |
| `CsvRows.SavedLineCount` | book_scraper.py:214-228 | a saved file has one header line plus one line per record |
| `Summary.Sum` | book_scraper.py:233 | Python's `sum`, left to right from 0 (bounded by `SumBounds`) |
| `Summary.SafeAverage` | book_scraper.py:232-233 | 0 for an empty list; otherwise the average times the length is the sum |
| `Summary.SumBounds` | book_scraper.py:233 | the sum of n values between lo and hi lies between n*lo and n*hi |
| `Summary.AverageBetweenBounds` | book_scraper.py:232-233 | the average of a non-empty list lies within any bounds of its values |
| `Summary.Prices` | book_scraper.py:246 | the `map` of the books to their prices, in order; what the summary derives from it is stated by `SafeAverage`, `AverageBetweenBounds` and `AverageBetweenExtremes` |
| `Summary.Pick` | book_scraper.py:249-250 | the two lambdas: the result is one of the two books and at least as extreme as both |
| `Summary.Fold` | book_scraper.py:249-250 | the left reduce over a non-empty list, the step applied from the first book on; what it returns is stated by `FoldIsFirstExtreme` and `FoldBounds` |
| `Summary.FoldIsFirstExtreme` | book_scraper.py:249-250 | the left fold returns the first book whose price is >= (for max) or <= (for min) every price in the list |
| `Summary.FirstExtremeUnique` | book_scraper.py:249-250 | only one position can be the first extreme, so the fold's choice is fully determined |
| `Summary.FoldBounds` | book_scraper.py:249-250 | the fold's choice is a book of the list at least as extreme as every book |
| `Summary.Reduce` | book_scraper.py:249-250 | reduce without an initial value raises `TypeError` exactly on an empty list and otherwise returns a book of the list |
| `Summary.AnalyzeAsWritten` | book_scraper.py:235-254 | the summary as written raises exactly when there are no books |
| `Summary.AnalyzeAsWrittenRaisesOnEmpty` | book_scraper.py:244-250 | the empty list raises `TypeError`, although its average is guarded to 0 |
| `Summary.Analyze` | book_scraper.py:235-254 | the corrected summary counts the books and averages their prices; it gives no range exactly for an empty list; it agrees with the code on non-empty lists; the average lies between the cheapest and dearest price |
| `Summary.AverageBetweenExtremes` | book_scraper.py:246-251 | the printed average lies between the prices of the cheapest and the dearest book |
| `Summary.AnalyzePicksFirstExtremes` | book_scraper.py:249-254 | the reported cheapest and dearest books are the first extreme books of the list |
| `Summary.TieGoesToFirst` | book_scraper.py:249-250 | for prices A 10, B 5, C 5 the dearest is A and the cheapest is B |
| `Pipeline.Run` | book_scraper.py:256-266 | a completed run holds the scrape's records, their CSV rows, and the corrected summary of those records (count, average, cheapest and dearest); the counter grew once per record; it raises exactly when the scrape or the CSV write raises, and the exception is the scrape's (the first raising fetched item's) or else the CSV writer's `AttributeError` |
| `Pipeline.RunAsWritten` | book_scraper.py:256-266 | the run as written raises exactly when the corrected run raises (with the same exception) or completes with no records (with the empty-reduce `TypeError`); when it completes it agrees with the corrected run |
| `Pipeline.AllPagesFailedRaisesAsWritten` | book_scraper.py:256-266 | as written, a run in which every request fails ends with `TypeError` in the summary |
| `Pipeline.AllPagesFailedCompletes` | book_scraper.py:256-266 | with the corrected summary that run completes: nothing saved, zero books, no price range |
| `Pipeline.WellFormedRun` | book_scraper.py:256-266 | when every fetched item is well formed, the CSV has one line per item plus the header, and the summary counts every item |

## Left out

- HTTP fetching (`fetch_page_data`, `requests.Session`) and HTML parsing are not modelled. They are replaced by the `fetch` parameter and the `Item` record.
- Python's `float` is not modelled. It is the `parse` parameter. Float rounding in the sum and average is not modelled either: prices are exact reals.
- The `sleep(delay_seconds)` call in `extract_book_info` (book_scraper.py:190) is ignored. As written, it names an undefined variable, so every extraction that reaches it would raise `NameError`. The model assumes that line does nothing.
- The inter-page `sleep`, logging, console output, the `\r` progress line and the `timer` decorator are not modelled, because they are I/O or timing. Only the spinner glyph's index is kept.
- Python's `float` also accepts "nan" and "inf". The parser parameter returns only real numbers, so these are not modelled. A NaN price would pass the `price < 0.00` check at line 69, and it would break the first-extreme property of the reductions at lines 249-250.
- Command-line parsing and the module-level globals (book_scraper.py:100-123) are not modelled. The configuration is passed explicitly. One quirk of that code: `-n 0` leaves `npages` unbound at module level.
- The CSV file itself is not modelled: no opening, no quoting, and no text form of the values. When a row raises, the partial file already written is not modelled.
- `Extraction.Extract`: the stock text and rating classes are taken as given strings. How BeautifulSoup finds elements by class is not modelled.

## Findings

| source | as written | input that shows it | evidently intended | confidence | as-written member | corrected member |
|---|---|---|---|---|---|---|
| book_scraper.py:249-250 | `reduce` has no initial value, and `main` always calls `book_analysis`, so an empty collection raises `TypeError` | a run in which every page request fails, so there are no books | report zero books with no price range, the way `safe_average` already handles the empty list | high; not executed | `Summary.AnalyzeAsWrittenRaisesOnEmpty` | `Summary.Analyze` |
| book_scraper.py:91-93 | the CSV and log messages are plain strings, not f-strings, so they show `{self.csv_name}` literally | CSV name "books.txt" | the message names the rejected file, as the page-count message on line 95 does | high; not executed | `ScraperConfig.MessageAsWrittenDropsName` | `ScraperConfig.MessageInjective` |
