/** The scraper's settings, validated once at construction, together with
    the progress counter and the rotating glyph it selects. */
module ScraperConfig {
  import opened Wrappers
  import opened Exceptions
  import opened Text

  const BaseUrl: string := "http://books.toscrape.com/catalogue"
  const LogFormat: string := "%(asctime)s - %(name)s - %(levelname)s - %(message)s"
  const LogDateFormat: string := "%d.%m.%Y %H.%M.%S"
  /** The CSV header, in column order. */
  const Fields: seq<string> := ["Title", "Price", "Available", "Rating"]
  /** The configuration's label table. The script never reads it; the
      labels the extraction uses are `Ratings.Labels`. */
  const RatingMap: map<string, int> := map["One" := 1, "Two" := 2, "Three" := 3, "Four" := 4, "Five" := 5]
  /** The delay is not a constructor argument: every configuration gets it. */
  const DefaultDelay: real := 0.4

  const CsvSuffix: string := ".csv"
  const LogSuffix: string := ".log"

  datatype Config = Config(npages: int, csvName: string, logFile: string, delaySeconds: real, bookCounter: nat)

  /** The four validation failures, in the order they are checked. */
  datatype ConfigError =
    | DelayOutOfRange
    | BadCsvName(csvName: string)
    | BadLogName(logFile: string)
    | BadPages(npages: int)

  predicate DelayOk(delay: real) { 0.0 < delay < 5.0 }
  predicate CsvNameOk(name: string) { EndsWith(name, CsvSuffix) }
  predicate LogNameOk(name: string) { EndsWith(name, LogSuffix) }
  predicate PagesOk(npages: int) { npages >= 0 }

  /** The validation of `__post_init__`: success exactly when all four
      checks pass, and otherwise the error of the first failing check in the
      order delay, CSV name, log name, page count. */
  function Validate(npages: int, csvName: string, logFile: string, delay: real): (r: Result<Config, ConfigError>)
    ensures r.Success? <==> DelayOk(delay) && CsvNameOk(csvName) && LogNameOk(logFile) && PagesOk(npages)
    ensures r.Success? ==> r.value == Config(npages, csvName, logFile, delay, 0)
    ensures r == Failure(DelayOutOfRange) <==> !DelayOk(delay)
    ensures r == Failure(BadCsvName(csvName)) <==> DelayOk(delay) && !CsvNameOk(csvName)
    ensures r == Failure(BadLogName(logFile)) <==> DelayOk(delay) && CsvNameOk(csvName) && !LogNameOk(logFile)
    ensures r == Failure(BadPages(npages)) <==> DelayOk(delay) && CsvNameOk(csvName) && LogNameOk(logFile) && !PagesOk(npages)
  {
    if !DelayOk(delay) then Failure(DelayOutOfRange)
    else if !CsvNameOk(csvName) then Failure(BadCsvName(csvName))
    else if !LogNameOk(logFile) then Failure(BadLogName(logFile))
    else if !PagesOk(npages) then Failure(BadPages(npages))
    else Success(Config(npages, csvName, logFile, delay, 0))
  }

  /** A configuration passes validation iff it is one `Validate` builds. */
  predicate ValidConfig(c: Config) {
    DelayOk(c.delaySeconds) && CsvNameOk(c.csvName) && LogNameOk(c.logFile) && PagesOk(c.npages)
  }

  /** The message of each failure as the three plain string literals and the
      one f-string of `__post_init__` produce it: the CSV and log messages
      keep their braces verbatim. */
  function MessageAsWritten(e: ConfigError): string {
    match e
    case DelayOutOfRange => "Delay time must be between 0 and 5."
    case BadCsvName(_) => "Invalid CSV file name: {self.csv_name}"
    case BadLogName(_) => "Invalid log file name: {self.log_file}"
    case BadPages(n) => "Invalid pages: " + IntToString(n)
  }

  /** The as-written CSV and log messages are the same whatever name was
      rejected. */
  lemma MessageAsWrittenDropsName(a: string, b: string)
    ensures MessageAsWritten(BadCsvName(a)) == MessageAsWritten(BadCsvName(b))
    ensures MessageAsWritten(BadLogName(a)) == MessageAsWritten(BadLogName(b))
  {
  }

  /** The messages with the offending value interpolated, as the f-string
      on the page-count check shows was intended. */
  function Message(e: ConfigError): (m: string)
    ensures e.BadCsvName? ==> m == "Invalid CSV file name: " + e.csvName
    ensures e.BadLogName? ==> m == "Invalid log file name: " + e.logFile
    ensures e.BadPages? ==> m == "Invalid pages: " + IntToString(e.npages)
    ensures e.DelayOutOfRange? ==> m == MessageAsWritten(e)
  {
    match e
    case DelayOutOfRange => MessageAsWritten(e)
    case BadCsvName(name) => "Invalid CSV file name: " + name
    case BadLogName(name) => "Invalid log file name: " + name
    case BadPages(n) => "Invalid pages: " + IntToString(n)
  }

  /** The ninth character of each corrected message, which already tells
      the four failures apart. */
  function KindMark(e: ConfigError): char {
    match e
    case DelayOutOfRange => 'm'
    case BadCsvName(_) => 'C'
    case BadLogName(_) => 'l'
    case BadPages(_) => 'p'
  }

  /** Distinct failures always give distinct corrected messages. */
  lemma MessageInjective(e: ConfigError, f: ConfigError)
    requires Message(e) == Message(f)
    ensures e == f
  {
    assert Message(e)[8] == KindMark(e);
    assert Message(f)[8] == KindMark(f);
    if e.BadCsvName? {
      assert e.csvName == Message(e)[|"Invalid CSV file name: "|..];
      assert f.csvName == Message(f)[|"Invalid CSV file name: "|..];
    } else if e.BadLogName? {
      assert e.logFile == Message(e)[|"Invalid log file name: "|..];
      assert f.logFile == Message(f)[|"Invalid log file name: "|..];
    } else if e.BadPages? {
      assert IntToString(e.npages) == Message(e)[|"Invalid pages: "|..];
      assert IntToString(f.npages) == Message(f)[|"Invalid pages: "|..];
      IntToStringInjective(e.npages, f.npages);
    }
  }

  /** `ScraperConfig(csv_name=..., log_file=..., npages=...)`: the delay is
      fixed, and a validation failure raises `ValueError` with the message
      as written, so a bad CSV or log name is reported without the name. */
  function NewConfig(npages: int, csvName: string, logFile: string): (r: Result<Config, Exception>)
    ensures r.Success? <==> CsvNameOk(csvName) && LogNameOk(logFile) && PagesOk(npages)
    ensures r.Success? ==> ValidConfig(r.value) && r.value.bookCounter == 0
                           && r.value.delaySeconds == DefaultDelay
                           && r.value.npages == npages && r.value.csvName == csvName && r.value.logFile == logFile
    ensures !CsvNameOk(csvName) ==> r == Failure(ValueError(MessageAsWritten(BadCsvName(csvName))))
    ensures CsvNameOk(csvName) && !LogNameOk(logFile) ==> r == Failure(ValueError(MessageAsWritten(BadLogName(logFile))))
    ensures CsvNameOk(csvName) && LogNameOk(logFile) && !PagesOk(npages) ==>
              r == Failure(ValueError(MessageAsWritten(BadPages(npages))))
  {
    match Validate(npages, csvName, logFile, DefaultDelay)
    case Success(c) => Success(c)
    case Failure(e) => Failure(ValueError(MessageAsWritten(e)))
  }

  /** The constructor with the messages interpolated as intended: it
      accepts and rejects exactly what `NewConfig` does, and a rejection
      names the offending value. */
  function NewConfigIntended(npages: int, csvName: string, logFile: string): (r: Result<Config, Exception>)
    ensures r.Success? <==> NewConfig(npages, csvName, logFile).Success?
    ensures r.Success? ==> r == NewConfig(npages, csvName, logFile)
    ensures !CsvNameOk(csvName) ==> r == Failure(ValueError("Invalid CSV file name: " + csvName))
    ensures CsvNameOk(csvName) && !LogNameOk(logFile) ==> r == Failure(ValueError("Invalid log file name: " + logFile))
    ensures CsvNameOk(csvName) && LogNameOk(logFile) && !PagesOk(npages) ==>
              r == Failure(ValueError("Invalid pages: " + IntToString(npages)))
  {
    match Validate(npages, csvName, logFile, DefaultDelay)
    case Success(c) => Success(c)
    case Failure(e) => Failure(ValueError(Message(e)))
  }

  /** As written, two configurations rejected for different CSV names raise
      the same error; with the intended messages they raise different
      ones. */
  lemma RejectedNamesAsWrittenAndIntended(a: string, b: string, logFile: string, npages: int)
    requires !CsvNameOk(a) && !CsvNameOk(b) && a != b
    ensures NewConfig(npages, a, logFile) == NewConfig(npages, b, logFile)
    ensures NewConfigIntended(npages, a, logFile) != NewConfigIntended(npages, b, logFile)
  {
    if NewConfigIntended(npages, a, logFile) == NewConfigIntended(npages, b, logFile) {
      MessageInjective(BadCsvName(a), BadCsvName(b));
    }
  }

  /** The delay check at construction can never fire, since the delay is
      always the default. */
  lemma NewConfigNeverRejectsDelay(npages: int, csvName: string, logFile: string)
    ensures Validate(npages, csvName, logFile, DefaultDelay) != Failure(DelayOutOfRange)
  {
  }

  /** Counting one more extracted book changes nothing else. This stands
      alone: the extraction threads the counter as a bare number and
      advances it by one where the script calls `increment_counter`. */
  function IncrementCounter(c: Config): (r: Config)
    ensures r.bookCounter == c.bookCounter + 1
    ensures r.npages == c.npages && r.csvName == c.csvName && r.logFile == c.logFile
    ensures r.delaySeconds == c.delaySeconds
    ensures ValidConfig(c) ==> ValidConfig(r)
  {
    c.(bookCounter := c.bookCounter + 1)
  }

  /** The spinner's eight slots; the second half repeats the first. */
  const Glyphs: seq<char> := ['|', '/', '\U{2015}', '\\', '|', '/', '\U{2015}', '\\']

  /** The progress glyph shown before extracting the book numbered
      `counter + 1`. */
  function Glyph(counter: nat): (g: char)
    ensures g == Glyphs[counter % 4]
    ensures g == '|' || g == '/' || g == '\U{2015}' || g == '\\'
  {
    var k := counter % 8;
    assert k % 4 == counter % 4 by {
      assert counter == 8 * (counter / 8) + k;
      assert counter == 4 * (2 * (counter / 8)) + k;
    }
    assert Glyphs[k] == Glyphs[k % 4];
    Glyphs[k]
  }

  /** The spinner turns with period four. */
  lemma {:induction false} GlyphPeriod(counter: nat)
    ensures Glyph(counter + 4) == Glyph(counter)
  {
    assert (counter + 4) % 4 == counter % 4;
  }
}
