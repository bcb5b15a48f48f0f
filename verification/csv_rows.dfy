/** The shape of the CSV output: a header in the configured column order,
    then one row per record in record order. Writing the file, quoting and
    the text form of each value are not modelled; a row is the sequence of
    values handed to the writer. */
module CsvRows {
  import opened Wrappers
  import opened Exceptions
  import opened Ratings
  import opened Books
  import opened ScraperConfig

  /** A value handed to the CSV writer, tagged with its Python type. */
  datatype Cell = Text(text: string) | Number(number: real) | Flag(flag: bool) | Integer(integer: int)

  /** Either nothing was written, or a header and rows were. */
  datatype CsvOutcome = NothingToSave | Written(header: seq<string>, rows: seq<seq<Cell>>)

  /** Reading `.value` of a rating that is `None`. */
  const NoRatingValue: Exception := AttributeError("'NoneType' object has no attribute 'value'")

  /** The row for one record: title, price, availability, and the rating as
      its integer value; a record whose rating is `None` makes the writer
      raise. */
  function BookRow(b: Book): (r: Result<seq<Cell>, Exception>)
    ensures r.Success? <==> b.rating.Some?
    ensures r.Success? ==> |r.value| == |Fields|
    ensures r.Failure? ==> r.error == NoRatingValue
  {
    match b.rating
    case None => Failure(NoRatingValue)
    case Some(rating) => Success([Text(b.title), Number(b.price), Flag(b.available), Integer(rating.Value())])
  }

  /** Reads a row back into the record it was written from. */
  function RowBook(row: seq<Cell>): Option<Book> {
    if |row| == 4 && row[0].Text? && row[1].Number? && row[2].Flag? && row[3].Integer? then
      match FromValue(row[3].integer)
      case None => None
      case Some(rating) => Some(Book(row[0].text, row[1].number, row[2].flag, Some(rating)))
    else
      None
  }

  /** A row loses nothing: reading it back gives the record. */
  lemma RowRoundTrip(b: Book)
    requires b.rating.Some?
    ensures RowBook(BookRow(b).value) == Some(b)
  {
    FromValueOfValue(b.rating.value);
  }

  /** The rating column always holds an integer in 1..5. */
  lemma RowRatingInRange(b: Book)
    requires b.rating.Some?
    ensures BookRow(b).value[3].Integer?
    ensures 1 <= BookRow(b).value[3].integer <= 5
  {
  }

  /** The rows for all records, in order; the first record without a rating
      raises. Each row reads back to its record. */
  function Rows(books: seq<Book>): (r: Result<seq<seq<Cell>>, Exception>)
    ensures r.Success? <==> forall i :: 0 <= i < |books| ==> books[i].rating.Some?
    ensures r.Success? ==> |r.value| == |books|
    ensures r.Success? ==> forall i :: 0 <= i < |books| ==> RowBook(r.value[i]) == Some(books[i])
    ensures r.Failure? ==> r.error == NoRatingValue
  {
    if books == [] then Success([])
    else
      var first :- BookRow(books[0]);
      var rest :- Rows(books[1..]);
      RowRoundTrip(books[0]);
      assert forall i :: 1 <= i < |books| ==> books[1..][i - 1] == books[i];
      Success([first] + rest)
  }

  /** `save_to_csv`: an empty collection writes nothing and is not an
      error; otherwise the header is the configured field list and each
      record gets one row, in order, that reads back to it. */
  function SaveToCsv(books: seq<Book>): (r: Result<CsvOutcome, Exception>)
    ensures books == [] <==> r == Success(NothingToSave)
    ensures r.Success? <==> forall i :: 0 <= i < |books| ==> books[i].rating.Some?
    ensures r.Success? && books != [] ==>
              && r.value.Written?
              && r.value.header == Fields
              && |r.value.rows| == |books|
              && forall i :: 0 <= i < |books| ==> RowBook(r.value.rows[i]) == Some(books[i])
  {
    if books == [] then Success(NothingToSave)
    else
      var rows :- Rows(books);
      Success(Written(Fields, rows))
  }

  /** The number of lines in the file: none when nothing was saved, else
      the header plus one per row. */
  function LineCount(out: CsvOutcome): nat {
    match out
    case NothingToSave => 0
    case Written(_, rows) => 1 + |rows|
  }

  lemma SavedLineCount(books: seq<Book>)
    requires SaveToCsv(books).Success?
    ensures LineCount(SaveToCsv(books).value) == if books == [] then 0 else |books| + 1
  {
  }
}
