/** The closing summary: how many records, their average price, and the
    cheapest and dearest record as picked by a left fold that keeps the
    running choice on ties. */
module Summary {
  import opened Wrappers
  import opened Exceptions
  import opened Books

  /** Python's `sum`, adding left to right from zero. */
  function Sum(xs: seq<real>): real {
    if xs == [] then 0.0 else Sum(xs[..|xs| - 1]) + xs[|xs| - 1]
  }

  /** `safe_average`: zero for an empty list, otherwise the number that
      times the length gives the sum. */
  function SafeAverage(xs: seq<real>): (r: real)
    ensures |xs| == 0 ==> r == 0.0
    ensures |xs| > 0 ==> r * (|xs| as real) == Sum(xs)
  {
    if |xs| > 0 then Sum(xs) / (|xs| as real) else 0.0
  }

  lemma {:induction false} SumBounds(xs: seq<real>, lo: real, hi: real)
    requires forall i :: 0 <= i < |xs| ==> lo <= xs[i] <= hi
    ensures (|xs| as real) * lo <= Sum(xs) <= (|xs| as real) * hi
  {
    if xs != [] {
      var init := xs[..|xs| - 1];
      assert forall i :: 0 <= i < |init| ==> init[i] == xs[i];
      SumBounds(init, lo, hi);
      assert (|xs| as real) * lo == (|init| as real) * lo + lo;
      assert (|xs| as real) * hi == (|init| as real) * hi + hi;
    }
  }

  /** The average lies between any lower and upper bound of the values. */
  lemma AverageBetweenBounds(xs: seq<real>, lo: real, hi: real)
    requires |xs| > 0
    requires forall i :: 0 <= i < |xs| ==> lo <= xs[i] <= hi
    ensures lo <= SafeAverage(xs) <= hi
  {
    SumBounds(xs, lo, hi);
    var n := |xs| as real;
    var a := SafeAverage(xs);
    assert a * n == Sum(xs);
    assert n * lo <= a * n <= n * hi;
  }

  /** The prices of the records, in order. */
  function Prices(books: seq<Book>): (ps: seq<real>)
    ensures |ps| == |books|
    ensures forall i :: 0 <= i < |books| ==> ps[i] == books[i].price
  {
    seq(|books|, i requires 0 <= i < |books| => books[i].price)
  }

  /** Which extreme a fold looks for. */
  datatype Extreme = Dearest | Cheapest

  /** `a` is at least as extreme as `b`: at least as dear, or at least as
      cheap. */
  predicate AtLeastAsExtreme(ex: Extreme, a: Book, b: Book) {
    match ex
    case Dearest => a.price >= b.price
    case Cheapest => a.price <= b.price
  }

  /** The fold step, `acc if acc.price >= next.price else next` and its
      `<=` twin: keep the running choice `acc` when it is at least as
      extreme as `next`. */
  function Pick(ex: Extreme, acc: Book, next: Book): (r: Book)
    ensures r == acc || r == next
    ensures AtLeastAsExtreme(ex, r, acc) && AtLeastAsExtreme(ex, r, next)
  {
    if AtLeastAsExtreme(ex, acc, next) then acc else next
  }

  /** `reduce(step, books)` on a non-empty list: the step applied from the
      left, starting from the first record. */
  function Fold(ex: Extreme, books: seq<Book>): (r: Book)
    requires |books| > 0
  {
    if |books| == 1 then books[0]
    else Pick(ex, Fold(ex, books[..|books| - 1]), books[|books| - 1])
  }

  /** Position i holds the first record that is at least as extreme as
      every record of the list. */
  predicate IsFirstExtreme(ex: Extreme, books: seq<Book>, i: int) {
    && 0 <= i < |books|
    && (forall j :: 0 <= j < |books| ==> AtLeastAsExtreme(ex, books[i], books[j]))
    && (forall j :: 0 <= j < i ==> !AtLeastAsExtreme(ex, books[j], books[i]))
  }

  /** The left fold returns the first extreme record: ties go to the record
      seen first. */
  lemma {:induction false} FoldIsFirstExtreme(ex: Extreme, books: seq<Book>)
    requires |books| > 0
    ensures exists i :: IsFirstExtreme(ex, books, i) && Fold(ex, books) == books[i]
  {
    if |books| == 1 {
      assert IsFirstExtreme(ex, books, 0);
    } else {
      var n := |books| - 1;
      var init := books[..n];
      FoldIsFirstExtreme(ex, init);
      var i :| IsFirstExtreme(ex, init, i) && Fold(ex, init) == init[i];
      assert forall j :: 0 <= j < n ==> init[j] == books[j];
      assert Fold(ex, books) == Pick(ex, books[i], books[n]);
      if AtLeastAsExtreme(ex, books[i], books[n]) {
        assert forall j :: 0 <= j < n ==> AtLeastAsExtreme(ex, books[i], books[j]) by {
          forall j | 0 <= j < n ensures AtLeastAsExtreme(ex, books[i], books[j]) {
            assert AtLeastAsExtreme(ex, init[i], init[j]);
          }
        }
        assert IsFirstExtreme(ex, books, i);
      } else {
        forall j | 0 <= j < n
          ensures AtLeastAsExtreme(ex, books[n], books[j]) && !AtLeastAsExtreme(ex, books[j], books[n])
        {
          assert AtLeastAsExtreme(ex, init[i], init[j]);
        }
        assert IsFirstExtreme(ex, books, n);
      }
    }
  }

  /** The first extreme position is unique, so the fold's choice is fully
      determined by the description. */
  lemma FirstExtremeUnique(ex: Extreme, books: seq<Book>, i: int, k: int)
    requires IsFirstExtreme(ex, books, i) && IsFirstExtreme(ex, books, k)
    ensures i == k
  {
    assert AtLeastAsExtreme(ex, books[i], books[k]);
    assert AtLeastAsExtreme(ex, books[k], books[i]);
  }

  /** The fold's choice is a record of the list at least as extreme as
      every record. */
  lemma FoldBounds(ex: Extreme, books: seq<Book>)
    requires |books| > 0
    ensures Fold(ex, books) in books
    ensures forall j :: 0 <= j < |books| ==> AtLeastAsExtreme(ex, Fold(ex, books), books[j])
  {
    FoldIsFirstExtreme(ex, books);
  }

  const EmptyReduceMessage: string := "reduce() of empty iterable with no initial value"

  /** `functools.reduce` without an initial value: an empty list raises. */
  function Reduce(ex: Extreme, books: seq<Book>): (r: Result<Book, Exception>)
    ensures r.Failure? <==> books == []
    ensures r.Failure? ==> r.error == TypeError(EmptyReduceMessage)
    ensures r.Success? ==> r.value in books
  {
    if books == [] then Failure(TypeError(EmptyReduceMessage))
    else
      FoldIsFirstExtreme(ex, books);
      Success(Fold(ex, books))
  }

  /** The figures the summary prints. */
  datatype Report = Report(total: nat, average: real, cheapest: Option<Book>, dearest: Option<Book>)

  /** `book_analysis` as written: the average is guarded against an empty
      list but the two reductions are not, so an empty collection raises
      `TypeError` after the count and average are printed. */
  function AnalyzeAsWritten(books: seq<Book>): (r: Result<Report, Exception>)
    ensures r.Failure? <==> books == []
    ensures r.Success? ==> r.value.cheapest.Some? && r.value.dearest.Some?
  {
    var average := SafeAverage(Prices(books));
    match Reduce(Dearest, books)
    case Failure(e) => Failure(e)
    case Success(dearest) =>
      match Reduce(Cheapest, books)
      case Failure(e) => Failure(e)
      case Success(cheapest) => Success(Report(|books|, average, Some(cheapest), Some(dearest)))
  }

  /** The empty run is the input that shows the defect: the summary the
      script always prints after a run raises when no record was kept. */
  lemma AnalyzeAsWrittenRaisesOnEmpty()
    ensures AnalyzeAsWritten([]) == Failure(TypeError(EmptyReduceMessage))
    ensures SafeAverage(Prices([])) == 0.0
  {
  }

  /** On a non-empty list the summary as written reports the folds. */
  lemma AsWrittenOnNonEmpty(books: seq<Book>)
    requires books != []
    ensures AnalyzeAsWritten(books) ==
              Success(Report(|books|, SafeAverage(Prices(books)), Some(Fold(Cheapest, books)), Some(Fold(Dearest, books))))
  {
  }

  /** The average price lies between the cheapest and the dearest price. */
  lemma AverageBetweenExtremes(books: seq<Book>)
    requires books != []
    ensures Fold(Cheapest, books).price <= SafeAverage(Prices(books)) <= Fold(Dearest, books).price
  {
    FoldBounds(Dearest, books);
    FoldBounds(Cheapest, books);
    AverageBetweenBounds(Prices(books), Fold(Cheapest, books).price, Fold(Dearest, books).price);
  }

  /** The summary with the empty case handled as the average already is:
      never raises, reports no price range for an empty collection, and
      otherwise agrees with the code as written. The average lies between
      the cheapest and dearest price. */
  function Analyze(books: seq<Book>): (r: Report)
    ensures r.total == |books|
    ensures r.average * (|books| as real) == Sum(Prices(books))
    ensures books == [] <==> r.cheapest.None?
    ensures books == [] <==> r.dearest.None?
    ensures books == [] ==> r.average == 0.0
    ensures books != [] ==> AnalyzeAsWritten(books) == Success(r)
    ensures books != [] ==> r.cheapest.value.price <= r.average <= r.dearest.value.price
  {
    if books == [] then
      assert Prices(books) == [];
      Report(0, 0.0, None, None)
    else
      var average := SafeAverage(Prices(books));
      AverageBetweenExtremes(books);
      AsWrittenOnNonEmpty(books);
      Report(|books|, average, Some(Fold(Cheapest, books)), Some(Fold(Dearest, books)))
  }

  /** The reported extremes are the first records at least as dear (cheap)
      as every other. */
  lemma AnalyzePicksFirstExtremes(books: seq<Book>)
    requires books != []
    ensures exists i :: IsFirstExtreme(Dearest, books, i) && Analyze(books).dearest == Some(books[i])
    ensures exists i :: IsFirstExtreme(Cheapest, books, i) && Analyze(books).cheapest == Some(books[i])
  {
    FoldIsFirstExtreme(Dearest, books);
    FoldIsFirstExtreme(Cheapest, books);
  }

  /** Prices 10, 5, 5 for A, B, C: the dearest is A and the cheapest is B,
      the first of the two tied records. */
  lemma TieGoesToFirst(a: Book, b: Book, c: Book)
    requires a.price == 10.0 && b.price == 5.0 && c.price == 5.0
    ensures Analyze([a, b, c]).dearest == Some(a)
    ensures Analyze([a, b, c]).cheapest == Some(b)
  {
    assert [a, b, c][..2] == [a, b];
    assert [a, b][..1] == [a];
    assert Fold(Dearest, [a, b]) == a;
    assert Fold(Dearest, [a, b, c]) == a;
    assert Fold(Cheapest, [a, b]) == b;
    assert Fold(Cheapest, [a, b, c]) == b;
  }
}
