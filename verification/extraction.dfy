/** Turning one listing fragment into a book record, a skip, or an escaping
    exception. The markup is reduced to the four elements the extractor
    looks at; the decimal parser is a parameter standing for Python's
    `float`. */
module Extraction {
  import opened Wrappers
  import opened Exceptions
  import opened Text
  import opened Ratings
  import opened Books

  /** An item's `<img>`; `alt` is `None` when the attribute is missing. */
  datatype Image = Image(alt: Option<string>)

  /** One `article.product_pod`: its image, the text of its price paragraph,
      the text of its stock paragraph and the class list of its star-rating
      paragraph, each `None` when the element is absent. */
  datatype Item = Item(
    image: Option<Image>,
    priceText: Option<string>,
    stockText: Option<string>,
    ratingClasses: Option<seq<string>>)

  /** `float` applied to a price string: `None` where it raises `ValueError`. */
  type PriceParser = string -> Option<real>

  /** What one extraction does: return a record, return `None` (skip), or
      raise. */
  datatype Outcome = Keep(book: Book) | Skip | Raise(error: Exception)

  /** An outcome together with the progress counter after the attempt. */
  datatype Step = Step(outcome: Outcome, counter: nat)

  const UnknownTitle: string := "Unknown"
  /** The text used in place of a missing price paragraph. */
  const MissingPriceText: string := "0.00"
  /** The characters dropped from the front of the price text (the currency
      sign as the site's pages decode it). */
  const CurrencyPrefixLength: nat := 2
  const InStock: string := "In stock"
  /** Python's message for indexing past the end of a list. */
  const ShortClassListMessage: string := "list index out of range"

  /** The title: the image's `alt`, `"Unknown"` without an image, and a
      `KeyError` for an image without `alt`. */
  function Title(item: Item): (r: Result<string, Exception>)
    ensures r.Failure? <==> item.image.Some? && item.image.value.alt.None?
    ensures r.Failure? ==> r.error == KeyError("alt")
  {
    match item.image
    case None => Success(UnknownTitle)
    case Some(Image(None)) => Failure(KeyError("alt"))
    case Some(Image(Some(alt))) => Success(alt)
  }

  /** The string handed to the parser. */
  function PriceString(item: Item): (r: string)
    ensures item.priceText.None? ==> r == MissingPriceText
    ensures item.priceText.Some? ==>
              && |r| == (if |item.priceText.value| <= CurrencyPrefixLength then 0 else |item.priceText.value| - CurrencyPrefixLength)
              && item.priceText.value == item.priceText.value[..|item.priceText.value| - |r|] + r
  {
    match item.priceText
    case None => MissingPriceText
    case Some(text) => DropFirst(text, CurrencyPrefixLength)
  }

  /** The price, or `None` when parsing fails; an empty string is 0.00
      without consulting the parser. */
  function Price(parse: PriceParser, item: Item): (r: Option<real>)
    ensures PriceString(item) == [] ==> r == Some(0.0)
    ensures r.None? <==> PriceString(item) != [] && parse(PriceString(item)).None?
  {
    var p := PriceString(item);
    if p == [] then Some(0.0) else parse(p)
  }

  function Available(item: Item): (r: bool)
    ensures r ==> item.stockText.Some?
  {
    item.stockText.Some? && Strip(item.stockText.value) == InStock
  }

  /** One extraction attempt, in the order the fields are read: title, price
      (a failed parse returns early, before the counter moves), stock,
      rating label, counter increment, then the record itself. A missing
      rating element leaves `rating` unbound, so building the record raises
      `UnboundLocalError`; a negative price makes the record constructor
      raise. */
  function Extract(parse: PriceParser, counter: nat, item: Item): (s: Step)
    ensures s.outcome.Skip? <==> Title(item).Success? && Price(parse, item).None?
    ensures s.outcome.Keep? <==>
              && Title(item).Success?
              && Price(parse, item).Some? && Price(parse, item).value >= 0.0
              && item.ratingClasses.Some? && |item.ratingClasses.value| >= 2
    ensures s.outcome.Keep? ==>
              && Valid(s.outcome.book)
              && Title(item) == Success(s.outcome.book.title)
              && Price(parse, item) == Some(s.outcome.book.price)
              && s.outcome.book.available == Available(item)
              && s.outcome.book.rating == FromString(item.ratingClasses.value[1])
    ensures s.outcome.Skip? ==> s.counter == counter
    ensures s.outcome.Keep? ==> s.counter == counter + 1
    ensures s.outcome.Raise? ==>
              || s.outcome.error == KeyError("alt")
              || s.outcome.error == IndexError(ShortClassListMessage)
              || s.outcome.error == UnboundLocalError("rating")
              || s.outcome.error == ValueError(NegativePriceMessage)
  {
    match Title(item)
    case Failure(e) => Step(Raise(e), counter)
    case Success(title) =>
      match Price(parse, item)
      case None => Step(Skip, counter)
      case Some(price) =>
        var available := Available(item);
        match item.ratingClasses
        case Some(classes) =>
          if |classes| < 2 then Step(Raise(IndexError(ShortClassListMessage)), counter)
          else
            (match NewBook(title, price, available, FromString(classes[1]))
             case Success(b) => Step(Keep(b), counter + 1)
             case Failure(e) => Step(Raise(e), counter + 1))
        case None => Step(Raise(UnboundLocalError("rating")), counter + 1)
  }

  /** Without an image the title falls back to "Unknown". */
  lemma TitleFallback(parse: PriceParser, counter: nat, item: Item)
    requires item.image.None?
    requires Extract(parse, counter, item).outcome.Keep?
    ensures Extract(parse, counter, item).outcome.book.title == UnknownTitle
  {
  }

  /** With an image that has `alt`, a record is titled by that text. */
  lemma TitleFromAlt(parse: PriceParser, counter: nat, item: Item, alt: string)
    requires item.image == Some(Image(Some(alt)))
    requires Extract(parse, counter, item).outcome.Keep?
    ensures Extract(parse, counter, item).outcome.book.title == alt
  {
  }

  /** An image without `alt` raises `KeyError` before anything else is
      read, and the counter does not move. */
  lemma MissingAltRaises(parse: PriceParser, counter: nat, item: Item)
    requires item.image.Some? && item.image.value.alt.None?
    ensures Extract(parse, counter, item) == Step(Raise(KeyError("alt")), counter)
  {
  }

  /** A rating element with fewer than two classes raises `IndexError`
      before the counter moves. */
  lemma ShortClassListRaises(parse: PriceParser, counter: nat, item: Item)
    requires Title(item).Success? && Price(parse, item).Some?
    requires item.ratingClasses.Some? && |item.ratingClasses.value| < 2
    ensures Extract(parse, counter, item) == Step(Raise(IndexError(ShortClassListMessage)), counter)
  {
  }

  /** A missing price paragraph gives the price 0.00, given that the parser
      reads "0.00" as zero, as `float` does. */
  lemma MissingPriceIsZero(parse: PriceParser, counter: nat, item: Item)
    requires parse(MissingPriceText) == Some(0.0)
    requires item.priceText.None?
    requires Extract(parse, counter, item).outcome.Keep?
    ensures Extract(parse, counter, item).outcome.book.price == 0.0
  {
  }

  /** A price text of at most two characters leaves nothing to parse and
      gives 0.00, whatever the parser does. */
  lemma ShortPriceIsZero(parse: PriceParser, counter: nat, item: Item, text: string)
    requires item.priceText == Some(text) && |text| <= CurrencyPrefixLength
    requires Extract(parse, counter, item).outcome.Keep?
    ensures Extract(parse, counter, item).outcome.book.price == 0.0
  {
  }

  /** Otherwise the price is the parse of the text without its first two
      characters. */
  lemma PriceFromRemainder(parse: PriceParser, counter: nat, item: Item, text: string)
    requires item.priceText == Some(text) && |text| > CurrencyPrefixLength
    requires Extract(parse, counter, item).outcome.Keep?
    ensures parse(text[CurrencyPrefixLength..]) == Some(Extract(parse, counter, item).outcome.book.price)
  {
  }

  /** Exactly two characters are cut, whatever they are: the two-character
      sign "Â£" goes entirely, while a one-character "£" also takes the
      first digit with it. */
  lemma TwoCharactersCut()
    ensures PriceString(Item(None, Some("\U{00C2}\U{00A3}12.34"), None, None)) == "12.34"
    ensures PriceString(Item(None, Some("\U{00A3}12.34"), None, None)) == "2.34"
  {
  }

  /** An unparseable remainder skips the item: it never becomes a record
      with a default price. */
  lemma UnparseablePriceSkips(parse: PriceParser, counter: nat, item: Item, text: string)
    requires Title(item).Success?
    requires item.priceText == Some(text) && |text| > CurrencyPrefixLength
    requires parse(text[CurrencyPrefixLength..]).None?
    ensures Extract(parse, counter, item).outcome == Skip
    ensures Extract(parse, counter, item).counter == counter
  {
  }

  /** Availability holds exactly when the stock text is "In stock" with
      nothing but whitespace around it. */
  lemma AvailableIffPadded(item: Item)
    ensures Available(item) <==> item.stockText.Some? && IsStripOf(InStock, item.stockText.value)
  {
    if item.stockText.Some? {
      var text := item.stockText.value;
      StripIsStripOf(text);
      if IsStripOf(InStock, text) {
        StripOfIsStrip(InStock, text);
      }
    }
  }

  /** An item whose rating element is missing cannot become a record: the
      extraction raises once title and price have been read. */
  lemma MissingRatingRaises(parse: PriceParser, counter: nat, item: Item)
    requires Title(item).Success? && Price(parse, item).Some?
    requires item.ratingClasses.None?
    ensures Extract(parse, counter, item) == Step(Raise(UnboundLocalError("rating")), counter + 1)
  {
  }

  /** A price that parses to a negative number is not skipped: the record
      constructor raises. */
  lemma NegativePriceRaises(parse: PriceParser, counter: nat, item: Item)
    requires Title(item).Success? && Price(parse, item).Some? && Price(parse, item).value < 0.0
    requires item.ratingClasses.Some? && |item.ratingClasses.value| >= 2
    ensures Extract(parse, counter, item) == Step(Raise(ValueError(NegativePriceMessage)), counter + 1)
  {
  }

  /** The outcome never depends on the progress counter, which only feeds
      the console spinner. */
  lemma OutcomeIgnoresCounter(parse: PriceParser, c: nat, d: nat, item: Item)
    ensures Extract(parse, c, item).outcome == Extract(parse, d, item).outcome
  {
  }
}
