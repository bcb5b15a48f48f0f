/** The record kept for one listed book. The rating is optional because an
    unknown label is stored as `None` without complaint. */
module Books {
  import opened Wrappers
  import opened Exceptions
  import opened Ratings

  datatype Book = Book(title: string, price: real, available: bool, rating: Option<Rating>)

  /** The record invariant checked at construction. */
  predicate Valid(b: Book) {
    b.price >= 0.0
  }

  const NegativePriceMessage: string := "Price cannot be negative"

  /** Constructing a record raises exactly when the price is negative; any
      other combination of fields is stored as given. */
  function NewBook(title: string, price: real, available: bool, rating: Option<Rating>): (r: Result<Book, Exception>)
    ensures r.Success? <==> price >= 0.0
    ensures r.Success? ==> Valid(r.value)
    ensures r.Success? ==> r.value.title == title && r.value.price == price
                           && r.value.available == available && r.value.rating == rating
    ensures r.Failure? ==> r.error == ValueError(NegativePriceMessage)
  {
    if price < 0.0 then Failure(ValueError(NegativePriceMessage))
    else Success(Book(title, price, available, rating))
  }
}
