/** The star rating of a book: an integer enumeration 1..5, read from a
    fixed English label and displayed as five star glyphs. */
module Ratings {
  import opened Wrappers

  datatype Rating = OneStar | TwoStars | ThreeStars | FourStars | FiveStars {

    /** The enumeration's integer value. */
    function Value(): (v: int)
      ensures 1 <= v <= 5
    {
      match this
      case OneStar => 1
      case TwoStars => 2
      case ThreeStars => 3
      case FourStars => 4
      case FiveStars => 5
    }
  }

  /** The labels the site writes as the second class of a rating element,
      listed in increasing value. */
  const Labels: seq<string> := ["One", "Two", "Three", "Four", "Five"]

  function Label(r: Rating): (s: string)
    ensures s in Labels
  {
    Labels[r.Value() - 1]
  }

  /** Maps the five labels to their ratings and every other string to
      `None`; a rating it returns is always labelled by the input. */
  function FromString(s: string): (r: Option<Rating>)
    ensures r.Some? <==> s in Labels
    ensures r.Some? ==> Label(r.value) == s
  {
    if s == "One" then Some(OneStar)
    else if s == "Two" then Some(TwoStars)
    else if s == "Three" then Some(ThreeStars)
    else if s == "Four" then Some(FourStars)
    else if s == "Five" then Some(FiveStars)
    else None
  }

  lemma FromStringOfLabel(r: Rating)
    ensures FromString(Label(r)) == Some(r)
  {
  }

  /** The label at position k of the table is read as the rating k + 1. */
  lemma FromStringValues(k: nat)
    requires k < |Labels|
    ensures FromString(Labels[k]).Some?
    ensures FromString(Labels[k]).value.Value() == k + 1
  {
  }

  /** `Rating(v)`: the inverse of `Value`, `None` outside 1..5. */
  function FromValue(v: int): (r: Option<Rating>)
    ensures r.Some? <==> 1 <= v <= 5
    ensures r.Some? ==> r.value.Value() == v
  {
    if v == 1 then Some(OneStar)
    else if v == 2 then Some(TwoStars)
    else if v == 3 then Some(ThreeStars)
    else if v == 4 then Some(FourStars)
    else if v == 5 then Some(FiveStars)
    else None
  }

  lemma FromValueOfValue(r: Rating)
    ensures FromValue(r.Value()) == Some(r)
  {
  }

  const FullStar: char := '\U{2605}'
  const EmptyStar: char := '\U{2606}'

  function Repeat(c: char, n: nat): (s: string)
    ensures |s| == n
    ensures forall i :: 0 <= i < n ==> s[i] == c
  {
    if n == 0 then [] else [c] + Repeat(c, n - 1)
  }

  /** `str(rating)`: `Value()` full stars followed by empty stars, five
      glyphs in all. */
  function Stars(r: Rating): (s: string)
    ensures |s| == 5
    ensures forall i :: 0 <= i < 5 ==> (s[i] == FullStar <==> i < r.Value())
    ensures forall i :: 0 <= i < 5 ==> (s[i] == EmptyStar <==> r.Value() <= i)
  {
    Repeat(FullStar, r.Value()) + Repeat(EmptyStar, 5 - r.Value())
  }

  /** How many full stars a string shows. */
  function CountFull(s: string): nat {
    if s == [] then 0
    else (if s[|s| - 1] == FullStar then 1 else 0) + CountFull(s[..|s| - 1])
  }

  lemma {:induction false} CountFullOfPrefix(s: string, k: nat)
    requires k <= |s|
    requires forall i :: 0 <= i < |s| ==> (s[i] == FullStar <==> i < k)
    ensures CountFull(s) == k
    decreases |s|
  {
    if s != [] {
      var p := s[..|s| - 1];
      if k == |s| {
        CountFullOfPrefix(p, k - 1);
      } else {
        CountFullOfPrefix(p, k);
      }
    }
  }

  /** Reading the stars back gives the rating's value. */
  lemma StarsShowValue(r: Rating)
    ensures CountFull(Stars(r)) == r.Value()
  {
    CountFullOfPrefix(Stars(r), r.Value());
  }

  lemma StarsInjective(r: Rating, q: Rating)
    requires Stars(r) == Stars(q)
    ensures r == q
  {
    StarsShowValue(r);
    StarsShowValue(q);
  }
}
