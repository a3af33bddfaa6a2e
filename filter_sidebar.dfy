/** The filter sidebar: the range inputs, each with its own fallback for an input
    that is blank, unparsable or zero, and the option sets of the two selectors. */
module FilterSidebar {
  import opened Wrappers
  import opened JsNumbers

  /** The upper end of the price range when none is entered. */
  const MaxPriceValue: int := 2_000_000_000_000
  /** The lower end of the year range when none is entered. */
  const MinYear: int := 1990

  /** An inclusive `[min, max]` pair. */
  datatype Range = Range(lo: int, hi: int)

  /** `parseInt(value) || fallback`: NaN and 0 are both falsy. */
  function ParsedOr(value: string, fallback: int): (r: int)
    ensures ParseInt(value).Some? && ParseInt(value).value != 0 ==> r == ParseInt(value).value
    ensures ParseInt(value).None? || ParseInt(value) == Some(0) ==> r == fallback
  {
    match ParseInt(value)
    case Some(n) => if n != 0 then n else fallback
    case None => fallback
  }

  /** Typing the digits of `n` yields `n`, except that 0 yields the fallback; a blank
      input yields the fallback too. */
  lemma ParsedOrOfShow(n: int, fallback: int)
    ensures ParsedOr(Show(n), fallback) == if n == 0 then fallback else n
    ensures ParsedOr("", fallback) == fallback
  {
    ParseIntOfShow(n);
  }

  /** The min-price input: the new minimum, max price kept. */
  function OnMinPriceChange(range: Range, value: string): (r: Range)
    ensures r.hi == range.hi
    ensures r.lo == ParsedOr(value, 0)
  {
    Range(ParsedOr(value, 0), range.hi)
  }

  /** The max-price input: the new maximum, min price kept. */
  function OnMaxPriceChange(range: Range, value: string): (r: Range)
    ensures r.lo == range.lo
    ensures r.hi == ParsedOr(value, MaxPriceValue)
  {
    Range(range.lo, ParsedOr(value, MaxPriceValue))
  }

  /** The min-year input: the new minimum, max year kept. */
  function OnMinYearChange(range: Range, value: string): (r: Range)
    ensures r.hi == range.hi
    ensures r.lo == ParsedOr(value, MinYear)
  {
    Range(ParsedOr(value, MinYear), range.hi)
  }

  /** The max-year input: the new maximum, min year kept; `currentYear` is read from
      the clock by the caller. */
  function OnMaxYearChange(range: Range, value: string, currentYear: int): (r: Range)
    ensures r.lo == range.lo
    ensures r.hi == ParsedOr(value, currentYear)
  {
    Range(range.lo, ParsedOr(value, currentYear))
  }

  /** What each range input does with the number `n` typed into it: it sets its own
      end of the pair to `n`, or to that end's default when `n` is 0, and keeps the
      other end. For the minimum price the default is 0 itself, so the entered value
      always wins; for the maximum price, entering 0 yields the largest price. */
  lemma RangeEdits(price: Range, year: Range, n: int, currentYear: int)
    ensures OnMinPriceChange(price, Show(n)) == Range(n, price.hi)
    ensures OnMaxPriceChange(price, Show(n)) == Range(price.lo, if n == 0 then MaxPriceValue else n)
    ensures OnMinYearChange(year, Show(n)) == Range(if n == 0 then MinYear else n, year.hi)
    ensures OnMaxYearChange(year, Show(n), currentYear)
         == Range(year.lo, if n == 0 then currentYear else n)
  {
    ParsedOrOfShow(n, 0);
    ParsedOrOfShow(n, MaxPriceValue);
    ParsedOrOfShow(n, MinYear);
    ParsedOrOfShow(n, currentYear);
  }

  /** A cleared input falls back to each end's default. */
  lemma BlankInputs(price: Range, year: Range, currentYear: int)
    ensures OnMinPriceChange(price, "") == Range(0, price.hi)
    ensures OnMaxPriceChange(price, "") == Range(price.lo, MaxPriceValue)
    ensures OnMinYearChange(year, "") == Range(MinYear, year.hi)
    ensures OnMaxYearChange(year, "", currentYear) == Range(year.lo, currentYear)
  {
  }

  /** The values of the sort selector's options, in display order. */
  const SortOptions: seq<string> := ["newest", "price-low", "price-high", "year-new", "year-old"]

  /** The values of the brand selector's options: `""` ("All Brands"), then each
      brand. */
  function BrandOptions(brands: seq<string>): (options: seq<string>)
    ensures |options| == |brands| + 1 && options[0] == ""
    ensures forall o :: o in options <==> o == "" || o in brands
  {
    [""] + brands
  }
}
