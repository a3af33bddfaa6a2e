/** The public catalog: the filter predicate, the five sort orders, the brand list and
    the Clear Filters reset of the catalog page. */
module Catalog {
  import opened Wrappers
  import opened Seqs
  import opened Sorting
  import opened Strings
  import opened Cars
  import opened FilterSidebar

  /** The filter inputs of the page. */
  datatype Filters = Filters(search: string, brand: string, price: Range, year: Range)

  /** Case-insensitive substring match of the search term on model or brand. */
  predicate MatchesSearch(car: Car, term: string) {
    Contains(ToLower(car.model), ToLower(term)) || Contains(ToLower(car.brand), ToLower(term))
  }

  /** An empty selection accepts every brand; otherwise the brand must be equal. */
  predicate MatchesBrand(car: Car, brand: string) {
    brand == "" || car.brand == brand
  }

  /** Inclusive at both ends. */
  predicate Within(x: int, range: Range) {
    range.lo <= x <= range.hi
  }

  /** The filter callback: a car whose price is NaN is dropped; otherwise it must match
      the search, the brand, the price range and the year range. */
  predicate Matches(car: Car, f: Filters) {
    match PriceNumber(car.price)
    case None => false
    case Some(price) =>
      && MatchesSearch(car, f.search)
      && MatchesBrand(car, f.brand)
      && Within(price, f.price)
      && Within(car.year, f.year)
  }

  function MatchesFilters(f: Filters): Car -> bool {
    car => Matches(car, f)
  }

  /** The five orders of the sort switch. */
  datatype SortKey = Newest | PriceLow | PriceHigh | YearNew | YearOld

  /** The `switch (sortBy)`: an unrecognised value falls to the default, `newest`. */
  function ParseSortKey(sortBy: string): SortKey {
    if sortBy == "price-low" then PriceLow
    else if sortBy == "price-high" then PriceHigh
    else if sortBy == "year-new" then YearNew
    else if sortBy == "year-old" then YearOld
    else Newest
  }

  /** The numeric price of a car; the filter has already dropped every car without one. */
  function PriceValue(car: Car): int {
    match PriceNumber(car.price)
    case Some(n) => n
    case None => 0
  }

  /** The number each comparator `(a, b) => key(a) - key(b)` subtracts; a descending
      order sorts ascending on the negated value. */
  function SortValue(k: SortKey, car: Car): int {
    match k
    case PriceLow => PriceValue(car)
    case PriceHigh => -PriceValue(car)
    case YearNew => -car.year
    case YearOld => car.year
    case Newest => -car.createdAt
  }

  /** "`a` may stay before `b`": the comparator's result is not positive. */
  function Comparator(k: SortKey): (Car, Car) -> bool {
    (a, b) => SortValue(k, a) <= SortValue(k, b)
  }

  lemma ComparatorIsTotalPreorder(k: SortKey)
    ensures TotalPreorder(Comparator(k))
  {
  }

  /** The `filteredCars` memo: filter, then stable sort by the selected key. */
  function FilteredCars(cars: seq<Car>, f: Filters, sortBy: string): seq<Car> {
    SortBy(Filter(cars, MatchesFilters(f)), Comparator(ParseSortKey(sortBy)))
  }

  /** One car: it is displayed exactly when it was loaded and passes the filter. */
  lemma Shown(cars: seq<Car>, f: Filters, sortBy: string, car: Car)
    ensures car in FilteredCars(cars, f, sortBy) <==> car in cars && Matches(car, f)
  {
    var kept := Filter(cars, MatchesFilters(f));
    assert multiset(FilteredCars(cars, f, sortBy)) == multiset(kept);
    assert car in FilteredCars(cars, f, sortBy) <==> car in multiset(kept);
    FilterMembers(cars, MatchesFilters(f), car);
  }

  /** The displayed list is a permutation of exactly the loaded cars that pass the
      filter: each passing car occurs as often as it was loaded, every other car not at
      all, so nothing is fabricated or duplicated. */
  lemma FilteredCarsSelects(cars: seq<Car>, f: Filters, sortBy: string)
    ensures multiset(FilteredCars(cars, f, sortBy)) == multiset(Filter(cars, MatchesFilters(f)))
    ensures forall car :: multiset(FilteredCars(cars, f, sortBy))[car]
                       == if Matches(car, f) then multiset(cars)[car] else 0
    ensures forall car :: car in FilteredCars(cars, f, sortBy) <==> car in cars && Matches(car, f)
  {
    var kept := Filter(cars, MatchesFilters(f));
    assert multiset(FilteredCars(cars, f, sortBy)) == multiset(kept);
    forall car ensures multiset(FilteredCars(cars, f, sortBy))[car]
                    == if Matches(car, f) then multiset(cars)[car] else 0 {
      FilterCount(cars, MatchesFilters(f), car);
    }
    forall car ensures car in FilteredCars(cars, f, sortBy) <==> car in cars && Matches(car, f) {
      Shown(cars, f, sortBy, car);
    }
  }

  /** A car whose price does not parse as a number is never displayed, whatever the
      other filters are. */
  lemma UnparsablePriceExcluded(cars: seq<Car>, f: Filters, sortBy: string, car: Car)
    requires PriceNumber(car.price).None?
    ensures car !in FilteredCars(cars, f, sortBy)
  {
    Shown(cars, f, sortBy, car);
  }

  /** For a loaded car with a numeric price that passes the search and the brand, the
      price and year bounds decide, both inclusive at each end. */
  lemma BoundsInclusive(cars: seq<Car>, f: Filters, sortBy: string, car: Car)
    requires car in cars && PriceNumber(car.price).Some?
    requires MatchesSearch(car, f.search) && MatchesBrand(car, f.brand)
    ensures car in FilteredCars(cars, f, sortBy) <==>
      && f.price.lo <= PriceNumber(car.price).value <= f.price.hi
      && f.year.lo <= car.year <= f.year.hi
  {
    Shown(cars, f, sortBy, car);
    var price := PriceNumber(car.price).value;
    assert Matches(car, f) <==> Within(price, f.price) && Within(car.year, f.year);
  }

  /** The search test is a substring test on the lower-cased model or brand, so the
      empty term matches every car. */
  lemma SearchSemantics(car: Car, term: string)
    ensures MatchesSearch(car, term) <==>
      (exists i :: OccursAt(ToLower(car.model), ToLower(term), i)) ||
      (exists i :: OccursAt(ToLower(car.brand), ToLower(term), i))
    ensures MatchesSearch(car, "")
  {
    ContainsSpec(ToLower(car.model), ToLower(term));
    ContainsSpec(ToLower(car.brand), ToLower(term));
    ContainsEmpty(ToLower(car.model));
  }

  /** The search ignores the case of the term: typing it in upper or lower case finds
      the same cars. */
  lemma SearchIgnoresCase(car: Car, term: string)
    ensures MatchesSearch(car, ToLower(term)) == MatchesSearch(car, term)
  {
    ToLowerIdempotent(term);
  }

  /** The displayed list is sorted on the selected key's sort value. */
  lemma ShownSorted(cars: seq<Car>, f: Filters, sortBy: string)
    ensures var k, shown := ParseSortKey(sortBy), FilteredCars(cars, f, sortBy);
      forall i, j :: 0 <= i < j < |shown| ==> SortValue(k, shown[i]) <= SortValue(k, shown[j])
  {
    var k := ParseSortKey(sortBy);
    SortBySpec(Filter(cars, MatchesFilters(f)), Comparator(k));
    var shown := FilteredCars(cars, f, sortBy);
    forall i, j | 0 <= i < j < |shown| ensures SortValue(k, shown[i]) <= SortValue(k, shown[j]) {
      assert Comparator(k)(shown[i], shown[j]);
    }
  }

  /** Every displayed car has a numeric price. */
  lemma ShownPricesParse(cars: seq<Car>, f: Filters, sortBy: string)
    ensures forall car :: car in FilteredCars(cars, f, sortBy) ==>
      PriceNumber(car.price) == Some(PriceValue(car))
  {
    forall car | car in FilteredCars(cars, f, sortBy)
      ensures PriceNumber(car.price) == Some(PriceValue(car))
    {
      Shown(cars, f, sortBy, car);
    }
  }

  /** Each sort key orders the displayed list as its option promises, and every
      displayed car has a numeric price. */
  lemma SortOrders(cars: seq<Car>, f: Filters, sortBy: string)
    ensures var shown := FilteredCars(cars, f, sortBy);
      forall car :: car in shown ==> PriceNumber(car.price) == Some(PriceValue(car))
    ensures var shown := FilteredCars(cars, f, sortBy); ParseSortKey(sortBy) == PriceLow ==>
      forall i, j :: 0 <= i < j < |shown| ==> PriceValue(shown[i]) <= PriceValue(shown[j])
    ensures var shown := FilteredCars(cars, f, sortBy); ParseSortKey(sortBy) == PriceHigh ==>
      forall i, j :: 0 <= i < j < |shown| ==> PriceValue(shown[i]) >= PriceValue(shown[j])
    ensures var shown := FilteredCars(cars, f, sortBy); ParseSortKey(sortBy) == YearNew ==>
      forall i, j :: 0 <= i < j < |shown| ==> shown[i].year >= shown[j].year
    ensures var shown := FilteredCars(cars, f, sortBy); ParseSortKey(sortBy) == YearOld ==>
      forall i, j :: 0 <= i < j < |shown| ==> shown[i].year <= shown[j].year
    ensures var shown := FilteredCars(cars, f, sortBy); ParseSortKey(sortBy) == Newest ==>
      forall i, j :: 0 <= i < j < |shown| ==> shown[i].createdAt >= shown[j].createdAt
  {
    ShownPricesParse(cars, f, sortBy);
    ShownSorted(cars, f, sortBy);
    var k := ParseSortKey(sortBy);
    var shown := FilteredCars(cars, f, sortBy);
    forall i, j | 0 <= i < j < |shown|
      ensures SortValue(k, shown[i]) <= SortValue(k, shown[j])
    {
    }
  }

  /** Cars with equal sort values stay in the order the fetch returned them: for every
      car `c`, the displayed cars whose sort value equals `c`'s are, in order, the
      passing cars with that value. */
  lemma SortTiesKeepFetchOrder(cars: seq<Car>, f: Filters, sortBy: string, c: Car)
    ensures var k := ParseSortKey(sortBy);
      Filter(FilteredCars(cars, f, sortBy), car => SortValue(k, car) == SortValue(k, c))
      == Filter(Filter(cars, MatchesFilters(f)), car => SortValue(k, car) == SortValue(k, c))
  {
    var k := ParseSortKey(sortBy);
    var kept := Filter(cars, MatchesFilters(f));
    var same := car => SortValue(k, car) == SortValue(k, c);
    SortByStable(kept, Comparator(k), c);
    FilterExt(FilteredCars(cars, f, sortBy), TiedWith(c, Comparator(k)), same);
    FilterExt(kept, TiedWith(c, Comparator(k)), same);
  }

  /** Read back to front, a list sorted from low to high price is sorted from high to
      low. */
  lemma ReverseOfPriceLow(low: seq<Car>)
    requires SortedBy(low, Comparator(PriceLow))
    ensures SortedBy(Reverse(low), Comparator(PriceHigh))
  {
    var rev := Reverse(low);
    forall i, j | 0 <= i < j < |rev| ensures Comparator(PriceHigh)(rev[i], rev[j]) {
      assert Comparator(PriceLow)(low[|low| - 1 - j], low[|low| - 1 - i]);
    }
  }

  /** No two cars of `cars` share a price. */
  predicate DistinctPrices(cars: seq<Car>) {
    forall i, j :: 0 <= i < j < |cars| ==> PriceValue(cars[i]) != PriceValue(cars[j])
  }

  /** When no two loaded cars share a price, two loaded cars tied in the price order
      are the same car. */
  lemma DistinctPricesNoTies(cars: seq<Car>, x: Car, y: Car)
    requires DistinctPrices(cars)
    requires x in cars && y in cars && Tied(x, y, Comparator(PriceHigh))
    ensures x == y
  {
    assert PriceValue(x) == PriceValue(y);
    var i :| 0 <= i < |cars| && cars[i] == x;
    var j :| 0 <= j < |cars| && cars[j] == y;
    assert i == j;
  }

  /** When no two cars that pass the filters share a price, sorting by price from high
      to low gives exactly the reverse of sorting from low to high. */
  lemma PriceOrdersAreReverses(cars: seq<Car>, f: Filters)
    requires DistinctPrices(Filter(cars, MatchesFilters(f)))
    ensures FilteredCars(cars, f, "price-high") == Reverse(FilteredCars(cars, f, "price-low"))
  {
    var kept := Filter(cars, MatchesFilters(f));
    var low := SortBy(kept, Comparator(PriceLow));
    var high := SortBy(kept, Comparator(PriceHigh));
    assert FilteredCars(cars, f, "price-low") == low;
    assert FilteredCars(cars, f, "price-high") == high;
    SortBySpec(kept, Comparator(PriceLow));
    SortBySpec(kept, Comparator(PriceHigh));
    ReverseOfPriceLow(low);
    forall x, y | x in high && y in high && Tied(x, y, Comparator(PriceHigh))
      ensures x == y
    {
      assert x in multiset(kept) && y in multiset(kept);
      DistinctPricesNoTies(kept, x, y);
    }
    ComparatorIsTotalPreorder(PriceHigh);
    SortedUnique(high, Reverse(low), Comparator(PriceHigh));
  }

  /** The brand of each car, in order: `cars.map(car => car.brand)`. */
  function BrandNames(cars: seq<Car>): (names: seq<string>)
    ensures |names| == |cars| && forall i :: 0 <= i < |cars| ==> names[i] == cars[i].brand
  {
    seq(|cars|, i requires 0 <= i < |cars| => cars[i].brand)
  }

  /** The `brands` memo: `[...new Set(brands)].sort()`. */
  function Brands(cars: seq<Car>): seq<string> {
    SortBy(AppendNew([], BrandNames(cars)), StringLe())
  }

  /** The brand list is the de-duplicated brand names, reordered by the default string
      ordering. */
  lemma BrandsSorted(cars: seq<Car>)
    ensures multiset(Brands(cars)) == multiset(AppendNew([], BrandNames(cars)))
    ensures SortedBy(Brands(cars), StringLe())
  {
    StringLeIsTotalOrder();
    SortBySpec(AppendNew([], BrandNames(cars)), StringLe());
  }

  /** The brand list holds each loaded car's brand exactly once, in strictly ascending
      order. */
  lemma BrandsSpec(cars: seq<Car>)
    ensures NoDup(Brands(cars))
    ensures forall i, j :: 0 <= i < j < |Brands(cars)| ==> LexLess(Brands(cars)[i], Brands(cars)[j])
    ensures forall b :: b in Brands(cars) <==> exists car :: car in cars && car.brand == b
  {
    var names := BrandNames(cars);
    var unique := AppendNew([], names);
    var r := Brands(cars);
    AppendNewSpec([], names);
    BrandsSorted(cars);
    NoDupPermutation(r, unique);
    forall i, j | 0 <= i < j < |r| ensures LexLess(r[i], r[j]) {
      assert StringLe()(r[i], r[j]);
      LexLessTotal(r[i], r[j]);
    }
    forall b ensures b in r <==> exists car :: car in cars && car.brand == b {
      assert b in r <==> b in multiset(unique);
      if b in names {
        var i :| 0 <= i < |names| && names[i] == b;
        assert cars[i] in cars;
      }
    }
  }

  /** Every option of the brand selector is "All Brands" or the brand of a loaded car,
      and selecting it keeps exactly the cars of that brand. */
  lemma BrandOptionsSelect(cars: seq<Car>, option: string, car: Car)
    requires option in BrandOptions(Brands(cars))
    ensures option == "" || exists c :: c in cars && c.brand == option
    ensures MatchesBrand(car, option) <==> option == "" || car.brand == option
  {
    BrandsSpec(cars);
  }

  /** The name of each sort key as the selector's option value. */
  function SortKeyName(k: SortKey): string {
    match k
    case Newest => "newest"
    case PriceLow => "price-low"
    case PriceHigh => "price-high"
    case YearNew => "year-new"
    case YearOld => "year-old"
  }

  /** The sort selector offers exactly the five keys: each option selects a different
      key, and every key has its option. */
  lemma SortOptionsAreTheKeys()
    ensures forall o :: o in SortOptions ==> SortKeyName(ParseSortKey(o)) == o
    ensures forall k :: SortKeyName(k) in SortOptions && ParseSortKey(SortKeyName(k)) == k
    ensures |SortOptions| == 5
  {
  }

  /** The filters Clear Filters restores. */
  function ClearedFilters(currentYear: int): Filters {
    Filters("", "", Range(0, MaxPriceValue), Range(MinYear, currentYear))
  }

  /** With cleared filters a car is shown exactly when its price parses to a number in
      `[0, 2_000_000_000_000]` and its year lies in `[1990, currentYear]`. */
  lemma ClearedFiltersShow(cars: seq<Car>, currentYear: int, sortBy: string, car: Car)
    ensures car in FilteredCars(cars, ClearedFilters(currentYear), sortBy) <==>
      && car in cars
      && PriceNumber(car.price).Some?
      && 0 <= PriceNumber(car.price).value <= MaxPriceValue
      && MinYear <= car.year <= currentYear
  {
    var f := ClearedFilters(currentYear);
    Shown(cars, f, sortBy, car);
    SearchSemantics(car, f.search);
    assert MatchesBrand(car, f.brand);
  }

  /** The state of the catalog page. */
  class CatalogPage {
    var searchTerm: string
    var selectedBrand: string
    var priceRange: Range
    var yearRange: Range
    var sortBy: string
    var showFilters: bool

    /** The initial state; `currentYear` is read from the clock by the caller. */
    constructor (currentYear: int)
      ensures CurrentFilters() == ClearedFilters(currentYear)
      ensures sortBy == "newest" && !showFilters
    {
      searchTerm := "";
      selectedBrand := "";
      priceRange := Range(0, MaxPriceValue);
      yearRange := Range(MinYear, currentYear);
      sortBy := "newest";
      showFilters := false;
    }

    function CurrentFilters(): Filters
      reads this
    {
      Filters(searchTerm, selectedBrand, priceRange, yearRange)
    }

    /** The cars the page displays for the loaded `cars`. */
    function Displayed(cars: seq<Car>): seq<Car>
      reads this
    {
      FilteredCars(cars, CurrentFilters(), sortBy)
    }

    /** Clear Filters: search, brand, price range and year range back to their initial
        values; the sort order and the sidebar stay as they are. */
    method ClearFilters(currentYear: int)
      modifies this
      ensures CurrentFilters() == ClearedFilters(currentYear)
      ensures sortBy == old(sortBy) && showFilters == old(showFilters)
    {
      searchTerm := "";
      selectedBrand := "";
      priceRange := Range(0, MaxPriceValue);
      yearRange := Range(MinYear, currentYear);
    }

    /** The min-price input of the sidebar. */
    method EditMinPrice(value: string)
      modifies this`priceRange
      ensures priceRange == OnMinPriceChange(old(priceRange), value)
      ensures priceRange.hi == old(priceRange.hi)
    {
      priceRange := OnMinPriceChange(priceRange, value);
    }

    /** The max-price input of the sidebar. */
    method EditMaxPrice(value: string)
      modifies this`priceRange
      ensures priceRange == OnMaxPriceChange(old(priceRange), value)
      ensures priceRange.lo == old(priceRange.lo)
    {
      priceRange := OnMaxPriceChange(priceRange, value);
    }

    /** The min-year input of the sidebar. */
    method EditMinYear(value: string)
      modifies this`yearRange
      ensures yearRange == OnMinYearChange(old(yearRange), value)
      ensures yearRange.hi == old(yearRange.hi)
    {
      yearRange := OnMinYearChange(yearRange, value);
    }

    /** The max-year input of the sidebar. */
    method EditMaxYear(value: string, currentYear: int)
      modifies this`yearRange
      ensures yearRange == OnMaxYearChange(old(yearRange), value, currentYear)
      ensures yearRange.lo == old(yearRange.lo)
    {
      yearRange := OnMaxYearChange(yearRange, value, currentYear);
    }
  }
}
