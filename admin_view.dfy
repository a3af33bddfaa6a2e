/** The admin page: whether the form is open and for which listing, the steps of a
    delete, and the inventory total. */
module AdminView {
  import opened Wrappers
  import opened Strings
  import opened JsNumbers
  import opened Cars

  /** The storage key of a listing's primary image: the last `/`-separated segment of
      `image_url`, or none when the URL is null or empty or that segment is empty. */
  function StorageKey(imageUrl: Option<string>): Option<string> {
    if imageUrl.Some? && imageUrl.value != "" then
      var key := LastSegment(imageUrl.value, '/');
      if key != "" then Some(key) else None
    else None
  }

  /** A key exists exactly when the URL is non-empty and does not end in `/`; it is
      then the part of the URL after its last `/` (or the whole URL without one). */
  lemma StorageKeySpec(imageUrl: Option<string>)
    ensures StorageKey(imageUrl).Some? <==>
      imageUrl.Some? && imageUrl.value != "" && imageUrl.value[|imageUrl.value| - 1] != '/'
    ensures StorageKey(imageUrl).Some? ==>
      var url, key := imageUrl.value, StorageKey(imageUrl).value;
      && '/' !in key
      && |key| <= |url| && url[|url| - |key|..] == key
      && (|key| == |url| || url[|url| - |key| - 1] == '/')
  {
    if imageUrl.Some? && imageUrl.value != "" {
      var url := imageUrl.value;
      LastSegmentIsAfterLast(url, '/');
      var key := AfterLast(url, '/');
      if url[|url| - 1] != '/' {
        assert key != "";
      } else {
        assert key == "";
      }
    }
  }

  /** One step `handleDeleteCar` takes against the backend or the user. */
  datatype Effect =
    | RemoveFromStorage(key: string)
    | DeleteRow(id: string)
    | Refetch
    | Alert(message: string)

  /** JavaScript's `+` on the running total and a price: numbers add, and as soon as
      either side is a string the two are concatenated as text. */
  function JsAdd(a: Price, b: Price): Price {
    match (a, b)
    case (Num(x), Num(y)) => Num(x + y)
    case (Num(x), Text(t)) => Text(Show(x) + t)
    case (Text(s), Num(y)) => Text(s + Show(y))
    case (Text(s), Text(t)) => Text(s + t)
  }

  /** `cars.reduce((sum, car) => sum + car.price, 0)`. */
  function InventoryTotal(cars: seq<Car>): Price {
    if cars == [] then Num(0)
    else JsAdd(InventoryTotal(cars[..|cars| - 1]), cars[|cars| - 1].price)
  }

  /** Every price is a number. */
  predicate AllNumeric(cars: seq<Car>) {
    forall i :: 0 <= i < |cars| ==> cars[i].price.Num?
  }

  /** The arithmetic sum of the numeric prices, first to last. */
  function SumPrices(cars: seq<Car>): int {
    if cars == [] then 0
    else (match cars[0].price case Num(n) => n case Text(_) => 0) + SumPrices(cars[1..])
  }

  lemma {:induction false} SumPricesAppend(cars: seq<Car>, car: Car)
    ensures SumPrices(cars + [car]) ==
      SumPrices(cars) + match car.price case Num(n) => n case Text(_) => 0
  {
    if cars != [] {
      assert (cars + [car])[1..] == cars[1..] + [car];
      SumPricesAppend(cars[1..], car);
    } else {
      assert [car][1..] == [];
    }
  }

  /** With numeric prices only, the total is their sum. */
  lemma {:induction false} NumericTotalIsSum(cars: seq<Car>)
    requires AllNumeric(cars)
    ensures InventoryTotal(cars) == Num(SumPrices(cars))
  {
    if cars != [] {
      var init := cars[..|cars| - 1];
      NumericTotalIsSum(init);
      assert cars == init + [cars[|cars| - 1]];
      SumPricesAppend(init, cars[|cars| - 1]);
    }
  }

  /** A single string price turns the total into text: everything from that car on is
      concatenated rather than added. */
  lemma {:induction false} TextPriceMakesTextTotal(cars: seq<Car>, k: int)
    requires 0 <= k < |cars| && cars[k].price.Text?
    ensures InventoryTotal(cars).Text?
  {
    if k < |cars| - 1 {
      TextPriceMakesTextTotal(cars[..|cars| - 1], k);
    }
  }

  /** A numeric price followed by a string price totals the number's digits followed
      by the string: 5 and "7" give the text "57", not 12. */
  lemma TextPriceConcatenates(a: Car, b: Car)
    requires a.price.Num? && b.price.Text?
    ensures InventoryTotal([a, b]) == Text(Show(a.price.n) + b.price.s)
  {
    assert [a][..0] == [];
    assert InventoryTotal([a]) == JsAdd(Num(0), a.price) == a.price;
    assert [a, b][..1] == [a];
  }

  /** The admin page's own state. */
  class AdminState {
    var showCarForm: bool
    var editingCar: Option<Car>

    /** While the form is closed no listing is being edited. */
    ghost predicate Valid()
      reads this
    {
      !showCarForm ==> editingCar.None?
    }

    constructor ()
      ensures Valid() && !showCarForm && editingCar.None?
    {
      showCarForm := false;
      editingCar := None;
    }

    /** The listing the open form edits, or none when it adds a new one. */
    function FormCar(): (car: Option<Car>)
      reads this
      requires Valid() && showCarForm
      ensures car == editingCar
    {
      editingCar
    }

    /** `handleEditCar`. */
    method HandleEditCar(car: Car)
      modifies this
      ensures Valid() && showCarForm && editingCar == Some(car)
      ensures FormCar() == Some(car)
    {
      editingCar := Some(car);
      showCarForm := true;
    }

    /** The "Add New Car" button, shown only while the form is closed: the form opens
        with no listing, since closing it cleared the last one. */
    method HandleAddNewCar()
      requires Valid() && !showCarForm
      modifies this`showCarForm
      ensures Valid() && showCarForm && editingCar.None?
      ensures FormCar().None?
    {
      showCarForm := true;
    }

    /** `handleFormSubmit`: closes the form, clears the listing and reloads the list. */
    method HandleFormSubmit() returns (refetch: bool)
      modifies this
      ensures Valid() && !showCarForm && editingCar.None?
      ensures refetch
    {
      showCarForm := false;
      editingCar := None;
      refetch := true;
    }

    /** `handleFormCancel`: closes the form and clears the listing without reloading. */
    method HandleFormCancel() returns (refetch: bool)
      modifies this
      ensures Valid() && !showCarForm && editingCar.None?
      ensures !refetch
    {
      showCarForm := false;
      editingCar := None;
      refetch := false;
    }

    /** `handleDeleteCar`: nothing happens unless the user confirms. Then the primary
        image is removed from storage when it has a key, and the row is deleted
        whatever the storage call returned; a successful delete reloads the list and
        a failed one alerts. The page's own state is not touched. */
    method HandleDeleteCar(car: Car, confirmed: bool, deleteError: bool) returns (effects: seq<Effect>)
      ensures !confirmed <==> effects == []
      ensures confirmed ==> |effects| == if StorageKey(car.imageUrl).Some? then 3 else 2
      ensures confirmed && StorageKey(car.imageUrl).Some? ==>
        effects[0] == RemoveFromStorage(StorageKey(car.imageUrl).value)
      ensures confirmed ==> effects[|effects| - 2] == DeleteRow(car.id)
      ensures confirmed ==> effects[|effects| - 1] == if deleteError then Alert("Failed to delete car") else Refetch
    {
      effects := [];
      if !confirmed {
        return;
      }
      if car.imageUrl.Some? && car.imageUrl.value != "" {
        var imagePath := LastSegment(car.imageUrl.value, '/');
        if imagePath != "" {
          effects := effects + [RemoveFromStorage(imagePath)];
        }
      }
      effects := effects + [DeleteRow(car.id)];
      if deleteError {
        effects := effects + [Alert("Failed to delete car")];
      } else {
        effects := effects + [Refetch];
      }
    }
  }
}
