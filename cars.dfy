/** The `Car` record of the `cars` table and the price guard shared by the card and
    the admin table. */
module Cars {
  import opened Wrappers
  import opened JsNumbers

  /** A price as the table returns it: a number, or a string. */
  datatype Price = Num(n: int) | Text(s: string)

  /** One listing. `createdAt` is the creation time as a timestamp; `updatedAt` is the
      ISO string the admin form writes. */
  datatype Car = Car(
    id: string,
    model: string,
    brand: string,
    year: int,
    price: Price,
    description: Option<string>,
    imageUrl: Option<string>,
    imageUrls: Option<seq<string>>,
    createdAt: int,
    updatedAt: string)

  /** `Number(price)`; `None` stands for NaN. */
  function PriceNumber(p: Price): Option<int> {
    match p
    case Num(n) => Some(n)
    case Text(s) => StringToNumber(s)
  }

  /** What `formatPrice` shows after the currency sign: the zero amount, a number
      formatted for the locale, or (for a string price, whose `toLocaleString` is the
      string itself) the text unchanged. */
  datatype PriceLabel = ZeroLabel | Amount(n: int) | Verbatim(s: string)

  /** `formatPrice`: a falsy, NaN or negative price shows as zero. */
  function FormatPrice(p: Price): (shown: PriceLabel)
    ensures PriceNumber(p).None? ==> shown == ZeroLabel
    ensures shown.Amount? ==> p == Num(shown.n) && shown.n > 0
    ensures shown.Verbatim? ==>
      p == Text(shown.s) && shown.s != [] && PriceNumber(p).Some? && PriceNumber(p).value >= 0
    ensures p.Num? ==> (shown == ZeroLabel <==> p.n <= 0)
    ensures p.Num? && p.n > 0 ==> shown == Amount(p.n)
    ensures p.Text? && p.s != [] && PriceNumber(p).Some? && PriceNumber(p).value >= 0 ==>
      shown == Verbatim(p.s)
  {
    match p
    case Num(n) => if n == 0 || n < 0 then ZeroLabel else Amount(n)
    case Text(s) =>
      if s == [] || StringToNumber(s).None? || StringToNumber(s).value < 0 then ZeroLabel
      else Verbatim(s)
  }
}
