/** The listing card: its image carousel, the image modal, the price label and the
    View More toggle of the description. */
module CarCard {
  import opened Wrappers
  import opened Strings
  import opened Cars
  import opened Images
  import opened Seqs

  /** JavaScript's `%` on integers: the remainder takes the sign of the dividend. */
  function JsRem(a: int, n: int): (r: int)
    requires n > 0
    ensures -n < r < n
    ensures (a - r) % n == 0
    ensures a >= 0 ==> r >= 0
    ensures a < 0 ==> r <= 0
  {
    if a >= 0 then
      DividendMinusRem(a, n);
      a % n
    else
      DividendMinusRem(-a, n);
      NegatedMultiple(-a - (-a) % n, n);
      -((-a) % n)
  }

  /** `nextImage`: `(prev + 1) % images.length`. */
  function Next(i: int, n: int): (j: int)
    requires n > 0
    ensures 0 <= i ==> 0 <= j < n
  {
    JsRem(i + 1, n)
  }

  /** `prevImage`: `(prev - 1 + images.length) % images.length`. */
  function Prev(i: int, n: int): (j: int)
    requires n > 0
    ensures 0 <= i ==> 0 <= j < n
  {
    JsRem(i - 1 + n, n)
  }

  lemma MulAtLeast(n: int, q: int)
    requires n > 0 && q >= 1
    ensures n * q >= n
  {
    var m := n * (q - 1);
    assert n * q == m + n;
    if q > 1 { MulAtLeast(n, q - 1); }
  }

  lemma MulNegative(n: int, q: int)
    requires n > 0 && q <= -1
    ensures n * q <= -n
  {
    MulAtLeast(n, -q);
    assert n * q == -(n * (-q));
  }

  /** The remainder is the `r` of any decomposition `a == n * q + r` with `0 <= r < n`. */
  lemma ModUnique(a: int, n: int, q: int, r: int)
    requires n > 0 && a == n * q + r && 0 <= r < n
    ensures a % n == r
  {
    var q', r' := a / n, a % n;
    assert a == n * q' + r';
    var d := q - q';
    assert n * d == r' - r by { assert n * q - n * q' == n * (q - q'); }
    if d >= 1 { MulAtLeast(n, d); }
    else if d <= -1 { MulNegative(n, d); }
  }

  lemma ModSmall(a: int, n: int)
    requires n > 0 && 0 <= a < 2 * n
    ensures a % n == if a < n then a else a - n
  {
    if a < n { ModUnique(a, n, 0, a); } else { ModUnique(a, n, 1, a - n); }
  }

  lemma ModSucc(a: nat, n: int)
    requires n > 0
    ensures ((a % n) + 1) % n == (a + 1) % n
  {
    var q, r := a / n, a % n;
    assert a == n * q + r;
    ModSmall(r + 1, n);
    if r + 1 < n {
      ModUnique(a + 1, n, q, r + 1);
    } else {
      assert a + 1 == n * (q + 1) + 0;
      ModUnique(a + 1, n, q + 1, 0);
    }
  }

  /** What Euclidean `%` leaves behind is a multiple of the divisor. */
  lemma DividendMinusRem(a: int, n: int)
    requires n > 0
    ensures (a - a % n) % n == 0
  {
    assert a - a % n == n * (a / n);
    MultipleRem(a / n, n);
  }

  /** A multiple of `n` leaves no remainder. */
  lemma MultipleRem(q: int, n: int)
    requires n > 0
    ensures (n * q) % n == 0
  {
    ModUnique(n * q, n, q, 0);
  }

  /** The negation of a multiple of `n` is a multiple of `n`. */
  lemma NegatedMultiple(m: int, n: int)
    requires n > 0 && m % n == 0
    ensures (-m) % n == 0
  {
    assert m == n * (m / n);
    assert -m == n * (-(m / n));
    MultipleRem(-(m / n), n);
  }

  /** Moving forward steps to the following image and wraps from the last to the
      first; moving back steps to the preceding one and wraps from the first to the
      last; each undoes the other. */
  lemma NextPrevInverse(i: int, n: int)
    requires 0 <= i < n
    ensures Next(i, n) == if i == n - 1 then 0 else i + 1
    ensures Prev(i, n) == if i == 0 then n - 1 else i - 1
    ensures Prev(Next(i, n), n) == i
    ensures Next(Prev(i, n), n) == i
  {
    ModSmall(i + 1, n);
    ModSmall(i - 1 + n, n);
    var j, k := Next(i, n), Prev(i, n);
    ModSmall(j - 1 + n, n);
    ModSmall(k + 1, n);
  }

  /** The index after `k` presses of the next arrow. */
  function Advance(i: int, n: int, k: nat): int
    requires n > 0
  {
    if k == 0 then i else Next(Advance(i, n, k - 1), n)
  }

  /** `k` presses of the next arrow move `k` places round the ring. */
  lemma {:induction false} AdvanceIsModular(i: int, n: int, k: nat)
    requires 0 <= i < n
    ensures Advance(i, n, k) == (i + k) % n
  {
    if k == 0 {
      ModSmall(i, n);
    } else {
      AdvanceIsModular(i, n, k - 1);
      ModSucc(i + k - 1, n);
    }
  }

  /** As many presses of the next arrow as there are images return to the image
      the carousel started on. */
  lemma FullCycle(i: int, n: int)
    requires 0 <= i < n
    ensures Advance(i, n, n) == i
  {
    AdvanceIsModular(i, n, n);
    ModUnique(i + n, n, 1, i);
  }

  /** The View More toggle: a non-empty description with more than three lines or
      more than 150 characters. */
  function ShowsViewMore(description: Option<string>): bool {
    && description.Some?
    && description.value != ""
    && (|Split(description.value, '\n')| > 3 || |description.value| > 150)
  }

  /** The toggle shows exactly when the description is non-empty and holds at least
      three line breaks or more than 150 characters. */
  lemma ViewMoreRule(description: Option<string>)
    ensures ShowsViewMore(description) <==>
      description.Some? && description.value != "" &&
      (Count(description.value, '\n') >= 3 || |description.value| > 150)
  {
    if description.Some? {
      SplitSpec(description.value, '\n');
    }
  }

  /** What the card's image area shows: the "No Image" placeholder, an image, or an
      `<img>` whose source is `undefined` because the index is past the end. */
  datatype Picture = Placeholder | Image(url: string) | Missing

  /** `images.length > 0 ? images[currentImageIndex] : placeholder`. */
  function PictureAt(images: seq<string>, index: int): (p: Picture)
    ensures p.Placeholder? <==> images == []
    ensures p.Image? ==> 0 <= index < |images| && p.url == images[index]
    ensures 0 <= index < |images| ==> p.Image?
  {
    if |images| > 0 then
      if 0 <= index < |images| then Image(images[index]) else Missing
    else Placeholder
  }

  /** The index a card should keep when its listing's images change: the same index
      while it still names an image, otherwise the first image, as on a fresh card. */
  function ClampIndex(index: int, count: int): (j: int)
    requires 0 <= index
    ensures 0 <= j && (j < count || j == 0)
    ensures index < count ==> j == index
    ensures index >= count ==> j == 0
  {
    if index < count then index else 0
  }

  /** A mounted card on the third of three images that receives a row of the same car
      with only two images: the index is kept, the image source is `undefined` and the
      counter reads "3 / 2". */
  lemma StaleIndexAfterPropChange()
    ensures ImageList(Some("a"), Some(["b", "c"])) == ["a", "b", "c"]
    ensures ImageList(Some("a"), Some(["b"])) == ["a", "b"]
    ensures PictureAt(["a", "b", "c"], 2) == Image("c")
    ensures PictureAt(["a", "b"], 2) == Missing
  {
    var two, three := ["a", "b"], ["a", "b", "c"];
    assert ["b", "c"][..1] == ["b"];
    assert ["b"][..0] == [];
    assert Filter(["b"], NonBlank()) == ["b"];
    assert Filter(["b", "c"], NonBlank()) == ["b", "c"];
    assert AppendNew(["a"], ["b"]) == two;
    assert "c" !in two;
    assert AppendNew(["a"], ["b", "c"]) == three;
  }

  /** The state of one card. */
  class CardView {
    /** The `images` memo; it is recomputed when the mounted card receives a new row
        for the same car as its prop, while the index state survives. */
    var images: seq<string>
    var currentImageIndex: int
    var showImageModal: bool
    var showFullDescription: bool

    /** The index always names an image, or is 0 when there is none. */
    ghost predicate Valid()
      reads this
    {
      0 <= currentImageIndex && (currentImageIndex < |images| || currentImageIndex == 0)
    }

    constructor (car: Car)
      ensures images == ImageList(car.imageUrl, car.imageUrls)
      ensures Valid() && currentImageIndex == 0 && !showImageModal && !showFullDescription
    {
      var list := CollectImages(car.imageUrl, car.imageUrls);
      images := list;
      currentImageIndex := 0;
      showImageModal := false;
      showFullDescription := false;
    }

    /** A new `car` prop on the mounted card, for the same `key`: the memo is recomputed and every state
        variable, the index included, is kept as it was. */
    method ReceiveCar(car: Car)
      modifies this`images
      ensures images == ImageList(car.imageUrl, car.imageUrls)
    {
      images := CollectImages(car.imageUrl, car.imageUrls);
    }

    /** `ReceiveCar` with the index brought back into range. */
    method ReceiveCarClamped(car: Car)
      requires 0 <= currentImageIndex
      modifies this`images, this`currentImageIndex
      ensures images == ImageList(car.imageUrl, car.imageUrls)
      ensures currentImageIndex == ClampIndex(old(currentImageIndex), |images|)
      ensures Valid()
    {
      images := CollectImages(car.imageUrl, car.imageUrls);
      currentImageIndex := ClampIndex(currentImageIndex, |images|);
    }

    /** The arrows (and the indicator dots) are rendered only for more than one image. */
    predicate ArrowsShown()
      reads this
    {
      |images| > 1
    }

    /** The image area: the placeholder exactly when there is no image, the image the
        index names when it names one, and never a missing image while `Valid()`. */
    function ShownImage(): (shown: Picture)
      reads this
      ensures shown.Placeholder? <==> |images| == 0
      ensures shown.Image? ==> 0 <= currentImageIndex < |images| && shown.url == images[currentImageIndex]
      ensures shown.Missing? <==> |images| > 0 && !(0 <= currentImageIndex < |images|)
      ensures 0 <= currentImageIndex < |images| ==> shown == Image(images[currentImageIndex])
      ensures Valid() ==> !shown.Missing?
    {
      PictureAt(images, currentImageIndex)
    }

    /** The right arrow. */
    method NextImage()
      requires 0 <= currentImageIndex && ArrowsShown()
      modifies this`currentImageIndex
      ensures Valid()
      ensures currentImageIndex == Next(old(currentImageIndex), |images|)
    {
      currentImageIndex := JsRem(currentImageIndex + 1, |images|);
    }

    /** The left arrow. */
    method PrevImage()
      requires 0 <= currentImageIndex && ArrowsShown()
      modifies this`currentImageIndex
      ensures Valid()
      ensures currentImageIndex == Prev(old(currentImageIndex), |images|)
    {
      currentImageIndex := JsRem(currentImageIndex - 1 + |images|, |images|);
    }

    /** An indicator dot. */
    method SelectImage(index: int)
      requires ArrowsShown() && 0 <= index < |images|
      modifies this`currentImageIndex
      ensures Valid() && currentImageIndex == index
    {
      currentImageIndex := index;
    }

    /** `handleImageClick`: opens the modal only when there is an image. */
    method HandleImageClick()
      modifies this`showImageModal
      ensures showImageModal == (old(showImageModal) || |images| > 0)
    {
      if |images| > 0 {
        showImageModal := true;
      }
    }

    /** The modal's close button. */
    method CloseImageModal()
      modifies this`showImageModal
      ensures !showImageModal
    {
      showImageModal := false;
    }

    /** The View More / View Less button. */
    method ToggleDescription()
      modifies this`showFullDescription
      ensures showFullDescription == !old(showFullDescription)
    {
      showFullDescription := !showFullDescription;
    }
  }
}
