/** The admin form that adds or edits a listing: its initial state, the editing of
    the two image lists, the file extension of an upload, the record it saves and
    the outcome of a submit. */
module CarForm {
  import opened Wrappers
  import opened Seqs
  import opened Strings
  import opened JsNumbers
  import opened Cars
  import opened Images

  /** The form fields. `year` is `None` when the year input was cleared (its
      `parseInt` gave NaN); `price` is the number loaded from the record or the text
      typed into the input. */
  datatype FormData = FormData(
    brand: string,
    model: string,
    year: Option<int>,
    price: Price,
    description: string)

  /** JavaScript truthiness of a price: 0 and the empty string are falsy. */
  predicate Truthy(p: Price) {
    match p
    case Num(n) => n != 0
    case Text(s) => s != ""
  }

  /** The initial fields: each `car?.field || default`. */
  function InitialFormData(car: Option<Car>, currentYear: int): (d: FormData)
    ensures car.None? ==> d == FormData("", "", Some(currentYear), Text(""), "")
    ensures car.Some? ==> d.brand == car.value.brand && d.model == car.value.model
    ensures d.year.Some?
    ensures car.Some? && car.value.year != 0 ==> d.year.value == car.value.year
    ensures car.Some? && car.value.year == 0 ==> d.year.value == currentYear
    ensures car.Some? && Truthy(car.value.price) ==> d.price == car.value.price
    ensures car.Some? && !Truthy(car.value.price) ==> d.price == Text("")
    ensures !Truthy(d.price) ==> d.price == Text("")
    ensures car.Some? && car.value.description.Some? ==> d.description == car.value.description.value
    ensures car.Some? && car.value.description.None? ==> d.description == ""
  {
    match car
    case None => FormData("", "", Some(currentYear), Text(""), "")
    case Some(c) =>
      FormData(
        c.brand,
        c.model,
        Some(if c.year != 0 then c.year else currentYear),
        if Truthy(c.price) then c.price else Text(""),
        match c.description case Some(s) => s case None => "")
  }

  /** The extension of an upload: `name.split('.').pop()`. */
  function FileExtension(name: string): string {
    LastSegment(name, '.')
  }

  /** The extension holds no dot and ends the name; it is the whole name when the
      name has no dot, and otherwise it follows the name's last dot. */
  lemma FileExtensionSpec(name: string)
    ensures '.' !in FileExtension(name)
    ensures '.' !in name ==> FileExtension(name) == name
    ensures var ext := FileExtension(name);
      |ext| <= |name| && name[|name| - |ext|..] == ext &&
      ('.' in name ==> |ext| < |name| && name[|name| - |ext| - 1] == '.')
  {
    LastSegmentIsAfterLast(name, '.');
  }

  /** The record written to the `cars` table. `year` and `price` are `None` where the
      parse gives NaN. */
  datatype CarData = CarData(
    brand: string,
    model: string,
    year: Option<int>,
    price: Option<int>,
    description: Option<string>,
    imageUrl: Option<string>,
    imageUrls: Option<seq<string>>,
    updatedAt: string)

  /** `value.toString()` of the year field; NaN prints as "NaN". */
  function YearText(year: Option<int>): string {
    match year
    case Some(n) => Show(n)
    case None => "NaN"
  }

  /** `value.toString()` of the price field. */
  function PriceText(p: Price): string {
    match p
    case Num(n) => Show(n)
    case Text(s) => s
  }

  /** `parseInt(year.toString())`. */
  function SavedYear(year: Option<int>): Option<int> {
    ParseInt(YearText(year))
  }

  /** The year field is saved as it stands, NaN included. */
  lemma SavedYearSpec(year: Option<int>)
    ensures SavedYear(year) == year
  {
    match year
    case Some(n) => ParseIntOfShow(n);
    case None => assert LeadingDigits("NaN") == [];
  }

  /** `parseFloat(price.toString())`. */
  function SavedPrice(p: Price): Option<int> {
    ParseInt(PriceText(p))
  }

  /** A numeric price is saved unchanged; a typed price is parsed. */
  lemma SavedPriceSpec(p: Price)
    ensures p.Num? ==> SavedPrice(p) == Some(p.n)
    ensures p.Text? ==> SavedPrice(p) == ParseInt(p.s)
  {
    if p.Num? {
      ParseIntOfShow(p.n);
    }
  }

  /** `description.trim() || null`. */
  function SavedDescription(description: string): (saved: Option<string>)
    ensures saved.None? <==> Trim(description) == []
    ensures saved.Some? ==> saved.value == Trim(description)
    ensures saved.Some? ==> saved.value != [] && NoEdgeSpace(saved.value)
  {
    TrimEdges(description);
    var t := Trim(description);
    if t != [] then Some(t) else None
  }

  /** `allImageUrls[0] || null`. */
  function FirstImage(allImageUrls: seq<string>): (first: Option<string>)
    ensures first.Some? <==> allImageUrls != [] && allImageUrls[0] != ""
    ensures first.Some? ==> first.value == allImageUrls[0]
  {
    if allImageUrls != [] && allImageUrls[0] != "" then Some(allImageUrls[0]) else None
  }

  /** `allImageUrls.length > 0 ? allImageUrls : null`. */
  function ImageColumn(allImageUrls: seq<string>): (column: Option<seq<string>>)
    ensures column.None? <==> allImageUrls == []
    ensures column.Some? ==> column.value == allImageUrls
  {
    if |allImageUrls| > 0 then Some(allImageUrls) else None
  }

  /** The `carData` object built from the fields and the combined image list. */
  function BuildCarData(d: FormData, allImageUrls: seq<string>, now: string): CarData {
    CarData(
      Trim(d.brand),
      Trim(d.model),
      SavedYear(d.year),
      SavedPrice(d.price),
      SavedDescription(d.description),
      FirstImage(allImageUrls),
      ImageColumn(allImageUrls),
      now)
  }

  /** What the saved record holds: brand and model without surrounding white space, the
      year and a numeric price unchanged, a description that is blank after trimming
      stored as null, the whole image list (null when empty) and its first image. */
  lemma CarDataSpec(d: FormData, allImageUrls: seq<string>, now: string)
    ensures var data := BuildCarData(d, allImageUrls, now);
      && data.brand == Trim(d.brand) && data.model == Trim(d.model)
      && NoEdgeSpace(data.brand) && NoEdgeSpace(data.model)
      && data.year == d.year
      && (d.price.Num? ==> data.price == Some(d.price.n))
      && (d.price.Text? ==> data.price == ParseInt(d.price.s))
      && (data.description.None? <==> Trim(d.description) == [])
      && (data.description.Some? ==> data.description.value == Trim(d.description))
      && (data.imageUrls.None? <==> allImageUrls == [])
      && (data.imageUrls.Some? ==> data.imageUrls.value == allImageUrls)
      && (data.imageUrl.Some? <==> allImageUrls != [] && allImageUrls[0] != "")
      && (data.imageUrl.Some? ==> data.imageUrl.value == allImageUrls[0])
      && data.updatedAt == now
  {
    TrimEdges(d.brand);
    TrimEdges(d.model);
    SavedYearSpec(d.year);
    SavedPriceSpec(d.price);
  }

  /** Reopening a saved listing in the form and saving it again without edits keeps
      its brand, model and description: the saved text is already trimmed. */
  lemma ResaveKeepsText(d: FormData, allImageUrls: seq<string>, now: string, car: Car,
                        currentYear: int, later: string)
    requires var data := BuildCarData(d, allImageUrls, now);
      car.brand == data.brand && car.model == data.model && car.description == data.description
    ensures var again := BuildCarData(InitialFormData(Some(car), currentYear), allImageUrls, later);
      again.brand == car.brand && again.model == car.model && again.description == car.description
  {
    TrimIdempotent(d.brand);
    TrimIdempotent(d.model);
    TrimIdempotent(d.description);
    if car.description.None? {
      assert Trim("") == [];
    }
  }

  /** A saved list of distinct, non-empty URLs reads back unchanged: the card (or a
      later edit of the record) rebuilds exactly that image list from the two image
      columns. */
  lemma SavedImagesReload(d: FormData, allImageUrls: seq<string>, now: string)
    requires NoDup(allImageUrls)
    requires forall i :: 0 <= i < |allImageUrls| ==> allImageUrls[i] != ""
    ensures var data := BuildCarData(d, allImageUrls, now);
      ImageList(data.imageUrl, data.imageUrls) == allImageUrls
  {
    var data := BuildCarData(d, allImageUrls, now);
    if allImageUrls == [] {
      assert data.imageUrl == None && data.imageUrls == None;
      assert ImageList(data.imageUrl, data.imageUrls) == AppendNew([], Filter([], NonBlank()));
    } else {
      assert data.imageUrl == Some(allImageUrls[0]);
      assert data.imageUrls == Some(allImageUrls);
      ImageListOfDistinct(allImageUrls);
    }
  }

  /** A duplicate-free list of non-empty URLs, stored as its first image plus the whole
      list, reads back as itself. */
  lemma ImageListOfDistinct(urls: seq<string>)
    requires urls != [] && NoDup(urls)
    requires forall i :: 0 <= i < |urls| ==> urls[i] != ""
    ensures ImageList(Some(urls[0]), Some(urls)) == urls
  {
    assert forall i :: 0 <= i < |urls| ==> NonBlank()(urls[i]);
    FilterKeepsAll(urls, NonBlank());
    assert Primary(Some(urls[0])) == [urls[0]];
    AppendNewFromHead(urls);
  }

  lemma AppendNewFromHead<T>(s: seq<T>)
    requires s != [] && NoDup(s)
    ensures AppendNew([s[0]], s) == s
  {
    assert s == [s[0]] + s[1..];
    AppendNewSkipsKnown([s[0]], [s[0]], s[1..]);
    AppendNewDistinct([s[0]], s[1..]);
  }

  /** A chosen file; only its name matters to the model. */
  datatype File = File(name: string)

  /** How the upload of the chosen files ended: the public URLs, or the first failure
      with the file's name and the storage message. */
  datatype UploadOutcome = Uploaded(urls: seq<string>) | UploadFailed(fileName: string, message: string)

  /** What the table update or insert threw: an `Error` with its message, or some
      other value. */
  datatype SaveFailure = ErrorWithMessage(message: string) | OtherThrown

  /** The write a submit issues: an update of an existing row or an insert. */
  datatype SaveRequest = Update(id: string, data: CarData) | Insert(data: CarData)

  /** The message an upload failure shows (it always throws an `Error`). */
  function UploadErrorText(fileName: string, message: string): string {
    "Failed to upload " + fileName + ": " + message
  }

  /** The message a failed write shows. */
  function SaveErrorText(f: SaveFailure): string {
    match f
    case ErrorWithMessage(m) => m
    case OtherThrown => "Failed to save car. Please try again."
  }

  /** The URLs `uploadImages` gives: none without chosen files (no upload happens). */
  function NewImageUrls(files: seq<File>, upload: UploadOutcome): seq<string> {
    if files == [] || upload.UploadFailed? then [] else upload.urls
  }

  /** The write for the record: an update of the edited row, or an insert. */
  function SaveRequestFor(car: Option<Car>, d: FormData, allImageUrls: seq<string>, now: string): SaveRequest {
    var data := BuildCarData(d, allImageUrls, now);
    if car.Some? then Update(car.value.id, data) else Insert(data)
  }

  /** The state of one open form. */
  class FormState {
    /** The listing being edited, or none for a new one. */
    const car: Option<Car>
    var loading: bool
    var error: string
    var formData: FormData
    var selectedFiles: seq<File>
    var previewUrls: seq<string>
    var existingImages: seq<string>

    /** The kept images, like any image list, hold no duplicate and no empty URL. */
    ghost predicate Valid()
      reads this
    {
      NoDup(existingImages) && "" !in existingImages
    }

    constructor (car: Option<Car>, currentYear: int)
      ensures this.car == car && !loading && error == ""
      ensures formData == InitialFormData(car, currentYear)
      ensures selectedFiles == [] && previewUrls == []
      ensures car.Some? ==> existingImages == ImageList(car.value.imageUrl, car.value.imageUrls)
      ensures car.None? ==> existingImages == []
      ensures Valid()
    {
      this.car := car;
      loading := false;
      error := "";
      formData := InitialFormData(car, currentYear);
      selectedFiles := [];
      previewUrls := [];
      var images: seq<string> := [];
      if car.Some? {
        images := CollectImages(car.value.imageUrl, car.value.imageUrls);
        ImageListSpec(car.value.imageUrl, car.value.imageUrls);
      }
      existingImages := images;
    }

    /** The brand input. */
    method EditBrand(value: string)
      modifies this`formData
      ensures formData == old(formData).(brand := value)
    {
      formData := formData.(brand := value);
    }

    /** The model input. */
    method EditModel(value: string)
      modifies this`formData
      ensures formData == old(formData).(model := value)
    {
      formData := formData.(model := value);
    }

    /** The year input: `parseInt(value)`, NaN when it holds no number. */
    method EditYear(value: string)
      modifies this`formData
      ensures formData == old(formData).(year := ParseInt(value))
    {
      formData := formData.(year := ParseInt(value));
    }

    /** The price input keeps the typed text. */
    method EditPrice(value: string)
      modifies this`formData
      ensures formData == old(formData).(price := Text(value))
    {
      formData := formData.(price := Text(value));
    }

    /** The description text area. */
    method EditDescription(value: string)
      modifies this`formData
      ensures formData == old(formData).(description := value)
    {
      formData := formData.(description := value);
    }

    /** `handleImageChange`: choosing no file changes nothing; otherwise the new
        files follow the earlier selection in the order chosen. */
    method HandleImageChange(files: seq<File>)
      modifies this`selectedFiles
      ensures files == [] ==> selectedFiles == old(selectedFiles)
      ensures selectedFiles == old(selectedFiles) + files
    {
      if files == [] {
        return;
      }
      selectedFiles := selectedFiles + files;
    }

    /** A preview finished reading: its data URL is appended, in completion order. */
    method PreviewLoaded(dataUrl: string)
      modifies this`previewUrls
      ensures previewUrls == old(previewUrls) + [dataUrl]
    {
      previewUrls := previewUrls + [dataUrl];
    }

    /** `removeNewImage`: the same position leaves both the chosen files and the
        previews; any other position is kept, in order. */
    method RemoveNewImage(index: int)
      modifies this`selectedFiles, this`previewUrls
      ensures selectedFiles == RemoveAt(old(selectedFiles), index)
      ensures previewUrls == RemoveAt(old(previewUrls), index)
    {
      selectedFiles := RemoveAt(selectedFiles, index);
      previewUrls := RemoveAt(previewUrls, index);
    }

    /** `removeExistingImage`. */
    method RemoveExistingImage(index: int)
      requires Valid()
      modifies this`existingImages
      ensures existingImages == RemoveAt(old(existingImages), index)
      ensures Valid()
    {
      RemoveAtKeepsDistinct(existingImages, index);
      existingImages := RemoveAt(existingImages, index);
    }

    /** `handleSubmit`. Uploading is skipped when no file is chosen; a failed upload
        stops before any write; a failed write stops before `onSubmit`. Either way
        the error text says what failed and `loading` ends false. */
    method HandleSubmit(upload: UploadOutcome, saveFailure: Option<SaveFailure>, now: string)
      returns (request: Option<SaveRequest>, submitted: bool)
      modifies this`loading, this`error
      ensures !loading
      ensures request.Some? <==> selectedFiles == [] || upload.Uploaded?
      ensures selectedFiles != [] && upload.UploadFailed? ==>
        error == UploadErrorText(upload.fileName, upload.message)
      ensures request.Some? ==> request.value == SaveRequestFor(car, formData, existingImages + NewImageUrls(selectedFiles, upload), now)
      ensures submitted <==> request.Some? && saveFailure.None?
      ensures submitted ==> error == ""
      ensures request.Some? && saveFailure.Some? ==> error == SaveErrorText(saveFailure.value)
    {
      loading := true;
      error := "";
      if selectedFiles != [] && upload.UploadFailed? {
        error := UploadErrorText(upload.fileName, upload.message);
        loading := false;
        return None, false;
      }
      request := Some(SaveRequestFor(car, formData, existingImages + NewImageUrls(selectedFiles, upload), now));
      submitted := saveFailure.None?;
      if saveFailure.Some? {
        error := SaveErrorText(saveFailure.value);
      }
      loading := false;
    }
  }
}
