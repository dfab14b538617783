/** `ProductForm`: the create/edit product form. Its state is the field
    values, the per-field error messages, the image staging list and the two
    tag input buffers; every handler is a function from state to state.
    Toasts, navigation, the step indicator and the loading flag are not part
    of the state. */
module ProductForm {
  import opened Wrappers
  import opened Text
  import opened Seqs
  import opened ProductSchema
  import opened ImageStaging
  import opened TagList

  /** The form's mode; an edit form knows the id of the product it edits. */
  datatype Mode = Create | Edit(productId: string)

  /** `formData`. */
  datatype FormData = FormData(
    name: string,
    description: string,
    price: real,
    category: Category,
    ingredients: seq<string>,
    allergens: seq<string>,
    isAvailable: bool)

  /** The keys of `formData`, plus the images pseudo-field. */
  datatype Field =
    | NameField | DescriptionField | PriceField | CategoryField
    | IngredientsField | AllergensField | AvailabilityField | ImagesField

  /** `Object.keys(formData)`, in declaration order. */
  const FormKeys: seq<Field> :=
    [NameField, DescriptionField, PriceField, CategoryField, IngredientsField, AllergensField, AvailabilityField]

  const NameMinLength := 2
  const NameMaxLength := 100
  const DescriptionMinLength := 10
  const MaxPrice: real := 100000.0

  datatype FormState = FormState(
    mode: Mode,
    data: FormData,
    errors: map<Field, string>,
    staging: Staging,
    newIngredient: string,
    newAllergen: string)

  // ----- field validation (`validateField`) -----

  /** The name rule: it fails exactly when the trimmed name is shorter than
      2 or longer than 100 characters; a blank name gets the "required"
      message. */
  function ValidateName(value: string): (r: Option<string>)
    ensures r.None? <==> NameMinLength <= |Trim(value)| <= NameMaxLength
    ensures Trim(value) == [] ==> r == Some("Product name is required")
  {
    var t := Trim(value);
    if t == [] then Some("Product name is required")
    else if |t| < NameMinLength then Some("Name must be at least 2 characters")
    else if |t| > NameMaxLength then Some("Name must be less than 100 characters")
    else None
  }

  /** The description rule: it fails exactly when the trimmed description is
      shorter than 10 characters; there is no upper bound. */
  function ValidateDescription(value: string): (r: Option<string>)
    ensures r.None? <==> |Trim(value)| >= DescriptionMinLength
    ensures Trim(value) == [] ==> r == Some("Description is required")
  {
    var t := Trim(value);
    if t == [] then Some("Description is required")
    else if |t| < DescriptionMinLength then Some("Description must be at least 10 characters")
    else None
  }

  /** The price rule: it passes exactly for prices above 0 and at most
      100000. */
  function ValidatePrice(price: real): (r: Option<string>)
    ensures r.None? <==> 0.0 < price <= MaxPrice
  {
    if price <= 0.0 then Some("Price must be greater than 0")
    else if price > MaxPrice then Some("Price seems unrealistic")
    else None
  }

  /** The images rule: only a create form with no image fails. */
  function ValidateImages(mode: Mode, imageCount: nat): (r: Option<string>)
    ensures r.None? <==> mode.Edit? || imageCount > 0
  {
    if mode.Create? && imageCount == 0 then Some("At least one image is required") else None
  }

  /** `validateField(field, formData[field])`: category, ingredients,
      allergens and availability have no rule. */
  function FieldError(field: Field, data: FormData, mode: Mode, imageCount: nat): (r: Option<string>)
    ensures field in {CategoryField, IngredientsField, AllergensField, AvailabilityField} ==> r.None?
  {
    match field
    case NameField => ValidateName(data.name)
    case DescriptionField => ValidateDescription(data.description)
    case PriceField => ValidatePrice(data.price)
    case ImagesField => ValidateImages(mode, imageCount)
    case _ => None
  }

  /** The errors of the listed fields, one entry per failing field. */
  function CollectErrors(keys: seq<Field>, data: FormData, mode: Mode, imageCount: nat): (m: map<Field, string>)
    ensures forall f :: f in m <==> f in keys && FieldError(f, data, mode, imageCount).Some?
    ensures forall f :: f in m ==> m[f] == FieldError(f, data, mode, imageCount).value
  {
    if keys == [] then map[]
    else
      var m := CollectErrors(keys[1..], data, mode, imageCount);
      match FieldError(keys[0], data, mode, imageCount)
      case Some(msg) => m[keys[0] := msg]
      case None => m
  }

  datatype Validation = Validation(errors: map<Field, string>, ok: bool)

  /** `validateForm`. The new error map holds an entry for exactly the
      failing fields, and the form is valid exactly when the name,
      description and price rules pass and the form is in edit mode or has
      an image. */
  function ValidateForm(data: FormData, mode: Mode, imageCount: nat): (v: Validation)
    ensures v.ok <==>
              && ValidateName(data.name).None?
              && ValidateDescription(data.description).None?
              && ValidatePrice(data.price).None?
              && (mode.Edit? || imageCount > 0)
    ensures v.ok <==> v.errors == map[]
    ensures forall f :: f in v.errors <==> FieldError(f, data, mode, imageCount).Some?
    ensures forall f :: f in v.errors ==> v.errors[f] == FieldError(f, data, mode, imageCount).value
  {
    var m := CollectErrors(FormKeys, data, mode, imageCount);
    var errors := match ValidateImages(mode, imageCount)
                  case Some(msg) => m[ImagesField := msg]
                  case None => m;
    EmptyExactlyWhenAllPass(errors, data, mode, imageCount);
    Validation(errors, errors == map[])
  }

  /** A map keyed by exactly the failing fields is empty exactly when the
      four rules that can fail all pass. */
  lemma EmptyExactlyWhenAllPass(errors: map<Field, string>, data: FormData, mode: Mode, imageCount: nat)
    requires forall f :: f in errors <==> FieldError(f, data, mode, imageCount).Some?
    ensures errors == map[] <==>
              && ValidateName(data.name).None?
              && ValidateDescription(data.description).None?
              && ValidatePrice(data.price).None?
              && (mode.Edit? || imageCount > 0)
  {
    if ValidateName(data.name).None? && ValidateDescription(data.description).None?
       && ValidatePrice(data.price).None? && (mode.Edit? || imageCount > 0) {
      assert forall f :: f !in errors;
      assert errors.Keys == {};
    } else if ValidateName(data.name).Some? {
      assert NameField in errors;
    } else if ValidateDescription(data.description).Some? {
      assert DescriptionField in errors;
    } else if ValidatePrice(data.price).Some? {
      assert PriceField in errors;
    } else {
      assert ImagesField in errors;
    }
  }

  // ----- initial state -----

  /** The field values a form starts from: the product's, with an absent
      product giving empty text, price 0 and category Cake, and absent lists
      and availability giving empty lists and true. */
  function InitialData(product: Option<Product>): (d: FormData)
    ensures product.None? ==> d == FormData("", "", 0.0, Cake, [], [], true)
    ensures product.Some? ==>
              && d.name == product.value.name
              && d.description == product.value.description
              && d.price == product.value.price
              && d.category == product.value.category
              && d.ingredients == product.value.ingredients.GetOr([])
              && d.allergens == product.value.allergens.GetOr([])
              && d.isAvailable == product.value.isAvailable.GetOr(true)
  {
    match product
    case None => FormData("", "", 0.0, Cake, [], [], true)
    case Some(p) =>
      FormData(p.name, p.description, p.price, p.category,
               p.ingredients.GetOr([]), p.allergens.GetOr([]), p.isAvailable.GetOr(true))
  }

  /** The form after mounting: no error shown, empty tag buffers, and one
      existing-image draft per URL of the product. */
  function InitialForm(mode: Mode, product: Option<Product>): (st: FormState)
    ensures st.errors == map[] && st.newIngredient == "" && st.newAllergen == ""
    ensures st.data == InitialData(product)
    ensures Wf(st.staging) && NoLeak(st.staging) && UniqueIds(st.staging.images)
    ensures |st.staging.images| == (if product.Some? then |product.value.images| else 0)
    ensures st.mode == mode
    ensures var urls := if product.Some? then product.value.images else [];
            && ExistingUrls(st.staging.images) == seq(|urls|, i requires 0 <= i < |urls| => Remote(urls[i]))
            && DraftFiles(st.staging.images) == []
  {
    var urls := if product.Some? then product.value.images else [];
    InitialStagingWf(urls);
    InitialExistingUrls(urls);
    FormState(mode, InitialData(product), map[], InitialStaging(urls), "", "")
  }

  // ----- field edits (the inputs' change handlers) -----

  datatype Edit =
    | SetName(name: string)
    | SetDescription(description: string)
    | SetPrice(price: real)
    | SetCategory(category: Category)
    | SetAvailable(available: bool)
    | TypeIngredient(text: string)
    | TypeAllergen(text: string)

  /** The error slot of `field` set to `error`; no message removes it. */
  function SetError(errors: map<Field, string>, field: Field, error: Option<string>): (m: map<Field, string>)
    ensures field in m <==> error.Some?
    ensures field in m ==> m[field] == error.value
    ensures forall f :: f != field ==> (f in m <==> f in errors) && (f in m ==> m[f] == errors[f])
  {
    match error
    case Some(msg) => errors[field := msg]
    case None => errors - {field}
  }

  /** The field an edit validates, if any. */
  function EditedField(e: Edit): Option<Field> {
    match e
    case SetName(_) => Some(NameField)
    case SetDescription(_) => Some(DescriptionField)
    case SetPrice(_) => Some(PriceField)
    case SetCategory(_) => Some(CategoryField)
    case _ => None
  }

  /** One change event: the field takes the new value and, for name,
      description, price and category, that field's message is recomputed
      from the new value; nothing else changes. */
  function ApplyEdit(st: FormState, e: Edit): (r: FormState)
    ensures r.mode == st.mode && r.staging == st.staging
    ensures e.SetName? ==> r.data == st.data.(name := e.name)
    ensures e.SetDescription? ==> r.data == st.data.(description := e.description)
    ensures e.SetPrice? ==> r.data == st.data.(price := e.price)
    ensures e.SetCategory? ==> r.data == st.data.(category := e.category)
    ensures e.SetAvailable? ==> r.data == st.data.(isAvailable := e.available)
    ensures e.TypeIngredient? || e.TypeAllergen? ==> r.data == st.data
    ensures EditedField(e).Some? ==>
              var f := EditedField(e).value;
              && (f in r.errors <==> FieldError(f, r.data, st.mode, |st.staging.images|).Some?)
              && (f in r.errors ==> r.errors[f] == FieldError(f, r.data, st.mode, |st.staging.images|).value)
    ensures forall f :: Some(f) != EditedField(e) ==>
              (f in r.errors <==> f in st.errors) && (f in r.errors ==> r.errors[f] == st.errors[f])
    ensures r.newIngredient == (if e.TypeIngredient? then e.text else st.newIngredient)
    ensures r.newAllergen == (if e.TypeAllergen? then e.text else st.newAllergen)
  {
    match e
    case SetName(v) =>
      st.(data := st.data.(name := v), errors := SetError(st.errors, NameField, ValidateName(v)))
    case SetDescription(v) =>
      st.(data := st.data.(description := v),
          errors := SetError(st.errors, DescriptionField, ValidateDescription(v)))
    case SetPrice(v) =>
      st.(data := st.data.(price := v), errors := SetError(st.errors, PriceField, ValidatePrice(v)))
    case SetCategory(c) =>
      st.(data := st.data.(category := c), errors := SetError(st.errors, CategoryField, None))
    case SetAvailable(b) => st.(data := st.data.(isAvailable := b))
    case TypeIngredient(t) => st.(newIngredient := t)
    case TypeAllergen(t) => st.(newAllergen := t)
  }

  /** The message an edit shows for its field is the one a submit attempt
      would report for that field. */
  lemma EditAgreesWithSubmit(st: FormState, e: Edit)
    requires EditedField(e).Some?
    ensures var r := ApplyEdit(st, e);
            var f := EditedField(e).value;
            var v := ValidateForm(r.data, r.mode, |r.staging.images|);
            && (f in r.errors <==> f in v.errors)
            && (f in r.errors ==> r.errors[f] == v.errors[f])
  {
  }

  // ----- images -----

  /** `handleImageUpload` on the form: the staging list changes as
      `UploadImages` says, and an images error is cleared once a file is
      accepted. */
  function UploadToForm(st: FormState, batch: seq<File>, clock: nat -> int): (r: FormState)
    ensures r.staging == UploadImages(st.staging, batch, clock).staging
    ensures r.data == st.data && r.mode == st.mode
    ensures UploadImages(st.staging, batch, clock).accepted > 0 ==> ImagesField !in r.errors
    ensures UploadImages(st.staging, batch, clock).accepted == 0 ==> r.errors == st.errors
    ensures forall f :: f != ImagesField ==> (f in r.errors <==> f in st.errors) && (f in r.errors ==> r.errors[f] == st.errors[f])
    ensures r == st.(staging := r.staging, errors := r.errors)
  {
    var u := UploadImages(st.staging, batch, clock);
    var errors := if u.accepted > 0 && ImagesField in st.errors then st.errors - {ImagesField} else st.errors;
    st.(staging := u.staging, errors := errors)
  }

  /** Once an upload accepts a file, the images rule passes whatever the
      other fields hold. */
  lemma AcceptedImageSatisfiesImagesRule(st: FormState, batch: seq<File>, clock: nat -> int)
    requires UploadImages(st.staging, batch, clock).accepted > 0
    ensures ValidateImages(st.mode, |UploadToForm(st, batch, clock).staging.images|).None?
  {
  }

  /** A create form with no image never passes validation. */
  lemma CreateWithoutImagesFails(data: FormData)
    ensures !ValidateForm(data, Create, 0).ok
    ensures ImagesField in ValidateForm(data, Create, 0).errors
  {
  }

  /** `removeImage(id)` on the form: only the staging list changes. */
  function RemoveFromForm(st: FormState, id: ImageId): (r: FormState)
    ensures r == st.(staging := RemoveImage(st.staging, id))
  {
    st.(staging := RemoveImage(st.staging, id))
  }

  // ----- tags -----

  datatype TagKind = Ingredients | Allergens

  /** `addTag(kind, buffer)`: on success the list grows and that buffer is
      cleared; otherwise nothing changes. */
  function AddFormTag(st: FormState, kind: TagKind): (r: FormState)
    ensures var value := if kind == Ingredients then st.newIngredient else st.newAllergen;
            var list := if kind == Ingredients then st.data.ingredients else st.data.allergens;
            match AddTag(list, value)
            case Added(l) =>
              if kind == Ingredients then r == st.(data := st.data.(ingredients := l), newIngredient := "")
              else r == st.(data := st.data.(allergens := l), newAllergen := "")
            case _ => r == st
  {
    match kind
    case Ingredients =>
      (match AddTag(st.data.ingredients, st.newIngredient)
       case Added(l) => st.(data := st.data.(ingredients := l), newIngredient := "")
       case _ => st)
    case Allergens =>
      (match AddTag(st.data.allergens, st.newAllergen)
       case Added(l) => st.(data := st.data.(allergens := l), newAllergen := "")
       case _ => st)
  }

  /** `removeTag(kind, index)`: only that list changes. */
  function RemoveFormTag(st: FormState, kind: TagKind, index: int): (r: FormState)
    ensures kind == Ingredients ==> r == st.(data := st.data.(ingredients := RemoveTag(st.data.ingredients, index)))
    ensures kind == Allergens ==> r == st.(data := st.data.(allergens := RemoveTag(st.data.allergens, index)))
  {
    match kind
    case Ingredients => st.(data := st.data.(ingredients := RemoveTag(st.data.ingredients, index)))
    case Allergens => st.(data := st.data.(allergens := RemoveTag(st.data.allergens, index)))
  }

  /** Neither tag operation can put a duplicate into a duplicate-free list. */
  lemma TagOpsKeepListsDuplicateFree(st: FormState, kind: TagKind, index: int)
    requires NoDup(st.data.ingredients) && NoDup(st.data.allergens)
    ensures NoDup(AddFormTag(st, kind).data.ingredients) && NoDup(AddFormTag(st, kind).data.allergens)
    ensures NoDup(RemoveFormTag(st, kind, index).data.ingredients)
    ensures NoDup(RemoveFormTag(st, kind, index).data.allergens)
  {
    AddTagKeepsNoDup(st.data.ingredients, st.newIngredient);
    AddTagKeepsNoDup(st.data.allergens, st.newAllergen);
  }

  // ----- submission -----

  /** A scalar form value, sent as its string form. */
  datatype Scalar = Text(text: string) | Number(number: real) | Flag(flag: bool)

  /** One entry of the multipart body: a scalar, a JSON-encoded list of
      strings, a file, or a JSON-encoded list of image URLs. */
  datatype Part =
    | ScalarPart(key: string, value: Scalar)
    | ListPart(key: string, items: seq<string>)
    | FilePart(key: string, file: File)
    | UrlListPart(key: string, urls: seq<Url>)

  datatype Request = CreateProduct(body: seq<Part>) | UpdateProduct(id: string, body: seq<Part>)

  datatype SubmitOutcome = Refused | Sent(request: Request)

  /** The key a field is sent under. */
  function KeyName(f: Field): string {
    match f
    case NameField => "name"
    case DescriptionField => "description"
    case PriceField => "price"
    case CategoryField => "category"
    case IngredientsField => "ingredients"
    case AllergensField => "allergens"
    case AvailabilityField => "isAvailable"
    case ImagesField => "images"
  }

  /** The entries for `formData`, one per key in key order: ingredients and
      allergens as lists, everything else as scalars. `FieldPartsRoundTrip`
      shows the entries carry every value. */
  function FieldParts(data: FormData): (ps: seq<Part>)
    ensures |ps| == |FormKeys|
    ensures forall i :: 0 <= i < |ps| ==> ps[i].key == KeyName(FormKeys[i])
    ensures forall i :: 0 <= i < |ps| ==> (ps[i].ListPart? <==> FormKeys[i] in {IngredientsField, AllergensField})
    ensures forall i :: 0 <= i < |ps| ==> ps[i].ScalarPart? || ps[i].ListPart?
    ensures ps[4] == ListPart("ingredients", data.ingredients) && ps[5] == ListPart("allergens", data.allergens)
  {
    [ ScalarPart("name", Text(data.name)),
      ScalarPart("description", Text(data.description)),
      ScalarPart("price", Number(data.price)),
      ScalarPart("category", Text(CategoryName(data.category))),
      ListPart("ingredients", data.ingredients),
      ListPart("allergens", data.allergens),
      ScalarPart("isAvailable", Flag(data.isAvailable)) ]
  }

  /** The files the drafts carry, in list order: a file is attached exactly
      when some draft holds it. */
  function DraftFiles(images: seq<ImageDraft>): (r: seq<File>)
    ensures |r| <= |images|
    ensures forall f :: f in r <==> exists i :: 0 <= i < |images| && images[i].file == Some(f)
  {
    if images == [] then []
    else (if images[0].file.Some? then [images[0].file.value] else []) + DraftFiles(images[1..])
  }

  /** One `images` entry per draft that has a file, in list order. */
  function ImageParts(images: seq<ImageDraft>): (ps: seq<Part>)
    ensures |ps| == |DraftFiles(images)|
    ensures forall i :: 0 <= i < |ps| ==> ps[i] == FilePart("images", DraftFiles(images)[i])
  {
    if images == [] then []
    else (if images[0].file.Some? then [FilePart("images", images[0].file.value)] else []) + ImageParts(images[1..])
  }

  /** The URLs of the existing-image drafts, in list order: a URL is listed
      exactly when some existing draft has it. */
  function ExistingUrls(images: seq<ImageDraft>): (us: seq<Url>)
    ensures |us| <= |images|
    ensures forall u :: u in us <==> exists i :: 0 <= i < |images| && images[i].isExisting && images[i].url == u
  {
    if images == [] then []
    else (if images[0].isExisting then [images[0].url] else []) + ExistingUrls(images[1..])
  }

  /** The multipart body `handleSubmit` assembles. */
  function Payload(st: FormState): (ps: seq<Part>)
    ensures |ps| >= |FormKeys| + |DraftFiles(st.staging.images)|
    ensures ps[..|FormKeys|] == FieldParts(st.data)
    ensures ps[|FormKeys|..|FormKeys| + |DraftFiles(st.staging.images)|] == ImageParts(st.staging.images)
    ensures st.mode.Create? ==> |ps| == |FormKeys| + |DraftFiles(st.staging.images)|
    ensures st.mode.Edit? ==>
              && |ps| == |FormKeys| + |DraftFiles(st.staging.images)| + 1
              && ps[|ps| - 1] == UrlListPart("existingImages", ExistingUrls(st.staging.images))
  {
    var fields := FieldParts(st.data);
    var files := ImageParts(st.staging.images);
    var tail := if st.mode.Edit? then [UrlListPart("existingImages", ExistingUrls(st.staging.images))] else [];
    assert (fields + files + tail)[..|fields|] == fields;
    assert (fields + files + tail)[|fields|..|fields| + |files|] == files;
    fields + files + tail
  }

  /** `handleSubmit`: the form is validated and its errors replaced; only a
      valid form sends a request, a create request in create mode and an
      update of the edited product in edit mode, carrying the payload. */
  function Submit(st: FormState): (r: (FormState, SubmitOutcome))
    ensures r.0 == st.(errors := ValidateForm(st.data, st.mode, |st.staging.images|).errors)
    ensures r.1.Sent? <==> ValidateForm(st.data, st.mode, |st.staging.images|).ok
    ensures r.1.Sent? && st.mode.Create? ==> r.1.request == CreateProduct(Payload(st))
    ensures r.1.Sent? && st.mode.Edit? ==> r.1.request == UpdateProduct(st.mode.productId, Payload(st))
  {
    var v := ValidateForm(st.data, st.mode, |st.staging.images|);
    var st' := st.(errors := v.errors);
    if !v.ok then (st', Refused)
    else match st.mode
      case Create => (st', Sent(CreateProduct(Payload(st))))
      case Edit(id) => (st', Sent(UpdateProduct(id, Payload(st))))
  }

  // ----- reading a payload back -----

  /** The first entry with that key, as `FormData.get` returns it. */
  function Lookup(ps: seq<Part>, key: string): (r: Option<Part>)
    ensures r.None? <==> forall i :: 0 <= i < |ps| ==> ps[i].key != key
    ensures r.Some? ==> r.value in ps && r.value.key == key
  {
    if ps == [] then None
    else if ps[0].key == key then Some(ps[0])
    else Lookup(ps[1..], key)
  }

  /** The form data a multipart body describes, read back entry by entry:
      the first entry of each key, of the kind `FieldParts` writes, with a
      category name the schema knows. */
  function ReadFields(ps: seq<Part>): Option<FormData> {
    match (Lookup(ps, "name"), Lookup(ps, "description"), Lookup(ps, "price"), Lookup(ps, "category"),
           Lookup(ps, "ingredients"), Lookup(ps, "allergens"), Lookup(ps, "isAvailable"))
    case (Some(ScalarPart(_, Text(n))), Some(ScalarPart(_, Text(d))), Some(ScalarPart(_, Number(p))),
          Some(ScalarPart(_, Text(c))), Some(ListPart(_, ing)), Some(ListPart(_, al)),
          Some(ScalarPart(_, Flag(a)))) =>
      (match ParseCategory(c)
       case Some(cat) => Some(FormData(n, d, p, cat, ing, al, a))
       case None => None)
    case _ => None
  }

  /** The entry at `i` is the first with its key. */
  lemma {:induction false} LookupAt(ps: seq<Part>, i: nat)
    requires i < |ps|
    requires forall j :: 0 <= j < i ==> ps[j].key != ps[i].key
    ensures Lookup(ps, ps[i].key) == Some(ps[i])
  {
    if i > 0 {
      assert forall j :: 0 <= j < i - 1 ==> ps[1..][j] == ps[j + 1];
      LookupAt(ps[1..], i - 1);
    }
  }

  /** A body that starts with the field entries of `data` reads back as
      `data`, whatever follows them. */
  lemma ReadFieldsOfPrefix(ps: seq<Part>, data: FormData)
    requires |ps| >= |FormKeys| && ps[..|FormKeys|] == FieldParts(data)
    ensures ReadFields(ps) == Some(data)
  {
    FieldLookups(ps, data);
    CategoryRoundTrip(data.category);
  }

  /** No two fields are sent under the same key. */
  lemma KeysDiffer()
    ensures forall i, j :: 0 <= i < j < |FormKeys| ==> KeyName(FormKeys[i]) != KeyName(FormKeys[j])
  {
  }

  lemma FieldLookups(ps: seq<Part>, data: FormData)
    requires |ps| >= |FormKeys| && ps[..|FormKeys|] == FieldParts(data)
    ensures Lookup(ps, "name") == Some(ScalarPart("name", Text(data.name)))
    ensures Lookup(ps, "description") == Some(ScalarPart("description", Text(data.description)))
    ensures Lookup(ps, "price") == Some(ScalarPart("price", Number(data.price)))
    ensures Lookup(ps, "category") == Some(ScalarPart("category", Text(CategoryName(data.category))))
    ensures Lookup(ps, "ingredients") == Some(ListPart("ingredients", data.ingredients))
    ensures Lookup(ps, "allergens") == Some(ListPart("allergens", data.allergens))
    ensures Lookup(ps, "isAvailable") == Some(ScalarPart("isAvailable", Flag(data.isAvailable)))
  {
    LookupField(ps, data, 0);
    LookupField(ps, data, 1);
    LookupField(ps, data, 2);
    LookupField(ps, data, 3);
    LookupField(ps, data, 4);
    LookupField(ps, data, 5);
    LookupField(ps, data, 6);
  }

  lemma LookupField(ps: seq<Part>, data: FormData, i: nat)
    requires |ps| >= |FormKeys| && ps[..|FormKeys|] == FieldParts(data)
    requires i < |FormKeys|
    ensures Lookup(ps, KeyName(FormKeys[i])) == Some(FieldParts(data)[i])
  {
    var fs := FieldParts(data);
    assert forall j :: 0 <= j < |FormKeys| ==> ps[j] == fs[j];
    KeysDiffer();
    LookupAt(ps, i);
  }

  /** The field entries carry every form value: reading them back gives the
      form data. */
  lemma FieldPartsRoundTrip(data: FormData)
    ensures ReadFields(FieldParts(data)) == Some(data)
  {
    ReadFieldsOfPrefix(FieldParts(data), data);
  }

  /** Neither the image entries nor the `existingImages` entry hide a form
      value: the whole submitted body reads back as the form data. */
  lemma PayloadCarriesFormData(st: FormState)
    ensures ReadFields(Payload(st)) == Some(st.data)
  {
    ReadFieldsOfPrefix(Payload(st), st.data);
  }

  /** The existing-image URL list lists no new image: every URL in it is a
      remote one, and in a form never touched by uploads it is the product's
      URL list. */
  lemma ExistingUrlsAreRemote(st: FormState)
    requires Wf(st.staging)
    ensures forall u :: u in ExistingUrls(st.staging.images) ==> u.Remote?
  {
    ExistingUrlsRemote(st.staging.images);
  }

  lemma {:induction false} ExistingUrlsRemote(images: seq<ImageDraft>)
    requires forall i :: 0 <= i < |images| ==> DraftShape(images[i])
    ensures forall u :: u in ExistingUrls(images) ==> u.Remote?
  {
    if images != [] {
      ExistingUrlsRemote(images[1..]);
    }
  }

  /** An edit form that keeps its initial images reports every product URL
      as existing, in order. */
  lemma {:induction false} InitialExistingUrls(urls: seq<string>)
    ensures ExistingUrls(InitialImages(urls)) == seq(|urls|, i requires 0 <= i < |urls| => Remote(urls[i]))
    ensures DraftFiles(InitialImages(urls)) == []
  {
    if urls != [] {
      InitialExistingUrls(urls[1..]);
      var d := InitialImages(urls);
      var d' := InitialImages(urls[1..]);
      assert d[1..] == seq(|d'|, i requires 0 <= i < |d'| => d'[i].(id := ExistingId(i + 1)));
      ExistingUrlsIgnoreIds(d[1..], d');
    }
  }

  /** Which drafts count as existing, and their URLs and files, do not depend
      on the ids. */
  lemma {:induction false} ExistingUrlsIgnoreIds(a: seq<ImageDraft>, b: seq<ImageDraft>)
    requires |a| == |b|
    requires forall i :: 0 <= i < |a| ==> a[i].(id := b[i].id) == b[i]
    ensures ExistingUrls(a) == ExistingUrls(b) && DraftFiles(a) == DraftFiles(b)
  {
    if a != [] {
      ExistingUrlsIgnoreIds(a[1..], b[1..]);
    }
  }

  /** Every draft is sent exactly one way: a new image as its file, an
      existing one as its URL. With `DraftFilesConcat` and
      `ExistingUrlsConcat` this fixes both lists, in list order. */
  lemma {:induction false} DraftFilesAreNewImages(images: seq<ImageDraft>)
    requires forall i :: 0 <= i < |images| ==> DraftShape(images[i])
    ensures |DraftFiles(images)| + |ExistingUrls(images)| == |images|
    ensures forall i :: 0 <= i < |images| ==>
              && DraftShape(images[i])
              && DraftFiles([images[i]]) == (if images[i].isExisting then [] else [images[i].file.value])
              && ExistingUrls([images[i]]) == (if images[i].isExisting then [images[i].url] else [])
  {
    if images != [] {
      DraftFilesAreNewImages(images[1..]);
    }
    forall i | 0 <= i < |images|
      ensures DraftShape(images[i])
      ensures DraftFiles([images[i]]) == (if images[i].isExisting then [] else [images[i].file.value])
      ensures ExistingUrls([images[i]]) == (if images[i].isExisting then [images[i].url] else [])
    {
      SentOneWay(images[i]);
    }
  }

  lemma SentOneWay(d: ImageDraft)
    requires DraftShape(d)
    ensures DraftFiles([d]) == (if d.isExisting then [] else [d.file.value])
    ensures ExistingUrls([d]) == (if d.isExisting then [d.url] else [])
  {
    assert [d][1..] == [];
  }

  lemma {:induction false} ExistingUrlsConcat(a: seq<ImageDraft>, b: seq<ImageDraft>)
    ensures ExistingUrls(a + b) == ExistingUrls(a) + ExistingUrls(b)
  {
    if a == [] {
      assert a + b == b;
    } else {
      var head := if a[0].isExisting then [a[0].url] else [];
      assert (a + b)[0] == a[0] && (a + b)[1..] == a[1..] + b;
      assert ExistingUrls(a + b) == head + ExistingUrls(a[1..] + b);
      assert ExistingUrls(a) == head + ExistingUrls(a[1..]);
      ExistingUrlsConcat(a[1..], b);
      assert head + (ExistingUrls(a[1..]) + ExistingUrls(b)) == (head + ExistingUrls(a[1..])) + ExistingUrls(b);
    }
  }

  /** After `removeImage(id)` the `existingImages` list holds exactly the
      URLs of the existing drafts with another id: the removed draft's URL
      is gone unless another existing draft shares it. */
  lemma RemoveDropsExistingUrls(st: FormState, id: ImageId)
    ensures forall u :: u in ExistingUrls(RemoveFromForm(st, id).staging.images) <==>
              exists i :: 0 <= i < |st.staging.images| && st.staging.images[i].isExisting
                       && st.staging.images[i].url == u && st.staging.images[i].id != id
  {
    var before := st.staging.images;
    var after := RemoveImage(st.staging, id).images;
    assert RemoveFromForm(st, id).staging.images == after;
    forall u
      ensures u in ExistingUrls(after) <==>
              exists i :: 0 <= i < |before| && before[i].isExisting && before[i].url == u && before[i].id != id
    {
      ExistingUrlOfSubset(before, after, id, u);
    }
  }

  lemma ExistingUrlOfSubset(before: seq<ImageDraft>, after: seq<ImageDraft>, id: ImageId, u: Url)
    requires forall d :: d in after <==> d in before && d.id != id
    ensures u in ExistingUrls(after) <==>
              exists i :: 0 <= i < |before| && before[i].isExisting && before[i].url == u && before[i].id != id
  {
    if u in ExistingUrls(after) {
      var j :| 0 <= j < |after| && after[j].isExisting && after[j].url == u;
      assert after[j] in before;
      var i :| 0 <= i < |before| && before[i] == after[j];
      assert before[i].isExisting && before[i].url == u && before[i].id != id;
    }
    if exists i :: 0 <= i < |before| && before[i].isExisting && before[i].url == u && before[i].id != id {
      var i :| 0 <= i < |before| && before[i].isExisting && before[i].url == u && before[i].id != id;
      assert before[i] in after;
      var j :| 0 <= j < |after| && after[j] == before[i];
      assert after[j].isExisting && after[j].url == u;
    }
  }

  lemma {:induction false} DraftFilesConcat(a: seq<ImageDraft>, b: seq<ImageDraft>)
    ensures DraftFiles(a + b) == DraftFiles(a) + DraftFiles(b)
  {
    if a == [] {
      assert a + b == b;
    } else {
      var head := if a[0].file.Some? then [a[0].file.value] else [];
      assert (a + b)[0] == a[0] && (a + b)[1..] == a[1..] + b;
      assert DraftFiles(a + b) == head + DraftFiles(a[1..] + b);
      assert DraftFiles(a) == head + DraftFiles(a[1..]);
      DraftFilesConcat(a[1..], b);
      assert head + (DraftFiles(a[1..]) + DraftFiles(b)) == (head + DraftFiles(a[1..])) + DraftFiles(b);
    }
  }

  /** Drafts that all carry a file contribute exactly those files. */
  lemma {:induction false} DraftFilesOfFiled(drafts: seq<ImageDraft>, files: seq<File>)
    requires |drafts| == |files|
    requires forall i :: 0 <= i < |drafts| ==> drafts[i].file == Some(files[i])
    ensures DraftFiles(drafts) == files
  {
    if drafts != [] {
      DraftFilesOfFiled(drafts[1..], files[1..]);
    }
  }

  /** After an upload that is not refused, a submit attaches the files it
      attached before followed by the accepted files of the batch, in batch
      order. */
  lemma UploadAttachesAcceptedFiles(st: FormState, batch: seq<File>, clock: nat -> int)
    ensures var r := UploadToForm(st, batch, clock);
            |st.staging.images| + |batch| <= MaxImages ==>
              DraftFiles(r.staging.images) == DraftFiles(st.staging.images) + AcceptedFiles(batch)
    ensures |st.staging.images| + |batch| > MaxImages ==>
              UploadToForm(st, batch, clock).staging == st.staging
  {
    UploadDraftFiles(st.staging, batch, clock);
  }

  /** The staging half of `UploadAttachesAcceptedFiles`. */
  lemma UploadDraftFiles(st: Staging, batch: seq<File>, clock: nat -> int)
    ensures |st.images| + |batch| <= MaxImages ==>
              DraftFiles(UploadImages(st, batch, clock).staging.images) == DraftFiles(st.images) + AcceptedFiles(batch)
  {
    if |st.images| + |batch| <= MaxImages {
      var valid := AcceptedFiles(batch);
      var drafts := NewDrafts(valid, clock, st.nextBlob);
      assert UploadImages(st, batch, clock).staging.images == st.images + drafts;
      DraftFilesOfFiled(drafts, valid);
      DraftFilesConcat(st.images, drafts);
    }
  }

  /** Every price the form's rule accepts is one the schema accepts, but the
      schema also accepts 0, which the form rejects. */
  lemma FormPriceWithinSchema(price: real)
    ensures ValidatePrice(price).None? ==> PriceIssues(Some(price)) == []
    ensures PriceIssues(Some(0.0)) == [] && ValidatePrice(0.0).Some?
  {
  }
}
