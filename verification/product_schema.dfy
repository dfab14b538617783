/** The zod `productSchema` that describes a product as the backend returns
    it, and `productFormSchema`, its relaxation for partial updates.

    A raw input holds each field or leaves it absent (`undefined`); fields
    are typed, so zod's type errors for wrongly-typed values do not arise.
    zod runs every field's checks and collects all issues in field order;
    within the name field the `trim` step comes after the length checks, so
    the lengths are those of the untrimmed string and the parsed name is the
    trimmed one. Dates are timestamps; `now` stands for `new Date()`. */
module ProductSchema {
  import opened Wrappers
  import opened Text

  datatype Category = Cake | Pastry | Cookie | Bread | Other

  function CategoryName(c: Category): string {
    match c
    case Cake => "Cake"
    case Pastry => "Pastry"
    case Cookie => "Cookie"
    case Bread => "Bread"
    case Other => "Other"
  }

  /** The options of `z.enum`, in declaration order. */
  const CategoryNames: seq<string> := ["Cake", "Pastry", "Cookie", "Bread", "Other"]

  /** The enum check: a string is accepted exactly when it is one of the
      five option names, and then names the category it is parsed to. */
  function ParseCategory(s: string): (r: Option<Category>)
    ensures r.Some? <==> s in CategoryNames
    ensures r.Some? ==> CategoryName(r.value) == s
  {
    if s == "Cake" then Some(Cake)
    else if s == "Pastry" then Some(Pastry)
    else if s == "Cookie" then Some(Cookie)
    else if s == "Bread" then Some(Bread)
    else if s == "Other" then Some(Other)
    else None
  }

  /** Every category's name parses back to that category. */
  lemma CategoryRoundTrip(c: Category)
    ensures CategoryName(c) in CategoryNames
    ensures ParseCategory(CategoryName(c)) == Some(c)
  {
  }

  type Timestamp = int

  /** The parsed product (`z.infer<typeof productSchema>`). */
  datatype Product = Product(
    id: string,
    name: string,
    description: string,
    price: real,
    category: Category,
    images: seq<string>,
    ingredients: Option<seq<string>>,
    allergens: Option<seq<string>>,
    isAvailable: Option<bool>,
    createdAt: Option<Timestamp>,
    updatedAt: Option<Timestamp>)

  /** An object offered to the schema; `None` is an absent key. */
  datatype RawProduct = RawProduct(
    id: Option<string>,
    name: Option<string>,
    description: Option<string>,
    price: Option<real>,
    category: Option<string>,
    images: Option<seq<string>>,
    ingredients: Option<seq<string>>,
    allergens: Option<seq<string>>,
    isAvailable: Option<bool>,
    createdAt: Option<Timestamp>,
    updatedAt: Option<Timestamp>)

  /** One zod issue: the field it is about and its message. zod's built-in
      messages are abbreviated to "Required" and "Invalid enum value". */
  datatype Issue = Issue(path: string, message: string)

  /** `productSchema` itself, or `productFormSchema`. */
  datatype Variant = FullSchema | FormSchema

  const NameMin := 1
  const NameMax := 100
  const DescriptionMin := 1
  const DescriptionMax := 500

  /** `_id: z.string()`: present. */
  function IdIssues(v: Option<string>): (r: seq<Issue>)
    ensures r == [] <==> v.Some?
  {
    if v.None? then [Issue("_id", "Required")] else []
  }

  /** `name`: present, with 1 to 100 characters. */
  function NameIssues(v: Option<string>): (r: seq<Issue>)
    ensures r == [] <==> v.Some? && NameMin <= |v.value| <= NameMax
    ensures |r| <= 1
  {
    if v.None? then [Issue("name", "Required")]
    else if |v.value| < NameMin then [Issue("name", "Please add a product name")]
    else if |v.value| > NameMax then [Issue("name", "Name cannot be more than 100 characters")]
    else []
  }

  /** `description`: present, with 1 to 500 characters. */
  function DescriptionIssues(v: Option<string>): (r: seq<Issue>)
    ensures r == [] <==> v.Some? && DescriptionMin <= |v.value| <= DescriptionMax
  {
    if v.None? then [Issue("description", "Required")]
    else if |v.value| < DescriptionMin then [Issue("description", "Please add a description")]
    else if |v.value| > DescriptionMax then [Issue("description", "Description cannot be more than 500 characters")]
    else []
  }

  /** `price`: present and not negative; zero is accepted. */
  function PriceIssues(v: Option<real>): (r: seq<Issue>)
    ensures r == [] <==> v.Some? && v.value >= 0.0
  {
    if v.None? then [Issue("price", "Required")]
    else if v.value < 0.0 then [Issue("price", "Price cannot be negative")]
    else []
  }

  /** `category`: present and one of the enum options; an absent category
      carries the schema's own `required_error`. */
  function CategoryIssues(v: Option<string>): (r: seq<Issue>)
    ensures r == [] <==> v.Some? && v.value in CategoryNames
  {
    if v.None? then [Issue("category", "Please add a category")]
    else if ParseCategory(v.value).None? then [Issue("category", "Invalid enum value")]
    else []
  }

  /** `images`: present with at least one entry. */
  function ImagesIssues(v: Option<seq<string>>): (r: seq<Issue>)
    ensures r == [] <==> v.Some? && |v.value| >= 1
  {
    if v.None? then [Issue("images", "Required")]
    else if |v.value| < 1 then [Issue("images", "Please add at least one image")]
    else []
  }

  /** All issues, in the order of the schema's keys. `ingredients`,
      `allergens`, `isAvailable`, `createdAt` and `updatedAt` never raise
      one: they are optional or defaulted, and typed. */
  function Issues(raw: RawProduct): seq<Issue>
  {
    IdIssues(raw.id) + NameIssues(raw.name) + DescriptionIssues(raw.description)
    + PriceIssues(raw.price) + CategoryIssues(raw.category) + ImagesIssues(raw.images)
  }

  /** `schema.safeParse(raw)`. It succeeds exactly when `_id` is present, the
      name has 1 to 100 characters, the description 1 to 500, the price is
      not negative, the category is one of the five and there is at least
      one image, whatever the remaining fields hold; it then carries the
      inputs over, with the name trimmed. The full schema fills an absent
      `isAvailable` with true and absent dates with `now`; in the form schema
      those keys are optional, which zod checks before the default, so they
      stay absent. A failure lists at least one issue. */
  function Parse(raw: RawProduct, variant: Variant, now: Timestamp): (r: Result<Product, seq<Issue>>)
    ensures r.Success? <==>
              && raw.id.Some?
              && raw.name.Some? && 1 <= |raw.name.value| <= 100
              && raw.description.Some? && 1 <= |raw.description.value| <= 500
              && raw.price.Some? && raw.price.value >= 0.0
              && raw.category.Some? && raw.category.value in CategoryNames
              && raw.images.Some? && |raw.images.value| >= 1
    ensures r.Failure? ==> |r.error| > 0
    ensures r.Success? ==>
              && r.value.id == raw.id.value
              && r.value.name == Trim(raw.name.value)
              && r.value.description == raw.description.value
              && r.value.price == raw.price.value
              && CategoryName(r.value.category) == raw.category.value
              && r.value.images == raw.images.value
              && r.value.ingredients == raw.ingredients
              && r.value.allergens == raw.allergens
    ensures r.Success? && variant == FullSchema ==>
              && r.value.isAvailable == Some(raw.isAvailable.GetOr(true))
              && r.value.createdAt == Some(raw.createdAt.GetOr(now))
              && r.value.updatedAt == Some(raw.updatedAt.GetOr(now))
    ensures r.Success? && variant == FormSchema ==>
              && r.value.isAvailable == raw.isAvailable
              && r.value.createdAt == raw.createdAt
              && r.value.updatedAt == raw.updatedAt
  {
    var issues := Issues(raw);
    if issues != [] then Failure(issues)
    else
      var product := Product(
        raw.id.value, Trim(raw.name.value), raw.description.value, raw.price.value,
        ParseCategory(raw.category.value).value, raw.images.value,
        raw.ingredients, raw.allergens,
        raw.isAvailable, raw.createdAt, raw.updatedAt);
      match variant
      case FullSchema =>
        Success(product.(isAvailable := Some(raw.isAvailable.GetOr(true)),
                         createdAt := Some(raw.createdAt.GetOr(now)),
                         updatedAt := Some(raw.updatedAt.GetOr(now))))
      case FormSchema => Success(product)
  }

  /** `productFormSchema` relaxes only keys that were already optional or
      defaulted: it accepts exactly the inputs `productSchema` accepts, so
      name, description, price, category, images and `_id` stay required,
      and on acceptance the two differ only in the defaulted fields. */
  lemma FormSchemaSameAcceptance(raw: RawProduct, now: Timestamp)
    ensures Parse(raw, FormSchema, now).Success? <==> Parse(raw, FullSchema, now).Success?
    ensures Parse(raw, FormSchema, now).Success? ==>
              Parse(raw, FullSchema, now).value
              == Parse(raw, FormSchema, now).value.(
                   isAvailable := Some(raw.isAvailable.GetOr(true)),
                   createdAt := Some(raw.createdAt.GetOr(now)),
                   updatedAt := Some(raw.updatedAt.GetOr(now)))
  {
  }

  /** The name length checks see the untrimmed string: a name of spaces
      passes them and parses to the empty name. */
  lemma BlankNameParsesEmpty(now: Timestamp)
    ensures
      var raw := RawProduct(Some("p1"), Some("  "), Some("Moist sponge"), Some(0.0), Some("Cake"),
                            Some(["cake.png"]), None, None, None, None, None);
      Parse(raw, FullSchema, now).Success? && Parse(raw, FullSchema, now).value.name == ""
  {
    assert AllSpace("  ");
  }
}
