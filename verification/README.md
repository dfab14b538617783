# Cake shop client: product form, catalog and validators

This project models the client-side logic of a cake shop web client. The rest of the client is page markup. Four pieces are modelled:

- **The product form** (`ProductForm`, `ImageStaging`, `TagList`). It covers:
  - per-field validation and the submit gate;
  - the image list: an 8-image cap, a MIME allow-list, a 5 MiB ceiling, and removal that releases the preview handles of new images;
  - the ingredient and allergen tag lists;
  - the multipart payload a valid submit sends.
- **The catalog page** (`Catalog`, `StableSort`). It covers:
  - the distinct-category list;
  - the search and category filter;
  - the stable sort by price ascending, price descending or name;
  - the wishlist toggle.
- **The product schema** (`ProductSchema`): the zod object schema of a product and its partial "form" variant.
- **The contact form** (`ContactForm`): its zod schema, default values and the reset after a submit.

The supporting modules are:

- `Text`: ECMAScript `String.prototype.trim` and substring search.
- `Seqs`: duplicate-freedom, removal by value and by index, and first-occurrence deduplication.
- `Wrappers`: `Option` and `Result`.

Every handler is a pure function from state to state. Browser resources become values:

- A preview handle from `URL.createObjectURL` is `Blob(serial)`, drawn from a counter.
- The staging state logs every handle it acquires and every handle it releases.
- `Date.now()` is read once for each accepted file. An upload takes those readings as its `clock` parameter: `clock(i)` is the reading taken for the `i`-th accepted file, counting from 0 among the accepted files only.
- `toLowerCase`, `localeCompare` and zod's email pattern are function parameters. `localeCompare` is assumed consistent (total and transitive) where an ordering is proved.

The key invariant is `ImageStaging.Wf`: every handle released, plus every handle still held, was acquired, counted with multiplicity, so no handle is revoked twice. `ImageStaging.NoLeak` strengthens this to equality. Uploads preserve it. A removal preserves it when ids are unique. When two uploads fall in the same millisecond, ids collide and a removal leaks a handle, and `ImageStaging.SameStampLeaksHandle` shows the exact trace.

## Model

| member | source | states |
|---|---|---|
| Text.Trim | src/routes/app/products/-components/create-form.tsx:127-137 | `trim()`: the result is the input with leading and trailing ECMAScript whitespace removed, and it is empty exactly when the input is all whitespace |
| Text.TrimIdempotent | src/routes/app/products/-components/create-form.tsx:244-254 | trimming a trimmed value changes nothing, so an added tag is already trimmed |
| Text.ContainsEmpty | src/routes/app/products/index.tsx:71-73 | every string contains the empty search term |
| Seqs.RemoveAll | src/routes/app/products/index.tsx:96-102 | `filter(id => id !== x)`: drops every copy of `x`, keeps the rest with their multiplicities, and changes nothing when `x` is absent |
| Seqs.RemoveAllConcat | src/routes/app/products/index.tsx:96-102 | removal works part by part, so the ids that stay keep their order |
| Seqs.RemoveAllNoDup | src/routes/app/products/index.tsx:96-102 | removing an id from a duplicate-free list leaves it duplicate-free |
| Seqs.RemoveAt | src/routes/app/products/-components/create-form.tsx:263-271 | `filter((_, i) => i !== index)`: drops exactly position `index` when in range and is the identity otherwise |
| Seqs.RemoveAtMultiset | src/routes/app/products/-components/create-form.tsx:263-271 | removing position `index` removes exactly that one element |
| Seqs.RemoveAtNoDup | src/routes/app/products/-components/create-form.tsx:263-271 | removing a position keeps a list duplicate-free |
| Seqs.Distinct | src/routes/app/products/index.tsx:61-66 | `Array.from(new Set(s))`: duplicate-free, with exactly the elements of `s` |
| Seqs.DistinctFirstOccurrenceOrder | src/routes/app/products/index.tsx:61-66 | the deduplicated elements appear in the order of their first occurrence |
| StableSort.Sort | src/routes/app/products/index.tsx:80-91 | `Array.prototype.sort` with a comparator: the result is a permutation of the input |
| StableSort.SortSorted | src/routes/app/products/index.tsx:80-91 | with a consistent comparator, each element may precede every later one |
| StableSort.SortStable | src/routes/app/products/index.tsx:80-91 | elements that tie keep their input order |
| StableSort.SortAllTie | src/routes/app/products/index.tsx:89-90 | a comparator that ties everything leaves the input as it is |
| StableSort.InsertSorted | src/routes/app/products/index.tsx:80-91 | inserting into a sorted list keeps it sorted |
| StableSort.InsertTies | src/routes/app/products/index.tsx:80-91 | insertion places an element after every element it ties with |
| ProductSchema.ParseCategory | src/schema/product-schema.tsx:18-20 | the enum accepts exactly the five names, and each parses to the category of that name |
| ProductSchema.CategoryRoundTrip | src/routes/app/products/-components/create-form.tsx:42 | the form's five categories are exactly the schema's enum, and each name parses back to its category |
| ProductSchema.IdIssues | src/schema/product-schema.tsx:4 | `_id` raises an issue exactly when it is absent |
| ProductSchema.NameIssues | src/schema/product-schema.tsx:5-9 | the name raises an issue exactly when it is absent or its length is not between 1 and 100 |
| ProductSchema.DescriptionIssues | src/schema/product-schema.tsx:11-14 | the description raises an issue exactly when it is absent or its length is not between 1 and 500 |
| ProductSchema.PriceIssues | src/schema/product-schema.tsx:16 | the price raises an issue exactly when it is absent or negative |
| ProductSchema.CategoryIssues | src/schema/product-schema.tsx:18-20 | the category raises an issue exactly when it is absent or not one of the five |
| ProductSchema.ImagesIssues | src/schema/product-schema.tsx:22 | images raise an issue exactly when absent or empty |
| ProductSchema.Parse | src/schema/product-schema.tsx:3-44 | parsing succeeds exactly when all six required fields pass, whatever the optional ones hold. On success it carries the fields over with the name trimmed. The full schema fills `isAvailable` with true and the dates with the current time, while the form schema leaves them as given. A failure reports at least one issue |
| ProductSchema.FormSchemaSameAcceptance | src/schema/product-schema.tsx:38-44 | `productFormSchema` accepts exactly what `productSchema` accepts. The two results differ only in the defaulted fields |
| ProductSchema.BlankNameParsesEmpty | src/schema/product-schema.tsx:5-9 | the length checks run before the trim, so a name of two spaces is accepted and becomes "" |
| ImageStaging.InitialImages | src/routes/app/products/-components/create-form.tsx:101-111 | one existing draft per product URL, in order, holding that URL as its address and preview. The ids are unique and no handle is held |
| ImageStaging.Accepted | src/routes/app/products/-components/create-form.tsx:180-188 | a file passes exactly when its type is one of image/jpeg, image/png, image/webp and image/jpg and its size is at most 5 MiB |
| ImageStaging.AcceptedFiles | src/routes/app/products/-components/create-form.tsx:179-190 | the files that pass the allow-list and the 5 MiB ceiling: a file is kept exactly when it passes, and every kept file keeps its multiplicity |
| ImageStaging.AcceptedFilesConcat | src/routes/app/products/-components/create-form.tsx:179-190 | the files accepted from a batch are those accepted from each part, in batch order |
| ImageStaging.AcceptedFilesOne | src/routes/app/products/-components/create-form.tsx:179-190 | a single file is accepted exactly when it passes |
| ImageStaging.AcceptedFilesCounts | src/routes/app/products/-components/create-form.tsx:179-190 | counted with multiplicity, each passing file is accepted as often as it was selected, and a failing file never |
| ImageStaging.Rejections | src/routes/app/products/-components/create-form.tsx:181-188 | one notice per rejected file, with the type checked before the size; the other files still go through |
| ImageStaging.RejectionsConcat | src/routes/app/products/-components/create-form.tsx:178-188 | the notices of a batch are those of its parts, in batch order |
| ImageStaging.RejectionsOne | src/routes/app/products/-components/create-form.tsx:180-187 | a single file of a wrong type gets only the invalid-type notice, an allowed file that is too large only the too-large notice, and an acceptable file none |
| ImageStaging.NewDrafts | src/routes/app/products/-components/create-form.tsx:191-200 | one new draft per accepted file, in order, with the correct shape. Its id carries the clock reading and the file's position among the accepted files, so the batch's ids are unique. Its URL is a fresh handle, consecutive from the counter, and the drafts hold exactly those handles |
| ImageStaging.UploadImages | src/routes/app/products/-components/create-form.tsx:168-203 | a batch that would exceed 8 images, counted before filtering, leaves the state unchanged. Otherwise exactly the accepted files are appended after the current drafts, as non-existing drafts carrying their files. The count never exceeds 8 unless the list was already unchanged |
| ImageStaging.FindId | src/routes/app/products/-components/create-form.tsx:215 | `find`: the first draft with the id, or none when no draft has it |
| ImageStaging.DropId | src/routes/app/products/-components/create-form.tsx:219 | `filter`: exactly the drafts with other ids remain, and an absent id changes nothing |
| ImageStaging.DropIdConcat | src/routes/app/products/-components/create-form.tsx:219 | `filter` keeps the drafts of each part of the list in order |
| ImageStaging.DropIdOne | src/routes/app/products/-components/create-form.tsx:219 | a single draft stays exactly when its id differs |
| ImageStaging.DropIdCounts | src/routes/app/products/-components/create-form.tsx:219 | counted with multiplicity, each draft with another id stays as often as it occurs, and no draft with the id stays |
| ImageStaging.DropIdKeepsUnique | src/routes/app/products/-components/create-form.tsx:219 | filtering a list with unique ids leaves the ids unique |
| ImageStaging.ReleaseOf | src/routes/app/products/-components/create-form.tsx:216-218 | a preview handle is released only for a non-existing draft |
| ImageStaging.RemoveImage | src/routes/app/products/-components/create-form.tsx:213-221 | every draft with the id is dropped and the others are kept, in order. Only the first match's handle is released, and only when it is new. An absent id changes nothing |
| ImageStaging.InitialStagingWf | src/routes/app/products/-components/create-form.tsx:101-111 | the initial list holds no handle, leaks nothing and has unique ids |
| ImageStaging.UploadPreservesWf | src/routes/app/products/-components/create-form.tsx:168-203 | an upload keeps the handle bookkeeping well formed and leak-free |
| ImageStaging.RemovePreservesWf | src/routes/app/products/-components/create-form.tsx:213-221 | a removal never releases a handle twice, and it leaks nothing when ids are unique |
| ImageStaging.RemoveTwice | src/routes/app/products/-components/create-form.tsx:213-221 | removing the same id a second time changes nothing |
| ImageStaging.RemoveKeepsIdsUnique | src/routes/app/products/-components/create-form.tsx:213-221 | a removal keeps the ids unique |
| ImageStaging.RemovalsPreserveNoLeak | src/routes/app/products/-components/create-form.tsx:213-221 | any run of removals from a well-formed, leak-free list with unique ids keeps it well formed, leak-free and unique |
| ImageStaging.RemoveEach | src/routes/app/products/-components/create-form.tsx:213-221 | after removing a run of ids, exactly the drafts with none of those ids remain, and no handle is acquired |
| ImageStaging.UploadKeepsIdsUnique | src/routes/app/products/-components/create-form.tsx:191-200 | an upload keeps ids unique when no earlier draft carries one of its clock readings |
| ImageStaging.SameStampLeaksHandle | src/routes/app/products/-components/create-form.tsx:193-221 | two uploads in the same millisecond collide on `new-<stamp>-0`. Removing that id drops both drafts but revokes one handle, so a handle leaks |
| ImageStaging.LiveHandlesSplit | src/routes/app/products/-components/create-form.tsx:213-221 | the handles held split into those of the drafts kept and those of the drafts dropped |
| ImageStaging.LiveHandlesOfFresh | src/routes/app/products/-components/create-form.tsx:191-200 | new drafts holding consecutive handles hold exactly the handles just acquired |
| TagList.AddTag | src/routes/app/products/-components/create-form.tsx:242-261 | a blank value is refused, and so is a value whose trimmed form is already listed. Otherwise the trimmed value is appended |
| TagList.AddTagKeepsNoDup | src/routes/app/products/-components/create-form.tsx:242-261 | adding keeps a tag list duplicate-free, and the value is listed afterwards exactly when it was added or already present |
| TagList.AddSameTagTwice | src/routes/app/products/-components/create-form.tsx:242-261 | adding the same value twice lists it once and reports it as already added |
| TagList.RemoveTag | src/routes/app/products/-components/create-form.tsx:263-271 | drops exactly position `index` when in range, is a no-op otherwise, and keeps the list duplicate-free |
| ProductForm.ValidateName | src/routes/app/products/-components/create-form.tsx:127-133 | the name fails exactly when its trimmed length is below 2 or above 100; a blank name gets the "required" message |
| ProductForm.ValidateDescription | src/routes/app/products/-components/create-form.tsx:134-138 | the description fails exactly when its trimmed length is below 10, with no upper bound |
| ProductForm.ValidatePrice | src/routes/app/products/-components/create-form.tsx:139-142 | the price passes exactly when it is above 0 and at most 100000 |
| ProductForm.ValidateImages | src/routes/app/products/-components/create-form.tsx:143-146 | only a create form without images fails |
| ProductForm.FieldError | src/routes/app/products/-components/create-form.tsx:124-151 | category, ingredients, allergens and availability never produce an error |
| ProductForm.CollectErrors | src/routes/app/products/-components/create-form.tsx:153-159 | the map holds an entry for exactly the listed fields that fail, with their messages |
| ProductForm.ValidateForm | src/routes/app/products/-components/create-form.tsx:153-166 | the form is valid exactly when name, description and price pass and the form is in edit mode or has an image. That is exactly when no error is recorded. The error map holds each failing field's message |
| ProductForm.EmptyExactlyWhenAllPass | src/routes/app/products/-components/create-form.tsx:161-166 | an error map keyed by the failing fields is empty exactly when the four rules that can fail all pass |
| ProductForm.InitialData | src/routes/app/products/-components/create-form.tsx:86-94 | the fields start from the product, defaulting to empty text, price 0, Cake, empty lists and available |
| ProductForm.InitialForm | src/routes/app/products/-components/create-form.tsx:83-111 | a fresh form has the requested mode, shows no errors and has empty tag buffers. Its drafts list the product's image URLs as existing images, in order, and attach no file. The image bookkeeping is well formed and leak-free |
| ProductForm.SetError | src/routes/app/products/-components/create-form.tsx:481 | `{...prev, field: error}`: only that field's message changes |
| ProductForm.ApplyEdit | src/routes/app/products/-components/create-form.tsx:472-665 | a change event sets one field. For name, description, price and category it recomputes that field's message, and nothing else changes |
| ProductForm.EditAgreesWithSubmit | src/routes/app/products/-components/create-form.tsx:472-615 | the message an edit shows for its field is the one a submit would report |
| ProductForm.UploadToForm | src/routes/app/products/-components/create-form.tsx:201-207 | the image list changes as the upload says, and the images error clears once a file is accepted. Nothing else changes, not even the tag buffers |
| ProductForm.AcceptedImageSatisfiesImagesRule | src/routes/app/products/-components/create-form.tsx:201-207 | after an upload that accepts a file, the images rule passes |
| ProductForm.CreateWithoutImagesFails | src/routes/app/products/-components/create-form.tsx:143-146 | a create form with no image is never valid |
| ProductForm.RemoveFromForm | src/routes/app/products/-components/create-form.tsx:213-221 | a removal changes only the image list. The field values, errors, mode and tag buffers stay as they were |
| ProductForm.AddFormTag | src/routes/app/products/-components/create-form.tsx:242-261 | a successful add extends the chosen list and clears its buffer. A refused add changes nothing |
| ProductForm.RemoveFormTag | src/routes/app/products/-components/create-form.tsx:263-271 | only the chosen list changes |
| ProductForm.TagOpsKeepListsDuplicateFree | src/routes/app/products/-components/create-form.tsx:242-271 | neither tag operation puts a duplicate into either list |
| ProductForm.FieldParts | src/routes/app/products/-components/create-form.tsx:286-293 | one entry per form field, keyed by its name, in key order. Ingredients and allergens are encoded as lists and the rest as scalars |
| ProductForm.Lookup | src/routes/app/products/-components/create-form.tsx:283-307 | the first entry with a key, or none exactly when no entry has that key |
| ProductForm.LookupAt | src/routes/app/products/-components/create-form.tsx:283-307 | the entry at a position is what a lookup by its key returns when no earlier entry has that key |
| ProductForm.LookupField | src/routes/app/products/-components/create-form.tsx:286-293 | in a body that starts with the field entries, a lookup by a field's key returns that field's entry |
| ProductForm.KeysDiffer | src/routes/app/products/-components/create-form.tsx:286-293 | no two form fields are sent under the same key |
| ProductForm.FieldPartsRoundTrip | src/routes/app/products/-components/create-form.tsx:286-293 | the field entries carry every form value: reading them back by key gives the form data |
| ProductForm.PayloadCarriesFormData | src/routes/app/products/-components/create-form.tsx:283-307 | the image entries and `existingImages` hide no form value: the whole body reads back as the form data |
| ProductForm.DraftFiles | src/routes/app/products/-components/create-form.tsx:295-300 | the files the drafts hold, in list order: a file is attached exactly when some draft holds it |
| ProductForm.DraftFilesConcat | src/routes/app/products/-components/create-form.tsx:295-300 | the attached files of a list are those of each part, in order |
| ProductForm.ImageParts | src/routes/app/products/-components/create-form.tsx:295-300 | one `images` entry per draft with a file, in list order |
| ProductForm.ExistingUrls | src/routes/app/products/-components/create-form.tsx:302-307 | a URL is listed exactly when some existing draft has it |
| ProductForm.ExistingUrlsConcat | src/routes/app/products/-components/create-form.tsx:302-307 | the URLs listed for a list are those of each part, in order |
| ProductForm.RemoveDropsExistingUrls | src/routes/app/products/-components/create-form.tsx:213-307 | after a removal, `existingImages` lists exactly the URLs of the existing drafts with another id |
| ProductForm.Payload | src/routes/app/products/-components/create-form.tsx:283-307 | fields first, then the files, then `existingImages`, which is present only in edit mode |
| ProductForm.Submit | src/routes/app/products/-components/create-form.tsx:273-318 | the errors are replaced by the validation result. A request is sent exactly when the form is valid: a create in create mode, or an update of the edited id in edit mode, carrying the payload |
| ProductForm.UploadAttachesAcceptedFiles | src/routes/app/products/-components/create-form.tsx:179-300 | after an upload, a submit attaches the previous files followed by the accepted files, in batch order. A refused batch changes nothing |
| ProductForm.UploadDraftFiles | src/routes/app/products/-components/create-form.tsx:191-203 | after an upload that is not refused, the drafts hold the previous files followed by the accepted ones |
| ProductForm.InitialExistingUrls | src/routes/app/products/-components/create-form.tsx:302-307 | an untouched edit form reports every product URL as existing, in order, and attaches no file |
| ProductForm.ExistingUrlsAreRemote | src/routes/app/products/-components/create-form.tsx:302-307 | `existingImages` never lists a local preview handle |
| ProductForm.DraftFilesAreNewImages | src/routes/app/products/-components/create-form.tsx:295-307 | each draft is sent exactly one way: a new image as its file and an existing one as its URL. Together with the two concatenation lemmas this fixes both lists, in order |
| ProductForm.SentOneWay | src/routes/app/products/-components/create-form.tsx:295-307 | a single draft contributes its file when it is new and its URL when it exists |
| ProductForm.FormPriceWithinSchema | src/schema/product-schema.tsx:16 | every price the form accepts satisfies the schema, but 0 passes the schema and fails the form |
| Catalog.Categories | src/routes/app/products/index.tsx:61-66 | each product's category appears exactly once, and nothing else does |
| Catalog.CategoriesInFirstSeenOrder | src/routes/app/products/index.tsx:61-66 | categories are listed in the order their first product appears |
| Catalog.Matching | src/routes/app/products/index.tsx:70-77 | a product is kept exactly when its lower-cased name or description contains the lower-cased term and the category is "all" or its own. Each kept product keeps its multiplicity |
| Catalog.MatchingConcat | src/routes/app/products/index.tsx:70-77 | filtering keeps each part of the list in order |
| Catalog.MatchingOne | src/routes/app/products/index.tsx:70-77 | a single product stays exactly when it is kept |
| Catalog.EmptySearchKeepsAll | src/routes/app/products/index.tsx:70-77 | an empty search with "all" keeps every product in order |
| Catalog.FilteredProducts | src/routes/app/products/index.tsx:69-94 | the result is a permutation of the kept products, never longer than the input |
| Catalog.Comparator | src/routes/app/products/index.tsx:80-91 | "price-low" orders by price ascending, "price-high" by price descending, and "name" by `localeCompare` of the names. An unknown key ties everything |
| Catalog.ComparatorConsistent | src/routes/app/products/index.tsx:80-91 | each sort key gives a consistent comparator |
| Catalog.PriceLowAscending | src/routes/app/products/index.tsx:82-83 | "price-low" lists prices in non-decreasing order |
| Catalog.PriceHighDescending | src/routes/app/products/index.tsx:84-85 | "price-high" lists prices in non-increasing order |
| Catalog.NameOrdered | src/routes/app/products/index.tsx:86-87 | "name" lists names in `localeCompare` order |
| Catalog.TiesKeepInputOrder | src/routes/app/products/index.tsx:80-91 | products the comparator ties keep their input order |
| Catalog.EqualPricesKeepInputOrder | src/routes/app/products/index.tsx:82-83 | under "price-low", products of equal price keep their input order |
| Catalog.PricedAt | src/routes/app/products/index.tsx:82-83 | the products at a given price are exactly those of the list priced so |
| Catalog.PriceTiesArePricedAt | src/routes/app/products/index.tsx:82-83 | under "price-low", the products tying with one are exactly those of the same price, in list order |
| Catalog.UnknownKeyKeepsInputOrder | src/routes/app/products/index.tsx:88-90 | an unknown sort key keeps the kept products in input order |
| Catalog.SearchAndSortExample | src/routes/app/products/index.tsx:69-94 | with ASCII-like lower-casing, searching "Red" keeps a product matching by name and one matching by description and drops the third. "price-low" then puts the cheaper match first |
| Catalog.ToggleWishlist | src/routes/app/products/index.tsx:96-102 | flips the membership of the id, leaves every other id's membership alone, and never creates a duplicate |
| Catalog.RemoveKeepsNoDup | src/routes/app/products/index.tsx:96-102 | removing an id keeps a duplicate-free wishlist duplicate-free |
| Catalog.ToggleTwice | src/routes/app/products/index.tsx:96-102 | toggling twice restores the set of ids, and restores the list itself when the id was absent |
| Catalog.RemoveAllLast | src/routes/app/products/index.tsx:96-102 | removing an id that was just appended to a list without it gives the list back |
| ContactForm.Validate | src/routes/app/contact-us/index.tsx:33-46 | values pass exactly when the name has at least 2 characters, the email satisfies the pattern, the subject has at least 5 and the message at least 10. Each failing rule reports its message |
| ContactForm.DefaultsFail | src/routes/app/contact-us/index.tsx:56-62 | the empty default values fail the name, subject and message rules |
| ContactForm.StartSubmit | src/routes/app/contact-us/index.tsx:56-67 | valid values reach `onSubmit` and set the submitting flag. Invalid values only show their issues |
| ContactForm.FinishSubmit | src/routes/app/contact-us/index.tsx:77-78 | `form.reset()` restores the defaults, clears the issues, and clears the flag |
| ContactForm.SubmitCycleResets | src/routes/app/contact-us/index.tsx:65-79 | a completed submission returns the form to its initial state, so a second submit without typing is refused |

## Left out

- The backend calls (`createProduct`, `updateProduct`, `getProducts`) are not modelled. They are I/O against a server outside this client, so a submit ends at the request it would send.
- Toasts, navigation, drag-and-drop events, the step indicator and the `isLoading` flag are not modelled. They do not affect the state modelled here, and a toast is reported as a `Notice` or a refused outcome.
- The cleanup effect that revokes handles on unmount is not modelled as a guarantee. It runs with empty dependencies and sees only the image list of the first render, which is empty, so it revokes nothing.
- `toLowerCase`, `localeCompare` and zod's email pattern are parameters. Unicode case mapping, locale collation and the email regular expression are not modelled.
- `Number.parseFloat` on the price input and NaN are not modelled. A price edit carries the parsed real number.
- The FormData and JSON encodings of the payload are not modelled. Parts are abstract keyed values.
- String lengths count characters, not UTF-16 code units. The two differ for characters outside the Basic Multilingual Plane.
- The errors object is modelled as a map, and a key set to `undefined` counts as absent. This is how the page reads it, since it only displays a present message.
- ProductSchema.Parse: zod's built-in messages are abbreviated to "Required" and "Invalid enum value", and the type checks of the optional fields are not modelled, since the record type already fixes their types.
- ProductForm.InitialForm: does not tie the edit mode's product id to the product passed in, because the edit page always passes the product it loaded together with `mode="edit"`.
- The id collision of two uploads within the same millisecond is not excluded. `ImageStaging.SameStampLeaksHandle` exhibits it, and `ImageStaging.UploadKeepsIdsUnique` names the fresh-reading condition under which ids stay unique.
- The receiving side of the multipart body is not part of this client. `ProductForm.ReadFields` reads it back by key only to state what the body carries.
