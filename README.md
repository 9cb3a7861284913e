# Product creation workflow — a Dafny model

This project models the selection and generation workflow of a
print-on-demand storefront tool. On the product creation page a user:

- picks products from the print provider's catalog (search box, category
  filter, thumbnail fallback, image carousel);
- picks variants per product by applying a saved template (the page also
  defines a per-variant toggle handler and a save-template handler, which
  nothing on the page reaches; both are modelled as written);
- submits the form, which creates one product record per selected product
  and asks the backend for design previews of each.

It also models the catalog table component (de-duplication of the
catalog response by product id, and the row image) and the backend
parser that turns the language model's free text into a list of niche
suggestions.

The modules follow the structure of the program:

| module | models |
|---|---|
| `Selection` | the selected products and the per-product selected variants; the React state updaters `toggleProduct`, `toggleVariant` and template application, as pure functions on a `Selection` value |
| `Templates` | the template record, the normalisation of the template list response, the lookup by id |
| `VariantOptions` | the variant-options rebuild loop, against a sequence of per-product responses |
| `Generation` | the create/generate loop of `onGenerate`, against sequences of responses |
| `Catalog` | catalog load normalisation, the distinct category list, the search/category filter, the thumbnail source, the title summary on the picker button |
| `Carousel` | the previous/next index arithmetic with JavaScript's `%` |
| `CreateProductPage` | the page as a class whose fields are the page's state; each handler is a method whose `ensures` ties the new state to the functions above |
| `ProductSelector` | the `Map`-based de-duplication, the load outcome and the row image |
| `NicheSuggestions` | `[s.strip() for s in text.replace("\r","").split("\n") if s.strip()]` with Python's `strip`, `split` and `replace` written out |
| `Seqs`, `Wrappers` | generic helpers: subsequence, filter, remove-all, join, `Option`, map lookup |

Remote calls are not made: each response becomes a parameter. For a loop
over the selected products this is a sequence indexed like the loop (one
response per iteration). Exceptions thrown by axios become the failed
alternative of a response datatype.

Where the code differs from what its names, comments and a natural
reading of the workflow suggest, the model follows the code:

- Selected variant keys are not always selected products. Toggling a
  product only ever removes keys, so `toggleProduct` and `toggleVariant`
  keep the keys a subset of the products when variant toggles are made
  for selected products (`Selection.RunKeepsVariantKeysSelected`).
  Applying a template copies its products and its variants verbatim, so
  orphan keys can appear (`Selection.ApplyTemplateMayOrphanVariants`).
- `onGenerate` has no per-item error handling and no aggregation of
  previews. The first failing create or generate request aborts the loop.
  `previews` is overwritten by each item, so it ends with the last
  successful item's previews (`Generation.RunGeneration`).
- Variant options are not cached. Every change of the product selection
  refetches the options of every selected product and replaces the whole
  map (`VariantOptions.FetchVariants`).
- Saving a template with an empty or cancelled name returns silently: no
  request and no error (`CreateProductPage.ProductCreationPage.SaveTemplate`).
- The catalog table's de-duplication keeps the first position of each id
  but the value of its last occurrence, because a JavaScript `Map` keeps
  insertion order on `set` of an existing key
  (`ProductSelector.DedupKeepsFirstOrder`, `ProductSelector.DedupKeepsLastValue`).
- The catalog's category list is always `["Other"]` or empty. Every loaded
  item is re-labelled `"Other"` (`Catalog.LoadedCategories`).

## Model

| member | source | states |
|---|---|---|
| Selection.ToggleProduct | frontend/src/pages/CreateProduct.tsx:136-151 | the product's membership flips. Deselecting removes every occurrence, keeps the other products in order with their multiplicities, and deletes exactly that product's variant entry. Selecting appends the product and leaves the variants alone. Keys stay within the selected products. |
| Selection.ToggleVariant | frontend/src/pages/CreateProduct.tsx:154-163 | products are untouched and only the product's entry changes. That entry always exists afterwards. The variant's membership in it flips: adding appends it to the current list (empty when absent); removing keeps a subsequence with every other variant's count intact. Keys stay within the selected products iff the product is selected. |
| Seqs.RemoveAll | frontend/src/pages/CreateProduct.tsx:139 | `filter(id => id !== x)`: the result lacks x, keeps every other element's count and is a subsequence of the input |
| Selection.ToggleProductTwice | frontend/src/pages/CreateProduct.tsx:136-151 | selecting an unselected product and then deselecting it restores the product list and drops only that product's variant entry |
| Selection.ReselectStartsEmpty | frontend/src/pages/CreateProduct.tsx:141-148 | deselecting and reselecting a product leaves it with no variant entry: earlier variant choices are lost |
| Selection.SelectCreatesNoEntry | frontend/src/pages/CreateProduct.tsx:147-148 | selecting a product that has no variant entry leaves it selected and still without one, so selected products need not have entries |
| Selection.ToggleVariantTwice | frontend/src/pages/CreateProduct.tsx:154-163 | toggling an absent variant on and off restores the product's list, with the entry now present (possibly empty) |
| Selection.RunKeepsVariantKeysSelected | frontend/src/pages/CreateProduct.tsx:136-163 | any sequence of product and variant toggles, where each variant toggle names a selected product, keeps every variant key a selected product |
| Selection.ApplyTemplate | frontend/src/pages/CreateProduct.tsx:104-111 | no chosen id or an unknown id leaves the selection unchanged. Otherwise the first template with that id replaces both the products and the variants (`{}` when absent). |
| Selection.ApplyTemplateReplaces | frontend/src/pages/CreateProduct.tsx:107-110 | once a known template is applied, the result does not depend on the previous selection |
| Selection.ApplyTemplateMayOrphanVariants | frontend/src/pages/CreateProduct.tsx:108-109 | a template whose variant keys are not among its products yields a selection whose keys are not selected products |
| Templates.NormaliseTemplates | frontend/src/pages/CreateProduct.tsx:87-98 | an array body is the list. An object body gives its `templates` field, or `[]` when it is missing. A failed request (any status, including 404) or a null body gives `[]`. |
| Templates.FindTemplate | frontend/src/pages/CreateProduct.tsx:106 | `find`: None exactly when no template carries the id; otherwise the template at the first index carrying it |
| VariantOptions.Resolved | frontend/src/pages/CreateProduct.tsx:118-124 | a failed request or an empty body gives `[]`; a fetched body is returned as it came |
| VariantOptions.FetchVariants | frontend/src/pages/CreateProduct.tsx:115-127 | the rebuilt map's keys are exactly the selected products, and each product maps to the response of its last occurrence in the selection |
| Generation.Payload | frontend/src/pages/CreateProduct.tsx:188-197 | the create request carries every form field unchanged (niche, title, description, style preferences, additional notes, safety information), the product id as blueprint, and the product's selected variants or `[]` |
| Generation.FirstFailure | frontend/src/pages/CreateProduct.tsx:187-202 | the index of the first item whose create or generate request fails: all earlier items succeed and that item fails |
| Generation.ItemRequests | frontend/src/pages/CreateProduct.tsx:188-200 | one item sends its create request first and, only when the create succeeded, a generate request for the created id |
| Generation.SentByCompletedItems | frontend/src/pages/CreateProduct.tsx:187-202 | while every create succeeds, item `i` sends exactly two requests: its create request at position `2i` and its generate request for the created id at `2i + 1` |
| Generation.RunGeneration | frontend/src/pages/CreateProduct.tsx:183-203 | an empty selection sends nothing. Otherwise the items up to and including the first failing one send their requests in selection order, and the run stops there with `aborted` set. The previews end as the last successful item's previews (`[]` when absent), or unchanged when none succeeded. |
| Catalog.LoadedCatalog | frontend/src/pages/CreateProduct.tsx:71-74 | a non-array body gives `[]`. Otherwise every item is kept in order with its category replaced by `"Other"` and every other field unchanged. |
| Catalog.Distinct | frontend/src/pages/CreateProduct.tsx:76 | `Array.from(new Set(xs))`: the same elements, each once, and no longer than the input |
| Catalog.LoadedCategories | frontend/src/pages/CreateProduct.tsx:72-76 | the category list after a load is `[]` for an empty catalog and `["Other"]` otherwise |
| Catalog.FilterCatalog | frontend/src/pages/CreateProduct.tsx:351-355 | the shown items are a subsequence of the catalog. Each matches the category (or the category is empty) and contains the lower-cased query in its lower-cased title. Every matching item is shown as often as it occurs. |
| Catalog.EmptyFilterShowsAll | frontend/src/pages/CreateProduct.tsx:351-355 | with no query and no category the whole catalog is shown |
| Catalog.DisplayedImage | frontend/src/pages/CreateProduct.tsx:358-381 | the thumbnail source is never empty: it is `/placeholder.png` or one of `image_url`, `image` or the first entry of `images` |
| Catalog.DisplayedImageIsFirstTruthy | frontend/src/pages/CreateProduct.tsx:358-365 | the thumbnail is the first truthy candidate of `image_url`, `image` and the first `images` entry (a string, or an object's `src`), else the placeholder |
| Catalog.TitleOf | frontend/src/pages/CreateProduct.tsx:279 | the title of the first catalog item with the id, None when no item has it |
| Catalog.SelectedTitles | frontend/src/pages/CreateProduct.tsx:278-280 | exactly the looked-up titles of the selected products (`""` for an unknown id) with the empty ones filtered out: in selection order, none empty, no more than the selection; when every selected product has a title, one per product |
| Catalog.TitleTexts | frontend/src/pages/CreateProduct.tsx:278-279 | one looked-up title per selected id, in selection order, `""` where the catalog has no such id |
| Catalog.SelectedTitlesKeepEveryTitle | frontend/src/pages/CreateProduct.tsx:278-280 | the label's titles are a subsequence of the looked-up titles and keep every non-empty title as often as it is looked up |
| Catalog.OneTitleLabel | frontend/src/pages/CreateProduct.tsx:277-282 | with any number of products selected, when exactly one has a title the button shows that title alone |
| Catalog.TwoTitlesLabel | frontend/src/pages/CreateProduct.tsx:277-282 | with any number of products selected, when exactly two have titles the button shows `first, second` in selection order |
| Catalog.SelectionLabel | frontend/src/pages/CreateProduct.tsx:277-282 | the picker button shows `Select products…` for an empty selection, a lone product's title for a single selection, and an empty text when products are selected but none has a title |
| Carousel.JsRemainder | frontend/src/pages/CreateProduct.tsx:500 | JavaScript `%`: agrees with the mathematical remainder on a non-negative dividend; for a negative one it lies in `(-n, 0]`; in both cases the dividend minus the result is a multiple of `n` |
| Carousel.NextIndex | frontend/src/pages/CreateProduct.tsx:507 | the next index wraps from the last image to the first, otherwise advances by one |
| Carousel.PrevIndex | frontend/src/pages/CreateProduct.tsx:500 | the previous index wraps from the first image to the last, otherwise goes back by one |
| Carousel.PrevNextInverse | frontend/src/pages/CreateProduct.tsx:500-507 | Prev after Next and Next after Prev return to the same image |
| CreateProductPage.ProductCreationPage.constructor | frontend/src/pages/CreateProduct.tsx:15-34 | the page starts with an empty catalog, categories, templates, selection, options and previews, and no chosen template |
| CreateProductPage.ProductCreationPage.LoadCatalog | frontend/src/pages/CreateProduct.tsx:69-81 | a received body sets the normalised catalog and its categories. A failed request clears the catalog and leaves the categories as they were. |
| CreateProductPage.ProductCreationPage.LoadTemplates | frontend/src/pages/CreateProduct.tsx:87-98 | the template list becomes the normalised response |
| CreateProductPage.ProductCreationPage.ChooseTemplate | frontend/src/pages/CreateProduct.tsx:252 | the chosen template id is set (none for the empty option) |
| CreateProductPage.ProductCreationPage.ApplySelectedTemplate | frontend/src/pages/CreateProduct.tsx:104-111 | the selection becomes the template application of the current selection, with nothing else changing |
| CreateProductPage.ProductCreationPage.RefreshVariantOptions | frontend/src/pages/CreateProduct.tsx:114-133 | an empty selection clears the options. Otherwise the options map has exactly the selected products as keys, each bound to its last response. |
| CreateProductPage.ProductCreationPage.ToggleProduct | frontend/src/pages/CreateProduct.tsx:136-151 | the page's selection becomes `Selection.ToggleProduct` of the old one, with nothing else changing |
| CreateProductPage.ProductCreationPage.ToggleVariant | frontend/src/pages/CreateProduct.tsx:154-163 | the page's selection becomes `Selection.ToggleVariant` of the old one, with nothing else changing |
| CreateProductPage.ProductCreationPage.SaveTemplate | frontend/src/pages/CreateProduct.tsx:166-180 | an empty or cancelled name sends nothing and changes nothing. Otherwise the current selection is posted. On success the returned template is appended and chosen; a failed save changes nothing. |
| CreateProductPage.ProductCreationPage.OnGenerate | frontend/src/pages/CreateProduct.tsx:183-203 | the requests, abort flag and previews of `Generation.RunGeneration`, with nothing else changing |
| CreateProductPage.SaveThenApply | frontend/src/pages/CreateProduct.tsx:166-180 | when a save returns a template whose id no earlier template carries, applying it afterwards restores that template's products and variants |
| ProductSelector.MapSet | frontend/src/components/ProductSelector.tsx:31-33 | `Map.set` on an id-distinct entry list. An existing id keeps its position and takes the new value; a new id is appended. The list stays id-distinct. |
| ProductSelector.DedupById | frontend/src/components/ProductSelector.tsx:29-35 | the de-duplicated list has distinct ids and is no longer than the input |
| ProductSelector.DedupKeepsEveryId | frontend/src/components/ProductSelector.tsx:30-34 | the ids of the result are exactly the ids of the input |
| ProductSelector.DedupKeepsLastValue | frontend/src/components/ProductSelector.tsx:32 | each id's entry is the product at its last occurrence in the input |
| ProductSelector.DedupKeepsFirstOrder | frontend/src/components/ProductSelector.tsx:31-33 | ids appear in the order of their first occurrence in the input |
| ProductSelector.DedupOfDistinct | frontend/src/components/ProductSelector.tsx:29-35 | an input with distinct ids is returned unchanged |
| ProductSelector.LoadProducts | frontend/src/components/ProductSelector.tsx:20-44 | loading ends either way. A failed request, or a missing `products` field (whose `[0]` throws), gives the error `Failed to load products` with no products. A non-array field gives no products and no error. An array gives its de-duplication. |
| ProductSelector.RowImage | frontend/src/components/ProductSelector.tsx:66 | the row image is the first image when the list is present and non-empty, else none |
| ProductSelector.RowImageSource | frontend/src/components/ProductSelector.tsx:78-95 | the shown source is the first image when it is non-empty, otherwise `https://placehold.co/64x64`; a non-empty row image is always shown as it is |
| NicheSuggestions.RemoveCarriageReturns | backend/api/niche_routes.py:27 | `replace("\r","")`: no carriage return remains; every other character keeps its count and order |
| NicheSuggestions.SplitLines | backend/api/niche_routes.py:27 | `split("\n")`: at least one piece, no piece holds a newline, and joining the pieces with newlines gives back the input |
| NicheSuggestions.SplitLinesFacts | backend/api/niche_routes.py:27 | there is one more piece than there are newlines, and each piece's characters come from the input |
| NicheSuggestions.Strip | backend/api/niche_routes.py:27 | `strip()`: the result neither starts nor ends with whitespace, and is empty exactly when the input is all whitespace |
| NicheSuggestions.StripIsSlice | backend/api/niche_routes.py:27 | what `strip()` keeps is one contiguous slice of the input, with only whitespace before and after it |
| NicheSuggestions.ParseSuggestions | backend/api/niche_routes.py:27 | the suggestions are the non-empty stripped lines, in order: a subsequence of the stripped lines that keeps every non-empty stripped line as often as it occurs, none empty, none starting or ending with whitespace, no more than the lines |
| NicheSuggestions.SuggestionComesFromLine | backend/api/niche_routes.py:27 | every suggestion is the stripped form of some line of the carriage-return-free text |
| NicheSuggestions.SuggestionsHaveNoLineBreaks | backend/api/niche_routes.py:27 | no suggestion holds a newline or a carriage return |
| NicheSuggestions.SuggestionCountBound | backend/api/niche_routes.py:27 | there are at most one more suggestions than newlines in the carriage-return-free text |
| NicheSuggestions.BlankTextGivesNothing | backend/api/niche_routes.py:27 | a text of whitespace only yields no suggestions |
| NicheSuggestions.SingleLineIsOneSuggestion | backend/api/niche_routes.py:26-27 | a text without newlines and with a non-blank character yields exactly its stripped self, so commas do not split suggestions despite the comment |
| NicheSuggestions.LineEndingsDoNotMatter | backend/api/niche_routes.py:27 | turning every `\r\n` into `\n` does not change the suggestions |

## Left out

- HTTP, the OpenAI call (backend/api/niche_routes.py:15-25) and the mapping of its exceptions to status 500 (29-30): only the parsing of the returned text is modelled.
- `fetchNicheSuggestions` (frontend/src/pages/CreateProduct.tsx:50-58): a single remote call. It posts `product_type` while the backend reads `prompt`, and `blueprintId` is never set on this page, so the title it sends is always `''`.
- Asynchronous interleaving: effects and handlers are modelled as atomic steps in the order the user triggers them. A stale `fetchVariants` finishing after a newer one is not modelled.
- Rendering, dialogs, tabs, the metadata fields, the detail modal and the static pagination markup are not modelled, nor the `loadingImages` spinner state and the `onError` swap to the placeholder, which depend on the browser loading an image.
- Catalog.FilterCatalog: `toLowerCase` is a parameter (`lower`) applied per character; Unicode case mapping, which can change a string's length, is not modelled.
- Templates.NormaliseTemplates: a `templates` field that is present but not an array (kept verbatim by `?? []`) is not representable; the field is either a list or missing.
- Generation.RunGeneration: a created product record without an `id` (which would post `product_id: undefined`) is not representable; a successful create always carries an integer id.
- ProductSelector.LoadProducts: array elements that are not product records are not representable.
- Catalog.SelectionLabel: the text when three or more of the selected products have titles is not stated by a contract; zero, one and two titles are stated (`Catalog.SelectionLabel`, `Catalog.OneTitleLabel`, `Catalog.TwoTitlesLabel`) whatever the number of products selected.
- Catalog.Distinct: the order of the distinct values (first occurrence) is not stated, only which values appear and that each appears once.
- Carousel.NextIndex, Carousel.PrevIndex: an empty image list (a `%` by zero, giving `NaN`) is excluded by the precondition; the carousel opens only from a click on one of its images (frontend/src/pages/CreateProduct.tsx:456-458).
- `toggleVariant` (frontend/src/pages/CreateProduct.tsx:154-163) is defined but never called, and `variantOptions` (33) is filled but never rendered, so no variant checkbox exists on the page; `Selection.ToggleVariant` and `CreateProductPage.ProductCreationPage.ToggleVariant` model the handler as written.
- The Save Template button is commented out in the page (frontend/src/pages/CreateProduct.tsx:259-265); `SaveTemplate` models the handler as written.
