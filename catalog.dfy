/** The catalog side of the product-creation page (frontend/src/pages/CreateProduct.tsx):
    normalising the loaded catalog, the search/category filter of the catalog dialog, the
    thumbnail source chosen for a catalog row, and the label listing the selected products. */
module Catalog {
  import opened Wrappers
  import opened Seqs

  /** The first element of an item's `images` array, as the row reads it. */
  datatype ImageEntry = UrlEntry(url: string) | ObjectEntry(src: Option<string>) | NullishEntry

  /** An item's `images` field: an array, or anything else (missing, null, not an array). */
  datatype ImageList = NoImageArray | ImageArray(entries: seq<ImageEntry>)

  /** A catalog blueprint as the page uses it. `category` is missing until the load assigns one. */
  datatype CatalogItem = CatalogItem(
    id: int, title: string, category: Option<string>,
    imageUrl: Option<string>, image: Option<string>, images: ImageList)

  /** The body of `GET printify/catalog`: an array of items, or anything else. */
  datatype CatalogBody = CatalogArray(items: seq<CatalogItem>) | NotAnArray

  /** The category every item receives while classification is switched off. */
  const OtherCategory := "Other"

  /** `loadCatalog` on a received body: a non-array becomes `[]`, every item is kept in order
      with its category set to `'Other'`, nothing else about it changed. */
  function LoadedCatalog(body: CatalogBody): (r: seq<CatalogItem>)
    ensures body.NotAnArray? ==> r == []
    ensures body.CatalogArray? ==> |r| == |body.items|
    ensures body.CatalogArray? ==> forall i :: 0 <= i < |r| ==>
              r[i].category == Some(OtherCategory) && r[i].(category := body.items[i].category) == body.items[i]
  {
    match body
    case NotAnArray => []
    case CatalogArray(items) => seq(|items|, i requires 0 <= i < |items| => items[i].(category := Some(OtherCategory)))
  }

  /** `Array.from(new Set(xs))`: each distinct value once. */
  function Distinct(xs: seq<string>): (r: seq<string>)
    ensures forall x :: x in r <==> x in xs
    ensures forall i, j :: 0 <= i < j < |r| ==> r[i] != r[j]
    ensures |r| <= |xs|
    decreases |xs|
  {
    if xs == [] then []
    else
      var d := Distinct(xs[..|xs| - 1]);
      assert xs == xs[..|xs| - 1] + [xs[|xs| - 1]];
      if xs[|xs| - 1] in d then d else d + [xs[|xs| - 1]]
  }

  /** The category names offered by the dialog: the distinct categories of the loaded items. */
  function Categories(items: seq<CatalogItem>): seq<string> {
    Distinct(seq(|items|, i requires 0 <= i < |items| => items[i].category.GetOr("")))
  }

  /** A non-empty list of one repeated value has that value as its only distinct element. */
  lemma {:induction false} DistinctOfConstant(xs: seq<string>, x: string)
    requires |xs| >= 1 && forall i :: 0 <= i < |xs| ==> xs[i] == x
    ensures Distinct(xs) == [x]
    decreases |xs|
  {
    if |xs| > 1 {
      DistinctOfConstant(xs[..|xs| - 1], x);
    }
  }

  /** With classification off, the categories are `['Other']`, or none for an empty catalog. */
  lemma LoadedCategories(body: CatalogBody)
    ensures Categories(LoadedCatalog(body)) == (if LoadedCatalog(body) == [] then [] else [OtherCategory])
  {
    var items := LoadedCatalog(body);
    if items != [] {
      DistinctOfConstant(seq(|items|, i requires 0 <= i < |items| => items[i].category.GetOr("")), OtherCategory);
    }
  }

  /** `toLowerCase`, with the per-character mapping given as a parameter (Unicode case mapping
      is not modelled). */
  function Lower(s: string, lower: char -> char): (r: string)
    ensures |r| == |s|
    ensures forall i :: 0 <= i < |s| ==> r[i] == lower(s[i])
  {
    seq(|s|, i requires 0 <= i < |s| => lower(s[i]))
  }

  /** `needle` occurs in `hay` starting at position `i`. */
  predicate OccursAt(hay: string, needle: string, i: int) {
    0 <= i <= |hay| - |needle| && hay[i..i + |needle|] == needle
  }

  /** `hay.includes(needle)`: `needle` occurs in `hay` at some position. */
  predicate Contains(hay: string, needle: string) {
    exists i | 0 <= i <= |hay| - |needle| :: OccursAt(hay, needle, i)
  }

  /** The dialog's test for one item: category `''` admits all, otherwise an exact match; and
      the lower-cased query occurs in the lower-cased title. */
  predicate MatchesFilter(item: CatalogItem, query: string, category: string, lower: char -> char) {
    (category == "" || item.category == Some(category))
    && Contains(Lower(item.title, lower), Lower(query, lower))
  }

  /** The catalog items the dialog lists for a search text and a category. */
  function FilterCatalog(catalog: seq<CatalogItem>, query: string, category: string, lower: char -> char)
    : (r: seq<CatalogItem>)
    ensures IsSubsequence(r, catalog)
    ensures forall i :: 0 <= i < |r| ==> MatchesFilter(r[i], query, category, lower)
    ensures forall item :: MatchesFilter(item, query, category, lower) ==> multiset(r)[item] == multiset(catalog)[item]
  {
    var keep := item => MatchesFilter(item, query, category, lower);
    FilterIsSubsequence(catalog, keep);
    forall item | MatchesFilter(item, query, category, lower)
      ensures multiset(Filter(catalog, keep))[item] == multiset(catalog)[item]
    {
      FilterKeepsAccepted(catalog, keep, item);
    }
    Filter(catalog, keep)
  }

  /** With an empty search text and the "All" category the dialog lists the whole catalog. */
  lemma EmptyFilterShowsAll(catalog: seq<CatalogItem>, lower: char -> char)
    ensures FilterCatalog(catalog, "", "", lower) == catalog
  {
    var keep := item => MatchesFilter(item, "", "", lower);
    forall i | 0 <= i < |catalog| ensures MatchesFilter(catalog[i], "", "", lower) {
      assert OccursAt(Lower(catalog[i].title, lower), Lower("", lower), 0);
    }
    FilterAllAccepted(catalog, keep);
  }

  /** JavaScript truthiness of an optional string: present and non-empty. */
  predicate Truthy(v: Option<string>) {
    v.Some? && v.value != ""
  }

  /** The value taken from a non-empty `images` array: its first element when that is a
      string, else that element's `src` (`firstImage?.src`). */
  function FirstImageValue(images: ImageList): Option<string> {
    match images
    case NoImageArray => None
    case ImageArray(entries) =>
      if entries == [] then None
      else match entries[0]
        case UrlEntry(url) => Some(url)
        case ObjectEntry(src) => src
        case NullishEntry => None
  }

  /** `imgSrc` of a catalog row: `image_url` if truthy, else `image` if truthy, else the value
      taken from a non-empty `images` array, else nothing. */
  function ImageSource(item: CatalogItem): Option<string> {
    if Truthy(item.imageUrl) then item.imageUrl
    else if Truthy(item.image) then item.image
    else if item.images.ImageArray? && item.images.entries != [] then FirstImageValue(item.images)
    else None
  }

  const Placeholder := "/placeholder.png"

  /** The first truthy candidate, or `default` when none is. */
  function FirstTruthyOr(candidates: seq<Option<string>>, default: string): (r: string)
    ensures r == default || exists i :: 0 <= i < |candidates| && Truthy(candidates[i]) && r == candidates[i].value
    decreases |candidates|
  {
    if candidates == [] then default
    else if Truthy(candidates[0]) then candidates[0].value
    else FirstTruthyOr(candidates[1..], default)
  }

  /** The thumbnail `src` of a catalog row, `imgSrc || '/placeholder.png'`. */
  function DisplayedImage(item: CatalogItem): (src: string)
    ensures src != ""
    ensures src == Placeholder || Some(src) in [item.imageUrl, item.image, FirstImageValue(item.images)]
  {
    var s := ImageSource(item);
    if Truthy(s) then s.value else Placeholder
  }

  /** The row shows the first truthy of `image_url`, `image` and the first `images` value, or
      the placeholder: the if-chain is a first-truthy choice over these three candidates. */
  lemma DisplayedImageIsFirstTruthy(item: CatalogItem)
    ensures DisplayedImage(item) == FirstTruthyOr([item.imageUrl, item.image, FirstImageValue(item.images)], Placeholder)
  {
    var c := [item.imageUrl, item.image, FirstImageValue(item.images)];
    assert c[1..] == [item.image, FirstImageValue(item.images)];
    assert c[1..][1..] == [FirstImageValue(item.images)];
    assert c[1..][1..][1..] == [];
    assert FirstTruthyOr(c[1..][1..], Placeholder)
           == if Truthy(FirstImageValue(item.images)) then FirstImageValue(item.images).value else Placeholder;
    assert !(item.images.ImageArray? && item.images.entries != []) ==> FirstImageValue(item.images).None?;
  }

  /** `catalog.find(c => c.id === id)?.title`. */
  function TitleOf(catalog: seq<CatalogItem>, id: int): (r: Option<string>)
    ensures r.None? <==> forall k :: 0 <= k < |catalog| ==> catalog[k].id != id
    ensures forall k :: 0 <= k < |catalog| && catalog[k].id == id && (forall j :: 0 <= j < k ==> catalog[j].id != id)
                        ==> r == Some(catalog[k].title)
  {
    if catalog == [] then None
    else if catalog[0].id == id then Some(catalog[0].title)
    else
      var rest := TitleOf(catalog[1..], id);
      assert forall k :: 1 <= k < |catalog| ==> catalog[k] == catalog[1..][k - 1];
      rest
  }

  /** The title looked up for each selected id, in selection order, with `""` standing for an
      id the catalog does not have (both are falsy to the filter that follows). */
  function TitleTexts(selected: seq<int>, catalog: seq<CatalogItem>): (r: seq<string>)
    ensures |r| == |selected|
    ensures forall i :: 0 <= i < |r| ==> r[i] == TitleOf(catalog, selected[i]).GetOr("")
  {
    seq(|selected|, i requires 0 <= i < |selected| => TitleOf(catalog, selected[i]).GetOr(""))
  }

  /** `selectedProducts.map(id => title of id).filter(Boolean)`: the titles of the selected
      products found in the catalog, in selection order, unknown ids and empty titles dropped. */
  function SelectedTitles(selected: seq<int>, catalog: seq<CatalogItem>): (r: seq<string>)
    ensures r == Filter(TitleTexts(selected, catalog), NotEmpty)
    ensures |r| <= |selected|
    ensures forall i :: 0 <= i < |r| ==> r[i] != ""
    ensures (forall i :: 0 <= i < |selected| ==> Truthy(TitleOf(catalog, selected[i])))
            ==> |r| == |selected| && forall i :: 0 <= i < |r| ==> Some(r[i]) == TitleOf(catalog, selected[i])
    decreases |selected|
  {
    if selected == [] then []
    else
      var t := TitleOf(catalog, selected[0]);
      var rest := SelectedTitles(selected[1..], catalog);
      assert forall i :: 1 <= i < |selected| ==> selected[i] == selected[1..][i - 1];
      assert TitleTexts(selected, catalog)[0] == t.GetOr("");
      assert TitleTexts(selected, catalog)[1..] == TitleTexts(selected[1..], catalog);
      if Truthy(t) then [t.value] + rest else rest
  }

  /** The label's titles are the looked-up titles in selection order with only the falsy ones
      dropped: every non-empty title stays, once for each selected id that has it. */
  lemma SelectedTitlesKeepEveryTitle(selected: seq<int>, catalog: seq<CatalogItem>, title: string)
    requires title != ""
    ensures IsSubsequence(SelectedTitles(selected, catalog), TitleTexts(selected, catalog))
    ensures multiset(SelectedTitles(selected, catalog))[title] == multiset(TitleTexts(selected, catalog))[title]
  {
    FilterIsSubsequence(TitleTexts(selected, catalog), NotEmpty);
    FilterKeepsAccepted(TitleTexts(selected, catalog), NotEmpty, title);
  }

  const NoSelectionLabel := "Select products…"

  /** The text of the product-picker button: the joined titles, or the prompt when nothing is selected. */
  function SelectionLabel(selected: seq<int>, catalog: seq<CatalogItem>): (text: string)
    ensures selected == [] ==> text == NoSelectionLabel
    ensures |selected| == 1 && Truthy(TitleOf(catalog, selected[0])) ==> text == TitleOf(catalog, selected[0]).value
    ensures |selected| > 0 && (forall i :: 0 <= i < |selected| ==> !Truthy(TitleOf(catalog, selected[i]))) ==> text == ""
  {
    if |selected| > 0 then
      assert (forall i :: 0 <= i < |selected| ==> !Truthy(TitleOf(catalog, selected[i])))
             ==> SelectedTitles(selected, catalog) == [] by {
        if forall i :: 0 <= i < |selected| ==> !Truthy(TitleOf(catalog, selected[i])) {
          FilterNoneAccepted(TitleTexts(selected, catalog), NotEmpty);
        }
      }
      Join(SelectedTitles(selected, catalog), ", ")
    else NoSelectionLabel
  }

  /** However many products are selected, when exactly one of them has a title the button
      shows that title alone. */
  lemma OneTitleLabel(selected: seq<int>, catalog: seq<CatalogItem>)
    requires |selected| > 0 && |SelectedTitles(selected, catalog)| == 1
    ensures SelectionLabel(selected, catalog) == SelectedTitles(selected, catalog)[0]
  {
  }

  /** However many products are selected, when exactly two of them have titles the button
      shows them as "first, second", in selection order. */
  lemma TwoTitlesLabel(selected: seq<int>, catalog: seq<CatalogItem>)
    requires |selected| > 0 && |SelectedTitles(selected, catalog)| == 2
    ensures var t := SelectedTitles(selected, catalog);
            SelectionLabel(selected, catalog) == t[0] + ", " + t[1]
  {
    var t := SelectedTitles(selected, catalog);
    assert t[1..] == [t[1]];
  }
}
