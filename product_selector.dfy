/** The catalog table component (frontend/src/components/ProductSelector.tsx): loading the
    catalog, de-duplicating its products by id through a JavaScript `Map`, and choosing the
    image shown in each row. */
module ProductSelector {
  import opened Wrappers

  /** A catalog product as the table reads it; `images` may be missing. */
  datatype Product = Product(
    id: string, title: string, images: Option<seq<string>>,
    brand: string, model: string, description: string)

  /** The ids of a product list, position by position. */
  function Ids(s: seq<Product>): (r: seq<string>)
    ensures |r| == |s| && forall i :: 0 <= i < |s| ==> r[i] == s[i].id
  {
    seq(|s|, i requires 0 <= i < |s| => s[i].id)
  }

  /** No two products of the list share an id. */
  predicate DistinctIds(s: seq<Product>) {
    forall i, j :: 0 <= i < j < |s| ==> s[i].id != s[j].id
  }

  /** The position of the first product carrying `id`, or -1 when none does. */
  function FirstIndexOf(s: seq<Product>, id: string): (k: int)
    ensures -1 <= k < |s|
    ensures k >= 0 ==> s[k].id == id && forall j :: 0 <= j < k ==> s[j].id != id
    ensures k < 0 ==> forall j :: 0 <= j < |s| ==> s[j].id != id
    decreases |s|
  {
    if s == [] then -1
    else
      var k := FirstIndexOf(s[..|s| - 1], id);
      if k >= 0 then k else if s[|s| - 1].id == id then |s| - 1 else -1
  }

  /** The position of the last product carrying `id`, or -1 when none does. */
  function LastIndexOf(s: seq<Product>, id: string): (k: int)
    ensures -1 <= k < |s|
    ensures k >= 0 ==> s[k].id == id && forall j :: k < j < |s| ==> s[j].id != id
    ensures k < 0 ==> forall j :: 0 <= j < |s| ==> s[j].id != id
    decreases |s|
  {
    if s == [] then -1
    else if s[|s| - 1].id == id then |s| - 1
    else LastIndexOf(s[..|s| - 1], id)
  }

  /** `map.set(p.id, p)` on a `Map` represented by its entries in insertion order: a key
      already present keeps its position and takes the new value; a new key goes last. */
  function MapSet(entries: seq<Product>, p: Product): (r: seq<Product>)
    requires DistinctIds(entries)
    ensures DistinctIds(r)
    ensures p.id in Ids(entries) ==> |r| == |entries|
    ensures p.id !in Ids(entries) ==> r == entries + [p]
    ensures forall k :: 0 <= k < |r| ==> r[k] == (if r[k].id == p.id then p else entries[k])
    ensures forall id :: id in Ids(r) <==> id in Ids(entries) || id == p.id
    ensures forall k :: 0 <= k < |entries| ==> r[k].id == entries[k].id
  {
    var k := FirstIndexOf(entries, p.id);
    if k >= 0 then
      var r := entries[k := p];
      assert Ids(r) == Ids(entries);
      r
    else
      assert Ids(entries + [p]) == Ids(entries) + [p.id];
      entries + [p]
  }

  /** `Array.from(new Map(raw.map(p => [p.id, p])).values())`: one product per id. */
  function DedupById(raw: seq<Product>): (r: seq<Product>)
    ensures DistinctIds(r)
    ensures |r| <= |raw|
    decreases |raw|
  {
    if raw == [] then []
    else MapSet(DedupById(raw[..|raw| - 1]), raw[|raw| - 1])
  }

  /** Every id of the input appears in the output, and no other. */
  lemma {:induction false} DedupKeepsEveryId(raw: seq<Product>)
    ensures forall id :: id in Ids(DedupById(raw)) <==> id in Ids(raw)
    decreases |raw|
  {
    if raw != [] {
      var init, p := raw[..|raw| - 1], raw[|raw| - 1];
      DedupKeepsEveryId(init);
      assert Ids(raw) == Ids(init) + [p.id];
    }
  }

  /** Each product kept is the LAST product with its id in the input. */
  lemma {:induction false} DedupKeepsLastValue(raw: seq<Product>)
    ensures forall k :: 0 <= k < |DedupById(raw)| ==>
              LastIndexOf(raw, DedupById(raw)[k].id) >= 0
              && DedupById(raw)[k] == raw[LastIndexOf(raw, DedupById(raw)[k].id)]
    decreases |raw|
  {
    if raw != [] {
      var init, p := raw[..|raw| - 1], raw[|raw| - 1];
      DedupKeepsLastValue(init);
      var d := DedupById(init);
      var r := DedupById(raw);
      forall k | 0 <= k < |r|
        ensures LastIndexOf(raw, r[k].id) >= 0 && r[k] == raw[LastIndexOf(raw, r[k].id)]
      {
        if r[k].id != p.id {
          assert r[k] == d[k];
          assert LastIndexOf(raw, r[k].id) == LastIndexOf(init, r[k].id);
        }
      }
    }
  }

  /** The products of `r` are ordered by where their ids first occur in `raw`. */
  predicate InFirstOccurrenceOrder(r: seq<Product>, raw: seq<Product>) {
    forall i, j :: 0 <= i < j < |r| ==> 0 <= FirstIndexOf(raw, r[i].id) < FirstIndexOf(raw, r[j].id)
  }

  /** Appending a product does not move the first occurrence of an id already present, and
      puts the first occurrence of a new id last. */
  lemma FirstIndexOfAppend(init: seq<Product>, p: Product, id: string)
    ensures id in Ids(init) ==> FirstIndexOf(init + [p], id) == FirstIndexOf(init, id)
    ensures id !in Ids(init) && id == p.id ==> FirstIndexOf(init + [p], id) == |init|
  {
    assert (init + [p])[..|init|] == init;
    if id in Ids(init) {
      var k :| 0 <= k < |init| && Ids(init)[k] == id;
      assert init[k].id == id;
    }
  }

  /** One step of the order proof: `MapSet` keeps the order of first occurrences. */
  lemma MapSetKeepsFirstOrder(init: seq<Product>, p: Product, d: seq<Product>)
    requires DistinctIds(d)
    requires forall id :: id in Ids(d) <==> id in Ids(init)
    requires InFirstOccurrenceOrder(d, init)
    ensures InFirstOccurrenceOrder(MapSet(d, p), init + [p])
  {
    var r := MapSet(d, p);
    forall i, j | 0 <= i < j < |r|
      ensures 0 <= FirstIndexOf(init + [p], r[i].id) < FirstIndexOf(init + [p], r[j].id)
    {
      assert r[i].id == d[i].id && d[i].id in Ids(d);
      FirstIndexOfAppend(init, p, r[i].id);
      FirstIndexOfAppend(init, p, r[j].id);
      if j < |d| {
        assert r[j].id == d[j].id && d[j].id in Ids(d);
      }
    }
  }

  /** Kept products are in the order in which their ids FIRST occur in the input. */
  lemma {:induction false} DedupKeepsFirstOrder(raw: seq<Product>)
    ensures InFirstOccurrenceOrder(DedupById(raw), raw)
    decreases |raw|
  {
    if raw != [] {
      var init, p := raw[..|raw| - 1], raw[|raw| - 1];
      assert raw == init + [p];
      var d := DedupById(init);
      assert DedupById(raw) == MapSet(d, p);
      DedupKeepsFirstOrder(init);
      DedupKeepsEveryId(init);
      MapSetKeepsFirstOrder(init, p, d);
    }
  }

  /** A list whose ids are already distinct comes back unchanged. */
  lemma {:induction false} DedupOfDistinct(raw: seq<Product>)
    requires DistinctIds(raw)
    ensures DedupById(raw) == raw
    decreases |raw|
  {
    if raw != [] {
      var init, p := raw[..|raw| - 1], raw[|raw| - 1];
      assert raw == init + [p];
      assert DistinctIds(init) by {
        forall i, j | 0 <= i < j < |init| ensures init[i].id != init[j].id {
          assert init[i] == raw[i] && init[j] == raw[j];
        }
      }
      DedupOfDistinct(init);
      assert p.id !in Ids(init) by {
        forall j | 0 <= j < |init| ensures Ids(init)[j] != p.id {
          assert init[j] == raw[j];
        }
      }
    }
  }

  /** `response.data.products`: missing or null, defined but not an array, or an array. */
  datatype ProductsField = NullishProducts | NotAnArray | ProductArray(items: seq<Product>)

  /** The outcome of `GET /printify/catalog`: a rejected request, or a body's `products` field. */
  datatype CatalogResponse = RequestFailed | Received(products: ProductsField)

  /** The component's state: the table rows, the loading flag and the error message. */
  datatype TableState = TableState(products: seq<Product>, loading: bool, error: Option<string>)

  const InitialState := TableState([], true, None)
  const LoadError := "Failed to load products"

  /** The load effect, from the initial state. An array is de-duplicated; a defined non-array
      gives no rows; a missing or null field makes `rawProducts[0]` throw, so, like a rejected
      request, it ends in the catch handler with the error message. Loading always ends. */
  function LoadProducts(resp: CatalogResponse): (st: TableState)
    ensures !st.loading
    ensures DistinctIds(st.products)
    ensures st.error.Some? <==> (resp.RequestFailed? || resp == Received(NullishProducts))
    ensures st.error.Some? ==> st.error.value == LoadError && st.products == []
    ensures resp == Received(NotAnArray) ==> st.products == [] && st.error.None?
    ensures resp.Received? && resp.products.ProductArray? ==> st.products == DedupById(resp.products.items)
  {
    match resp
    case RequestFailed => InitialState.(loading := false, error := Some(LoadError))
    case Received(field) =>
      match field
      case NullishProducts => InitialState.(loading := false, error := Some(LoadError))
      case NotAnArray => InitialState.(products := [], loading := false)
      case ProductArray(items) => InitialState.(products := DedupById(items), loading := false)
  }

  const PlaceholderImage := "https://placehold.co/64x64"

  /** `imageUrl` of a row: the first image when `images` is present and non-empty, else none. */
  function RowImage(p: Product): (r: Option<string>)
    ensures r.Some? <==> p.images.Some? && p.images.value != []
    ensures r.Some? ==> r.value == p.images.value[0]
  {
    match p.images
    case None => None
    case Some(images) => if images != [] then Some(images[0]) else None
  }

  /** The `src` the row's image starts with: the row image when it is a non-empty string,
      otherwise the placeholder (an empty first image is falsy too). */
  function RowImageSource(p: Product): (src: string)
    ensures src == PlaceholderImage || (p.images.Some? && p.images.value != [] && src == p.images.value[0])
    ensures (p.images.None? || p.images.value == []) ==> src == PlaceholderImage
    ensures RowImage(p).Some? && RowImage(p).value != "" ==> src == RowImage(p).value
    ensures src != ""
  {
    var u := RowImage(p);
    if u.Some? && u.value != "" then u.value else PlaceholderImage
  }
}
