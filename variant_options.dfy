/** The variant-option rebuild of the product-creation page (frontend/src/pages/CreateProduct.tsx):
    after every change of the selection, the variants of each selected product are fetched
    one after another into a fresh map. The fetch answers are given as inputs, one per request. */
module VariantOptions {
  import opened Wrappers

  /** A purchasable variant of a catalog blueprint. */
  datatype Variant = Variant(id: int, title: string)

  /** The answer to `GET printify/catalog/{id}/variants`: a failure, or a body that may be null. */
  datatype VariantResponse = FetchFailed | Fetched(body: Option<seq<Variant>>)

  /** `res.data || []` on success, `[]` on a caught failure. */
  function Resolved(resp: VariantResponse): (r: seq<Variant>)
    ensures resp.FetchFailed? || resp.body.None? ==> r == []
    ensures resp.Fetched? && resp.body.Some? ==> r == resp.body.value
  {
    match resp
    case FetchFailed => []
    case Fetched(body) => body.GetOr([])
  }

  /** `k` is the last position of its product id in the selection. */
  predicate LastOccurrence(selected: seq<int>, k: int)
    requires 0 <= k < |selected|
  {
    forall j :: k < j < |selected| ==> selected[j] != selected[k]
  }

  /** `fetchVariants`: one request per selected position, in selection order; `responses[i]`
      answers the request for `selected[i]`. The map has exactly one key per selected id,
      holding what the last request for that id resolved to. */
  method FetchVariants(selected: seq<int>, responses: seq<VariantResponse>)
    returns (variantsMap: map<int, seq<Variant>>)
    requires |responses| == |selected|
    ensures variantsMap.Keys == set p | p in selected
    ensures forall k :: 0 <= k < |selected| && LastOccurrence(selected, k)
                        ==> variantsMap[selected[k]] == Resolved(responses[k])
  {
    variantsMap := map[];
    for i := 0 to |selected|
      invariant variantsMap.Keys == set p | p in selected[..i]
      invariant forall k :: 0 <= k < i && (forall j :: k < j < i ==> selected[j] != selected[k])
                            ==> variantsMap[selected[k]] == Resolved(responses[k])
    {
      variantsMap := variantsMap[selected[i] := Resolved(responses[i])];
      assert selected[..i + 1] == selected[..i] + [selected[i]];
    }
    assert selected[..|selected|] == selected;
  }
}
