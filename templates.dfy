/** Saved selection templates of the product-creation page: their shape, the normalisation of
    the `GET templates` answer and the lookup by id (frontend/src/pages/CreateProduct.tsx). */
module Templates {
  import opened Wrappers

  /** `{ id, name, products, variants }`; `variants` may be missing or null in a stored record. */
  datatype Template = Template(id: int, name: string, products: seq<int>, variants: Option<map<int, seq<int>>>)

  /** The JSON body of `GET templates`. */
  datatype TemplatesBody =
    | NullBody                                    // `res.data` is null: reading `.templates` throws
    | ArrayBody(list: seq<Template>)              // a bare array
    | ObjectBody(templates: Option<seq<Template>>) // `{ templates: [...] }`, the field possibly missing or null

  /** The outcome of `GET templates`: a transport or HTTP error (404 included) or a body. */
  datatype TemplatesResponse = RequestFailed(status: Option<int>) | Received(body: TemplatesBody)

  /** The list the page keeps after loading templates: a bare array as is, else the `templates`
      field, else the empty list; every failure, 404 or not, also gives the empty list. */
  function NormaliseTemplates(resp: TemplatesResponse): (r: seq<Template>)
    ensures resp.RequestFailed? ==> r == []
    ensures resp == Received(NullBody) ==> r == []
    ensures resp.Received? && resp.body.ArrayBody? ==> r == resp.body.list
    ensures resp.Received? && resp.body.ObjectBody? ==> r == resp.body.templates.GetOr([])
  {
    match resp
    case RequestFailed(_) => []
    case Received(body) =>
      match body
      case NullBody => []
      case ArrayBody(list) => list
      case ObjectBody(field) => field.GetOr([])
  }

  /** `templates.find(t => t.id === id)`: the first template carrying `id`, if any. */
  function FindTemplate(templates: seq<Template>, id: int): (r: Option<Template>)
    ensures r.None? <==> forall k :: 0 <= k < |templates| ==> templates[k].id != id
    ensures forall k :: 0 <= k < |templates| && templates[k].id == id && (forall j :: 0 <= j < k ==> templates[j].id != id)
                        ==> r == Some(templates[k])
  {
    if templates == [] then None
    else if templates[0].id == id then Some(templates[0])
    else
      var rest := FindTemplate(templates[1..], id);
      assert forall k :: 1 <= k < |templates| ==> templates[k] == templates[1..][k - 1];
      rest
  }
}
