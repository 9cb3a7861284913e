/** The generation loop of the product-creation page (`onGenerate`,
    frontend/src/pages/CreateProduct.tsx). For each selected product, in selection order, it
    posts a product record and then asks for a design for the record the server created. The
    server's answers are inputs, one pair per selected position. There is no try/catch: the
    first failed request ends the whole run. */
module Generation {
  import opened Wrappers

  /** The form fields copied into every product record. */
  datatype ProductForm = ProductForm(
    niche: string, stylePreferences: string, additionalNotes: string,
    title: string, description: string, safetyInformation: string)

  /** The body of `POST /products/`. */
  datatype CreatePayload = CreatePayload(
    niche: string, blueprintId: int, variants: seq<int>, stylePreferences: string,
    additionalNotes: string, title: string, description: string, safetyInformation: string)

  /** A request the loop sends, in the order it sends them. */
  datatype Request = CreateProductRequest(payload: CreatePayload) | GenerateDesignRequest(productId: int)

  /** The answer to `POST /products/`: a rejected request or the created record's id. */
  datatype CreateResponse = CreateFailed | Created(id: int)

  /** The answer to `POST /designs/generate`: a rejected request or a body whose `previews` may be missing. */
  datatype GenerateResponse = GenerateFailed | Generated(previews: Option<seq<string>>)

  /** The record posted for `blueprintId`, its variants read as `selectedVariants[id] || []`. */
  function Payload(form: ProductForm, blueprintId: int, selectedVariants: map<int, seq<int>>): (p: CreatePayload)
    ensures p.blueprintId == blueprintId
    ensures p.variants == (if blueprintId in selectedVariants then selectedVariants[blueprintId] else [])
    ensures p.niche == form.niche && p.title == form.title && p.description == form.description
    ensures p.stylePreferences == form.stylePreferences && p.additionalNotes == form.additionalNotes
    ensures p.safetyInformation == form.safetyInformation
  {
    CreatePayload(form.niche, blueprintId, Lookup(selectedVariants, blueprintId).GetOr([]),
                  form.stylePreferences, form.additionalNotes, form.title, form.description,
                  form.safetyInformation)
  }

  /** `genRes.data.previews || []`. */
  function PreviewsOf(g: GenerateResponse): seq<string>
    requires g.Generated?
  {
    g.previews.GetOr([])
  }

  /** Both requests for one position succeed. */
  predicate ItemSucceeds(c: CreateResponse, g: GenerateResponse) {
    c.Created? && g.Generated?
  }

  /** The position of the first failing item, or the number of items when none fails. */
  function FirstFailure(creates: seq<CreateResponse>, gens: seq<GenerateResponse>): (k: nat)
    requires |creates| == |gens|
    ensures k <= |creates|
    ensures forall i :: 0 <= i < k ==> ItemSucceeds(creates[i], gens[i])
    ensures k < |creates| ==> !ItemSucceeds(creates[k], gens[k])
    decreases |creates|
  {
    if creates == [] then 0
    else if !ItemSucceeds(creates[0], gens[0]) then 0
    else
      var k := FirstFailure(creates[1..], gens[1..]);
      assert forall i :: 1 <= i < k + 1 ==> creates[i] == creates[1..][i - 1] && gens[i] == gens[1..][i - 1];
      k + 1
  }

  /** The requests one item sends: its create request and, when that succeeds, the generate
      request for the created id. */
  function ItemRequests(form: ProductForm, pid: int, selectedVariants: map<int, seq<int>>, c: CreateResponse): (r: seq<Request>)
    ensures |r| == if c.Created? then 2 else 1
    ensures r[0] == CreateProductRequest(Payload(form, pid, selectedVariants))
    ensures c.Created? ==> r[1] == GenerateDesignRequest(c.id)
  {
    var create := CreateProductRequest(Payload(form, pid, selectedVariants));
    if c.Created? then [create, GenerateDesignRequest(c.id)] else [create]
  }

  /** The requests the first `n` items send, in order. */
  function SentBy(form: ProductForm, selected: seq<int>, selectedVariants: map<int, seq<int>>,
                  creates: seq<CreateResponse>, n: nat): seq<Request>
    requires n <= |selected| == |creates|
  {
    if n == 0 then []
    else SentBy(form, selected, selectedVariants, creates, n - 1) + ItemRequests(form, selected[n - 1], selectedVariants, creates[n - 1])
  }

  /** When the first `n` creates succeed, their items send two requests each: item `i`'s
      create request at `2 * i` and its generate request, for the created id, at `2 * i + 1`. */
  lemma {:induction false} SentByCompletedItems(form: ProductForm, selected: seq<int>, selectedVariants: map<int, seq<int>>,
                                                creates: seq<CreateResponse>, n: nat)
    requires n <= |selected| == |creates|
    requires forall i :: 0 <= i < n ==> creates[i].Created?
    ensures var sent := SentBy(form, selected, selectedVariants, creates, n);
            |sent| == 2 * n
            && forall i :: 0 <= i < n ==>
                 sent[2 * i] == CreateProductRequest(Payload(form, selected[i], selectedVariants))
                 && sent[2 * i + 1] == GenerateDesignRequest(creates[i].id)
  {
    if n > 0 {
      SentByCompletedItems(form, selected, selectedVariants, creates, n - 1);
      var before := SentBy(form, selected, selectedVariants, creates, n - 1);
      var item := ItemRequests(form, selected[n - 1], selectedVariants, creates[n - 1]);
      var sent := before + item;
      assert SentBy(form, selected, selectedVariants, creates, n) == sent;
      forall i | 0 <= i < n
        ensures sent[2 * i] == CreateProductRequest(Payload(form, selected[i], selectedVariants))
        ensures sent[2 * i + 1] == GenerateDesignRequest(creates[i].id)
      {
        if i < n - 1 {
          assert sent[2 * i] == before[2 * i] && sent[2 * i + 1] == before[2 * i + 1];
        } else {
          assert sent[2 * i] == item[0] && sent[2 * i + 1] == item[1];
        }
      }
    }
  }

  /** One run of `onGenerate`, from `previews0` on screen: the requests it sends, the previews
      it leaves on screen, and whether a rejected request ended it early. With nothing selected
      it sends nothing. Otherwise every item up to and including the first failing one
      (position `k`) sends its requests, in order, and the run stops there. Previews are
      replaced on every completed item, so what is left is the last completed item's. */
  method RunGeneration(selected: seq<int>, selectedVariants: map<int, seq<int>>, form: ProductForm,
                       creates: seq<CreateResponse>, gens: seq<GenerateResponse>, previews0: seq<string>)
    returns (requests: seq<Request>, previews: seq<string>, aborted: bool)
    requires |creates| == |selected| && |gens| == |selected|
    ensures selected == [] ==> requests == [] && previews == previews0 && !aborted
    ensures var k := FirstFailure(creates, gens);
            && (aborted <==> k < |selected|)
            && requests == SentBy(form, selected, selectedVariants, creates, if k < |selected| then k + 1 else k)
            && previews == (if k == 0 then previews0 else PreviewsOf(gens[k - 1]))
  {
    requests, previews, aborted := [], previews0, false;
    if |selected| == 0 {
      return;
    }
    ghost var k := FirstFailure(creates, gens);
    var i := 0;
    while i < |selected|
      invariant 0 <= i <= k
      invariant requests == SentBy(form, selected, selectedVariants, creates, i)
      invariant previews == (if i == 0 then previews0 else PreviewsOf(gens[i - 1]))
    {
      // The create request, then the generate request only when the create succeeded.
      requests := requests + ItemRequests(form, selected[i], selectedVariants, creates[i]);
      if !ItemSucceeds(creates[i], gens[i]) {
        aborted := true;
        return;
      }
      previews := PreviewsOf(gens[i]);
      i := i + 1;
    }
  }
}
