/** The state of the product-creation page (frontend/src/pages/CreateProduct.tsx) as one
    object: each React state variable of the selection workflow is a field, and each handler
    or effect is a method that replaces fields, as the page's setters do. Remote answers are
    parameters. Each method is one atomic step; effects are called by the client after the
    state change that triggers them. */
module CreateProductPage {
  import opened Wrappers
  import opened Catalog
  import opened Templates
  import Sel = Selection
  import opened VariantOptions
  import opened Generation

  /** The outcome of `GET printify/catalog`. */
  datatype CatalogResponse = CatalogFailed | CatalogReceived(body: CatalogBody)

  /** The outcome of `POST /templates`: a failure, or the created template the server returns. */
  datatype SaveResponse = SaveFailed | SavedTemplate(template: Template)

  /** The body of `POST /templates`. */
  datatype SaveRequest = SaveRequest(name: string, products: seq<int>, variants: map<int, seq<int>>)

  class ProductCreationPage {
    var catalog: seq<CatalogItem>
    var categories: seq<string>
    var templates: seq<Template>
    var selectedTemplateId: Option<int>
    var selectedProducts: seq<int>
    var selectedVariants: map<int, seq<int>>
    var variantOptions: map<int, seq<Variant>>
    var previews: seq<string>

    /** The selection part of the state as a value. */
    function Selection(): Sel.Selection
      reads this
    {
      Sel.Selection(selectedProducts, selectedVariants)
    }

    /** The initial `useState` values. */
    constructor ()
      ensures catalog == [] && categories == [] && templates == [] && selectedTemplateId == None
      ensures selectedProducts == [] && selectedVariants == map[] && variantOptions == map[] && previews == []
    {
      catalog, categories, templates, selectedTemplateId := [], [], [], None;
      selectedProducts, selectedVariants, variantOptions, previews := [], map[], map[], [];
    }

    /** `loadCatalog`: on an answer, the normalised catalog and its distinct categories; on a
        failure, an empty catalog and the categories left as they were. */
    method LoadCatalog(resp: CatalogResponse)
      modifies this`catalog, this`categories
      ensures resp.CatalogFailed? ==> catalog == [] && categories == old(categories)
      ensures resp.CatalogReceived? ==> catalog == LoadedCatalog(resp.body) && categories == Categories(catalog)
      ensures resp.CatalogReceived? ==> categories == if catalog == [] then [] else [OtherCategory]
    {
      match resp
      case CatalogFailed =>
        catalog := [];
      case CatalogReceived(body) =>
        catalog := LoadedCatalog(body);
        categories := Categories(catalog);
        LoadedCategories(body);
    }

    /** `loadTemplates`: the normalised list, empty on any failure. */
    method LoadTemplates(resp: TemplatesResponse)
      modifies this`templates
      ensures templates == NormaliseTemplates(resp)
    {
      templates := NormaliseTemplates(resp);
    }

    /** The template drop-down: an empty choice clears the chosen template id. */
    method ChooseTemplate(choice: Option<int>)
      modifies this`selectedTemplateId
      ensures selectedTemplateId == choice
    {
      selectedTemplateId := choice;
    }

    /** The apply-template effect, run when the chosen id or the template list changes. */
    method ApplySelectedTemplate()
      modifies this`selectedProducts, this`selectedVariants
      ensures Selection() == Sel.ApplyTemplate(old(Selection()), templates, selectedTemplateId)
      ensures selectedTemplateId.None? ==> selectedProducts == old(selectedProducts) && selectedVariants == old(selectedVariants)
    {
      if selectedTemplateId.None? {
        return;
      }
      var template := FindTemplate(templates, selectedTemplateId.value);
      if template.Some? {
        selectedProducts := template.value.products;
        selectedVariants := template.value.variants.GetOr(map[]);
      }
    }

    /** The variant-option effect, run when the selection changes: `{}` for an empty selection,
        otherwise one entry per selected id from the fetch answers, one per selected position. */
    method RefreshVariantOptions(responses: seq<VariantResponse>)
      requires |responses| == |selectedProducts|
      modifies this`variantOptions
      ensures variantOptions.Keys == set p | p in selectedProducts
      ensures selectedProducts == [] ==> variantOptions == map[]
      ensures forall k :: 0 <= k < |selectedProducts| && LastOccurrence(selectedProducts, k)
                          ==> variantOptions[selectedProducts[k]] == Resolved(responses[k])
    {
      if |selectedProducts| > 0 {
        variantOptions := FetchVariants(selectedProducts, responses);
      } else {
        variantOptions := map[];
      }
    }

    /** `toggleProduct`. */
    method ToggleProduct(pid: int)
      modifies this`selectedProducts, this`selectedVariants
      ensures Selection() == Sel.ToggleProduct(old(Selection()), pid)
      ensures Sel.VariantKeysSelected(old(Selection())) ==> Sel.VariantKeysSelected(Selection())
    {
      if pid in selectedProducts {
        selectedProducts := Seqs.RemoveAll(selectedProducts, pid);
        selectedVariants := selectedVariants - {pid};
      } else {
        selectedProducts := selectedProducts + [pid];
      }
    }

    /** `toggleVariant`. */
    method ToggleVariant(pid: int, vid: int)
      modifies this`selectedVariants
      ensures Selection() == Sel.ToggleVariant(old(Selection()), pid, vid)
      ensures Sel.VariantKeysSelected(old(Selection())) && pid in selectedProducts ==> Sel.VariantKeysSelected(Selection())
    {
      var current := Lookup(selectedVariants, pid).GetOr([]);
      if vid in current {
        selectedVariants := selectedVariants[pid := Seqs.RemoveAll(current, vid)];
      } else {
        selectedVariants := selectedVariants[pid := current + [vid]];
      }
    }

    /** `saveTemplate`, with the name the user typed (`None` when the prompt is cancelled) and
        the server's answer. An empty or cancelled name sends nothing and changes nothing; a
        failed request changes nothing; otherwise the returned template is appended and chosen. */
    method SaveTemplate(name: Option<string>, resp: SaveResponse) returns (request: Option<SaveRequest>)
      modifies this`templates, this`selectedTemplateId
      ensures name.None? || name.value == "" ==> request.None?
      ensures request.Some? <==> name.Some? && name.value != ""
      ensures request.Some? ==> request.value == SaveRequest(name.value, selectedProducts, selectedVariants)
      ensures request.Some? && resp.SavedTemplate? ==>
                templates == old(templates) + [resp.template] && selectedTemplateId == Some(resp.template.id)
      ensures request.None? || resp.SaveFailed? ==>
                templates == old(templates) && selectedTemplateId == old(selectedTemplateId)
    {
      if name.None? || name.value == "" {
        return None;
      }
      request := Some(SaveRequest(name.value, selectedProducts, selectedVariants));
      if resp.SavedTemplate? {
        templates := templates + [resp.template];
        selectedTemplateId := Some(resp.template.id);
      }
    }

    /** `onGenerate`, with the server's answers, one pair per selected position: the requests
        sent, whether a rejected request ended the run, and the previews left on screen. */
    method OnGenerate(form: ProductForm, creates: seq<CreateResponse>, gens: seq<GenerateResponse>)
      returns (requests: seq<Request>, aborted: bool)
      requires |creates| == |selectedProducts| && |gens| == |selectedProducts|
      modifies this`previews
      ensures selectedProducts == [] ==> requests == [] && previews == old(previews) && !aborted
      ensures var k := FirstFailure(creates, gens);
              && (aborted <==> k < |selectedProducts|)
              && requests == SentBy(form, selectedProducts, selectedVariants, creates, if k < |selectedProducts| then k + 1 else k)
              && previews == (if k == 0 then old(previews) else PreviewsOf(gens[k - 1]))
    {
      requests, previews, aborted := RunGeneration(selectedProducts, selectedVariants, form, creates, gens, previews);
    }
  }

  /** Saving a template and then running the apply effect makes the server's copy of the
      template the selection (the ids the server hands out being distinct). */
  method SaveThenApply(page: ProductCreationPage, name: string, t: Template)
    requires name != ""
    requires forall k :: 0 <= k < |page.templates| ==> page.templates[k].id != t.id
    modifies page
    ensures page.selectedProducts == t.products && page.selectedVariants == t.variants.GetOr(map[])
  {
    var request := page.SaveTemplate(Some(name), SavedTemplate(t));
    assert page.templates[|page.templates| - 1] == t;
    page.ApplySelectedTemplate();
  }
}
