/** The selection state of the product-creation page and its pure transitions
    (frontend/src/pages/CreateProduct.tsx). Each transition is the updater function the page
    hands to `setSelectedProducts` / `setSelectedVariants`, or the template-apply effect, and
    takes the previous selection to the next one. */
module Selection {
  import opened Wrappers
  import opened Seqs
  import opened Templates

  /** `selectedProducts` (insertion order, duplicates possible when a template carries them)
      and `selectedVariants` (product id to the variant ids chosen for it). */
  datatype Selection = Selection(products: seq<int>, variants: map<int, seq<int>>)

  const EmptySelection := Selection([], map[])

  /** Every product that has a variant entry is selected (no orphaned variant entries). */
  predicate VariantKeysSelected(sel: Selection) {
    forall p :: p in sel.variants ==> p in sel.products
  }

  /** `prev[productId] || []`: the variants chosen for a product, a missing entry read as none. */
  function CurrentVariants(sel: Selection, pid: int): seq<int> {
    Lookup(sel.variants, pid).GetOr([])
  }

  /** `toggleProduct`: a selected product is deselected (every copy of its id removed, its
      variant entry deleted); an unselected one is appended, WITHOUT creating a variant entry. */
  function ToggleProduct(sel: Selection, pid: int): (r: Selection)
    ensures (pid in r.products) <==> (pid !in sel.products)
    ensures pid in sel.products ==>
              && r.variants == sel.variants - {pid}
              && IsSubsequence(r.products, sel.products)
              && (forall q :: q != pid ==> multiset(r.products)[q] == multiset(sel.products)[q])
    ensures pid !in sel.products ==> r.products == sel.products + [pid] && r.variants == sel.variants
    ensures pid !in r.variants
            || (pid !in sel.products && pid in sel.variants && r.variants[pid] == sel.variants[pid])
    ensures VariantKeysSelected(sel) ==> VariantKeysSelected(r)
  {
    if pid in sel.products then
      var r := Selection(RemoveAll(sel.products, pid), sel.variants - {pid});
      assert forall p :: p in r.variants ==> p in sel.variants && p != pid;
      assert forall p :: p in sel.products && p != pid ==> multiset(r.products)[p] > 0;
      r
    else
      Selection(sel.products + [pid], sel.variants)
  }

  /** `toggleVariant`: flips whether `vid` is chosen for `pid`, reading a missing entry as `[]`.
      Adding puts `vid` at the end; removing deletes every copy of it. The entry for `pid` is
      written even when `pid` is not selected; the products and the other entries stay. */
  function ToggleVariant(sel: Selection, pid: int, vid: int): (r: Selection)
    ensures r.products == sel.products
    ensures r.variants.Keys == sel.variants.Keys + {pid}
    ensures forall q :: q in sel.variants && q != pid ==> r.variants[q] == sel.variants[q]
    ensures (vid in r.variants[pid]) <==> (vid !in CurrentVariants(sel, pid))
    ensures vid !in CurrentVariants(sel, pid) ==> r.variants[pid] == CurrentVariants(sel, pid) + [vid]
    ensures vid in CurrentVariants(sel, pid) ==> IsSubsequence(r.variants[pid], CurrentVariants(sel, pid))
    ensures forall w :: w != vid ==> multiset(r.variants[pid])[w] == multiset(CurrentVariants(sel, pid))[w]
    ensures VariantKeysSelected(sel) ==> (VariantKeysSelected(r) <==> pid in sel.products)
  {
    var current := CurrentVariants(sel, pid);
    if vid in current then
      Selection(sel.products, sel.variants[pid := RemoveAll(current, vid)])
    else
      Selection(sel.products, sel.variants[pid := current + [vid]])
  }

  /** The apply-template effect: with no template chosen, or an id that no loaded template
      carries, the selection stays; otherwise the first template with that id REPLACES it:
      its products become the selection and its variants (or `{}`) the variant entries. */
  function ApplyTemplate(sel: Selection, templates: seq<Template>, chosen: Option<int>): (r: Selection)
    ensures chosen.None? ==> r == sel
    ensures chosen.Some? && (forall k :: 0 <= k < |templates| ==> templates[k].id != chosen.value) ==> r == sel
    ensures forall k :: 0 <= k < |templates| && chosen == Some(templates[k].id)
                        && (forall j :: 0 <= j < k ==> templates[j].id != templates[k].id)
                        ==> r == Selection(templates[k].products, templates[k].variants.GetOr(map[]))
  {
    match chosen
    case None => sel
    case Some(id) =>
      match FindTemplate(templates, id)
      case None => sel
      case Some(t) => Selection(t.products, t.variants.GetOr(map[]))
  }

  /** Applying a found template does not depend on the selection it replaces (no merge). */
  lemma ApplyTemplateReplaces(a: Selection, b: Selection, templates: seq<Template>, id: int)
    requires exists k :: 0 <= k < |templates| && templates[k].id == id
    ensures ApplyTemplate(a, templates, Some(id)) == ApplyTemplate(b, templates, Some(id))
  {
  }

  /** Template apply does not keep variant entries within the selection: a template whose
      variants name a product it does not list yields an orphaned entry. */
  lemma ApplyTemplateMayOrphanVariants(sel: Selection, t: Template)
    requires t.variants.Some? && exists p :: p in t.variants.value && p !in t.products
    ensures !VariantKeysSelected(ApplyTemplate(sel, [t], Some(t.id)))
  {
  }

  /** Deselecting a product and selecting it again brings back none of its old variants:
      it is at the end of the selection with no variant entry. */
  lemma ReselectStartsEmpty(sel: Selection, pid: int)
    requires pid in sel.products
    ensures var r := ToggleProduct(ToggleProduct(sel, pid), pid);
            pid !in r.variants && CurrentVariants(r, pid) == [] && r.products[|r.products| - 1] == pid
  {
  }

  /** Selecting an unselected product and toggling it again restores the selection, except
      that an orphaned variant entry for that product, if there was one, is gone. */
  lemma ToggleProductTwice(sel: Selection, pid: int)
    requires pid !in sel.products
    ensures ToggleProduct(ToggleProduct(sel, pid), pid) == Selection(sel.products, sel.variants - {pid})
  {
    RemoveAllAfterAppend(sel.products, pid);
  }

  /** Toggling a variant that was not chosen twice leaves the product's entry as it was,
      except that a missing entry now exists, empty. */
  lemma ToggleVariantTwice(sel: Selection, pid: int, vid: int)
    requires vid !in CurrentVariants(sel, pid)
    ensures ToggleVariant(ToggleVariant(sel, pid, vid), pid, vid)
            == Selection(sel.products, sel.variants[pid := CurrentVariants(sel, pid)])
  {
    RemoveAllAfterAppend(CurrentVariants(sel, pid), vid);
  }

  /** A user action on the selection. */
  datatype Action = ToggleProductAction(pid: int) | ToggleVariantAction(pid: int, vid: int)

  function Step(sel: Selection, a: Action): Selection {
    match a
    case ToggleProductAction(pid) => ToggleProduct(sel, pid)
    case ToggleVariantAction(pid, vid) => ToggleVariant(sel, pid, vid)
  }

  /** The selection after a series of actions, first to last. */
  function Run(sel: Selection, actions: seq<Action>): Selection
    decreases |actions|
  {
    if actions == [] then sel else Run(Step(sel, actions[0]), actions[1..])
  }

  /** Every variant toggle in the series names a product selected at the time it happens.
      The page renders no variant checkboxes and never calls `toggleVariant`, so a series the
      page produces has no variant toggle and meets this trivially; it is the condition under
      which a caller of the handler keeps the invariant. */
  predicate VariantTogglesGuarded(sel: Selection, actions: seq<Action>)
    decreases |actions|
  {
    actions == [] ||
    ((actions[0].ToggleVariantAction? ==> actions[0].pid in sel.products)
     && VariantTogglesGuarded(Step(sel, actions[0]), actions[1..]))
  }

  /** Toggles keep "every variant entry belongs to a selected product" over any series of
      actions whose variant toggles target selected products. */
  lemma {:induction false} RunKeepsVariantKeysSelected(sel: Selection, actions: seq<Action>)
    requires VariantKeysSelected(sel)
    requires VariantTogglesGuarded(sel, actions)
    ensures VariantKeysSelected(Run(sel, actions))
    decreases |actions|
  {
    if actions != [] {
      RunKeepsVariantKeysSelected(Step(sel, actions[0]), actions[1..]);
    }
  }

  /** The stronger "variant keys are exactly the selected products" does not hold: selecting a
      product that has no entry creates none for it. */
  lemma SelectCreatesNoEntry(sel: Selection, pid: int)
    requires pid !in sel.products && pid !in sel.variants
    ensures var r := ToggleProduct(sel, pid);
            pid in r.products && pid !in r.variants
  {
  }
}
