/** The wine administration page (src/pages/admin/AdminWines.tsx): the filters over the
    loaded list, the low-stock marker, and the guards its handlers run before they call
    the wine service. Dialogs are parameters: `confirmed` is the answer to `confirm`. */
module AdminWines {
  import opened Wrappers
  import Seqs
  import Text
  import opened Store
  import opened WineService

  /** The `filterStock` select: `all`, `low` or `out`. */
  datatype StockFilter = AllStock | LowStock | OutOfStock

  /** How a handler ends: `Ignored` for a wine without id, `Rejected` with the alert a
      guard shows, `Declined` when the confirmation is refused, `Saved` when the service
      call returned, `Failed` with the alert shown when it threw. */
  datatype Outcome = Ignored | Rejected(message: string) | Declined | Saved | Failed(message: string)

  const FieldsMissing := "Por favor completa todos los campos obligatorios"
  const PriceNotPositive := "El precio debe ser mayor a 0"
  const StockNegative := "El stock no puede ser negativo"
  const SaveFailed := "Error al guardar el vino"
  const StockUpdateFailed := "Error al actualizar el stock"

  /** The search filter for a term: the lower-cased term occurs in the lower-cased name,
      country or region. */
  function SearchPred(term: string): Wine -> bool
  {
    (w: Wine) => var search := Text.Lower(term);
      || Text.Contains(Text.Lower(w.nombre), search)
      || Text.Contains(Text.Lower(w.pais), search)
      || Text.Contains(Text.Lower(w.region), search)
  }

  function TypePred(filterType: string): Wine -> bool
  {
    (w: Wine) => w.tipo == filterType
  }

  /** The `low` choice keeps `0 < stock <= stock_minimo`, the `out` choice `stock == 0`. */
  function StockPred(filterStock: StockFilter): Wine -> bool
  {
    (w: Wine) => match filterStock
         case AllStock => true
         case LowStock => w.stock <= w.stockMinimo && w.stock > 0
         case OutOfStock => w.stock == 0
  }

  /** `applyFilters`: the search (when the term is not empty), then the type (unless
      `Todos`), then the stock choice, each a filter over the previous result. */
  function ApplyFilters(wines: seq<Wine>, searchTerm: string, filterType: string,
                        filterStock: StockFilter): seq<Wine>
  {
    var bySearch := if searchTerm != "" then Seqs.Filter(wines, SearchPred(searchTerm)) else wines;
    var byType := if filterType != "Todos" then Seqs.Filter(bySearch, TypePred(filterType)) else bySearch;
    if filterStock == AllStock then byType else Seqs.Filter(byType, StockPred(filterStock))
  }

  /** Whether a wine survives all three filters, stated on its own. */
  predicate Kept(searchTerm: string, filterType: string, filterStock: StockFilter, w: Wine)
  {
    && (searchTerm == "" || SearchPred(searchTerm)(w))
    && (filterType == "Todos" || w.tipo == filterType)
    && StockPred(filterStock)(w)
  }

  /** A filter that is switched off is a filter by a predicate that always holds. */
  lemma SkippedFilter(s: seq<Wine>, p: Wine -> bool, on: bool)
    requires forall w :: !on ==> p(w)
    ensures (if on then Seqs.Filter(s, p) else s) == Seqs.Filter(s, p)
  {
    if !on {
      Seqs.FilterAll(s, p);
    }
  }

  /** The chain of filters is one filter by `Kept`: the result is the loaded list with
      exactly the wines that pass every enabled filter, in their original order. */
  lemma {:induction false} ApplyFiltersIsOneFilter(wines: seq<Wine>, searchTerm: string,
                                                   filterType: string, filterStock: StockFilter)
    ensures ApplyFilters(wines, searchTerm, filterType, filterStock)
      == Seqs.Filter(wines, w => Kept(searchTerm, filterType, filterStock, w))
  {
    var p1: Wine -> bool := (w: Wine) => searchTerm == "" || SearchPred(searchTerm)(w);
    var p2: Wine -> bool := (w: Wine) => filterType == "Todos" || w.tipo == filterType;
    var p12: Wine -> bool := (w: Wine) => p1(w) && p2(w);
    var kept: Wine -> bool := (w: Wine) => Kept(searchTerm, filterType, filterStock, w);
    var bySearch := if searchTerm != "" then Seqs.Filter(wines, SearchPred(searchTerm)) else wines;
    SkippedFilter(wines, p1, searchTerm != "");
    assert bySearch == Seqs.Filter(wines, p1) by {
      if searchTerm != "" {
        Seqs.FilterExt(wines, SearchPred(searchTerm), p1);
      }
    }
    var byType := if filterType != "Todos" then Seqs.Filter(bySearch, TypePred(filterType)) else bySearch;
    SkippedFilter(bySearch, p2, filterType != "Todos");
    assert byType == Seqs.Filter(bySearch, p2) by {
      if filterType != "Todos" {
        Seqs.FilterExt(bySearch, TypePred(filterType), p2);
      }
    }
    Seqs.FilterFusion(wines, p1, p2, p12);
    SkippedFilter(byType, StockPred(filterStock), filterStock != AllStock);
    Seqs.FilterFusion(wines, p12, StockPred(filterStock), kept);
  }

  /** The filtered list is an order-preserving selection from the loaded list, and a wine
      is in it exactly when it passes every enabled filter. */
  lemma ApplyFiltersSelects(wines: seq<Wine>, searchTerm: string, filterType: string,
                            filterStock: StockFilter)
    ensures var r := ApplyFilters(wines, searchTerm, filterType, filterStock);
      && Seqs.IsSubsequence(r, wines)
      && forall w :: w in r <==> w in wines && Kept(searchTerm, filterType, filterStock, w)
  {
    ApplyFiltersIsOneFilter(wines, searchTerm, filterType, filterStock);
    Seqs.FilterIsSubsequence(wines, w => Kept(searchTerm, filterType, filterStock, w));
  }

  /** No wine is listed both under `low` and under `out`. */
  lemma LowAndOutDisjoint(wines: seq<Wine>, searchTerm: string, filterType: string, w: Wine)
    requires w in ApplyFilters(wines, searchTerm, filterType, LowStock)
    ensures w !in ApplyFilters(wines, searchTerm, filterType, OutOfStock)
  {
    ApplyFiltersSelects(wines, searchTerm, filterType, LowStock);
    ApplyFiltersSelects(wines, searchTerm, filterType, OutOfStock);
  }

  /** The table's warning icon next to the stock field. */
  predicate ShowsLowStockIcon(w: Wine)
  {
    w.stock <= w.stockMinimo
  }

  /** An out-of-stock wine with a non-negative minimum carries the warning icon, yet the
      `low` filter leaves it out; only the `out` filter lists it. */
  lemma OutOfStockIconButNotLow(wines: seq<Wine>, w: Wine)
    requires w in wines && w.stock == 0 && w.stockMinimo >= 0
    ensures ShowsLowStockIcon(w)
    ensures w !in ApplyFilters(wines, "", "Todos", LowStock)
    ensures w in ApplyFilters(wines, "", "Todos", OutOfStock)
  {
    ApplyFiltersSelects(wines, "", "Todos", LowStock);
    ApplyFiltersSelects(wines, "", "Todos", OutOfStock);
  }

  /** The form checks of `handleSubmit`: the alert of the first that fails. An empty
      string is a missing field; a missing or unparsable price counts as 0. */
  function ValidateForm(form: Wine): (r: Option<string>)
    ensures r.None? <==> form.nombre != "" && form.pais != "" && form.region != "" && form.precio > 0.0
    ensures (form.nombre == "" || form.pais == "" || form.region == "") ==> r == Some(FieldsMissing)
  {
    if form.nombre == "" || form.pais == "" || form.region == "" then Some(FieldsMissing)
    else if form.precio <= 0.0 then Some(PriceNotPositive)
    else None
  }

  /** The effect of `handleSubmit`: the checks, then `updateWine` of the wine being
      edited when it has an id, `createWine` otherwise. */
  function SubmitSpec(vinos: seq<Wine>, editing: Option<Wine>, form: Wine, newId: string, fails: bool)
    : (seq<Wine>, Outcome)
  {
    match ValidateForm(form)
    case Some(message) => (vinos, Rejected(message))
    case None =>
      var (after, res) :=
        if editing.Some? && editing.value.id != "" then UpdateWineSpec(vinos, editing.value.id, form, fails)
        else CreateWineSpec(vinos, form, newId, fails);
      (after, if res.Success? then Saved else Failed(SaveFailed))
  }

  method HandleSubmit(db: Database, editing: Option<Wine>, form: Wine, newId: string, fails: bool)
    returns (o: Outcome)
    modifies db`vinos
    ensures (db.vinos, o) == SubmitSpec(old(db.vinos), editing, form, newId, fails)
  {
    var check := ValidateForm(form);
    if check.Some? {
      return Rejected(check.value);
    }
    var res;
    if editing.Some? && editing.value.id != "" {
      res := UpdateWine(db, editing.value.id, form, fails);
    } else {
      res := CreateWine(db, form, newId, fails);
    }
    o := if res.Success? then Saved else Failed(SaveFailed);
  }

  /** A form that fails a check is refused with that check's alert before any store call,
      and a save only ever happens for a form that passes them all. */
  lemma SubmitChecksBeforeStore(vinos: seq<Wine>, editing: Option<Wine>, form: Wine, newId: string,
                                fails: bool)
    ensures var (after, o) := SubmitSpec(vinos, editing, form, newId, fails);
      && (o.Rejected? <==> ValidateForm(form).Some?)
      && (o.Rejected? ==> after == vinos && o.message == ValidateForm(form).value)
      && (o == Saved ==> form.nombre != "" && form.pais != "" && form.region != "" && form.precio > 0.0)
  {
  }

  /** Submitting a valid form for a wine being edited replaces that row, under its id. */
  lemma SubmitEditsInPlace(vinos: seq<Wine>, k: int, form: Wine, newId: string)
    requires UniqueIds(vinos) && 0 <= k < |vinos| && vinos[k].id != ""
    requires ValidateForm(form).None?
    ensures SubmitSpec(vinos, Some(vinos[k]), form, newId, false)
      == (vinos[k := form.(id := vinos[k].id)], Saved)
  {
    UpdateWineOneRow(vinos, k, form);
  }

  /** The effect of `handleStockUpdate(wine, newStock)`. */
  function StockUpdateSpec(vinos: seq<Wine>, wine: Wine, newStock: int, fails: bool): (seq<Wine>, Outcome)
  {
    if wine.id == "" then (vinos, Ignored)
    else if newStock < 0 then (vinos, Rejected(StockNegative))
    else
      var (after, res) := UpdateStockSpec(vinos, wine.id, newStock, fails);
      (after, if res.Success? then Saved else Failed(StockUpdateFailed))
  }

  method HandleStockUpdate(db: Database, wine: Wine, newStock: int, fails: bool) returns (o: Outcome)
    modifies db`vinos
    ensures (db.vinos, o) == StockUpdateSpec(old(db.vinos), wine, newStock, fails)
  {
    if wine.id == "" {
      return Ignored;
    }
    if newStock < 0 {
      return Rejected(StockNegative);
    }
    var res := UpdateStock(db, wine.id, newStock, fails);
    o := if res.Success? then Saved else Failed(StockUpdateFailed);
  }

  /** The stock field's `parseInt(value) || 0`: text that does not parse gives 0. */
  function StockFieldValue(text: string): int
  {
    match Text.ParseInt(text)
    case None => 0
    case Some(n) => n
  }

  /** A negative stock is refused with its alert and the table is left as it was; a
      non-negative one for a listed wine rewrites that wine's stock only. */
  lemma StockUpdateGuards(vinos: seq<Wine>, k: int, newStock: int, fails: bool)
    requires UniqueIds(vinos) && 0 <= k < |vinos| && vinos[k].id != ""
    ensures newStock < 0 ==> StockUpdateSpec(vinos, vinos[k], newStock, fails) == (vinos, Rejected(StockNegative))
    ensures newStock >= 0 && !fails ==>
      StockUpdateSpec(vinos, vinos[k], newStock, fails) == (vinos[k := vinos[k].(stock := newStock)], Saved)
  {
    if newStock >= 0 {
      UpdateStockOneRow(vinos, k, newStock);
    }
  }

  /** Clearing the stock field, or typing text that is not a number, sets the wine's
      stock to 0. */
  lemma ClearedStockFieldZeroesStock(vinos: seq<Wine>, k: int, text: string)
    requires UniqueIds(vinos) && 0 <= k < |vinos| && vinos[k].id != ""
    requires text == [] || (!Text.IsDigit(text[0]) && !Text.IsSpace(text[0]) && text[0] != '-' && text[0] != '+')
    ensures StockUpdateSpec(vinos, vinos[k], StockFieldValue(text), false)
      == (vinos[k := vinos[k].(stock := 0)], Saved)
  {
    Text.ParseIntNaN(text);
    UpdateStockOneRow(vinos, k, 0);
  }

  /** The effect of `handleToggleStatus(wine)`: the page's copy of the row, with `activo`
      negated, is written back through `updateWine`. */
  function ToggleStatusSpec(vinos: seq<Wine>, wine: Wine, confirmed: bool, fails: bool): (seq<Wine>, Outcome)
  {
    if wine.id == "" then (vinos, Ignored)
    else if !confirmed then (vinos, Declined)
    else
      var (after, res) := UpdateWineSpec(vinos, wine.id, wine.(activo := !wine.activo), fails);
      var action := if !wine.activo then "activar" else "desactivar";
      (after, if res.Success? then Saved else Failed("Error al " + action + " el vino"))
  }

  method HandleToggleStatus(db: Database, wine: Wine, confirmed: bool, fails: bool) returns (o: Outcome)
    modifies db`vinos
    ensures (db.vinos, o) == ToggleStatusSpec(old(db.vinos), wine, confirmed, fails)
  {
    if wine.id == "" {
      return Ignored;
    }
    var newStatus := !wine.activo;
    var action := if newStatus then "activar" else "desactivar";
    if !confirmed {
      return Declined;
    }
    var res := UpdateWine(db, wine.id, wine.(activo := newStatus), fails);
    o := if res.Success? then Saved else Failed("Error al " + action + " el vino");
  }

  /** A confirmed toggle of a listed wine flips its `activo` flag and leaves every other
      row as it was; toggling twice restores the row. */
  lemma ToggleFlipsActivo(vinos: seq<Wine>, k: int)
    requires UniqueIds(vinos) && 0 <= k < |vinos| && vinos[k].id != ""
    ensures var (after, o) := ToggleStatusSpec(vinos, vinos[k], true, false);
      && o == Saved
      && after == vinos[k := vinos[k].(activo := !vinos[k].activo)]
      && ToggleStatusSpec(after, after[k], true, false).0 == vinos
  {
    var w := vinos[k];
    UpdateWineOneRow(vinos, k, w.(activo := !w.activo));
    var after := vinos[k := w.(activo := !w.activo)];
    SameIdsUnique(vinos, after);
    UpdateWineOneRow(after, k, after[k].(activo := !after[k].activo));
    assert after[k := after[k].(activo := !after[k].activo)] == vinos;
  }

  /** The effect of `handleDelete(wine)`. `deleteWine` reports a store error by returning
      `false` rather than throwing, and the handler does not look at the result. */
  function DeleteSpec(vinos: seq<Wine>, wine: Wine, confirmed: bool, fails: bool): (seq<Wine>, Outcome)
  {
    if wine.id == "" then (vinos, Ignored)
    else if !confirmed then (vinos, Declined)
    else (DeleteWineSpec(vinos, wine.id, fails).0, Saved)
  }

  method HandleDelete(db: Database, wine: Wine, confirmed: bool, fails: bool) returns (o: Outcome)
    modifies db`vinos
    ensures (db.vinos, o) == DeleteSpec(old(db.vinos), wine, confirmed, fails)
  {
    if wine.id == "" {
      return Ignored;
    }
    if !confirmed {
      return Declined;
    }
    var ok := DeleteWine(db, wine.id, fails);
    return Saved;
  }

  /** The delete handler reports success even when the store call failed and nothing was
      written. */
  lemma DeleteReportsSuccessOnStoreError(vinos: seq<Wine>, wine: Wine)
    requires wine.id != ""
    ensures DeleteSpec(vinos, wine, true, true) == (vinos, Saved)
    ensures !DeleteWineSpec(vinos, wine.id, true).1
  {
  }
}
