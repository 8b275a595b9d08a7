/** The wine service of src/services/wineService.ts over the in-memory `vinos` table:
    the catalogue reads, the low-stock report, and the row updates the admin pages issue.
    A failing store call is the `fails` parameter; the service then throws (`Failure`),
    except `deleteWine`, which reports `false`, and `getLowStockWines`, which reports `[]`. */
module WineService {
  import opened Wrappers
  import Seqs
  import Text
  import opened Store

  /** Why a service call throws. */
  datatype WineError = NegativeStock | StoreError

  /** `.order('nombre')`, compared as `Text.StrLe` does. */
  predicate NombreLe(a: Wine, b: Wine)
  {
    Text.StrLe(a.nombre, b.nombre)
  }

  /** `.order('stock', { ascending: true })` */
  predicate StockLe(a: Wine, b: Wine)
  {
    a.stock <= b.stock
  }

  /** `.eq('activo', true)` */
  predicate IsActive(w: Wine)
  {
    w.activo
  }

  /** The client-side filter of `getLowStockWines`: `stock <= stock_minimo`. */
  predicate IsLow(w: Wine)
  {
    w.stock <= w.stockMinimo
  }

  predicate IsActiveLow(w: Wine)
  {
    w.activo && w.stock <= w.stockMinimo
  }

  lemma NombreLeTotalPreorder()
    ensures Seqs.TotalPreorder(NombreLe)
  {
    Text.StrLeTotalPreorder();
  }

  /** `getAllWines`: the active wines ordered by name; a store error is thrown. */
  function GetAllWines(vinos: seq<Wine>, fails: bool): (r: Result<seq<Wine>, WineError>)
    ensures r.Failure? <==> fails
    ensures r.Success? ==> forall w :: w in r.value <==> w in vinos && w.activo
  {
    if fails then Failure(StoreError)
    else
      var active := Seqs.Filter(vinos, IsActive);
      var sorted := Seqs.SortBy(active, NombreLe);
      assert forall w :: w in sorted <==> w in multiset(sorted);
      assert forall w :: w in active <==> w in multiset(active);
      Success(sorted)
  }

  /** The catalogue lists each active row as often as the table holds it, and no
      inactive row, in order of name. */
  lemma GetAllWinesActiveByName(vinos: seq<Wine>)
    ensures var r := GetAllWines(vinos, false).value;
      && Seqs.SortedBy(r, NombreLe)
      && forall w :: multiset(r)[w] == if w.activo then multiset(vinos)[w] else 0
  {
    NombreLeTotalPreorder();
    Seqs.SortBySorted(Seqs.Filter(vinos, IsActive), NombreLe);
    forall w ensures multiset(GetAllWines(vinos, false).value)[w]
                     == if w.activo then multiset(vinos)[w] else 0 {
      Seqs.FilterCount(vinos, IsActive, w);
    }
  }

  /** `getAllWinesAdmin`: every row, active or not, ordered by name. */
  function GetAllWinesAdmin(vinos: seq<Wine>, fails: bool): (r: Result<seq<Wine>, WineError>)
    ensures r.Failure? <==> fails
    ensures r.Success? ==> multiset(r.value) == multiset(vinos)
  {
    if fails then Failure(StoreError) else Success(Seqs.SortBy(vinos, NombreLe))
  }

  /** The admin list is ordered by name and, unlike the catalogue, keeps inactive rows. */
  lemma GetAllWinesAdminKeepsInactive(vinos: seq<Wine>)
    ensures var r := GetAllWinesAdmin(vinos, false).value;
      && Seqs.SortedBy(r, NombreLe)
      && forall k :: 0 <= k < |vinos| && !vinos[k].activo ==> vinos[k] in r
  {
    NombreLeTotalPreorder();
    Seqs.SortBySorted(vinos, NombreLe);
    var r := GetAllWinesAdmin(vinos, false).value;
    forall k | 0 <= k < |vinos| && !vinos[k].activo ensures vinos[k] in r {
      assert vinos[k] in multiset(vinos);
    }
  }

  /** `getLowStockWines`: the active wines ordered by stock, then kept where
      `stock <= stock_minimo`; a store error yields the empty list. */
  function GetLowStockWines(vinos: seq<Wine>, fails: bool): (r: seq<Wine>)
    ensures fails ==> r == []
    ensures !fails ==> forall w :: w in r <==> w in vinos && w.activo && w.stock <= w.stockMinimo
  {
    if fails then []
    else
      var active := Seqs.Filter(vinos, IsActive);
      var sorted := Seqs.SortBy(active, StockLe);
      assert forall w :: w in sorted <==> w in multiset(sorted);
      assert forall w :: w in active <==> w in multiset(active);
      Seqs.Filter(sorted, IsLow)
  }

  /** The low-stock report is in ascending order of stock and holds each active low row
      as often as the table does, which is the one filter by both conditions reordered. */
  lemma LowStockAscending(vinos: seq<Wine>)
    ensures var r := GetLowStockWines(vinos, false);
      && Seqs.SortedBy(r, StockLe)
      && multiset(r) == multiset(Seqs.Filter(vinos, IsActiveLow))
  {
    var sorted := Seqs.SortBy(Seqs.Filter(vinos, IsActive), StockLe);
    Seqs.SortBySorted(Seqs.Filter(vinos, IsActive), StockLe);
    Seqs.FilterSorted(sorted, IsLow, StockLe);
    var r := GetLowStockWines(vinos, false);
    forall w ensures multiset(r)[w] == multiset(Seqs.Filter(vinos, IsActiveLow))[w] {
      Seqs.FilterCount(sorted, IsLow, w);
      Seqs.FilterCount(vinos, IsActive, w);
      Seqs.FilterCount(vinos, IsActiveLow, w);
    }
  }

  /** The effect of `updateStock(id, newStock)`: the new table and the row returned or
      the error thrown. A negative stock is refused before the store is touched; an
      update that matches no row makes `.single()` fail. */
  function UpdateStockSpec(vinos: seq<Wine>, id: string, newStock: int, fails: bool)
    : (r: (seq<Wine>, Result<Wine, WineError>))
    ensures r.1 == Failure(NegativeStock) <==> newStock < 0
    ensures r.1.Failure? ==> r.0 == vinos
    ensures r.1.Success? ==> !fails && r.1.value.id == id && r.1.value.stock == newStock
  {
    if newStock < 0 then (vinos, Failure(NegativeStock))
    else if fails then (vinos, Failure(StoreError))
    else
      var after := SetStock(vinos, id, newStock);
      match FindWine(after, id)
      case None =>
        assert after == vinos;
        (vinos, Failure(StoreError))
      case Some(w) => (after, Success(w))
  }

  method UpdateStock(db: Database, id: string, newStock: int, fails: bool)
    returns (r: Result<Wine, WineError>)
    modifies db`vinos
    ensures (db.vinos, r) == UpdateStockSpec(old(db.vinos), id, newStock, fails)
  {
    if newStock < 0 {
      return Failure(NegativeStock);
    }
    if fails {
      return Failure(StoreError);
    }
    var before := db.vinos;
    db.vinos := SetStock(db.vinos, id, newStock);
    var row := FindWine(db.vinos, id);
    if row.None? {
      assert db.vinos == before;
      return Failure(StoreError);
    }
    return Success(row.value);
  }

  /** A stock update of an existing wine rewrites that row's `stock` and nothing else,
      and returns the updated row. */
  lemma UpdateStockOneRow(vinos: seq<Wine>, k: int, newStock: int)
    requires UniqueIds(vinos) && 0 <= k < |vinos| && newStock >= 0
    ensures UpdateStockSpec(vinos, vinos[k].id, newStock, false)
      == (vinos[k := vinos[k].(stock := newStock)], Success(vinos[k].(stock := newStock)))
  {
    SetStockOneRow(vinos, k, newStock);
    FindWineAt(vinos, k);
    FindWineSetStockSame(vinos, vinos[k].id, newStock);
  }

  /** A stock update of an unknown id throws and changes nothing. */
  lemma UpdateStockUnknownId(vinos: seq<Wine>, id: string, newStock: int, fails: bool)
    requires forall k :: 0 <= k < |vinos| ==> vinos[k].id != id
    ensures UpdateStockSpec(vinos, id, newStock, fails).0 == vinos
    ensures UpdateStockSpec(vinos, id, newStock, fails).1.Failure?
  {
    FindWineSetStockSame(vinos, id, newStock);
  }

  /** The effect of `deleteWine(id)`: a soft delete that clears `activo` on the matching
      row; `false` on a store error, `true` otherwise, even when no row matches. */
  function DeleteWineSpec(vinos: seq<Wine>, id: string, fails: bool): (r: (seq<Wine>, bool))
    ensures r.1 <==> !fails
    ensures |r.0| == |vinos|
    ensures fails ==> r.0 == vinos
    ensures !fails ==> forall k :: 0 <= k < |vinos| ==>
      r.0[k] == if vinos[k].id == id then vinos[k].(activo := false) else vinos[k]
  {
    if fails then (vinos, false) else (SetActivo(vinos, id, false), true)
  }

  method DeleteWine(db: Database, id: string, fails: bool) returns (ok: bool)
    modifies db`vinos
    ensures (db.vinos, ok) == DeleteWineSpec(old(db.vinos), id, fails)
  {
    if fails {
      return false;
    }
    db.vinos := SetActivo(db.vinos, id, false);
    return true;
  }

  /** Deleting an id that no row carries reports success and changes nothing. */
  lemma DeleteUnknownIdChangesNothing(vinos: seq<Wine>, id: string)
    requires forall k :: 0 <= k < |vinos| ==> vinos[k].id != id
    ensures DeleteWineSpec(vinos, id, false) == (vinos, true)
  {
    var after := DeleteWineSpec(vinos, id, false).0;
    assert |after| == |vinos| && forall k :: 0 <= k < |vinos| ==> after[k] == vinos[k];
    assert after == vinos;
  }

  /** A deleted wine keeps its row, now inactive, so the admin list still shows it while
      the catalogue no longer does. */
  lemma DeleteWineHidesFromCatalogue(vinos: seq<Wine>, k: int)
    requires UniqueIds(vinos) && 0 <= k < |vinos|
    ensures var after := DeleteWineSpec(vinos, vinos[k].id, false).0;
      && after == vinos[k := vinos[k].(activo := false)]
      && vinos[k].(activo := false) in GetAllWinesAdmin(after, false).value
      && forall w :: w in GetAllWines(after, false).value ==> w.id != vinos[k].id
  {
    var after := DeleteWineSpec(vinos, vinos[k].id, false).0;
    assert after == vinos[k := vinos[k].(activo := false)];
    assert after[k] in multiset(after);
  }

  /** The effect of `updateWine(id, updates)` with a whole record: every column but the
      key is overwritten and the updated row is returned; no matching row or a store
      error is thrown. */
  function UpdateWineSpec(vinos: seq<Wine>, id: string, updates: Wine, fails: bool)
    : (r: (seq<Wine>, Result<Wine, WineError>))
    ensures r.1.Failure? ==> r.0 == vinos
    ensures r.1.Success? ==> !fails && r.1.value == updates.(id := id)
  {
    if fails then (vinos, Failure(StoreError))
    else
      var after := Overwrite(vinos, id, updates);
      match FindWine(after, id)
      case None =>
        assert after == vinos;
        (vinos, Failure(StoreError))
      case Some(w) => (after, Success(w))
  }

  method UpdateWine(db: Database, id: string, updates: Wine, fails: bool)
    returns (r: Result<Wine, WineError>)
    modifies db`vinos
    ensures (db.vinos, r) == UpdateWineSpec(old(db.vinos), id, updates, fails)
  {
    if fails {
      return Failure(StoreError);
    }
    var before := db.vinos;
    db.vinos := Overwrite(db.vinos, id, updates);
    var row := FindWine(db.vinos, id);
    if row.None? {
      assert db.vinos == before;
      return Failure(StoreError);
    }
    return Success(row.value);
  }

  /** Updating an existing wine replaces its row, under the same id, and no other. */
  lemma UpdateWineOneRow(vinos: seq<Wine>, k: int, updates: Wine)
    requires UniqueIds(vinos) && 0 <= k < |vinos|
    ensures UpdateWineSpec(vinos, vinos[k].id, updates, false)
      == (vinos[k := updates.(id := vinos[k].id)], Success(updates.(id := vinos[k].id)))
  {
    var id := vinos[k].id;
    var after := Overwrite(vinos, id, updates);
    assert after == vinos[k := updates.(id := id)];
    SameIdsUnique(vinos, after);
    FindWineAt(after, k);
  }

  /** The effect of `createWine(wine)`: the store gives the new row the key `newId`; a key
      already in use or a store error is thrown. */
  function CreateWineSpec(vinos: seq<Wine>, wine: Wine, newId: string, fails: bool)
    : (r: (seq<Wine>, Result<Wine, WineError>))
    ensures r.1.Failure? ==> r.0 == vinos
    ensures r.1.Success? ==> r.0 == vinos + [r.1.value] && r.1.value == wine.(id := newId)
  {
    if fails || FindWine(vinos, newId).Some? then (vinos, Failure(StoreError))
    else (vinos + [wine.(id := newId)], Success(wine.(id := newId)))
  }

  method CreateWine(db: Database, wine: Wine, newId: string, fails: bool)
    returns (r: Result<Wine, WineError>)
    modifies db`vinos
    ensures (db.vinos, r) == CreateWineSpec(old(db.vinos), wine, newId, fails)
  {
    var clash := FindWine(db.vinos, newId);
    if fails || clash.Some? {
      return Failure(StoreError);
    }
    var row := wine.(id := newId);
    db.vinos := db.vinos + [row];
    return Success(row);
  }

  /** Creating a wine keeps the key unique, and a lookup by the new key finds the row. */
  lemma CreateWineKeepsIdsUnique(vinos: seq<Wine>, wine: Wine, newId: string)
    requires UniqueIds(vinos) && FindWine(vinos, newId).None?
    ensures var after := CreateWineSpec(vinos, wine, newId, false).0;
      && UniqueIds(after)
      && FindWine(after, newId) == Some(wine.(id := newId))
  {
    var after := CreateWineSpec(vinos, wine, newId, false).0;
    assert after == vinos + [wine.(id := newId)];
    FindWineAt(after, |vinos|);
  }
}
