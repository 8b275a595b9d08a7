/** The store's tables (`vinos`, `pedidos`, `pedido_items`) held in memory, and the
    row-level reads and updates that the services issue against them. */
module Store {
  import opened Wrappers

  /** A `vinos` row (`Wine` in src/services/wineService.ts). The empty `id` stands for a
      missing one: both are falsy where the pages test `!wine.id`. */
  datatype Wine = Wine(id: string, nombre: string, tipo: string, pais: string, region: string,
                       precio: real, descripcion: string, imagen: Option<string>,
                       stock: int, stockMinimo: int, activo: bool)

  /** `estado` of an order. */
  datatype Estado = Pendiente | Completado | Cancelado | Expirado

  /** A `pedidos` row. Times are milliseconds since the epoch; the order number, the
      order date and the expiry date are filled in by the store and are not modelled. */
  datatype Pedido = Pedido(id: int, usuarioId: int, estado: Estado, total: real,
                           descuentoAplicado: real, fechaCompletado: Option<int>)

  /** A `pedido_items` row. */
  datatype PedidoItem = PedidoItem(pedidoId: int, vinoId: string, nombreVino: string,
                                   cantidad: int, precioUnitario: real, subtotal: real)

  /** The whole store at one moment. `nextPedidoId` is the id the next inserted order
      gets. */
  datatype Tables = Tables(vinos: seq<Wine>, pedidos: seq<Pedido>, pedidoItems: seq<PedidoItem>,
                           nextPedidoId: int)

  /** `id` is the primary key of `vinos`. */
  ghost predicate UniqueIds(vinos: seq<Wine>)
  {
    forall i, j :: 0 <= i < j < |vinos| ==> vinos[i].id != vinos[j].id
  }

  /** The keys the store maintains: wine ids are unique, order ids are unique and below
      the next id, and every order line points below the next id. */
  ghost predicate Valid(t: Tables)
  {
    && UniqueIds(t.vinos)
    && (forall i, j :: 0 <= i < j < |t.pedidos| ==> t.pedidos[i].id != t.pedidos[j].id)
    && (forall k :: 0 <= k < |t.pedidos| ==> t.pedidos[k].id < t.nextPedidoId)
    && (forall k :: 0 <= k < |t.pedidoItems| ==> t.pedidoItems[k].pedidoId < t.nextPedidoId)
  }

  /** `.from('vinos').select(...).eq('id', id).single()`: the row with that id, or `None`. */
  function FindWine(vinos: seq<Wine>, id: string): (r: Option<Wine>)
    ensures r.Some? ==> r.value.id == id && r.value in vinos
    ensures r.None? <==> forall k :: 0 <= k < |vinos| ==> vinos[k].id != id
  {
    if vinos == [] then None
    else if vinos[0].id == id then Some(vinos[0])
    else FindWine(vinos[1..], id)
  }

  /** Under unique ids the lookup finds the one row that carries the id. */
  lemma {:induction false} FindWineAt(vinos: seq<Wine>, k: int)
    requires UniqueIds(vinos) && 0 <= k < |vinos|
    ensures FindWine(vinos, vinos[k].id) == Some(vinos[k])
  {
    if k > 0 {
      assert vinos[0].id != vinos[k].id;
      assert UniqueIds(vinos[1..]) by {
        forall a, b | 0 <= a < b < |vinos| - 1 ensures vinos[1..][a].id != vinos[1..][b].id {
          assert vinos[1..][a] == vinos[a + 1] && vinos[1..][b] == vinos[b + 1];
        }
      }
      FindWineAt(vinos[1..], k - 1);
    }
  }

  /** `.update(...).eq('id', id)`: `f` rewrites every row with that id and the other
      rows are kept; when `f` keeps the id of such a row, every id is kept. */
  function UpdateWhere(vinos: seq<Wine>, id: string, f: Wine -> Wine): (r: seq<Wine>)
    ensures |r| == |vinos|
    ensures (forall w: Wine :: w.id == id ==> f(w).id == id) ==>
      forall k :: 0 <= k < |r| ==> r[k].id == vinos[k].id
  {
    seq(|vinos|, k requires 0 <= k < |vinos| =>
      if vinos[k].id == id then f(vinos[k]) else vinos[k])
  }

  /** `.update({ stock }).eq('id', id)`: every row with that id gets the new stock. */
  function SetStock(vinos: seq<Wine>, id: string, stock: int): (r: seq<Wine>)
    ensures |r| == |vinos|
    ensures forall k :: 0 <= k < |r| ==> r[k].id == vinos[k].id
  {
    UpdateWhere(vinos, id, (w: Wine) => w.(stock := stock))
  }

  /** Row `k` after a stock write: the new stock when it carries the id, untouched
      otherwise. */
  lemma SetStockAt(vinos: seq<Wine>, id: string, stock: int, k: int)
    requires 0 <= k < |vinos|
    ensures SetStock(vinos, id, stock)[k] == if vinos[k].id == id then vinos[k].(stock := stock) else vinos[k]
  {
  }

  /** `.update({ activo }).eq('id', id)` */
  function SetActivo(vinos: seq<Wine>, id: string, activo: bool): (r: seq<Wine>)
    ensures |r| == |vinos|
    ensures forall k :: 0 <= k < |r| ==> r[k].id == vinos[k].id
  {
    UpdateWhere(vinos, id, (w: Wine) => w.(activo := activo))
  }

  /** `.update(updates).eq('id', id)` with a whole record: every column but the key is
      overwritten. */
  function Overwrite(vinos: seq<Wine>, id: string, updates: Wine): (r: seq<Wine>)
    ensures |r| == |vinos|
    ensures forall k :: 0 <= k < |r| ==> r[k].id == vinos[k].id
  {
    UpdateWhere(vinos, id, (w: Wine) => updates.(id := id))
  }

  /** Updates that keep every row's id keep the ids unique. */
  lemma SameIdsUnique(before: seq<Wine>, after: seq<Wine>)
    requires UniqueIds(before) && |after| == |before|
    requires forall k :: 0 <= k < |after| ==> after[k].id == before[k].id
    ensures UniqueIds(after)
  {
  }

  /** Under unique ids, writing the stock of the wine at `k` rewrites that row only. */
  lemma SetStockOneRow(vinos: seq<Wine>, k: int, stock: int)
    requires UniqueIds(vinos) && 0 <= k < |vinos|
    ensures SetStock(vinos, vinos[k].id, stock) == vinos[k := vinos[k].(stock := stock)]
  {
  }

  /** Writing one wine's stock does not change what a lookup of another wine finds. */
  lemma {:induction false} FindWineSetStockOther(vinos: seq<Wine>, id: string, stock: int, other: string)
    requires other != id
    ensures FindWine(SetStock(vinos, id, stock), other) == FindWine(vinos, other)
  {
    if vinos != [] {
      FindWineSetStockOther(vinos[1..], id, stock, other);
      assert SetStock(vinos, id, stock)[1..] == SetStock(vinos[1..], id, stock);
    }
  }

  /** After writing a wine's stock, a lookup of that wine reads the new stock. */
  lemma {:induction false} FindWineSetStockSame(vinos: seq<Wine>, id: string, stock: int)
    ensures FindWine(SetStock(vinos, id, stock), id)
      == if FindWine(vinos, id).Some? then Some(FindWine(vinos, id).value.(stock := stock)) else None
  {
    if vinos != [] {
      FindWineSetStockSame(vinos[1..], id, stock);
      assert SetStock(vinos, id, stock)[1..] == SetStock(vinos[1..], id, stock);
    }
  }

  /** After writing a wine's stock, reading that wine's stock gives the value written. */
  lemma FindWineSetStockReads(vinos: seq<Wine>, id: string, stock: int)
    requires FindWine(vinos, id).Some?
    ensures FindWine(SetStock(vinos, id, stock), id).Some?
    ensures FindWine(SetStock(vinos, id, stock), id).value.stock == stock
  {
    FindWineSetStockSame(vinos, id, stock);
  }

  /** The store as held by the client's connection: each table is a field that the
      service calls update. */
  class Database {
    var vinos: seq<Wine>
    var pedidos: seq<Pedido>
    var pedidoItems: seq<PedidoItem>
    var nextPedidoId: int

    constructor (t: Tables)
      ensures Snapshot() == t
    {
      vinos := t.vinos;
      pedidos := t.pedidos;
      pedidoItems := t.pedidoItems;
      nextPedidoId := t.nextPedidoId;
    }

    /** The tables as one value. */
    function Snapshot(): Tables
      reads this
    {
      Tables(vinos, pedidos, pedidoItems, nextPedidoId)
    }
  }
}
