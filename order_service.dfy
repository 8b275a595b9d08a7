/** Orders: the pending-order check, order creation with its stock check and stock
    decrement, and status changes that may return stock (src/services/orderService.ts).
    Every store call may fail; `faults` names the calls that fail in one run, so each
    contract covers every combination of failures. */
module OrderService {
  import opened Wrappers
  import Seqs
  import Cart
  import opened Store

  /** The store calls the service issues. `line` is the position of the cart or order
      line the call is made for. */
  datatype Call =
    | PendingQuery
    | StockRead(line: int)
    | HeaderInsert
    | LinesInsert
    | DecrementRead(line: int)
    | DecrementWrite(line: int)
    | StatusWrite
    | LinesRead
    | RestoreRead(line: int)
    | RestoreWrite(line: int)

  predicate IsPendingOf(p: Pedido, userId: int)
  {
    p.usuarioId == userId && p.estado == Pendiente
  }

  /** The rows of `.eq('usuario_id', userId).eq('estado', 'pendiente')`. */
  function PendingOf(pedidos: seq<Pedido>, userId: int): seq<Pedido>
  {
    Seqs.Filter(pedidos, (p: Pedido) => IsPendingOf(p, userId))
  }

  /** `checkPendingOrder(userId)`. The query ends in `.single()`, which yields a row only
      when exactly one matches; no row (or several) is the "no rows" error and reads as
      false, and any other error is caught and also gives false. */
  function CheckPendingOrder(pedidos: seq<Pedido>, userId: int, fails: bool): (r: bool)
    ensures fails ==> !r
    ensures r ==> exists k :: 0 <= k < |pedidos| && IsPendingOf(pedidos[k], userId)
  {
    var pending := PendingOf(pedidos, userId);
    if !fails && |pending| == 1 then
      assert pending[0] in pending;
      true
    else false
  }

  ghost predicate AtMostOnePending(pedidos: seq<Pedido>, userId: int)
  {
    forall i, j ::
      0 <= i < |pedidos| && 0 <= j < |pedidos| && IsPendingOf(pedidos[i], userId) && IsPendingOf(pedidos[j], userId)
      ==> i == j
  }

  /** While a customer has at most one pending order, the check is true exactly when the
      query succeeds and such an order exists. */
  lemma CheckPendingOrderExact(pedidos: seq<Pedido>, userId: int, fails: bool)
    requires AtMostOnePending(pedidos, userId)
    ensures CheckPendingOrder(pedidos, userId, fails)
        <==> !fails && exists k :: 0 <= k < |pedidos| && IsPendingOf(pedidos[k], userId)
  {
    if !fails && exists k :: 0 <= k < |pedidos| && IsPendingOf(pedidos[k], userId) {
      var k :| 0 <= k < |pedidos| && IsPendingOf(pedidos[k], userId);
      Seqs.FilterSingle(pedidos, (p: Pedido) => IsPendingOf(p, userId), k);
    }
  }

  /** Two pending orders for one customer make the `.single()` query fail, so the check
      reports none. */
  lemma TwoPendingReadAsNone(pedidos: seq<Pedido>, userId: int, i: int, j: int)
    requires 0 <= i < j < |pedidos|
    requires IsPendingOf(pedidos[i], userId) && IsPendingOf(pedidos[j], userId)
    ensures !CheckPendingOrder(pedidos, userId, false)
  {
    Seqs.FilterLengthTwo(pedidos, (p: Pedido) => IsPendingOf(p, userId), i, j);
  }

  // ---------------------------------------------------------------------------------
  // createOrder

  /** `.select('stock').eq('id', id).single()`: the stock read, `None` when the call
      fails or the wine is missing. */
  function ReadStock(vinos: seq<Wine>, id: string, failed: bool): Option<int>
  {
    if failed then None
    else
      match FindWine(vinos, id)
      case Some(w) => Some(w.stock)
      case None => None
  }

  /** A read after a write of a wine's stock gives the value written. */
  lemma ReadStockAfterWrite(vinos: seq<Wine>, id: string, stock: int)
    requires ReadStock(vinos, id, false).Some?
    ensures ReadStock(SetStock(vinos, id, stock), id, false) == Some(stock)
  {
    FindWineSetStockReads(vinos, id, stock);
  }

  /** The stock check of step 2 passes for line `k`. */
  predicate LinePasses(vinos: seq<Wine>, items: seq<Cart.CartItem>, k: int, faults: set<Call>)
    requires 0 <= k < |items|
  {
    var stock := ReadStock(vinos, items[k].vinoId, StockRead(k) in faults);
    stock.Some? && stock.value >= items[k].cantidad
  }

  predicate StockChecksPass(vinos: seq<Wine>, items: seq<Cart.CartItem>, faults: set<Call>)
  {
    forall k :: 0 <= k < |items| ==> LinePasses(vinos, items, k, faults)
  }

  /** Step 4: the order lines, with name and unit price copied from the cart lines. */
  function OrderLines(pedidoId: int, items: seq<Cart.CartItem>): seq<PedidoItem>
  {
    seq(|items|, k requires 0 <= k < |items| =>
      PedidoItem(pedidoId, items[k].vinoId, items[k].nombre, items[k].cantidad,
                 items[k].precio, items[k].precio * items[k].cantidad as real))
  }

  /** One turn of step 5: read the current stock (0 when the read fails or the wine is
      missing); `None` when it would go negative, otherwise the table after the write (a
      failed write is ignored). */
  function DecrementLine(vinos: seq<Wine>, item: Cart.CartItem, i: int, faults: set<Call>): Option<seq<Wine>>
  {
    var read := ReadStock(vinos, item.vinoId, DecrementRead(i) in faults);
    var currentStock := if read.Some? then read.value else 0;
    var newStock := currentStock - item.cantidad;
    if newStock < 0 then None
    else if DecrementWrite(i) in faults then Some(vinos)
    else Some(SetStock(vinos, item.vinoId, newStock))
  }

  /** Step 5 from line `i` on: stop with failure at the first line whose stock would go
      negative. Earlier writes are never undone. */
  function DecrementFrom(vinos: seq<Wine>, items: seq<Cart.CartItem>, i: int, faults: set<Call>)
    : (r: (seq<Wine>, bool))
    requires 0 <= i <= |items|
    ensures |r.0| == |vinos| && forall k :: 0 <= k < |vinos| ==> r.0[k].id == vinos[k].id
    decreases |items| - i
  {
    if i == |items| then (vinos, true)
    else
      match DecrementLine(vinos, items[i], i, faults)
      case None => (vinos, false)
      case Some(written) => DecrementFrom(written, items, i + 1, faults)
  }

  /** What `createOrder` leaves in the store and returns. */
  function CreateOrderSpec(t: Tables, userId: int, items: seq<Cart.CartItem>, total: real,
                           descuento: real, faults: set<Call>): (Tables, Option<Pedido>)
  {
    if CheckPendingOrder(t.pedidos, userId, PendingQuery in faults) then (t, None)
    else if !StockChecksPass(t.vinos, items, faults) then (t, None)
    else if HeaderInsert in faults then (t, None)
    else
      var pedido := Pedido(t.nextPedidoId, userId, Pendiente, total, descuento, None);
      var withHeader := t.(pedidos := t.pedidos + [pedido], nextPedidoId := t.nextPedidoId + 1);
      if LinesInsert in faults then (withHeader, None)
      else
        var withLines := withHeader.(pedidoItems := withHeader.pedidoItems + OrderLines(pedido.id, items));
        var (vinos, ok) := DecrementFrom(withLines.vinos, items, 0, faults);
        (withLines.(vinos := vinos), if ok then Some(pedido) else None)
  }

  /** Step 2: the stock check loop, which reads the store and writes nothing. */
  method CheckStock(db: Database, items: seq<Cart.CartItem>, faults: set<Call>) returns (ok: bool)
    ensures ok == StockChecksPass(db.vinos, items, faults)
  {
    var i := 0;
    while i < |items|
      invariant 0 <= i <= |items|
      invariant forall k :: 0 <= k < i ==> LinePasses(db.vinos, items, k, faults)
    {
      var stock := ReadStock(db.vinos, items[i].vinoId, StockRead(i) in faults);
      if stock.None? || stock.value < items[i].cantidad {
        assert !LinePasses(db.vinos, items, i, faults);
        return false;
      }
      i := i + 1;
    }
    return true;
  }

  /** Step 5: the stock decrement loop. */
  method DecrementStock(db: Database, items: seq<Cart.CartItem>, faults: set<Call>) returns (ok: bool)
    modifies db`vinos
    ensures (db.vinos, ok) == DecrementFrom(old(db.vinos), items, 0, faults)
  {
    var i := 0;
    while i < |items|
      invariant 0 <= i <= |items|
      invariant DecrementFrom(old(db.vinos), items, 0, faults) == DecrementFrom(db.vinos, items, i, faults)
    {
      ghost var before := db.vinos;
      var read := ReadStock(db.vinos, items[i].vinoId, DecrementRead(i) in faults);
      var currentStock := if read.Some? then read.value else 0;
      var newStock := currentStock - items[i].cantidad;
      if newStock < 0 {
        assert DecrementLine(before, items[i], i, faults) == None;
        return false;
      }
      if DecrementWrite(i) !in faults {
        db.vinos := SetStock(db.vinos, items[i].vinoId, newStock);
      }
      assert DecrementLine(before, items[i], i, faults) == Some(db.vinos);
      i := i + 1;
    }
    return true;
  }

  /** `createOrder(userId, items, total, descuento)` */
  method CreateOrder(db: Database, userId: int, items: seq<Cart.CartItem>, total: real,
                     descuento: real, faults: set<Call>)
    returns (r: Option<Pedido>)
    modifies db
    ensures (db.Snapshot(), r) == CreateOrderSpec(old(db.Snapshot()), userId, items, total, descuento, faults)
  {
    var hasPending := CheckPendingOrder(db.pedidos, userId, PendingQuery in faults);
    if hasPending {
      return None;
    }
    var stockOk := CheckStock(db, items, faults);
    if !stockOk {
      return None;
    }
    if HeaderInsert in faults {
      return None;
    }
    var pedido := Pedido(db.nextPedidoId, userId, Pendiente, total, descuento, None);
    db.pedidos := db.pedidos + [pedido];
    db.nextPedidoId := db.nextPedidoId + 1;
    if LinesInsert in faults {
      return None;
    }
    db.pedidoItems := db.pedidoItems + OrderLines(pedido.id, items);
    var decremented := DecrementStock(db, items, faults);
    r := if decremented then Some(pedido) else None;
  }

  // ---------------------------------------------------------------------------------
  // updateOrderStatus

  /** `.update(updates).eq('id', orderId)`: the status, and the completion time only when
      the new status is `completado`. */
  function SetEstado(pedidos: seq<Pedido>, orderId: int, estado: Estado, now: int): seq<Pedido>
  {
    seq(|pedidos|, k requires 0 <= k < |pedidos| =>
      if pedidos[k].id != orderId then pedidos[k]
      else if estado == Completado then pedidos[k].(estado := estado, fechaCompletado := Some(now))
      else pedidos[k].(estado := estado))
  }

  /** `.from('pedido_items').select(...).eq('pedido_id', orderId)` */
  function LinesOf(pedidoItems: seq<PedidoItem>, orderId: int): seq<PedidoItem>
  {
    Seqs.Filter(pedidoItems, (l: PedidoItem) => l.pedidoId == orderId)
  }

  /** One turn of the stock return: read the current stock (0 when the read fails or the
      wine is missing), add the line's quantity and write it; a failed write is ignored. */
  function RestoreLine(vinos: seq<Wine>, line: PedidoItem, i: int, faults: set<Call>): seq<Wine>
  {
    var read := ReadStock(vinos, line.vinoId, RestoreRead(i) in faults);
    var currentStock := if read.Some? then read.value else 0;
    if RestoreWrite(i) in faults then vinos
    else SetStock(vinos, line.vinoId, currentStock + line.cantidad)
  }

  /** The stock return for the order lines from position `i` on. */
  function RestoreFrom(vinos: seq<Wine>, lines: seq<PedidoItem>, i: int, faults: set<Call>): (r: seq<Wine>)
    requires 0 <= i <= |lines|
    ensures |r| == |vinos| && forall k :: 0 <= k < |vinos| ==> r[k].id == vinos[k].id
    decreases |lines| - i
  {
    if i == |lines| then vinos
    else RestoreFrom(RestoreLine(vinos, lines[i], i, faults), lines, i + 1, faults)
  }

  /** What `updateOrderStatus` leaves in the store and returns. */
  function UpdateOrderStatusSpec(t: Tables, orderId: int, estado: Estado, returnStock: bool,
                                 now: int, faults: set<Call>): (Tables, bool)
  {
    if StatusWrite in faults then (t, false)
    else
      var written := t.(pedidos := SetEstado(t.pedidos, orderId, estado, now));
      if returnStock && (estado == Cancelado || estado == Expirado) then
        var lines := if LinesRead in faults then [] else LinesOf(t.pedidoItems, orderId);
        (written.(vinos := RestoreFrom(written.vinos, lines, 0, faults)), true)
      else (written, true)
  }

  /** One turn of the stock return loop: read the stock, then write it back raised by
      the line's quantity. */
  method RestoreOne(db: Database, line: PedidoItem, i: int, faults: set<Call>)
    modifies db`vinos
    ensures db.vinos == RestoreLine(old(db.vinos), line, i, faults)
  {
    var read := ReadStock(db.vinos, line.vinoId, RestoreRead(i) in faults);
    var currentStock := if read.Some? then read.value else 0;
    var newStock := currentStock + line.cantidad;
    if RestoreWrite(i) !in faults {
      db.vinos := SetStock(db.vinos, line.vinoId, newStock);
    }
  }

  /** The stock return loop of `updateOrderStatus`. */
  method RestoreStock(db: Database, lines: seq<PedidoItem>, faults: set<Call>)
    modifies db`vinos
    ensures db.vinos == RestoreFrom(old(db.vinos), lines, 0, faults)
  {
    var i := 0;
    while i < |lines|
      invariant 0 <= i <= |lines|
      invariant RestoreFrom(old(db.vinos), lines, 0, faults) == RestoreFrom(db.vinos, lines, i, faults)
    {
      RestoreOne(db, lines[i], i, faults);
      i := i + 1;
    }
  }

  /** `updateOrderStatus(orderId, estado, returnStock)`; `now` is the wall-clock time
      recorded as the completion time. */
  method UpdateOrderStatus(db: Database, orderId: int, estado: Estado, returnStock: bool,
                           now: int, faults: set<Call>)
    returns (ok: bool)
    requires estado != Pendiente
    modifies db
    ensures (db.Snapshot(), ok) == UpdateOrderStatusSpec(old(db.Snapshot()), orderId, estado, returnStock, now, faults)
  {
    if StatusWrite in faults {
      return false;
    }
    db.pedidos := SetEstado(db.pedidos, orderId, estado, now);
    if returnStock && (estado == Cancelado || estado == Expirado) {
      var lines := if LinesRead in faults then [] else LinesOf(db.pedidoItems, orderId);
      RestoreStock(db, lines, faults);
    }
    return true;
  }
}
