/** What `createOrder` and `updateOrderStatus` (src/services/orderService.ts) do to the
    tables: the guards that write nothing, the stock each order takes and gives back,
    the missing rollback, and the status write that ignores the current status. */
module OrderProperties {
  import opened Wrappers
  import Seqs
  import Cart
  import opened Store
  import opened OrderService

  /** The quantity of wine `id` that the cart lines from position `i` on order. */
  function OrderedQty(items: seq<Cart.CartItem>, i: int, id: string): int
    requires 0 <= i <= |items|
    decreases |items| - i
  {
    if i == |items| then 0
    else (if items[i].vinoId == id then items[i].cantidad else 0) + OrderedQty(items, i + 1, id)
  }

  /** The quantity of wine `id` that the order lines from position `i` on hold. */
  function LineQty(lines: seq<PedidoItem>, i: int, id: string): int
    requires 0 <= i <= |lines|
    decreases |lines| - i
  {
    if i == |lines| then 0
    else (if lines[i].vinoId == id then lines[i].cantidad else 0) + LineQty(lines, i + 1, id)
  }

  /** Every wine's stock lowered by what the cart lines from `i` on order of it. */
  function Debited(vinos: seq<Wine>, items: seq<Cart.CartItem>, i: int): seq<Wine>
    requires 0 <= i <= |items|
  {
    seq(|vinos|, k requires 0 <= k < |vinos| =>
      vinos[k].(stock := vinos[k].stock - OrderedQty(items, i, vinos[k].id)))
  }

  /** Every wine's stock raised by what the order lines from `i` on hold of it. */
  function Credited(vinos: seq<Wine>, lines: seq<PedidoItem>, i: int): seq<Wine>
    requires 0 <= i <= |lines|
  {
    seq(|vinos|, k requires 0 <= k < |vinos| =>
      vinos[k].(stock := vinos[k].stock + LineQty(lines, i, vinos[k].id)))
  }

  /** No two cart lines from position `i` on name the same wine. */
  ghost predicate DistinctFrom(items: seq<Cart.CartItem>, i: int)
  {
    forall a, b :: 0 <= i <= a < b < |items| ==> items[a].vinoId != items[b].vinoId
  }

  /** None of the reads and writes of the decrement loop fails. */
  ghost predicate NoDecrementFaults(faults: set<Call>)
  {
    forall c :: c in faults ==> !c.DecrementRead? && !c.DecrementWrite?
  }

  /** None of the reads and writes of the stock return loop fails. */
  ghost predicate NoRestoreFaults(faults: set<Call>)
  {
    forall c :: c in faults ==> !c.RestoreRead? && !c.RestoreWrite?
  }

  lemma {:induction false} OrderedQtyAbsent(items: seq<Cart.CartItem>, i: int, id: string)
    requires 0 <= i <= |items|
    requires forall k :: i <= k < |items| ==> items[k].vinoId != id
    ensures OrderedQty(items, i, id) == 0
    decreases |items| - i
  {
    if i < |items| {
      OrderedQtyAbsent(items, i + 1, id);
    }
  }

  lemma {:induction false} OrderedQtyOne(items: seq<Cart.CartItem>, i: int, j: int)
    requires 0 <= i <= j < |items|
    requires forall k :: i <= k < |items| && k != j ==> items[k].vinoId != items[j].vinoId
    ensures OrderedQty(items, i, items[j].vinoId) == items[j].cantidad
    decreases |items| - i
  {
    if i < j {
      OrderedQtyOne(items, i + 1, j);
    } else {
      OrderedQtyAbsent(items, i + 1, items[j].vinoId);
    }
  }

  /** The order lines hold, wine by wine, the quantities the cart lines ordered. */
  lemma {:induction false} LineQtyOfOrderLines(pedidoId: int, items: seq<Cart.CartItem>, i: int, id: string)
    requires 0 <= i <= |items|
    ensures LineQty(OrderLines(pedidoId, items), i, id) == OrderedQty(items, i, id)
    decreases |items| - i
  {
    if i < |items| {
      LineQtyOfOrderLines(pedidoId, items, i + 1, id);
    }
  }

  /** The loop goes on from the table the turn produced. */
  lemma DecrementStep(vinos: seq<Wine>, items: seq<Cart.CartItem>, i: int, faults: set<Call>, written: seq<Wine>)
    requires 0 <= i < |items|
    requires DecrementLine(vinos, items[i], i, faults) == Some(written)
    ensures DecrementFrom(vinos, items, i, faults) == DecrementFrom(written, items, i + 1, faults)
  {
  }

  /** A turn that reads enough stock and whose write does not fail writes the lowered
      stock. */
  lemma DecrementLineOk(vinos: seq<Wine>, item: Cart.CartItem, i: int, faults: set<Call>, stock: int)
    requires DecrementRead(i) !in faults && DecrementWrite(i) !in faults
    requires ReadStock(vinos, item.vinoId, false) == Some(stock) && stock >= item.cantidad
    ensures DecrementLine(vinos, item, i, faults) == Some(SetStock(vinos, item.vinoId, stock - item.cantidad))
  {
  }

  /** A turn that reads less stock than the line asks for fails without writing. */
  lemma DecrementLineShort(vinos: seq<Wine>, item: Cart.CartItem, i: int, faults: set<Call>, stock: int)
    requires DecrementRead(i) !in faults
    requires ReadStock(vinos, item.vinoId, false) == Some(stock) && stock < item.cantidad
    ensures DecrementLine(vinos, item, i, faults) == None
  {
  }

  /** A failing turn stops the loop with the table as it stands. */
  lemma DecrementStop(vinos: seq<Wine>, items: seq<Cart.CartItem>, i: int, faults: set<Call>)
    requires 0 <= i < |items|
    requires DecrementLine(vinos, items[i], i, faults) == None
    ensures DecrementFrom(vinos, items, i, faults) == (vinos, false)
  {
  }

  /** Writing line `i`'s decrement and debiting the later lines debits all lines from
      `i` on, when no later line names the same wine. */
  lemma DebitedStep(vinos: seq<Wine>, items: seq<Cart.CartItem>, i: int, w: Wine)
    requires 0 <= i < |items| && UniqueIds(vinos)
    requires FindWine(vinos, items[i].vinoId) == Some(w)
    requires forall k :: i < k < |items| ==> items[k].vinoId != items[i].vinoId
    ensures Debited(SetStock(vinos, items[i].vinoId, w.stock - items[i].cantidad), items, i + 1)
         == Debited(vinos, items, i)
  {
    var written := SetStock(vinos, items[i].vinoId, w.stock - items[i].cantidad);
    OrderedQtyAbsent(items, i + 1, items[i].vinoId);
    forall k | 0 <= k < |vinos| ensures Debited(written, items, i + 1)[k] == Debited(vinos, items, i)[k] {
      SetStockAt(vinos, items[i].vinoId, w.stock - items[i].cantidad, k);
      if vinos[k].id == items[i].vinoId {
        FindWineAt(vinos, k);
      }
    }
  }

  /** With distinct wines in the cart, every decrement reads a stock no earlier turn
      wrote, so the loop lowers each wine by exactly its line's quantity. */
  lemma {:induction false} DecrementDistinct(vinos: seq<Wine>, items: seq<Cart.CartItem>, i: int, faults: set<Call>)
    requires 0 <= i <= |items|
    requires UniqueIds(vinos) && DistinctFrom(items, i) && NoDecrementFaults(faults)
    requires forall k :: i <= k < |items| ==>
      FindWine(vinos, items[k].vinoId).Some? && FindWine(vinos, items[k].vinoId).value.stock >= items[k].cantidad
    ensures DecrementFrom(vinos, items, i, faults) == (Debited(vinos, items, i), true)
    decreases |items| - i
  {
    if i == |items| {
      assert Debited(vinos, items, i) == vinos;
      assert DecrementFrom(vinos, items, i, faults) == (vinos, true);
    } else {
      var id := items[i].vinoId;
      var w := FindWine(vinos, id).value;
      var newStock := w.stock - items[i].cantidad;
      var written := SetStock(vinos, id, newStock);
      assert DecrementRead(i) !in faults && DecrementWrite(i) !in faults;
      assert ReadStock(vinos, id, false) == Some(w.stock);
      DecrementLineOk(vinos, items[i], i, faults, w.stock);
      DecrementStep(vinos, items, i, faults, written);
      SameIdsUnique(vinos, written);
      forall k | i + 1 <= k < |items|
        ensures FindWine(written, items[k].vinoId) == FindWine(vinos, items[k].vinoId)
      {
        FindWineSetStockOther(vinos, id, newStock, items[k].vinoId);
      }
      DecrementDistinct(written, items, i + 1, faults);
      DebitedStep(vinos, items, i, w);
    }
  }

  /** A restore turn without faults adds the line's quantity to its wine's row and keeps
      every other row. */
  lemma RestoreLineAt(vinos: seq<Wine>, line: PedidoItem, i: int, faults: set<Call>, k: int)
    requires UniqueIds(vinos) && 0 <= k < |vinos|
    requires RestoreRead(i) !in faults && RestoreWrite(i) !in faults
    ensures RestoreLine(vinos, line, i, faults)[k]
      == if vinos[k].id == line.vinoId then vinos[k].(stock := vinos[k].stock + line.cantidad) else vinos[k]
  {
    if vinos[k].id == line.vinoId {
      FindWineAt(vinos, k);
    }
  }

  /** Without faults in the return loop, each turn reads the stock the previous turn
      wrote, so the loop raises each wine by everything the lines hold of it; a line
      whose wine is missing writes nothing. */
  lemma {:induction false} RestoreAll(vinos: seq<Wine>, lines: seq<PedidoItem>, i: int, faults: set<Call>)
    requires 0 <= i <= |lines|
    requires UniqueIds(vinos) && NoRestoreFaults(faults)
    ensures RestoreFrom(vinos, lines, i, faults) == Credited(vinos, lines, i)
    decreases |lines| - i
  {
    if i == |lines| {
      assert Credited(vinos, lines, i) == vinos;
    } else {
      var id := lines[i].vinoId;
      var written := RestoreLine(vinos, lines[i], i, faults);
      assert RestoreRead(i) !in faults && RestoreWrite(i) !in faults;
      SameIdsUnique(vinos, written);
      RestoreAll(written, lines, i + 1, faults);
      forall k | 0 <= k < |vinos| ensures Credited(written, lines, i + 1)[k] == Credited(vinos, lines, i)[k] {
        RestoreLineAt(vinos, lines[i], i, faults, k);
      }
      assert Credited(written, lines, i + 1) == Credited(vinos, lines, i);
    }
  }

  /** `createOrder` writes nothing and returns null when the pending check finds an
      order, or when some line's wine is missing or short of stock. */
  lemma RefusedOrderWritesNothing(t: Tables, userId: int, items: seq<Cart.CartItem>, total: real,
                                  descuento: real, faults: set<Call>, k: int)
    requires 0 <= k < |items|
    requires CheckPendingOrder(t.pedidos, userId, PendingQuery in faults)
      || FindWine(t.vinos, items[k].vinoId).None?
      || FindWine(t.vinos, items[k].vinoId).value.stock < items[k].cantidad
    ensures CreateOrderSpec(t, userId, items, total, descuento, faults) == (t, None)
  {
    if !CheckPendingOrder(t.pedidos, userId, PendingQuery in faults) {
      assert !LinePasses(t.vinos, items, k, faults);
    }
  }

  /** Once the pending and stock checks pass and the header insert succeeds, the header
      is written with the next id and status `pendiente`; a failed lines insert then
      returns null with the header left in place, and otherwise the order lines follow. */
  lemma CreateOrderWritesHeaderAndLines(t: Tables, userId: int, items: seq<Cart.CartItem>, total: real,
                                        descuento: real, faults: set<Call>)
    requires !CheckPendingOrder(t.pedidos, userId, PendingQuery in faults)
    requires StockChecksPass(t.vinos, items, faults)
    requires HeaderInsert !in faults
    ensures var res := CreateOrderSpec(t, userId, items, total, descuento, faults);
      && res.0.pedidos == t.pedidos + [Pedido(t.nextPedidoId, userId, Pendiente, total, descuento, None)]
      && res.0.nextPedidoId == t.nextPedidoId + 1
      && (LinesInsert in faults ==> res.1 == None && res.0.pedidoItems == t.pedidoItems && res.0.vinos == t.vinos)
      && (LinesInsert !in faults ==>
            && res.0.pedidoItems == t.pedidoItems + OrderLines(t.nextPedidoId, items)
            && res.0.vinos == DecrementFrom(t.vinos, items, 0, faults).0
            && (res.1.Some? <==> DecrementFrom(t.vinos, items, 0, faults).1))
  {
  }

  /** Every order line copies its cart line's wine, name, quantity and price, carries the
      order's id, and has subtotal `precio * cantidad`; the subtotals add up to the cart
      total. */
  lemma OrderLinesCopyCart(pedidoId: int, items: seq<Cart.CartItem>)
    ensures |OrderLines(pedidoId, items)| == |items|
    ensures forall k :: 0 <= k < |items| ==>
      var l := OrderLines(pedidoId, items)[k];
      && l.pedidoId == pedidoId && l.vinoId == items[k].vinoId
      && l.nombreVino == items[k].nombre && l.cantidad == items[k].cantidad
      && l.precioUnitario == items[k].precio
      && l.subtotal == items[k].precio * items[k].cantidad as real
    ensures Subtotals(OrderLines(pedidoId, items)) == Cart.Total(items)
  {
    SubtotalsOfOrderLines(pedidoId, items);
  }

  /** The sum of the `subtotal` column, added left to right. */
  function Subtotals(lines: seq<PedidoItem>): real
  {
    if lines == [] then 0.0
    else Subtotals(lines[..|lines| - 1]) + lines[|lines| - 1].subtotal
  }

  lemma {:induction false} SubtotalsOfOrderLines(pedidoId: int, items: seq<Cart.CartItem>)
    ensures Subtotals(OrderLines(pedidoId, items)) == Cart.Total(items)
  {
    if items != [] {
      var n := |items|;
      assert OrderLines(pedidoId, items)[..n - 1] == OrderLines(pedidoId, items[..n - 1]) by {
        forall k | 0 <= k < n - 1 ensures OrderLines(pedidoId, items)[k] == OrderLines(pedidoId, items[..n - 1])[k] {
          assert items[..n - 1][k] == items[k];
        }
      }
      SubtotalsOfOrderLines(pedidoId, items[..n - 1]);
    }
  }

  /** A successful order from a cart whose lines name distinct wines (which `addToCart`
      guarantees): the header and the lines are written and every wine's stock is
      debited by what the cart orders of it. */
  lemma DistinctOrderDecrementsStock(t: Tables, userId: int, items: seq<Cart.CartItem>, total: real,
                                     descuento: real, faults: set<Call>)
    requires UniqueIds(t.vinos) && Cart.UniqueIds(items)
    requires !CheckPendingOrder(t.pedidos, userId, PendingQuery in faults)
    requires StockChecksPass(t.vinos, items, faults)
    requires HeaderInsert !in faults && LinesInsert !in faults && NoDecrementFaults(faults)
    ensures var res := CreateOrderSpec(t, userId, items, total, descuento, faults);
      && res.1 == Some(Pedido(t.nextPedidoId, userId, Pendiente, total, descuento, None))
      && res.0.pedidos == t.pedidos + [res.1.value]
      && res.0.nextPedidoId == t.nextPedidoId + 1
      && res.0.pedidoItems == t.pedidoItems + OrderLines(t.nextPedidoId, items)
      && res.0.vinos == Debited(t.vinos, items, 0)
  {
    forall k | 0 <= k < |items|
      ensures FindWine(t.vinos, items[k].vinoId).Some?
      ensures FindWine(t.vinos, items[k].vinoId).value.stock >= items[k].cantidad
    {
      assert LinePasses(t.vinos, items, k, faults);
    }
    DecrementDistinct(t.vinos, items, 0, faults);
  }

  /** What the debit means row by row, for a cart of distinct wines that passed the stock
      check: each ordered wine's stock drops by exactly its line's quantity and stays
      non-negative, and every other wine is left as it was. */
  lemma DebitedRows(vinos: seq<Wine>, items: seq<Cart.CartItem>, faults: set<Call>)
    requires UniqueIds(vinos) && Cart.UniqueIds(items)
    requires StockChecksPass(vinos, items, faults)
    ensures |Debited(vinos, items, 0)| == |vinos|
    ensures forall k, j :: 0 <= k < |vinos| && 0 <= j < |items| && items[j].vinoId == vinos[k].id ==>
      && Debited(vinos, items, 0)[k] == vinos[k].(stock := vinos[k].stock - items[j].cantidad)
      && Debited(vinos, items, 0)[k].stock >= 0
    ensures forall k :: 0 <= k < |vinos| && (forall j :: 0 <= j < |items| ==> items[j].vinoId != vinos[k].id) ==>
      Debited(vinos, items, 0)[k] == vinos[k]
  {
    var after := Debited(vinos, items, 0);
    forall k, j | 0 <= k < |vinos| && 0 <= j < |items| && items[j].vinoId == vinos[k].id
      ensures after[k] == vinos[k].(stock := vinos[k].stock - items[j].cantidad) && after[k].stock >= 0
    {
      OrderedQtyOne(items, 0, j);
      FindWineAt(vinos, k);
      assert LinePasses(vinos, items, j, faults);
    }
    forall k | 0 <= k < |vinos| && (forall j :: 0 <= j < |items| ==> items[j].vinoId != vinos[k].id)
      ensures after[k] == vinos[k]
    {
      OrderedQtyAbsent(items, 0, vinos[k].id);
    }
  }

  /** The decrement loop over two lines for one wine that together exceed its stock:
      the first write lands, the second turn stops the loop. */
  lemma DuplicateDecrement(vinos: seq<Wine>, a: Cart.CartItem, b: Cart.CartItem, stock: int)
    requires ReadStock(vinos, a.vinoId, false) == Some(stock) && b.vinoId == a.vinoId
    requires a.cantidad <= stock && a.cantidad + b.cantidad > stock
    ensures DecrementFrom(vinos, [a, b], 0, {}) == (SetStock(vinos, a.vinoId, stock - a.cantidad), false)
  {
    var items := [a, b];
    var left := stock - a.cantidad;
    var written := SetStock(vinos, b.vinoId, left);
    DecrementLineOk(vinos, a, 0, {}, stock);
    DecrementStep(vinos, items, 0, {}, written);
    ReadStockAfterWrite(vinos, b.vinoId, left);
    DecrementLineShort(written, b, 1, {}, left);
    DecrementStop(written, items, 1, {});
  }

  /** Two cart lines for one wine each pass the stock check against the full stock; when
      together they exceed it, the second decrement fails after the header, the lines
      and the first decrement are written, and none of that is undone. */
  lemma DuplicateLinesNoRollback(t: Tables, userId: int, a: Cart.CartItem, b: Cart.CartItem,
                                 total: real, descuento: real, k: int)
    requires UniqueIds(t.vinos) && 0 <= k < |t.vinos|
    requires a.vinoId == t.vinos[k].id && b.vinoId == t.vinos[k].id
    requires a.cantidad <= t.vinos[k].stock && b.cantidad <= t.vinos[k].stock
    requires a.cantidad + b.cantidad > t.vinos[k].stock
    requires !CheckPendingOrder(t.pedidos, userId, false)
    ensures var res := CreateOrderSpec(t, userId, [a, b], total, descuento, {});
      && res.1 == None
      && res.0.pedidos == t.pedidos + [Pedido(t.nextPedidoId, userId, Pendiente, total, descuento, None)]
      && res.0.pedidoItems == t.pedidoItems + OrderLines(t.nextPedidoId, [a, b])
      && res.0.vinos == t.vinos[k := t.vinos[k].(stock := t.vinos[k].stock - a.cantidad)]
  {
    var items := [a, b];
    var w := t.vinos[k];
    var lowered := t.vinos[k := w.(stock := w.stock - a.cantidad)];
    assert StockChecksPass(t.vinos, items, {}) by {
      FindWineAt(t.vinos, k);
      assert ReadStock(t.vinos, w.id, false) == Some(w.stock);
      forall j | 0 <= j < |items| ensures LinePasses(t.vinos, items, j, {}) {
        assert items[j].vinoId == w.id;
      }
    }
    assert DecrementFrom(t.vinos, items, 0, {}) == (lowered, false) by {
      FindWineAt(t.vinos, k);
      assert ReadStock(t.vinos, a.vinoId, false) == Some(w.stock);
      DuplicateDecrement(t.vinos, a, b, w.stock);
      SetStockOneRow(t.vinos, k, w.stock - a.cantidad);
    }
    CreateOrderWritesHeaderAndLines(t, userId, items, total, descuento, {});
  }

  /** The pending check fails open: when its query fails, a customer who already has a
      pending order gets a second one, and from then on the check (now seeing two rows)
      reports no pending order even without faults. */
  lemma FailOpenAllowsSecondPending(t: Tables, userId: int, items: seq<Cart.CartItem>, total: real,
                                    descuento: real, faults: set<Call>, i: int)
    requires 0 <= i < |t.pedidos| && IsPendingOf(t.pedidos[i], userId)
    requires PendingQuery in faults
    requires StockChecksPass(t.vinos, items, faults) && HeaderInsert !in faults
    ensures var after := CreateOrderSpec(t, userId, items, total, descuento, faults).0;
      && after.pedidos == t.pedidos + [Pedido(t.nextPedidoId, userId, Pendiente, total, descuento, None)]
      && !CheckPendingOrder(after.pedidos, userId, false)
  {
    var after := CreateOrderSpec(t, userId, items, total, descuento, faults).0;
    TwoPendingReadAsNone(after.pedidos, userId, i, |t.pedidos|);
  }

  /** `createOrder` keeps the keys of the store. */
  lemma CreateOrderKeepsValid(t: Tables, userId: int, items: seq<Cart.CartItem>, total: real,
                              descuento: real, faults: set<Call>)
    requires Valid(t)
    ensures Valid(CreateOrderSpec(t, userId, items, total, descuento, faults).0)
  {
    var after := CreateOrderSpec(t, userId, items, total, descuento, faults).0;
    if after != t {
      SameIdsUnique(t.vinos, after.vinos);
      assert forall k :: 0 <= k < |t.pedidos| ==> after.pedidos[k] == t.pedidos[k];
    }
  }

  /** The status write ignores the current status: the row with that id gets the new one
      (with the completion time only for `completado`), every other row and the order
      lines are untouched; a failed write changes nothing and reports false. */
  lemma StatusWrittenWhateverCurrent(t: Tables, orderId: int, estado: Estado, returnStock: bool,
                                     now: int, faults: set<Call>)
    ensures StatusWrite in faults ==> UpdateOrderStatusSpec(t, orderId, estado, returnStock, now, faults) == (t, false)
    ensures StatusWrite !in faults ==>
      var res := UpdateOrderStatusSpec(t, orderId, estado, returnStock, now, faults);
      && res.1
      && |res.0.pedidos| == |t.pedidos|
      && res.0.pedidoItems == t.pedidoItems
      && (forall k :: 0 <= k < |t.pedidos| && t.pedidos[k].id != orderId ==> res.0.pedidos[k] == t.pedidos[k])
      && (forall k :: 0 <= k < |t.pedidos| && t.pedidos[k].id == orderId ==>
            res.0.pedidos[k] == t.pedidos[k].(estado := estado,
              fechaCompletado := if estado == Completado then Some(now) else t.pedidos[k].fechaCompletado))
      && (!returnStock || estado == Completado ==> res.0.vinos == t.vinos)
  {
  }

  /** Cancelling or expiring with `returnStock` and no faults adds each line's quantity
      back to its wine. */
  lemma ReturnStockAddsQuantities(t: Tables, orderId: int, estado: Estado, now: int, faults: set<Call>)
    requires UniqueIds(t.vinos)
    requires estado == Cancelado || estado == Expirado
    requires StatusWrite !in faults && LinesRead !in faults && NoRestoreFaults(faults)
    ensures UpdateOrderStatusSpec(t, orderId, estado, true, now, faults).0.vinos
         == Credited(t.vinos, LinesOf(t.pedidoItems, orderId), 0)
  {
    RestoreAll(t.vinos, LinesOf(t.pedidoItems, orderId), 0, faults);
  }

  /** Nothing stops a second cancel of the same order: it adds the quantities back a
      second time. */
  lemma RepeatedCancelRestoresTwice(t: Tables, orderId: int, now1: int, now2: int)
    requires UniqueIds(t.vinos)
    ensures var once := UpdateOrderStatusSpec(t, orderId, Cancelado, true, now1, {}).0;
      var twice := UpdateOrderStatusSpec(once, orderId, Cancelado, true, now2, {}).0;
      && |twice.vinos| == |t.vinos|
      && forall k :: 0 <= k < |t.vinos| ==>
           twice.vinos[k] == t.vinos[k].(stock := t.vinos[k].stock + 2 * LineQty(LinesOf(t.pedidoItems, orderId), 0, t.vinos[k].id))
  {
    var lines := LinesOf(t.pedidoItems, orderId);
    ReturnStockAddsQuantities(t, orderId, Cancelado, now1, {});
    var once := UpdateOrderStatusSpec(t, orderId, Cancelado, true, now1, {}).0;
    SameIdsUnique(t.vinos, once.vinos);
    ReturnStockAddsQuantities(once, orderId, Cancelado, now2, {});
  }

  /** The lines of a new order id are exactly the lines just inserted for it. */
  lemma LinesOfNewOrder(pedidoItems: seq<PedidoItem>, pedidoId: int, items: seq<Cart.CartItem>)
    requires forall k :: 0 <= k < |pedidoItems| ==> pedidoItems[k].pedidoId < pedidoId
    ensures LinesOf(pedidoItems + OrderLines(pedidoId, items), pedidoId) == OrderLines(pedidoId, items)
  {
    var p := (l: PedidoItem) => l.pedidoId == pedidoId;
    Seqs.FilterConcat(pedidoItems, OrderLines(pedidoId, items), p);
    Seqs.FilterNone(pedidoItems, p);
    Seqs.FilterAll(OrderLines(pedidoId, items), p);
  }

  /** Crediting back the lines of an order undoes debiting its cart. */
  lemma CreditUndoesDebit(vinos: seq<Wine>, items: seq<Cart.CartItem>, pedidoId: int)
    ensures Credited(Debited(vinos, items, 0), OrderLines(pedidoId, items), 0) == vinos
  {
    forall k | 0 <= k < |vinos|
      ensures Credited(Debited(vinos, items, 0), OrderLines(pedidoId, items), 0)[k] == vinos[k]
    {
      LineQtyOfOrderLines(pedidoId, items, 0, vinos[k].id);
    }
  }

  /** Cancelling, with `returnStock`, the order that `createOrder` just made from a cart
      of distinct wines gives every wine back exactly the stock it had. */
  lemma CancelRestoresOrderedStock(t: Tables, userId: int, items: seq<Cart.CartItem>, total: real,
                                   descuento: real, now: int)
    requires Valid(t) && Cart.UniqueIds(items)
    requires !CheckPendingOrder(t.pedidos, userId, false)
    requires StockChecksPass(t.vinos, items, {})
    ensures var created := CreateOrderSpec(t, userId, items, total, descuento, {}).0;
      UpdateOrderStatusSpec(created, t.nextPedidoId, Cancelado, true, now, {}).0.vinos == t.vinos
  {
    var id := t.nextPedidoId;
    DistinctOrderDecrementsStock(t, userId, items, total, descuento, {});
    var created := CreateOrderSpec(t, userId, items, total, descuento, {}).0;
    LinesOfNewOrder(t.pedidoItems, id, items);
    SameIdsUnique(t.vinos, created.vinos);
    ReturnStockAddsQuantities(created, id, Cancelado, now, {});
    CreditUndoesDebit(t.vinos, items, id);
  }

  /** `updateOrderStatus` keeps the keys of the store. */
  lemma UpdateOrderStatusKeepsValid(t: Tables, orderId: int, estado: Estado, returnStock: bool,
                                    now: int, faults: set<Call>)
    requires Valid(t)
    ensures Valid(UpdateOrderStatusSpec(t, orderId, estado, returnStock, now, faults).0)
  {
    var after := UpdateOrderStatusSpec(t, orderId, estado, returnStock, now, faults).0;
    SameIdsUnique(t.vinos, after.vinos);
  }
}
