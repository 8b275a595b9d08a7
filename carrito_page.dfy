/** The cart page (src/pages/CarritoPage.tsx): the checkout arithmetic, the guard
    sequence of `handleConfirmarPedido`, and the lines of the quote that
    `handleDownloadQuote` builds. `birthday` is the page's `isBirthdayToday`; `user` is
    what `getCurrentUser()` returned when the page rendered. */
module CarritoPage {
  import opened Wrappers
  import Cart
  import Auth
  import opened Store
  import opened Birthday
  import OrderService
  import CatalogoPage

  /** `calculateTotal()`: the cart subtotal, discounted on the birthday. */
  function CalculateTotal(lines: seq<Cart.CartItem>, birthday: bool): real
  {
    var subtotal := Cart.Total(lines);
    if birthday then ApplyBirthdayDiscount(subtotal) else subtotal
  }

  /** `calculateDiscount()`: what the birthday takes off the subtotal, 0 otherwise. */
  function CalculateDiscount(lines: seq<Cart.CartItem>, birthday: bool): real
  {
    if !birthday then 0.0
    else
      var subtotal := Cart.Total(lines);
      subtotal - ApplyBirthdayDiscount(subtotal)
  }

  /** The total and the discount always add up to the cart subtotal, which is what the
      receipt shows as its subtotal (src/utils/pdfGenerator.ts:94); on the birthday the
      discount is 15% of the subtotal. */
  lemma TotalPlusDiscountIsSubtotal(lines: seq<Cart.CartItem>, birthday: bool)
    ensures CalculateTotal(lines, birthday) + CalculateDiscount(lines, birthday) == Cart.Total(lines)
    ensures birthday ==> CalculateDiscount(lines, birthday) == Cart.Total(lines) * 15.0 / 100.0
    ensures !birthday ==> CalculateTotal(lines, birthday) == Cart.Total(lines)
  {
  }

  /** The cart lines with every unit price discounted, as the catalogue prices them on
      the birthday. */
  function BirthdayPriced(lines: seq<Cart.CartItem>): (r: seq<Cart.CartItem>)
    ensures |r| == |lines|
    ensures forall k :: 0 <= k < |lines| ==> r[k] == lines[k].(precio := ApplyBirthdayDiscount(lines[k].precio))
  {
    seq(|lines|, k requires 0 <= k < |lines| => lines[k].(precio := ApplyBirthdayDiscount(lines[k].precio)))
  }

  /** Discounting every unit price discounts the subtotal by the same fraction. */
  lemma {:induction false} TotalOfBirthdayPriced(lines: seq<Cart.CartItem>)
    ensures Cart.Total(BirthdayPriced(lines)) == ApplyBirthdayDiscount(Cart.Total(lines))
  {
    if lines != [] {
      var n := |lines|;
      var prefix := BirthdayPriced(lines)[..n - 1];
      forall k | 0 <= k < n - 1 ensures prefix[k] == BirthdayPriced(lines[..n - 1])[k] {
        assert lines[..n - 1][k] == lines[k];
      }
      assert prefix == BirthdayPriced(lines[..n - 1]);
      TotalOfBirthdayPriced(lines[..n - 1]);
      var last := lines[n - 1];
      assert ApplyBirthdayDiscount(last.precio) * last.cantidad as real
        == ApplyBirthdayDiscount(last.precio * last.cantidad as real);
    }
  }

  /** Lines put in the cart on the birthday already carry the discounted price, and the
      checkout discounts the subtotal once more: the customer is charged 0.85 × 0.85 of
      the list prices. */
  lemma CheckoutDiscountsTwice(listed: seq<Cart.CartItem>)
    ensures CalculateTotal(BirthdayPriced(listed), true) == 0.85 * 0.85 * Cart.Total(listed)
  {
    TotalOfBirthdayPriced(listed);
  }

  /** One bottle added from the catalogue on the birthday is charged 0.85 × 0.85 of its
      list price at checkout on the same day. */
  lemma SingleBottleDiscountedTwice(v: Wine)
    requires v.stock >= 1 && v.id != ""
    ensures var lines := CatalogoPage.AgregarResult([], v, true).value;
      CalculateTotal(lines, true) == 0.85 * 0.85 * v.precio
  {
    CatalogoPage.AgregarAddsOneBottle([], v, true);
    var lines := CatalogoPage.AgregarResult([], v, true).value;
    var p := ApplyBirthdayDiscount(v.precio);
    assert p == 0.85 * v.precio;
    assert lines == [Cart.CartItem(v.id, v.nombre, p, 1, v.imagen, v.stock)];
    assert lines[..0] == [];
    assert Cart.Total(lines) == p;
    assert ApplyBirthdayDiscount(p) == 0.85 * p;
  }

  /** How `handleConfirmarPedido` ends. */
  datatype ConfirmOutcome = LoginRequired | EmptyCart | PendingOrder | NotCreated | Confirmed(pedido: Pedido)

  /** The effect of `handleConfirmarPedido` on the store. The page's own pending check is
      a separate query from the one inside `createOrder`; `pendingFails` says whether it
      fails. */
  function ConfirmSpec(t: Tables, lines: seq<Cart.CartItem>, user: Option<Auth.User>, birthday: bool,
                       pendingFails: bool, faults: set<OrderService.Call>): (Tables, ConfirmOutcome)
  {
    if user.None? then (t, LoginRequired)
    else if lines == [] then (t, EmptyCart)
    else if OrderService.CheckPendingOrder(t.pedidos, user.value.id, pendingFails) then (t, PendingOrder)
    else
      var (after, r) := OrderService.CreateOrderSpec(t, user.value.id, lines, CalculateTotal(lines, birthday),
                                                     CalculateDiscount(lines, birthday), faults);
      (after, if r.Some? then Confirmed(r.value) else NotCreated)
  }

  method HandleConfirmarPedido(db: Database, cart: Cart.CartStorage, user: Option<Auth.User>, birthday: bool,
                               pendingFails: bool, faults: set<OrderService.Call>)
    returns (o: ConfirmOutcome)
    modifies db, cart
    ensures (db.Snapshot(), o)
      == ConfirmSpec(old(db.Snapshot()), old(cart.GetCart()), user, birthday, pendingFails, faults)
    ensures o.Confirmed? ==> cart.slot == Cart.NoEntry
    ensures !o.Confirmed? ==> cart.slot == old(cart.slot)
  {
    var cartItems := cart.GetCart();
    if user.None? {
      return LoginRequired;
    }
    if |cartItems| == 0 {
      return EmptyCart;
    }
    var hasPending := OrderService.CheckPendingOrder(db.pedidos, user.value.id, pendingFails);
    if hasPending {
      return PendingOrder;
    }
    var total := CalculateTotal(cartItems, birthday);
    var descuento := CalculateDiscount(cartItems, birthday);
    var pedido := OrderService.CreateOrder(db, user.value.id, cartItems, total, descuento, faults);
    if pedido.None? {
      return NotCreated;
    }
    cart.ClearCart();
    return Confirmed(pedido.value);
  }

  /** Without a user or with an empty cart, checkout stops before any store call. */
  lemma NoUserOrEmptyCartWritesNothing(t: Tables, lines: seq<Cart.CartItem>, user: Option<Auth.User>,
                                       birthday: bool, pendingFails: bool, faults: set<OrderService.Call>)
    requires user.None? || lines == []
    ensures ConfirmSpec(t, lines, user, birthday, pendingFails, faults).0 == t
    ensures ConfirmSpec(t, lines, user, birthday, pendingFails, faults).1
      == if user.None? then LoginRequired else EmptyCart
  {
  }

  /** A customer with a pending order is stopped before `createOrder`, and so keeps the
      cart, when the page's check succeeds. */
  lemma PendingOrderStopsCheckout(t: Tables, lines: seq<Cart.CartItem>, user: Auth.User, birthday: bool,
                                  faults: set<OrderService.Call>, i: int)
    requires lines != []
    requires 0 <= i < |t.pedidos| && OrderService.IsPendingOf(t.pedidos[i], user.id)
    requires OrderService.AtMostOnePending(t.pedidos, user.id)
    ensures ConfirmSpec(t, lines, Some(user), birthday, false, faults) == (t, PendingOrder)
  {
    OrderService.CheckPendingOrderExact(t.pedidos, user.id, false);
  }

  /** A confirmed order belongs to the user, is pending, and records the checkout total
      and discount, which add up to the cart subtotal. */
  lemma ConfirmedOrderRecordsCheckout(t: Tables, lines: seq<Cart.CartItem>, user: Auth.User, birthday: bool,
                                      pendingFails: bool, faults: set<OrderService.Call>)
    requires ConfirmSpec(t, lines, Some(user), birthday, pendingFails, faults).1.Confirmed?
    ensures var p := ConfirmSpec(t, lines, Some(user), birthday, pendingFails, faults).1.pedido;
      && p.usuarioId == user.id && p.estado == Pendiente && p.id == t.nextPedidoId
      && p.total == CalculateTotal(lines, birthday)
      && p.total + p.descuentoAplicado == Cart.Total(lines)
  {
  }

  /** A quote line (`mockItems`). */
  datatype QuoteLine = QuoteLine(cantidad: int, nombreVino: string, precioUnitario: real, subtotal: real)

  /** The quote (`mockPedido` with its lines); times in milliseconds since the epoch. */
  datatype Quote = Quote(fechaPedido: int, fechaVencimiento: int, total: real, descuentoAplicado: real,
                         estado: Estado, lines: seq<QuoteLine>)

  /** `24 * 60 * 60 * 1000`: a quote is valid for one day. */
  const QuoteValidityMs: int := 24 * 60 * 60 * 1000

  /** `cartItems.map(...)` in `handleDownloadQuote`. */
  function QuoteLines(lines: seq<Cart.CartItem>): (r: seq<QuoteLine>)
    ensures |r| == |lines|
    ensures forall k :: 0 <= k < |lines| ==>
      r[k] == QuoteLine(lines[k].cantidad, lines[k].nombre, lines[k].precio,
                        lines[k].precio * lines[k].cantidad as real)
  {
    seq(|lines|, k requires 0 <= k < |lines| =>
      QuoteLine(lines[k].cantidad, lines[k].nombre, lines[k].precio, lines[k].precio * lines[k].cantidad as real))
  }

  /** The quote `handleDownloadQuote` hands to the receipt generator, or `None` when it
      returns at once (no user or an empty cart). `now` is the wall clock. */
  function BuildQuote(lines: seq<Cart.CartItem>, user: Option<Auth.User>, birthday: bool, now: int): Option<Quote>
  {
    if user.None? || |lines| == 0 then None
    else Some(Quote(now, now + QuoteValidityMs, CalculateTotal(lines, birthday),
                    CalculateDiscount(lines, birthday), Pendiente, QuoteLines(lines)))
  }

  /** The sum of the quote lines' subtotals, added left to right. */
  function QuoteSum(q: seq<QuoteLine>): real
  {
    if q == [] then 0.0 else QuoteSum(q[..|q| - 1]) + q[|q| - 1].subtotal
  }

  lemma {:induction false} QuoteSumIsCartTotal(lines: seq<Cart.CartItem>)
    ensures QuoteSum(QuoteLines(lines)) == Cart.Total(lines)
  {
    if lines != [] {
      var n := |lines|;
      var prefix := QuoteLines(lines)[..n - 1];
      forall k | 0 <= k < n - 1 ensures prefix[k] == QuoteLines(lines[..n - 1])[k] {
        assert lines[..n - 1][k] == lines[k];
      }
      assert prefix == QuoteLines(lines[..n - 1]);
      QuoteSumIsCartTotal(lines[..n - 1]);
    }
  }

  /** A quote expires 24 hours after it is made, copies each cart line with
      `subtotal = precio * cantidad`, and its lines add up to its total plus discount. */
  lemma QuoteCopiesCart(lines: seq<Cart.CartItem>, user: Auth.User, birthday: bool, now: int)
    requires lines != []
    ensures var q := BuildQuote(lines, Some(user), birthday, now).value;
      && q.fechaVencimiento == now + 86400000
      && |q.lines| == |lines|
      && (forall k :: 0 <= k < |lines| ==>
            q.lines[k].nombreVino == lines[k].nombre && q.lines[k].cantidad == lines[k].cantidad
            && q.lines[k].precioUnitario == lines[k].precio
            && q.lines[k].subtotal == lines[k].precio * lines[k].cantidad as real)
      && QuoteSum(q.lines) == q.total + q.descuentoAplicado
  {
    QuoteSumIsCartTotal(lines);
  }
}
