/** The shopping cart kept in the browser's `wine_cart` storage slot (src/utils/cartUtils.ts). */
module Cart {
  import opened Wrappers
  import Seqs

  /** `CartItem`: one cart line. `stock` is the ceiling that was known when the line
      was added. */
  datatype CartItem = CartItem(vinoId: string, nombre: string, precio: real, cantidad: int,
                               imagenUrl: Option<string>, stock: int)

  /** `Omit<CartItem, 'cantidad'>`: what a page hands to `addToCart`. */
  datatype CartProduct = CartProduct(vinoId: string, nombre: string, precio: real,
                                     imagenUrl: Option<string>, stock: int)

  /** `{ ...vino, cantidad }` */
  function LineOf(p: CartProduct, cantidad: int): CartItem
  {
    CartItem(p.vinoId, p.nombre, p.precio, cantidad, p.imagenUrl, p.stock)
  }

  /** What the storage slot holds: nothing, text that does not parse, or a list of lines. */
  datatype Slot = NoEntry | Unparsable | Stored(lines: seq<CartItem>)

  /** No two lines share a `vino_id`. */
  ghost predicate UniqueIds(lines: seq<CartItem>)
  {
    forall i, j :: 0 <= i < j < |lines| ==> lines[i].vinoId != lines[j].vinoId
  }

  /** `findIndex(item => item.vino_id === id)`: the first matching position, or -1. */
  function FindIndex(lines: seq<CartItem>, id: string): (i: int)
    ensures -1 <= i < |lines|
    ensures i >= 0 ==> lines[i].vinoId == id && forall k :: 0 <= k < i ==> lines[k].vinoId != id
    ensures i == -1 <==> forall k :: 0 <= k < |lines| ==> lines[k].vinoId != id
  {
    if lines == [] then -1
    else if lines[0].vinoId == id then 0
    else
      var j := FindIndex(lines[1..], id);
      if j == -1 then -1 else j + 1
  }

  /** Line `k` is the first line of the wine `id`. */
  predicate FirstLineOf(lines: seq<CartItem>, id: string, k: int)
  {
    0 <= k < |lines| && lines[k].vinoId == id && forall j :: 0 <= j < k ==> lines[j].vinoId != id
  }

  /** `cart.filter(item => item.vino_id !== id)` */
  function Without(lines: seq<CartItem>, id: string): seq<CartItem>
  {
    Seqs.Filter(lines, (l: CartItem) => l.vinoId != id)
  }

  /** The `getCartTotal` reduce: the sum of `precio * cantidad`, added left to right. */
  function Total(lines: seq<CartItem>): real
  {
    if lines == [] then 0.0
    else Total(lines[..|lines| - 1]) + lines[|lines| - 1].precio * lines[|lines| - 1].cantidad as real
  }

  /** The `getCartCount` reduce: the sum of `cantidad`. */
  function Count(lines: seq<CartItem>): int
  {
    if lines == [] then 0
    else Count(lines[..|lines| - 1]) + lines[|lines| - 1].cantidad
  }

  /** The cart `addToCart` saves, or `None` when it refuses (and saves nothing). */
  function AddResult(lines: seq<CartItem>, p: CartProduct, cantidad: int): Option<seq<CartItem>>
  {
    var i := FindIndex(lines, p.vinoId);
    if i >= 0 then
      var newCantidad := lines[i].cantidad + cantidad;
      if newCantidad > p.stock then None
      else Some(lines[i := lines[i].(cantidad := newCantidad)])
    else if cantidad > p.stock then None
    else Some(lines + [LineOf(p, cantidad)])
  }

  /** The cart `updateQuantity` saves, or `None` when it returns false without saving. */
  function UpdateResult(lines: seq<CartItem>, id: string, cantidad: int): Option<seq<CartItem>>
  {
    var i := FindIndex(lines, id);
    if i == -1 then None
    else if cantidad <= 0 then Some(Without(lines, id))
    else if cantidad > lines[i].stock then None
    else Some(lines[i := lines[i].(cantidad := cantidad)])
  }

  /** The storage slot and the operations that read and write it. */
  class CartStorage {
    var slot: Slot

    constructor ()
      ensures slot == NoEntry
    {
      slot := NoEntry;
    }

    /** `getCart()`: a missing or unparsable slot reads as the empty cart. */
    function GetCart(): (r: seq<CartItem>)
      reads this
      ensures slot.Stored? ==> r == slot.lines
      ensures !slot.Stored? ==> r == []
    {
      if slot.Stored? then slot.lines else []
    }

    /** `getCartTotal()` */
    function GetCartTotal(): (r: real)
      reads this
      ensures !slot.Stored? ==> r == 0.0
      ensures slot.Stored? ==> r == Total(slot.lines)
    {
      Total(GetCart())
    }

    /** `getCartCount()` */
    function GetCartCount(): (r: int)
      reads this
      ensures !slot.Stored? ==> r == 0
      ensures slot.Stored? ==> r == Count(slot.lines)
    {
      Count(GetCart())
    }

    /** `saveCart(cart)`; the `cartUpdated` event is not modelled. */
    method SaveCart(cart: seq<CartItem>)
      modifies this
      ensures slot == Stored(cart)
    {
      slot := Stored(cart);
    }

    /** `addToCart(vino, cantidad)` */
    method AddToCart(vino: CartProduct, cantidad: int) returns (ok: bool)
      modifies this
      ensures ok == AddResult(old(GetCart()), vino, cantidad).Some?
      ensures ok ==> slot == Stored(AddResult(old(GetCart()), vino, cantidad).value)
      ensures !ok ==> slot == old(slot)
    {
      var cart := GetCart();
      var existingIndex := FindIndex(cart, vino.vinoId);
      if existingIndex >= 0 {
        var newCantidad := cart[existingIndex].cantidad + cantidad;
        if newCantidad > vino.stock {
          return false;
        }
        cart := cart[existingIndex := cart[existingIndex].(cantidad := newCantidad)];
      } else {
        if cantidad > vino.stock {
          return false;
        }
        cart := cart + [LineOf(vino, cantidad)];
      }
      SaveCart(cart);
      ok := true;
    }

    /** `removeFromCart(vinoId)`: saves the filtered cart, even when nothing matched. */
    method RemoveFromCart(vinoId: string)
      modifies this
      ensures slot == Stored(Without(old(GetCart()), vinoId))
    {
      var cart := GetCart();
      var filtered := Without(cart, vinoId);
      SaveCart(filtered);
    }

    /** `updateQuantity(vinoId, cantidad)` */
    method UpdateQuantity(vinoId: string, cantidad: int) returns (ok: bool)
      modifies this
      ensures ok == UpdateResult(old(GetCart()), vinoId, cantidad).Some?
      ensures ok ==> slot == Stored(UpdateResult(old(GetCart()), vinoId, cantidad).value)
      ensures !ok ==> slot == old(slot)
    {
      var cart := GetCart();
      var itemIndex := FindIndex(cart, vinoId);
      if itemIndex == -1 {
        return false;
      }
      if cantidad <= 0 {
        RemoveFromCart(vinoId);
        return true;
      }
      if cantidad > cart[itemIndex].stock {
        return false;
      }
      cart := cart[itemIndex := cart[itemIndex].(cantidad := cantidad)];
      SaveCart(cart);
      ok := true;
    }

    /** `clearCart()`: removes the slot, so the cart, its total and its count are empty. */
    method ClearCart()
      modifies this
      ensures slot == NoEntry
      ensures GetCart() == [] && GetCartTotal() == 0.0 && GetCartCount() == 0
    {
      slot := NoEntry;
    }
  }

  // ---------------------------------------------------------------------------------
  // Properties of the totals

  /** The total of two carts laid end to end is the sum of their totals. */
  lemma {:induction false} TotalConcat(a: seq<CartItem>, b: seq<CartItem>)
    ensures Total(a + b) == Total(a) + Total(b)
    decreases |b|
  {
    if b == [] {
      assert a + b == a;
    } else {
      TotalConcat(a, b[..|b| - 1]);
      assert (a + b)[..|a + b| - 1] == a + b[..|b| - 1];
    }
  }

  /** The count of two carts laid end to end is the sum of their counts. */
  lemma {:induction false} CountConcat(a: seq<CartItem>, b: seq<CartItem>)
    ensures Count(a + b) == Count(a) + Count(b)
    decreases |b|
  {
    if b == [] {
      assert a + b == a;
    } else {
      CountConcat(a, b[..|b| - 1]);
      assert (a + b)[..|a + b| - 1] == a + b[..|b| - 1];
    }
  }

  /** Changing one line's quantity changes the count by the difference. */
  lemma CountUpdate(lines: seq<CartItem>, i: int, cantidad: int)
    requires 0 <= i < |lines|
    ensures Count(lines[i := lines[i].(cantidad := cantidad)]) == Count(lines) - lines[i].cantidad + cantidad
  {
    var updated := lines[i := lines[i].(cantidad := cantidad)];
    assert lines == lines[..i] + [lines[i]] + lines[i + 1..];
    assert updated == lines[..i] + [updated[i]] + lines[i + 1..];
    CountConcat(lines[..i] + [lines[i]], lines[i + 1..]);
    CountConcat(lines[..i], [lines[i]]);
    CountConcat(lines[..i] + [updated[i]], lines[i + 1..]);
    CountConcat(lines[..i], [updated[i]]);
  }

  /** With non-negative prices and quantities the total is non-negative. */
  lemma {:induction false} TotalNonNegative(lines: seq<CartItem>)
    requires forall k :: 0 <= k < |lines| ==> lines[k].precio >= 0.0 && lines[k].cantidad >= 0
    ensures Total(lines) >= 0.0
  {
    if lines != [] {
      TotalNonNegative(lines[..|lines| - 1]);
    }
  }

  // ---------------------------------------------------------------------------------
  // Properties of addToCart

  /** `addToCart` refuses exactly when the resulting quantity of that wine would exceed
      the `stock` passed in; a refused call leaves the cart as it was. */
  lemma AddRefusedIff(lines: seq<CartItem>, p: CartProduct, cantidad: int)
    ensures AddResult(lines, p, cantidad).None? <==>
      (exists k :: FirstLineOf(lines, p.vinoId, k) && lines[k].cantidad + cantidad > p.stock)
      || ((forall k :: 0 <= k < |lines| ==> lines[k].vinoId != p.vinoId) && cantidad > p.stock)
  {
    var i := FindIndex(lines, p.vinoId);
    if i >= 0 {
      assert FirstLineOf(lines, p.vinoId, i);
      forall k | FirstLineOf(lines, p.vinoId, k) ensures k == i {
        assert !(k < i) && !(i < k);
      }
    }
  }

  /** Under unique ids the line that `addToCart` merges into is simply the line of that
      wine: the call is refused exactly when that line's quantity plus the new one
      exceeds the stock, or, with no such line, when the new quantity alone does. */
  lemma AddRefusedIffUnique(lines: seq<CartItem>, p: CartProduct, cantidad: int)
    requires UniqueIds(lines)
    ensures AddResult(lines, p, cantidad).None? <==>
      (exists k :: 0 <= k < |lines| && lines[k].vinoId == p.vinoId && lines[k].cantidad + cantidad > p.stock)
      || ((forall k :: 0 <= k < |lines| ==> lines[k].vinoId != p.vinoId) && cantidad > p.stock)
  {
    AddRefusedIff(lines, p, cantidad);
    if exists k :: 0 <= k < |lines| && lines[k].vinoId == p.vinoId && lines[k].cantidad + cantidad > p.stock {
      var k :| 0 <= k < |lines| && lines[k].vinoId == p.vinoId && lines[k].cantidad + cantidad > p.stock;
      assert FirstLineOf(lines, p.vinoId, k);
    }
  }

  /** A wine already in the cart never gets a second line: `addToCart` raises the
      quantity of its line, so the ids stay unique. */
  lemma AddKeepsIdsUnique(lines: seq<CartItem>, p: CartProduct, cantidad: int)
    requires UniqueIds(lines)
    requires AddResult(lines, p, cantidad).Some?
    ensures UniqueIds(AddResult(lines, p, cantidad).value)
  {
    var i := FindIndex(lines, p.vinoId);
    var r := AddResult(lines, p, cantidad).value;
    if i == -1 {
      assert r == lines + [LineOf(p, cantidad)];
      forall a, b | 0 <= a < b < |r| ensures r[a].vinoId != r[b].vinoId {
        if b == |lines| {
          assert r[a] == lines[a];
        } else {
          assert r[a] == lines[a] && r[b] == lines[b];
        }
      }
    } else {
      assert forall k :: 0 <= k < |r| ==> r[k].vinoId == lines[k].vinoId;
    }
  }

  /** Adding a wine that is not in the cart, within stock, appends one line with the
      given quantity and leaves the earlier lines as they were. */
  lemma AddNewAppends(lines: seq<CartItem>, p: CartProduct, cantidad: int)
    requires forall k :: 0 <= k < |lines| ==> lines[k].vinoId != p.vinoId
    requires cantidad <= p.stock
    ensures AddResult(lines, p, cantidad) == Some(lines + [LineOf(p, cantidad)])
    ensures var r := AddResult(lines, p, cantidad).value;
      |r| == |lines| + 1 && r[..|lines|] == lines && r[|lines|].cantidad == cantidad
  {
    assert FindIndex(lines, p.vinoId) == -1;
    assert (lines + [LineOf(p, cantidad)])[..|lines|] == lines;
  }

  /** Adding a wine that is already in the cart, within stock, only raises that line's
      quantity. */
  lemma AddExistingMerges(lines: seq<CartItem>, p: CartProduct, cantidad: int, i: int)
    requires UniqueIds(lines)
    requires 0 <= i < |lines| && lines[i].vinoId == p.vinoId
    requires lines[i].cantidad + cantidad <= p.stock
    ensures var r := AddResult(lines, p, cantidad);
      r.Some? && |r.value| == |lines|
      && r.value[i] == lines[i].(cantidad := lines[i].cantidad + cantidad)
      && forall k :: 0 <= k < |lines| && k != i ==> r.value[k] == lines[k]
  {
    assert FindIndex(lines, p.vinoId) == i;
  }

  /** A successful `addToCart` raises the item count by exactly `cantidad`. */
  lemma AddRaisesCount(lines: seq<CartItem>, p: CartProduct, cantidad: int)
    requires AddResult(lines, p, cantidad).Some?
    ensures Count(AddResult(lines, p, cantidad).value) == Count(lines) + cantidad
  {
    var i := FindIndex(lines, p.vinoId);
    if i >= 0 {
      CountUpdate(lines, i, lines[i].cantidad + cantidad);
    } else {
      CountConcat(lines, [LineOf(p, cantidad)]);
      assert Count([LineOf(p, cantidad)]) == cantidad by {
        assert [LineOf(p, cantidad)][..0] == [];
      }
    }
  }

  // ---------------------------------------------------------------------------------
  // Properties of removeFromCart and updateQuantity

  /** `removeFromCart` drops every line of that wine and keeps every other line, in
      the original order. */
  lemma RemoveKeepsOthers(lines: seq<CartItem>, id: string)
    ensures forall k :: 0 <= k < |Without(lines, id)| ==> Without(lines, id)[k].vinoId != id
    ensures forall l :: l in Without(lines, id) <==> l in lines && l.vinoId != id
    ensures Seqs.IsSubsequence(Without(lines, id), lines)
  {
    var r := Without(lines, id);
    forall k | 0 <= k < |r| ensures r[k].vinoId != id {
      assert r[k] in r;
    }
    Seqs.FilterIsSubsequence(lines, (l: CartItem) => l.vinoId != id);
  }

  /** With unique ids, removing a wine cuts exactly its one line out of the cart. */
  lemma RemoveCutsLine(lines: seq<CartItem>, i: int)
    requires UniqueIds(lines)
    requires 0 <= i < |lines|
    ensures Without(lines, lines[i].vinoId) == lines[..i] + lines[i + 1..]
  {
    RemoveCutsOnly(lines, i);
  }

  lemma {:induction false} RemoveCutsOnly(lines: seq<CartItem>, i: int)
    requires 0 <= i < |lines|
    requires forall k :: 0 <= k < |lines| && k != i ==> lines[k].vinoId != lines[i].vinoId
    ensures Without(lines, lines[i].vinoId) == lines[..i] + lines[i + 1..]
  {
    var id := lines[i].vinoId;
    var tail := lines[1..];
    if i == 0 {
      FilterKeepsAll(tail, id);
    } else {
      assert tail[i - 1] == lines[i];
      RemoveCutsOnly(tail, i - 1);
      assert lines[..i] == [lines[0]] + tail[..i - 1];
      assert lines[i + 1..] == tail[i..];
    }
  }

  /** A filter whose id occurs in no line keeps every line. */
  lemma {:induction false} FilterKeepsAll(lines: seq<CartItem>, id: string)
    requires forall k :: 0 <= k < |lines| ==> lines[k].vinoId != id
    ensures Without(lines, id) == lines
  {
    if lines != [] {
      FilterKeepsAll(lines[1..], id);
      assert lines == [lines[0]] + lines[1..];
    }
  }

  /** `updateQuantity` on a wine not in the cart returns false and saves nothing;
      with a quantity of zero or less it removes the line. */
  lemma UpdateUnknownOrRemove(lines: seq<CartItem>, id: string, cantidad: int)
    ensures (forall k :: 0 <= k < |lines| ==> lines[k].vinoId != id) ==> UpdateResult(lines, id, cantidad) == None
    ensures (exists k :: 0 <= k < |lines| && lines[k].vinoId == id) && cantidad <= 0
      ==> UpdateResult(lines, id, cantidad) == Some(Without(lines, id))
  {
  }

  /** Above the line's stored stock `updateQuantity` refuses; otherwise only that line's
      quantity changes, and the count moves by the difference. */
  lemma UpdateChangesOneLine(lines: seq<CartItem>, i: int, cantidad: int)
    requires UniqueIds(lines)
    requires 0 <= i < |lines| && cantidad > 0
    ensures cantidad > lines[i].stock ==> UpdateResult(lines, lines[i].vinoId, cantidad) == None
    ensures cantidad <= lines[i].stock ==>
      var r := UpdateResult(lines, lines[i].vinoId, cantidad);
      && r.Some? && |r.value| == |lines|
      && r.value[i] == lines[i].(cantidad := cantidad)
      && (forall k :: 0 <= k < |lines| && k != i ==> r.value[k] == lines[k])
      && Count(r.value) == Count(lines) - lines[i].cantidad + cantidad
  {
    assert FindIndex(lines, lines[i].vinoId) == i;
    CountUpdate(lines, i, cantidad);
  }
}
