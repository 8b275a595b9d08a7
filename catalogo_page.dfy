/** The catalogue page (src/pages/CatalogoVinosPage.tsx): the filter and sort that build
    `vinosFiltrados`, the `paises` list for the country select, and `agregarAlCarrito`.
    `birthday` is the page's `isBirthdayToday`. */
module CatalogoPage {
  import opened Wrappers
  import Seqs
  import Text
  import Cart
  import opened Store
  import opened Birthday

  /** The `ordenamiento` select; `Sin` is any other value, whose comparator returns 0. */
  datatype Ordenamiento = PrecioAsc | PrecioDesc | PorNombre | PorPais | Sin

  /** The page's filter state: `filtroTipo`, `filtroPais`, `busqueda`, `precioMin`,
      `precioMax`. */
  datatype Filtros = Filtros(tipo: string, pais: string, busqueda: string,
                             precioMin: real, precioMax: real)

  /** `precioFinal`: the price shown and filtered on, discounted on the birthday. */
  function PrecioFinal(v: Wine, birthday: bool): real
  {
    if birthday then ApplyBirthdayDiscount(v.precio) else v.precio
  }

  /** The `vinos.filter` callback: type, country, search in name or region, and price
      range. */
  function ListedPred(f: Filtros, birthday: bool): Wine -> bool
  {
    (v: Wine) =>
      var search := Text.Lower(f.busqueda);
      && (f.tipo == "Todos" || v.tipo == f.tipo)
      && (f.pais == "Todos" || v.pais == f.pais)
      && (Text.Contains(Text.Lower(v.nombre), search) || Text.Contains(Text.Lower(v.region), search))
      && f.precioMin <= PrecioFinal(v, birthday) <= f.precioMax
  }

  /** The `resultado.sort` comparator, as "`a` may precede `b`": `cmp(a, b) <= 0`. */
  function Comparator(ord: Ordenamiento, birthday: bool): (Wine, Wine) -> bool
  {
    match ord
    case PrecioAsc => (a: Wine, b: Wine) => PrecioFinal(a, birthday) - PrecioFinal(b, birthday) <= 0.0
    case PrecioDesc => (a: Wine, b: Wine) => PrecioFinal(b, birthday) - PrecioFinal(a, birthday) <= 0.0
    case PorNombre => (a: Wine, b: Wine) => Text.StrLe(a.nombre, b.nombre)
    case PorPais => (a: Wine, b: Wine) => Text.StrLe(a.pais, b.pais)
    case Sin => (a: Wine, b: Wine) => true
  }

  /** `vinosFiltrados`: the loaded wines that pass the filter, sorted (stably) by the
      chosen comparator. */
  function VinosFiltrados(vinos: seq<Wine>, f: Filtros, ord: Ordenamiento, birthday: bool): seq<Wine>
  {
    Seqs.SortBy(Seqs.Filter(vinos, ListedPred(f, birthday)), Comparator(ord, birthday))
  }

  /** Every choice of comparator orders the wines consistently. */
  lemma ComparatorTotalPreorder(ord: Ordenamiento, birthday: bool)
    ensures Seqs.TotalPreorder(Comparator(ord, birthday))
  {
    if ord.PorNombre? || ord.PorPais? {
      Text.StrLeTotalPreorder();
    }
  }

  /** A wine is listed exactly when it passes all four checks, as often as it is loaded;
      the price range is checked against the discounted price on the birthday. */
  lemma ListedExactly(vinos: seq<Wine>, f: Filtros, ord: Ordenamiento, birthday: bool, v: Wine)
    ensures var r := VinosFiltrados(vinos, f, ord, birthday);
      multiset(r)[v] ==
        if && (f.tipo == "Todos" || v.tipo == f.tipo)
           && (f.pais == "Todos" || v.pais == f.pais)
           && (Text.Contains(Text.Lower(v.nombre), Text.Lower(f.busqueda))
               || Text.Contains(Text.Lower(v.region), Text.Lower(f.busqueda)))
           && f.precioMin <= PrecioFinal(v, birthday) <= f.precioMax
        then multiset(vinos)[v] else 0
  {
    Seqs.FilterCount(vinos, ListedPred(f, birthday), v);
  }

  /** An empty search and the widest choices keep every wine whose price is in range. */
  lemma NoFilterListsAllInRange(vinos: seq<Wine>, lo: real, hi: real, ord: Ordenamiento, birthday: bool)
    requires forall k :: 0 <= k < |vinos| ==> lo <= PrecioFinal(vinos[k], birthday) <= hi
    ensures multiset(VinosFiltrados(vinos, Filtros("Todos", "Todos", "", lo, hi), ord, birthday))
      == multiset(vinos)
  {
    var p := ListedPred(Filtros("Todos", "Todos", "", lo, hi), birthday);
    forall k | 0 <= k < |vinos| ensures p(vinos[k]) {
      Text.ContainsEmpty(Text.Lower(vinos[k].nombre));
    }
    Seqs.FilterAll(vinos, p);
  }

  /** Under `precio-asc` the list rises in effective price, under `precio-desc` it falls,
      under `nombre` and `pais` it is in order of name and of country. */
  lemma SortedByChoice(vinos: seq<Wine>, f: Filtros, ord: Ordenamiento, birthday: bool)
    ensures var r := VinosFiltrados(vinos, f, ord, birthday);
      && (ord == PrecioAsc ==>
            forall i, j :: 0 <= i < j < |r| ==> PrecioFinal(r[i], birthday) <= PrecioFinal(r[j], birthday))
      && (ord == PrecioDesc ==>
            forall i, j :: 0 <= i < j < |r| ==> PrecioFinal(r[i], birthday) >= PrecioFinal(r[j], birthday))
      && (ord == PorNombre ==> forall i, j :: 0 <= i < j < |r| ==> Text.StrLe(r[i].nombre, r[j].nombre))
      && (ord == PorPais ==> forall i, j :: 0 <= i < j < |r| ==> Text.StrLe(r[i].pais, r[j].pais))
  {
    ComparatorTotalPreorder(ord, birthday);
    Seqs.SortBySorted(Seqs.Filter(vinos, ListedPred(f, birthday)), Comparator(ord, birthday));
  }

  /** Any other ordering value keeps the filtered wines in the order they were loaded. */
  lemma UnknownOrderKeepsLoadOrder(vinos: seq<Wine>, f: Filtros, birthday: bool)
    ensures VinosFiltrados(vinos, f, Sin, birthday) == Seqs.Filter(vinos, ListedPred(f, birthday))
  {
    Seqs.SortByAllTied(Seqs.Filter(vinos, ListedPred(f, birthday)), Comparator(Sin, birthday));
  }

  /** On the birthday both price orders agree with the order of list prices. */
  lemma BirthdayKeepsPriceOrder(vinos: seq<Wine>, f: Filtros)
    ensures var r := VinosFiltrados(vinos, f, PrecioAsc, true);
      forall i, j :: 0 <= i < j < |r| ==> r[i].precio <= r[j].precio
  {
    SortedByChoice(vinos, f, PrecioAsc, true);
    var r := VinosFiltrados(vinos, f, PrecioAsc, true);
    forall i, j | 0 <= i < j < |r| ensures r[i].precio <= r[j].precio {
      DiscountMonotone(r[i].precio, r[j].precio);
    }
  }

  /** `vinos.map(v => v.pais)` */
  function Countries(vinos: seq<Wine>): (r: seq<string>)
    ensures |r| == |vinos|
    ensures forall k :: 0 <= k < |vinos| ==> r[k] == vinos[k].pais
  {
    seq(|vinos|, k requires 0 <= k < |vinos| => vinos[k].pais)
  }

  /** `['Todos', ...new Set(countries)].sort()`; the default sort compares strings as
      `Text.StrLe` does, so `Todos` is placed among the countries, not necessarily first. */
  function Paises(vinos: seq<Wine>): seq<string>
  {
    Seqs.SortBy(["Todos"] + Seqs.Dedup(Countries(vinos)), (a: string, b: string) => Text.StrLe(a, b))
  }

  /** The country list is in order and holds `Todos` and every loaded country, each
      other country exactly once. */
  lemma PaisesListsEachCountryOnce(vinos: seq<Wine>)
    ensures var r := Paises(vinos);
      && "Todos" in r
      && (forall k :: 0 <= k < |vinos| ==> vinos[k].pais in r)
      && (forall c :: c != "Todos" ==> multiset(r)[c] == if c in Countries(vinos) then 1 else 0)
      && forall i, j :: 0 <= i < j < |r| ==> Text.StrLe(r[i], r[j])
  {
    var le := (a: string, b: string) => Text.StrLe(a, b);
    var d := Seqs.Dedup(Countries(vinos));
    var r := Paises(vinos);
    assert multiset(r) == multiset(["Todos"] + d);
    assert "Todos" in multiset(r);
    forall c | c != "Todos" ensures multiset(r)[c] == if c in Countries(vinos) then 1 else 0 {
      Seqs.DistinctCount(d, c);
    }
    forall k | 0 <= k < |vinos| ensures vinos[k].pais in r {
      var c := vinos[k].pais;
      assert c in Countries(vinos);
      assert c in multiset(["Todos"] + d);
    }
    Text.StrLeTotalPreorder();
    assert Seqs.TotalPreorder(le);
    Seqs.SortBySorted(["Todos"] + d, le);
  }

  /** The product `agregarAlCarrito` hands to the cart: the shown price, discounted on
      the birthday. */
  function ProductOf(v: Wine, birthday: bool): Cart.CartProduct
  {
    Cart.CartProduct(v.id, v.nombre, PrecioFinal(v, birthday), v.imagen, v.stock)
  }

  /** How `agregarAlCarrito` ends. */
  datatype AddOutcome = SinStock | SinId | Agregado | Rechazado

  /** The cart `agregarAlCarrito` saves, or `None` when it saves nothing: no stock, no
      id, or a refusal by `addToCart`. */
  function AgregarResult(lines: seq<Cart.CartItem>, v: Wine, birthday: bool): Option<seq<Cart.CartItem>>
  {
    if v.stock == 0 || v.id == "" then None else Cart.AddResult(lines, ProductOf(v, birthday), 1)
  }

  method AgregarAlCarrito(cart: Cart.CartStorage, v: Wine, birthday: bool) returns (o: AddOutcome)
    modifies cart
    ensures o == Agregado <==> AgregarResult(old(cart.GetCart()), v, birthday).Some?
    ensures o == Agregado ==> cart.slot == Cart.Stored(AgregarResult(old(cart.GetCart()), v, birthday).value)
    ensures o != Agregado ==> cart.slot == old(cart.slot)
    ensures o == SinStock <==> v.stock == 0
  {
    if v.stock == 0 {
      return SinStock;
    }
    if v.id == "" {
      return SinId;
    }
    var ok := cart.AddToCart(ProductOf(v, birthday), 1);
    o := if ok then Agregado else Rechazado;
  }

  /** A wine with stock that is not yet in the cart is added as one bottle at the shown
      price, at the end, and the cart's item count rises by one. */
  lemma AgregarAddsOneBottle(lines: seq<Cart.CartItem>, v: Wine, birthday: bool)
    requires v.stock >= 1 && v.id != ""
    requires forall k :: 0 <= k < |lines| ==> lines[k].vinoId != v.id
    ensures AgregarResult(lines, v, birthday)
      == Some(lines + [Cart.CartItem(v.id, v.nombre, PrecioFinal(v, birthday), 1, v.imagen, v.stock)])
    ensures Cart.Count(AgregarResult(lines, v, birthday).value) == Cart.Count(lines) + 1
  {
    Cart.AddNewAppends(lines, ProductOf(v, birthday), 1);
    Cart.AddRaisesCount(lines, ProductOf(v, birthday), 1);
  }

  /** The stock guard only catches exactly zero: a negative stock passes it and the cart
      then refuses the bottle, leaving the cart as it was. */
  lemma NegativeStockRefusedByCart(lines: seq<Cart.CartItem>, v: Wine, birthday: bool)
    requires v.stock < 0 && v.id != ""
    requires forall k :: 0 <= k < |lines| && lines[k].vinoId == v.id ==> lines[k].cantidad >= 0
    ensures AgregarResult(lines, v, birthday) == None
  {
    Cart.AddRefusedIff(lines, ProductOf(v, birthday), 1);
  }
}
