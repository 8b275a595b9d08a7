# Wine & Cheese shop: a verified model of the shop's core

This project models the core of a React/TypeScript wine shop backed by a hosted
database. It covers:

- the shopping cart kept in the browser's `wine_cart` storage slot (`cartUtils.ts`);
- the signed-in user and the role checks (`auth.ts`);
- the birthday check and the 15% birthday discount (`birthday.ts`);
- the wine service over the `vinos` table (`wineService.ts`);
- the order service: the pending-order check, order creation with its stock check and
  stock decrement, and status changes that may return stock (`orderService.ts`);
- the catalogue page's filter, sort, country list and "add to cart" (`CatalogoVinosPage.tsx`);
- the cart page's checkout arithmetic, checkout guards and quote (`CarritoPage.tsx`);
- the wine administration page's filters and handlers (`AdminWines.tsx`);
- the registration form's checks (`registro.tsx`).

The database is held in memory as three tables (`Store.Tables`). A `Store.Database`
object holds them as fields that the service methods update in place. Every store call
may fail:

- the order service takes a set `faults` that names the calls that fail in one run;
- the wine service takes a flag `fails`.

Each contract therefore covers every combination of failures. The cart and the user
live in storage-slot objects (`Cart.CartStorage`, `Auth.Session`). Each slot holds
nothing, unparsable text, or a value. The pages' handlers are methods over these objects.
Each method is proved equal to a specification function, and the lemmas about that
function state what the code promises.

Module layout: `Wrappers` (Option/Result), `Seqs` (filter, stable insertion sort,
dedup), `Text` (trim, lower case, `includes`, `parseInt`, `split`, string order),
`Store`, `Cart`, `Auth`, `Birthday`, `WineService`, `OrderService`, `OrderProperties`,
`CatalogoPage`, `CarritoPage`, `AdminWines`, `Registro`.

### Behaviour of the code worth knowing

- `createOrder` checks every cart line against the stock read before any decrement, and
  it does not roll back. Two cart lines for one wine can each pass the check. When their
  sum exceeds the stock, the order header and lines stay written, the first decrement
  stays applied, and `null` is returned (`OrderProperties.DuplicateLinesNoRollback`).
  `addToCart` never creates such a cart (`Cart.AddKeepsIdsUnique`). A cart of distinct
  wines is debited exactly (`OrderProperties.DistinctOrderDecrementsStock`).
- `checkPendingOrder` fails open: an error of its query reads as "no pending order".
  Because the query ends in `.single()`, a customer with two pending orders also reads
  as having none (`OrderService.TwoPendingReadAsNone`,
  `OrderProperties.FailOpenAllowsSecondPending`).
- `updateOrderStatus` does not look at the current status. Cancelling the same order
  twice with `returnStock` gives its stock back twice
  (`OrderProperties.RepeatedCancelRestoresTwice`).
- On the customer's birthday the catalogue puts the already discounted price into the
  cart. The cart page then discounts the subtotal again. The customer pays 0.85 × 0.85
  of the list price (`CarritoPage.CheckoutDiscountsTwice`,
  `CarritoPage.SingleBottleDiscountedTwice`).
- `createOrder` does not refuse an empty cart; only the cart page does.
- The order's `total` is the discounted total. The lines' subtotals add up to the
  undiscounted cart total (`OrderProperties.OrderLinesCopyCart`).
- `handleDelete` on the admin page reports success even when `deleteWine` returned
  `false` (`AdminWines.DeleteReportsSuccessOnStoreError`).
- The admin stock field sends `parseInt(value) || 0`, so clearing the field sets the
  stock to 0 (`AdminWines.ClearedStockFieldZeroesStock`).
- The admin "low stock" filter keeps `0 < stock <= stock_minimo`, but the table's warning
  icon shows for `stock <= stock_minimo`. An out-of-stock wine carries the icon and is not
  listed under "low" (`AdminWines.OutOfStockIconButNotLow`).
- The catalogue's country list sorts `'Todos'` together with the countries, so it is
  not necessarily first (`CatalogoPage.PaisesListsEachCountryOnce`).
- The catalogue's stock guard only catches a stock of exactly 0. A negative stock gets
  past it and is then refused by `addToCart` (`CatalogoPage.NegativeStockRefusedByCart`).
- The admin toggle writes back the page's copy of the whole row with `activo` flipped,
  not only the flag.

## Model

| member | source | states |
|---|---|---|
| Cart.FindIndex | src/utils/cartUtils.ts:30 | the first position whose `vino_id` matches, or -1 exactly when no line matches |
| Cart.CartStorage.GetCart | src/utils/cartUtils.ts:13-20 | a missing or unparsable slot reads as the empty cart; otherwise the stored lines |
| Cart.CartStorage.SaveCart | src/utils/cartUtils.ts:22-26 | the slot holds exactly the given lines |
| Cart.CartStorage.AddToCart | src/utils/cartUtils.ts:28-51 | returns true exactly when the add is accepted, saves the merged or appended cart then, and leaves the slot untouched on refusal |
| Cart.AddRefusedIff | src/utils/cartUtils.ts:28-47 | the add is refused exactly when the first line of that wine, raised by the added quantity, would exceed the stock, or, with no line of that wine, when the added quantity alone exceeds it |
| Cart.AddRefusedIffUnique | src/utils/cartUtils.ts:28-47 | in a cart with one line per wine, the add is refused exactly when that wine's line plus the added quantity exceeds the stock, or, with no such line, when the added quantity alone does |
| Cart.AddKeepsIdsUnique | src/utils/cartUtils.ts:30-47 | a cart without repeated wines never gets a second line for one wine |
| Cart.AddNewAppends | src/utils/cartUtils.ts:40-47 | a wine not yet in the cart is appended as one line with the given quantity |
| Cart.AddExistingMerges | src/utils/cartUtils.ts:32-39 | a wine already in the cart only has that line's quantity raised; every other line is kept |
| Cart.AddRaisesCount | src/utils/cartUtils.ts:28-51 | a successful add raises the item count by exactly the added quantity |
| Cart.CartStorage.RemoveFromCart | src/utils/cartUtils.ts:53-57 | saves the cart without the wine's lines, even when nothing matched |
| Cart.RemoveKeepsOthers | src/utils/cartUtils.ts:55 | removing drops every line of that wine and keeps all other lines in order |
| Cart.RemoveCutsLine | src/utils/cartUtils.ts:55 | with unique ids, removing cuts exactly that wine's one line |
| Cart.RemoveCutsOnly | src/utils/cartUtils.ts:55 | a line whose wine occurs nowhere else is the only line removed |
| Cart.FilterKeepsAll | src/utils/cartUtils.ts:55 | removing a wine that is not in the cart keeps every line |
| Cart.CartStorage.UpdateQuantity | src/utils/cartUtils.ts:59-78 | returns true exactly when the update is accepted, saves the new cart then, and otherwise leaves the slot untouched |
| Cart.UpdateUnknownOrRemove | src/utils/cartUtils.ts:59-70 | an unknown wine is refused; a quantity of 0 or less removes the line |
| Cart.UpdateChangesOneLine | src/utils/cartUtils.ts:71-77 | above the line's stored stock the update is refused; otherwise only that line's quantity changes |
| Cart.CountUpdate | src/utils/cartUtils.ts:74-77 | changing one line's quantity changes the item count by the difference |
| Cart.CartStorage.ClearCart | src/utils/cartUtils.ts:80-83 | the slot is removed, so the cart, its total and its count are empty |
| Cart.CartStorage.GetCartTotal | src/utils/cartUtils.ts:85-88 | the sum of price times quantity over the stored lines, 0 for an empty slot |
| Cart.CartStorage.GetCartCount | src/utils/cartUtils.ts:90-93 | the sum of the quantities over the stored lines, 0 for an empty slot |
| Cart.TotalConcat | src/utils/cartUtils.ts:85-88 | the total of two carts laid end to end is the sum of their totals |
| Cart.CountConcat | src/utils/cartUtils.ts:90-93 | the count of two carts laid end to end is the sum of their counts |
| Cart.TotalNonNegative | src/utils/cartUtils.ts:85-88 | with non-negative prices and quantities the total is non-negative |
| Auth.Session.GetCurrentUser | src/auth.ts:13-22 | null when nothing is stored or the text does not parse; otherwise the stored user |
| Auth.Session.SetCurrentUser | src/auth.ts:24-26 | the slot holds the user and reads back as that user |
| Auth.Session.ClearCurrentUser | src/auth.ts:28-30 | the slot is removed; no user, no admin, no edit rights |
| Auth.CanEdit | src/auth.ts:35-47 | no user may not edit; an admin always may; anyone else exactly when the flag is true |
| Birthday.IsBirthday | src/utils/birthday.ts:7-37 | a missing or empty birth date is never a birthday |
| Birthday.SplitDate | src/utils/birthday.ts:17-21 | a `Y-M-D` string without other dashes splits into its three parts |
| Birthday.IsBirthdayOnIsoDate | src/utils/birthday.ts:17-36 | on a `YYYY-MM-DD` string, true exactly when month and day equal today's month (1-based) and day |
| Birthday.YearIsIgnored | src/utils/birthday.ts:17-36 | the year part never changes the result |
| Birthday.GetBirthdayDiscountAmount | src/utils/birthday.ts:42-65 | the amount taken off is 15% of the price, and lies between 0 and the price for a non-negative price |
| Birthday.ApplyBirthdayDiscount | src/utils/birthday.ts:47-56 | the discounted price is 85% of the price, adds up with the amount to the price, and lies between 0 and the price |
| Birthday.DiscountMonotone | src/utils/birthday.ts:54-56 | the discount keeps the order of prices, in both directions |
| Store.FindWine | src/services/wineService.ts:58-71 | the row with that id, or none exactly when no row has it |
| Store.FindWineAt | src/services/wineService.ts:58-71 | under unique ids the lookup finds the one row with the id |
| Store.UpdateWhere | src/services/wineService.ts:95-99 | an update filtered by id keeps the table's length, and keeps every id when it does not rewrite the id of a matching row |
| Store.SetStock | src/services/wineService.ts:135-138 | every row keeps its id; the table keeps its length |
| Store.SetStockOneRow | src/services/wineService.ts:135-138 | under unique ids, writing a wine's stock rewrites that row's stock only |
| Store.FindWineSetStockOther | src/services/orderService.ts:111-127 | writing one wine's stock leaves lookups of every other wine unchanged |
| Store.FindWineSetStockSame | src/services/orderService.ts:111-127 | after the write, the lookup of that wine reads the new stock |
| WineService.GetAllWines | src/services/wineService.ts:23-36 | a store error is thrown; otherwise a wine is listed exactly when it is in the table and active |
| WineService.GetAllWinesActiveByName | src/services/wineService.ts:23-36 | the list is ordered by name and holds each active row as often as the table does, and no inactive row |
| WineService.GetAllWinesAdmin | src/services/wineService.ts:41-53 | a store error is thrown; otherwise the list is a permutation of the whole table |
| WineService.GetAllWinesAdminKeepsInactive | src/services/wineService.ts:41-53 | the admin list is ordered by name and keeps inactive rows |
| WineService.GetLowStockWines | src/services/wineService.ts:153-168 | a store error gives `[]`; otherwise a wine is listed exactly when it is active with stock at or below its minimum |
| WineService.LowStockAscending | src/services/wineService.ts:153-168 | the report is in ascending stock order and is a permutation of the active low rows |
| WineService.UpdateStockSpec | src/services/wineService.ts:130-148 | a negative stock is refused exactly when negative; every failure leaves the table unchanged; a success returns the row with that id and the new stock |
| WineService.UpdateStock | src/services/wineService.ts:130-148 | the table and the result are those of the specification |
| WineService.UpdateStockOneRow | src/services/wineService.ts:130-148 | updating an existing wine's stock rewrites that row's stock only and returns the new row |
| WineService.UpdateStockUnknownId | src/services/wineService.ts:135-145 | an unknown id throws and changes nothing |
| WineService.DeleteWineSpec | src/services/wineService.ts:113-125 | the result is true exactly when the store call succeeds; a store error leaves the table unchanged; a successful call clears `activo` on exactly the rows with that id and keeps every other row |
| WineService.DeleteUnknownIdChangesNothing | src/services/wineService.ts:113-125 | deleting an id that no row carries reports success and leaves the table unchanged |
| WineService.DeleteWine | src/services/wineService.ts:113-125 | the table and the result are those of the specification |
| WineService.DeleteWineHidesFromCatalogue | src/services/wineService.ts:113-125 | a deleted wine keeps its row, inactive, so it leaves the catalogue and stays in the admin list |
| WineService.UpdateWineSpec | src/services/wineService.ts:94-108 | a failure leaves the table unchanged; a success returns the given record under the id |
| WineService.UpdateWine | src/services/wineService.ts:94-108 | the table and the result are those of the specification |
| WineService.UpdateWineOneRow | src/services/wineService.ts:94-108 | updating an existing wine replaces its row, under the same id, and no other |
| WineService.CreateWineSpec | src/services/wineService.ts:76-89 | a failure leaves the table unchanged; a success appends the record under the new key |
| WineService.CreateWine | src/services/wineService.ts:76-89 | the table and the result are those of the specification |
| WineService.CreateWineKeepsIdsUnique | src/services/wineService.ts:76-89 | creating a wine keeps keys unique and a lookup by the new key finds the row |
| OrderService.CheckPendingOrder | src/services/orderService.ts:35-50 | a failing query reads as no pending order; true only when the customer has a pending order |
| OrderService.CheckPendingOrderExact | src/services/orderService.ts:35-50 | with at most one pending order, the check is true exactly when the query succeeds and the customer has one |
| OrderService.TwoPendingReadAsNone | src/services/orderService.ts:35-50 | two pending orders make `.single()` fail, so the check reads as none |
| OrderService.DecrementFrom | src/services/orderService.ts:111-127 | the decrement loop keeps the table's length and every row's id |
| OrderService.CheckStock | src/services/orderService.ts:69-79 | the stock check loop returns exactly whether every line passes |
| OrderService.DecrementStock | src/services/orderService.ts:111-127 | the decrement loop's table and verdict are those of the specification |
| OrderService.CreateOrder | src/services/orderService.ts:55-137 | the tables and the result are those of the specification |
| OrderService.RestoreFrom | src/services/orderService.ts:235-258 | the stock return keeps the table's length and every row's id |
| OrderService.RestoreOne | src/services/orderService.ts:240-256 | one turn of the return loop writes what the specification says |
| OrderService.RestoreStock | src/services/orderService.ts:235-258 | the return loop's table is that of the specification |
| OrderService.UpdateOrderStatus | src/services/orderService.ts:215-263 | the tables and the result are those of the specification |
| OrderProperties.LineQtyOfOrderLines | src/services/orderService.ts:95-108 | the order lines hold, wine by wine, the quantities the cart ordered |
| OrderProperties.DecrementStep | src/services/orderService.ts:111-127 | the loop goes on from the table the previous turn wrote |
| OrderProperties.DecrementLineOk | src/services/orderService.ts:112-124 | a turn that finds the wine with enough stock and no fault writes the lowered stock |
| OrderProperties.DecrementLineShort | src/services/orderService.ts:118-122 | a turn that reads less stock than the line asks for throws and writes nothing |
| OrderProperties.DecrementStop | src/services/orderService.ts:111-122 | a throwing turn ends the loop with the table as the earlier turns left it |
| OrderProperties.DebitedStep | src/services/orderService.ts:111-127 | writing one line's decrement and debiting the later lines debits all of them |
| OrderProperties.DecrementDistinct | src/services/orderService.ts:111-127 | with distinct wines and enough stock, the loop debits every line's quantity and succeeds |
| OrderProperties.RestoreAll | src/services/orderService.ts:235-258 | without faults, the return loop credits every line's quantity |
| OrderProperties.RefusedOrderWritesNothing | src/services/orderService.ts:63-79 | a pending order or a line failing the stock check makes `createOrder` write nothing and return null |
| OrderProperties.CreateOrderWritesHeaderAndLines | src/services/orderService.ts:82-108 | once the checks pass and the header insert succeeds, a pending header for the customer and its lines are written |
| OrderProperties.OrderLinesCopyCart | src/services/orderService.ts:95-108 | each order line copies its cart line's wine, name, quantity and price; the subtotals add up to the cart total |
| OrderProperties.SubtotalsOfOrderLines | src/services/orderService.ts:95-108 | the order lines' subtotals add up to the cart total |
| OrderProperties.DistinctOrderDecrementsStock | src/services/orderService.ts:55-137 | a successful order from a cart of distinct wines lowers each wine's stock by its ordered quantity |
| OrderProperties.DebitedRows | src/services/orderService.ts:111-127 | each row of an ordered wine loses the ordered quantity and stays non-negative; other rows are unchanged |
| OrderProperties.DuplicateDecrement | src/services/orderService.ts:111-127 | two lines for one wine exceeding its stock leave the first decrement written and report failure |
| OrderProperties.DuplicateLinesNoRollback | src/services/orderService.ts:69-127 | such a cart passes the stock check, is written, keeps the first decrement, and returns null |
| OrderProperties.FailOpenAllowsSecondPending | src/services/orderService.ts:35-66 | when the pending query fails, a customer with a pending order gets a second one |
| OrderProperties.CreateOrderKeepsValid | src/services/orderService.ts:55-137 | `createOrder` keeps the store's keys unique |
| OrderProperties.StatusWrittenWhateverCurrent | src/services/orderService.ts:221-232 | the status write ignores the current status; completion time is set only for `completado` |
| OrderProperties.ReturnStockAddsQuantities | src/services/orderService.ts:235-258 | cancelling or expiring with `returnStock` adds each line's quantity back |
| OrderProperties.RepeatedCancelRestoresTwice | src/services/orderService.ts:215-263 | a second cancel of the same order gives its stock back a second time |
| OrderProperties.LinesOfNewOrder | src/services/orderService.ts:95-108 | the lines of a new order id are exactly the lines just inserted |
| OrderProperties.CreditUndoesDebit | src/services/orderService.ts:111-127 | crediting an order's lines undoes debiting its cart |
| OrderProperties.CancelRestoresOrderedStock | src/services/orderService.ts:215-263 | cancelling with `returnStock` the order just created restores every wine's stock |
| OrderProperties.UpdateOrderStatusKeepsValid | src/services/orderService.ts:215-263 | `updateOrderStatus` keeps the store's keys unique |
| CatalogoPage.ComparatorTotalPreorder | src/pages/CatalogoVinosPage.tsx:84-102 | every ordering choice compares wines consistently |
| CatalogoPage.ListedExactly | src/pages/CatalogoVinosPage.tsx:73-81 | a wine is listed exactly when it passes type, country, search and price-range checks, as often as it was loaded |
| CatalogoPage.NoFilterListsAllInRange | src/pages/CatalogoVinosPage.tsx:73-81 | with every filter off, every wine in the price range is listed |
| CatalogoPage.SortedByChoice | src/pages/CatalogoVinosPage.tsx:84-102 | the list rises or falls in shown price, or follows name or country order, as chosen |
| CatalogoPage.UnknownOrderKeepsLoadOrder | src/pages/CatalogoVinosPage.tsx:99-100 | any other ordering value keeps the load order |
| CatalogoPage.BirthdayKeepsPriceOrder | src/pages/CatalogoVinosPage.tsx:84-90 | on the birthday the price order agrees with the list-price order |
| CatalogoPage.PaisesListsEachCountryOnce | src/pages/CatalogoVinosPage.tsx:69 | the country list is sorted and holds `Todos` and each loaded country exactly once |
| CatalogoPage.AgregarAlCarrito | src/pages/CatalogoVinosPage.tsx:105-124 | a zero stock is refused; otherwise the cart add's outcome and saved cart |
| CatalogoPage.AgregarAddsOneBottle | src/pages/CatalogoVinosPage.tsx:113-119 | a wine with stock not yet in the cart is appended as one bottle at the shown price; the count rises by one |
| CatalogoPage.NegativeStockRefusedByCart | src/pages/CatalogoVinosPage.tsx:106-119 | a negative stock passes the guard and is refused by the cart |
| CarritoPage.TotalPlusDiscountIsSubtotal | src/pages/CarritoPage.tsx:71-83 | total plus discount is the cart subtotal; the discount is 15% on the birthday, else 0 |
| CarritoPage.TotalOfBirthdayPriced | src/pages/CarritoPage.tsx:71-77 | discounting each unit price discounts the subtotal the same way |
| CarritoPage.CheckoutDiscountsTwice | src/pages/CarritoPage.tsx:71-77 | on the birthday, lines added from the catalogue are charged 0.85 × 0.85 of list price |
| CarritoPage.SingleBottleDiscountedTwice | src/pages/CarritoPage.tsx:71-77 | one bottle added on the birthday is charged 0.85 × 0.85 of its list price |
| CarritoPage.HandleConfirmarPedido | src/pages/CarritoPage.tsx:85-143 | the store and outcome are those of the specification; the cart is cleared only on a confirmed order |
| CarritoPage.NoUserOrEmptyCartWritesNothing | src/pages/CarritoPage.tsx:86-95 | without a user or with an empty cart, checkout writes nothing |
| CarritoPage.PendingOrderStopsCheckout | src/pages/CarritoPage.tsx:101-106 | a customer with a pending order is stopped before `createOrder` |
| CarritoPage.ConfirmedOrderRecordsCheckout | src/pages/CarritoPage.tsx:109-116 | a confirmed order is the user's, pending, with the checkout total and discount |
| CarritoPage.QuoteSumIsCartTotal | src/pages/CarritoPage.tsx:173-178 | the quote lines' subtotals add up to the cart total |
| CarritoPage.QuoteCopiesCart | src/pages/CarritoPage.tsx:160-178 | the quote expires 24 hours after creation, copies the cart, and its subtotal equals total plus discount |
| AdminWines.SkippedFilter | src/pages/admin/AdminWines.tsx:70-96 | a switched-off filter behaves as a filter that keeps everything |
| AdminWines.ApplyFiltersIsOneFilter | src/pages/admin/AdminWines.tsx:70-96 | the chain of filters is one filter by the combined condition |
| AdminWines.ApplyFiltersSelects | src/pages/admin/AdminWines.tsx:70-96 | the result is an ordered selection of the loaded list; a wine is in it exactly when it passes all filters |
| AdminWines.LowAndOutDisjoint | src/pages/admin/AdminWines.tsx:89-92 | no wine is listed under both `low` and `out` |
| AdminWines.OutOfStockIconButNotLow | src/pages/admin/AdminWines.tsx:89-92 | an out-of-stock wine shows the warning icon but is listed only under `out` |
| AdminWines.ValidateForm | src/pages/admin/AdminWines.tsx:141-149 | the form passes exactly when name, country and region are filled and price is positive; a missing field gives its alert |
| AdminWines.HandleSubmit | src/pages/admin/AdminWines.tsx:137-168 | the table and the outcome are those of the specification |
| AdminWines.SubmitChecksBeforeStore | src/pages/admin/AdminWines.tsx:141-149 | a form that fails a check is refused with that check's alert before any store call |
| AdminWines.SubmitEditsInPlace | src/pages/admin/AdminWines.tsx:151-155 | a valid form for a wine being edited replaces that row under its id |
| AdminWines.HandleStockUpdate | src/pages/admin/AdminWines.tsx:187-202 | the table and the outcome are those of the specification |
| AdminWines.StockUpdateGuards | src/pages/admin/AdminWines.tsx:187-202 | a negative stock is refused with its alert; otherwise only that row's stock changes |
| AdminWines.ClearedStockFieldZeroesStock | src/pages/admin/AdminWines.tsx:405 | clearing the stock field sets the wine's stock to 0 |
| AdminWines.HandleToggleStatus | src/pages/admin/AdminWines.tsx:204-222 | the table and the outcome are those of the specification |
| AdminWines.ToggleFlipsActivo | src/pages/admin/AdminWines.tsx:204-222 | a confirmed toggle flips `activo` and leaves every other row; toggling twice restores the row |
| AdminWines.HandleDelete | src/pages/admin/AdminWines.tsx:170-185 | the table and the outcome are those of the specification |
| AdminWines.DeleteReportsSuccessOnStoreError | src/pages/admin/AdminWines.tsx:170-185 | the handler reports success though the store call failed and nothing changed |
| Registro.EmailOkIffPattern | src/pages/registro.tsx:27-31 | the e-mail check accepts exactly the strings the pattern matches |
| Registro.EmailOkMatchesPattern | src/pages/registro.tsx:27-31 | every e-mail the check accepts splits into the pattern's three chunks around `@` and `.` |
| Registro.PatternPassesEmailOk | src/pages/registro.tsx:27-31 | every e-mail the pattern matches passes the check |
| Registro.BlankFieldIsMissing | src/pages/registro.tsx:17-26 | a blank name, surname or e-mail, or an empty password, is a missing field |
| Registro.OkIffAllChecksPass | src/pages/registro.tsx:17-44 | registration succeeds exactly when all fields are filled, the e-mail matches, and the password is 6 or more UTF-16 code units long and is repeated |
| Registro.ChecksRunInOrder | src/pages/registro.tsx:23-39 | each error implies every earlier check passed |
| Registro.SpacesCountTowardPassword | src/pages/registro.tsx:17-35 | passwords are not trimmed: six spaces are a valid password |
| Text.Utf16Length | src/pages/registro.tsx:32 | `pass.length` counts UTF-16 code units: at least one per character and at most two, and exactly one per character when none lies outside the Basic Multilingual Plane |
| Registro.AstralCharsCountTwice | src/pages/registro.tsx:32-35 | three characters outside the Basic Multilingual Plane make a password long enough, while three Basic Latin letters are too short |

## Left out

- Network and storage I/O are modelled as in-memory tables and slots. JSON
  serialisation, the `cartUpdated` event, alerts, navigation, loading flags and React
  state are not modelled.
- Concurrency between clients is not modelled. Each store call is one atomic step.
- Floating-point arithmetic is modelled as exact `real` arithmetic. Rounding in
  `toFixed(2)` and in float sums is not captured.
- `updateWine` takes a `Partial<Wine>`; the model takes a whole record, since every
  caller in the core passes one. An undefined or NaN price is not modelled.
- `getWineById` is only modelled as the lookup `Store.FindWine`. `searchWines` and
  `getWineStats` are not modelled: no core caller uses them.
- `localeCompare` and the default sort's UTF-16 comparison are modelled as code-point
  order (`Text.StrLe`). Locale collation is not captured.
- WineService.GetAllWinesActiveByName, WineService.GetAllWinesAdmin,
  WineService.GetLowStockWines: `.order('nombre')` and `.order('stock')` sort in the
  database, in its collation, and leave rows with equal keys in no fixed order. The
  model compares names by code point (`Text.StrLe`) and uses a stable sort. So rows
  with equal keys keep their table order, a promise the database does not make.
- Text.Lower, CatalogoPage.ListedPred, AdminWines.SearchPred: `toLowerCase` is
  modelled on the Basic Latin and Latin-1 capitals only (`Text.LowerChar`). Case
  folding outside Latin-1 is not captured. Examples are `Œ` to `œ` and Greek or
  Cyrillic capitals. So is the length change of `İ`. A search that differs from a
  wine's name only in such letters is listed by the page but not by the model.
- `Array.prototype.sort` in place is modelled as a stable insertion sort function.
- Birthday.IsBirthday: the `new Date(...)` fallback for strings that are not
  `YYYY-MM-DD`, and for `Date` objects, is a parameter (the parsed month and day), because
  date parsing and the clock are outside the model. Today's date is a parameter too.
- CarritoPage.HandleConfirmarPedido: the read of the new order's lines for the
  confirmation screen is not modelled, since it only sets React state. The page's
  `cartItems` is taken to be what `getCart()` returns.
- CarritoPage.QuoteCopiesCart: the quote number string built from the clock and the PDF
  rendering are not modelled.
- The order number, the order and expiry dates and `notas` of an order are filled in
  by the database, so they are not modelled. The new order's id is the store's
  `nextPedidoId`.
- The admin pages for orders, reservations, users and the dashboard, and the chat bot,
  menu, events and login pages, are outside this model.
