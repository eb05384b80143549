// The rows that the procurement store reads and writes, and what each of its four
// transactions means. Every transaction is one atomic step from one set of rows to the next.
module ProcurementModel {
  import opened Options
  import opened MapSums
  import opened Tables
  import opened ProcurementContract

  type Id = nat
  type Sku = nat   // only ever compared for equality
  type Time = nat

  datatype ReservationStatus = Active | Consumed | Released
  datatype DecisionSource = Auto | Manual
  datatype Reason =
    StockAvailable | StockInsufficient | StockUnknown | ProductUnmatched | ReservationConflict
    | ManualInStock | ManualToOrder | DeliveryFailed

  // A product without a stock figure has stock None.
  datatype Product = Product(sku: Sku, stock: Option<int>, active: bool)

  datatype Item = Item(
    orderId: Id, catalogId: Option<Sku>, quantity: int, status: ProcurementStatus,
    source: Option<DecisionSource>, reason: Option<Reason>,
    stockAtDecision: Option<int>, availableAtDecision: Option<int>, updatedAt: Option<Time>)

  // Reservations are keyed by the order item they serve: the table allows one row per item.
  datatype Reservation = Reservation(
    productId: Id, quantity: int, status: ReservationStatus,
    releasedAt: Option<Time>, consumedAt: Option<Time>)

  // `items` lists the item ids of the order in ascending order.
  datatype Order = Order(
    approval: OrderStatus, items: seq<Id>, handedOffAt: Option<Time>, summary: ProcurementSummary)

  // `skuIndex` is the unique index of the product table.
  datatype Rows = Rows(
    products: map<Id, Product>, skuIndex: map<Sku, Id>,
    items: map<Id, Item>, reservations: map<Id, Reservation>, orders: map<Id, Order>)

  datatype ProcurementError =
    NotApproved | ItemNotFound | InvalidTransition | OrderNotReady | QuantityRejected

  ghost predicate Ascending(ids: seq<Id>) {
    forall i, j :: 0 <= i < j < |ids| ==> ids[i] < ids[j]
  }

  // The item query of every order answers in ascending id order.
  ghost predicate InIdOrder(rows: Rows) {
    forall o :: o in rows.orders ==> Ascending(rows.orders[o].items)
  }

  // The unique index knows every product.
  ghost predicate Indexed(rows: Rows) {
    forall p :: p in rows.products ==>
      rows.products[p].sku in rows.skuIndex && rows.skuIndex[rows.products[p].sku] == p
  }

  // What the table's keys and checks guarantee in every state.
  ghost predicate WellFormed(rows: Rows) {
    && (forall s :: s in rows.skuIndex ==>
          rows.skuIndex[s] in rows.products && rows.products[rows.skuIndex[s]].sku == s)
    && (forall o, i {:trigger i in rows.orders[o].items} :: o in rows.orders && i in rows.orders[o].items ==>
          i in rows.items && rows.items[i].orderId == o)
    && (forall i :: i in rows.items ==>
          rows.items[i].orderId in rows.orders)
    && (forall i :: i in rows.reservations ==>
          && i in rows.items
          && rows.reservations[i].productId in rows.products
          && rows.reservations[i].quantity > 0)
  }

  // ----- Queries -----

  // The active product a catalogue id names.
  function Match(rows: Rows, catalogId: Option<Sku>): (p: Option<Id>)
    requires WellFormed(rows)
    ensures p.Some? ==> p.value in rows.products
  {
    if catalogId.Some? && catalogId.value in rows.skuIndex
       && rows.products[rows.skuIndex[catalogId.value]].active
    then Some(rows.skuIndex[catalogId.value])
    else None
  }

  lemma MatchFinds(rows: Rows, sku: Sku, p: Id)
    requires WellFormed(rows) && Indexed(rows)
    ensures Match(rows, Some(sku)) == Some(p) <==>
      p in rows.products && rows.products[p].sku == sku && rows.products[p].active
  {
  }

  function StockOf(rows: Rows, product: Option<Id>): Option<int>
    requires product.Some? ==> product.value in rows.products
  {
    if product.Some? then rows.products[product.value].stock else None
  }

  // What one reservation row adds to the ACTIVE total of a product.
  function Held(r: Reservation, product: Id): int {
    if r.status == Active && r.productId == product then r.quantity else 0
  }

  ghost function HeldRows(reservations: map<Id, Reservation>, product: Id): map<Id, int> {
    map i | i in reservations :: Held(reservations[i], product)
  }

  // The same rows with only some items counted, or only the others.
  ghost function OwnRows(reservations: map<Id, Reservation>, ids: seq<Id>, product: Id): map<Id, int> {
    map i | i in reservations :: if i in ids then Held(reservations[i], product) else 0
  }

  ghost function OtherRows(reservations: map<Id, Reservation>, ids: seq<Id>, product: Id): map<Id, int> {
    map i | i in reservations :: if i in ids then 0 else Held(reservations[i], product)
  }

  ghost function ActiveTotal(reservations: map<Id, Reservation>, product: Id): int {
    Sum(HeldRows(reservations, product))
  }

  function Statuses(items: map<Id, Item>, ids: seq<Id>): seq<ProcurementStatus>
    requires forall i :: i in ids ==> i in items
  {
    seq(|ids|, k requires 0 <= k < |ids| => assert ids[k] in ids; items[ids[k]].status)
  }

  function Available(stock: int, reserved: int): nat {
    if stock - reserved > 0 then stock - reserved else 0
  }

  // ----- Releasing -----

  // An assessment also clears the consumption time of the rows it releases; the other steps do not.
  function ReleaseRow(r: Reservation, now: Time, clearConsumed: bool): Reservation {
    if r.status == Active
    then r.(status := Released, releasedAt := Some(now), consumedAt := if clearConsumed then None else r.consumedAt)
    else r
  }

  function ReleaseAll(reservations: map<Id, Reservation>, ids: seq<Id>, now: Time, clearConsumed: bool)
    : map<Id, Reservation>
  {
    map i | i in reservations ::
      if i in ids then ReleaseRow(reservations[i], now, clearConsumed) else reservations[i]
  }

  function Release(rows: Rows, orderId: Id, now: Time): Rows
    requires WellFormed(rows)
  {
    if orderId !in rows.orders then rows
    else rows.(reservations := ReleaseAll(rows.reservations, rows.orders[orderId].items, now, false))
  }

  // ----- Assessing -----
  // The reference meaning of an assessment. Nothing below follows the running totals of the
  // loop: item k is accepted when its product's stock covers what other orders hold plus what
  // the accepted items before k took, and then its own quantity.

  datatype Inputs = Inputs(product: Option<Id>, stock: Option<int>, reserved: int, quantity: int)

  datatype Decision = Decision(
    status: ProcurementStatus, reason: Reason,
    stockAtDecision: Option<int>, availableAtDecision: Option<int>, reservedQuantity: int)

  predicate Accepted(i: Inputs) {
    i.product.Some? && i.stock.Some? && Available(i.stock.value, i.reserved) >= i.quantity
  }

  function Judge(i: Inputs): Decision {
    if i.product.None? then Decision(ToOrder, ProductUnmatched, None, None, 0)
    else if i.stock.None? then Decision(ToOrder, StockUnknown, None, None, 0)
    else
      var available := Some(Available(i.stock.value, i.reserved));
      if Accepted(i) then Decision(InStock, StockAvailable, i.stock, available, i.quantity)
      else if i.stock.value >= i.quantity then Decision(ToOrder, ReservationConflict, i.stock, available, 0)
      else Decision(ToOrder, StockInsufficient, i.stock, available, 0)
  }

  ghost function OthersHold(rows: Rows, orderId: Id, product: Id): int
    requires orderId in rows.orders
  {
    Sum(OtherRows(rows.reservations, rows.orders[orderId].items, product))
  }

  ghost function ItemAt(rows: Rows, orderId: Id, k: nat): (item: Item)
    requires WellFormed(rows) && orderId in rows.orders && k < |rows.orders[orderId].items|
  {
    assert rows.orders[orderId].items[k] in rows.orders[orderId].items;
    rows.items[rows.orders[orderId].items[k]]
  }

  ghost function AcceptedBefore(rows: Rows, orderId: Id, product: Id, k: nat): int
    requires WellFormed(rows) && orderId in rows.orders && k <= |rows.orders[orderId].items|
    decreases k, 0
  {
    if k == 0 then 0
    else
      var i := InputsAt(rows, orderId, k - 1);
      AcceptedBefore(rows, orderId, product, k - 1)
      + if Accepted(i) && i.product == Some(product) then i.quantity else 0
  }

  ghost function InputsAt(rows: Rows, orderId: Id, k: nat): Inputs
    requires WellFormed(rows) && orderId in rows.orders && k < |rows.orders[orderId].items|
    decreases k, 1
  {
    var product := Match(rows, ItemAt(rows, orderId, k).catalogId);
    Inputs(
      product, StockOf(rows, product),
      if product.Some?
      then OthersHold(rows, orderId, product.value) + AcceptedBefore(rows, orderId, product.value, k)
      else 0,
      ItemAt(rows, orderId, k).quantity)
  }

  ghost predicate Accepts(rows: Rows, orderId: Id, k: nat)
    requires WellFormed(rows) && orderId in rows.orders && k < |rows.orders[orderId].items|
  {
    Accepted(InputsAt(rows, orderId, k))
  }

  ghost function Decide(rows: Rows, orderId: Id, k: nat): Decision
    requires WellFormed(rows) && orderId in rows.orders && k < |rows.orders[orderId].items|
  {
    Judge(InputsAt(rows, orderId, k))
  }

  // The reservation table refuses a quantity below one, and with it the whole transaction.
  ghost predicate Rejects(rows: Rows, orderId: Id)
    requires WellFormed(rows) && orderId in rows.orders
  {
    exists k :: 0 <= k < |rows.orders[orderId].items|
      && Accepts(rows, orderId, k) && InputsAt(rows, orderId, k).quantity <= 0
  }

  function DecidedItem(item: Item, decision: Decision, now: Time): Item {
    item.(status := decision.status, source := Some(Auto), reason := Some(decision.reason),
          stockAtDecision := decision.stockAtDecision,
          availableAtDecision := decision.availableAtDecision, updatedAt := Some(now))
  }

  ghost function AcceptedRow(rows: Rows, item: Item): Reservation
    requires WellFormed(rows)
  {
    Reservation(Match(rows, item.catalogId).GetOr(0), item.quantity, Active, None, None)
  }

  // What the first n items of the order write to the item table ...
  ghost function ItemWrites(rows: Rows, orderId: Id, n: nat, now: Time): (writes: seq<Option<Item>>)
    requires WellFormed(rows) && orderId in rows.orders && n <= |rows.orders[orderId].items|
  {
    seq(n, k requires 0 <= k < n =>
      Some(DecidedItem(ItemAt(rows, orderId, k), Decide(rows, orderId, k), now)))
  }

  // ... and to the reservation table: a fresh ACTIVE row for every accepted item.
  ghost function ReservationWrites(rows: Rows, orderId: Id, n: nat): (writes: seq<Option<Reservation>>)
    requires WellFormed(rows) && orderId in rows.orders && n <= |rows.orders[orderId].items|
  {
    seq(n, k requires 0 <= k < n =>
      if Accepts(rows, orderId, k) then Some(AcceptedRow(rows, ItemAt(rows, orderId, k))) else None)
  }

  ghost function AssessedItems(rows: Rows, orderId: Id, n: nat, now: Time): map<Id, Item>
    requires WellFormed(rows) && orderId in rows.orders && n <= |rows.orders[orderId].items|
  {
    WriteAll(rows.items, rows.orders[orderId].items[..n], ItemWrites(rows, orderId, n, now))
  }

  // The order's own ACTIVE rows are released before any item is decided.
  ghost function AssessedReservations(rows: Rows, orderId: Id, n: nat, now: Time): map<Id, Reservation>
    requires WellFormed(rows) && orderId in rows.orders && n <= |rows.orders[orderId].items|
  {
    WriteAll(ReleaseAll(rows.reservations, rows.orders[orderId].items, now, true),
             rows.orders[orderId].items[..n], ReservationWrites(rows, orderId, n))
  }

  ghost function AssessedStatuses(rows: Rows, orderId: Id): seq<ProcurementStatus>
    requires WellFormed(rows) && orderId in rows.orders
  {
    seq(|rows.orders[orderId].items|, k requires 0 <= k < |rows.orders[orderId].items| =>
      Decide(rows, orderId, k).status)
  }

  ghost function Assess(rows: Rows, orderId: Id, now: Time): Result<Rows, ProcurementError>
    requires WellFormed(rows)
  {
    if orderId !in rows.orders || !IsApproved(rows.orders[orderId].approval) then Failure(NotApproved)
    else if Rejects(rows, orderId) then Failure(QuantityRejected)
    else
      var order := rows.orders[orderId];
      Success(rows.(
        items := AssessedItems(rows, orderId, |order.items|, now),
        reservations := AssessedReservations(rows, orderId, |order.items|, now),
        orders := rows.orders[orderId := order.(summary := SummaryFor(AssessedStatuses(rows, orderId), false))]))
  }

  // ----- Manual status changes -----

  function AllowedTransitions(from: ProcurementStatus): set<ProcurementStatus> {
    match from
    case Unassessed => {InStock, ToOrder, Unavailable}
    case InStock => {ToOrder, Unavailable}
    case ToOrder => {InStock, Unavailable}
    case Sending => {}
    case Ordered => {SupplierConfirmed, Unavailable}
    case SupplierConfirmed => {Received, Unavailable}
    case Received => {}
    case Unavailable => {ToOrder, InStock}
  }

  // What every item but this one holds of a product.
  ghost function HeldByOthers(reservations: map<Id, Reservation>, product: Id, itemId: Id): int {
    Sum(OtherRows(reservations, [itemId], product))
  }

  ghost function SetStatus(rows: Rows, orderId: Id, itemId: Id, next: ProcurementStatus, now: Time)
    : Result<Rows, ProcurementError>
    requires WellFormed(rows)
  {
    if itemId !in rows.items || rows.items[itemId].orderId != orderId then Failure(ItemNotFound)
    else
      var item := rows.items[itemId];
      var product := Match(rows, item.catalogId);
      if item.status != next && next !in AllowedTransitions(item.status) then Failure(InvalidTransition)
      else if next == InStock && StockOf(rows, product).None? then Failure(OrderNotReady)
      else if next == InStock
              && Available(StockOf(rows, product).value,
                           HeldByOthers(rows.reservations, product.value, itemId)) < item.quantity then
        Failure(OrderNotReady)
      else if next == InStock && item.quantity <= 0 then Failure(QuantityRejected)
      else
        var changed := item.(status := next, source := Some(Manual), updatedAt := Some(now));
        var changed' := match next {
            case InStock => changed.(
              reason := Some(ManualInStock), stockAtDecision := StockOf(rows, product),
              availableAtDecision := Some(Available(StockOf(rows, product).value,
                                                    HeldByOthers(rows.reservations, product.value, itemId))))
            case ToOrder => changed.(reason := Some(ManualToOrder))
            case _ => changed
          };
        var reservations := match next {
            case InStock =>
              rows.reservations[itemId := Reservation(product.value, item.quantity, Active, None, None)]
            case ToOrder => ReleaseAll(rows.reservations, [itemId], now, false)
            case Unavailable => ReleaseAll(rows.reservations, [itemId], now, false)
            case _ => rows.reservations
          };
        var items := rows.items[itemId := changed'];
        var order := rows.orders[orderId];
        Success(rows.(
          items := items, reservations := reservations,
          orders := rows.orders[orderId := order.(
            summary := SummaryFor(Statuses(items, order.items), order.handedOffAt.Some?))]))
  }

  // ----- Hand-off -----

  // What the ACTIVE reservations of some items hold of a product.
  function HeldIn(reservations: map<Id, Reservation>, ids: seq<Id>, product: Id): int {
    if ids == [] then 0
    else
      var last := ids[|ids| - 1];
      HeldIn(reservations, ids[..|ids| - 1], product)
      + if last in reservations then Held(reservations[last], product) else 0
  }

  function HeldByOrder(rows: Rows, orderId: Id, product: Id): int
    requires orderId in rows.orders
  {
    HeldIn(rows.reservations, rows.orders[orderId].items, product)
  }

  // Taking every ACTIVE reservation of some items out of stock, one reservation at a time.
  function TakeFromStock(products: map<Id, Product>, reservations: map<Id, Reservation>, ids: seq<Id>)
    : map<Id, Product>
  {
    if ids == [] then products
    else
      var last := ids[|ids| - 1];
      var taken := TakeFromStock(products, reservations, ids[..|ids| - 1]);
      if last in reservations && reservations[last].status == Active && reservations[last].productId in taken then
        var p := reservations[last].productId;
        taken[p := taken[p].(stock := Decrement(taken[p].stock, reservations[last].quantity))]
      else taken
  }

  function ConsumeRow(r: Reservation, now: Time): Reservation {
    if r.status == Active then r.(status := Consumed, consumedAt := Some(now)) else r
  }

  function ConsumeAll(reservations: map<Id, Reservation>, ids: seq<Id>, now: Time): map<Id, Reservation> {
    map i | i in reservations :: if i in ids then ConsumeRow(reservations[i], now) else reservations[i]
  }

  function Decrement(stock: Option<int>, quantity: int): Option<int> {
    if stock.Some? then Some(stock.value - quantity) else None
  }

  ghost function HandedOffRows(rows: Rows, orderId: Id, now: Time): Rows
    requires WellFormed(rows) && orderId in rows.orders
  {
    var order := rows.orders[orderId];
    rows.(
      products := TakeFromStock(rows.products, rows.reservations, order.items),
      reservations := ConsumeAll(rows.reservations, order.items, now),
      orders := rows.orders[orderId := order.(handedOffAt := Some(now), summary := HandedOff)])
  }

  ghost predicate CanHandOff(rows: Rows, orderId: Id)
    requires WellFormed(rows)
  {
    && orderId in rows.orders
    && rows.orders[orderId].handedOffAt.None?
    && SummaryFor(Statuses(rows.items, rows.orders[orderId].items), false) == Ready
  }

  ghost function HandOff(rows: Rows, orderId: Id, now: Time): Result<Rows, ProcurementError>
    requires WellFormed(rows)
  {
    if orderId !in rows.orders then Failure(ItemNotFound)
    else if rows.orders[orderId].handedOffAt.Some? then Success(rows)
    else if CanHandOff(rows, orderId) then Success(HandedOffRows(rows, orderId, now))
    else Failure(OrderNotReady)
  }
}
