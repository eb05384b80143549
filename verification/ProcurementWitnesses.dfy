// One small shop, run into the two places where the ledger goes wrong.
module ProcurementWitnesses {
  import opened Options
  import opened MapSums
  import opened ProcurementContract
  import opened ProcurementModel
  import opened ProcurementProofs
  import opened ProcurementRuns
  import opened ProcurementBacking

  // ----- A run of three steps -----

  ghost function After(rows: Rows, step: Step): (after: Rows)
    requires Good(rows)
    ensures Good(after)
  {
    ApplyKeeps(rows, step);
    Apply(rows, step)
  }

  lemma RunOfThree(rows: Rows, a: Step, b: Step, c: Step)
    requires Good(rows)
    ensures Run(rows, [a, b, c]) == After(After(After(rows, a), b), c)
  {
    var one, two := After(rows, a), After(After(rows, a), b);
    assert [a, b, c][1..] == [b, c] && [b, c][1..] == [c] && [c][1..] == [];
    assert Run(two, [c]) == After(two, c);
    assert Run(one, [b, c]) == Run(two, [c]);
  }

  // ----- One approved order with one item, and nothing reserved -----

  ghost predicate Simple(rows: Rows, o: Id, i: Id, quantity: int, p: Id, stock: int) {
    && Good(rows) && rows.reservations == map[]
    && o in rows.orders && rows.orders[o].items == [i] && IsApproved(rows.orders[o].approval)
    && rows.orders[o].handedOffAt.None?
    && i in rows.items && rows.items[i].quantity == quantity
    && Match(rows, rows.items[i].catalogId) == Some(p) && rows.products[p].stock == Some(stock)
    && 0 < quantity <= stock
  }

  lemma AssessmentSucceeds(rows: Rows, o: Id, now: Time)
    requires Good(rows) && o in rows.orders && IsApproved(rows.orders[o].approval)
    requires forall i :: i in rows.orders[o].items ==> rows.items[i].quantity > 0
    ensures Assess(rows, o, now).Success?
  {
    forall k | 0 <= k < |rows.orders[o].items|
      ensures InputsAt(rows, o, k).quantity > 0
    {
      assert rows.orders[o].items[k] in rows.orders[o].items;
    }
  }

  // What an assessment leaves of its order, but for the summary, and of what its items ask for.
  lemma AssessmentKeepsOrder(rows: Rows, o: Id, now: Time)
    requires Good(rows) && o in rows.orders
    ensures var after := After(rows, DoAssess(o, now));
      && o in after.orders && after.orders[o] == rows.orders[o].(summary := after.orders[o].summary)
      && after.products == rows.products
      && forall i :: i in rows.orders[o].items ==> i in after.items && after.items[i].quantity == rows.items[i].quantity
  {
    forall i | i in rows.orders[o].items
      ensures i in After(rows, DoAssess(o, now)).items
      ensures After(rows, DoAssess(o, now)).items[i].quantity == rows.items[i].quantity
    {
      AssessedRow(rows, o, now, i);
    }
  }

  // Its item is in stock after an assessment, and the order ready.
  lemma SimpleOrderGetsReady(rows: Rows, o: Id, i: Id, quantity: int, p: Id, stock: int, now: Time)
    requires Simple(rows, o, i, quantity, p, stock)
    ensures var after := After(rows, DoAssess(o, now));
      CanHandOff(after, o) && InStockAt(after.items, i) && after.items[i].quantity == quantity
  {
    assert forall j :: j in rows.orders[o].items ==> j == i;
    AssessmentSucceeds(rows, o, now);
    AssessmentKeepsOrder(rows, o, now);
    assert rows.orders[o].items[0] == i;
    SumZero(OtherRows(rows.reservations, [i], p));
    AssessMeaning(rows, o, now, 0);
    var after := After(rows, DoAssess(o, now));
    assert Statuses(after.items, [i]) == [InStock];
    SummaryMeaning([InStock]);
  }

  lemma ShipsAfterRelease(rows: Rows, o: Id, released: Time, now: Time, p: Id)
    requires Good(rows) && CanHandOff(rows, o)
    ensures var after := After(After(rows, DoRelease(o, released)), DoHandOff(o, now));
      && o in after.orders && after.orders[o].handedOffAt == Some(now)
      && StockAt(after, p) == StockAt(rows, p)
  {
    ReleasedOrderTakesNothing(rows, o, released, now, p);
  }

  // Assessed, released and handed off, the order is gone and no stock was taken.
  lemma ReleasedOrderShips(rows: Rows, o: Id, i: Id, quantity: int, p: Id, stock: int)
    requires Simple(rows, o, i, quantity, p, stock)
    ensures var after := Run(rows, [DoAssess(o, 1), DoRelease(o, 2), DoHandOff(o, 3)]);
      && o in after.orders && after.orders[o].handedOffAt == Some(3)
      && StockAt(after, p) == Some(stock)
  {
    RunOfThree(rows, DoAssess(o, 1), DoRelease(o, 2), DoHandOff(o, 3));
    SimpleOrderGetsReady(rows, o, i, quantity, p, stock, 1);
    AssessmentKeepsOrder(rows, o, 1);
    var ready := After(rows, DoAssess(o, 1));
    assert StockAt(ready, p) == Some(stock);
    ShipsAfterRelease(ready, o, 2, 3, p);
  }

  lemma HandOffKeepsOrder(rows: Rows, o: Id, now: Time)
    requires Good(rows) && CanHandOff(rows, o)
    ensures var after := After(rows, DoHandOff(o, now));
      && after.items == rows.items && o in after.orders
      && after.orders[o] == rows.orders[o].(handedOffAt := Some(now), summary := ProcurementSummary.HandedOff)
  {
  }

  // Assessed, handed off and assessed again, the order has a cached summary that is wrong.
  lemma ReassessedOrderMisleads(rows: Rows, o: Id, i: Id, quantity: int, p: Id, stock: int)
    requires Simple(rows, o, i, quantity, p, stock)
    ensures var after := Run(rows, [DoAssess(o, 1), DoHandOff(o, 2), DoAssess(o, 3)]);
      && Good(after) && o in after.orders && after.orders[o].handedOffAt == Some(2)
      && !Cached(after, o)
  {
    RunOfThree(rows, DoAssess(o, 1), DoHandOff(o, 2), DoAssess(o, 3));
    SimpleOrderGetsReady(rows, o, i, quantity, p, stock, 1);
    AssessmentKeepsOrder(rows, o, 1);
    var ready := After(rows, DoAssess(o, 1));
    HandOffKeepsOrder(ready, o, 2);
    var done := After(ready, DoHandOff(o, 2));
    assert forall j :: j in done.orders[o].items ==> j == i;
    AssessmentSucceeds(done, o, 3);
    AssessmentKeepsOrder(done, o, 3);
    AssessCaches(done, o, 3);
  }

  // ----- The shop -----

  // Product 0 with five in stock, and order 0, approved, with item 0 asking for three of it.
  const SHOP: Rows := Rows(
    map[0 := Product(0, Some(5), true)], map[0 := 0],
    map[0 := Item(0, Some(0), 3, Unassessed, None, None, None, None, None)],
    map[],
    map[0 := Order(Approved, [0], None, NotAssessed)])

  lemma ShopIsSimple()
    ensures Simple(SHOP, 0, 0, 3, 0, 5) && AllCached(SHOP) && Backed(SHOP)
  {
    NothingReservedIsGood(SHOP);
  }

  // In this shop three pieces are handed off after a release and all five are still in stock; and an
  // assessment after the hand-off leaves the wrong summary.
  lemma ShopGoesWrong()
    ensures Good(SHOP)
    ensures StockAt(Run(SHOP, [DoAssess(0, 1), DoRelease(0, 2), DoHandOff(0, 3)]), 0) == Some(5)
    ensures var after := Run(SHOP, [DoAssess(0, 1), DoHandOff(0, 2), DoAssess(0, 3)]);
      Good(after) && 0 in after.orders && !Cached(after, 0)
  {
    ShopIsSimple();
    ReleasedOrderShips(SHOP, 0, 0, 3, 0, 5);
    ReassessedOrderMisleads(SHOP, 0, 0, 3, 0, 5);
  }
}
