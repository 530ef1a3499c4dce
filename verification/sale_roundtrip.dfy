/**
 * What `confirmSale` leaves in the sale's usage ledger, and how `deleteSale`
 * of the same sale gives it back: the two controllers as a round trip.
 */
module SaleRoundTrip {
  import opened Base
  import opened Records
  import opened Consumption
  import opened Reversal
  import opened SaleRules
  import opened Deltas
  import opened SaleCreate
  import opened SaleUpdate
  import opened SaleDelete

  /** The cart's lines as the stored item rows will hold them. */
  function CartQtys(cart: seq<CartLine>): (qs: seq<Qty>)
    ensures |qs| == |cart| && forall i :: 0 <= i < |cart| ==> qs[i] == Qty(cart[i].barcode, cart[i].quantity)
  {
    seq(|cart|, i requires 0 <= i < |cart| => Qty(cart[i].barcode, cart[i].quantity))
  }

  /** What each line takes from stock: its quantity, or nothing when that is zero or less. */
  function SoldQtys(cart: seq<CartLine>): (qs: seq<Qty>)
    ensures |qs| == |cart|
    ensures forall i :: 0 <= i < |cart| ==> qs[i] == Qty(cart[i].barcode, if cart[i].quantity > 0 then cart[i].quantity else 0)
  {
    seq(|cart|, i requires 0 <= i < |cart| => Qty(cart[i].barcode, if cart[i].quantity > 0 then cart[i].quantity else 0))
  }

  /** The units the lines of this product and barcode took: their positive quantities summed. */
  function LedgerOf(lines: seq<Priced>, product: nat, k: string): int
    decreases |lines|
  {
    if |lines| == 0 then 0
    else
      var l := lines[0];
      (if l.product.id == product && l.product.barcode == k && l.quantity > 0 then l.quantity else 0)
        + LedgerOf(lines[1..], product, k)
  }

  /**
   * The rows the lines log add, to the sale's ledger of a product and
   * barcode, what the lines of that product and barcode took.
   */
  lemma {:induction false} SaleRowsLedger(us: seq<Usage>, sale: nat, first: nat, pharmacy: nat, lines: seq<Priced>,
                                          allocss: seq<seq<Alloc>>, g: Filter)
    requires |allocss| == |lines| && forall j :: 0 <= j < |lines| ==> SlicesFor(lines[j].quantity, allocss[j])
    requires g.item.None? && g.sale == sale && g.pharmacy == pharmacy
    ensures MatchSum(us + SaleRows(sale, first, pharmacy, lines, allocss), g) == MatchSum(us, g) + LedgerOf(lines, g.product, g.barcode)
    decreases |lines|
  {
    if |lines| == 0 {
      assert us + SaleRows(sale, first, pharmacy, lines, allocss) == us;
    } else {
      var t := LineTag(sale, first, pharmacy, lines[0]);
      var head := us + Rows(t, allocss[0]);
      assert us + SaleRows(sale, first, pharmacy, lines, allocss)
          == head + SaleRows(sale, first + 1, pharmacy, lines[1..], allocss[1..]);
      MatchSumAfterRows(us, t, allocss[0], g);
      assert forall j :: 0 <= j < |lines[1..]| ==> lines[1..][j] == lines[j + 1] && allocss[1..][j] == allocss[j + 1];
      SaleRowsLedger(head, sale, first + 1, pharmacy, lines[1..], allocss[1..], g);
    }
  }

  /** The rows the lines log keep a positive ledger positive. */
  lemma {:induction false} SaleRowsPositive(us: seq<Usage>, sale: nat, first: nat, pharmacy: nat, lines: seq<Priced>,
                                            allocss: seq<seq<Alloc>>)
    requires |allocss| == |lines| && forall j :: 0 <= j < |lines| ==> SlicesFor(lines[j].quantity, allocss[j])
    requires LedgerPositive(us)
    ensures LedgerPositive(us + SaleRows(sale, first, pharmacy, lines, allocss))
    decreases |lines|
  {
    if |lines| == 0 {
      assert us + SaleRows(sale, first, pharmacy, lines, allocss) == us;
    } else {
      var t := LineTag(sale, first, pharmacy, lines[0]);
      var head := us + Rows(t, allocss[0]);
      assert us + SaleRows(sale, first, pharmacy, lines, allocss)
          == head + SaleRows(sale, first + 1, pharmacy, lines[1..], allocss[1..]);
      RowsKeepPositive(us, t, allocss[0]);
      assert forall j :: 0 <= j < |lines[1..]| ==> lines[1..][j] == lines[j + 1] && allocss[1..][j] == allocss[j + 1];
      SaleRowsPositive(head, sale, first + 1, pharmacy, lines[1..], allocss[1..]);
    }
  }

  /** A resolved barcode resolves to a product of the pharmacy with that barcode. */
  lemma FindProductSells(ps: seq<Product>, pharmacy: nat, barcode: string)
    requires FindProduct(ps, pharmacy, barcode).Some?
    ensures Sells(FindProduct(ps, pharmacy, barcode).value, pharmacy, barcode)
  {
    FindProductFirst(ps, pharmacy, barcode);
  }

  /** Line `i` of `lines` is cart line `i` priced from the catalogue. */
  predicate PricedFrom(ps: seq<Product>, pharmacy: nat, cart: seq<CartLine>, lines: seq<Priced>) {
    && Known(ps, pharmacy, cart) && |lines| == |cart|
    && forall i :: 0 <= i < |cart| ==> lines[i] == PriceLine(FindProduct(ps, pharmacy, cart[i].barcode).value, cart[i].quantity)
  }

  /** The priced lines of a barcode's product took the cart's positive quantities of that barcode. */
  lemma {:induction false} LedgerOfPriced(ps: seq<Product>, pharmacy: nat, cart: seq<CartLine>, lines: seq<Priced>, k: string)
    requires FindProduct(ps, pharmacy, k).Some? && PricedFrom(ps, pharmacy, cart, lines)
    ensures LedgerOf(lines, FindProduct(ps, pharmacy, k).value.id, k) == SumFor(SoldQtys(cart), k)
    decreases |cart|
  {
    if |cart| > 0 {
      FindProductSells(ps, pharmacy, cart[0].barcode);
      assert forall i :: 0 <= i < |cart[1..]| ==> cart[1..][i] == cart[i + 1] && lines[1..][i] == lines[i + 1];
      LedgerOfPriced(ps, pharmacy, cart[1..], lines[1..], k);
      SumForCons(SoldQtys(cart), k);
      assert SoldQtys(cart)[1..] == SoldQtys(cart[1..]);
    }
  }

  /**
   * An accepted sale adds, to its ledger of every barcode the pharmacy
   * sells, the cart's positive quantities of that barcode, and keeps a
   * positive ledger positive.
   */
  lemma ConfirmSaleLedger(db: Db, pharmacy: nat, user: nat, cart: seq<CartLine>, amount: Option<int>,
                          description: Option<string>, today: int, r: Db, sale: nat, k: string)
    requires ConfirmSale(db, pharmacy, user, cart, amount, description, today) == Ok((r, sale))
    requires FindProduct(db.products, pharmacy, k).Some?
    ensures var g := SaleLedger(db.products, sale, pharmacy, k);
      MatchSum(r.usages, g) == MatchSum(db.usages, g) + SumFor(SoldQtys(cart), k)
    ensures LedgerPositive(db.usages) ==> LedgerPositive(r.usages)
  {
    ConfirmSaleStock(db, pharmacy, user, cart, amount, description, today, r, sale);
    var lines := PriceCart(db.products, pharmacy, cart).value;
    var allocss :| LinesTook(db, r, sale, db.nextItemId, pharmacy, lines, allocss);
    SaleRowsLedger(db.usages, sale, db.nextItemId, pharmacy, lines, allocss, SaleLedger(db.products, sale, pharmacy, k));
    LedgerOfPriced(db.products, pharmacy, cart, lines, k);
    if LedgerPositive(db.usages) {
      SaleRowsPositive(db.usages, sale, db.nextItemId, pharmacy, lines, allocss);
    }
  }

  /**
   * The offsetting cart: whatever else an accepted sale of it does, its
   * ledger of the barcode gains the two units of the first line and nothing
   * for the second.
   */
  lemma OffsettingLinesTakeStock(db: Db, pharmacy: nat, user: nat, barcode: string, today: int, r: Db, sale: nat)
    requires FindProduct(db.products, pharmacy, barcode).Some?
    requires ConfirmSale(db, pharmacy, user, [CartLine(barcode, 2), CartLine(barcode, -2)], Some(0), None, today) == Ok((r, sale))
    ensures var g := SaleLedger(db.products, sale, pharmacy, barcode);
      MatchSum(r.usages, g) == MatchSum(db.usages, g) + 2
  {
    ConfirmSaleLedger(db, pharmacy, user, [CartLine(barcode, 2), CartLine(barcode, -2)], Some(0), None, today, r, sale, barcode);
    OffsettingSold(barcode);
  }

  lemma OffsettingSold(barcode: string)
    ensures SumFor(SoldQtys([CartLine(barcode, 2), CartLine(barcode, -2)]), barcode) == 2
  {
    var qs := SoldQtys([CartLine(barcode, 2), CartLine(barcode, -2)]);
    assert qs == [Qty(barcode, 2), Qty(barcode, 0)];
    assert qs[..1] == [Qty(barcode, 2)] && [Qty(barcode, 2)][..0] == [];
    assert SumFor(qs[..1], barcode) == SumFor([], barcode) + 2;
    assert SumFor(qs, barcode) == SumFor(qs[..1], barcode) + 0;
  }

  /** No stored item row belongs to the id the next sale gets. */
  predicate FreshSaleId(db: Db) {
    forall x :: x in db.items ==> x.sale != db.nextSaleId
  }

  lemma {:induction false} ItemsOfNone(items: seq<SaleItem>, sale: nat)
    requires forall x :: x in items ==> x.sale != sale
    ensures ItemsOf(items, sale) == []
    decreases |items|
  {
    if |items| > 0 {
      var init := items[..|items| - 1];
      assert forall x :: x in init ==> x in items;
      ItemsOfNone(init, sale);
      assert items[|items| - 1] in items;
    }
  }

  /** The rows of a sale no earlier row belongs to are exactly the rows added for it. */
  lemma {:induction false} ItemsOfAdded(items: seq<SaleItem>, added: seq<SaleItem>, sale: nat)
    requires forall x :: x in items ==> x.sale != sale
    requires forall i :: 0 <= i < |added| ==> added[i].sale == sale
    ensures ItemsOf(items + added, sale) == added
    decreases |added|
  {
    if |added| == 0 {
      assert items + added == items;
      ItemsOfNone(items, sale);
    } else {
      var init := added[..|added| - 1];
      assert (items + added)[..|items + added| - 1] == items + init;
      ItemsOfAdded(items, init, sale);
      assert added == init + [added[|added| - 1]];
    }
  }

  /** The item rows of a priced cart carry the cart's barcodes and quantities. */
  lemma ItemsForQtys(ps: seq<Product>, pharmacy: nat, cart: seq<CartLine>, lines: seq<Priced>, sale: nat, first: nat)
    requires PricedFrom(ps, pharmacy, cart, lines)
    ensures ItemQtys(ItemsFor(sale, first, lines)) == CartQtys(cart)
  {
    forall i | 0 <= i < |cart| ensures lines[i].product.barcode == cart[i].barcode {
      FindProductSells(ps, pharmacy, cart[i].barcode);
    }
  }

  /** Stored lines of known barcodes and quantities of zero or more, all covered by the sale's ledger. */
  ghost predicate Returnable(db: Db, sale: nat, pharmacy: nat, items: seq<SaleItem>) {
    && (forall i :: 0 <= i < |items| ==> items[i].quantity >= 0 && FindProduct(db.products, pharmacy, items[i].barcode).Some?)
    && forall k :: FindProduct(db.products, pharmacy, k).Some? ==>
         MatchSum(db.usages, SaleLedger(db.products, sale, pharmacy, k)) >= SumFor(ItemQtys(items), k)
  }

  /** Quantities of zero or more sum to zero or more. */
  lemma {:induction false} SumForNonNegative(qs: seq<Qty>, k: string)
    requires forall i :: 0 <= i < |qs| ==> qs[i].quantity >= 0
    ensures SumFor(qs, k) >= 0
    decreases |qs|
  {
    if |qs| > 0 {
      SumForNonNegative(qs[..|qs| - 1], k);
    }
  }

  /** Giving back the first returnable line leaves the rest returnable. */
  lemma ReturnableAfterHead(db: Db, sale: nat, pharmacy: nat, items: seq<SaleItem>, today: int) returns (one: Db)
    requires |items| > 0 && LedgerPositive(db.usages) && Returnable(db, sale, pharmacy, items)
    ensures ReturnItem(db, sale, pharmacy, items[0], today) == Ok(one)
    ensures LedgerPositive(one.usages) && Returnable(one, sale, pharmacy, items[1..])
  {
    var it := items[0];
    ItemQtysTail(items);
    SumForCons(ItemQtys(items), it.barcode);
    SumForNonNegative(ItemQtys(items[1..]), it.barcode);
    ReturnItemCovered(db, sale, pharmacy, it, today);
    one := ReturnItem(db, sale, pharmacy, it, today).value;
    ReturnItemLedger(db, sale, pharmacy, it, today, it.barcode);
    forall i | 0 <= i < |items[1..]|
      ensures items[1..][i].quantity >= 0 && FindProduct(one.products, pharmacy, items[1..][i].barcode).Some?
    {
      assert items[1..][i] == items[i + 1];
      FindProductIgnoresSnapshot(db.products, one.products, pharmacy, items[i + 1].barcode);
    }
    forall k | FindProduct(one.products, pharmacy, k).Some?
      ensures MatchSum(one.usages, SaleLedger(one.products, sale, pharmacy, k)) >= SumFor(ItemQtys(items[1..]), k)
    {
      FindProductIgnoresSnapshot(db.products, one.products, pharmacy, k);
      SaleLedgerSameCatalogue(db.products, one.products, sale, pharmacy, k);
      ReturnItemLedger(db, sale, pharmacy, it, today, k);
      SumForCons(ItemQtys(items), k);
    }
  }

  /** Returnable lines are all given back. */
  lemma {:induction false} ReturnableReturns(db: Db, sale: nat, pharmacy: nat, items: seq<SaleItem>, today: int)
    requires LedgerPositive(db.usages) && Returnable(db, sale, pharmacy, items)
    ensures ReturnItems(db, sale, pharmacy, items, today).Ok?
    decreases |items|
  {
    if |items| > 0 {
      var one := ReturnableAfterHead(db, sale, pharmacy, items, today);
      ReturnableReturns(one, sale, pharmacy, items[1..], today);
    }
  }

  /**
   * A sale the checked confirmation accepts, on a database whose next sale
   * id owns no item rows, can be deleted at once, and the deletion gives
   * every barcode's ledger of the sale back what the sale added.
   */
  lemma CreateThenDelete(db: Db, pharmacy: nat, user: nat, cart: seq<CartLine>, amount: Option<int>,
                         description: Option<string>, today: int, r: Db, sale: nat)
    requires ConfirmSaleChecked(db, pharmacy, user, cart, amount, description, today) == Ok((r, sale))
    requires LedgerPositive(db.usages) && FreshSaleId(db)
    ensures DeleteSale(r, sale, pharmacy, today).Ok?
    ensures forall k :: FindProduct(db.products, pharmacy, k).Some? ==>
      var g := SaleLedger(db.products, sale, pharmacy, k);
      MatchSum(DeleteSale(r, sale, pharmacy, today).value.usages, g) == MatchSum(db.usages, g)
  {
    CreatedLines(db, pharmacy, user, cart, amount, description, today, r, sale);
    CreatedReturnable(db, pharmacy, user, cart, amount, description, today, r, sale);
    ReturnableDeletes(r, sale, pharmacy, today);
    var back := DeleteSale(r, sale, pharmacy, today).value;
    forall k | FindProduct(db.products, pharmacy, k).Some?
      ensures MatchSum(back.usages, SaleLedger(db.products, sale, pharmacy, k))
           == MatchSum(db.usages, SaleLedger(db.products, sale, pharmacy, k))
    {
      DeleteGivesBack(db, pharmacy, user, cart, amount, description, today, r, sale, back, k);
    }
  }

  /** The stored lines of a new sale of positive lines are returnable from its ledger. */
  lemma CreatedReturnable(db: Db, pharmacy: nat, user: nat, cart: seq<CartLine>, amount: Option<int>,
                          description: Option<string>, today: int, r: Db, sale: nat)
    requires ConfirmSale(db, pharmacy, user, cart, amount, description, today) == Ok((r, sale))
    requires LedgerPositive(db.usages) && Known(db.products, pharmacy, cart) && SoldQtys(cart) == CartQtys(cart)
    requires ItemQtys(ItemsOf(r.items, sale)) == CartQtys(cart) && SameCatalogue(db.products, r.products)
    ensures Returnable(r, sale, pharmacy, ItemsOf(r.items, sale))
  {
    var items := ItemsOf(r.items, sale);
    forall i | 0 <= i < |items|
      ensures items[i].quantity >= 0 && FindProduct(r.products, pharmacy, items[i].barcode).Some?
    {
      assert ItemQtys(items)[i] == CartQtys(cart)[i] == SoldQtys(cart)[i];
      FindProductIgnoresSnapshot(db.products, r.products, pharmacy, cart[i].barcode);
    }
    forall k | FindProduct(r.products, pharmacy, k).Some?
      ensures MatchSum(r.usages, SaleLedger(r.products, sale, pharmacy, k)) >= SumFor(ItemQtys(items), k)
    {
      FindProductIgnoresSnapshot(db.products, r.products, pharmacy, k);
      SaleLedgerSameCatalogue(db.products, r.products, sale, pharmacy, k);
      ConfirmSaleLedger(db, pharmacy, user, cart, amount, description, today, r, sale, k);
      MatchSumPositive(db.usages, SaleLedger(db.products, sale, pharmacy, k));
    }
  }

  /** A sale whose header is stored and whose lines are returnable is deleted. */
  lemma ReturnableDeletes(r: Db, sale: nat, pharmacy: nat, today: int)
    requires LedgerPositive(r.usages) && Returnable(r, sale, pharmacy, ItemsOf(r.items, sale))
    requires |r.sales| > 0 && IsSale(r.sales[|r.sales| - 1], sale, pharmacy)
    ensures DeleteSale(r, sale, pharmacy, today).Ok?
  {
    ReturnableReturns(r, sale, pharmacy, ItemsOf(r.items, sale), today);
    FindSaleFound(r.sales, sale, pharmacy);
  }

  /** Deleting a new sale takes off each barcode's ledger exactly what creating it put on. */
  lemma DeleteGivesBack(db: Db, pharmacy: nat, user: nat, cart: seq<CartLine>, amount: Option<int>,
                        description: Option<string>, today: int, r: Db, sale: nat, back: Db, k: string)
    requires ConfirmSale(db, pharmacy, user, cart, amount, description, today) == Ok((r, sale))
    requires DeleteSale(r, sale, pharmacy, today) == Ok(back)
    requires LedgerPositive(r.usages) && SoldQtys(cart) == CartQtys(cart)
    requires ItemQtys(ItemsOf(r.items, sale)) == CartQtys(cart) && SameCatalogue(db.products, r.products)
    requires FindProduct(db.products, pharmacy, k).Some?
    ensures MatchSum(back.usages, SaleLedger(db.products, sale, pharmacy, k))
         == MatchSum(db.usages, SaleLedger(db.products, sale, pharmacy, k))
  {
    SaleLedgerSameCatalogue(db.products, r.products, sale, pharmacy, k);
    ConfirmSaleLedger(db, pharmacy, user, cart, amount, description, today, r, sale, k);
    DeleteSaleLedger(r, sale, pharmacy, today, back, k);
  }

  /**
   * What a checked sale wrote that the round trip needs: its header is last,
   * its item rows carry the cart's barcodes and quantities, all positive,
   * and it left the catalogue and a positive ledger as they were.
   */
  lemma CreatedLines(db: Db, pharmacy: nat, user: nat, cart: seq<CartLine>, amount: Option<int>,
                     description: Option<string>, today: int, r: Db, sale: nat)
    requires ConfirmSaleChecked(db, pharmacy, user, cart, amount, description, today) == Ok((r, sale))
    requires LedgerPositive(db.usages) && FreshSaleId(db)
    ensures ConfirmSale(db, pharmacy, user, cart, amount, description, today) == Ok((r, sale))
    ensures Known(db.products, pharmacy, cart) && SoldQtys(cart) == CartQtys(cart)
    ensures ItemQtys(ItemsOf(r.items, sale)) == CartQtys(cart)
    ensures SameCatalogue(db.products, r.products) && LedgerPositive(r.usages)
    ensures |r.sales| > 0 && IsSale(r.sales[|r.sales| - 1], sale, pharmacy)
  {
    assert AllPositiveLines(cart) && ConfirmSale(db, pharmacy, user, cart, amount, description, today) == Ok((r, sale));
    CreatedShape(db, pharmacy, user, cart, amount, description, today, r, sale);
    PositiveSoldQtys(cart);
    CreatedItems(db, pharmacy, user, cart, amount, description, today, r, sale);
    CreatedPositive(db, pharmacy, user, cart, amount, description, today, r, sale);
  }

  /** A sale is written last, over known barcodes, and leaves the catalogue as it was. */
  lemma CreatedShape(db: Db, pharmacy: nat, user: nat, cart: seq<CartLine>, amount: Option<int>,
                     description: Option<string>, today: int, r: Db, sale: nat)
    requires ConfirmSale(db, pharmacy, user, cart, amount, description, today) == Ok((r, sale))
    ensures Known(db.products, pharmacy, cart) && SameCatalogue(db.products, r.products)
    ensures |r.sales| > 0 && IsSale(r.sales[|r.sales| - 1], sale, pharmacy)
  {
    ConfirmSaleHeader(db, pharmacy, user, cart, amount, description, today);
    ConfirmSaleRecords(db, pharmacy, user, cart, amount, description, today);
  }

  /** With every quantity positive, each line takes exactly its quantity. */
  lemma PositiveSoldQtys(cart: seq<CartLine>)
    requires AllPositiveLines(cart)
    ensures SoldQtys(cart) == CartQtys(cart)
  {
  }

  /** The item rows of a new sale are the priced cart's, and carry the cart's barcodes and quantities. */
  lemma CreatedItems(db: Db, pharmacy: nat, user: nat, cart: seq<CartLine>, amount: Option<int>,
                     description: Option<string>, today: int, r: Db, sale: nat)
    requires ConfirmSale(db, pharmacy, user, cart, amount, description, today) == Ok((r, sale))
    requires FreshSaleId(db)
    ensures ItemQtys(ItemsOf(r.items, sale)) == CartQtys(cart)
  {
    ConfirmSaleHeader(db, pharmacy, user, cart, amount, description, today);
    ConfirmSaleItems(db, pharmacy, user, cart, amount, description, today);
    var lines := PriceCart(db.products, pharmacy, cart).value;
    ItemsOfAdded(db.items, ItemsFor(sale, db.nextItemId, lines), sale);
    ItemsForQtys(db.products, pharmacy, cart, lines, sale, db.nextItemId);
  }

  /** A new sale keeps a positive ledger positive. */
  lemma CreatedPositive(db: Db, pharmacy: nat, user: nat, cart: seq<CartLine>, amount: Option<int>,
                        description: Option<string>, today: int, r: Db, sale: nat)
    requires ConfirmSale(db, pharmacy, user, cart, amount, description, today) == Ok((r, sale))
    requires LedgerPositive(db.usages)
    ensures LedgerPositive(r.usages)
  {
    ConfirmSaleStock(db, pharmacy, user, cart, amount, description, today, r, sale);
    var lines := PriceCart(db.products, pharmacy, cart).value;
    var allocss :| LinesTook(db, r, sale, db.nextItemId, pharmacy, lines, allocss);
    SaleRowsPositive(db.usages, sale, db.nextItemId, pharmacy, lines, allocss);
  }
}
