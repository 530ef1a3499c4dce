/**
 * `deleteSale`: every stored line of the sale is reversed in full from the
 * sale's ledger, any shortfall is a 409, and then the item rows and the
 * header are removed, all in one transaction.
 */
module SaleDelete {
  import opened Base
  import opened Records
  import opened Reversal
  import opened SaleRules
  import opened SaleUpdate
  import opened Deltas

  /**
   * One stored line: its barcode must resolve in the pharmacy (else a 400),
   * and reversing its whole quantity from the sale's rows of that product
   * must return exactly that quantity (else a 409). A line of zero or less
   * reverses nothing, so only a line of exactly zero passes.
   */
  function ReturnItem(db: Db, sale: nat, pharmacy: nat, it: SaleItem, today: int): (r: Result<Db, Rejection>)
    ensures FindProduct(db.products, pharmacy, it.barcode).None? ==> r == Err(Rejection(400, ProductNotFound(it.barcode)))
    ensures r.Err? ==> r.error.status == 400 || r.error.status == 409
    ensures r.Ok? ==> Kept(db, r.value)
    ensures r.Ok? ==> it.quantity >= 0
    ensures FindProduct(db.products, pharmacy, it.barcode).Some? ==>
      var f := DeltaFilter(sale, pharmacy, FindProduct(db.products, pharmacy, it.barcode).value.id, it.barcode);
      var back := Reverse(db, f, it.quantity, today);
      && (r.Ok? <==> back.returned == it.quantity)
      && (r.Ok? ==> r.value == back.db)
      && (r.Err? ==> r.error == Rejection(409, ReversalMismatch(it.barcode, it.quantity, back.returned)))
  {
    var found := FindProduct(db.products, pharmacy, it.barcode);
    if found.None? then Err(Rejection(400, ProductNotFound(it.barcode)))
    else
      var f := DeltaFilter(sale, pharmacy, found.value.id, it.barcode);
      var back := Reverse(db, f, it.quantity, today);
      if back.returned != it.quantity then Err(Rejection(409, ReversalMismatch(it.barcode, it.quantity, back.returned)))
      else
        ReverseKeepsCatalogue(db, f, it.quantity, today);
        Ok(back.db)
  }

  /** The stored lines in id order; the first failure aborts. */
  function ReturnItems(db: Db, sale: nat, pharmacy: nat, items: seq<SaleItem>, today: int): (r: Result<Db, Rejection>)
    ensures r.Err? ==> r.error.status == 400 || r.error.status == 409
    ensures r.Ok? ==> Kept(db, r.value)
    ensures r.Ok? ==> forall i :: 0 <= i < |items| ==> items[i].quantity >= 0
    decreases |items|
  {
    if |items| == 0 then Ok(db)
    else
      var one := ReturnItem(db, sale, pharmacy, items[0], today);
      if one.Err? then one
      else
        var rest := ReturnItems(one.value, sale, pharmacy, items[1..], today);
        if rest.Ok? then
          KeptTrans(db, one.value, rest.value);
          assert forall i :: 1 <= i < |items| ==> items[i] == items[1..][i - 1];
          rest
        else rest
  }

  /** The ledger filter a stored line is reversed from, when its barcode resolves. */
  lemma ReturnItemFilter(db: Db, sale: nat, pharmacy: nat, it: SaleItem)
    requires FindProduct(db.products, pharmacy, it.barcode).Some?
    ensures SaleLedger(db.products, sale, pharmacy, it.barcode)
      == DeltaFilter(sale, pharmacy, FindProduct(db.products, pharmacy, it.barcode).value.id, it.barcode)
  {
  }

  /**
   * Over a positive ledger a line with a known barcode is given back exactly
   * when its quantity is between zero and what the sale's ledger of that
   * barcode holds.
   */
  lemma ReturnItemCovered(db: Db, sale: nat, pharmacy: nat, it: SaleItem, today: int)
    requires LedgerPositive(db.usages) && FindProduct(db.products, pharmacy, it.barcode).Some?
    ensures ReturnItem(db, sale, pharmacy, it, today).Ok?
      <==> 0 <= it.quantity <= MatchSum(db.usages, SaleLedger(db.products, sale, pharmacy, it.barcode))
  {
    var f := SaleLedger(db.products, sale, pharmacy, it.barcode);
    MatchSumPositive(db.usages, f);
    if it.quantity > 0 {
      ReverseEffect(db, f, it.quantity, today);
    }
  }

  /**
   * A line given back takes its whole quantity off the sale's ledger of its
   * barcode, leaves every other barcode's ledger as it was, and keeps the
   * ledger positive.
   */
  lemma ReturnItemLedger(db: Db, sale: nat, pharmacy: nat, it: SaleItem, today: int, k: string)
    requires ReturnItem(db, sale, pharmacy, it, today).Ok? && LedgerPositive(db.usages)
    requires FindProduct(db.products, pharmacy, k).Some?
    ensures LedgerPositive(ReturnItem(db, sale, pharmacy, it, today).value.usages)
    ensures var g := SaleLedger(db.products, sale, pharmacy, k);
      MatchSum(ReturnItem(db, sale, pharmacy, it, today).value.usages, g)
        == MatchSum(db.usages, g) - if it.barcode == k then it.quantity else 0
  {
    var f := SaleLedger(db.products, sale, pharmacy, it.barcode);
    ReturnItemFilter(db, sale, pharmacy, it);
    ReverseKeepsPositive(db, f, it.quantity, today);
    if it.quantity > 0 {
      if it.barcode == k {
        ReverseEffect(db, f, it.quantity, today);
      } else {
        ReverseKeepsOthers(db, f, it.quantity, today, SaleLedger(db.products, sale, pharmacy, k));
      }
    }
  }

  /** The quantities of the lines after the first are the quantities of the rest. */
  lemma ItemQtysTail(items: seq<SaleItem>)
    requires |items| > 0
    ensures ItemQtys(items)[1..] == ItemQtys(items[1..])
  {
  }

  /**
   * Giving back the stored lines takes, for every barcode the pharmacy
   * sells, the lines' summed quantity of it off the sale's ledger of it.
   */
  lemma {:induction false} ReturnItemsLedger(db: Db, sale: nat, pharmacy: nat, items: seq<SaleItem>, today: int, k: string)
    requires ReturnItems(db, sale, pharmacy, items, today).Ok? && LedgerPositive(db.usages)
    requires FindProduct(db.products, pharmacy, k).Some?
    ensures LedgerPositive(ReturnItems(db, sale, pharmacy, items, today).value.usages)
    ensures var g := SaleLedger(db.products, sale, pharmacy, k);
      MatchSum(ReturnItems(db, sale, pharmacy, items, today).value.usages, g)
        == MatchSum(db.usages, g) - SumFor(ItemQtys(items), k)
    decreases |items|
  {
    if |items| > 0 {
      var one := ReturnItem(db, sale, pharmacy, items[0], today).value;
      ReturnItemLedger(db, sale, pharmacy, items[0], today, k);
      SaleLedgerSameCatalogue(db.products, one.products, sale, pharmacy, k);
      ReturnItemsLedger(one, sale, pharmacy, items[1..], today, k);
      SumForCons(ItemQtys(items), k);
      ItemQtysTail(items);
    }
  }

  /**
   * `deleteSale`. A missing sale is a 404; then every line is reversed (400
   * or 409 on failure) and the sale's items and header are deleted. Any
   * rejection leaves the database as it was.
   */
  function DeleteSale(db: Db, id: nat, pharmacy: nat, today: int): (r: Result<Db, Rejection>)
    ensures FindSale(db.sales, id, pharmacy).None? ==> r == Err(Rejection(404, SaleNotFound))
    ensures r.Err? ==> r.error.status in {400, 404, 409}
    ensures r.Ok? ==> FindSale(db.sales, id, pharmacy).Some?
    ensures r.Ok? ==>
      && r.value.items == ItemsNotOf(db.items, id)
      && r.value.sales == SalesWithout(db.sales, id, pharmacy)
      && r.value.settings == db.settings && r.value.users == db.users
      && r.value.nextSaleId == db.nextSaleId && r.value.nextItemId == db.nextItemId
      && SameCatalogue(db.products, r.value.products)
  {
    if FindSale(db.sales, id, pharmacy).None? then Err(Rejection(404, SaleNotFound))
    else
      var back := ReturnItems(db, id, pharmacy, ItemsOf(db.items, id), today);
      if back.Err? then Err(back.error)
      else
        var m := back.value;
        Ok(m.(items := ItemsNotOf(m.items, id), sales := SalesWithout(m.sales, id, pharmacy)))
  }

  /**
   * After a deletion the sale is gone: no header row of it remains in the
   * pharmacy, none of its item rows remain, and every other sale and item
   * row is still there.
   */
  lemma DeletedSaleIsGone(db: Db, id: nat, pharmacy: nat, today: int, r: Db)
    requires DeleteSale(db, id, pharmacy, today) == Ok(r)
    ensures FindSale(r.sales, id, pharmacy).None?
    ensures forall x :: x in r.items ==> x.sale != id
    ensures forall x :: x in db.items && x.sale != id ==> x in r.items
    ensures forall s :: s in db.sales && !IsSale(s, id, pharmacy) ==> s in r.sales
  {
    FindSaleFound(r.sales, id, pharmacy);
  }

  /**
   * A deletion takes, for every barcode the pharmacy sells, the sale's
   * summed line quantity of it off the sale's ledger of it, and keeps the
   * ledger positive.
   */
  lemma DeleteSaleLedger(db: Db, id: nat, pharmacy: nat, today: int, r: Db, k: string)
    requires DeleteSale(db, id, pharmacy, today) == Ok(r)
    requires LedgerPositive(db.usages) && FindProduct(db.products, pharmacy, k).Some?
    ensures LedgerPositive(r.usages)
    ensures var g := SaleLedger(db.products, id, pharmacy, k);
      MatchSum(r.usages, g) == MatchSum(db.usages, g) - SumFor(ItemQtys(ItemsOf(db.items, id)), k)
  {
    ReturnItemsLedger(db, id, pharmacy, ItemsOf(db.items, id), today, k);
  }
}
