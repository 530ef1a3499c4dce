/**
 * `confirmSale`: validate the cart, price it from the stored prices, insert
 * the header and the lines, consume every line's stock in FEFO order and run
 * the low-stock check, all in one transaction.
 */
module SaleCreate {
  import opened Base
  import opened Records
  import opened Snapshot
  import opened Consumption
  import opened StockAlert
  import opened SaleRules

  /** A requested cart line. */
  datatype CartLine = CartLine(barcode: string, quantity: int)

  /** A cart line resolved to its product and priced from the stored price. */
  datatype Priced = Priced(product: Product, quantity: int, price: int, subtotal: int)

  function PriceLine(p: Product, quantity: int): Priced {
    Priced(p, quantity, p.price, p.price * quantity)
  }

  predicate Known(ps: seq<Product>, pharmacy: nat, cart: seq<CartLine>) {
    forall i :: 0 <= i < |cart| ==> FindProduct(ps, pharmacy, cart[i].barcode).Some?
  }

  /** Line `i` is the first line whose barcode the pharmacy does not sell. */
  predicate FirstUnknown(ps: seq<Product>, pharmacy: nat, cart: seq<CartLine>, i: int) {
    && 0 <= i < |cart| && FindProduct(ps, pharmacy, cart[i].barcode).None?
    && forall j :: 0 <= j < i ==> FindProduct(ps, pharmacy, cart[j].barcode).Some?
  }

  /** Resolves and prices the lines in order; the first unknown barcode is a 404. */
  function PriceCart(ps: seq<Product>, pharmacy: nat, cart: seq<CartLine>): (r: Result<seq<Priced>, Rejection>)
    ensures r.Ok? <==> Known(ps, pharmacy, cart)
    ensures r.Ok? ==> |r.value| == |cart| && forall i :: 0 <= i < |cart| ==>
      r.value[i] == PriceLine(FindProduct(ps, pharmacy, cart[i].barcode).value, cart[i].quantity)
    ensures r.Err? ==> exists i :: FirstUnknown(ps, pharmacy, cart, i) && r.error == Rejection(404, ProductNotFound(cart[i].barcode))
  {
    if |cart| == 0 then Ok([])
    else
      var found := FindProduct(ps, pharmacy, cart[0].barcode);
      if found.None? then
        assert FirstUnknown(ps, pharmacy, cart, 0);
        Err(Rejection(404, ProductNotFound(cart[0].barcode)))
      else
        var rest := PriceCart(ps, pharmacy, cart[1..]);
        assert forall i :: 1 <= i < |cart| ==> cart[i] == cart[1..][i - 1];
        if rest.Err? then
          var k :| FirstUnknown(ps, pharmacy, cart[1..], k) && rest.error == Rejection(404, ProductNotFound(cart[1..][k].barcode));
          assert FirstUnknown(ps, pharmacy, cart, k + 1);
          Err(rest.error)
        else
          var r := [PriceLine(found.value, cart[0].quantity)] + rest.value;
          assert forall i :: 1 <= i < |r| ==> r[i] == rest.value[i - 1];
          Ok(r)
  }

  /** The summed subtotals. */
  function Total(lines: seq<Priced>): int {
    if |lines| == 0 then 0 else Total(lines[..|lines| - 1]) + lines[|lines| - 1].subtotal
  }

  /** Σ stored price × quantity over the cart, every barcode resolved. */
  function CartTotal(ps: seq<Product>, pharmacy: nat, cart: seq<CartLine>): int
    requires Known(ps, pharmacy, cart)
  {
    if |cart| == 0 then 0
    else
      var init := cart[..|cart| - 1];
      var last := cart[|cart| - 1];
      assert forall i :: 0 <= i < |init| ==> init[i] == cart[i];
      CartTotal(ps, pharmacy, init) + FindProduct(ps, pharmacy, last.barcode).value.price * last.quantity
  }

  /** The priced cart totals to Σ stored price × quantity. */
  lemma {:induction false} TotalOfPricedCart(ps: seq<Product>, pharmacy: nat, cart: seq<CartLine>)
    requires Known(ps, pharmacy, cart)
    ensures Total(PriceCart(ps, pharmacy, cart).value) == CartTotal(ps, pharmacy, cart)
    decreases |cart|
  {
    if |cart| > 0 {
      var init := cart[..|cart| - 1];
      var lines := PriceCart(ps, pharmacy, cart).value;
      assert forall i :: 0 <= i < |init| ==> init[i] == cart[i];
      TotalOfPricedCart(ps, pharmacy, init);
      assert lines[..|lines| - 1] == PriceCart(ps, pharmacy, init).value;
    }
  }

  /** The item rows the lines become, with consecutive ids from `first`. */
  function ItemsFor(sale: nat, first: nat, lines: seq<Priced>): (r: seq<SaleItem>)
    ensures |r| == |lines|
    ensures forall k :: 0 <= k < |lines| ==>
      r[k] == SaleItem(first + k, sale, lines[k].product.barcode, lines[k].product.name, lines[k].quantity, lines[k].price, lines[k].subtotal)
  {
    seq(|lines|, k requires 0 <= k < |lines| =>
      SaleItem(first + k, sale, lines[k].product.barcode, lines[k].product.name, lines[k].quantity, lines[k].price, lines[k].subtotal))
  }

  lemma SameCatalogueTrans(a: seq<Product>, b: seq<Product>, c: seq<Product>)
    requires SameCatalogue(a, b) && SameCatalogue(b, c)
    ensures SameCatalogue(a, c)
  {
  }

  /** Everything a line's consumption and low-stock check may change. */
  predicate Untouched(db: Db, r: Db) {
    && r.sales == db.sales && r.settings == db.settings && r.users == db.users
    && r.nextSaleId == db.nextSaleId
    && SameCatalogue(db.products, r.products)
  }

  /** The item row a line becomes. */
  function ItemOf(sale: nat, id: nat, l: Priced): SaleItem {
    SaleItem(id, sale, l.product.barcode, l.product.name, l.quantity, l.price, l.subtotal)
  }

  lemma ItemsForCons(sale: nat, first: nat, lines: seq<Priced>)
    requires |lines| > 0
    ensures ItemsFor(sale, first, lines) == [ItemOf(sale, first, lines[0])] + ItemsFor(sale, first + 1, lines[1..])
  {
    var a := ItemsFor(sale, first, lines);
    var b := [ItemOf(sale, first, lines[0])] + ItemsFor(sale, first + 1, lines[1..]);
    assert |a| == |b|;
    forall k | 0 <= k < |a| ensures a[k] == b[k] {
      if k > 0 {
        assert lines[1..][k - 1] == lines[k];
      }
    }
  }

  /** The ledger tag of a line sold as item `item` of `sale`. */
  function LineTag(sale: nat, item: nat, pharmacy: nat, l: Priced): Tag {
    Tag(sale, Some(item), pharmacy, l.product.id, l.product.barcode)
  }

  /** The slices a line of this quantity takes: positive ones summing to it, none when it is zero or less. */
  predicate SlicesFor(quantity: int, allocs: seq<Alloc>) {
    && (forall i :: 0 <= i < |allocs| ==> allocs[i].qty > 0)
    && AllocSum(allocs) == (if quantity > 0 then quantity else 0)
  }

  /**
   * `r` is `db` after the line sold as item `item` of `sale` took the slices
   * `allocs`: one ledger row per slice tagged with the item, and every batch
   * of the pharmacy debited by its slices.
   */
  predicate LineTook(db: Db, r: Db, sale: nat, item: nat, pharmacy: nat, l: Priced, allocs: seq<Alloc>) {
    && SlicesFor(l.quantity, allocs)
    && r.usages == db.usages + Rows(LineTag(sale, item, pharmacy, l), allocs)
    && |r.batches| == |db.batches|
    && forall i :: 0 <= i < |db.batches| ==> r.batches[i] == Debited(db.batches[i], pharmacy, allocs)
  }

  /** No batch holds a negative quantity. */
  predicate StockNonNegative(bs: seq<Batch>) {
    forall i :: 0 <= i < |bs| ==> bs[i].quantity >= 0
  }

  /** A consumption keeps batch ids unique and never drives a batch below zero. */
  lemma ConsumeKeepsStock(db: Db, t: Tag, qty: int, today: int)
    requires 0 < qty <= SaleableTotal(db.batches, t.pharmacy, t.product, today)
    ensures UniqueBatchIds(db.batches) && StockNonNegative(db.batches) ==>
      var after := Consume(db, t, qty, today).db.batches;
      UniqueBatchIds(after) && StockNonNegative(after)
  {
    if UniqueBatchIds(db.batches) && StockNonNegative(db.batches) {
      var after := Consume(db, t, qty, today).db.batches;
      ConsumeEffect(db, t, qty, today);
      forall i | 0 <= i < |db.batches| ensures after[i].id == db.batches[i].id && after[i].quantity >= 0 {
        ConsumeNeverOverdraws(db, t, qty, today, i);
      }
      SameIdsUnique(db.batches, after);
    }
  }

  /** The line asks for more than the saleable batches of its product hold. */
  predicate Short(bs: seq<Batch>, pharmacy: nat, l: Priced, today: int) {
    l.quantity > 0 && SaleableTotal(bs, pharmacy, l.product.id, today) < l.quantity
  }

  /** The 400 a short line is answered with: what was available and what was asked for. */
  function Shortfall(bs: seq<Batch>, pharmacy: nat, l: Priced, today: int): Rejection {
    Rejection(400, InsufficientStock(SaleableTotal(bs, pharmacy, l.product.id, today), l.quantity))
  }

  /**
   * One line: insert its item row under the next item id, consume its
   * quantity for that item (a shortfall is a 400), then run the low-stock check.
   * A quantity of zero or less takes no stock; any other appends ledger rows
   * tagged with the new item whose quantities sum to the line's quantity.
   */
  function SellLine(db: Db, sale: nat, pharmacy: nat, l: Priced, today: int): (r: Result<Db, Rejection>)
    ensures r.Err? <==> Short(db.batches, pharmacy, l, today)
    ensures r.Err? ==> r.error == Shortfall(db.batches, pharmacy, l, today)
    ensures r.Ok? ==> Untouched(db, r.value)
    ensures r.Ok? ==> r.value.items == db.items + [ItemOf(sale, db.nextItemId, l)]
    ensures r.Ok? ==> r.value.nextItemId == db.nextItemId + 1
    ensures r.Ok? && l.quantity <= 0 ==> r.value.batches == db.batches && r.value.usages == db.usages
    ensures r.Ok? && l.quantity > 0 ==> exists allocs ::
      && r.value.usages == db.usages + Rows(Tag(sale, Some(db.nextItemId), pharmacy, l.product.id, l.product.barcode), allocs)
      && AllocSum(allocs) == l.quantity
    ensures r.Ok? ==> exists allocs :: LineTook(db, r.value, sale, db.nextItemId, pharmacy, l, allocs)
    ensures r.Ok? && UniqueBatchIds(db.batches) && StockNonNegative(db.batches) ==>
      UniqueBatchIds(r.value.batches) && StockNonNegative(r.value.batches)
  {
    var id := db.nextItemId;
    var db1 := db.(items := db.items + [ItemOf(sale, id, l)], nextItemId := id + 1);
    var t := Tag(sale, Some(id), pharmacy, l.product.id, l.product.barcode);
    var c := Consume(db1, t, l.quantity, today);
    if c.Insufficient? then Err(Rejection(400, InsufficientStock(c.available, c.requested)))
    else
      ConsumeKeepsCatalogue(db1, t, l.quantity, today);
      if l.quantity > 0 then
        ConsumeEffect(db1, t, l.quantity, today);
        ConsumeFollowsOrder(db1, t, l.quantity, today);
        ConsumeKeepsStock(db1, t, l.quantity, today);
        assert LineTook(db, CheckLowStock(c.db, pharmacy, l.product.id), sale, id, pharmacy, l, c.allocations);
        Ok(CheckLowStock(c.db, pharmacy, l.product.id))
      else
        assert Rows(t, []) == [] && db.usages + [] == db.usages;
        assert LineTook(db, CheckLowStock(c.db, pharmacy, l.product.id), sale, id, pharmacy, l, []);
        Ok(CheckLowStock(c.db, pharmacy, l.product.id))
  }

  /** Debiting two runs of slices one after the other is debiting them together. */
  lemma DebitedAppend(b: Batch, pharmacy: nat, a: seq<Alloc>, c: seq<Alloc>)
    ensures Debited(Debited(b, pharmacy, a), pharmacy, c) == Debited(b, pharmacy, a + c)
  {
    TakenAppend(a, c, b.id);
  }

  /** The slices of every line, in cart order. */
  function Flatten(allocss: seq<seq<Alloc>>): seq<Alloc> {
    if |allocss| == 0 then [] else allocss[0] + Flatten(allocss[1..])
  }

  /** The ledger rows of the lines sold as consecutive items from `first`, line by line. */
  function SaleRows(sale: nat, first: nat, pharmacy: nat, lines: seq<Priced>, allocss: seq<seq<Alloc>>): seq<Usage>
    requires |allocss| == |lines|
    decreases |lines|
  {
    if |lines| == 0 then []
    else Rows(LineTag(sale, first, pharmacy, lines[0]), allocss[0]) + SaleRows(sale, first + 1, pharmacy, lines[1..], allocss[1..])
  }

  /**
   * `r` is `db` after the lines, sold as consecutive items from `first`,
   * took the slices `allocss`, one run per line: the ledger gains each
   * line's rows in cart order and every batch of the pharmacy is debited by
   * all its slices.
   */
  predicate LinesTook(db: Db, r: Db, sale: nat, first: nat, pharmacy: nat, lines: seq<Priced>, allocss: seq<seq<Alloc>>) {
    && |allocss| == |lines|
    && (forall k :: 0 <= k < |lines| ==> SlicesFor(lines[k].quantity, allocss[k]))
    && r.usages == db.usages + SaleRows(sale, first, pharmacy, lines, allocss)
    && |r.batches| == |db.batches|
    && forall i :: 0 <= i < |db.batches| ==> r.batches[i] == Debited(db.batches[i], pharmacy, Flatten(allocss))
  }

  /** The first line's run of slices followed by the rest's is the whole cart's. */
  lemma LinesTookCons(db: Db, one: Db, r: Db, sale: nat, first: nat, pharmacy: nat, lines: seq<Priced>,
                      a: seq<Alloc>, rest: seq<seq<Alloc>>)
    requires |lines| > 0
    requires LineTook(db, one, sale, first, pharmacy, lines[0], a)
    requires one.nextItemId == first + 1 && LinesTook(one, r, sale, one.nextItemId, pharmacy, lines[1..], rest)
    ensures LinesTook(db, r, sale, first, pharmacy, lines, [a] + rest)
  {
    var allocss := [a] + rest;
    assert allocss[1..] == rest;
    assert Flatten(allocss) == a + Flatten(rest);
    assert SaleRows(sale, first, pharmacy, lines, allocss)
        == Rows(LineTag(sale, first, pharmacy, lines[0]), a) + SaleRows(sale, first + 1, pharmacy, lines[1..], rest);
    forall k | 0 <= k < |lines| ensures SlicesFor(lines[k].quantity, allocss[k]) {
      if k > 0 {
        assert lines[1..][k - 1] == lines[k];
      }
    }
    forall i | 0 <= i < |db.batches| ensures r.batches[i] == Debited(db.batches[i], pharmacy, Flatten(allocss)) {
      DebitedAppend(db.batches[i], pharmacy, a, Flatten(rest));
    }
  }

  /**
   * Selling the lines takes, for each line in cart order, positive slices
   * summing to its quantity (none for a quantity of zero or less), logs one
   * ledger row per slice tagged with the line's item and debits the slices
   * from their batches.
   */
  lemma {:induction false} SellLinesStock(db: Db, sale: nat, pharmacy: nat, lines: seq<Priced>, today: int, r: Db)
    requires SellLines(db, sale, pharmacy, lines, today) == Ok(r)
    ensures exists allocss :: LinesTook(db, r, sale, db.nextItemId, pharmacy, lines, allocss)
    decreases |lines|
  {
    if |lines| == 0 {
      SellNothing(db, sale, pharmacy, lines, today);
    } else {
      var one := SellLinesUnfold(db, sale, pharmacy, lines, today);
      var a := LineSlices(db, sale, pharmacy, lines[0], today, one);
      SellLinesStock(one, sale, pharmacy, lines[1..], today, r);
      var rest :| LinesTook(one, r, sale, one.nextItemId, pharmacy, lines[1..], rest);
      LinesTookCons(db, one, r, sale, db.nextItemId, pharmacy, lines, a, rest);
      assert LinesTook(db, r, sale, db.nextItemId, pharmacy, lines, [a] + rest);
    }
  }

  /** The slices an accepted line took. */
  lemma LineSlices(db: Db, sale: nat, pharmacy: nat, l: Priced, today: int, one: Db) returns (a: seq<Alloc>)
    requires SellLine(db, sale, pharmacy, l, today) == Ok(one)
    ensures LineTook(db, one, sale, db.nextItemId, pharmacy, l, a)
  {
    a :| LineTook(db, one, sale, db.nextItemId, pharmacy, l, a);
  }

  /** No lines take nothing. */
  lemma SellNothing(db: Db, sale: nat, pharmacy: nat, lines: seq<Priced>, today: int)
    requires |lines| == 0
    ensures SellLines(db, sale, pharmacy, lines, today) == Ok(db)
    ensures LinesTook(db, db, sale, db.nextItemId, pharmacy, lines, [])
  {
    assert db.usages + [] == db.usages;
  }

  /** An accepted cart sold its first line, then the rest from there. */
  lemma SellLinesUnfold(db: Db, sale: nat, pharmacy: nat, lines: seq<Priced>, today: int) returns (one: Db)
    requires |lines| > 0 && SellLines(db, sale, pharmacy, lines, today).Ok?
    ensures SellLine(db, sale, pharmacy, lines[0], today) == Ok(one)
    ensures one.nextItemId == db.nextItemId + 1
    ensures SellLines(one, sale, pharmacy, lines[1..], today) == SellLines(db, sale, pharmacy, lines, today)
  {
    one := SellLine(db, sale, pharmacy, lines[0], today).value;
  }

  /** Consumption touches the snapshot fields of the product rows and nothing else of the catalogue. */
  lemma ConsumeKeepsCatalogue(db: Db, t: Tag, qty: int, today: int)
    requires Consume(db, t, qty, today).Consumed?
    ensures var r := Consume(db, t, qty, today).db;
      && SameCatalogue(db.products, r.products)
      && r.sales == db.sales && r.settings == db.settings && r.users == db.users && r.items == db.items
      && r.nextSaleId == db.nextSaleId && r.nextItemId == db.nextItemId
  {
    if qty > 0 {
      ConsumeEffect(db, t, qty, today);
    }
  }

  /** The line loop: the lines are sold in order and the first shortfall aborts everything. */
  function SellLines(db: Db, sale: nat, pharmacy: nat, lines: seq<Priced>, today: int): (r: Result<Db, Rejection>)
    ensures r.Err? ==> r.error.status == 400 && r.error.reason.InsufficientStock?
    ensures r.Ok? ==> Untouched(db, r.value)
    ensures r.Ok? ==> r.value.items == db.items + ItemsFor(sale, db.nextItemId, lines)
    ensures r.Ok? ==> r.value.nextItemId == db.nextItemId + |lines|
    decreases |lines|
  {
    if |lines| == 0 then
      assert db.items + ItemsFor(sale, db.nextItemId, lines) == db.items;
      Ok(db)
    else
      var one := SellLine(db, sale, pharmacy, lines[0], today);
      if one.Err? then one
      else
        var rest := SellLines(one.value, sale, pharmacy, lines[1..], today);
        if rest.Err? then rest
        else
          SellCompose(db, one.value, rest.value, sale, lines);
          rest
  }

  /**
   * Line `k` is where the cart runs short: the lines before it were sold,
   * and it asks for more than the stock they left holds.
   */
  predicate ShortAt(db: Db, sale: nat, pharmacy: nat, lines: seq<Priced>, today: int, k: int) {
    && 0 <= k < |lines|
    && SellLines(db, sale, pharmacy, lines[..k], today).Ok?
    && Short(SellLines(db, sale, pharmacy, lines[..k], today).value.batches, pharmacy, lines[k], today)
  }

  /** Line `k` runs short and `e` is its 400. */
  predicate ShortNamed(db: Db, sale: nat, pharmacy: nat, lines: seq<Priced>, today: int, k: int, e: Rejection) {
    && ShortAt(db, sale, pharmacy, lines, today, k)
    && e == Shortfall(SellLines(db, sale, pharmacy, lines[..k], today).value.batches, pharmacy, lines[k], today)
  }

  /**
   * The line loop is rejected exactly when some line, in cart order, asks for
   * more than the stock the earlier lines left, and the rejection is that
   * line's 400. A cart where no line runs short is accepted.
   */
  lemma {:induction false} SellLinesShortfall(db: Db, sale: nat, pharmacy: nat, lines: seq<Priced>, today: int)
    ensures SellLines(db, sale, pharmacy, lines, today).Err? <==> exists k :: ShortAt(db, sale, pharmacy, lines, today, k)
    ensures SellLines(db, sale, pharmacy, lines, today).Err? ==>
      exists k :: ShortNamed(db, sale, pharmacy, lines, today, k, SellLines(db, sale, pharmacy, lines, today).error)
    decreases |lines|
  {
    if |lines| > 0 {
      var one := SellLine(db, sale, pharmacy, lines[0], today);
      assert lines[..0] == [];
      SellNothing(db, sale, pharmacy, lines[..0], today);
      if one.Err? {
        assert ShortNamed(db, sale, pharmacy, lines, today, 0, SellLines(db, sale, pharmacy, lines, today).error);
      } else {
        SellLinesShortfall(one.value, sale, pharmacy, lines[1..], today);
        forall k | 0 < k < |lines|
          ensures ShortAt(db, sale, pharmacy, lines, today, k) <==> ShortAt(one.value, sale, pharmacy, lines[1..], today, k - 1)
          ensures ShortAt(db, sale, pharmacy, lines, today, k) ==>
            SellLines(db, sale, pharmacy, lines[..k], today) == SellLines(one.value, sale, pharmacy, lines[1..][..k - 1], today)
        {
          SellLinesPrefix(db, sale, pharmacy, lines, today, k);
        }
        assert !ShortAt(db, sale, pharmacy, lines, today, 0);
        if SellLines(db, sale, pharmacy, lines, today).Err? {
          var j :| ShortNamed(one.value, sale, pharmacy, lines[1..], today, j, SellLines(db, sale, pharmacy, lines, today).error);
          assert ShortAt(db, sale, pharmacy, lines, today, j + 1);
          assert ShortNamed(db, sale, pharmacy, lines, today, j + 1, SellLines(db, sale, pharmacy, lines, today).error);
        } else {
          forall k | 0 <= k < |lines| ensures !ShortAt(db, sale, pharmacy, lines, today, k) {
            if k > 0 {
              assert !ShortAt(one.value, sale, pharmacy, lines[1..], today, k - 1);
            }
          }
        }
      }
    }
  }

  /** Once the first line is sold, the lines up to `k` are the rest's lines up to `k - 1` sold from there. */
  lemma SellLinesPrefix(db: Db, sale: nat, pharmacy: nat, lines: seq<Priced>, today: int, k: nat)
    requires 0 < k <= |lines| && SellLine(db, sale, pharmacy, lines[0], today).Ok?
    ensures SellLines(db, sale, pharmacy, lines[..k], today)
         == SellLines(SellLine(db, sale, pharmacy, lines[0], today).value, sale, pharmacy, lines[1..][..k - 1], today)
    ensures k < |lines| ==> lines[1..][k - 1] == lines[k]
  {
    var p := lines[..k];
    assert p[0] == lines[0];
    assert p[1..] == lines[1..][..k - 1];
    SellLinesCons(db, sale, pharmacy, p, today);
  }

  /** A cart whose first line is sold is the rest sold from there. */
  lemma SellLinesCons(db: Db, sale: nat, pharmacy: nat, lines: seq<Priced>, today: int)
    requires |lines| > 0 && SellLine(db, sale, pharmacy, lines[0], today).Ok?
    ensures SellLines(db, sale, pharmacy, lines, today)
         == SellLines(SellLine(db, sale, pharmacy, lines[0], today).value, sale, pharmacy, lines[1..], today)
  {
  }

  /** Selling the first line and then the rest is selling all the lines. */
  lemma SellCompose(db: Db, one: Db, rest: Db, sale: nat, lines: seq<Priced>)
    requires |lines| > 0
    requires Untouched(db, one) && one.items == db.items + [ItemOf(sale, db.nextItemId, lines[0])]
    requires one.nextItemId == db.nextItemId + 1
    requires Untouched(one, rest) && rest.items == one.items + ItemsFor(sale, one.nextItemId, lines[1..])
    requires rest.nextItemId == one.nextItemId + |lines[1..]|
    ensures Untouched(db, rest) && rest.items == db.items + ItemsFor(sale, db.nextItemId, lines)
    ensures rest.nextItemId == db.nextItemId + |lines|
  {
    SameCatalogueTrans(db.products, one.products, rest.products);
    ItemsCompose(db.items, sale, db.nextItemId, lines);
  }

  lemma ItemsCompose(items: seq<SaleItem>, sale: nat, first: nat, lines: seq<Priced>)
    requires |lines| > 0
    ensures (items + [ItemOf(sale, first, lines[0])]) + ItemsFor(sale, first + 1, lines[1..]) == items + ItemsFor(sale, first, lines)
  {
    ItemsForCons(sale, first, lines);
    var head := [ItemOf(sale, first, lines[0])];
    var tail := ItemsFor(sale, first + 1, lines[1..]);
    assert (items + head) + tail == items + (head + tail);
  }

  /** The header row of a new sale under the next sale id, the change being `amount - total`. */
  function HeaderFor(db: Db, pharmacy: nat, user: nat, total: int, amount: int, description: Option<string>): Sale {
    Sale(db.nextSaleId, pharmacy, user, total, Some(amount), Some(amount - total), description)
  }

  /** The database with a header row written and the next sale id taken. */
  function Opened(db: Db, header: Sale): (r: Db)
    ensures r.batches == db.batches && r.usages == db.usages && r.items == db.items && r.nextItemId == db.nextItemId
  {
    db.(sales := db.sales + [header], nextSaleId := db.nextSaleId + 1)
  }

  /** The write phase: the header row under the next sale id, then the lines, the change being `amount - total`. */
  function Record(db: Db, pharmacy: nat, user: nat, lines: seq<Priced>, total: int, amount: int,
                  description: Option<string>, today: int): (r: Result<(Db, nat), Rejection>)
    ensures r.Err? ==> r.error.status == 400 && r.error.reason.InsufficientStock?
    ensures r.Ok? ==>
      && r.value.1 == db.nextSaleId
      && r.value.0.nextSaleId == db.nextSaleId + 1
      && r.value.0.sales == db.sales + [Sale(db.nextSaleId, pharmacy, user, total, Some(amount), Some(amount - total), description)]
      && r.value.0.items == db.items + ItemsFor(db.nextSaleId, db.nextItemId, lines)
      && r.value.0.nextItemId == db.nextItemId + |lines|
      && r.value.0.settings == db.settings && r.value.0.users == db.users
      && SameCatalogue(db.products, r.value.0.products)
  {
    var sale := db.nextSaleId;
    var sold := SellLines(Opened(db, HeaderFor(db, pharmacy, user, total, amount, description)), sale, pharmacy, lines, today);
    if sold.Err? then Err(sold.error) else Ok((sold.value, sale))
  }

  /**
   * The checks `confirmSale` makes before writing, in order: an empty cart or
   * a missing amount is a 400; an over-long description is a 400; an unknown
   * barcode is a 404; a payment below the total is a 400. What passes is the
   * priced cart, its total and the stored description.
   */
  function CheckCart(db: Db, pharmacy: nat, cart: seq<CartLine>, amount: Option<int>,
                     description: Option<string>): (r: Result<(seq<Priced>, int, Option<string>), Rejection>)
    ensures |cart| == 0 || amount.None? ==> r == Err(Rejection(400, InvalidInput))
    ensures r.Ok? ==>
      && |cart| > 0 && amount.Some? && CleanDescription(description).Ok? && Known(db.products, pharmacy, cart)
      && r.value == (PriceCart(db.products, pharmacy, cart).value, CartTotal(db.products, pharmacy, cart), CleanDescription(description).value)
      && amount.value >= CartTotal(db.products, pharmacy, cart)
      && |r.value.0| == |cart|
    ensures r.Err? ==> r.error.status == 400 || r.error.status == 404
    ensures r.Err? && r.error.status == 404 ==>
      exists i :: FirstUnknown(db.products, pharmacy, cart, i) && r.error.reason == ProductNotFound(cart[i].barcode)
    ensures (&& |cart| > 0 && amount.Some? && CleanDescription(description).Ok? && Known(db.products, pharmacy, cart)
             && amount.value < CartTotal(db.products, pharmacy, cart)) ==> r == Err(Rejection(400, InsufficientPayment))
    ensures (&& |cart| > 0 && amount.Some? && CleanDescription(description).Ok? && Known(db.products, pharmacy, cart)
             && amount.value >= CartTotal(db.products, pharmacy, cart)) ==> r.Ok?
  {
    if |cart| == 0 || amount.None? then Err(Rejection(400, InvalidInput))
    else
      var desc := CleanDescription(description);
      if desc.Err? then Err(desc.error)
      else
        var priced := PriceCart(db.products, pharmacy, cart);
        if priced.Err? then Err(priced.error)
        else
          var total := Total(priced.value);
          TotalOfPricedCart(db.products, pharmacy, cart);
          if amount.value - total < 0 then Err(Rejection(400, InsufficientPayment))
          else Ok((priced.value, total, desc.value))
  }

  /**
   * `confirmSale`: the checks of `CheckCart`, then the header and lines are
   * written and the stock consumed, where a shortfall is a 400. Any rejection
   * leaves the database as it was (there is no state in an `Err`). On success
   * the answer carries the new sale's id; the lines are priced from the
   * stored prices.
   */
  function ConfirmSale(db: Db, pharmacy: nat, user: nat, cart: seq<CartLine>, amount: Option<int>,
                       description: Option<string>, today: int): (r: Result<(Db, nat), Rejection>)
    ensures |cart| == 0 || amount.None? ==> r == Err(Rejection(400, InvalidInput))
    ensures r.Ok? ==> |cart| > 0 && amount.Some? && CleanDescription(description).Ok? && Known(db.products, pharmacy, cart)
    ensures r.Err? ==> r.error.status == 400 || r.error.status == 404
    ensures r.Err? && r.error.status == 404 ==>
      exists i :: FirstUnknown(db.products, pharmacy, cart, i) && r.error.reason == ProductNotFound(cart[i].barcode)
    ensures (&& |cart| > 0 && amount.Some? && CleanDescription(description).Ok? && Known(db.products, pharmacy, cart)
             && amount.value < CartTotal(db.products, pharmacy, cart)) ==> r == Err(Rejection(400, InsufficientPayment))
    ensures CheckCart(db, pharmacy, cart, amount, description).Ok? ==>
      var c := CheckCart(db, pharmacy, cart, amount, description).value;
      var sold := SellLines(Opened(db, HeaderFor(db, pharmacy, user, c.1, amount.value, c.2)), db.nextSaleId, pharmacy, c.0, today);
      && (r.Ok? <==> sold.Ok?)
      && (sold.Err? ==> r == Err(sold.error))
  {
    var checked := CheckCart(db, pharmacy, cart, amount, description);
    if checked.Err? then Err(checked.error)
    else
      Record(db, pharmacy, user, checked.value.0, checked.value.1, amount.value, checked.value.2, today)
  }

  /** An accepted sale is the write phase run on the priced cart, its total and the stored description. */
  lemma ConfirmSaleRecords(db: Db, pharmacy: nat, user: nat, cart: seq<CartLine>, amount: Option<int>,
                           description: Option<string>, today: int)
    requires ConfirmSale(db, pharmacy, user, cart, amount, description, today).Ok?
    ensures amount.Some? && amount.value >= CartTotal(db.products, pharmacy, cart)
    ensures PriceCart(db.products, pharmacy, cart).Ok? && CleanDescription(description).Ok?
    ensures ConfirmSale(db, pharmacy, user, cart, amount, description, today)
         == Record(db, pharmacy, user, PriceCart(db.products, pharmacy, cart).value, CartTotal(db.products, pharmacy, cart),
                   amount.value, CleanDescription(description).value, today)
  {
    var checked := CheckCart(db, pharmacy, cart, amount, description);
    assert checked.Ok?;
  }

  /** The write phase sells the lines on the database with the header added. */
  lemma RecordSells(db: Db, pharmacy: nat, user: nat, lines: seq<Priced>, total: int, amount: int,
                    description: Option<string>, today: int, r: Db, sale: nat) returns (withHeader: Db)
    requires Record(db, pharmacy, user, lines, total, amount, description, today) == Ok((r, sale))
    ensures sale == db.nextSaleId
    ensures withHeader == db.(sales := db.sales + [Sale(sale, pharmacy, user, total, Some(amount), Some(amount - total), description)],
                              nextSaleId := sale + 1)
    ensures SellLines(withHeader, sale, pharmacy, lines, today) == Ok(r)
  {
    withHeader := Opened(db, HeaderFor(db, pharmacy, user, total, amount, description));
    var sold := SellLines(withHeader, db.nextSaleId, pharmacy, lines, today);
    assert sold == Ok(r);
  }

  /** An accepted sale is its priced lines sold on the database with the header added. */
  lemma ConfirmSaleSells(db: Db, pharmacy: nat, user: nat, cart: seq<CartLine>, amount: Option<int>,
                         description: Option<string>, today: int, r: Db, sale: nat) returns (withHeader: Db)
    requires ConfirmSale(db, pharmacy, user, cart, amount, description, today) == Ok((r, sale))
    ensures sale == db.nextSaleId && PriceCart(db.products, pharmacy, cart).Ok?
    ensures withHeader.usages == db.usages && withHeader.batches == db.batches && withHeader.nextItemId == db.nextItemId
    ensures SellLines(withHeader, sale, pharmacy, PriceCart(db.products, pharmacy, cart).value, today) == Ok(r)
  {
    ConfirmSaleRecords(db, pharmacy, user, cart, amount, description, today);
    withHeader := RecordSells(db, pharmacy, user, PriceCart(db.products, pharmacy, cart).value,
                              CartTotal(db.products, pharmacy, cart), amount.value, CleanDescription(description).value,
                              today, r, sale);
  }

  /**
   * What an accepted sale does to the stock: each priced line, in cart
   * order, takes positive slices summing to its quantity (none for a
   * quantity of zero or less), logs one ledger row per slice tagged with its
   * item and debits the slices from their batches.
   */
  lemma ConfirmSaleStock(db: Db, pharmacy: nat, user: nat, cart: seq<CartLine>, amount: Option<int>,
                         description: Option<string>, today: int, r: Db, sale: nat)
    requires ConfirmSale(db, pharmacy, user, cart, amount, description, today) == Ok((r, sale))
    ensures sale == db.nextSaleId && PriceCart(db.products, pharmacy, cart).Ok?
    ensures exists allocss :: LinesTook(db, r, sale, db.nextItemId, pharmacy, PriceCart(db.products, pharmacy, cart).value, allocss)
  {
    var db1 := ConfirmSaleSells(db, pharmacy, user, cart, amount, description, today, r, sale);
    var lines := PriceCart(db.products, pharmacy, cart).value;
    SellLinesStock(db1, sale, pharmacy, lines, today, r);
    var allocss :| LinesTook(db1, r, sale, db1.nextItemId, pharmacy, lines, allocss);
    LinesTookSameStock(db1, db, r, sale, db.nextItemId, pharmacy, lines, allocss);
  }

  /** The relation looks only at the usage rows and the batches of the database it starts from. */
  lemma LinesTookSameStock(db: Db, db': Db, r: Db, sale: nat, first: nat, pharmacy: nat, lines: seq<Priced>,
                           allocss: seq<seq<Alloc>>)
    requires db'.usages == db.usages && db'.batches == db.batches
    requires LinesTook(db, r, sale, first, pharmacy, lines, allocss)
    ensures LinesTook(db', r, sale, first, pharmacy, lines, allocss)
  {
  }

  /**
   * What an accepted sale writes as its header: a row under the next sale id
   * with the cart's total, the amount paid, which covers the total, and the
   * change.
   */
  lemma ConfirmSaleHeader(db: Db, pharmacy: nat, user: nat, cart: seq<CartLine>, amount: Option<int>,
                          description: Option<string>, today: int)
    requires ConfirmSale(db, pharmacy, user, cart, amount, description, today).Ok?
    ensures var r := ConfirmSale(db, pharmacy, user, cart, amount, description, today).value;
      var total := CartTotal(db.products, pharmacy, cart);
      && r.1 == db.nextSaleId
      && r.0.nextSaleId == db.nextSaleId + 1
      && amount.Some? && amount.value >= total
      && r.0.sales == db.sales + [Sale(db.nextSaleId, pharmacy, user, total, amount, Some(amount.value - total),
                                       CleanDescription(description).value)]
  {
    ConfirmSaleRecords(db, pharmacy, user, cart, amount, description, today);
    assert Some(amount.value) == amount;
  }

  /**
   * A cart that passes every check is refused exactly when one of its priced
   * lines, in cart order, asks for more than the saleable stock the earlier
   * lines left (the header row moves no stock, so the first line is judged
   * against the batches as they were), and the refusal is that line's 400.
   * Otherwise the sale is accepted.
   */
  lemma ConfirmSaleShortfall(db: Db, pharmacy: nat, user: nat, cart: seq<CartLine>, amount: Option<int>,
                             description: Option<string>, today: int)
    requires CheckCart(db, pharmacy, cart, amount, description).Ok?
    ensures var c := CheckCart(db, pharmacy, cart, amount, description).value;
      var start := Opened(db, HeaderFor(db, pharmacy, user, c.1, amount.value, c.2));
      var r := ConfirmSale(db, pharmacy, user, cart, amount, description, today);
      && start.batches == db.batches
      && (r.Ok? <==> forall k :: !ShortAt(start, db.nextSaleId, pharmacy, c.0, today, k))
      && (r.Err? ==> exists k :: ShortNamed(start, db.nextSaleId, pharmacy, c.0, today, k, r.error))
  {
    var c := CheckCart(db, pharmacy, cart, amount, description).value;
    var start := Opened(db, HeaderFor(db, pharmacy, user, c.1, amount.value, c.2));
    SellLinesShortfall(start, db.nextSaleId, pharmacy, c.0, today);
  }

  /**
   * The write phase is rejected exactly when some line, in cart order, runs
   * short against the stock the earlier lines left, and the rejection names
   * that line's saleable total and quantity.
   */
  lemma RecordShortfall(db: Db, pharmacy: nat, user: nat, lines: seq<Priced>, total: int, amount: int,
                        description: Option<string>, today: int)
    ensures var start := Opened(db, HeaderFor(db, pharmacy, user, total, amount, description));
      var r := Record(db, pharmacy, user, lines, total, amount, description, today);
      && start.batches == db.batches
      && (r.Ok? <==> forall k :: !ShortAt(start, db.nextSaleId, pharmacy, lines, today, k))
      && (r.Err? ==> exists k :: ShortNamed(start, db.nextSaleId, pharmacy, lines, today, k, r.error))
  {
    SellLinesShortfall(Opened(db, HeaderFor(db, pharmacy, user, total, amount, description)), db.nextSaleId, pharmacy, lines, today);
  }

  /** Rows that keep their ids keep them unique. */
  lemma SameIdsUnique(a: seq<Batch>, b: seq<Batch>)
    requires |a| == |b| && UniqueBatchIds(a)
    requires forall i :: 0 <= i < |a| ==> b[i].id == a[i].id
    ensures UniqueBatchIds(b)
  {
  }

  /** Selling a cart keeps batch ids unique and never drives a batch below zero. */
  lemma {:induction false} SellLinesNoOverdraw(db: Db, sale: nat, pharmacy: nat, lines: seq<Priced>, today: int)
    requires SellLines(db, sale, pharmacy, lines, today).Ok?
    requires UniqueBatchIds(db.batches) && StockNonNegative(db.batches)
    ensures var r := SellLines(db, sale, pharmacy, lines, today).value;
      UniqueBatchIds(r.batches) && StockNonNegative(r.batches)
    decreases |lines|
  {
    if |lines| > 0 {
      var one := SellLinesUnfold(db, sale, pharmacy, lines, today);
      SellLinesNoOverdraw(one, sale, pharmacy, lines[1..], today);
    }
  }

  /** An accepted sale keeps batch ids unique and leaves no batch below zero. */
  lemma ConfirmSaleNoOverdraw(db: Db, pharmacy: nat, user: nat, cart: seq<CartLine>, amount: Option<int>,
                              description: Option<string>, today: int, r: Db, sale: nat)
    requires ConfirmSale(db, pharmacy, user, cart, amount, description, today) == Ok((r, sale))
    requires UniqueBatchIds(db.batches) && StockNonNegative(db.batches)
    ensures UniqueBatchIds(r.batches) && StockNonNegative(r.batches)
  {
    var db1 := ConfirmSaleSells(db, pharmacy, user, cart, amount, description, today, r, sale);
    SellLinesNoOverdraw(db1, sale, pharmacy, PriceCart(db.products, pharmacy, cart).value, today);
  }

  /** What an accepted sale writes as its lines: one item row per cart line, priced from the stored prices. */
  lemma ConfirmSaleItems(db: Db, pharmacy: nat, user: nat, cart: seq<CartLine>, amount: Option<int>,
                         description: Option<string>, today: int)
    requires ConfirmSale(db, pharmacy, user, cart, amount, description, today).Ok?
    ensures var r := ConfirmSale(db, pharmacy, user, cart, amount, description, today).value;
      && r.0.items == db.items + ItemsFor(db.nextSaleId, db.nextItemId, PriceCart(db.products, pharmacy, cart).value)
      && r.0.nextItemId == db.nextItemId + |cart|
  {
    ConfirmSaleRecords(db, pharmacy, user, cart, amount, description, today);
  }

  /**
   * A cart confirmSale accepts although it evidently should not: two units of
   * a product and minus two of the same total to zero, so an amount of zero
   * passes every check.
   */
  lemma OffsettingLinesPay(db: Db, pharmacy: nat, barcode: string)
    requires FindProduct(db.products, pharmacy, barcode).Some?
    ensures var cart := [CartLine(barcode, 2), CartLine(barcode, -2)];
      && Known(db.products, pharmacy, cart) && CartTotal(db.products, pharmacy, cart) == 0
      && CheckCart(db, pharmacy, cart, Some(0), None).Ok?
  {
    var ps := db.products;
    var cart := [CartLine(barcode, 2), CartLine(barcode, -2)];
    var price := FindProduct(ps, pharmacy, barcode).value.price;
    assert cart[..1] == [CartLine(barcode, 2)];
    assert [CartLine(barcode, 2)][..0] == [];
    assert CartTotal(ps, pharmacy, [CartLine(barcode, 2)]) == price * 2;
    assert CartTotal(ps, pharmacy, cart) == price * 2 + price * -2;
  }

  predicate AllPositiveLines(cart: seq<CartLine>) {
    forall i :: 0 <= i < |cart| ==> cart[i].quantity > 0
  }

  /**
   * `confirmSale` with the quantity validation it evidently intends: a line
   * whose quantity is not positive is a 400 before anything else happens.
   */
  function ConfirmSaleChecked(db: Db, pharmacy: nat, user: nat, cart: seq<CartLine>, amount: Option<int>,
                              description: Option<string>, today: int): (r: Result<(Db, nat), Rejection>)
    ensures !AllPositiveLines(cart) ==> r == Err(Rejection(400, InvalidInput))
    ensures r.Ok? ==> AllPositiveLines(cart) && r == ConfirmSale(db, pharmacy, user, cart, amount, description, today)
  {
    if !AllPositiveLines(cart) then Err(Rejection(400, InvalidInput))
    else ConfirmSale(db, pharmacy, user, cart, amount, description, today)
  }

  /** A line of positive quantity at a non-negative stored price has a non-negative subtotal. */
  lemma LineSubtotalNonNegative(ps: seq<Product>, pharmacy: nat, l: CartLine)
    requires FindProduct(ps, pharmacy, l.barcode).Some? && l.quantity > 0
    requires forall i :: 0 <= i < |ps| ==> ps[i].price >= 0
    ensures FindProduct(ps, pharmacy, l.barcode).value.price * l.quantity >= 0
  {
    FindProductFirst(ps, pharmacy, l.barcode);
  }

  /** With positive quantities and prices no line offsets another: the total covers every line's subtotal. */
  lemma {:induction false} PositiveCartCoversLines(ps: seq<Product>, pharmacy: nat, cart: seq<CartLine>, k: nat)
    requires Known(ps, pharmacy, cart) && AllPositiveLines(cart) && k <= |cart|
    requires forall i :: 0 <= i < |ps| ==> ps[i].price >= 0
    ensures CartTotal(ps, pharmacy, cart) >= 0
    ensures k < |cart| ==> CartTotal(ps, pharmacy, cart) >= FindProduct(ps, pharmacy, cart[k].barcode).value.price * cart[k].quantity
    decreases |cart|
  {
    if |cart| > 0 {
      var init := cart[..|cart| - 1];
      assert forall i :: 0 <= i < |init| ==> init[i] == cart[i];
      var last := cart[|cart| - 1];
      LineSubtotalNonNegative(ps, pharmacy, last);
      if k < |init| {
        PositiveCartCoversLines(ps, pharmacy, init, k);
      } else {
        PositiveCartCoversLines(ps, pharmacy, init, |init|);
      }
    }
  }

  /** A sale the checked confirmation accepts was paid at least every line's stored price × quantity. */
  lemma ConfirmCheckedPaysEachLine(db: Db, pharmacy: nat, user: nat, cart: seq<CartLine>, amount: Option<int>,
                                   description: Option<string>, today: int, k: nat)
    requires ConfirmSaleChecked(db, pharmacy, user, cart, amount, description, today).Ok?
    requires forall i :: 0 <= i < |db.products| ==> db.products[i].price >= 0
    requires k < |cart|
    ensures amount.Some? && amount.value >= FindProduct(db.products, pharmacy, cart[k].barcode).value.price * cart[k].quantity
  {
    ConfirmSaleHeader(db, pharmacy, user, cart, amount, description, today);
    PositiveCartCoversLines(db.products, pharmacy, cart, k);
  }
}
