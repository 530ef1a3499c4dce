/**
 * `updateSale`: the new lines replace the old ones. Only the per-barcode
 * change moves stock: a growth is consumed (ledger rows without an item), a
 * shrink is reversed from the sale's ledger, and a reversal that cannot give
 * back the whole shrink is a 409. Prices and subtotals come from the request.
 */
module SaleUpdate {
  import opened Base
  import opened Records
  import opened Text
  import opened Consumption
  import opened Reversal
  import opened StockAlert
  import opened SaleRules
  import opened Deltas
  import opened SaleCreate
  import opened Snapshot

  /** A line of the request body; the name and the subtotal may be missing. */
  datatype UpdateLine = UpdateLine(barcode: string, name: Option<string>, quantity: int, price: int, subtotal: Option<int>)

  /** A normalized line, as it is summed and stored. */
  datatype Line = Line(barcode: string, name: string, quantity: int, price: int, subtotal: int)

  /**
   * The barcode trimmed, a missing or empty name stored as '', and a missing
   * subtotal defaulting to price × quantity.
   */
  function Normalize(u: UpdateLine): (l: Line)
    ensures l.barcode == Trim(u.barcode) && l.quantity == u.quantity && l.price == u.price
    ensures l.name == if u.name.Some? then u.name.value else ""
    ensures u.subtotal.Some? ==> l.subtotal == u.subtotal.value
    ensures u.subtotal.None? ==> l.subtotal == u.price * u.quantity
  {
    Line(Trim(u.barcode), u.name.GetOr(""), u.quantity, u.price, u.subtotal.GetOr(u.price * u.quantity))
  }

  function NormalizeAll(us: seq<UpdateLine>): (ls: seq<Line>)
    ensures |ls| == |us| && forall i :: 0 <= i < |us| ==> ls[i] == Normalize(us[i])
  {
    seq(|us|, i requires 0 <= i < |us| => Normalize(us[i]))
  }

  /** The summed subtotals of the request (`computedTotal`). */
  function LinesTotal(ls: seq<Line>): int {
    if |ls| == 0 then 0 else LinesTotal(ls[..|ls| - 1]) + ls[|ls| - 1].subtotal
  }

  /** Totals add up over a concatenation of requests. */
  lemma {:induction false} LinesTotalAppend(a: seq<Line>, b: seq<Line>)
    ensures LinesTotal(a + b) == LinesTotal(a) + LinesTotal(b)
    decreases |b|
  {
    if |b| > 0 {
      assert (a + b)[..|a + b| - 1] == a + b[..|b| - 1];
      LinesTotalAppend(a, b[..|b| - 1]);
    } else {
      assert a + b == a;
    }
  }

  /** The stored payment after an update: with an amount, it and the change; without, NULL and NULL. */
  function Payment(amount: Option<int>, total: int): (p: (Option<int>, Option<int>))
    ensures p.0 == amount
    ensures p.1.Some? <==> amount.Some?
    ensures amount.Some? ==> p.1.value + total == amount.value
  {
    match amount
    case None => (None, None)
    case Some(a) => (Some(a), Some(a - total))
  }

  function QtyOfItem(it: SaleItem): Qty {
    Qty(it.barcode, it.quantity)
  }

  function QtyOfLine(l: Line): Qty {
    Qty(l.barcode, l.quantity)
  }

  function ItemQtys(items: seq<SaleItem>): (qs: seq<Qty>)
    ensures |qs| == |items| && forall i :: 0 <= i < |items| ==> qs[i] == QtyOfItem(items[i])
  {
    seq(|items|, i requires 0 <= i < |items| => QtyOfItem(items[i]))
  }

  function LineQtys(ls: seq<Line>): (qs: seq<Qty>)
    ensures |qs| == |ls| && forall i :: 0 <= i < |ls| ==> qs[i] == QtyOfLine(ls[i])
  {
    seq(|ls|, i requires 0 <= i < |ls| => QtyOfLine(ls[i]))
  }

  /** The ledger rows of this sale and product that a delta of this barcode reverses (no item filter). */
  function DeltaFilter(sale: nat, pharmacy: nat, product: nat, barcode: string): Filter {
    Filter(sale, pharmacy, product, barcode, None)
  }

  /** The sale's ledger of a barcode the pharmacy sells: its rows of that barcode's product. */
  function SaleLedger(ps: seq<Product>, sale: nat, pharmacy: nat, k: string): Filter
    requires FindProduct(ps, pharmacy, k).Some?
  {
    DeltaFilter(sale, pharmacy, FindProduct(ps, pharmacy, k).value.id, k)
  }

  lemma SaleLedgerSameCatalogue(a: seq<Product>, b: seq<Product>, sale: nat, pharmacy: nat, k: string)
    requires SameCatalogue(a, b) && FindProduct(a, pharmacy, k).Some?
    ensures FindProduct(b, pharmacy, k).Some? && SaleLedger(b, sale, pharmacy, k) == SaleLedger(a, sale, pharmacy, k)
  {
    FindProductIgnoresSnapshot(a, b, pharmacy, k);
  }

  /** The tag of the rows a growth logs: no sale item. */
  function DeltaTag(sale: nat, pharmacy: nat, product: nat, barcode: string): Tag {
    Tag(sale, None, pharmacy, product, barcode)
  }

  /** What applying a delta may change: the stock tables, the ledger, the notifications and the snapshots. */
  predicate Kept(db: Db, r: Db) {
    && r.sales == db.sales && r.items == db.items && r.settings == db.settings && r.users == db.users
    && r.nextSaleId == db.nextSaleId && r.nextItemId == db.nextItemId
    && SameCatalogue(db.products, r.products)
  }

  lemma KeptTrans(a: Db, b: Db, c: Db)
    requires Kept(a, b) && Kept(b, c)
    ensures Kept(a, c)
  {
    SameCatalogueTrans(a.products, b.products, c.products);
  }

  /** Reversal touches the snapshot fields of the product rows and nothing else of the catalogue. */
  lemma ReverseKeepsCatalogue(db: Db, f: Filter, qty: int, today: int)
    ensures Kept(db, Reverse(db, f, qty, today).db)
  {
  }

  /**
   * One delta. The barcode must resolve in the pharmacy (else a 400). A
   * positive delta consumes exactly that much for the sale with no item tag
   * (a shortfall is a 400) and runs the low-stock check; any other delta
   * reverses its magnitude from the sale's rows of that product, and a
   * reversal returning anything else is a 409.
   */
  function ApplyDelta(db: Db, sale: nat, pharmacy: nat, d: Delta, today: int): (r: Result<Db, Rejection>)
    ensures FindProduct(db.products, pharmacy, d.barcode).None? ==> r == Err(Rejection(400, ProductNotFound(d.barcode)))
    ensures r.Err? ==>
      || r.error == Rejection(400, ProductNotFound(d.barcode))
      || (r.error.status == 400 && r.error.reason.InsufficientStock? && d.delta > 0)
      || (r.error.status == 409 && r.error.reason.ReversalMismatch? && d.delta <= 0)
    ensures FindProduct(db.products, pharmacy, d.barcode).Some? && d.delta > 0 ==>
      var available := SaleableTotal(db.batches, pharmacy, FindProduct(db.products, pharmacy, d.barcode).value.id, today);
      && (r.Err? <==> available < d.delta)
      && (r.Err? ==> r.error == Rejection(400, InsufficientStock(available, d.delta)))
    ensures r.Ok? ==> Kept(db, r.value)
    ensures r.Ok? && d.delta > 0 ==> exists allocs: seq<Alloc> ::
      && r.value.usages == db.usages + Rows(DeltaTag(sale, pharmacy, FindProduct(db.products, pharmacy, d.barcode).value.id, d.barcode), allocs)
      && AllocSum(allocs) == d.delta
      && forall i :: 0 <= i < |allocs| ==> allocs[i].qty > 0
    ensures FindProduct(db.products, pharmacy, d.barcode).Some? && d.delta <= 0 ==>
      var f := DeltaFilter(sale, pharmacy, FindProduct(db.products, pharmacy, d.barcode).value.id, d.barcode);
      var back := Reverse(db, f, -d.delta, today);
      && (r.Ok? <==> back.returned == -d.delta)
      && (r.Ok? ==> r.value == back.db)
      && (r.Err? ==> r.error == Rejection(409, ReversalMismatch(d.barcode, -d.delta, back.returned)))
  {
    var found := FindProduct(db.products, pharmacy, d.barcode);
    if found.None? then Err(Rejection(400, ProductNotFound(d.barcode)))
    else
      var pid := found.value.id;
      if d.delta > 0 then
        var t := DeltaTag(sale, pharmacy, pid, d.barcode);
        var c := Consume(db, t, d.delta, today);
        if c.Insufficient? then Err(Rejection(400, InsufficientStock(c.available, c.requested)))
        else
          ConsumeKeepsCatalogue(db, t, d.delta, today);
          ConsumeEffect(db, t, d.delta, today);
          ConsumeFollowsOrder(db, t, d.delta, today);
          Ok(CheckLowStock(c.db, pharmacy, pid))
      else
        var wanted := -d.delta;
        var back := Reverse(db, DeltaFilter(sale, pharmacy, pid, d.barcode), wanted, today);
        if back.returned != wanted then Err(Rejection(409, ReversalMismatch(d.barcode, wanted, back.returned)))
        else
          ReverseKeepsCatalogue(db, DeltaFilter(sale, pharmacy, pid, d.barcode), wanted, today);
          Ok(back.db)
  }

  /** The deltas in order; the first failure aborts the whole update. */
  function ApplyDeltas(db: Db, sale: nat, pharmacy: nat, ds: seq<Delta>, today: int): (r: Result<Db, Rejection>)
    ensures ds == [] ==> r == Ok(db)
    ensures r.Err? ==> r.error.status == 400 || r.error.status == 409
    ensures r.Ok? ==> Kept(db, r.value)
    decreases |ds|
  {
    if |ds| == 0 then Ok(db)
    else
      var one := ApplyDelta(db, sale, pharmacy, ds[0], today);
      if one.Err? then one
      else
        var rest := ApplyDeltas(one.value, sale, pharmacy, ds[1..], today);
        if rest.Ok? then
          KeptTrans(db, one.value, rest.value);
          rest
        else rest
  }

  /** The new item rows, under consecutive ids from `first`. */
  function LineItems(sale: nat, first: nat, ls: seq<Line>): (r: seq<SaleItem>)
    ensures |r| == |ls|
    ensures forall k :: 0 <= k < |ls| ==>
      r[k] == SaleItem(first + k, sale, ls[k].barcode, ls[k].name, ls[k].quantity, ls[k].price, ls[k].subtotal)
  {
    seq(|ls|, k requires 0 <= k < |ls| =>
      SaleItem(first + k, sale, ls[k].barcode, ls[k].name, ls[k].quantity, ls[k].price, ls[k].subtotal))
  }

  /** The header row after the update (`UPDATE sales ... WHERE id = ? AND pharmacy_id = ?`). */
  function Rewrite(ss: seq<Sale>, id: nat, pharmacy: nat, total: int, amount: Option<int>, description: Option<string>)
    : (r: seq<Sale>)
    ensures |r| == |ss|
    ensures forall i :: 0 <= i < |ss| ==> r[i] == if IsSale(ss[i], id, pharmacy)
      then ss[i].(total := total, amountGiven := Payment(amount, total).0, change := Payment(amount, total).1, description := description)
      else ss[i]
  {
    seq(|ss|, i requires 0 <= i < |ss| =>
      if IsSale(ss[i], id, pharmacy)
      then ss[i].(total := total, amountGiven := Payment(amount, total).0, change := Payment(amount, total).1, description := description)
      else ss[i])
  }

  /** The stock moves of an update: the deltas between the stored lines and the normalized new ones. */
  function UpdateDeltas(db: Db, sale: nat, ls: seq<Line>): seq<Delta> {
    ItemDeltas(ItemQtys(ItemsOf(db.items, sale)), LineQtys(ls))
  }

  /** The stock movement an update makes: each line's quantity change against the stored items, applied in order. */
  function Moved(db: Db, id: nat, pharmacy: nat, items: seq<UpdateLine>, today: int): Result<Db, Rejection> {
    ApplyDeltas(db, id, pharmacy, UpdateDeltas(db, id, NormalizeAll(items)), today)
  }

  /** The request passes every check `updateSale` makes before moving stock. */
  predicate ChecksPass(db: Db, id: nat, pharmacy: nat, items: seq<UpdateLine>, amount: Option<int>, description: Option<string>) {
    && |items| > 0
    && (amount.None? || amount.value >= LinesTotal(NormalizeAll(items)))
    && CleanDescription(description).Ok?
    && FindSale(db.sales, id, pharmacy).Some?
  }

  /**
   * `updateSale`. In order: no lines is a 400; a given amount below the total
   * is a 400; an over-long description is a 400; a missing sale is a 404;
   * then the deltas are applied (400 or 409 on failure), the sale's item rows
   * are replaced by the new lines and the header is rewritten. Any rejection
   * leaves the database as it was.
   */
  function UpdateSale(db: Db, id: nat, pharmacy: nat, items: seq<UpdateLine>, amount: Option<int>,
                      description: Option<string>, today: int): (r: Result<Db, Rejection>)
    ensures |items| == 0 ==> r == Err(Rejection(400, InvalidInput))
    ensures |items| > 0 && amount.Some? && amount.value < LinesTotal(NormalizeAll(items)) ==>
      r == Err(Rejection(400, InsufficientPayment))
    ensures r.Ok? ==> |items| > 0 && CleanDescription(description).Ok? && FindSale(db.sales, id, pharmacy).Some?
    ensures r.Err? ==> r.error.status in {400, 404, 409}
    ensures r.Err? && r.error.status == 404 ==> r.error.reason == SaleNotFound && FindSale(db.sales, id, pharmacy).None?
    ensures r.Ok? ==>
      var ls := NormalizeAll(items);
      var total := LinesTotal(ls);
      && (amount.None? || amount.value >= total)
      && r.value.sales == Rewrite(db.sales, id, pharmacy, total, amount, CleanDescription(description).value)
      && r.value.items == ItemsNotOf(db.items, id) + LineItems(id, db.nextItemId, ls)
      && r.value.nextItemId == db.nextItemId + |items|
      && r.value.nextSaleId == db.nextSaleId && r.value.settings == db.settings && r.value.users == db.users
      && SameCatalogue(db.products, r.value.products)
    ensures ChecksPass(db, id, pharmacy, items, amount, description) ==>
      r == Settle(db, id, pharmacy, items, amount, CleanDescription(description).value, today)
    ensures ChecksPass(db, id, pharmacy, items, amount, description) ==>
      var moved := Moved(db, id, pharmacy, items, today);
      && (r.Ok? <==> moved.Ok?)
      && (moved.Err? ==> r == Err(moved.error))
  {
    if |items| == 0 then Err(Rejection(400, InvalidInput))
    else
      var ls := NormalizeAll(items);
      var total := LinesTotal(ls);
      if amount.Some? && amount.value - total < 0 then Err(Rejection(400, InsufficientPayment))
      else
        var desc := CleanDescription(description);
        if desc.Err? then Err(desc.error)
        else if FindSale(db.sales, id, pharmacy).None? then Err(Rejection(404, SaleNotFound))
        else Settle(db, id, pharmacy, items, amount, desc.value, today)
  }

  /**
   * The write phase of `updateSale`: move the stock, then replace the item
   * rows and rewrite the header. A failed movement is its rejection.
   */
  function Settle(db: Db, id: nat, pharmacy: nat, items: seq<UpdateLine>, amount: Option<int>,
                  desc: Option<string>, today: int): (r: Result<Db, Rejection>)
    ensures r.Ok? <==> Moved(db, id, pharmacy, items, today).Ok?
    ensures r.Err? ==> r == Err(Moved(db, id, pharmacy, items, today).error) && r.error.status in {400, 409}
    ensures r.Ok? ==>
      var ls := NormalizeAll(items);
      && r.value.sales == Rewrite(db.sales, id, pharmacy, LinesTotal(ls), amount, desc)
      && r.value.items == ItemsNotOf(db.items, id) + LineItems(id, db.nextItemId, ls)
      && r.value.nextItemId == db.nextItemId + |items|
      && r.value.nextSaleId == db.nextSaleId && r.value.settings == db.settings && r.value.users == db.users
      && SameCatalogue(db.products, r.value.products)
  {
    var ls := NormalizeAll(items);
    var moved := Moved(db, id, pharmacy, items, today);
    if moved.Err? then Err(moved.error)
    else
      var m := moved.value;
      Ok(m.(items := ItemsNotOf(m.items, id) + LineItems(id, m.nextItemId, ls),
            nextItemId := m.nextItemId + |ls|,
            sales := Rewrite(m.sales, id, pharmacy, LinesTotal(ls), amount, desc)))
  }

  /**
   * The rows one consumption appends add its whole allocation to the ledger
   * total of a filter that selects its tag, and nothing to any other.
   */
  lemma {:induction false} MatchSumAfterRows(us: seq<Usage>, t: Tag, allocs: seq<Alloc>, f: Filter)
    ensures MatchSum(us + Rows(t, allocs), f) == MatchSum(us, f) + if Covers(f, t) then AllocSum(allocs) else 0
    decreases |allocs|
  {
    if |allocs| == 0 {
      assert us + Rows(t, allocs) == us;
    } else {
      var p := allocs[..|allocs| - 1];
      var a := allocs[|allocs| - 1];
      assert us + Rows(t, allocs) == (us + Rows(t, p)) + [RowOf(t, a)] by {
        assert Rows(t, allocs) == Rows(t, p) + [RowOf(t, a)];
      }
      MatchSumSnoc(us + Rows(t, p), RowOf(t, a), f);
      MatchSumAfterRows(us, t, p, f);
    }
  }

  /**
   * A growth of the sale's lines for a barcode adds exactly the delta to the
   * sale's ledger of that product, and leaves every other sale's or product's
   * ledger total alone.
   */
  lemma GrowthLedger(us: seq<Usage>, sale: nat, pharmacy: nat, product: nat, barcode: string, allocs: seq<Alloc>,
                     delta: int, f: Filter)
    requires AllocSum(allocs) == delta && f.item.None?
    ensures MatchSum(us + Rows(DeltaTag(sale, pharmacy, product, barcode), allocs), f)
         == MatchSum(us, f) + if f == DeltaFilter(sale, pharmacy, product, barcode) then delta else 0
  {
    MatchSumAfterRows(us, DeltaTag(sale, pharmacy, product, barcode), allocs, f);
  }

  /**
   * The 409 of a shrink happens exactly when the sale's ledger of the product
   * holds less than the shrink; otherwise the reversal takes exactly the shrink
   * off that ledger and keeps every row it does not select.
   */
  lemma ShrinkLedger(db: Db, f: Filter, wanted: int, today: int)
    requires wanted > 0 && MatchesPositive(db.usages, f)
    ensures var back := Reverse(db, f, wanted, today);
      && (back.returned == wanted <==> MatchSum(db.usages, f) >= wanted)
      && (back.returned == wanted ==> MatchSum(back.db.usages, f) == MatchSum(db.usages, f) - wanted)
      && Others(back.db.usages, f) == Others(db.usages, f)
  {
    ReverseEffect(db, f, wanted, today);
  }

  /** A delta keeps a positive ledger positive. */
  lemma ApplyDeltaKeepsPositive(db: Db, sale: nat, pharmacy: nat, d: Delta, today: int)
    requires ApplyDelta(db, sale, pharmacy, d, today).Ok? && LedgerPositive(db.usages)
    ensures LedgerPositive(ApplyDelta(db, sale, pharmacy, d, today).value.usages)
  {
    var r := ApplyDelta(db, sale, pharmacy, d, today).value;
    var pid := FindProduct(db.products, pharmacy, d.barcode).value.id;
    if d.delta > 0 {
      var t := DeltaTag(sale, pharmacy, pid, d.barcode);
      var allocs: seq<Alloc> :| r.usages == db.usages + Rows(t, allocs) && AllocSum(allocs) == d.delta
        && forall i :: 0 <= i < |allocs| ==> allocs[i].qty > 0;
      RowsKeepPositive(db.usages, t, allocs);
    } else {
      ReverseKeepsPositive(db, DeltaFilter(sale, pharmacy, pid, d.barcode), -d.delta, today);
    }
  }

  /**
   * One accepted delta moves the sale's ledger of its own barcode by exactly
   * the delta, and the sale's ledger of every other barcode not at all.
   */
  lemma ApplyDeltaLedger(db: Db, sale: nat, pharmacy: nat, d: Delta, today: int, k: string)
    requires ApplyDelta(db, sale, pharmacy, d, today).Ok? && LedgerPositive(db.usages)
    requires FindProduct(db.products, pharmacy, k).Some?
    ensures var g := SaleLedger(db.products, sale, pharmacy, k);
      MatchSum(ApplyDelta(db, sale, pharmacy, d, today).value.usages, g)
        == MatchSum(db.usages, g) + if d.barcode == k then d.delta else 0
  {
    var r := ApplyDelta(db, sale, pharmacy, d, today).value;
    var g := SaleLedger(db.products, sale, pharmacy, k);
    var pid := FindProduct(db.products, pharmacy, d.barcode).value.id;
    var f := DeltaFilter(sale, pharmacy, pid, d.barcode);
    if d.delta > 0 {
      var allocs: seq<Alloc> :| r.usages == db.usages + Rows(DeltaTag(sale, pharmacy, pid, d.barcode), allocs)
        && AllocSum(allocs) == d.delta && forall i :: 0 <= i < |allocs| ==> allocs[i].qty > 0;
      GrowthLedger(db.usages, sale, pharmacy, pid, d.barcode, allocs, d.delta, g);
    } else if d.delta < 0 {
      if d.barcode == k {
        ReverseEffect(db, f, -d.delta, today);
      } else {
        ReverseKeepsOthers(db, f, -d.delta, today, g);
      }
    }
  }

  predicate DistinctBarcodes(ds: seq<Delta>) {
    forall i, j :: 0 <= i < j < |ds| ==> ds[i].barcode != ds[j].barcode
  }

  lemma DistinctBarcodesTail(ds: seq<Delta>)
    requires |ds| > 0 && DistinctBarcodes(ds)
    ensures DistinctBarcodes(ds[1..]) && forall i :: 0 <= i < |ds[1..]| ==> ds[1..][i] == ds[i + 1]
  {
  }

  lemma {:induction false} ApplyDeltasKeepsPositive(db: Db, sale: nat, pharmacy: nat, ds: seq<Delta>, today: int)
    requires ApplyDeltas(db, sale, pharmacy, ds, today).Ok? && LedgerPositive(db.usages)
    ensures LedgerPositive(ApplyDeltas(db, sale, pharmacy, ds, today).value.usages)
    decreases |ds|
  {
    if |ds| > 0 {
      ApplyDeltaKeepsPositive(db, sale, pharmacy, ds[0], today);
      ApplyDeltasKeepsPositive(ApplyDelta(db, sale, pharmacy, ds[0], today).value, sale, pharmacy, ds[1..], today);
    }
  }

  /**
   * Deltas with distinct barcodes, applied in order, move the sale's ledger of
   * every barcode the pharmacy sells by exactly that barcode's delta.
   */
  lemma {:induction false} ApplyDeltasLedger(db: Db, sale: nat, pharmacy: nat, ds: seq<Delta>, today: int, k: string)
    requires ApplyDeltas(db, sale, pharmacy, ds, today).Ok? && LedgerPositive(db.usages)
    requires DistinctBarcodes(ds) && FindProduct(db.products, pharmacy, k).Some?
    ensures var g := SaleLedger(db.products, sale, pharmacy, k);
      MatchSum(ApplyDeltas(db, sale, pharmacy, ds, today).value.usages, g) == MatchSum(db.usages, g) + DeltaOf(ds, k)
    decreases |ds|
  {
    if |ds| > 0 {
      var one := ApplyDelta(db, sale, pharmacy, ds[0], today).value;
      ApplyDeltaLedger(db, sale, pharmacy, ds[0], today, k);
      ApplyDeltaKeepsPositive(db, sale, pharmacy, ds[0], today);
      SaleLedgerSameCatalogue(db.products, one.products, sale, pharmacy, k);
      DistinctBarcodesTail(ds);
      ApplyDeltasLedger(one, sale, pharmacy, ds[1..], today, k);
      if ds[0].barcode == k {
        DeltaOfMissing(ds[1..], k);
      }
    }
  }

  /** Delta `i` shrinks a barcode by more than the sale's ledger of it holds. */
  predicate ShortShrink(db: Db, sale: nat, pharmacy: nat, ds: seq<Delta>, i: int) {
    && 0 <= i < |ds| && ShortOf(db, sale, pharmacy, ds[i])
  }

  predicate ShortOf(db: Db, sale: nat, pharmacy: nat, d: Delta) {
    && d.delta < 0 && FindProduct(db.products, pharmacy, d.barcode).Some?
    && MatchSum(db.usages, SaleLedger(db.products, sale, pharmacy, d.barcode)) < -d.delta
  }

  /** The conflict a short shrink reports: its barcode, the quantity asked for and what the ledger held. */
  function ShortReason(db: Db, sale: nat, pharmacy: nat, d: Delta): Reason
    requires FindProduct(db.products, pharmacy, d.barcode).Some?
  {
    ReversalMismatch(d.barcode, -d.delta, MatchSum(db.usages, SaleLedger(db.products, sale, pharmacy, d.barcode)))
  }

  /** One delta over a positive ledger is a 409 exactly when it is a short shrink, and then names it. */
  lemma ApplyDeltaConflict(db: Db, sale: nat, pharmacy: nat, d: Delta, today: int)
    requires LedgerPositive(db.usages)
    ensures var r := ApplyDelta(db, sale, pharmacy, d, today);
      (r.Err? && r.error.status == 409) <==> ShortOf(db, sale, pharmacy, d)
    ensures var r := ApplyDelta(db, sale, pharmacy, d, today);
      ShortOf(db, sale, pharmacy, d) ==> r == Err(Rejection(409, ShortReason(db, sale, pharmacy, d)))
  {
    if FindProduct(db.products, pharmacy, d.barcode).Some? && d.delta < 0 {
      ReverseReturned(db, SaleLedger(db.products, sale, pharmacy, d.barcode), -d.delta, today);
    }
  }

  lemma ApplyDeltasUnfold(db: Db, sale: nat, pharmacy: nat, ds: seq<Delta>, today: int)
    requires |ds| > 0
    ensures var one := ApplyDelta(db, sale, pharmacy, ds[0], today);
      ApplyDeltas(db, sale, pharmacy, ds, today)
        == if one.Err? then one else ApplyDeltas(one.value, sale, pharmacy, ds[1..], today)
  {
  }

  /** A later delta's shortfall is judged against the ledger as it was: earlier deltas touch other barcodes. */
  lemma ShortAfterOther(db: Db, sale: nat, pharmacy: nat, d: Delta, today: int, e: Delta)
    requires ApplyDelta(db, sale, pharmacy, d, today).Ok? && LedgerPositive(db.usages)
    requires d.barcode != e.barcode
    ensures var o := ApplyDelta(db, sale, pharmacy, d, today).value;
      && (ShortOf(o, sale, pharmacy, e) <==> ShortOf(db, sale, pharmacy, e))
      && (ShortOf(db, sale, pharmacy, e) ==> ShortReason(o, sale, pharmacy, e) == ShortReason(db, sale, pharmacy, e))
  {
    var o := ApplyDelta(db, sale, pharmacy, d, today).value;
    FindProductIgnoresSnapshot(db.products, o.products, pharmacy, e.barcode);
    if FindProduct(db.products, pharmacy, e.barcode).Some? {
      SaleLedgerSameCatalogue(db.products, o.products, sale, pharmacy, e.barcode);
      ApplyDeltaLedger(db, sale, pharmacy, d, today, e.barcode);
    }
  }

  /** A shrink the sale's ledger cannot cover makes the whole run of deltas fail. */
  lemma {:induction false} ShortShrinkFails(db: Db, sale: nat, pharmacy: nat, ds: seq<Delta>, today: int, i: int)
    requires LedgerPositive(db.usages) && DistinctBarcodes(ds) && ShortShrink(db, sale, pharmacy, ds, i)
    ensures ApplyDeltas(db, sale, pharmacy, ds, today).Err?
    decreases |ds|
  {
    var one := ApplyDelta(db, sale, pharmacy, ds[0], today);
    ApplyDeltasUnfold(db, sale, pharmacy, ds, today);
    if i == 0 {
      ApplyDeltaConflict(db, sale, pharmacy, ds[0], today);
      assert one.Err?;
    } else if one.Ok? {
      DistinctBarcodesTail(ds);
      assert ds[1..][i - 1] == ds[i] && ds[0].barcode != ds[i].barcode;
      ShortAfterOther(db, sale, pharmacy, ds[0], today, ds[i]);
      ApplyDeltaKeepsPositive(db, sale, pharmacy, ds[0], today);
      assert ShortShrink(one.value, sale, pharmacy, ds[1..], i - 1);
      ShortShrinkFails(one.value, sale, pharmacy, ds[1..], today, i - 1);
    }
  }

  /** Some delta is a short shrink and the rejection names it. */
  predicate ConflictNamed(db: Db, sale: nat, pharmacy: nat, ds: seq<Delta>, reason: Reason) {
    exists i :: 0 <= i < |ds| && ShortShrink(db, sale, pharmacy, ds, i) && reason == ShortReason(db, sale, pharmacy, ds[i])
  }

  /** A 409 names a shrink the sale's ledger could not cover, with what the ledger held. */
  lemma {:induction false} ConflictIsShortShrink(db: Db, sale: nat, pharmacy: nat, ds: seq<Delta>, today: int)
    requires LedgerPositive(db.usages) && DistinctBarcodes(ds)
    requires ApplyDeltas(db, sale, pharmacy, ds, today).Err? && ApplyDeltas(db, sale, pharmacy, ds, today).error.status == 409
    ensures ConflictNamed(db, sale, pharmacy, ds, ApplyDeltas(db, sale, pharmacy, ds, today).error.reason)
    decreases |ds|
  {
    assert |ds| > 0;
    var one := ApplyDelta(db, sale, pharmacy, ds[0], today);
    ApplyDeltasUnfold(db, sale, pharmacy, ds, today);
    ApplyDeltaConflict(db, sale, pharmacy, ds[0], today);
    if one.Err? {
      assert ShortShrink(db, sale, pharmacy, ds, 0);
    } else {
      DistinctBarcodesTail(ds);
      ApplyDeltaKeepsPositive(db, sale, pharmacy, ds[0], today);
      ConflictIsShortShrink(one.value, sale, pharmacy, ds[1..], today);
      ConflictAfterHead(db, sale, pharmacy, ds, today, ApplyDeltas(db, sale, pharmacy, ds, today).error.reason);
    }
  }

  /** A conflict named by the deltas after an accepted first one is named by the whole run. */
  lemma ConflictAfterHead(db: Db, sale: nat, pharmacy: nat, ds: seq<Delta>, today: int, reason: Reason)
    requires |ds| > 0 && LedgerPositive(db.usages) && DistinctBarcodes(ds)
    requires ApplyDelta(db, sale, pharmacy, ds[0], today).Ok?
    requires ConflictNamed(ApplyDelta(db, sale, pharmacy, ds[0], today).value, sale, pharmacy, ds[1..], reason)
    ensures ConflictNamed(db, sale, pharmacy, ds, reason)
  {
    var o := ApplyDelta(db, sale, pharmacy, ds[0], today).value;
    var j :| 0 <= j < |ds[1..]| && ShortShrink(o, sale, pharmacy, ds[1..], j) && reason == ShortReason(o, sale, pharmacy, ds[1..][j]);
    assert ds[1..][j] == ds[j + 1];
    ShortAfterOther(db, sale, pharmacy, ds[0], today, ds[j + 1]);
    assert ShortShrink(db, sale, pharmacy, ds, j + 1);
  }

  /** An accepted update ran its deltas on the database and kept their ledger. */
  lemma UpdateSaleMoves(db: Db, id: nat, pharmacy: nat, items: seq<UpdateLine>, amount: Option<int>,
                        description: Option<string>, today: int, r: Db)
    requires UpdateSale(db, id, pharmacy, items, amount, description, today) == Ok(r)
    ensures var moved := ApplyDeltas(db, id, pharmacy, UpdateDeltas(db, id, NormalizeAll(items)), today);
      moved.Ok? && r.usages == moved.value.usages && r.batches == moved.value.batches
  {
  }

  /**
   * An accepted update moves the sale's ledger of every barcode the pharmacy
   * sells by exactly the new lines' quantity of it minus the stored lines'
   * quantity of it, and keeps the ledger positive.
   */
  lemma UpdateSaleLedger(db: Db, id: nat, pharmacy: nat, items: seq<UpdateLine>, amount: Option<int>,
                         description: Option<string>, today: int, r: Db, k: string)
    requires UpdateSale(db, id, pharmacy, items, amount, description, today) == Ok(r)
    requires LedgerPositive(db.usages) && FindProduct(db.products, pharmacy, k).Some?
    ensures LedgerPositive(r.usages)
    ensures var g := SaleLedger(db.products, id, pharmacy, k);
      MatchSum(r.usages, g)
        == MatchSum(db.usages, g) + SumFor(LineQtys(NormalizeAll(items)), k) - SumFor(ItemQtys(ItemsOf(db.items, id)), k)
  {
    var ls := NormalizeAll(items);
    var ds := UpdateDeltas(db, id, ls);
    UpdateSaleMoves(db, id, pharmacy, items, amount, description, today, r);
    ApplyDeltasKeepsPositive(db, id, pharmacy, ds, today);
    ApplyDeltasLedger(db, id, pharmacy, ds, today, k);
    DeltasReconcile(ItemQtys(ItemsOf(db.items, id)), LineQtys(ls), k);
  }

  /** The new lines shrink barcode `k` by more than the sale's ledger of it holds. */
  predicate Uncovered(db: Db, id: nat, pharmacy: nat, items: seq<UpdateLine>, k: string) {
    && FindProduct(db.products, pharmacy, k).Some?
    && var drop := SumFor(ItemQtys(ItemsOf(db.items, id)), k) - SumFor(LineQtys(NormalizeAll(items)), k);
      drop > 0 && MatchSum(db.usages, SaleLedger(db.products, id, pharmacy, k)) < drop
  }

  /** A barcode the sale's ledger cannot give back makes the update fail. */
  lemma UncoveredUpdateFails(db: Db, id: nat, pharmacy: nat, items: seq<UpdateLine>, amount: Option<int>,
                             description: Option<string>, today: int, k: string)
    requires LedgerPositive(db.usages) && Uncovered(db, id, pharmacy, items, k)
    ensures UpdateSale(db, id, pharmacy, items, amount, description, today).Err?
  {
    var ds := UpdateDeltas(db, id, NormalizeAll(items));
    var i := UncoveredIsShort(db, id, pharmacy, items, k);
    ShortShrinkFails(db, id, pharmacy, ds, today, i);
    DeltasFailUpdateFails(db, id, pharmacy, items, amount, description, today);
  }

  /** An uncovered barcode is a short shrink among the update's deltas. */
  lemma UncoveredIsShort(db: Db, id: nat, pharmacy: nat, items: seq<UpdateLine>, k: string) returns (i: nat)
    requires Uncovered(db, id, pharmacy, items, k)
    ensures DistinctBarcodes(UpdateDeltas(db, id, NormalizeAll(items)))
    ensures ShortShrink(db, id, pharmacy, UpdateDeltas(db, id, NormalizeAll(items)), i)
  {
    var ls := NormalizeAll(items);
    var before := ItemQtys(ItemsOf(db.items, id));
    var ds := UpdateDeltas(db, id, ls);
    assert SumFor(LineQtys(ls), k) != SumFor(before, k);
    i :| 0 <= i < |ds| && ds[i].barcode == k;
  }

  /** A failing walk over the deltas fails the update. */
  lemma DeltasFailUpdateFails(db: Db, id: nat, pharmacy: nat, items: seq<UpdateLine>, amount: Option<int>,
                              description: Option<string>, today: int)
    requires ApplyDeltas(db, id, pharmacy, UpdateDeltas(db, id, NormalizeAll(items)), today).Err?
    ensures UpdateSale(db, id, pharmacy, items, amount, description, today).Err?
  {
  }

  /** The rejection a shrink of barcode `k` the sale's ledger cannot cover comes back with. */
  function UncoveredReason(db: Db, id: nat, pharmacy: nat, items: seq<UpdateLine>, k: string): Reason
    requires FindProduct(db.products, pharmacy, k).Some?
  {
    ReversalMismatch(k, SumFor(ItemQtys(ItemsOf(db.items, id)), k) - SumFor(LineQtys(NormalizeAll(items)), k),
                     MatchSum(db.usages, SaleLedger(db.products, id, pharmacy, k)))
  }

  /** Some uncovered barcode comes with `reason`. */
  ghost predicate ConflictOver(db: Db, id: nat, pharmacy: nat, items: seq<UpdateLine>, reason: Reason) {
    exists k :: Uncovered(db, id, pharmacy, items, k) && reason == UncoveredReason(db, id, pharmacy, items, k)
  }

  /** Only the walk over the deltas answers an update with 409. */
  lemma UpdateConflictFromDeltas(db: Db, id: nat, pharmacy: nat, items: seq<UpdateLine>, amount: Option<int>,
                                 description: Option<string>, today: int)
    requires UpdateSale(db, id, pharmacy, items, amount, description, today).Err?
    requires UpdateSale(db, id, pharmacy, items, amount, description, today).error.status == 409
    ensures var moved := ApplyDeltas(db, id, pharmacy, UpdateDeltas(db, id, NormalizeAll(items)), today);
      moved.Err? && moved.error == UpdateSale(db, id, pharmacy, items, amount, description, today).error
  {
  }

  /**
   * An update answered with 409 names a barcode whose quantity shrank by
   * more than the sale's ledger of it held, the shrink and what the ledger held.
   */
  lemma UpdateConflictIsUncovered(db: Db, id: nat, pharmacy: nat, items: seq<UpdateLine>, amount: Option<int>,
                                  description: Option<string>, today: int)
    requires LedgerPositive(db.usages)
    requires UpdateSale(db, id, pharmacy, items, amount, description, today).Err?
    requires UpdateSale(db, id, pharmacy, items, amount, description, today).error.status == 409
    ensures ConflictOver(db, id, pharmacy, items, UpdateSale(db, id, pharmacy, items, amount, description, today).error.reason)
  {
    var ls := NormalizeAll(items);
    var ds := UpdateDeltas(db, id, ls);
    UpdateConflictFromDeltas(db, id, pharmacy, items, amount, description, today);
    ConflictIsShortShrink(db, id, pharmacy, ds, today);
    var i :| 0 <= i < |ds| && ShortShrink(db, id, pharmacy, ds, i)
      && ApplyDeltas(db, id, pharmacy, ds, today).error.reason == ShortReason(db, id, pharmacy, ds[i]);
    assert ds[i].delta == SumFor(LineQtys(ls), ds[i].barcode) - SumFor(ItemQtys(ItemsOf(db.items, id)), ds[i].barcode);
    ShrinkIsUncovered(db, id, pharmacy, items, ds[i]);
  }

  /** A short shrink by the update's change of a barcode is an uncovered barcode with the same reason. */
  lemma ShrinkIsUncovered(db: Db, id: nat, pharmacy: nat, items: seq<UpdateLine>, d: Delta)
    requires ShortOf(db, id, pharmacy, d)
    requires d.delta == SumFor(LineQtys(NormalizeAll(items)), d.barcode) - SumFor(ItemQtys(ItemsOf(db.items, id)), d.barcode)
    ensures Uncovered(db, id, pharmacy, items, d.barcode)
    ensures ShortReason(db, id, pharmacy, d) == UncoveredReason(db, id, pharmacy, items, d.barcode)
  {
    ShrinkDropsHeld(db, id, pharmacy, items, d);
    ShrinkSameReason(db, id, pharmacy, items, d);
  }

  /** The shrink is a drop of the barcode the ledger does not hold. */
  lemma ShrinkDropsHeld(db: Db, id: nat, pharmacy: nat, items: seq<UpdateLine>, d: Delta)
    requires ShortOf(db, id, pharmacy, d)
    requires d.delta == SumFor(LineQtys(NormalizeAll(items)), d.barcode) - SumFor(ItemQtys(ItemsOf(db.items, id)), d.barcode)
    ensures Uncovered(db, id, pharmacy, items, d.barcode)
  {
  }

  /** Both rejections name the barcode, the shrink and what the ledger held. */
  lemma ShrinkSameReason(db: Db, id: nat, pharmacy: nat, items: seq<UpdateLine>, d: Delta)
    requires FindProduct(db.products, pharmacy, d.barcode).Some?
    requires d.delta == SumFor(LineQtys(NormalizeAll(items)), d.barcode) - SumFor(ItemQtys(ItemsOf(db.items, id)), d.barcode)
    ensures ShortReason(db, id, pharmacy, d) == UncoveredReason(db, id, pharmacy, items, d.barcode)
  {
  }

  /** Resubmitting the stored lines unchanged moves no stock and raises no notification. */
  lemma UnchangedLinesMoveNoStock(db: Db, id: nat, pharmacy: nat, items: seq<UpdateLine>, amount: Option<int>,
                                  description: Option<string>, today: int, r: Db)
    requires UpdateSale(db, id, pharmacy, items, amount, description, today) == Ok(r)
    requires LineQtys(NormalizeAll(items)) == ItemQtys(ItemsOf(db.items, id))
    ensures r.batches == db.batches && r.usages == db.usages && r.notes == db.notes && r.products == db.products
  {
    NoChangeNoDeltas(ItemQtys(ItemsOf(db.items, id)));
  }
  /** Delta `k` is the one that fails: the deltas before it were applied, and it is rejected from there. */
  predicate FailsAt(db: Db, sale: nat, pharmacy: nat, ds: seq<Delta>, today: int, k: int) {
    && 0 <= k < |ds|
    && ApplyDeltas(db, sale, pharmacy, ds[..k], today).Ok?
    && ApplyDelta(ApplyDeltas(db, sale, pharmacy, ds[..k], today).value, sale, pharmacy, ds[k], today).Err?
  }

  /** Delta `k` fails and `e` is its rejection. */
  predicate FailNamed(db: Db, sale: nat, pharmacy: nat, ds: seq<Delta>, today: int, k: int, e: Rejection) {
    && FailsAt(db, sale, pharmacy, ds, today, k)
    && e == ApplyDelta(ApplyDeltas(db, sale, pharmacy, ds[..k], today).value, sale, pharmacy, ds[k], today).error
  }

  /** Once the first delta is applied, the deltas up to `k` are the rest's deltas up to `k - 1` applied from there. */
  lemma ApplyDeltasPrefix(db: Db, sale: nat, pharmacy: nat, ds: seq<Delta>, today: int, k: nat)
    requires 0 < k <= |ds| && ApplyDelta(db, sale, pharmacy, ds[0], today).Ok?
    ensures ApplyDeltas(db, sale, pharmacy, ds[..k], today)
         == ApplyDeltas(ApplyDelta(db, sale, pharmacy, ds[0], today).value, sale, pharmacy, ds[1..][..k - 1], today)
    ensures k < |ds| ==> ds[1..][k - 1] == ds[k]
  {
    DeltaPrefix(ds, k);
    ApplyDeltasCons(db, sale, pharmacy, ds[..k], today);
  }

  /** The first `k` deltas are the first one followed by the first `k - 1` of the rest. */
  lemma DeltaPrefix(ds: seq<Delta>, k: nat)
    requires 0 < k <= |ds|
    ensures ds[..k][0] == ds[0] && ds[..k][1..] == ds[1..][..k - 1]
    ensures k < |ds| ==> ds[1..][k - 1] == ds[k]
  {
  }

  /** Deltas whose first one applies are the rest applied from there. */
  lemma ApplyDeltasCons(db: Db, sale: nat, pharmacy: nat, ds: seq<Delta>, today: int)
    requires |ds| > 0 && ApplyDelta(db, sale, pharmacy, ds[0], today).Ok?
    ensures ApplyDeltas(db, sale, pharmacy, ds, today)
         == ApplyDeltas(ApplyDelta(db, sale, pharmacy, ds[0], today).value, sale, pharmacy, ds[1..], today)
  {
  }

  /**
   * The deltas are rejected exactly when one of them, in order, is rejected
   * against the state the earlier ones left, and the rejection is that
   * delta's: an unknown barcode, a growth the saleable stock cannot cover, or
   * a shrink the ledger cannot give back in full.
   */
  lemma {:induction false} ApplyDeltasFirstFailure(db: Db, sale: nat, pharmacy: nat, ds: seq<Delta>, today: int)
    ensures ApplyDeltas(db, sale, pharmacy, ds, today).Err? <==> exists k :: FailsAt(db, sale, pharmacy, ds, today, k)
    ensures ApplyDeltas(db, sale, pharmacy, ds, today).Err? ==>
      exists k :: FailNamed(db, sale, pharmacy, ds, today, k, ApplyDeltas(db, sale, pharmacy, ds, today).error)
    decreases |ds|
  {
    if |ds| > 0 {
      var one := ApplyDelta(db, sale, pharmacy, ds[0], today);
      assert ds[..0] == [];
      ApplyDeltasUnfold(db, sale, pharmacy, ds, today);
      if one.Err? {
        assert FailNamed(db, sale, pharmacy, ds, today, 0, ApplyDeltas(db, sale, pharmacy, ds, today).error);
      } else {
        ApplyDeltasFirstFailure(one.value, sale, pharmacy, ds[1..], today);
        forall k | 0 < k < |ds|
          ensures FailsAt(db, sale, pharmacy, ds, today, k) <==> FailsAt(one.value, sale, pharmacy, ds[1..], today, k - 1)
          ensures ApplyDeltas(db, sale, pharmacy, ds[..k], today) == ApplyDeltas(one.value, sale, pharmacy, ds[1..][..k - 1], today)
        {
          ApplyDeltasPrefix(db, sale, pharmacy, ds, today, k);
        }
        assert !FailsAt(db, sale, pharmacy, ds, today, 0);
        if ApplyDeltas(db, sale, pharmacy, ds, today).Err? {
          var j :| FailNamed(one.value, sale, pharmacy, ds[1..], today, j, ApplyDeltas(db, sale, pharmacy, ds, today).error);
          assert FailsAt(db, sale, pharmacy, ds, today, j + 1);
          assert FailNamed(db, sale, pharmacy, ds, today, j + 1, ApplyDeltas(db, sale, pharmacy, ds, today).error);
        } else {
          forall k | 0 <= k < |ds| ensures !FailsAt(db, sale, pharmacy, ds, today, k) {
            if k > 0 {
              assert !FailsAt(one.value, sale, pharmacy, ds[1..], today, k - 1);
            }
          }
        }
      }
    }
  }

  /**
   * An update that passes its checks is accepted exactly when none of its
   * deltas fails against the state the earlier ones left; otherwise it is
   * answered with the first failing delta's rejection.
   */
  lemma UpdateSaleAccepted(db: Db, id: nat, pharmacy: nat, items: seq<UpdateLine>, amount: Option<int>,
                           description: Option<string>, today: int)
    requires ChecksPass(db, id, pharmacy, items, amount, description)
    ensures var ds := UpdateDeltas(db, id, NormalizeAll(items));
      var r := UpdateSale(db, id, pharmacy, items, amount, description, today);
      && (r.Ok? <==> forall k :: !FailsAt(db, id, pharmacy, ds, today, k))
      && (r.Err? ==> exists k :: FailNamed(db, id, pharmacy, ds, today, k, r.error))
  {
    ApplyDeltasFirstFailure(db, id, pharmacy, UpdateDeltas(db, id, NormalizeAll(items)), today);
  }

  /** The growth among the deltas that the saleable stock, as the earlier deltas left it, cannot cover. */
  predicate GrowthShort(db: Db, sale: nat, pharmacy: nat, ds: seq<Delta>, today: int, k: int, e: Rejection) {
    && 0 <= k < |ds| && ds[k].delta > 0
    && ApplyDeltas(db, sale, pharmacy, ds[..k], today).Ok?
    && var at := ApplyDeltas(db, sale, pharmacy, ds[..k], today).value;
      && FindProduct(at.products, pharmacy, ds[k].barcode).Some?
      && var available := SaleableTotal(at.batches, pharmacy, FindProduct(at.products, pharmacy, ds[k].barcode).value.id, today);
        available < ds[k].delta && e == Rejection(400, InsufficientStock(available, ds[k].delta))
  }

  /**
   * An update answered with insufficient stock names a growth of a barcode
   * whose saleable stock, after the earlier deltas, held less than the growth.
   */
  lemma UpdateStockShortfall(db: Db, id: nat, pharmacy: nat, items: seq<UpdateLine>, amount: Option<int>,
                             description: Option<string>, today: int)
    ensures var r := UpdateSale(db, id, pharmacy, items, amount, description, today);
      r.Err? && r.error.reason.InsufficientStock? ==>
        exists k :: GrowthShort(db, id, pharmacy, UpdateDeltas(db, id, NormalizeAll(items)), today, k, r.error)
  {
    var r := UpdateSale(db, id, pharmacy, items, amount, description, today);
    if r.Err? && r.error.reason.InsufficientStock? {
      var ds := UpdateDeltas(db, id, NormalizeAll(items));
      assert ChecksPass(db, id, pharmacy, items, amount, description);
      assert ApplyDeltas(db, id, pharmacy, ds, today) == Err(r.error);
      DeltasStockShortfall(db, id, pharmacy, ds, today);
    }
  }

  /** Deltas rejected for insufficient stock name a growth the stock, as the earlier deltas left it, cannot cover. */
  lemma DeltasStockShortfall(db: Db, sale: nat, pharmacy: nat, ds: seq<Delta>, today: int)
    ensures var r := ApplyDeltas(db, sale, pharmacy, ds, today);
      r.Err? && r.error.reason.InsufficientStock? ==> exists k :: GrowthShort(db, sale, pharmacy, ds, today, k, r.error)
  {
    var r := ApplyDeltas(db, sale, pharmacy, ds, today);
    if r.Err? && r.error.reason.InsufficientStock? {
      ApplyDeltasFirstFailure(db, sale, pharmacy, ds, today);
      var k :| FailNamed(db, sale, pharmacy, ds, today, k, r.error);
      var at := ApplyDeltas(db, sale, pharmacy, ds[..k], today).value;
      GrowthShortOf(at, sale, pharmacy, ds[k], today);
      assert GrowthShort(db, sale, pharmacy, ds, today, k, r.error);
    }
  }

  /** A single delta rejected for insufficient stock is a growth its product's saleable stock cannot cover. */
  lemma GrowthShortOf(db: Db, sale: nat, pharmacy: nat, d: Delta, today: int)
    requires ApplyDelta(db, sale, pharmacy, d, today).Err?
    requires ApplyDelta(db, sale, pharmacy, d, today).error.reason.InsufficientStock?
    ensures d.delta > 0 && FindProduct(db.products, pharmacy, d.barcode).Some?
    ensures var available := SaleableTotal(db.batches, pharmacy, FindProduct(db.products, pharmacy, d.barcode).value.id, today);
      available < d.delta && ApplyDelta(db, sale, pharmacy, d, today).error == Rejection(400, InsufficientStock(available, d.delta))
  {
  }
}
