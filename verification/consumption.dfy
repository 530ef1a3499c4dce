/**
 * The consumption engine (`consumeFromBatchesFIFO_LOGGED` with
 * `logSaleBatchUsage`): a sale quantity is taken from the saleable batches of
 * one product in FEFO order, and every slice taken is logged as one ledger row.
 */
module Consumption {
  import opened Base
  import opened Records
  import opened Snapshot
  import opened Fefo

  /** One slice of a consumption: `qty` units taken from batch `batch`. */
  datatype Alloc = Alloc(batch: nat, qty: int)

  /** What every ledger row of one consumption call shares. */
  datatype Tag = Tag(sale: nat, saleItem: Option<nat>, pharmacy: nat, product: nat, barcode: string)

  /** `sale_item_id || null`: a zero item id is stored as NULL. */
  function ItemColumn(item: Option<nat>): (c: Option<nat>)
    ensures c.Some? ==> c.value != 0 && c == item
    ensures item.Some? && item.value != 0 ==> c == item
  {
    if item.Some? && item.value != 0 then item else None
  }

  function RowOf(t: Tag, a: Alloc): Usage {
    Usage(t.sale, ItemColumn(t.saleItem), t.pharmacy, t.product, a.batch, t.barcode, a.qty)
  }

  function AllocSum(a: seq<Alloc>): int {
    if |a| == 0 then 0 else AllocSum(a[..|a| - 1]) + a[|a| - 1].qty
  }

  predicate AllPositive(order: seq<Batch>) {
    forall i :: 0 <= i < |order| ==> order[i].quantity > 0
  }

  /**
   * What an allocation of `remaining` units over `order` guarantees: at most
   * one positive slice per batch, nothing when nothing is asked; over
   * batches in stock, slice i comes from batch i, takes no more than it
   * holds, empties every batch before the last one it touches, and the
   * slices add up to the request or to everything in stock.
   */
  predicate Allocation(order: seq<Batch>, remaining: int, r: seq<Alloc>) {
    && |r| <= |order|
    && (forall i :: 0 <= i < |r| ==> r[i].qty > 0)
    && (remaining <= 0 ==> r == [])
    && (AllPositive(order) ==> forall i :: 0 <= i < |r| ==>
          r[i].batch == order[i].id && r[i].qty <= order[i].quantity)
    && (AllPositive(order) ==> forall i :: 0 <= i < |r| - 1 ==> r[i].qty == order[i].quantity)
    && (AllPositive(order) && remaining >= 0 ==> AllocSum(r) == Min(remaining, QtySum(order)))
  }

  /**
   * The allocation walk: from each batch in order take `min(quantity, remaining)`
   * while something remains; a slice of zero or less is skipped.
   */
  function Allocate(order: seq<Batch>, remaining: int): (r: seq<Alloc>)
    ensures Allocation(order, remaining, r)
  {
    if |order| == 0 || remaining <= 0 then
      AllocateNothing(order, remaining);
      []
    else
      var use := Min(order[0].quantity, remaining);
      if use > 0 then
        var rest := Allocate(order[1..], remaining - use);
        AllocateTake(order, remaining, rest);
        [Alloc(order[0].id, use)] + rest
      else
        var rest := Allocate(order[1..], remaining);
        AllocateSkip(order, remaining, rest);
        rest
  }

  lemma AllocateNothing(order: seq<Batch>, remaining: int)
    requires |order| == 0 || remaining <= 0
    ensures Allocation(order, remaining, [])
  {
    if AllPositive(order) {
      PositiveQtySum(order);
    }
  }

  /** Taking a positive slice from the first batch, then allocating the rest from the others. */
  lemma AllocateTake(order: seq<Batch>, remaining: int, rest: seq<Alloc>)
    requires |order| > 0 && remaining > 0 && Min(order[0].quantity, remaining) > 0
    requires Allocation(order[1..], remaining - Min(order[0].quantity, remaining), rest)
    ensures Allocation(order, remaining, [Alloc(order[0].id, Min(order[0].quantity, remaining))] + rest)
  {
    var use := Min(order[0].quantity, remaining);
    var r := [Alloc(order[0].id, use)] + rest;
    assert forall i :: 1 <= i < |r| ==> r[i] == rest[i - 1];
    assert AllPositive(order) ==> AllPositive(order[1..]);
    AllocSumCons(Alloc(order[0].id, use), rest);
    assert QtySum(order) == order[0].quantity + QtySum(order[1..]);
  }

  /** A first batch with nothing in it is passed over. */
  lemma AllocateSkip(order: seq<Batch>, remaining: int, rest: seq<Alloc>)
    requires |order| > 0 && remaining > 0 && Min(order[0].quantity, remaining) <= 0
    requires Allocation(order[1..], remaining, rest)
    ensures Allocation(order, remaining, rest)
  {
    assert !AllPositive(order);
  }

  lemma {:induction false} PositiveQtySum(order: seq<Batch>)
    requires AllPositive(order)
    ensures QtySum(order) >= 0
  {
    if |order| > 0 {
      PositiveQtySum(order[1..]);
    }
  }

  lemma {:induction false} AllocSumCons(a: Alloc, rest: seq<Alloc>)
    ensures AllocSum([a] + rest) == a.qty + AllocSum(rest)
    decreases |rest|
  {
    if |rest| > 0 {
      var s := [a] + rest;
      assert s[..|s| - 1] == [a] + rest[..|rest| - 1];
      AllocSumCons(a, rest[..|rest| - 1]);
    }
  }

  /** Adds `delta` to the quantity of the batch with this id in this pharmacy (`UPDATE ... WHERE id = ? AND pharmacy_id = ?`). */
  function Adjust(bs: seq<Batch>, pharmacy: nat, id: nat, delta: int): (r: seq<Batch>)
    ensures |r| == |bs|
    ensures forall i :: 0 <= i < |bs| ==>
      r[i] == (if bs[i].id == id && bs[i].pharmacy == pharmacy then bs[i].(quantity := bs[i].quantity + delta) else bs[i])
  {
    seq(|bs|, i requires 0 <= i < |bs| =>
      if bs[i].id == id && bs[i].pharmacy == pharmacy then bs[i].(quantity := bs[i].quantity + delta) else bs[i])
  }

  /** Debits each slice from its batch and appends its ledger row, slice by slice. */
  function ApplyAllocs(db: Db, t: Tag, allocs: seq<Alloc>): (r: Db)
    ensures r == db.(batches := r.batches, usages := r.usages)
    ensures |r.batches| == |db.batches|
  {
    if |allocs| == 0 then db
    else
      var prev := ApplyAllocs(db, t, allocs[..|allocs| - 1]);
      var a := allocs[|allocs| - 1];
      prev.(batches := Adjust(prev.batches, t.pharmacy, a.batch, -a.qty), usages := prev.usages + [RowOf(t, a)])
  }

  /** The total taken from the batch with this id. */
  function Taken(allocs: seq<Alloc>, id: nat): int {
    if |allocs| == 0 then 0
    else Taken(allocs[..|allocs| - 1], id) + (if allocs[|allocs| - 1].batch == id then allocs[|allocs| - 1].qty else 0)
  }

  /** What two runs of slices take from a batch adds up. */
  lemma {:induction false} TakenAppend(a: seq<Alloc>, c: seq<Alloc>, id: nat)
    ensures Taken(a + c, id) == Taken(a, id) + Taken(c, id)
    decreases |c|
  {
    if |c| > 0 {
      assert (a + c)[..|a + c| - 1] == a + c[..|c| - 1];
      TakenAppend(a, c[..|c| - 1], id);
    } else {
      assert a + c == a;
    }
  }

  datatype ConsumeResult =
    | Consumed(db: Db, consumed: int, allocations: seq<Alloc>)
    | Insufficient(available: int, requested: int)

  /**
   * `consumeFromBatchesFIFO_LOGGED`. A quantity of zero or less consumes
   * nothing and touches nothing (not even the snapshot). Otherwise, when the
   * saleable total is short, it fails with the available and requested amounts
   * and nothing changes; else it walks the FEFO order, logs one ledger row per
   * slice and recomputes the product snapshot.
   */
  function Consume(db: Db, t: Tag, qty: int, today: int): (r: ConsumeResult)
    ensures qty <= 0 ==> r == Consumed(db, 0, [])
    ensures r.Insufficient? <==> qty > 0 && SaleableTotal(db.batches, t.pharmacy, t.product, today) < qty
    ensures r.Insufficient? ==>
      r.available == SaleableTotal(db.batches, t.pharmacy, t.product, today) && r.requested == qty
    ensures r.Consumed? && qty > 0 ==> r.consumed == qty && AllocSum(r.allocations) == qty
    ensures r.Consumed? && qty > 0 ==> forall i :: 0 <= i < |r.db.products| ==>
      r.db.products[i].id == t.product && r.db.products[i].pharmacy == t.pharmacy
      ==> SnapshotHolds(r.db.products[i], r.db.batches, today)
  {
    if qty <= 0 then Consumed(db, 0, [])
    else
      var total := SaleableTotal(db.batches, t.pharmacy, t.product, today);
      if total < qty then Insufficient(total, qty)
      else
        var order := FefoOrder(db.batches, t.pharmacy, t.product, today);
        OrderInStock(db, t, today);
        var allocs := Allocate(order, qty);
        AllocateCovered(order, qty, allocs);
        var db1 := ApplyAllocs(db, t, allocs);
        Consumed(Recalc(db1, t.pharmacy, t.product, today), qty, allocs)
  }

  /** Every batch in the FEFO order holds stock. */
  lemma OrderInStock(db: Db, t: Tag, today: int)
    ensures AllPositive(FefoOrder(db.batches, t.pharmacy, t.product, today))
  {
    var order := FefoOrder(db.batches, t.pharmacy, t.product, today);
    forall i | 0 <= i < |order| ensures order[i].quantity > 0 {
      assert order[i] in order;
    }
  }

  /** A request the stock covers is allocated in full. */
  lemma AllocateCovered(order: seq<Batch>, qty: int, allocs: seq<Alloc>)
    requires AllPositive(order) && 0 < qty <= QtySum(order)
    requires Allocation(order, qty, allocs)
    ensures AllocSum(allocs) == qty
  {
  }

  /** The ledger rows one consumption appends, one per slice. */
  function Rows(t: Tag, allocs: seq<Alloc>): (r: seq<Usage>)
    ensures |r| == |allocs|
    ensures forall i :: 0 <= i < |allocs| ==> r[i] == RowOf(t, allocs[i])
  {
    seq(|allocs|, i requires 0 <= i < |allocs| => RowOf(t, allocs[i]))
  }

  /** A batch after the slices of `allocs` were debited from it. */
  function Debited(b: Batch, pharmacy: nat, allocs: seq<Alloc>): Batch {
    if b.pharmacy == pharmacy then b.(quantity := b.quantity - Taken(allocs, b.id)) else b
  }

  lemma {:induction false} ApplyAllocsEffect(db: Db, t: Tag, allocs: seq<Alloc>)
    ensures ApplyAllocs(db, t, allocs).usages == db.usages + Rows(t, allocs)
    ensures forall i :: 0 <= i < |db.batches| ==>
      ApplyAllocs(db, t, allocs).batches[i] == Debited(db.batches[i], t.pharmacy, allocs)
    decreases |allocs|
  {
    if |allocs| > 0 {
      var p := allocs[..|allocs| - 1];
      ApplyAllocsEffect(db, t, p);
      assert Rows(t, allocs) == Rows(t, p) + [RowOf(t, allocs[|allocs| - 1])];
    }
  }

  /** The FEFO order and allocation of one successful consumption, named for the lemmas below. */
  function OrderOf(db: Db, t: Tag, today: int): seq<Batch> {
    FefoOrder(db.batches, t.pharmacy, t.product, today)
  }

  lemma ConsumeUnfold(db: Db, t: Tag, qty: int, today: int)
    requires 0 < qty <= SaleableTotal(db.batches, t.pharmacy, t.product, today)
    ensures var order := OrderOf(db, t, today);
      && AllPositive(order)
      && Consume(db, t, qty, today).allocations == Allocate(order, qty)
      && Consume(db, t, qty, today).db == Recalc(ApplyAllocs(db, t, Allocate(order, qty)), t.pharmacy, t.product, today)
  {
    var order := OrderOf(db, t, today);
    forall i | 0 <= i < |order| ensures order[i].quantity > 0 {
      assert order[i] in order;
    }
  }

  lemma {:induction false} TakenAlongOrder(allocs: seq<Alloc>, order: seq<Batch>, i: nat)
    requires |allocs| <= |order| && i < |order|
    requires forall k :: 0 <= k < |allocs| ==> allocs[k].batch == order[k].id
    requires UniqueBatchIds(order)
    ensures Taken(allocs, order[i].id) == if i < |allocs| then allocs[i].qty else 0
    decreases |allocs|
  {
    if |allocs| > 0 {
      TakenAlongOrder(allocs[..|allocs| - 1], order, i);
    }
  }

  lemma {:induction false} TakenOfStranger(allocs: seq<Alloc>, id: nat)
    requires forall k :: 0 <= k < |allocs| ==> allocs[k].batch != id
    ensures Taken(allocs, id) == 0
    decreases |allocs|
  {
    if |allocs| > 0 {
      TakenOfStranger(allocs[..|allocs| - 1], id);
    }
  }

  lemma DistinctRowsDistinctIds(bs: seq<Batch>, x: Batch, y: Batch)
    requires UniqueBatchIds(bs) && x in bs && y in bs && x != y
    ensures x.id != y.id
  {
    var i :| 0 <= i < |bs| && bs[i] == x;
    var j :| 0 <= j < |bs| && bs[j] == y;
  }

  /**
   * What a successful consumption took from a batch of the table: its slice
   * when it is saleable for this product (the slice of its place in FEFO
   * order, or nothing past the last slice), and nothing otherwise.
   */
  lemma TakenFromSaleable(db: Db, t: Tag, qty: int, today: int, b: Batch)
    requires 0 < qty <= SaleableTotal(db.batches, t.pharmacy, t.product, today)
    requires UniqueBatchIds(db.batches) && b in db.batches && SaleableIn(b, t.pharmacy, t.product, today)
    ensures var allocs := Consume(db, t, qty, today).allocations;
      exists i :: 0 <= i < |OrderOf(db, t, today)| && OrderOf(db, t, today)[i] == b
        && Taken(allocs, b.id) == if i < |allocs| then allocs[i].qty else 0
  {
    ConsumeUnfold(db, t, qty, today);
    var order := OrderOf(db, t, today);
    var allocs := Consume(db, t, qty, today).allocations;
    var i :| 0 <= i < |order| && order[i] == b;
    TakenAlongOrder(allocs, order, i);
  }

  lemma TakenFromOther(db: Db, t: Tag, qty: int, today: int, b: Batch)
    requires 0 < qty <= SaleableTotal(db.batches, t.pharmacy, t.product, today)
    requires UniqueBatchIds(db.batches) && b in db.batches && !SaleableIn(b, t.pharmacy, t.product, today)
    ensures Taken(Consume(db, t, qty, today).allocations, b.id) == 0
  {
    ConsumeUnfold(db, t, qty, today);
    var order := OrderOf(db, t, today);
    var allocs := Consume(db, t, qty, today).allocations;
    forall k | 0 <= k < |allocs| ensures allocs[k].batch != b.id {
      assert order[k] in order;
      DistinctRowsDistinctIds(db.batches, b, order[k]);
    }
    TakenOfStranger(allocs, b.id);
  }

  /**
   * What a successful consumption took from a batch of the table: at most
   * its quantity, and nothing unless it is saleable for this product.
   */
  lemma TakenFromBatch(db: Db, t: Tag, qty: int, today: int, b: Batch)
    requires 0 < qty <= SaleableTotal(db.batches, t.pharmacy, t.product, today)
    requires UniqueBatchIds(db.batches) && b in db.batches
    ensures var allocs := Consume(db, t, qty, today).allocations;
      && 0 <= Taken(allocs, b.id)
      && (SaleableIn(b, t.pharmacy, t.product, today) ==> Taken(allocs, b.id) <= b.quantity)
      && (!SaleableIn(b, t.pharmacy, t.product, today) ==> Taken(allocs, b.id) == 0)
  {
    if SaleableIn(b, t.pharmacy, t.product, today) {
      ConsumeUnfold(db, t, qty, today);
      TakenFromSaleable(db, t, qty, today, b);
      var order := OrderOf(db, t, today);
      var allocs := Consume(db, t, qty, today).allocations;
      var i :| 0 <= i < |order| && order[i] == b && Taken(allocs, b.id) == if i < |allocs| then allocs[i].qty else 0;
      if i < |allocs| {
        assert 0 < allocs[i].qty <= order[i].quantity;
      }
    } else {
      TakenFromOther(db, t, qty, today, b);
    }
  }

  /**
   * The effect of a successful consumption on the tables: one ledger row per
   * slice, carrying the call's sale, item, product and barcode and the slice's
   * batch and quantity, appended in allocation order; every batch of the
   * pharmacy debited by what was taken from it; the snapshot of the product
   * recomputed; nothing else touched.
   */
  lemma ConsumeEffect(db: Db, t: Tag, qty: int, today: int)
    requires 0 < qty <= SaleableTotal(db.batches, t.pharmacy, t.product, today)
    ensures var r := Consume(db, t, qty, today);
      && r.db.usages == db.usages + Rows(t, r.allocations)
      && |r.db.batches| == |db.batches|
      && (forall i :: 0 <= i < |db.batches| ==> r.db.batches[i] == Debited(db.batches[i], t.pharmacy, r.allocations))
      && r.db == db.(batches := r.db.batches, usages := r.db.usages, products := r.db.products)
      && |r.db.products| == |db.products|
      && (forall i :: 0 <= i < |db.products| && (db.products[i].id != t.product || db.products[i].pharmacy != t.pharmacy)
            ==> r.db.products[i] == db.products[i])
  {
    ConsumeUnfold(db, t, qty, today);
    var allocs := Consume(db, t, qty, today).allocations;
    ApplyAllocsEffect(db, t, allocs);
  }

  /**
   * No batch goes negative and only saleable batches of the product are
   * debited: every batch ends with its old quantity minus a slice between zero
   * and that old quantity, and the slice is zero unless the batch was saleable.
   */
  lemma ConsumeNeverOverdraws(db: Db, t: Tag, qty: int, today: int, i: nat)
    requires 0 < qty <= SaleableTotal(db.batches, t.pharmacy, t.product, today)
    requires UniqueBatchIds(db.batches) && i < |db.batches|
    ensures var after := Consume(db, t, qty, today).db.batches[i];
      && after == db.batches[i].(quantity := after.quantity)
      && (db.batches[i].quantity >= 0 ==> after.quantity >= 0)
      && after.quantity <= db.batches[i].quantity
      && (after.quantity < db.batches[i].quantity ==> SaleableIn(db.batches[i], t.pharmacy, t.product, today))
  {
    ConsumeEffect(db, t, qty, today);
    TakenFromBatch(db, t, qty, today, db.batches[i]);
  }

  /**
   * FEFO: the slices follow the FEFO order of the saleable batches, and a
   * batch is touched only when every saleable batch before it in that order
   * was emptied.
   */
  lemma ConsumeIsFefo(db: Db, t: Tag, qty: int, today: int, b: Batch, c: Batch)
    requires 0 < qty <= SaleableTotal(db.batches, t.pharmacy, t.product, today)
    requires UniqueBatchIds(db.batches)
    requires b in db.batches && c in db.batches
    requires Taken(Consume(db, t, qty, today).allocations, b.id) > 0
    requires SaleableIn(c, t.pharmacy, t.product, today) && Before(c, b)
    ensures Taken(Consume(db, t, qty, today).allocations, c.id) == c.quantity
  {
    ConsumeUnfold(db, t, qty, today);
    var order := OrderOf(db, t, today);
    var allocs := Consume(db, t, qty, today).allocations;
    TakenFromSaleable(db, t, qty, today, c);
    if !SaleableIn(b, t.pharmacy, t.product, today) {
      TakenFromOther(db, t, qty, today, b);
    }
    TakenFromSaleable(db, t, qty, today, b);
    var j :| 0 <= j < |order| && order[j] == b && Taken(allocs, b.id) == (if j < |allocs| then allocs[j].qty else 0);
    var i :| 0 <= i < |order| && order[i] == c && Taken(allocs, c.id) == (if i < |allocs| then allocs[i].qty else 0);
    assert j < |allocs|;
    OrderedIndices(order, i, j);
    ConsumeFollowsOrder(db, t, qty, today);
    assert allocs[i].qty == order[i].quantity;
  }

  /** In an ordered sequence an element strictly before another sits at a lower index. */
  lemma OrderedIndices(s: seq<Batch>, i: nat, j: nat)
    requires Ordered(s) && i < |s| && j < |s| && Before(s[i], s[j])
    ensures i < j
  {
  }

  /** The slices are taken in FEFO order: slice k comes from the k-th saleable batch in that order. */
  lemma ConsumeFollowsOrder(db: Db, t: Tag, qty: int, today: int)
    requires 0 < qty <= SaleableTotal(db.batches, t.pharmacy, t.product, today)
    ensures var allocs := Consume(db, t, qty, today).allocations;
      var order := OrderOf(db, t, today);
      && |allocs| <= |order|
      && (forall k :: 0 <= k < |allocs| ==> allocs[k].batch == order[k].id && 0 < allocs[k].qty <= order[k].quantity)
      && (forall k :: 0 <= k < |allocs| - 1 ==> allocs[k].qty == order[k].quantity)
  {
    ConsumeUnfold(db, t, qty, today);
  }
}
