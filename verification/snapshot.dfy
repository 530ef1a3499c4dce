/**
 * The snapshot recalculator (`recalcProductSnapshot`): the product row's
 * `quantity` and `expiry_date` are recomputed from its saleable batches.
 */
module Snapshot {
  import opened Base
  import opened Records

  predicate InScope(b: Batch, pharmacy: nat, product: nat) {
    b.pharmacy == pharmacy && b.product == product
  }

  /** Saleable: status active, quantity positive, and no expiry or an expiry not before today. */
  predicate Saleable(b: Batch, today: int) {
    b.status == Active && b.quantity > 0 && (b.expiry.None? || b.expiry.value >= today)
  }

  predicate SaleableIn(b: Batch, pharmacy: nat, product: nat, today: int) {
    InScope(b, pharmacy, product) && Saleable(b, today)
  }

  /** The summed quantity of the saleable batches of one pharmacy product. */
  function SaleableTotal(bs: seq<Batch>, pharmacy: nat, product: nat, today: int): (t: int)
    ensures t >= 0
    ensures t == 0 <==> forall i :: 0 <= i < |bs| ==> !SaleableIn(bs[i], pharmacy, product, today)
  {
    if |bs| == 0 then 0
    else
      var rest := SaleableTotal(bs[1..], pharmacy, product, today);
      assert forall i :: 1 <= i < |bs| ==> bs[i] == bs[1..][i - 1];
      (if SaleableIn(bs[0], pharmacy, product, today) then bs[0].quantity else 0) + rest
  }

  predicate DatedSaleable(b: Batch, pharmacy: nat, product: nat, today: int) {
    SaleableIn(b, pharmacy, product, today) && b.expiry.Some?
  }

  /**
   * The earliest expiry among the saleable batches that have one, or None
   * when no saleable batch carries a date (SQL `MIN` over an empty set is NULL).
   */
  function NextExpiry(bs: seq<Batch>, pharmacy: nat, product: nat, today: int): (r: Option<int>)
    ensures r.None? <==> forall i :: 0 <= i < |bs| ==> !DatedSaleable(bs[i], pharmacy, product, today)
    ensures r.Some? ==> exists i :: 0 <= i < |bs| && DatedSaleable(bs[i], pharmacy, product, today) && bs[i].expiry == r
    ensures r.Some? ==>
      forall i :: 0 <= i < |bs| && DatedSaleable(bs[i], pharmacy, product, today) ==> r.value <= bs[i].expiry.value
  {
    if |bs| == 0 then None
    else
      var rest := NextExpiry(bs[1..], pharmacy, product, today);
      assert forall i :: 1 <= i < |bs| ==> bs[i] == bs[1..][i - 1];
      var b := bs[0];
      if DatedSaleable(b, pharmacy, product, today) then
        if rest.Some? && rest.value < b.expiry.value then
          var k :| 0 <= k < |bs[1..]| && DatedSaleable(bs[1..][k], pharmacy, product, today) && bs[1..][k].expiry == rest;
          assert bs[k + 1] == bs[1..][k];
          rest
        else
          b.expiry
      else if rest.Some? then
        var k :| 0 <= k < |bs[1..]| && DatedSaleable(bs[1..][k], pharmacy, product, today) && bs[1..][k].expiry == rest;
        assert bs[k + 1] == bs[1..][k];
        rest
      else
        rest
  }

  /** A product row with its snapshot fields recomputed from `bs`. */
  function Refreshed(p: Product, bs: seq<Batch>, today: int): Product {
    p.(quantity := SaleableTotal(bs, p.pharmacy, p.id, today), expiry := NextExpiry(bs, p.pharmacy, p.id, today))
  }

  /** The snapshot of a product row agrees with its batches. */
  predicate SnapshotHolds(p: Product, bs: seq<Batch>, today: int) {
    p.quantity == SaleableTotal(bs, p.pharmacy, p.id, today) && p.expiry == NextExpiry(bs, p.pharmacy, p.id, today)
  }

  /** The aggregate-consistency invariant: every product row agrees with its batches. */
  predicate Consistent(db: Db, today: int) {
    forall i :: 0 <= i < |db.products| ==> SnapshotHolds(db.products[i], db.batches, today)
  }

  /**
   * `recalcProductSnapshot`: rewrites the row(s) with this id and pharmacy,
   * and nothing else.
   */
  function Recalc(db: Db, pharmacy: nat, product: nat, today: int): (r: Db)
    ensures r == db.(products := r.products)
    ensures |r.products| == |db.products|
    ensures forall i :: 0 <= i < |r.products| ==>
      if db.products[i].id == product && db.products[i].pharmacy == pharmacy
      then SnapshotHolds(r.products[i], r.batches, today)
           && r.products[i] == db.products[i].(quantity := r.products[i].quantity, expiry := r.products[i].expiry)
      else r.products[i] == db.products[i]
  {
    var ps := seq(|db.products|, i requires 0 <= i < |db.products| =>
      if db.products[i].id == product && db.products[i].pharmacy == pharmacy
      then Refreshed(db.products[i], db.batches, today)
      else db.products[i]);
    db.(products := ps)
  }

  /** Recalculating over unchanged, consistent batches changes nothing. */
  lemma RecalcOfConsistentIsIdentity(db: Db, pharmacy: nat, product: nat, today: int)
    requires Consistent(db, today)
    ensures Recalc(db, pharmacy, product, today) == db
  {
    var r := Recalc(db, pharmacy, product, today);
    assert r.products == db.products;
  }

  /** Recalculating twice is recalculating once. */
  lemma RecalcIdempotent(db: Db, pharmacy: nat, product: nat, today: int)
    ensures Recalc(Recalc(db, pharmacy, product, today), pharmacy, product, today)
         == Recalc(db, pharmacy, product, today)
  {
    var r1 := Recalc(db, pharmacy, product, today);
    var r2 := Recalc(r1, pharmacy, product, today);
    assert r2.products == r1.products;
  }

  /**
   * The recalculated rows depend only on the batches: a table whose rows for
   * this product differ only in their snapshot fields recalculates to the same.
   */
  lemma RecalcForgetsSnapshot(db: Db, other: seq<Product>, pharmacy: nat, product: nat, today: int)
    requires |other| == |db.products|
    requires forall i :: 0 <= i < |other| ==>
      other[i] == db.products[i].(quantity := other[i].quantity, expiry := other[i].expiry)
    requires forall i :: 0 <= i < |other| && (db.products[i].id != product || db.products[i].pharmacy != pharmacy) ==>
      other[i] == db.products[i]
    ensures Recalc(db.(products := other), pharmacy, product, today) == Recalc(db, pharmacy, product, today)
  {
    var r1 := Recalc(db.(products := other), pharmacy, product, today);
    var r2 := Recalc(db, pharmacy, product, today);
    assert r1.products == r2.products;
  }
}
