/**
 * The daily expired-batch sweep. It selects, once, every active batch in
 * stock whose expiry date is before today, and then for each selected batch
 * in turn: marks it expired, moves its product's expiry date to the earliest
 * batch still active and in stock (if there is one), and raises an `expired`
 * notification for the product unless one is already open. It never touches
 * quantities.
 */
module ExpiredSweep {
  import opened Base
  import opened Records
  import opened Snapshot
  import opened Notes
  import opened StockAlert

  /** Selected by the sweep: active, in stock, dated before today, and of an existing product row. */
  predicate Overdue(b: Batch, ps: seq<Product>, today: int) {
    && b.status == Active && b.quantity > 0
    && b.expiry.Some? && b.expiry.value < today
    && ProductById(ps, b.product).Some?
  }

  /** The selection, in table order. */
  function SelectOverdue(bs: seq<Batch>, ps: seq<Product>, today: int): (r: seq<Batch>)
    ensures forall b :: b in r <==> b in bs && Overdue(b, ps, today)
    ensures |r| <= |bs|
  {
    if |bs| == 0 then []
    else
      var rest := SelectOverdue(bs[1..], ps, today);
      assert forall b :: b in bs <==> b == bs[0] || b in bs[1..];
      if Overdue(bs[0], ps, today) then [bs[0]] + rest else rest
  }

  /** `UPDATE product_batches SET status = 'expired' WHERE id = ?`: nothing else of any row changes. */
  function MarkExpired(bs: seq<Batch>, id: nat): (r: seq<Batch>)
    ensures |r| == |bs|
    ensures forall i :: 0 <= i < |bs| ==> r[i] == bs[i].(status := r[i].status)
    ensures forall i :: 0 <= i < |bs| ==> r[i].status == if bs[i].id == id then Expired else bs[i].status
  {
    seq(|bs|, i requires 0 <= i < |bs| => if bs[i].id == id then bs[i].(status := Expired) else bs[i])
  }

  /** A batch the next-expiry lookup considers: same pharmacy product, in stock, still active. */
  predicate Candidate(b: Batch, pharmacy: nat, product: nat) {
    InScope(b, pharmacy, product) && b.quantity > 0 && b.status == Active
  }

  /** `a` sorts no later than `b` under `ORDER BY expiry_date ASC`, where NULL sorts first. */
  predicate NoLater(a: Option<int>, b: Option<int>) {
    a.None? || (b.Some? && a.value <= b.value)
  }

  /**
   * The expiry read by `ORDER BY expiry_date ASC LIMIT 1` over the
   * candidates: none if there is no candidate, otherwise the expiry of a
   * candidate that sorts no later than any other.
   */
  function Earliest(bs: seq<Batch>, pharmacy: nat, product: nat): (r: Option<Option<int>>)
    ensures r.None? <==> forall i :: 0 <= i < |bs| ==> !Candidate(bs[i], pharmacy, product)
    ensures r.Some? ==> exists i :: 0 <= i < |bs| && Candidate(bs[i], pharmacy, product) && bs[i].expiry == r.value
    ensures r.Some? ==> forall i :: 0 <= i < |bs| && Candidate(bs[i], pharmacy, product) ==> NoLater(r.value, bs[i].expiry)
  {
    if |bs| == 0 then None
    else
      var rest := Earliest(bs[1..], pharmacy, product);
      assert forall i :: 1 <= i < |bs| ==> bs[i] == bs[1..][i - 1];
      if !Candidate(bs[0], pharmacy, product) then
        if rest.Some? then
          var k :| 0 <= k < |bs[1..]| && Candidate(bs[1..][k], pharmacy, product) && bs[1..][k].expiry == rest.value;
          assert bs[k + 1] == bs[1..][k];
          rest
        else rest
      else if rest.Some? && !NoLater(bs[0].expiry, rest.value) then
        var k :| 0 <= k < |bs[1..]| && Candidate(bs[1..][k], pharmacy, product) && bs[1..][k].expiry == rest.value;
        assert bs[k + 1] == bs[1..][k];
        rest
      else Some(bs[0].expiry)
  }

  /** `UPDATE pharmacy_products SET expiry_date = ? WHERE id = ?`: nothing else of any row changes. */
  function SetExpiry(ps: seq<Product>, id: nat, e: Option<int>): (r: seq<Product>)
    ensures |r| == |ps|
    ensures forall i :: 0 <= i < |ps| ==> r[i] == ps[i].(expiry := r[i].expiry)
    ensures forall i :: 0 <= i < |ps| ==> r[i].expiry == if ps[i].id == id then e else ps[i].expiry
  {
    seq(|ps|, i requires 0 <= i < |ps| => if ps[i].id == id then ps[i].(expiry := e) else ps[i])
  }

  /** Only a batch's status and a product's expiry may differ; no quantity, no other column. */
  predicate OnlyStatusAndExpiry(db: Db, r: Db) {
    && r == db.(batches := r.batches, products := r.products, notes := r.notes)
    && |r.batches| == |db.batches| && |r.products| == |db.products|
    && (forall i :: 0 <= i < |db.batches| ==> r.batches[i] == db.batches[i].(status := r.batches[i].status))
    && (forall i :: 0 <= i < |db.products| ==> r.products[i] == db.products[i].(expiry := r.products[i].expiry))
  }

  /**
   * One selected batch. Its row becomes expired; the product rows with its
   * product id take the expiry of the earliest remaining candidate, or keep
   * theirs when no candidate is left; the product has an open `expired`
   * notification afterwards, new only if it had none.
   */
  function ExpireOne(db: Db, b: Batch): (r: Db)
    ensures OnlyStatusAndExpiry(db, r)
    ensures forall i :: 0 <= i < |db.batches| ==>
      r.batches[i].status == if db.batches[i].id == b.id then Expired else db.batches[i].status
    ensures forall i :: 0 <= i < |db.products| && db.products[i].id != b.product ==> r.products[i] == db.products[i]
    ensures var e := Earliest(r.batches, b.pharmacy, b.product);
      forall i :: 0 <= i < |db.products| && db.products[i].id == b.product ==>
        r.products[i].expiry == if e.Some? then e.value else db.products[i].expiry
    ensures r.notes == InsertIfNoneOpen(db.notes, b.pharmacy, b.product, 0, ExpiredNote)
  {
    var bs := MarkExpired(db.batches, b.id);
    var next := Earliest(bs, b.pharmacy, b.product);
    var ps := if next.Some? then SetExpiry(db.products, b.product, next.value) else db.products;
    db.(batches := bs, products := ps, notes := InsertIfNoneOpen(db.notes, b.pharmacy, b.product, 0, ExpiredNote))
  }

  function ExpireAll(db: Db, sel: seq<Batch>): Db
    decreases |sel|
  {
    if |sel| == 0 then db else ExpireAll(ExpireOne(db, sel[0]), sel[1..])
  }

  /** The sweep: the selection is read once, then each selected batch is processed in order. */
  function ExpiredBatchesJob(db: Db, today: int): Db {
    ExpireAll(db, SelectOverdue(db.batches, db.products, today))
  }

  /** The (pharmacy, product) pairs the selection raises notifications for. */
  function PairsOf(sel: seq<Batch>): (r: seq<Pair>)
    ensures |r| == |sel|
    ensures forall i :: 0 <= i < |sel| ==> r[i] == (sel[i].pharmacy, sel[i].product)
  {
    seq(|sel|, i requires 0 <= i < |sel| => (sel[i].pharmacy, sel[i].product))
  }

  lemma OnlyStatusAndExpiryTrans(a: Db, b: Db, c: Db)
    requires OnlyStatusAndExpiry(a, b) && OnlyStatusAndExpiry(b, c)
    ensures OnlyStatusAndExpiry(a, c)
  {
  }

  /** What the processing loop does, whatever the list: statuses, expiries, and notifications only. */
  lemma {:induction false} ExpireAllEffect(db: Db, sel: seq<Batch>)
    ensures OnlyStatusAndExpiry(db, ExpireAll(db, sel))
    ensures forall i :: 0 <= i < |db.batches| ==>
      ExpireAll(db, sel).batches[i].status ==
        if exists k :: 0 <= k < |sel| && sel[k].id == db.batches[i].id then Expired else db.batches[i].status
    ensures forall i :: 0 <= i < |db.products| && (forall k :: 0 <= k < |sel| ==> sel[k].product != db.products[i].id) ==>
      ExpireAll(db, sel).products[i] == db.products[i]
    decreases |sel|
  {
    if |sel| > 0 {
      var next := ExpireOne(db, sel[0]);
      ExpireAllEffect(next, sel[1..]);
      OnlyStatusAndExpiryTrans(db, next, ExpireAll(next, sel[1..]));
      assert forall k :: 0 <= k < |sel[1..]| ==> sel[1..][k] == sel[k + 1];
      var r := ExpireAll(next, sel[1..]);
      forall i | 0 <= i < |db.batches|
        ensures r.batches[i].status ==
          if exists k :: 0 <= k < |sel| && sel[k].id == db.batches[i].id then Expired else db.batches[i].status
      {
        assert next.batches[i].id == db.batches[i].id;
        if sel[0].id == db.batches[i].id {
          assert 0 < |sel| && sel[0].id == db.batches[i].id;
        } else if exists k :: 0 <= k < |sel[1..]| && sel[1..][k].id == db.batches[i].id {
          var k :| 0 <= k < |sel[1..]| && sel[1..][k].id == db.batches[i].id;
          assert sel[k + 1].id == db.batches[i].id;
        } else {
          forall k | 0 <= k < |sel| ensures sel[k].id != db.batches[i].id {
            if k > 0 {
              assert sel[1..][k - 1] == sel[k];
            }
          }
        }
      }
    }
  }

  /**
   * The sweep writes only batch statuses, product expiry dates and
   * notifications. A batch becomes expired exactly when it was selected
   * (batch ids being unique), every other batch keeps its status, and a
   * product with no selected batch keeps its row.
   */
  lemma ExpiredBatchesEffect(db: Db, today: int)
    requires UniqueBatchIds(db.batches)
    ensures var r := ExpiredBatchesJob(db, today);
      && OnlyStatusAndExpiry(db, r)
      && (forall i :: 0 <= i < |db.batches| ==>
           r.batches[i].status == if Overdue(db.batches[i], db.products, today) then Expired else db.batches[i].status)
      && (forall i :: 0 <= i < |db.products| &&
           (forall j :: 0 <= j < |db.batches| && Overdue(db.batches[j], db.products, today) ==> db.batches[j].product != db.products[i].id)
           ==> r.products[i] == db.products[i])
  {
    var sel := SelectOverdue(db.batches, db.products, today);
    ExpireAllEffect(db, sel);
    var r := ExpireAll(db, sel);
    forall i | 0 <= i < |db.batches|
      ensures r.batches[i].status == if Overdue(db.batches[i], db.products, today) then Expired else db.batches[i].status
    {
      if Overdue(db.batches[i], db.products, today) {
        assert db.batches[i] in sel;
        var k :| 0 <= k < |sel| && sel[k] == db.batches[i];
      } else {
        forall k | 0 <= k < |sel| ensures sel[k].id != db.batches[i].id {
          assert sel[k] in sel;
          var j :| 0 <= j < |db.batches| && db.batches[j] == sel[k];
          assert Overdue(db.batches[j], db.products, today);
        }
      }
    }
    forall i | 0 <= i < |db.products| &&
        (forall j :: 0 <= j < |db.batches| && Overdue(db.batches[j], db.products, today) ==> db.batches[j].product != db.products[i].id)
      ensures forall k :: 0 <= k < |sel| ==> sel[k].product != db.products[i].id
    {
      forall k | 0 <= k < |sel| ensures sel[k].product != db.products[i].id {
        assert sel[k] in sel;
        var j :| 0 <= j < |db.batches| && db.batches[j] == sel[k];
      }
    }
  }

  /**
   * At most one `expired` notification per product: a product with a
   * selected batch ends with exactly one open if it had none (and as many
   * as before otherwise), however many of its batches expired; every other
   * product and kind keeps its count.
   */
  lemma ExpiredNotesCount(db: Db, today: int, p: nat, x: nat, k: NoteKind)
    ensures var sel := SelectOverdue(db.batches, db.products, today);
      CountOpen(ExpiredBatchesJob(db, today).notes, p, x, k)
        == if k == ExpiredNote && exists b :: b in sel && b.pharmacy == p && b.product == x
           then Max(CountOpen(db.notes, p, x, k), 1) else CountOpen(db.notes, p, x, k)
  {
    var sel := SelectOverdue(db.batches, db.products, today);
    ExpireAllNotes(db, sel);
    InsertAllCounts(db.notes, PairsOf(sel), ExpiredNote, p, x, k);
    PairsOfMeaning(sel, p, x);
  }

  /** The processing loop raises one notification request per selected batch, in order. */
  lemma {:induction false} ExpireAllNotes(db: Db, sel: seq<Batch>)
    ensures ExpireAll(db, sel).notes == InsertAll(db.notes, PairsOf(sel), ExpiredNote)
    decreases |sel|
  {
    if |sel| > 0 {
      ExpireAllNotes(ExpireOne(db, sel[0]), sel[1..]);
      assert PairsOf(sel)[1..] == PairsOf(sel[1..]);
    }
  }

  /** A pair is raised exactly when some selected batch belongs to it. */
  lemma PairsOfMeaning(sel: seq<Batch>, p: nat, x: nat)
    ensures (p, x) in PairsOf(sel) <==> exists b :: b in sel && b.pharmacy == p && b.product == x
  {
    if (p, x) in PairsOf(sel) {
      var i :| 0 <= i < |sel| && PairsOf(sel)[i] == (p, x);
      assert sel[i] in sel;
    }
    if exists b :: b in sel && b.pharmacy == p && b.product == x {
      var b :| b in sel && b.pharmacy == p && b.product == x;
      var i :| 0 <= i < |sel| && sel[i] == b;
      assert PairsOf(sel)[i] == (p, x);
    }
  }

  /** After the sweep no batch is overdue any more, so running it again selects nothing. */
  lemma ExpiredBatchesSettles(db: Db, today: int)
    requires UniqueBatchIds(db.batches)
    ensures var r := ExpiredBatchesJob(db, today);
      SelectOverdue(r.batches, r.products, today) == []
  {
    var r := ExpiredBatchesJob(db, today);
    ExpiredBatchesEffect(db, today);
    SameProductIds(db.products, r.products);
    forall i | 0 <= i < |r.batches| ensures !Overdue(r.batches[i], r.products, today) {
      if !Overdue(db.batches[i], db.products, today) {
        assert r.batches[i] == db.batches[i];
      }
    }
    SelectNone(r.batches, r.products, today);
  }

  /** Changing product expiry dates does not change which product ids exist. */
  lemma SameProductIds(ps: seq<Product>, qs: seq<Product>)
    requires |qs| == |ps| && forall i :: 0 <= i < |ps| ==> qs[i] == ps[i].(expiry := qs[i].expiry)
    ensures forall id :: ProductById(qs, id).Some? <==> ProductById(ps, id).Some?
  {
    forall id ensures ProductById(qs, id).Some? <==> ProductById(ps, id).Some? {
      ProductByIdFound(ps, id);
      ProductByIdFound(qs, id);
      assert forall i :: 0 <= i < |ps| ==> qs[i].id == ps[i].id;
    }
  }

  lemma {:induction false} SelectNone(bs: seq<Batch>, ps: seq<Product>, today: int)
    requires forall i :: 0 <= i < |bs| ==> !Overdue(bs[i], ps, today)
    ensures SelectOverdue(bs, ps, today) == []
    decreases |bs|
  {
    if |bs| > 0 {
      assert forall i :: 0 <= i < |bs[1..]| ==> bs[1..][i] == bs[i + 1];
      SelectNone(bs[1..], ps, today);
    }
  }
}
