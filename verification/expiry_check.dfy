/**
 * The daily near-expiry check. For every pharmacy settings row it selects
 * the pharmacy's batches in stock whose expiry date falls on or before
 * today plus the pharmacy's alert window, whatever their status, and raises
 * one `near_expiry` notification per product unless one is already open.
 * It writes nothing but notifications.
 */
module NearExpiryCheck {
  import opened Base
  import opened Records
  import opened Notes
  import opened StockAlert

  /**
   * Selected for the pharmacy: its batch, in stock, dated no later than
   * today plus the window, and of an existing product row. A NULL window
   * makes the date bound NULL, which selects nothing.
   */
  predicate DueSoon(b: Batch, ps: seq<Product>, pharmacy: nat, window: Option<int>, today: int) {
    && b.pharmacy == pharmacy && b.quantity > 0
    && window.Some? && b.expiry.Some? && b.expiry.value <= today + window.value
    && ProductById(ps, b.product).Some?
  }

  /** The (pharmacy, product) pairs of the selected batches, in table order, one per batch. */
  function DuePairs(bs: seq<Batch>, ps: seq<Product>, s: Settings, today: int): (r: seq<Pair>)
    ensures forall key :: key in r <==>
      key.0 == s.pharmacy && exists i :: 0 <= i < |bs| && DueSoon(bs[i], ps, s.pharmacy, s.expiryAlertDays, today) && bs[i].product == key.1
    decreases |bs|
  {
    if |bs| == 0 then []
    else
      var rest := DuePairs(bs[1..], ps, s, today);
      assert forall i :: 1 <= i < |bs| ==> bs[i] == bs[1..][i - 1];
      assert forall i :: 0 <= i < |bs[1..]| ==> bs[1..][i] == bs[i + 1];
      if DueSoon(bs[0], ps, s.pharmacy, s.expiryAlertDays, today) then [(s.pharmacy, bs[0].product)] + rest else rest
  }

  /** The settings rows in table order, each raising its pharmacy's notifications. */
  function CheckAll(ns: seq<Notification>, db: Db, ss: seq<Settings>, today: int): seq<Notification>
    decreases |ss|
  {
    if |ss| == 0 then ns
    else CheckAll(InsertAll(ns, DuePairs(db.batches, db.products, ss[0], today), NearExpiry), db, ss[1..], today)
  }

  /** The job: a new notification table; batches and products are never written. */
  function NearExpiryJob(db: Db, today: int): (r: Db)
    ensures r == db.(notes := r.notes)
  {
    db.(notes := CheckAll(db.notes, db, db.settings, today))
  }

  /** Every pair any settings row raises, in the order the job raises them. */
  function AllDuePairs(db: Db, ss: seq<Settings>, today: int): seq<Pair>
    decreases |ss|
  {
    if |ss| == 0 then [] else DuePairs(db.batches, db.products, ss[0], today) + AllDuePairs(db, ss[1..], today)
  }

  /** The job's pass over the settings is the deduplicated insert over all raised pairs. */
  lemma {:induction false} CheckAllIsInsertAll(ns: seq<Notification>, db: Db, ss: seq<Settings>, today: int)
    ensures CheckAll(ns, db, ss, today) == InsertAll(ns, AllDuePairs(db, ss, today), NearExpiry)
    decreases |ss|
  {
    if |ss| > 0 {
      var first := DuePairs(db.batches, db.products, ss[0], today);
      CheckAllIsInsertAll(InsertAll(ns, first, NearExpiry), db, ss[1..], today);
      InsertAllAppend(ns, first, AllDuePairs(db, ss[1..], today), NearExpiry);
    }
  }

  /** A product is due when some settings row of its pharmacy selects one of its batches. */
  predicate Due(db: Db, ss: seq<Settings>, today: int, p: nat, x: nat) {
    exists k, i :: 0 <= k < |ss| && 0 <= i < |db.batches| && ss[k].pharmacy == p
      && DueSoon(db.batches[i], db.products, p, ss[k].expiryAlertDays, today) && db.batches[i].product == x
  }

  lemma {:induction false} AllDuePairsMeaning(db: Db, ss: seq<Settings>, today: int, p: nat, x: nat)
    ensures (p, x) in AllDuePairs(db, ss, today) <==> Due(db, ss, today, p, x)
    decreases |ss|
  {
    if |ss| > 0 {
      AllDuePairsMeaning(db, ss[1..], today, p, x);
      var first := DuePairs(db.batches, db.products, ss[0], today);
      assert (p, x) in AllDuePairs(db, ss, today) <==> (p, x) in first || (p, x) in AllDuePairs(db, ss[1..], today);
      if Due(db, ss[1..], today, p, x) {
        var k, i :| 0 <= k < |ss[1..]| && 0 <= i < |db.batches| && ss[1..][k].pharmacy == p
          && DueSoon(db.batches[i], db.products, p, ss[1..][k].expiryAlertDays, today) && db.batches[i].product == x;
        assert ss[k + 1] == ss[1..][k];
      }
      if Due(db, ss, today, p, x) {
        var k, i :| 0 <= k < |ss| && 0 <= i < |db.batches| && ss[k].pharmacy == p
          && DueSoon(db.batches[i], db.products, p, ss[k].expiryAlertDays, today) && db.batches[i].product == x;
        if k > 0 {
          assert ss[1..][k - 1] == ss[k];
        }
      }
    }
  }

  /**
   * At most one `near_expiry` notification per product and pass: a due
   * product ends with exactly one open if it had none, and as many as
   * before otherwise, however many of its batches qualify; every other
   * product and every other kind keeps its count.
   */
  lemma NearExpiryCounts(db: Db, today: int, p: nat, x: nat, k: NoteKind)
    ensures CountOpen(NearExpiryJob(db, today).notes, p, x, k)
         == if k == NearExpiry && Due(db, db.settings, today, p, x)
            then Max(CountOpen(db.notes, p, x, k), 1) else CountOpen(db.notes, p, x, k)
  {
    CheckAllIsInsertAll(db.notes, db, db.settings, today);
    InsertAllCounts(db.notes, AllDuePairs(db, db.settings, today), NearExpiry, p, x, k);
    AllDuePairsMeaning(db, db.settings, today, p, x);
  }

  /** Running the check again the same day changes nothing. */
  lemma NearExpiryIdempotent(db: Db, today: int)
    ensures NearExpiryJob(NearExpiryJob(db, today), today) == NearExpiryJob(db, today)
  {
    var once := NearExpiryJob(db, today);
    CheckAllIsInsertAll(db.notes, db, db.settings, today);
    CheckAllIsInsertAll(once.notes, once, once.settings, today);
    assert AllDuePairs(once, once.settings, today) == AllDuePairs(db, db.settings, today) by {
      SamePairs(db, once, db.settings, today);
    }
    InsertAllIdempotent(db.notes, AllDuePairs(db, db.settings, today), NearExpiry);
  }

  /** The raised pairs depend on batches and products only, not on notifications. */
  lemma {:induction false} SamePairs(db: Db, other: Db, ss: seq<Settings>, today: int)
    requires other.batches == db.batches && other.products == db.products
    ensures AllDuePairs(other, ss, today) == AllDuePairs(db, ss, today)
    decreases |ss|
  {
    if |ss| > 0 {
      SamePairs(db, other, ss[1..], today);
    }
  }
}
