/**
 * The reversal engine (`returnToOriginalBatches_LOGGED`): a quantity is given
 * back to the exact batches a sale's ledger rows name, newest row first.
 */
module Reversal {
  import opened Base
  import opened Records
  import opened Snapshot
  import opened Consumption

  /**
   * Which ledger rows a reversal reads: those of one sale, pharmacy, product
   * and barcode, and of one sale item only when `item` is given and non-zero.
   */
  datatype Filter = Filter(sale: nat, pharmacy: nat, product: nat, barcode: string, item: Option<nat>)

  predicate Matches(u: Usage, f: Filter) {
    && u.sale == f.sale && u.pharmacy == f.pharmacy && u.product == f.product && u.barcode == f.barcode
    && (f.item.Some? && f.item.value != 0 ==> u.saleItem == f.item)
  }

  /** The summed quantity of the rows a filter selects. */
  function MatchSum(us: seq<Usage>, f: Filter): int {
    if |us| == 0 then 0
    else MatchSum(us[..|us| - 1], f) + (if Matches(us[|us| - 1], f) then us[|us| - 1].qty else 0)
  }

  /** The summed quantity of the rows a filter selects that name batch `id`. */
  function BatchSum(us: seq<Usage>, f: Filter, id: nat): int {
    if |us| == 0 then 0
    else BatchSum(us[..|us| - 1], f, id) + (if Matches(us[|us| - 1], f) && us[|us| - 1].batch == id then us[|us| - 1].qty else 0)
  }

  /** The rows a filter leaves alone, in order. */
  function Others(us: seq<Usage>, f: Filter): seq<Usage> {
    if |us| == 0 then []
    else Others(us[..|us| - 1], f) + (if Matches(us[|us| - 1], f) then [] else [us[|us| - 1]])
  }

  /** Every row the filter selects records a positive quantity. */
  predicate MatchesPositive(us: seq<Usage>, f: Filter) {
    forall i :: 0 <= i < |us| && Matches(us[i], f) ==> us[i].qty > 0
  }

  datatype Walked = Walked(usages: seq<Usage>, batches: seq<Batch>, returned: int)

  /**
   * The LIFO walk over the first `n` ledger rows, newest first, while something
   * remains: a selected row gives `min(qty, remaining)` back to its batch (in
   * the filter's pharmacy, whatever the batch's status) and is deleted when it
   * gave all it had, else reduced by what it gave.
   */
  function ReturnWalk(us: seq<Usage>, bs: seq<Batch>, f: Filter, n: nat, remaining: int): (r: Walked)
    requires n <= |us|
    ensures |r.batches| == |bs|
    decreases n
  {
    if n == 0 || remaining <= 0 then Walked(us, bs, 0)
    else
      var u := us[n - 1];
      if !Matches(u, f) then ReturnWalk(us, bs, f, n - 1, remaining)
      else
        var give := Min(u.qty, remaining);
        var bs' := Adjust(bs, f.pharmacy, u.batch, give);
        var us' := if give == u.qty then us[..n - 1] + us[n..] else us[n - 1 := u.(qty := u.qty - give)];
        var rest := ReturnWalk(us', bs', f, n - 1, remaining - give);
        Walked(rest.usages, rest.batches, give + rest.returned)
  }

  datatype Returned = Returned(db: Db, returned: int)

  /**
   * `returnToOriginalBatches_LOGGED`: a quantity of zero or less returns
   * nothing and touches nothing; otherwise the walk runs over the whole ledger
   * and the product snapshot is recomputed, even when nothing was found.
   */
  function Reverse(db: Db, f: Filter, qty: int, today: int): (r: Returned)
    ensures qty <= 0 ==> r == Returned(db, 0)
    ensures r.db == db.(usages := r.db.usages, batches := r.db.batches, products := r.db.products)
    ensures qty > 0 ==> forall i :: 0 <= i < |r.db.products| ==>
      r.db.products[i].id == f.product && r.db.products[i].pharmacy == f.pharmacy
      ==> SnapshotHolds(r.db.products[i], r.db.batches, today)
  {
    if qty <= 0 then Returned(db, 0)
    else
      var w := ReturnWalk(db.usages, db.batches, f, |db.usages|, qty);
      Returned(Recalc(db.(usages := w.usages, batches := w.batches), f.pharmacy, f.product, today), w.returned)
  }

  lemma MatchSumSnoc(us: seq<Usage>, u: Usage, f: Filter)
    ensures MatchSum(us + [u], f) == MatchSum(us, f) + (if Matches(u, f) then u.qty else 0)
    ensures Others(us + [u], f) == Others(us, f) + (if Matches(u, f) then [] else [u])
  {
    assert (us + [u])[..|us|] == us;
  }

  lemma BatchSumSnoc(us: seq<Usage>, u: Usage, f: Filter, id: nat)
    ensures BatchSum(us + [u], f, id) == BatchSum(us, f, id) + (if Matches(u, f) && u.batch == id then u.qty else 0)
  {
    assert (us + [u])[..|us|] == us;
  }

  lemma {:induction false} MatchSumPositive(us: seq<Usage>, f: Filter)
    requires MatchesPositive(us, f)
    ensures MatchSum(us, f) >= 0
    decreases |us|
  {
    if |us| > 0 {
      MatchSumPositive(us[..|us| - 1], f);
    }
  }

  /** The untouched tail and the processed head of a walk's ledger. */
  predicate WalkShape(us: seq<Usage>, f: Filter, n: nat, r: Walked)
    requires n <= |us|
  {
    var m := |r.usages| - (|us| - n);
    && 0 <= m <= n
    && r.usages[m..] == us[n..]
    && MatchSum(r.usages[..m], f) == MatchSum(us[..n], f) - r.returned
    && Others(r.usages[..m], f) == Others(us[..n], f)
    && MatchesPositive(r.usages[..m], f)
  }

  lemma WalkSkip(us: seq<Usage>, bs: seq<Batch>, f: Filter, n: nat, remaining: int)
    requires 0 < n <= |us| && remaining > 0 && !Matches(us[n - 1], f)
    requires WalkShape(us, f, n - 1, ReturnWalk(us, bs, f, n - 1, remaining))
    ensures WalkShape(us, f, n, ReturnWalk(us, bs, f, n, remaining))
  {
    var r := ReturnWalk(us, bs, f, n - 1, remaining);
    var m := |r.usages| - (|us| - (n - 1));
    assert r.usages[..m + 1] == r.usages[..m] + [us[n - 1]] by {
      assert r.usages[m..][0] == us[n - 1..][0];
    }
    assert us[..n] == us[..n - 1] + [us[n - 1]];
    MatchSumSnoc(r.usages[..m], us[n - 1], f);
    MatchSumSnoc(us[..n - 1], us[n - 1], f);
    assert r.usages[m + 1..] == us[n..] by {
      assert r.usages[m + 1..] == r.usages[m..][1..];
    }
    var head := r.usages[..m + 1];
    assert MatchesPositive(head, f) by {
      forall i | 0 <= i < m + 1 && Matches(head[i], f) ensures head[i].qty > 0 {
        if i < m {
          assert head[i] == r.usages[..m][i];
        }
      }
    }
  }

  lemma WalkDelete(us: seq<Usage>, bs: seq<Batch>, f: Filter, n: nat, remaining: int)
    requires 0 < n <= |us| && remaining > 0 && Matches(us[n - 1], f) && us[n - 1].qty <= remaining
    requires var us' := us[..n - 1] + us[n..];
      var bs' := Adjust(bs, f.pharmacy, us[n - 1].batch, us[n - 1].qty);
      WalkShape(us', f, n - 1, ReturnWalk(us', bs', f, n - 1, remaining - us[n - 1].qty))
    ensures WalkShape(us, f, n, ReturnWalk(us, bs, f, n, remaining))
  {
    var u := us[n - 1];
    var us' := us[..n - 1] + us[n..];
    assert us'[..n - 1] == us[..n - 1];
    assert us'[n - 1..] == us[n..];
    assert us[..n] == us[..n - 1] + [u];
    MatchSumSnoc(us[..n - 1], u, f);
  }

  lemma WalkReduce(us: seq<Usage>, bs: seq<Batch>, f: Filter, n: nat, remaining: int)
    requires 0 < n <= |us| && remaining > 0 && Matches(us[n - 1], f) && us[n - 1].qty > remaining
    requires MatchesPositive(us[..n - 1], f)
    ensures WalkShape(us, f, n, ReturnWalk(us, bs, f, n, remaining))
  {
    var u := us[n - 1];
    var us' := us[n - 1 := u.(qty := u.qty - remaining)];
    var r := ReturnWalk(us, bs, f, n, remaining);
    assert Min(u.qty, remaining) == remaining;
    var rest := ReturnWalk(us', Adjust(bs, f.pharmacy, u.batch, remaining), f, n - 1, 0);
    assert rest.returned == 0 && rest.usages == us';
    assert r.usages == us' && r.returned == remaining;
    assert us'[..n - 1] == us[..n - 1];
    assert us'[..n] == us[..n - 1] + [us'[n - 1]];
    assert us[..n] == us[..n - 1] + [u];
    MatchSumSnoc(us[..n - 1], u, f);
    MatchSumSnoc(us[..n - 1], us'[n - 1], f);
    var head := us'[..n];
    assert MatchesPositive(head, f) by {
      forall i | 0 <= i < n && Matches(head[i], f) ensures head[i].qty > 0 {
        if i < n - 1 {
          assert head[i] == us[..n - 1][i];
        }
      }
    }
  }

  lemma MatchesPositiveDelete(us: seq<Usage>, f: Filter, n: nat)
    requires 0 < n <= |us| && MatchesPositive(us[..n], f)
    ensures MatchesPositive((us[..n - 1] + us[n..])[..n - 1], f)
  {
    assert (us[..n - 1] + us[n..])[..n - 1] == us[..n - 1];
    assert forall i :: 0 <= i < n - 1 ==> us[..n - 1][i] == us[..n][i];
  }

  /**
   * What the walk does to the ledger: the rows past `n` stay as they were, the
   * rows the filter does not select stay as they were, the selected rows'
   * total falls by exactly what was returned, and what was returned is the
   * requested quantity or, when the selected rows hold less, all they hold.
   */
  predicate WalkLedger(us: seq<Usage>, bs: seq<Batch>, f: Filter, n: nat, remaining: int)
    requires n <= |us|
  {
    var r := ReturnWalk(us, bs, f, n, remaining);
    && WalkShape(us, f, n, r)
    && r.returned == if remaining <= 0 then 0 else Min(remaining, MatchSum(us[..n], f))
  }

  /**
   * What the walk does to the batches: every batch of the filter's pharmacy,
   * whatever its status, gains exactly what the selected rows naming its id
   * gave up, and every other batch stays as it was.
   */
  predicate WalkCredits(us: seq<Usage>, bs: seq<Batch>, f: Filter, n: nat, r: Walked)
    requires n <= |us|
  {
    var m := |r.usages| - (|us| - n);
    && 0 <= m <= |r.usages|
    && r.usages[m..] == us[n..]
    && |r.batches| == |bs|
    && forall i :: 0 <= i < |bs| ==> r.batches[i] == Credit(bs[i], f, BatchSum(us[..n], f, bs[i].id) - BatchSum(r.usages[..m], f, bs[i].id))
  }

  /** A batch of the filter's pharmacy given `give` more units; a batch of any other pharmacy as it was. */
  function Credit(b: Batch, f: Filter, give: int): Batch {
    if b.pharmacy == f.pharmacy then b.(quantity := b.quantity + give) else b
  }

  /** The walk's effect on the ledger (`WalkLedger`) and on the batches (`WalkCredits`). */
  predicate WalkDone(us: seq<Usage>, bs: seq<Batch>, f: Filter, n: nat, remaining: int)
    requires n <= |us|
  {
    && WalkLedger(us, bs, f, n, remaining)
    && WalkCredits(us, bs, f, n, ReturnWalk(us, bs, f, n, remaining))
  }

  lemma WalkEffect(us: seq<Usage>, bs: seq<Batch>, f: Filter, n: nat, remaining: int)
    requires n <= |us| && MatchesPositive(us[..n], f)
    ensures WalkDone(us, bs, f, n, remaining)
  {
    WalkLedgerEffect(us, bs, f, n, remaining);
    WalkCreditsEffect(us, bs, f, n, remaining);
  }

  lemma {:induction false} WalkLedgerEffect(us: seq<Usage>, bs: seq<Batch>, f: Filter, n: nat, remaining: int)
    requires n <= |us| && MatchesPositive(us[..n], f)
    ensures WalkLedger(us, bs, f, n, remaining)
    decreases n
  {
    if n == 0 || remaining <= 0 {
      MatchSumPositive(us[..n], f);
    } else {
      var u := us[n - 1];
      WalkHead(us, f, n);
      if !Matches(u, f) {
        WalkLedgerEffect(us, bs, f, n - 1, remaining);
        WalkSkipCase(us, bs, f, n, remaining);
      } else if u.qty <= remaining {
        var us' := us[..n - 1] + us[n..];
        MatchesPositiveDelete(us, f, n);
        WalkLedgerEffect(us', Adjust(bs, f.pharmacy, u.batch, u.qty), f, n - 1, remaining - u.qty);
        WalkDeleteCase(us, bs, f, n, remaining);
      } else {
        WalkReduce(us, bs, f, n, remaining);
        MatchSumPositive(us[..n - 1], f);
      }
    }
  }

  lemma {:induction false} WalkCreditsEffect(us: seq<Usage>, bs: seq<Batch>, f: Filter, n: nat, remaining: int)
    requires n <= |us|
    ensures WalkCredits(us, bs, f, n, ReturnWalk(us, bs, f, n, remaining))
    decreases n
  {
    if n == 0 || remaining <= 0 {
      CreditsNone(us, bs, f, n, remaining);
    } else {
      var u := us[n - 1];
      if !Matches(u, f) {
        WalkCreditsEffect(us, bs, f, n - 1, remaining);
        CreditsSkip(us, bs, f, n, remaining);
      } else if u.qty <= remaining {
        var us' := us[..n - 1] + us[n..];
        WalkCreditsEffect(us', Adjust(bs, f.pharmacy, u.batch, u.qty), f, n - 1, remaining - u.qty);
        CreditsDelete(us, bs, f, n, remaining);
      } else {
        CreditsReduce(us, bs, f, n, remaining);
      }
    }
  }

  /** A walk with nothing to do credits nothing. */
  lemma CreditsNone(us: seq<Usage>, bs: seq<Batch>, f: Filter, n: nat, remaining: int)
    requires n <= |us| && (n == 0 || remaining <= 0)
    ensures WalkCredits(us, bs, f, n, ReturnWalk(us, bs, f, n, remaining))
  {
    var r := ReturnWalk(us, bs, f, n, remaining);
    assert r == Walked(us, bs, 0);
    forall i | 0 <= i < |bs| ensures r.batches[i] == Credit(bs[i], f, BatchSum(us[..n], f, bs[i].id) - BatchSum(r.usages[..n], f, bs[i].id)) {
      CreditNothing(bs[i], f);
    }
  }

  lemma CreditNothing(b: Batch, f: Filter)
    ensures Credit(b, f, 0) == b
  {
  }

  /** A row the filter does not select credits nothing. */
  lemma CreditsSkip(us: seq<Usage>, bs: seq<Batch>, f: Filter, n: nat, remaining: int)
    requires 0 < n <= |us| && remaining > 0 && !Matches(us[n - 1], f)
    requires WalkCredits(us, bs, f, n - 1, ReturnWalk(us, bs, f, n - 1, remaining))
    ensures WalkCredits(us, bs, f, n, ReturnWalk(us, bs, f, n, remaining))
  {
    var r := ReturnWalk(us, bs, f, n - 1, remaining);
    assert ReturnWalk(us, bs, f, n, remaining) == r;
    var m := |r.usages| - (|us| - (n - 1));
    assert r.usages[m] == us[n - 1] by {
      assert r.usages[m..][0] == us[n - 1..][0];
    }
    assert r.usages[..m + 1] == r.usages[..m] + [us[n - 1]];
    assert us[..n] == us[..n - 1] + [us[n - 1]];
    assert r.usages[m + 1..] == us[n..] by {
      assert r.usages[m + 1..] == r.usages[m..][1..];
      assert us[n..] == us[n - 1..][1..];
    }
    forall i | 0 <= i < |bs|
      ensures r.batches[i] == Credit(bs[i], f, BatchSum(us[..n], f, bs[i].id) - BatchSum(r.usages[..m + 1], f, bs[i].id))
    {
      BatchSumSnoc(r.usages[..m], us[n - 1], f, bs[i].id);
      BatchSumSnoc(us[..n - 1], us[n - 1], f, bs[i].id);
    }
  }

  /** A selected row that gives all it has is deleted, and its whole quantity goes to its batch. */
  lemma CreditsDelete(us: seq<Usage>, bs: seq<Batch>, f: Filter, n: nat, remaining: int)
    requires 0 < n <= |us| && remaining > 0 && Matches(us[n - 1], f) && us[n - 1].qty <= remaining
    requires var us' := us[..n - 1] + us[n..];
      var bs' := Adjust(bs, f.pharmacy, us[n - 1].batch, us[n - 1].qty);
      WalkCredits(us', bs', f, n - 1, ReturnWalk(us', bs', f, n - 1, remaining - us[n - 1].qty))
    ensures WalkCredits(us, bs, f, n, ReturnWalk(us, bs, f, n, remaining))
  {
    var u := us[n - 1];
    var us' := us[..n - 1] + us[n..];
    var bs' := Adjust(bs, f.pharmacy, u.batch, u.qty);
    var rest := ReturnWalk(us', bs', f, n - 1, remaining - u.qty);
    var r := ReturnWalk(us, bs, f, n, remaining);
    assert r.usages == rest.usages && r.batches == rest.batches;
    assert us'[..n - 1] == us[..n - 1];
    assert us'[n - 1..] == us[n..];
    assert us[..n] == us[..n - 1] + [u];
    var m := |rest.usages| - (|us| - n);
    forall i | 0 <= i < |bs|
      ensures r.batches[i] == Credit(bs[i], f, BatchSum(us[..n], f, bs[i].id) - BatchSum(r.usages[..m], f, bs[i].id))
    {
      BatchSumSnoc(us[..n - 1], u, f, bs[i].id);
    }
  }

  /** A selected row holding more than remains gives what remains to its batch and keeps the rest. */
  lemma CreditsReduce(us: seq<Usage>, bs: seq<Batch>, f: Filter, n: nat, remaining: int)
    requires 0 < n <= |us| && Matches(us[n - 1], f) && 0 < remaining < us[n - 1].qty
    ensures WalkCredits(us, bs, f, n, ReturnWalk(us, bs, f, n, remaining))
  {
    var u := us[n - 1];
    var u' := u.(qty := u.qty - remaining);
    var us' := us[n - 1 := u'];
    var bs' := Adjust(bs, f.pharmacy, u.batch, remaining);
    assert Min(u.qty, remaining) == remaining;
    assert ReturnWalk(us', bs', f, n - 1, 0) == Walked(us', bs', 0);
    var r := ReturnWalk(us, bs, f, n, remaining);
    assert r.usages == us' && r.batches == bs';
    assert us'[..n] == us[..n - 1] + [u'];
    assert us[..n] == us[..n - 1] + [u];
    assert us'[n..] == us[n..];
    forall i | 0 <= i < |bs|
      ensures r.batches[i] == Credit(bs[i], f, BatchSum(us[..n], f, bs[i].id) - BatchSum(r.usages[..n], f, bs[i].id))
    {
      BatchSumSnoc(us[..n - 1], u, f, bs[i].id);
      BatchSumSnoc(us[..n - 1], u', f, bs[i].id);
    }
  }

  /** The newest row of the first `n` splits off the selected total; the older rows stay positive. */
  lemma WalkHead(us: seq<Usage>, f: Filter, n: nat)
    requires 0 < n <= |us| && MatchesPositive(us[..n], f)
    ensures MatchSum(us[..n], f) == MatchSum(us[..n - 1], f) + (if Matches(us[n - 1], f) then us[n - 1].qty else 0)
    ensures MatchesPositive(us[..n - 1], f)
    ensures Matches(us[n - 1], f) ==> us[n - 1].qty > 0
  {
    assert us[..n] == us[..n - 1] + [us[n - 1]];
    MatchSumSnoc(us[..n - 1], us[n - 1], f);
    assert forall i :: 0 <= i < n - 1 ==> us[..n - 1][i] == us[..n][i];
    assert us[..n][n - 1] == us[n - 1];
  }

  lemma WalkSkipCase(us: seq<Usage>, bs: seq<Batch>, f: Filter, n: nat, remaining: int)
    requires 0 < n <= |us| && remaining > 0 && !Matches(us[n - 1], f)
    requires MatchSum(us[..n], f) == MatchSum(us[..n - 1], f)
    requires WalkLedger(us, bs, f, n - 1, remaining)
    ensures WalkLedger(us, bs, f, n, remaining)
  {
    WalkSkip(us, bs, f, n, remaining);
  }

  lemma WalkDeleteCase(us: seq<Usage>, bs: seq<Batch>, f: Filter, n: nat, remaining: int)
    requires 0 < n <= |us| && remaining > 0 && Matches(us[n - 1], f) && 0 < us[n - 1].qty <= remaining
    requires MatchSum(us[..n], f) == MatchSum(us[..n - 1], f) + us[n - 1].qty
    requires MatchesPositive(us[..n - 1], f)
    requires WalkLedger(us[..n - 1] + us[n..], Adjust(bs, f.pharmacy, us[n - 1].batch, us[n - 1].qty), f, n - 1, remaining - us[n - 1].qty)
    ensures WalkLedger(us, bs, f, n, remaining)
  {
    var u := us[n - 1];
    var us' := us[..n - 1] + us[n..];
    assert us'[..n - 1] == us[..n - 1];
    MatchSumPositive(us[..n - 1], f);
    WalkDelete(us, bs, f, n, remaining);
    var rest := ReturnWalk(us', Adjust(bs, f.pharmacy, u.batch, u.qty), f, n - 1, remaining - u.qty);
    assert ReturnWalk(us, bs, f, n, remaining).returned == u.qty + rest.returned;
  }

  /**
   * Reversal over a ledger whose selected rows are positive: it returns
   * `min(qty, selected total)`, lowers the selected total by that much, keeps
   * every other row in order, and keeps the selected rows positive.
   */
  lemma ReverseEffect(db: Db, f: Filter, qty: int, today: int)
    requires qty > 0 && MatchesPositive(db.usages, f)
    ensures var r := Reverse(db, f, qty, today);
      && r.returned == Min(qty, MatchSum(db.usages, f))
      && MatchSum(r.db.usages, f) == MatchSum(db.usages, f) - r.returned
      && Others(r.db.usages, f) == Others(db.usages, f)
      && MatchesPositive(r.db.usages, f)
    ensures ReverseCredited(db, f, Reverse(db, f, qty, today).db)
  {
    assert db.usages[..|db.usages|] == db.usages;
    WalkEffect(db.usages, db.batches, f, |db.usages|, qty);
    var w := ReturnWalk(db.usages, db.batches, f, |db.usages|, qty);
    assert w.usages[..|w.usages|] == w.usages;
    ReverseCredits(db, f, qty, today);
  }

  /** A reversal over a positive ledger returns the smaller of the request and what the ledger holds. */
  lemma ReverseReturned(db: Db, f: Filter, qty: int, today: int)
    requires qty > 0 && MatchesPositive(db.usages, f)
    ensures Reverse(db, f, qty, today).returned == Min(qty, MatchSum(db.usages, f))
  {
    ReverseEffect(db, f, qty, today);
  }

  /**
   * `r` holds the batches of `db` after a reversal that left the ledger
   * `r.usages`: every batch of the filter's pharmacy, whatever its status,
   * gained exactly what the selected rows naming its id gave up, and every
   * other batch is as it was.
   */
  predicate ReverseCredited(db: Db, f: Filter, r: Db) {
    && |r.batches| == |db.batches|
    && forall i :: 0 <= i < |db.batches| ==>
         r.batches[i] == Credit(db.batches[i], f, BatchSum(db.usages, f, db.batches[i].id) - BatchSum(r.usages, f, db.batches[i].id))
  }

  /** A reversal credits each batch with exactly what the selected rows naming it gave back, whatever the batch's status. */
  lemma ReverseCredits(db: Db, f: Filter, qty: int, today: int)
    ensures ReverseCredited(db, f, Reverse(db, f, qty, today).db)
  {
    if qty > 0 {
      assert db.usages[..|db.usages|] == db.usages;
      WalkCreditsEffect(db.usages, db.batches, f, |db.usages|, qty);
      var w := ReturnWalk(db.usages, db.batches, f, |db.usages|, qty);
      assert w.usages[..|w.usages|] == w.usages;
    }
  }

  /** A batch after the slices of `allocs` were given back to it. */
  function Credited(b: Batch, pharmacy: nat, allocs: seq<Alloc>): Batch {
    if b.pharmacy == pharmacy then b.(quantity := b.quantity + Taken(allocs, b.id)) else b
  }

  /** The filter selects every ledger row a consumption with this tag writes. */
  predicate Covers(f: Filter, t: Tag) {
    && f.sale == t.sale && f.pharmacy == t.pharmacy && f.product == t.product && f.barcode == t.barcode
    && (f.item.Some? && f.item.value != 0 ==> f.item == ItemColumn(t.saleItem))
  }

  lemma {:induction false} AllocSumPositive(allocs: seq<Alloc>)
    requires forall i :: 0 <= i < |allocs| ==> allocs[i].qty > 0
    ensures AllocSum(allocs) >= 0
    decreases |allocs|
  {
    if |allocs| > 0 {
      AllocSumPositive(allocs[..|allocs| - 1]);
    }
  }

  /**
   * Walking back over the rows one consumption appended, with exactly their
   * total to return, removes those rows and nothing else and gives every
   * slice back to its batch.
   */
  lemma {:induction false} WalkUndoesRows(base: seq<Usage>, bs: seq<Batch>, f: Filter, t: Tag, allocs: seq<Alloc>)
    requires Covers(f, t)
    requires forall i :: 0 <= i < |allocs| ==> allocs[i].qty > 0
    ensures var r := ReturnWalk(base + Rows(t, allocs), bs, f, |base| + |allocs|, AllocSum(allocs));
      && r.usages == base
      && r.returned == AllocSum(allocs)
      && forall i :: 0 <= i < |bs| ==> r.batches[i] == Credited(bs[i], t.pharmacy, allocs)
    decreases |allocs|
  {
    if |allocs| == 0 {
      assert base + Rows(t, allocs) == base;
    } else {
      var p := allocs[..|allocs| - 1];
      var a := allocs[|allocs| - 1];
      var bs' := Adjust(bs, f.pharmacy, a.batch, a.qty);
      WalkUndoesRows(base, bs', f, t, p);
      WalkUndoStep(base, bs, f, t, allocs);
      forall i | 0 <= i < |bs|
        ensures Credited(bs'[i], t.pharmacy, p) == Credited(bs[i], t.pharmacy, allocs)
      {
      }
    }
  }

  /** The walk's first step deletes the newest appended row, giving its whole slice back. */
  lemma WalkUndoStep(base: seq<Usage>, bs: seq<Batch>, f: Filter, t: Tag, allocs: seq<Alloc>)
    requires Covers(f, t) && |allocs| > 0
    requires forall i :: 0 <= i < |allocs| ==> allocs[i].qty > 0
    ensures var p := allocs[..|allocs| - 1];
      var a := allocs[|allocs| - 1];
      var rest := ReturnWalk(base + Rows(t, p), Adjust(bs, f.pharmacy, a.batch, a.qty), f, |base| + |p|, AllocSum(p));
      ReturnWalk(base + Rows(t, allocs), bs, f, |base| + |allocs|, AllocSum(allocs))
        == Walked(rest.usages, rest.batches, a.qty + rest.returned)
  {
    var us := base + Rows(t, allocs);
    var n := |base| + |allocs|;
    var p := allocs[..|allocs| - 1];
    var a := allocs[|allocs| - 1];
    AllocSumPositive(p);
    assert us[n - 1] == RowOf(t, a);
    assert us[..n - 1] + us[n..] == base + Rows(t, p) by {
      assert Rows(t, allocs) == Rows(t, p) + [RowOf(t, a)];
    }
  }

  lemma CreditUndoesDebit(b: Batch, pharmacy: nat, allocs: seq<Alloc>)
    ensures Credited(Debited(b, pharmacy, allocs), pharmacy, allocs) == b
  {
  }

  /** Giving the slices back to batches they were debited from restores the batches. */
  lemma UndoDebits(us: seq<Usage>, base: seq<Usage>, before: seq<Batch>, after: seq<Batch>,
                   f: Filter, t: Tag, allocs: seq<Alloc>, remaining: int)
    requires Covers(f, t)
    requires forall i :: 0 <= i < |allocs| ==> allocs[i].qty > 0
    requires us == base + Rows(t, allocs) && remaining == AllocSum(allocs)
    requires |after| == |before|
    requires forall i :: 0 <= i < |before| ==> after[i] == Debited(before[i], t.pharmacy, allocs)
    ensures ReturnWalk(us, after, f, |us|, remaining) == Walked(base, before, remaining)
  {
    assert |us| == |base| + |allocs|;
    WalkUndoesRows(base, after, f, t, allocs);
    var w := ReturnWalk(us, after, f, |us|, remaining);
    assert w.usages == base && w.returned == remaining;
    assert |w.batches| == |before|;
    forall i | 0 <= i < |before| ensures w.batches[i] == before[i] {
      CreditUndoesDebit(before[i], t.pharmacy, allocs);
    }
    assert w.batches == before;
    assert w == Walked(w.usages, w.batches, w.returned);
  }

  /** The walk a reversal runs right after a consumption. */
  lemma WalkAfterConsume(db: Db, t: Tag, f: Filter, qty: int, today: int)
    requires 0 < qty <= SaleableTotal(db.batches, t.pharmacy, t.product, today)
    requires Covers(f, t)
    ensures var c := Consume(db, t, qty, today).db;
      ReturnWalk(c.usages, c.batches, f, |c.usages|, qty) == Walked(db.usages, db.batches, qty)
  {
    var c := Consume(db, t, qty, today);
    ConsumeEffect(db, t, qty, today);
    ConsumeFollowsOrder(db, t, qty, today);
    UndoDebits(c.db.usages, db.usages, db.batches, c.db.batches, f, t, c.allocations, qty);
  }

  /**
   * Consumption followed by the reversal of the same quantity for the same
   * sale and product restores the batches and the ledger exactly, whatever
   * older rows the sale already had: the newest rows are given back first and
   * they are exactly the ones the consumption wrote. The product rows end as a
   * recalculation over the original batches.
   */
  lemma ConsumeThenReverse(db: Db, t: Tag, f: Filter, qty: int, today: int)
    requires 0 < qty <= SaleableTotal(db.batches, t.pharmacy, t.product, today)
    requires Covers(f, t)
    ensures var back := Reverse(Consume(db, t, qty, today).db, f, qty, today);
      && back.returned == qty
      && back.db == Recalc(db, t.pharmacy, t.product, today)
  {
    var c := Consume(db, t, qty, today).db;
    WalkAfterConsume(db, t, f, qty, today);
    ConsumeEffect(db, t, qty, today);
    assert c.(usages := db.usages, batches := db.batches) == db.(products := c.products);
    RecalcForgetsSnapshot(db, c.products, t.pharmacy, t.product, today);
  }

  /** From a consistent database, consumption and its reversal leave everything as it was. */
  lemma ConsumeThenReverseRestores(db: Db, t: Tag, f: Filter, qty: int, today: int)
    requires 0 < qty <= SaleableTotal(db.batches, t.pharmacy, t.product, today) && Covers(f, t)
    requires Consistent(db, today)
    ensures Reverse(Consume(db, t, qty, today).db, f, qty, today) == Returned(db, qty)
  {
    ConsumeThenReverse(db, t, f, qty, today);
    RecalcOfConsistentIsIdentity(db, t.pharmacy, t.product, today);
  }

  /** Every ledger row records a positive quantity: consumption writes only positive slices. */
  predicate LedgerPositive(us: seq<Usage>) {
    forall i :: 0 <= i < |us| ==> us[i].qty > 0
  }

  /** No ledger row is selected by both filters. */
  predicate Apart(f: Filter, g: Filter) {
    f.sale != g.sale || f.pharmacy != g.pharmacy || f.product != g.product || f.barcode != g.barcode
  }

  /** The rows a filter leaves alone are exactly the ledger's rows it does not select. */
  lemma {:induction false} OthersMembers(us: seq<Usage>, f: Filter, x: Usage)
    ensures x in Others(us, f) <==> x in us && !Matches(x, f)
    decreases |us|
  {
    if |us| > 0 {
      var init := us[..|us| - 1];
      OthersMembers(init, f, x);
      assert us == init + [us[|us| - 1]];
    }
  }

  /** A filter apart from `f` sees the same total in the rows `f` leaves alone as in the whole ledger. */
  lemma {:induction false} MatchSumOfOthers(us: seq<Usage>, f: Filter, g: Filter)
    requires Apart(f, g)
    ensures MatchSum(Others(us, f), g) == MatchSum(us, g)
    decreases |us|
  {
    if |us| > 0 {
      var init := us[..|us| - 1];
      var u := us[|us| - 1];
      MatchSumOfOthers(init, f, g);
      assert MatchSum(us, g) == MatchSum(init, g) + (if Matches(u, g) then u.qty else 0);
      assert Others(us, f) == Others(init, f) + (if Matches(u, f) then [] else [u]);
      if !Matches(u, f) {
        MatchSumSnoc(Others(init, f), u, g);
      } else {
        assert Others(init, f) + [] == Others(init, f);
        assert !Matches(u, g);
      }
    }
  }

  /** A reversal over a positive ledger keeps it positive. */
  lemma ReverseKeepsPositive(db: Db, f: Filter, qty: int, today: int)
    requires LedgerPositive(db.usages)
    ensures LedgerPositive(Reverse(db, f, qty, today).db.usages)
  {
    if qty > 0 {
      var r := Reverse(db, f, qty, today).db.usages;
      ReverseEffect(db, f, qty, today);
      forall i | 0 <= i < |r| ensures r[i].qty > 0 {
        if !Matches(r[i], f) {
          OthersMembers(r, f, r[i]);
          OthersMembers(db.usages, f, r[i]);
        }
      }
    }
  }

  /** A reversal leaves the ledger total of every filter apart from its own as it was. */
  lemma ReverseKeepsOthers(db: Db, f: Filter, qty: int, today: int, g: Filter)
    requires LedgerPositive(db.usages) && Apart(f, g)
    ensures MatchSum(Reverse(db, f, qty, today).db.usages, g) == MatchSum(db.usages, g)
  {
    if qty > 0 {
      var r := Reverse(db, f, qty, today).db.usages;
      ReverseEffect(db, f, qty, today);
      MatchSumOfOthers(r, f, g);
      MatchSumOfOthers(db.usages, f, g);
    }
  }

  /** The rows of a consumption of positive slices keep a positive ledger positive. */
  lemma RowsKeepPositive(us: seq<Usage>, t: Tag, allocs: seq<Alloc>)
    requires LedgerPositive(us) && forall i :: 0 <= i < |allocs| ==> allocs[i].qty > 0
    ensures LedgerPositive(us + Rows(t, allocs))
  {
    var r := us + Rows(t, allocs);
    forall i | 0 <= i < |r| ensures r[i].qty > 0 {
      if i >= |us| {
        assert r[i] == Rows(t, allocs)[i - |us|];
      }
    }
  }
}
