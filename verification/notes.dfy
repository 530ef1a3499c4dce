/**
 * The notification table as the inventory helper and the jobs use it: rows
 * are keyed by pharmacy, product and kind, and "open" means not resolved.
 */
module Notes {
  import opened Base
  import opened Records

  /** An unresolved notification of this kind for this pharmacy product, on any batch. */
  predicate IsOpen(n: Notification, pharmacy: nat, product: nat, kind: NoteKind) {
    n.pharmacy == pharmacy && n.product == product && n.kind == kind && !n.resolved
  }

  predicate HasOpen(ns: seq<Notification>, pharmacy: nat, product: nat, kind: NoteKind) {
    exists i :: 0 <= i < |ns| && IsOpen(ns[i], pharmacy, product, kind)
  }

  /** How many open notifications of this kind the product has. */
  function CountOpen(ns: seq<Notification>, pharmacy: nat, product: nat, kind: NoteKind): (c: nat)
    ensures c == 0 <==> !HasOpen(ns, pharmacy, product, kind)
    ensures c <= |ns|
  {
    if |ns| == 0 then 0
    else
      var init := ns[..|ns| - 1];
      assert forall i :: 0 <= i < |init| ==> init[i] == ns[i];
      CountOpen(init, pharmacy, product, kind) + (if IsOpen(ns[|ns| - 1], pharmacy, product, kind) then 1 else 0)
  }

  /**
   * A freshly inserted notification: unread, unresolved, no email sent yet.
   * The inserts that name only pharmacy, product, type and message leave
   * these columns, and `batch` 0, to the table's defaults.
   */
  function Fresh(pharmacy: nat, product: nat, batch: nat, kind: NoteKind): (n: Notification)
    ensures IsOpen(n, pharmacy, product, kind) && !n.read && !n.emailSent && n.batch == batch
  {
    Notification(pharmacy, product, batch, kind, false, false, None, false)
  }

  lemma CountOpenSnoc(ns: seq<Notification>, n: Notification, pharmacy: nat, product: nat, kind: NoteKind)
    ensures CountOpen(ns + [n], pharmacy, product, kind)
         == CountOpen(ns, pharmacy, product, kind) + (if IsOpen(n, pharmacy, product, kind) then 1 else 0)
  {
    assert (ns + [n])[..|ns|] == ns;
  }

  /**
   * The deduplicated insert the helper and the expiry jobs share: a fresh
   * notification is appended exactly when the product has no open one of
   * this kind, so afterwards it has one, and never more than it had (or one).
   */
  function InsertIfNoneOpen(ns: seq<Notification>, pharmacy: nat, product: nat, batch: nat, kind: NoteKind)
    : (r: seq<Notification>)
    ensures r != ns <==> !HasOpen(ns, pharmacy, product, kind)
    ensures r != ns ==> r == ns + [Fresh(pharmacy, product, batch, kind)]
    ensures HasOpen(r, pharmacy, product, kind)
  {
    if HasOpen(ns, pharmacy, product, kind) then ns
    else
      var r := ns + [Fresh(pharmacy, product, batch, kind)];
      assert r[|ns|] == Fresh(pharmacy, product, batch, kind);
      r
  }

  /**
   * The insert never duplicates: the product ends with exactly one open
   * notification of the kind if it had none, as many as before otherwise, and
   * every other key's count is unchanged.
   */
  lemma InsertIfNoneOpenCounts(ns: seq<Notification>, pharmacy: nat, product: nat, batch: nat, kind: NoteKind,
                               p: nat, x: nat, k: NoteKind)
    ensures var r := InsertIfNoneOpen(ns, pharmacy, product, batch, kind);
      CountOpen(r, p, x, k) == if (p, x, k) == (pharmacy, product, kind) then Max(CountOpen(ns, p, x, k), 1)
                               else CountOpen(ns, p, x, k)
  {
    if !HasOpen(ns, pharmacy, product, kind) {
      CountOpenSnoc(ns, Fresh(pharmacy, product, batch, kind), p, x, k);
    }
  }

  /** Inserting through the deduplicating path twice is inserting once. */
  lemma InsertIfNoneOpenIdempotent(ns: seq<Notification>, pharmacy: nat, product: nat, batch: nat, kind: NoteKind)
    ensures var once := InsertIfNoneOpen(ns, pharmacy, product, batch, kind);
      InsertIfNoneOpen(once, pharmacy, product, batch, kind) == once
  {
  }

  /** A (pharmacy, product) pair a sweep raises a notification for. */
  type Pair = (nat, nat)

  /** The deduplicated insert applied to each pair in order, as the expiry sweeps do. */
  function InsertAll(ns: seq<Notification>, keys: seq<Pair>, kind: NoteKind): seq<Notification>
    decreases |keys|
  {
    if |keys| == 0 then ns
    else InsertAll(InsertIfNoneOpen(ns, keys[0].0, keys[0].1, 0, kind), keys[1..], kind)
  }

  /** An open notification stays open when rows are only appended. */
  lemma HasOpenAfterInsert(ns: seq<Notification>, pharmacy: nat, product: nat, batch: nat, kind: NoteKind,
                           p: nat, x: nat, k: NoteKind)
    requires HasOpen(ns, p, x, k)
    ensures HasOpen(InsertIfNoneOpen(ns, pharmacy, product, batch, kind), p, x, k)
  {
    var r := InsertIfNoneOpen(ns, pharmacy, product, batch, kind);
    var i :| 0 <= i < |ns| && IsOpen(ns[i], p, x, k);
    assert r[i] == ns[i];
  }

  /**
   * After the inserts, a pair of the list has exactly one open notification
   * of the kind if it had none and as many as before otherwise; every other
   * pair and kind keeps its count.
   */
  lemma {:induction false} InsertAllCounts(ns: seq<Notification>, keys: seq<Pair>, kind: NoteKind, p: nat, x: nat, k: NoteKind)
    ensures CountOpen(InsertAll(ns, keys, kind), p, x, k)
         == if k == kind && (p, x) in keys then Max(CountOpen(ns, p, x, k), 1) else CountOpen(ns, p, x, k)
    decreases |keys|
  {
    if |keys| > 0 {
      var next := InsertIfNoneOpen(ns, keys[0].0, keys[0].1, 0, kind);
      InsertIfNoneOpenCounts(ns, keys[0].0, keys[0].1, 0, kind, p, x, k);
      InsertAllCounts(next, keys[1..], kind, p, x, k);
      assert (p, x) in keys <==> (p, x) == keys[0] || (p, x) in keys[1..];
    }
  }

  /** Every pair of the list ends with an open notification of the kind. */
  lemma {:induction false} InsertAllOpens(ns: seq<Notification>, keys: seq<Pair>, kind: NoteKind, p: nat, x: nat)
    requires (p, x) in keys
    ensures HasOpen(InsertAll(ns, keys, kind), p, x, kind)
    decreases |keys|
  {
    var next := InsertIfNoneOpen(ns, keys[0].0, keys[0].1, 0, kind);
    if keys[0] == (p, x) {
      InsertAllKeepsOpen(next, keys[1..], kind, p, x, kind);
    } else {
      InsertAllOpens(next, keys[1..], kind, p, x);
    }
  }

  lemma {:induction false} InsertAllKeepsOpen(ns: seq<Notification>, keys: seq<Pair>, kind: NoteKind, p: nat, x: nat, k: NoteKind)
    requires HasOpen(ns, p, x, k)
    ensures HasOpen(InsertAll(ns, keys, kind), p, x, k)
    decreases |keys|
  {
    if |keys| > 0 {
      HasOpenAfterInsert(ns, keys[0].0, keys[0].1, 0, kind, p, x, k);
      InsertAllKeepsOpen(InsertIfNoneOpen(ns, keys[0].0, keys[0].1, 0, kind), keys[1..], kind, p, x, k);
    }
  }

  /** When every pair already has an open notification of the kind, the inserts change nothing. */
  lemma {:induction false} InsertAllNoop(ns: seq<Notification>, keys: seq<Pair>, kind: NoteKind)
    requires forall key :: key in keys ==> HasOpen(ns, key.0, key.1, kind)
    ensures InsertAll(ns, keys, kind) == ns
    decreases |keys|
  {
    if |keys| > 0 {
      assert keys[0] in keys;
      assert forall key :: key in keys[1..] ==> key in keys;
      InsertAllNoop(ns, keys[1..], kind);
    }
  }

  /** The inserts are idempotent: running them twice is running them once. */
  lemma InsertAllIdempotent(ns: seq<Notification>, keys: seq<Pair>, kind: NoteKind)
    ensures InsertAll(InsertAll(ns, keys, kind), keys, kind) == InsertAll(ns, keys, kind)
  {
    forall key | key in keys ensures HasOpen(InsertAll(ns, keys, kind), key.0, key.1, kind) {
      InsertAllOpens(ns, keys, kind, key.0, key.1);
    }
    InsertAllNoop(InsertAll(ns, keys, kind), keys, kind);
  }

  /** Inserting for two lists in turn is inserting for their concatenation. */
  lemma {:induction false} InsertAllAppend(ns: seq<Notification>, a: seq<Pair>, b: seq<Pair>, kind: NoteKind)
    ensures InsertAll(InsertAll(ns, a, kind), b, kind) == InsertAll(ns, a + b, kind)
    decreases |a|
  {
    if |a| == 0 {
      assert a + b == b;
    } else {
      assert (a + b)[1..] == a[1..] + b;
      InsertAllAppend(InsertIfNoneOpen(ns, a[0].0, a[0].1, 0, kind), a[1..], b, kind);
    }
  }
}
