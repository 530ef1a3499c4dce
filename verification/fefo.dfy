/**
 * First-expired-first-out order of the saleable batches of one product:
 * batches with an expiry before those without, then expiry ascending, then
 * id ascending (`ORDER BY (expiry_date IS NULL) ASC, expiry_date ASC, id ASC`).
 */
module Fefo {
  import opened Base
  import opened Records
  import opened Snapshot

  function NullRank(b: Batch): int {
    if b.expiry.None? then 1 else 0
  }

  function DateKey(b: Batch): int {
    if b.expiry.Some? then b.expiry.value else 0
  }

  /** `a` is strictly earlier than `b` in FEFO order. */
  predicate Before(a: Batch, b: Batch) {
    || NullRank(a) < NullRank(b)
    || (NullRank(a) == NullRank(b) && DateKey(a) < DateKey(b))
    || (NullRank(a) == NullRank(b) && DateKey(a) == DateKey(b) && a.id < b.id)
  }

  /** The FEFO order reads as stated: a dated batch before an undated one, then by date, then by id. */
  lemma BeforeMeaning(a: Batch, b: Batch)
    ensures a.expiry.Some? && b.expiry.None? ==> Before(a, b)
    ensures a.expiry.None? && b.expiry.Some? ==> !Before(a, b)
    ensures a.expiry.Some? && b.expiry.Some? ==>
      (Before(a, b) <==> a.expiry.value < b.expiry.value || (a.expiry == b.expiry && a.id < b.id))
    ensures a.expiry.None? && b.expiry.None? ==> (Before(a, b) <==> a.id < b.id)
  {
  }

  /** Two different batch ids are always ordered one way or the other. */
  lemma BeforeTotalOnIds(a: Batch, b: Batch)
    requires a.id != b.id
    ensures Before(a, b) != Before(b, a)
  {
  }

  /** No element is strictly after a later one. */
  predicate Ordered(s: seq<Batch>) {
    forall i, j :: 0 <= i < j < |s| ==> !Before(s[j], s[i])
  }

  function QtySum(s: seq<Batch>): int {
    if |s| == 0 then 0 else s[0].quantity + QtySum(s[1..])
  }

  predicate IdFree(s: seq<Batch>, id: nat) {
    forall y :: y in s ==> y.id != id
  }

  /** Not-after is transitive: the FEFO key is a lexicographic order. */
  lemma NotBeforeTransitive(a: Batch, b: Batch, c: Batch)
    requires !Before(a, b) && !Before(b, c)
    ensures !Before(a, c)
  {
  }

  lemma ConsSum(a: Batch, t: seq<Batch>)
    ensures QtySum([a] + t) == a.quantity + QtySum(t)
  {
    assert ([a] + t)[1..] == t;
  }

  lemma ConsOrdered(a: Batch, t: seq<Batch>)
    requires Ordered(t)
    requires forall y :: y in t ==> !Before(y, a)
    ensures Ordered([a] + t)
  {
    forall i, j | 0 <= i < j < |[a] + t|
      ensures !Before(([a] + t)[j], ([a] + t)[i])
    {
      assert ([a] + t)[j] == t[j - 1];
      if i > 0 {
        assert ([a] + t)[i] == t[i - 1];
      }
    }
  }

  lemma ConsUnique(a: Batch, t: seq<Batch>)
    requires UniqueBatchIds(t) && IdFree(t, a.id)
    ensures UniqueBatchIds([a] + t)
  {
    forall i, j | 0 <= i < j < |[a] + t|
      ensures ([a] + t)[i].id != ([a] + t)[j].id
    {
      assert ([a] + t)[j] == t[j - 1];
      if i > 0 {
        assert ([a] + t)[i] == t[i - 1];
      }
    }
  }

  /** `r` is `s` with `x` inserted: ordered, the same elements plus `x`, the same total plus `x`'s. */
  predicate InsertedInto(x: Batch, s: seq<Batch>, r: seq<Batch>) {
    && Ordered(r)
    && |r| == |s| + 1
    && multiset(r) == multiset(s) + multiset{x}
    && QtySum(r) == QtySum(s) + x.quantity
    && (UniqueBatchIds(s) && IdFree(s, x.id) ==> UniqueBatchIds(r))
  }

  lemma InsertAtFront(x: Batch, s: seq<Batch>)
    requires Ordered(s)
    requires |s| == 0 || !Before(s[0], x)
    ensures InsertedInto(x, s, [x] + s)
  {
    assert Ordered([x] + s) by {
      forall y | y in s ensures !Before(y, x) {
        var j :| 0 <= j < |s| && s[j] == y;
        if j > 0 {
          NotBeforeTransitive(y, s[0], x);
        }
      }
      ConsOrdered(x, s);
    }
    ConsSum(x, s);
    if UniqueBatchIds(s) && IdFree(s, x.id) {
      ConsUnique(x, s);
    }
  }

  /** Every element of `rest` is `x` or an element of `t`. */
  lemma FromTailOrX(x: Batch, t: seq<Batch>, rest: seq<Batch>, y: Batch)
    requires multiset(rest) == multiset(t) + multiset{x}
    requires y in rest && y != x
    ensures y in t
  {
    assert y in multiset(rest);
  }

  lemma InsertBehindOrdered(x: Batch, s: seq<Batch>, rest: seq<Batch>)
    requires Ordered(s) && |s| > 0 && Before(s[0], x)
    requires Ordered(rest) && multiset(rest) == multiset(s[1..]) + multiset{x}
    ensures Ordered([s[0]] + rest)
  {
    forall y | y in rest ensures !Before(y, s[0]) {
      if y != x {
        FromTailOrX(x, s[1..], rest, y);
        var j :| 0 <= j < |s[1..]| && s[1..][j] == y;
        assert s[j + 1] == y;
      }
    }
    ConsOrdered(s[0], rest);
  }

  lemma InsertBehindUnique(x: Batch, s: seq<Batch>, rest: seq<Batch>)
    requires |s| > 0 && UniqueBatchIds(s) && IdFree(s, x.id)
    requires multiset(rest) == multiset(s[1..]) + multiset{x}
    requires UniqueBatchIds(s[1..]) && IdFree(s[1..], x.id) ==> UniqueBatchIds(rest)
    ensures UniqueBatchIds([s[0]] + rest)
  {
    var t := s[1..];
    TailUnique(s);
    assert IdFree(t, x.id);
    forall y | y in rest ensures y.id != s[0].id {
      if y != x {
        FromTailOrX(x, t, rest, y);
        var j :| 0 <= j < |t| && t[j] == y;
        assert s[j + 1] == y;
      } else {
        assert s[0] in s;
      }
    }
    ConsUnique(s[0], rest);
  }

  lemma InsertBehind(x: Batch, s: seq<Batch>, rest: seq<Batch>)
    requires Ordered(s) && |s| > 0 && Before(s[0], x)
    requires InsertedInto(x, s[1..], rest)
    ensures InsertedInto(x, s, [s[0]] + rest)
  {
    var t := s[1..];
    assert s == [s[0]] + t;
    InsertBehindOrdered(x, s, rest);
    ConsSum(s[0], t);
    ConsSum(s[0], rest);
    assert multiset([s[0]] + rest) == multiset(s) + multiset{x};
    if UniqueBatchIds(s) && IdFree(s, x.id) {
      InsertBehindUnique(x, s, rest);
    }
  }

  function Insert(x: Batch, s: seq<Batch>): (r: seq<Batch>)
    requires Ordered(s)
    ensures InsertedInto(x, s, r)
  {
    if |s| == 0 || !Before(s[0], x) then
      InsertAtFront(x, s);
      [x] + s
    else
      var rest := Insert(x, s[1..]);
      InsertBehind(x, s, rest);
      [s[0]] + rest
  }

  /** Insertion sort into FEFO order: an ordered permutation with the same total. */
  function SortFefo(s: seq<Batch>): (r: seq<Batch>)
    ensures Ordered(r)
    ensures |r| == |s|
    ensures multiset(r) == multiset(s)
    ensures QtySum(r) == QtySum(s)
    ensures UniqueBatchIds(s) ==> UniqueBatchIds(r)
  {
    if |s| == 0 then []
    else
      var rest := SortFefo(s[1..]);
      SortStep(s, rest);
      Insert(s[0], rest)
  }

  /** What inserting the head into the sorted tail needs to know. */
  lemma SortStep(s: seq<Batch>, rest: seq<Batch>)
    requires |s| > 0
    requires multiset(rest) == multiset(s[1..]) && QtySum(rest) == QtySum(s[1..])
    requires UniqueBatchIds(s[1..]) ==> UniqueBatchIds(rest)
    ensures multiset(s) == multiset(rest) + multiset{s[0]}
    ensures QtySum(s) == QtySum(rest) + s[0].quantity
    ensures UniqueBatchIds(s) ==> UniqueBatchIds(rest) && IdFree(rest, s[0].id)
  {
    var t := s[1..];
    assert s == [s[0]] + t;
    ConsSum(s[0], t);
    if UniqueBatchIds(s) {
      TailUnique(s);
      forall y | y in rest ensures y.id != s[0].id {
        assert y in multiset(t);
        var j :| 0 <= j < |t| && t[j] == y;
        assert s[j + 1] == y;
      }
    }
  }

  lemma TailUnique(s: seq<Batch>)
    requires |s| > 0 && UniqueBatchIds(s)
    ensures UniqueBatchIds(s[1..])
  {
    forall i, j | 0 <= i < j < |s[1..]| ensures s[1..][i].id != s[1..][j].id {
      assert s[1..][i] == s[i + 1] && s[1..][j] == s[j + 1];
    }
  }

  /** The saleable batches of one product, in table order. */
  function SaleableOf(bs: seq<Batch>, pharmacy: nat, product: nat, today: int): (r: seq<Batch>)
    ensures forall b :: b in r <==> b in bs && SaleableIn(b, pharmacy, product, today)
    ensures QtySum(r) == SaleableTotal(bs, pharmacy, product, today)
    ensures UniqueBatchIds(bs) ==> UniqueBatchIds(r)
  {
    if |bs| == 0 then []
    else
      assert bs == [bs[0]] + bs[1..];
      var rest := SaleableOf(bs[1..], pharmacy, product, today);
      if SaleableIn(bs[0], pharmacy, product, today) then
        ConsSum(bs[0], rest);
        assert UniqueBatchIds(bs) ==> UniqueBatchIds([bs[0]] + rest) by {
          if UniqueBatchIds(bs) {
            TailUnique(bs);
            forall y | y in rest ensures y.id != bs[0].id {
              var j :| 0 <= j < |bs[1..]| && bs[1..][j] == y;
              assert bs[j + 1] == y;
            }
            ConsUnique(bs[0], rest);
          }
        }
        [bs[0]] + rest
      else
        assert UniqueBatchIds(bs) ==> UniqueBatchIds(rest) by {
          if UniqueBatchIds(bs) {
            TailUnique(bs);
          }
        }
        rest
  }

  /** The batches consumption walks, in the order it walks them. */
  function FefoOrder(bs: seq<Batch>, pharmacy: nat, product: nat, today: int): (r: seq<Batch>)
    ensures Ordered(r)
    ensures forall b :: b in r <==> b in bs && SaleableIn(b, pharmacy, product, today)
    ensures QtySum(r) == SaleableTotal(bs, pharmacy, product, today)
    ensures UniqueBatchIds(bs) ==> UniqueBatchIds(r)
  {
    var u := SaleableOf(bs, pharmacy, product, today);
    var r := SortFefo(u);
    assert forall b :: b in r <==> b in u by {
      forall b ensures b in r <==> b in u {
        assert b in r <==> b in multiset(r);
        assert b in u <==> b in multiset(u);
      }
    }
    r
  }
}
