/**
 * `computeItemDeltas` of the sale controller: per barcode, the quantity the
 * new lines hold minus the quantity the old lines held.
 */
module Deltas {

  /** A sale line as the delta computation sees it. */
  datatype Qty = Qty(barcode: string, quantity: int)

  datatype Delta = Delta(barcode: string, delta: int)

  /** The summed quantity of the lines with this barcode (`map.get(k) || 0`). */
  function SumFor(ls: seq<Qty>, k: string): int {
    if |ls| == 0 then 0
    else SumFor(ls[..|ls| - 1], k) + (if ls[|ls| - 1].barcode == k then ls[|ls| - 1].quantity else 0)
  }

  predicate Mentions(ls: seq<Qty>, k: string) {
    exists i :: 0 <= i < |ls| && ls[i].barcode == k
  }

  lemma {:induction false} SumForAbsent(ls: seq<Qty>, k: string)
    requires !Mentions(ls, k)
    ensures SumFor(ls, k) == 0
    decreases |ls|
  {
    if |ls| > 0 {
      assert !Mentions(ls[..|ls| - 1], k) by {
        assert forall i :: 0 <= i < |ls| - 1 ==> ls[..|ls| - 1][i] == ls[i];
      }
      SumForAbsent(ls[..|ls| - 1], k);
    }
  }

  /** The sum read from the front: the first line's share plus the rest's. */
  lemma {:induction false} SumForCons(ls: seq<Qty>, k: string)
    requires |ls| > 0
    ensures SumFor(ls, k) == (if ls[0].barcode == k then ls[0].quantity else 0) + SumFor(ls[1..], k)
    decreases |ls|
  {
    if |ls| > 1 {
      var init := ls[..|ls| - 1];
      SumForCons(init, k);
      assert init[1..] == ls[1..][..|ls[1..]| - 1];
    }
  }

  predicate Distinct(ks: seq<string>) {
    forall i, j :: 0 <= i < j < |ks| ==> ks[i] != ks[j]
  }

  /**
   * The barcodes of `ls` once each, in order of first appearance: the
   * iteration order of a JavaScript `Set` built from them.
   */
  function Keys(ls: seq<Qty>): (ks: seq<string>)
    ensures Distinct(ks)
    ensures forall k :: k in ks <==> Mentions(ls, k)
  {
    if |ls| == 0 then []
    else
      var init := ls[..|ls| - 1];
      var ks := Keys(init);
      var k := ls[|ls| - 1].barcode;
      assert forall i :: 0 <= i < |init| ==> init[i] == ls[i];
      assert forall x :: Mentions(ls, x) <==> Mentions(init, x) || x == k;
      if k in ks then ks else ks + [k]
  }

  lemma DistinctTail(ks: seq<string>)
    requires |ks| > 0
    ensures Distinct(ks) ==> Distinct(ks[1..]) && ks[0] !in ks[1..]
  {
    assert forall i :: 0 <= i < |ks[1..]| ==> ks[1..][i] == ks[i + 1];
  }

  /** The non-zero deltas for the keys in order. */
  function DeltasFor(ks: seq<string>, before: seq<Qty>, after: seq<Qty>): (r: seq<Delta>)
    ensures forall i :: 0 <= i < |r| ==> r[i].barcode in ks && r[i].delta != 0
    ensures forall i :: 0 <= i < |r| ==> r[i].delta == SumFor(after, r[i].barcode) - SumFor(before, r[i].barcode)
    ensures forall k :: k in ks && SumFor(after, k) != SumFor(before, k) ==> exists i :: 0 <= i < |r| && r[i].barcode == k
    ensures Distinct(ks) ==> forall i, j :: 0 <= i < j < |r| ==> r[i].barcode != r[j].barcode
  {
    if |ks| == 0 then []
    else
      var rest := DeltasFor(ks[1..], before, after);
      var d := SumFor(after, ks[0]) - SumFor(before, ks[0]);
      DistinctTail(ks);
      if d != 0 then
        var r := [Delta(ks[0], d)] + rest;
        ConsDeltaSound(ks, before, after, rest, r);
        ConsDeltaComplete(ks, before, after, rest, r);
        assert Distinct(ks) ==> forall i, j :: 0 <= i < j < |r| ==> r[i].barcode != r[j].barcode by {
          if Distinct(ks) {
            ConsDeltaDistinct(ks, before, after, rest, r);
          }
        }
        r
      else
        assert forall k :: k in ks ==> k == ks[0] || k in ks[1..];
        rest
  }

  /** Prepending the first key's delta keeps every entry a changed key of `ks` with its true delta. */
  lemma ConsDeltaSound(ks: seq<string>, before: seq<Qty>, after: seq<Qty>, rest: seq<Delta>, r: seq<Delta>)
    requires |ks| > 0
    requires r == [Delta(ks[0], SumFor(after, ks[0]) - SumFor(before, ks[0]))] + rest
    requires forall i :: 0 <= i < |rest| ==> rest[i].barcode in ks[1..] && rest[i].delta != 0
    requires forall i :: 0 <= i < |rest| ==> rest[i].delta == SumFor(after, rest[i].barcode) - SumFor(before, rest[i].barcode)
    requires SumFor(after, ks[0]) != SumFor(before, ks[0])
    ensures forall i :: 0 <= i < |r| ==> r[i].barcode in ks && r[i].delta != 0
    ensures forall i :: 0 <= i < |r| ==> r[i].delta == SumFor(after, r[i].barcode) - SumFor(before, r[i].barcode)
  {
    forall i | 0 <= i < |r|
      ensures r[i].barcode in ks && r[i].delta != 0
      ensures r[i].delta == SumFor(after, r[i].barcode) - SumFor(before, r[i].barcode)
    {
      if i > 0 {
        assert r[i] == rest[i - 1];
        assert rest[i - 1].barcode in ks[1..];
      }
    }
  }

  /** Prepending the first key's delta keeps every changed key of `ks` present. */
  lemma ConsDeltaComplete(ks: seq<string>, before: seq<Qty>, after: seq<Qty>, rest: seq<Delta>, r: seq<Delta>)
    requires |ks| > 0
    requires r == [Delta(ks[0], SumFor(after, ks[0]) - SumFor(before, ks[0]))] + rest
    requires forall k :: k in ks[1..] && SumFor(after, k) != SumFor(before, k) ==> exists i :: 0 <= i < |rest| && rest[i].barcode == k
    ensures forall k :: k in ks && SumFor(after, k) != SumFor(before, k) ==> exists i :: 0 <= i < |r| && r[i].barcode == k
  {
    forall k | k in ks && SumFor(after, k) != SumFor(before, k)
      ensures exists i :: 0 <= i < |r| && r[i].barcode == k
    {
      if k != ks[0] {
        assert k in ks[1..] by {
          var j :| 0 <= j < |ks| && ks[j] == k;
          assert ks[1..][j - 1] == k;
        }
        var i :| 0 <= i < |rest| && rest[i].barcode == k;
        assert r[i + 1] == rest[i];
      } else {
        assert r[0].barcode == k;
      }
    }
  }

  /** Prepending a key absent from the rest keeps the barcodes distinct. */
  lemma ConsDeltaDistinct(ks: seq<string>, before: seq<Qty>, after: seq<Qty>, rest: seq<Delta>, r: seq<Delta>)
    requires |ks| > 0
    requires r == [Delta(ks[0], SumFor(after, ks[0]) - SumFor(before, ks[0]))] + rest
    requires forall i :: 0 <= i < |rest| ==> rest[i].barcode in ks[1..]
    requires ks[0] !in ks[1..]
    requires forall i, j :: 0 <= i < j < |rest| ==> rest[i].barcode != rest[j].barcode
    ensures forall i, j :: 0 <= i < j < |r| ==> r[i].barcode != r[j].barcode
  {
    forall i, j | 0 <= i < j < |r| ensures r[i].barcode != r[j].barcode {
      assert r[j] == rest[j - 1];
      if i > 0 {
        assert r[i] == rest[i - 1];
      }
    }
  }

  /**
   * `computeItemDeltas`: one entry per barcode of the old or new lines whose
   * summed quantity changed, carrying new minus old; no barcode twice.
   */
  function ItemDeltas(before: seq<Qty>, after: seq<Qty>): (r: seq<Delta>)
    ensures forall i :: 0 <= i < |r| ==> r[i].delta != 0 && (Mentions(before, r[i].barcode) || Mentions(after, r[i].barcode))
    ensures forall i :: 0 <= i < |r| ==> r[i].delta == SumFor(after, r[i].barcode) - SumFor(before, r[i].barcode)
    ensures forall k :: SumFor(after, k) != SumFor(before, k) ==> exists i :: 0 <= i < |r| && r[i].barcode == k
    ensures forall i, j :: 0 <= i < j < |r| ==> r[i].barcode != r[j].barcode
  {
    var ks := Keys(before + after);
    assert forall k :: Mentions(before + after, k) <==> Mentions(before, k) || Mentions(after, k) by {
      forall k ensures Mentions(before + after, k) <==> Mentions(before, k) || Mentions(after, k) {
        if Mentions(after, k) {
          var i :| 0 <= i < |after| && after[i].barcode == k;
          assert (before + after)[|before| + i] == after[i];
        }
        if Mentions(before, k) {
          var i :| 0 <= i < |before| && before[i].barcode == k;
          assert (before + after)[i] == before[i];
        }
        if Mentions(before + after, k) {
          var i :| 0 <= i < |before + after| && (before + after)[i].barcode == k;
          if i >= |before| {
            assert after[i - |before|] == (before + after)[i];
          } else {
            assert before[i] == (before + after)[i];
          }
        }
      }
    }
    forall k | SumFor(after, k) != SumFor(before, k) ensures k in ks {
      if !Mentions(before, k) && !Mentions(after, k) {
        SumForAbsent(before, k);
        SumForAbsent(after, k);
      }
    }
    DeltasFor(ks, before, after)
  }

  /** The delta recorded for a barcode, or 0 when none is. */
  function DeltaOf(ds: seq<Delta>, k: string): int {
    if |ds| == 0 then 0 else if ds[0].barcode == k then ds[0].delta else DeltaOf(ds[1..], k)
  }

  lemma {:induction false} DeltaOfFound(ds: seq<Delta>, i: nat)
    requires i < |ds| && forall a, b :: 0 <= a < b < |ds| ==> ds[a].barcode != ds[b].barcode
    ensures DeltaOf(ds, ds[i].barcode) == ds[i].delta
    decreases i
  {
    if i > 0 {
      assert ds[0].barcode != ds[i].barcode;
      assert ds[1..][i - 1] == ds[i];
      DeltaOfFound(ds[1..], i - 1);
    }
  }

  lemma {:induction false} DeltaOfMissing(ds: seq<Delta>, k: string)
    requires forall i :: 0 <= i < |ds| ==> ds[i].barcode != k
    ensures DeltaOf(ds, k) == 0
    decreases |ds|
  {
    if |ds| > 0 {
      assert forall i :: 0 <= i < |ds[1..]| ==> ds[1..][i] == ds[i + 1];
      DeltaOfMissing(ds[1..], k);
    }
  }

  /**
   * Applying the deltas to the old per-barcode quantities gives the new ones,
   * for every barcode: the update path moves stock by exactly the change.
   */
  lemma DeltasReconcile(before: seq<Qty>, after: seq<Qty>, k: string)
    ensures SumFor(before, k) + DeltaOf(ItemDeltas(before, after), k) == SumFor(after, k)
  {
    var ds := ItemDeltas(before, after);
    if i :| 0 <= i < |ds| && ds[i].barcode == k {
      DeltaOfFound(ds, i);
    } else {
      DeltaOfMissing(ds, k);
    }
  }

  /** An unchanged cart moves no stock. */
  lemma NoChangeNoDeltas(ls: seq<Qty>)
    ensures ItemDeltas(ls, ls) == []
  {
    DeltasForSame(Keys(ls + ls), ls);
  }

  lemma {:induction false} DeltasForSame(ks: seq<string>, ls: seq<Qty>)
    ensures DeltasFor(ks, ls, ls) == []
    decreases |ks|
  {
    if |ks| > 0 {
      DeltasForSame(ks[1..], ls);
    }
  }
}
