/**
 * The batch handlers of the batch controller: `updateBatch` (quantity by
 * delta or absolute value, expiry, status) and `deleteBatch` (hard or soft),
 * each followed by `recalcProductQuantity`, which sums every active batch of
 * the product (unlike the snapshot recalculator, it keeps empty and expired
 * active batches in the sum and leaves the product's expiry alone).
 */
module BatchEdit {
  import opened Base
  import opened Records
  import opened Text
  import opened Snapshot

  /** The summed quantity of the active batches of one pharmacy product (`COALESCE(SUM(quantity), 0)`). */
  function ActiveSum(bs: seq<Batch>, pharmacy: nat, product: nat): int {
    if |bs| == 0 then 0
    else (if InScope(bs[0], pharmacy, product) && bs[0].status == Active then bs[0].quantity else 0)
         + ActiveSum(bs[1..], pharmacy, product)
  }

  /**
   * With non-negative quantities the active sum is never below the saleable
   * total, and the two recalculations agree when no active batch of the
   * product has expired (empty batches add nothing to either).
   */
  lemma {:induction false} ActiveSumCoversSaleable(bs: seq<Batch>, pharmacy: nat, product: nat, today: int)
    requires forall i :: 0 <= i < |bs| ==> bs[i].quantity >= 0
    ensures ActiveSum(bs, pharmacy, product) >= SaleableTotal(bs, pharmacy, product, today)
    ensures (forall i :: 0 <= i < |bs| && InScope(bs[i], pharmacy, product) && bs[i].status == Active
               ==> bs[i].expiry.None? || bs[i].expiry.value >= today)
            ==> ActiveSum(bs, pharmacy, product) == SaleableTotal(bs, pharmacy, product, today)
    decreases |bs|
  {
    if |bs| > 0 {
      assert forall i :: 1 <= i < |bs| ==> bs[i] == bs[1..][i - 1];
      ActiveSumCoversSaleable(bs[1..], pharmacy, product, today);
    }
  }

  /** Writes a quantity onto the product row(s) with this id and pharmacy. */
  function SetQuantity(ps: seq<Product>, pharmacy: nat, product: nat, q: int): (r: seq<Product>)
    ensures |r| == |ps|
    ensures forall i :: 0 <= i < |ps| ==>
      r[i] == if ps[i].id == product && ps[i].pharmacy == pharmacy then ps[i].(quantity := q) else ps[i]
  {
    seq(|ps|, i requires 0 <= i < |ps| =>
      if ps[i].id == product && ps[i].pharmacy == pharmacy then ps[i].(quantity := q) else ps[i])
  }

  /** `recalcProductQuantity`: the product's quantity becomes the active sum of its batches. */
  function RecalcQuantity(db: Db, pharmacy: nat, product: nat): (r: Db)
    ensures r == db.(products := r.products)
    ensures |r.products| == |db.products|
    ensures forall i :: 0 <= i < |db.products| ==>
      if db.products[i].id == product && db.products[i].pharmacy == pharmacy
      then r.products[i] == db.products[i].(quantity := ActiveSum(db.batches, pharmacy, product))
      else r.products[i] == db.products[i]
  {
    db.(products := SetQuantity(db.products, pharmacy, product, ActiveSum(db.batches, pharmacy, product)))
  }

  /** The first batch with this id in this pharmacy (`WHERE id = ? AND pharmacy_id = ?`). */
  function FindBatch(bs: seq<Batch>, id: nat, pharmacy: nat): (r: Option<Batch>)
    ensures r.None? <==> forall i :: 0 <= i < |bs| ==> !(bs[i].id == id && bs[i].pharmacy == pharmacy)
    ensures r.Some? ==> r.value in bs && r.value.id == id && r.value.pharmacy == pharmacy
  {
    if |bs| == 0 then None
    else if bs[0].id == id && bs[0].pharmacy == pharmacy then Some(bs[0])
    else
      assert forall i :: 1 <= i < |bs| ==> bs[i] == bs[1..][i - 1];
      FindBatch(bs[1..], id, pharmacy)
  }

  predicate HasProduct(ps: seq<Product>, id: nat, pharmacy: nat) {
    exists i :: 0 <= i < |ps| && ps[i].id == id && ps[i].pharmacy == pharmacy
  }

  /** The quantity field of the body: absent (or null), a number, or something `Number` cannot read. */
  datatype QtyInput = NoQty | Num(q: int) | NotANumber

  /** The expiry field: absent, null or '' (clear it), or a string that parsed to a day or failed to. */
  datatype ExpiryInput = KeepExpiry | ClearExpiry | Date(day: Option<int>)

  /**
   * An edit request; a missing `mode` means 'delta', an absent or empty
   * `status` means no status change. Only an undefined `mode` takes the
   * default: a JSON null is written `Some` of a text other than "delta" and
   * "set", which the handler rejects as an invalid mode.
   */
  datatype BatchEditRequest = BatchEditRequest(mode: Option<string>, quantity: QtyInput, expiry: ExpiryInput, status: Option<string>)

  /** The column assignments an edit makes, each optional. */
  datatype Patch = Patch(quantity: Option<int>, expiry: Option<Option<int>>, status: Option<BatchStatus>)

  function ModeOf(req: BatchEditRequest): string {
    req.mode.GetOr("delta")
  }

  /** The status the request names, when it names one (`if (status)` skips undefined, null and ''). */
  predicate StatusGiven(req: BatchEditRequest) {
    req.status.Some? && req.status.value != ""
  }

  /** The quantity assignment: delta mode adds to the batch, set mode replaces; neither may end negative. */
  function QuantityPart(b: Batch, req: BatchEditRequest): (r: Result<Option<int>, Rejection>)
    ensures req.quantity.NoQty? ==> r == Ok(None)
    ensures req.quantity.NotANumber? ==> r == Err(Rejection(400, InvalidQuantity))
    ensures req.quantity.Num? && ModeOf(req) == "delta" ==>
      r == if b.quantity + req.quantity.q < 0 then Err(Rejection(400, NegativeQuantity)) else Ok(Some(b.quantity + req.quantity.q))
    ensures req.quantity.Num? && ModeOf(req) == "set" ==>
      r == if req.quantity.q < 0 then Err(Rejection(400, NegativeQuantity)) else Ok(Some(req.quantity.q))
    ensures req.quantity.Num? && ModeOf(req) != "delta" && ModeOf(req) != "set" ==> r == Err(Rejection(400, InvalidMode))
    ensures r.Ok? && r.value.Some? ==> r.value.value >= 0
  {
    match req.quantity
    case NoQty => Ok(None)
    case NotANumber => Err(Rejection(400, InvalidQuantity))
    case Num(q) =>
      if ModeOf(req) == "delta" then
        if b.quantity + q < 0 then Err(Rejection(400, NegativeQuantity)) else Ok(Some(b.quantity + q))
      else if ModeOf(req) == "set" then
        if q < 0 then Err(Rejection(400, NegativeQuantity)) else Ok(Some(q))
      else Err(Rejection(400, InvalidMode))
  }

  function ExpiryPart(req: BatchEditRequest): (r: Result<Option<Option<int>>, Rejection>)
    ensures r.Err? <==> req.expiry == Date(None)
    ensures r.Err? ==> r.error == Rejection(400, InvalidExpiry)
    ensures r.Ok? ==> (r.value.None? <==> req.expiry.KeepExpiry?)
    ensures req.expiry.ClearExpiry? ==> r == Ok(Some(None))
    ensures req.expiry.Date? && req.expiry.day.Some? ==> r == Ok(Some(req.expiry.day))
  {
    match req.expiry
    case KeepExpiry => Ok(None)
    case ClearExpiry => Ok(Some(None))
    case Date(d) => if d.None? then Err(Rejection(400, InvalidExpiry)) else Ok(Some(d))
  }

  /** The status whitelist: void and archived also zero the quantity; active and expired set only the status. */
  function StatusPart(req: BatchEditRequest): (r: Result<Option<BatchStatus>, Rejection>)
    ensures !StatusGiven(req) ==> r == Ok(None)
    ensures StatusGiven(req) ==> (r.Ok? <==> req.status.value in {"void", "archived", "active", "expired"})
    ensures r.Err? ==> r.error == Rejection(400, InvalidStatus)
    ensures r.Ok? && r.value.Some? ==> StatusGiven(req)
  {
    if !StatusGiven(req) then Ok(None)
    else
      match req.status.value
      case "void" => Ok(Some(Void))
      case "archived" => Ok(Some(Archived))
      case "active" => Ok(Some(Active))
      case "expired" => Ok(Some(Expired))
      case _ => Err(Rejection(400, InvalidStatus))
  }

  predicate Forces(s: Option<BatchStatus>) {
    s == Some(Void) || s == Some(Archived)
  }

  /**
   * The edit plan, validated in the handler's order: quantity, expiry,
   * status, then "nothing to change". A void or archived status sets the
   * quantity to 0, overriding a quantity in the same request.
   */
  function PlanEdit(b: Batch, req: BatchEditRequest): (r: Result<Patch, Rejection>)
    ensures QuantityPart(b, req).Err? ==> r == Err(QuantityPart(b, req).error)
    ensures QuantityPart(b, req).Ok? && ExpiryPart(req).Err? ==> r == Err(ExpiryPart(req).error)
    ensures QuantityPart(b, req).Ok? && ExpiryPart(req).Ok? && StatusPart(req).Err? ==> r == Err(StatusPart(req).error)
    ensures (&& QuantityPart(b, req).Ok? && ExpiryPart(req).Ok? && StatusPart(req).Ok?
             && !(req.quantity.NoQty? && req.expiry.KeepExpiry? && !StatusGiven(req))) ==> r.Ok?
    ensures r.Err? ==> r.error.status == 400
    ensures r.Err? && r.error.reason == NothingToUpdate <==>
      req.quantity.NoQty? && req.expiry.KeepExpiry? && !StatusGiven(req)
    ensures r.Ok? ==> && QuantityPart(b, req).Ok? && ExpiryPart(req).Ok? && StatusPart(req).Ok?
                      && r.value.expiry == ExpiryPart(req).value && r.value.status == StatusPart(req).value
    ensures r.Ok? ==> r.value.quantity == if Forces(r.value.status) then Some(0) else QuantityPart(b, req).value
    ensures r.Ok? ==> r.value != Patch(None, None, None)
  {
    var q := QuantityPart(b, req);
    if q.Err? then Err(q.error)
    else
      var e := ExpiryPart(req);
      if e.Err? then Err(e.error)
      else
        var s := StatusPart(req);
        if s.Err? then Err(s.error)
        else if q.value.None? && e.value.None? && s.value.None? then Err(Rejection(400, NothingToUpdate))
        else Ok(Patch(if Forces(s.value) then Some(0) else q.value, e.value, s.value))
  }

  function PatchBatch(b: Batch, p: Patch): Batch {
    b.(quantity := p.quantity.GetOr(b.quantity), expiry := p.expiry.GetOr(b.expiry), status := p.status.GetOr(b.status))
  }

  /** The patch applied to the row(s) with this id and pharmacy. */
  function Patched(bs: seq<Batch>, id: nat, pharmacy: nat, p: Patch): (r: seq<Batch>)
    ensures |r| == |bs|
    ensures forall i :: 0 <= i < |bs| ==>
      r[i] == if bs[i].id == id && bs[i].pharmacy == pharmacy then PatchBatch(bs[i], p) else bs[i]
  {
    seq(|bs|, i requires 0 <= i < |bs| => if bs[i].id == id && bs[i].pharmacy == pharmacy then PatchBatch(bs[i], p) else bs[i])
  }

  /**
   * `updateBatch`: a missing batch or product row is a 404, a rejected plan a
   * 400 with nothing changed; otherwise the batch is patched and the product
   * quantity is recomputed from all its active batches, and that quantity is
   * the answer.
   */
  function UpdateBatch(db: Db, pharmacy: nat, id: nat, req: BatchEditRequest): (r: Result<(Db, int), Rejection>)
    ensures FindBatch(db.batches, id, pharmacy).None? ==> r == Err(Rejection(404, BatchNotFound))
    ensures FindBatch(db.batches, id, pharmacy).Some? && !HasProduct(db.products, FindBatch(db.batches, id, pharmacy).value.product, pharmacy)
      ==> r == Err(Rejection(404, ProductMissing))
    ensures FindBatch(db.batches, id, pharmacy).Some? && HasProduct(db.products, FindBatch(db.batches, id, pharmacy).value.product, pharmacy)
      ==> var plan := PlanEdit(FindBatch(db.batches, id, pharmacy).value, req);
          && (r.Ok? <==> plan.Ok?)
          && (plan.Err? ==> r == Err(plan.error))
    ensures r.Err? ==> r.error.status == 400 || r.error.status == 404
    ensures r.Ok? ==>
      var b := FindBatch(db.batches, id, pharmacy).value;
      && HasProduct(db.products, b.product, pharmacy)
      && PlanEdit(b, req).Ok?
      && r.value.0.batches == Patched(db.batches, id, pharmacy, PlanEdit(b, req).value)
      && r.value.1 == ActiveSum(r.value.0.batches, pharmacy, b.product)
      && r.value.0 == RecalcQuantity(db.(batches := r.value.0.batches), pharmacy, b.product)
  {
    var found := FindBatch(db.batches, id, pharmacy);
    if found.None? then Err(Rejection(404, BatchNotFound))
    else
      var b := found.value;
      if !HasProduct(db.products, b.product, pharmacy) then Err(Rejection(404, ProductMissing))
      else
        var plan := PlanEdit(b, req);
        if plan.Err? then Err(plan.error)
        else
          var bs := Patched(db.batches, id, pharmacy, plan.value);
          var r := RecalcQuantity(db.(batches := bs), pharmacy, b.product);
          Ok((r, ActiveSum(bs, pharmacy, b.product)))
  }

  /**
   * A successful edit leaves the edited batch non-negative whenever the
   * request carried a quantity, at 0 when the status became void or archived,
   * at its old quantity when neither happened, and every other batch row is
   * untouched.
   */
  lemma UpdateBatchEffect(db: Db, pharmacy: nat, id: nat, req: BatchEditRequest, r: Db, q: int, i: nat)
    requires UpdateBatch(db, pharmacy, id, req) == Ok((r, q)) && i < |db.batches|
    ensures !(db.batches[i].id == id && db.batches[i].pharmacy == pharmacy) ==> r.batches[i] == db.batches[i]
    ensures db.batches[i].id == id && db.batches[i].pharmacy == pharmacy ==>
      && (req.quantity.Num? ==> r.batches[i].quantity >= 0)
      && (StatusGiven(req) && req.status.value in {"void", "archived"} ==> r.batches[i].quantity == 0)
      && (req.quantity.NoQty? && !(StatusGiven(req) && req.status.value in {"void", "archived"})
          ==> r.batches[i].quantity == db.batches[i].quantity)
  {
  }

  /** `String(hard || 'false').toLowerCase() === 'true'`. */
  function HardFlag(q: Option<string>): bool {
    var s := if q.None? || q.value == "" then "false" else q.value;
    ToLowerAscii(s) == "true"
  }

  /** The batch rows without the row(s) with this id and pharmacy. */
  function Without(bs: seq<Batch>, id: nat, pharmacy: nat): (r: seq<Batch>)
    ensures forall b :: b in r <==> b in bs && !(b.id == id && b.pharmacy == pharmacy)
  {
    if |bs| == 0 then []
    else
      var rest := Without(bs[1..], id, pharmacy);
      assert forall b :: b in bs <==> b == bs[0] || b in bs[1..];
      if bs[0].id == id && bs[0].pharmacy == pharmacy then rest else [bs[0]] + rest
  }

  /** The product of the first batch row with this id in any pharmacy (`SELECT ... WHERE id = ?`). */
  function ProductOfBatch(bs: seq<Batch>, id: nat): Option<nat> {
    if |bs| == 0 then None else if bs[0].id == id then Some(bs[0].product) else ProductOfBatch(bs[1..], id)
  }

  /**
   * `deleteBatch`: a missing batch is a 404. A hard delete of a batch holding
   * anything is a 400; otherwise the row goes. A soft delete voids the batch
   * and zeroes it. Either way the product's quantity is recomputed from its
   * active batches (the product is re-read by batch id, falling back to the
   * deleted batch's product).
   */
  function DeleteBatch(db: Db, pharmacy: nat, id: nat, hard: Option<string>): (r: Result<Db, Rejection>)
    ensures FindBatch(db.batches, id, pharmacy).None? ==> r == Err(Rejection(404, BatchNotFound))
    ensures r.Err? ==> r.error == Rejection(404, BatchNotFound) || r.error == Rejection(400, NonEmptyBatch)
    ensures r.Err? && r.error.reason == NonEmptyBatch <==>
      HardFlag(hard) && FindBatch(db.batches, id, pharmacy).Some? && FindBatch(db.batches, id, pharmacy).value.quantity != 0
    ensures r.Ok? && HardFlag(hard) ==> r.value.batches == Without(db.batches, id, pharmacy)
    ensures r.Ok? && !HardFlag(hard) ==> r.value.batches == Patched(db.batches, id, pharmacy, Patch(Some(0), None, Some(Void)))
    ensures r.Ok? ==>
      var p := ProductOfBatch(r.value.batches, id).GetOr(FindBatch(db.batches, id, pharmacy).value.product);
      r.value == RecalcQuantity(db.(batches := r.value.batches), pharmacy, p)
  {
    var found := FindBatch(db.batches, id, pharmacy);
    if found.None? then Err(Rejection(404, BatchNotFound))
    else if HardFlag(hard) && found.value.quantity != 0 then Err(Rejection(400, NonEmptyBatch))
    else
      var bs := if HardFlag(hard) then Without(db.batches, id, pharmacy)
                else Patched(db.batches, id, pharmacy, Patch(Some(0), None, Some(Void)));
      var p := ProductOfBatch(bs, id).GetOr(found.value.product);
      Ok(RecalcQuantity(db.(batches := bs), pharmacy, p))
  }

  /**
   * A hard delete only ever removes empty rows, so the active sum of every
   * product is what it was.
   */
  lemma {:induction false} WithoutEmptyKeepsSum(bs: seq<Batch>, id: nat, pharmacy: nat, p: nat, x: nat)
    requires forall i :: 0 <= i < |bs| && bs[i].id == id && bs[i].pharmacy == pharmacy ==> bs[i].quantity == 0
    ensures ActiveSum(Without(bs, id, pharmacy), p, x) == ActiveSum(bs, p, x)
    decreases |bs|
  {
    if |bs| > 0 {
      assert forall i :: 1 <= i < |bs| ==> bs[i] == bs[1..][i - 1];
      WithoutEmptyKeepsSum(bs[1..], id, pharmacy, p, x);
      if !(bs[0].id == id && bs[0].pharmacy == pharmacy) {
        assert Without(bs, id, pharmacy) == [bs[0]] + Without(bs[1..], id, pharmacy);
        assert ([bs[0]] + Without(bs[1..], id, pharmacy))[1..] == Without(bs[1..], id, pharmacy);
      }
    }
  }
}
