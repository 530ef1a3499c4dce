/**
 * The low-stock notifier of the inventory helper (`checkLowStockAndNotify`):
 * no hysteresis, and a product at quantity 0 gets a `low_stock` row too.
 */
module StockAlert {
  import opened Base
  import opened Records
  import opened Notes

  /** The threshold used when the pharmacy has no settings row or a NULL threshold. */
  const DefaultThreshold: int := 10

  /** Row `i` is the pharmacy's first settings row. */
  predicate FirstOf(ss: seq<Settings>, pharmacy: nat, i: int) {
    0 <= i < |ss| && ss[i].pharmacy == pharmacy && forall j :: 0 <= j < i ==> ss[j].pharmacy != pharmacy
  }

  /** The first settings row of the pharmacy (`settingsRows[0]`). */
  function SettingsOf(ss: seq<Settings>, pharmacy: nat): Option<Settings> {
    if |ss| == 0 then None
    else if ss[0].pharmacy == pharmacy then Some(ss[0])
    else SettingsOf(ss[1..], pharmacy)
  }

  /** `SettingsOf` finds nothing exactly when the pharmacy has no row, and otherwise its first row. */
  lemma {:induction false} SettingsOfFirst(ss: seq<Settings>, pharmacy: nat)
    ensures SettingsOf(ss, pharmacy).None? <==> forall i :: 0 <= i < |ss| ==> ss[i].pharmacy != pharmacy
    ensures SettingsOf(ss, pharmacy).Some? ==> exists i :: FirstOf(ss, pharmacy, i) && ss[i] == SettingsOf(ss, pharmacy).value
    decreases |ss|
  {
    if |ss| > 0 && ss[0].pharmacy != pharmacy {
      SettingsOfFirst(ss[1..], pharmacy);
      assert forall i :: 1 <= i < |ss| ==> ss[i] == ss[1..][i - 1];
      var r := SettingsOf(ss, pharmacy);
      if r.Some? {
        var k :| FirstOf(ss[1..], pharmacy, k) && ss[1..][k] == r.value;
        assert FirstOf(ss, pharmacy, k + 1) by {
          forall j | 0 <= j < k + 1 ensures ss[j].pharmacy != pharmacy {
            if j > 0 {
              assert ss[j] == ss[1..][j - 1];
            }
          }
        }
      }
    }
  }

  /** The first product row with this id (`WHERE id = ?`, no pharmacy filter). */
  function ProductById(ps: seq<Product>, id: nat): Option<Product> {
    if |ps| == 0 then None
    else if ps[0].id == id then Some(ps[0])
    else ProductById(ps[1..], id)
  }

  lemma {:induction false} ProductByIdFound(ps: seq<Product>, id: nat)
    ensures ProductById(ps, id).None? <==> forall i :: 0 <= i < |ps| ==> ps[i].id != id
    ensures ProductById(ps, id).Some? ==> ProductById(ps, id).value in ps && ProductById(ps, id).value.id == id
    decreases |ps|
  {
    if |ps| > 0 && ps[0].id != id {
      ProductByIdFound(ps[1..], id);
      assert forall i :: 1 <= i < |ps| ==> ps[i] == ps[1..][i - 1];
    }
  }

  /** `SettingsOf` returns the pharmacy's first row. */
  lemma {:induction false} SettingsOfIsFirst(ss: seq<Settings>, pharmacy: nat, i: nat)
    requires FirstOf(ss, pharmacy, i)
    ensures SettingsOf(ss, pharmacy) == Some(ss[i])
    decreases i
  {
    if i > 0 {
      assert FirstOf(ss[1..], pharmacy, i - 1) by {
        forall j | 0 <= j < i - 1 ensures ss[1..][j].pharmacy != pharmacy {
          assert ss[1..][j] == ss[j + 1];
        }
      }
      SettingsOfIsFirst(ss[1..], pharmacy, i - 1);
    }
  }

  /**
   * `low_stock_threshold ?? 10` of the pharmacy's first settings row: the
   * default without a row, that row's threshold when it has one, and the
   * default when it is NULL.
   */
  function HelperThreshold(ss: seq<Settings>, pharmacy: nat): (t: int)
    ensures (forall i :: 0 <= i < |ss| ==> ss[i].pharmacy != pharmacy) ==> t == DefaultThreshold
    ensures forall i :: FirstOf(ss, pharmacy, i) ==>
      t == if ss[i].lowStockThreshold.Some? then ss[i].lowStockThreshold.value else DefaultThreshold
  {
    SettingsOfFirst(ss, pharmacy);
    forall i | FirstOf(ss, pharmacy, i) ensures SettingsOf(ss, pharmacy) == Some(ss[i]) {
      SettingsOfIsFirst(ss, pharmacy, i);
    }
    match SettingsOf(ss, pharmacy)
    case None => DefaultThreshold
    case Some(s) => s.lowStockThreshold.GetOr(DefaultThreshold)
  }

  /** Row `i` is the first product row with this id. */
  predicate FirstWithId(ps: seq<Product>, id: nat, i: int) {
    0 <= i < |ps| && ps[i].id == id && forall j :: 0 <= j < i ==> ps[j].id != id
  }

  /** `ProductById` returns the first row with the id. */
  lemma {:induction false} ProductByIdIsFirst(ps: seq<Product>, id: nat, i: nat)
    requires FirstWithId(ps, id, i)
    ensures ProductById(ps, id) == Some(ps[i])
    decreases i
  {
    if i > 0 {
      assert FirstWithId(ps[1..], id, i - 1) by {
        forall j | 0 <= j < i - 1 ensures ps[1..][j].id != id {
          assert ps[1..][j] == ps[j + 1];
        }
      }
      ProductByIdIsFirst(ps[1..], id, i - 1);
    }
  }

  /** `quantity ?? 0` of the first product row with the id: 0 without a row, else that row's quantity. */
  function HelperQuantity(ps: seq<Product>, product: nat): (q: int)
    ensures (forall i :: 0 <= i < |ps| ==> ps[i].id != product) ==> q == 0
    ensures forall i :: FirstWithId(ps, product, i) ==> q == ps[i].quantity
  {
    ProductByIdFound(ps, product);
    forall i | FirstWithId(ps, product, i) ensures ProductById(ps, product) == Some(ps[i]) {
      ProductByIdIsFirst(ps, product, i);
    }
    match ProductById(ps, product)
    case None => 0
    case Some(p) => p.quantity
  }

  /** The product is at or below the helper's threshold. */
  predicate IsLow(db: Db, pharmacy: nat, product: nat) {
    HelperQuantity(db.products, product) <= HelperThreshold(db.settings, pharmacy)
  }

  /**
   * `checkLowStockAndNotify`: above the threshold nothing happens; otherwise
   * a fresh `low_stock` row (batch 0) is added unless one is already open
   * for the product, on any batch.
   */
  function CheckLowStock(db: Db, pharmacy: nat, product: nat): (r: Db)
    ensures r == db.(notes := r.notes)
    ensures r.notes != db.notes <==> IsLow(db, pharmacy, product) && !HasOpen(db.notes, pharmacy, product, LowStock)
    ensures r.notes != db.notes ==> r.notes == db.notes + [Fresh(pharmacy, product, 0, LowStock)]
    ensures IsLow(db, pharmacy, product) ==> HasOpen(r.notes, pharmacy, product, LowStock)
  {
    if !IsLow(db, pharmacy, product) then db
    else db.(notes := InsertIfNoneOpen(db.notes, pharmacy, product, 0, LowStock))
  }

  /** The check never adds a second open `low_stock` row, nor touches any other key's count. */
  lemma CheckLowStockCounts(db: Db, pharmacy: nat, product: nat, p: nat, x: nat, k: NoteKind)
    ensures var r := CheckLowStock(db, pharmacy, product);
      CountOpen(r.notes, p, x, k) == if (p, x, k) == (pharmacy, product, LowStock) && IsLow(db, pharmacy, product)
                                     then Max(CountOpen(db.notes, p, x, k), 1) else CountOpen(db.notes, p, x, k)
  {
    InsertIfNoneOpenCounts(db.notes, pharmacy, product, 0, LowStock, p, x, k);
  }

  /** Running the check twice adds nothing the first run did not. */
  lemma CheckLowStockIdempotent(db: Db, pharmacy: nat, product: nat)
    ensures CheckLowStock(CheckLowStock(db, pharmacy, product), pharmacy, product) == CheckLowStock(db, pharmacy, product)
  {
  }
}
