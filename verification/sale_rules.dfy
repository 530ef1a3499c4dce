/**
 * Rules the sale handlers share: the optional description, resolving a
 * barcode to the pharmacy's product, finding a sale, and the list pagination.
 */
module SaleRules {
  import opened Base
  import opened Records
  import opened Text

  /** The longest description a sale may carry, in UTF-16 code units (JavaScript's `length`). */
  const MaxDescription: nat := 2000

  /**
   * A description is trimmed; one that trims to nothing is stored as NULL,
   * and one whose trimmed `length` (UTF-16 code units) is over the limit is
   * rejected. A missing (or non-string) description is NULL.
   */
  function CleanDescription(d: Option<string>): (r: Result<Option<string>, Rejection>)
    ensures r.Err? <==> d.Some? && Utf16Length(Trim(d.value)) > MaxDescription
    ensures r.Err? ==> r.error == Rejection(400, DescriptionTooLong)
    ensures r.Ok? && r.value.Some? ==>
      d.Some? && r.value.value == Trim(d.value) && 0 < |r.value.value| && Utf16Length(r.value.value) <= MaxDescription
    ensures r.Ok? ==> (r.value.None? <==> d.None? || AllSpace(d.value))
  {
    match d
    case None => Ok(None)
    case Some(s) =>
      var t := Trim(s);
      TrimEmptyIffAllSpace(s);
      if |t| == 0 then Ok(None)
      else if Utf16Length(t) > MaxDescription then Err(Rejection(400, DescriptionTooLong))
      else Ok(Some(t))
  }

  /**
   * The limit is on code units, not characters: 1001 characters above
   * U+FFFF (emoji, say) are 2002 units and are rejected.
   */
  lemma AstralDescriptionTooLong(s: string)
    requires |s| == 1001 && forall i :: 0 <= i < |s| ==> s[i] as int >= 0x1_0000
    ensures |s| <= MaxDescription
    ensures CleanDescription(Some(s)) == Err(Rejection(400, DescriptionTooLong))
  {
    TrimUnpadded(s);
    Utf16LengthAstral(s);
  }

  /** A stored description is already clean: cleaning it again keeps it. */
  lemma CleanDescriptionIdempotent(d: Option<string>)
    requires CleanDescription(d).Ok?
    ensures CleanDescription(CleanDescription(d).value) == CleanDescription(d)
  {
    if d.Some? && CleanDescription(d).value.Some? {
      TrimIdempotent(d.value);
    }
  }

  predicate Sells(p: Product, pharmacy: nat, barcode: string) {
    p.pharmacy == pharmacy && p.barcode == barcode
  }

  /** Row `i` is the first row of the pharmacy selling this barcode. */
  predicate FirstSeller(ps: seq<Product>, pharmacy: nat, barcode: string, i: int) {
    0 <= i < |ps| && Sells(ps[i], pharmacy, barcode) && forall j :: 0 <= j < i ==> !Sells(ps[j], pharmacy, barcode)
  }

  /** The pharmacy's product with this barcode: the first such row (`rows[0]`). */
  function FindProduct(ps: seq<Product>, pharmacy: nat, barcode: string): Option<Product> {
    if |ps| == 0 then None
    else if Sells(ps[0], pharmacy, barcode) then Some(ps[0])
    else FindProduct(ps[1..], pharmacy, barcode)
  }

  /** `FindProduct` fails exactly when no row sells the barcode, and otherwise returns the first that does. */
  lemma {:induction false} FindProductFirst(ps: seq<Product>, pharmacy: nat, barcode: string)
    ensures FindProduct(ps, pharmacy, barcode).None? <==> forall i :: 0 <= i < |ps| ==> !Sells(ps[i], pharmacy, barcode)
    ensures FindProduct(ps, pharmacy, barcode).Some? ==>
      exists i :: FirstSeller(ps, pharmacy, barcode, i) && ps[i] == FindProduct(ps, pharmacy, barcode).value
    decreases |ps|
  {
    if |ps| > 0 && !Sells(ps[0], pharmacy, barcode) {
      FindProductFirst(ps[1..], pharmacy, barcode);
      assert forall i :: 1 <= i < |ps| ==> ps[i] == ps[1..][i - 1];
      var r := FindProduct(ps, pharmacy, barcode);
      if r.Some? {
        var k :| FirstSeller(ps[1..], pharmacy, barcode, k) && ps[1..][k] == r.value;
        assert FirstSeller(ps, pharmacy, barcode, k + 1) by {
          forall j | 0 <= j < k + 1 ensures !Sells(ps[j], pharmacy, barcode) {
            if j > 0 {
              assert ps[j] == ps[1..][j - 1];
            }
          }
        }
      }
    }
  }

  /** Only the snapshot fields of the product rows differ between two tables. */
  predicate SameCatalogue(a: seq<Product>, b: seq<Product>) {
    |a| == |b| && forall i :: 0 <= i < |a| ==> b[i] == a[i].(quantity := b[i].quantity, expiry := b[i].expiry)
  }

  /** Resolving a barcode does not look at the snapshot fields. */
  lemma {:induction false} FindProductIgnoresSnapshot(a: seq<Product>, b: seq<Product>, pharmacy: nat, barcode: string)
    requires SameCatalogue(a, b)
    ensures FindProduct(a, pharmacy, barcode).None? <==> FindProduct(b, pharmacy, barcode).None?
    ensures FindProduct(a, pharmacy, barcode).Some? ==>
      FindProduct(b, pharmacy, barcode).value.id == FindProduct(a, pharmacy, barcode).value.id
    decreases |a|
  {
    if |a| > 0 && !Sells(a[0], pharmacy, barcode) {
      assert SameCatalogue(a[1..], b[1..]) by {
        assert forall i :: 0 <= i < |a[1..]| ==> a[1..][i] == a[i + 1] && b[1..][i] == b[i + 1];
      }
      FindProductIgnoresSnapshot(a[1..], b[1..], pharmacy, barcode);
    }
  }

  predicate IsSale(s: Sale, id: nat, pharmacy: nat) {
    s.id == id && s.pharmacy == pharmacy
  }

  /** The sale with this id in this pharmacy (`WHERE id = ? AND pharmacy_id = ?`, first row). */
  function FindSale(ss: seq<Sale>, id: nat, pharmacy: nat): Option<Sale> {
    if |ss| == 0 then None
    else if IsSale(ss[0], id, pharmacy) then Some(ss[0])
    else FindSale(ss[1..], id, pharmacy)
  }

  lemma {:induction false} FindSaleFound(ss: seq<Sale>, id: nat, pharmacy: nat)
    ensures FindSale(ss, id, pharmacy).None? <==> forall i :: 0 <= i < |ss| ==> !IsSale(ss[i], id, pharmacy)
    ensures FindSale(ss, id, pharmacy).Some? ==> FindSale(ss, id, pharmacy).value in ss && IsSale(FindSale(ss, id, pharmacy).value, id, pharmacy)
    decreases |ss|
  {
    if |ss| > 0 && !IsSale(ss[0], id, pharmacy) {
      FindSaleFound(ss[1..], id, pharmacy);
      assert forall i :: 1 <= i < |ss| ==> ss[i] == ss[1..][i - 1];
    }
  }

  /** The items of a sale in id order (`WHERE sale_id = ? ORDER BY id ASC`; ids grow with insertion). */
  function ItemsOf(items: seq<SaleItem>, sale: nat): (r: seq<SaleItem>)
    ensures forall x :: x in r <==> x in items && x.sale == sale
    ensures |r| <= |items|
  {
    if |items| == 0 then []
    else
      var init := items[..|items| - 1];
      var last := items[|items| - 1];
      assert items == init + [last];
      ItemsOf(init, sale) + (if last.sale == sale then [last] else [])
  }

  /** The items that do not belong to a sale (`DELETE FROM sale_items WHERE sale_id = ?` keeps these). */
  function ItemsNotOf(items: seq<SaleItem>, sale: nat): (r: seq<SaleItem>)
    ensures forall x :: x in r <==> x in items && x.sale != sale
    ensures |r| <= |items|
  {
    if |items| == 0 then []
    else
      var init := items[..|items| - 1];
      var last := items[|items| - 1];
      assert items == init + [last];
      ItemsNotOf(init, sale) + (if last.sale != sale then [last] else [])
  }

  /** Every item row belongs either to the sale or to the rest, and the two split the table. */
  lemma {:induction false} ItemsSplit(items: seq<SaleItem>, sale: nat)
    ensures |ItemsOf(items, sale)| + |ItemsNotOf(items, sale)| == |items|
    decreases |items|
  {
    if |items| > 0 {
      ItemsSplit(items[..|items| - 1], sale);
    }
  }

  /** The sales rows other than this one (`DELETE FROM sales WHERE id = ? AND pharmacy_id = ?` keeps these). */
  function SalesWithout(ss: seq<Sale>, id: nat, pharmacy: nat): (r: seq<Sale>)
    ensures forall s :: s in r <==> s in ss && !IsSale(s, id, pharmacy)
  {
    if |ss| == 0 then []
    else
      var init := ss[..|ss| - 1];
      var last := ss[|ss| - 1];
      assert ss == init + [last];
      SalesWithout(init, id, pharmacy) + (if IsSale(last, id, pharmacy) then [] else [last])
  }

  /** `parseInt(x) || d`: an unparsable or zero parameter takes the default. */
  function OrDefault(x: Option<int>, d: int): int {
    if x.Some? && x.value != 0 then x.value else d
  }

  datatype Page = Page(page: int, limit: int, offset: int)

  /**
   * The pagination of `listSales`: page at least 1 (default 1), limit
   * between 1 and 100 (default 20), and the offset skipping the earlier pages.
   */
  function Paginate(page: Option<int>, limit: Option<int>): (r: Page)
    ensures r.page >= 1 && 1 <= r.limit <= 100
    ensures r.offset == (r.page - 1) * r.limit && r.offset >= 0
    ensures page.Some? && page.value >= 1 ==> r.page == page.value
    ensures (page.None? || page.value <= 1) ==> r.page == 1
    ensures limit.Some? && 1 <= limit.value <= 100 ==> r.limit == limit.value
    ensures limit.None? || limit.value == 0 ==> r.limit == 20
    ensures limit.Some? && limit.value < 0 ==> r.limit == 1
    ensures limit.Some? && limit.value > 100 ==> r.limit == 100
  {
    var p := Max(OrDefault(page, 1), 1);
    var l := Min(Max(OrDefault(limit, 20), 1), 100);
    Page(p, l, (p - 1) * l)
  }
}
