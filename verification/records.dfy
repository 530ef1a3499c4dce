/**
 * The rows of the pharmacy database the inventory core reads and writes.
 *
 * Dates are day numbers, money is an integer number of cents, and every
 * table is a sequence in insertion order. The usage ledger and the
 * notification table carry no explicit row id: a row is identified by its
 * position, and "newest id first" is "from the end of the sequence".
 */
module Records {
  import opened Base

  /** The batch statuses the handlers and jobs write. */
  datatype BatchStatus = Active | Expired | Void | Archived

  /** A dated lot of stock of one pharmacy product (`product_batches`). */
  datatype Batch = Batch(
    id: nat,
    pharmacy: nat,
    product: nat,
    quantity: int,
    expiry: Option<int>,
    status: BatchStatus)

  /** A per-pharmacy product row (`pharmacy_products` joined with its global barcode and name). */
  datatype Product = Product(
    id: nat,
    pharmacy: nat,
    barcode: string,
    name: string,
    price: int,
    quantity: int,
    expiry: Option<int>)

  /** One ledger row of `sale_batch_usages`: this sale took `qty` units from `batch`. */
  datatype Usage = Usage(
    sale: nat,
    saleItem: Option<nat>,
    pharmacy: nat,
    product: nat,
    batch: nat,
    barcode: string,
    qty: int)

  datatype NoteKind = LowStock | OutOfStock | ExpiredNote | NearExpiry

  /** A row of `notifications`; its message text is not modelled. */
  datatype Notification = Notification(
    pharmacy: nat,
    product: nat,
    batch: nat,
    kind: NoteKind,
    read: bool,
    resolved: bool,
    resolvedAt: Option<int>,
    emailSent: bool)

  /** A row of `pharmacy_settings`. */
  datatype Settings = Settings(
    pharmacy: nat,
    lowStockThreshold: Option<int>,
    expiryAlertDays: Option<int>,
    notifyByEmail: bool)

  datatype User = User(id: nat, pharmacy: nat, emailVerified: bool)

  /** A sale header; `amountGiven` and `change` are NULL after an update without a payment. */
  datatype Sale = Sale(
    id: nat,
    pharmacy: nat,
    user: nat,
    total: int,
    amountGiven: Option<int>,
    change: Option<int>,
    description: Option<string>)

  datatype SaleItem = SaleItem(
    id: nat,
    sale: nat,
    barcode: string,
    name: string,
    quantity: int,
    price: int,
    subtotal: int)

  /** The database; `nextSaleId` and `nextItemId` are the auto-increment counters. */
  datatype Db = Db(
    products: seq<Product>,
    batches: seq<Batch>,
    usages: seq<Usage>,
    notes: seq<Notification>,
    sales: seq<Sale>,
    items: seq<SaleItem>,
    settings: seq<Settings>,
    users: seq<User>,
    nextSaleId: nat,
    nextItemId: nat)

  /** An answer other than success: the HTTP status and why. */
  datatype Rejection = Rejection(status: nat, reason: Reason)

  datatype Reason =
    | InvalidInput
    | DescriptionTooLong
    | ProductNotFound(barcode: string)
    | InsufficientPayment
    | InsufficientStock(available: int, requested: int)
    | SaleNotFound
    | ReversalMismatch(barcode: string, wanted: int, reversed: int)
    | BatchNotFound
    | NegativeQuantity
    | InvalidMode
    | InvalidExpiry
    | InvalidStatus
    | NothingToUpdate
    | NonEmptyBatch
    | InvalidQuantity
    | ProductMissing

  /** Batch ids are auto-increment keys: no two rows share one. */
  predicate UniqueBatchIds(bs: seq<Batch>) {
    forall i, j :: 0 <= i < j < |bs| ==> bs[i].id != bs[j].id
  }

  /** Product ids are auto-increment keys as well. */
  predicate UniqueProductIds(ps: seq<Product>) {
    forall i, j :: 0 <= i < j < |ps| ==> ps[i].id != ps[j].id
  }

  /** Every ledger row records a positive quantity (consumption only logs positive slices). */
  predicate UsagesPositive(us: seq<Usage>) {
    forall i :: 0 <= i < |us| ==> us[i].qty > 0
  }
}
