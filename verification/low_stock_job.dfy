/**
 * The scheduled low-stock check. For every pharmacy settings row it runs
 * four passes over the pharmacy's products: resolve `out_of_stock` where
 * stock came back, resolve `low_stock` where stock recovered past the
 * threshold plus a hysteresis buffer, ensure `out_of_stock` (and clear
 * `low_stock`) at quantity 0, and ensure `low_stock` at 0 < quantity <=
 * threshold. The job's notifications always have batch 0; the clock is the
 * parameter `now`, and outgoing e-mail is the list of mails it asks for.
 */
module LowStockJob {
  import opened Base
  import opened Records
  import opened Notes
  import opened StockAlert

  /** A product's job notification of one kind, as `ensureProductNotification` addresses it. */
  datatype Key = Key(pharmacy: nat, product: nat, kind: NoteKind)

  /** A row of the key: its pharmacy, product and kind, and batch 0. */
  predicate Keyed(n: Notification, key: Key) {
    n.pharmacy == key.pharmacy && n.product == key.product && n.kind == key.kind && n.batch == 0
  }

  /** The columns a notification is looked up by; no operation of the job changes them. */
  function KeyOf(n: Notification): (nat, nat, NoteKind, nat) {
    (n.pharmacy, n.product, n.kind, n.batch)
  }

  /** The first keyed row in insertion order: what a `LIMIT 1` lookup without `ORDER BY` reads. */
  function FirstKeyed(ns: seq<Notification>, key: Key): (r: Option<nat>)
    ensures r.None? <==> forall i :: 0 <= i < |ns| ==> !Keyed(ns[i], key)
    ensures r.Some? ==> r.value < |ns| && Keyed(ns[r.value], key)
    ensures r.Some? ==> forall i :: 0 <= i < r.value ==> !Keyed(ns[i], key)
    decreases |ns|
  {
    if |ns| == 0 then None
    else if Keyed(ns[0], key) then Some(0)
    else
      assert forall i :: 1 <= i < |ns| ==> ns[i] == ns[1..][i - 1];
      match FirstKeyed(ns[1..], key)
      case None => None
      case Some(i) => Some(i + 1)
  }

  /** The looked-up row exists and is unresolved: the state an ensure leaves behind. */
  predicate FirstOpen(ns: seq<Notification>, key: Key) {
    var f := FirstKeyed(ns, key);
    f.Some? && !ns[f.value].resolved
  }

  /** Every keyed row is resolved: the state a resolving `UPDATE` leaves behind. */
  predicate AllResolved(ns: seq<Notification>, key: Key) {
    forall i :: 0 <= i < |ns| && Keyed(ns[i], key) ==> ns[i].resolved
  }

  /** Some keyed row is unresolved: the `SELECT ... is_resolved = FALSE LIMIT 1` probe. */
  predicate AnyOpen(ns: seq<Notification>, key: Key) {
    exists i :: 0 <= i < |ns| && Keyed(ns[i], key) && !ns[i].resolved
  }

  /** How many keyed rows there are, resolved or not. */
  function CountKeyed(ns: seq<Notification>, key: Key): nat {
    if |ns| == 0 then 0
    else (if Keyed(ns[0], key) then 1 else 0) + CountKeyed(ns[1..], key)
  }

  /** `r` has every row of `ns`, in place and with the same lookup columns, and maybe more after them. */
  predicate KeysKept(ns: seq<Notification>, r: seq<Notification>) {
    |ns| <= |r| && forall i :: 0 <= i < |ns| ==> KeyOf(r[i]) == KeyOf(ns[i])
  }

  /** The rows with this key are exactly as they were: none changed and none added. */
  predicate Stays(ns: seq<Notification>, r: seq<Notification>, key: Key) {
    && KeysKept(ns, r)
    && (forall i :: 0 <= i < |ns| && Keyed(ns[i], key) ==> r[i] == ns[i])
    && (forall i :: |ns| <= i < |r| ==> !Keyed(r[i], key))
  }

  lemma StaysTrans(a: seq<Notification>, b: seq<Notification>, c: seq<Notification>,
                   key: Key)
    requires Stays(a, b, key) && Stays(b, c, key)
    ensures Stays(a, c, key)
  {
    forall i | |a| <= i < |c| ensures !Keyed(c[i], key) {
      if i < |b| {
        assert KeyOf(c[i]) == KeyOf(b[i]);
      }
    }
  }

  /** Two tables whose rows of a key sit at the same places look up the same first row. */
  lemma FirstKeyedSame(a: seq<Notification>, b: seq<Notification>, key: Key)
    requires |a| <= |b|
    requires forall i :: 0 <= i < |a| ==> (Keyed(b[i], key) <==> Keyed(a[i], key))
    requires forall i :: |a| <= i < |b| ==> !Keyed(b[i], key)
    ensures FirstKeyed(b, key) == FirstKeyed(a, key)
  {
    var fa := FirstKeyed(a, key);
    var fb := FirstKeyed(b, key);
    if fa.Some? {
      assert Keyed(b[fa.value], key);
      assert Keyed(a[fb.value], key);
    } else {
      assert forall i :: 0 <= i < |b| ==> !Keyed(b[i], key);
    }
  }

  lemma StaysSameKeys(a: seq<Notification>, b: seq<Notification>, key: Key)
    requires KeysKept(a, b)
    ensures forall i :: 0 <= i < |a| ==> (Keyed(b[i], key) <==> Keyed(a[i], key))
  {
    forall i | 0 <= i < |a| ensures Keyed(b[i], key) <==> Keyed(a[i], key) {
      assert KeyOf(b[i]) == KeyOf(a[i]);
    }
  }

  /**
   * Whether the rows of a key are all resolved, and whether its looked-up
   * row is open, depend only on the rows of that key.
   */
  lemma StaysKeepsState(a: seq<Notification>, b: seq<Notification>, key: Key)
    requires Stays(a, b, key)
    ensures FirstKeyed(b, key) == FirstKeyed(a, key)
    ensures FirstOpen(b, key) <==> FirstOpen(a, key)
    ensures AllResolved(b, key) <==> AllResolved(a, key)
  {
    StaysSameKeys(a, b, key);
    FirstKeyedSame(a, b, key);
    StaysKeepsResolved(a, b, key);
  }

  lemma StaysKeepsResolved(a: seq<Notification>, b: seq<Notification>, key: Key)
    requires Stays(a, b, key)
    requires forall i :: 0 <= i < |a| ==> (Keyed(b[i], key) <==> Keyed(a[i], key))
    ensures AllResolved(b, key) <==> AllResolved(a, key)
  {
    if AllResolved(a, key) {
      forall i | 0 <= i < |b| && Keyed(b[i], key) ensures b[i].resolved {
        assert i < |a| && Keyed(a[i], key);
      }
    }
    if AllResolved(b, key) {
      forall i | 0 <= i < |a| && Keyed(a[i], key) ensures a[i].resolved {
        assert b[i] == a[i];
      }
    }
  }

  /** One row of the resolving `UPDATE ... SET is_resolved = TRUE, resolved_at = NOW()`. */
  function ResolveRow(n: Notification, key: Key, now: int): Notification {
    if Keyed(n, key) && !n.resolved then n.(resolved := true, resolvedAt := Some(now)) else n
  }

  /**
   * Resolve every open row of the key, stamping it with `now`. Afterwards all
   * of the key's rows are resolved; resolved rows keep their old stamp, and
   * no other key's rows change.
   */
  function Resolve(ns: seq<Notification>, key: Key, now: int): (r: seq<Notification>)
    ensures |r| == |ns| && KeysKept(ns, r)
    ensures AllResolved(r, key)
    ensures forall i :: 0 <= i < |ns| && ns[i].resolved ==> r[i] == ns[i]
    ensures forall i :: 0 <= i < |ns| && !ns[i].resolved && Keyed(ns[i], key) ==>
      r[i].resolvedAt == Some(now) && r[i].emailSent == ns[i].emailSent && r[i].read == ns[i].read
    ensures forall other: Key :: other != key ==> Stays(ns, r, other)
    ensures AllResolved(ns, key) ==> r == ns
  {
    seq(|ns|, i requires 0 <= i < |ns| => ResolveRow(ns[i], key, now))
  }

  /** `UPDATE ... SET email_sent = 1` over every row of the key, resolved or not. */
  function MarkEmailed(ns: seq<Notification>, key: Key): (r: seq<Notification>)
    ensures |r| == |ns| && KeysKept(ns, r)
    ensures forall i :: 0 <= i < |ns| ==> r[i].resolved == ns[i].resolved
    ensures forall i :: 0 <= i < |ns| && Keyed(ns[i], key) ==> r[i] == ns[i].(emailSent := true)
    ensures forall other: Key :: other != key ==> Stays(ns, r, other)
  {
    seq(|ns|, i requires 0 <= i < |ns| =>
      if Keyed(ns[i], key) then ns[i].(emailSent := true) else ns[i])
  }

  lemma MarkEmailedKeepsOpen(ns: seq<Notification>, key: Key)
    ensures FirstKeyed(MarkEmailed(ns, key), key) == FirstKeyed(ns, key)
    ensures FirstOpen(MarkEmailed(ns, key), key) <==> FirstOpen(ns, key)
  {
    var r := MarkEmailed(ns, key);
    StaysSameKeys(ns, r, key);
    FirstKeyedSame(ns, r, key);
  }

  /** What `ensureProductNotification` reports. */
  datatype Outcome = Inserted | Reopened | StillActive

  /** The reopening `UPDATE`: unresolved again, no stamp, e-mail not yet sent; the read flag is kept. */
  function Reopen(n: Notification): Notification {
    n.(resolved := false, resolvedAt := None, emailSent := false)
  }

  /**
   * `ensureProductNotification`: look up the first row of the key; insert a
   * fresh one if there is none, reopen it if it is resolved, and otherwise
   * leave the table alone. Afterwards the looked-up row is open, and on a
   * transition its e-mail flag is clear. A reopening changes that one row in
   * place: unresolved, no resolution stamp, e-mail not sent, all else kept.
   */
  function Ensure(ns: seq<Notification>, key: Key): (r: (seq<Notification>, Outcome))
    ensures r.1 == Inserted <==> FirstKeyed(ns, key).None?
    ensures r.1 == Reopened <==> FirstKeyed(ns, key).Some? && !FirstOpen(ns, key)
    ensures r.1 == StillActive <==> r.0 == ns
    ensures r.1 == StillActive <==> FirstOpen(ns, key)
    ensures r.1 == Inserted ==> r.0 == ns + [Fresh(key.pharmacy, key.product, 0, key.kind)]
    ensures r.1 == Reopened ==>
      var k := FirstKeyed(ns, key).value;
      && |r.0| == |ns|
      && (forall i :: 0 <= i < |ns| && i != k ==> r.0[i] == ns[i])
      && r.0[k] == ns[k].(resolved := false, resolvedAt := None, emailSent := false)
    ensures FirstOpen(r.0, key)
    ensures r.1 != StillActive ==> !r.0[FirstKeyed(r.0, key).value].emailSent
    ensures KeysKept(ns, r.0) && |r.0| <= |ns| + 1
    ensures forall other: Key :: other != key ==> Stays(ns, r.0, other)
  {
    var f := FirstKeyed(ns, key);
    if f.None? then
      InsertShape(ns, key);
      (ns + [Fresh(key.pharmacy, key.product, 0, key.kind)], Inserted)
    else if ns[f.value].resolved then
      ReopenShape(ns, f.value, key);
      (ns[f.value := Reopen(ns[f.value])], Reopened)
    else (ns, StillActive)
  }

  lemma InsertShape(ns: seq<Notification>, key: Key)
    requires FirstKeyed(ns, key).None?
    ensures var r := ns + [Fresh(key.pharmacy, key.product, 0, key.kind)];
      && KeysKept(ns, r)
      && FirstKeyed(r, key) == Some(|ns|)
      && (forall other: Key :: other != key ==> Stays(ns, r, other))
  {
    var r := ns + [Fresh(key.pharmacy, key.product, 0, key.kind)];
    assert forall i :: 0 <= i < |ns| ==> r[i] == ns[i];
    assert Keyed(r[|ns|], key);
  }

  lemma ReopenShape(ns: seq<Notification>, i: nat, key: Key)
    requires FirstKeyed(ns, key) == Some(i)
    ensures var r := ns[i := Reopen(ns[i])];
      && KeysKept(ns, r)
      && FirstKeyed(r, key) == Some(i)
      && (forall other: Key :: other != key ==> Stays(ns, r, other))
  {
    var r := ns[i := Reopen(ns[i])];
    assert KeyOf(r[i]) == KeyOf(ns[i]);
    assert KeysKept(ns, r);
    StaysSameKeys(ns, r, key);
    FirstKeyedSame(ns, r, key);
  }

  /** Ensuring twice is ensuring once: the second call finds the row open and changes nothing. */
  lemma EnsureIdempotent(ns: seq<Notification>, key: Key)
    ensures var once := Ensure(ns, key).0;
      Ensure(once, key) == (once, StillActive)
  {
  }

  /** Counting keyed rows splits over concatenation. */
  lemma {:induction false} CountKeyedAppend(a: seq<Notification>, b: seq<Notification>, key: Key)
    ensures CountKeyed(a + b, key) == CountKeyed(a, key) + CountKeyed(b, key)
    decreases |a|
  {
    if |a| > 0 {
      assert (a + b)[1..] == a[1..] + b;
      CountKeyedAppend(a[1..], b, key);
    } else {
      assert a + b == b;
    }
  }

  /** A row with unchanged lookup columns does not change any key's count. */
  lemma {:induction false} CountKeyedUpdate(ns: seq<Notification>, i: nat, n: Notification, key: Key)
    requires i < |ns| && KeyOf(n) == KeyOf(ns[i])
    ensures CountKeyed(ns[i := n], key) == CountKeyed(ns, key)
    decreases i
  {
    if i > 0 {
      assert ns[i := n][1..] == ns[1..][i - 1 := n];
      CountKeyedUpdate(ns[1..], i - 1, n, key);
    }
  }

  /**
   * An ensure never duplicates: afterwards the key has one row if it had
   * none and as many as before otherwise.
   */
  lemma EnsureCounts(ns: seq<Notification>, key: Key)
    ensures CountKeyed(Ensure(ns, key).0, key)
         == Max(CountKeyed(ns, key), 1)
  {
    var f := FirstKeyed(ns, key);
    if f.None? {
      CountKeyedAppend(ns, [Fresh(key.pharmacy, key.product, 0, key.kind)], key);
      assert CountKeyed(ns, key) == 0 by {
        NoneKeyedCountsZero(ns, key);
      }
    } else {
      CountKeyedUpdate(ns, f.value, Reopen(ns[f.value]), key);
      SomeKeyedCountsOne(ns, f.value, key);
    }
  }

  lemma {:induction false} NoneKeyedCountsZero(ns: seq<Notification>, key: Key)
    requires forall i :: 0 <= i < |ns| ==> !Keyed(ns[i], key)
    ensures CountKeyed(ns, key) == 0
    decreases |ns|
  {
    if |ns| > 0 {
      assert forall i :: 0 <= i < |ns[1..]| ==> ns[1..][i] == ns[i + 1];
      NoneKeyedCountsZero(ns[1..], key);
    }
  }

  lemma {:induction false} SomeKeyedCountsOne(ns: seq<Notification>, i: nat, key: Key)
    requires i < |ns| && Keyed(ns[i], key)
    ensures CountKeyed(ns, key) >= 1
    decreases i
  {
    if i > 0 {
      SomeKeyedCountsOne(ns[1..], i - 1, key);
    }
  }

  /** `Math.ceil(t / 10)` for an integer `t`: the least `c` with `10 * c >= t`. */
  function CeilTenth(t: int): (c: int)
    ensures 10 * c >= t && 10 * (c - 1) < t
  {
    -((-t) / 10)
  }

  /** The hysteresis buffer: a tenth of the threshold, rounded up, and at least one unit. */
  function Buffer(t: int): (b: int)
    ensures b >= 1 && b >= CeilTenth(t)
    ensures b == 1 || b == CeilTenth(t)
  {
    Max(1, CeilTenth(t))
  }

  /** A quantity strictly inside the hysteresis band is never zero, whatever the sign of the threshold. */
  lemma BandIsPositive(t: int, q: int)
    requires t < q < t + Buffer(t)
    ensures q > 0
  {
  }

  /** One e-mail the job asks for: the alert of this key, to this user. */
  datatype Mail = Mail(user: nat, key: Key)

  /** The notification table and the e-mails asked for so far. */
  datatype Run = Run(notes: seq<Notification>, mails: seq<Mail>)

  /** What one pharmacy's pass reads: its threshold, the settings and users tables, and the clock. */
  datatype Env = Env(pharmacy: nat, threshold: int, settings: seq<Settings>, users: seq<User>, now: int)

  /** `notify_by_email` of the pharmacy's first settings row; no row reads as disabled. */
  predicate EmailEnabled(ss: seq<Settings>, pharmacy: nat) {
    var s := SettingsOf(ss, pharmacy);
    s.Some? && s.value.notifyByEmail
  }

  predicate Verified(u: User, pharmacy: nat) {
    u.pharmacy == pharmacy && u.emailVerified
  }

  /** One mail about the key to each verified user of its pharmacy, in table order. */
  function MailsFor(us: seq<User>, key: Key): (r: seq<Mail>)
    ensures |r| <= |us|
    ensures forall m :: m in r ==> m.key == key && exists u :: u in us && Verified(u, key.pharmacy) && u.id == m.user
    ensures forall u :: u in us && Verified(u, key.pharmacy) ==> Mail(u.id, key) in r
  {
    if |us| == 0 then []
    else
      var rest := MailsFor(us[1..], key);
      assert forall u :: u in us[1..] ==> u in us;
      assert forall u :: u in us ==> u == us[0] || u in us[1..];
      if Verified(us[0], key.pharmacy) then [Mail(us[0].id, key)] + rest else rest
  }

  /**
   * The e-mail step after an ensure: on `inserted` or `reopened`, and only
   * when the pharmacy has e-mail on, every verified user is mailed and the
   * key's rows are flagged as mailed (even with no verified user); an
   * `active` outcome or disabled e-mail changes nothing.
   */
  function Announce(run: Run, env: Env, key: Key, o: Outcome): (r: Run)
    ensures o == StillActive || !EmailEnabled(env.settings, env.pharmacy) ==> r == run
    ensures o != StillActive && EmailEnabled(env.settings, env.pharmacy) ==>
      && r.mails == run.mails + MailsFor(env.users, key)
      && r.notes == MarkEmailed(run.notes, key)
  {
    if o == StillActive || !EmailEnabled(env.settings, env.pharmacy) then run
    else Run(MarkEmailed(run.notes, key), run.mails + MailsFor(env.users, key))
  }

  /** The four passes of the job, in the order it runs them. */
  datatype Phase = ClearOut | ClearLow | Empty | Low

  /** Whether a pass selects the product: the pharmacy filter and the pass's quantity condition. */
  predicate Selects(env: Env, phase: Phase, pr: Product) {
    && pr.pharmacy == env.pharmacy
    && match phase
       case ClearOut => pr.quantity > 0
       case ClearLow => pr.quantity >= env.threshold + Buffer(env.threshold)
       case Empty => pr.quantity == 0
       case Low => 0 < pr.quantity <= env.threshold
  }

  /** The notification kinds a pass may write for a product it selects. */
  predicate Writes(phase: Phase, kind: NoteKind) {
    match phase
    case ClearOut => kind == OutOfStock
    case ClearLow => kind == LowStock
    case Empty => kind == LowStock || kind == OutOfStock
    case Low => kind == LowStock
  }

  /** The pass may write the key's rows while visiting this product. */
  predicate Touches(env: Env, phase: Phase, pr: Product, key: Key) {
    Selects(env, phase, pr) && key.pharmacy == env.pharmacy && key.product == pr.id && Writes(phase, key.kind)
  }

  function OutKey(env: Env, pr: Product): Key {
    Key(env.pharmacy, pr.id, OutOfStock)
  }

  function LowKey(env: Env, pr: Product): Key {
    Key(env.pharmacy, pr.id, LowStock)
  }

  /**
   * One product visited by one pass. `ClearOut` resolves `out_of_stock` once
   * stock is back; `ClearLow` resolves `low_stock` at threshold plus buffer;
   * `Empty` resolves `low_stock` and ensures `out_of_stock`; `Low` ensures
   * `low_stock` unless an `out_of_stock` is open.
   */
  function Step(run: Run, env: Env, phase: Phase, pr: Product): (r: Run)
    ensures KeysKept(run.notes, r.notes)
    ensures |run.mails| <= |r.mails| && r.mails[..|run.mails|] == run.mails
  {
    if !Selects(env, phase, pr) then run
    else
      match phase
      case ClearOut => run.(notes := Resolve(run.notes, OutKey(env, pr), env.now))
      case ClearLow => run.(notes := Resolve(run.notes, LowKey(env, pr), env.now))
      case Empty =>
        var cleared := Resolve(run.notes, LowKey(env, pr), env.now);
        var e := Ensure(cleared, OutKey(env, pr));
        KeysKeptTrans(run.notes, cleared, e.0);
        var r := Announce(Run(e.0, run.mails), env, OutKey(env, pr), e.1);
        KeysKeptTrans(run.notes, e.0, r.notes);
        r
      case Low =>
        if AnyOpen(run.notes, OutKey(env, pr)) then run
        else
          var e := Ensure(run.notes, LowKey(env, pr));
          var r := Announce(Run(e.0, run.mails), env, LowKey(env, pr), e.1);
          KeysKeptTrans(run.notes, e.0, r.notes);
          r
  }

  lemma KeysKeptTrans(a: seq<Notification>, b: seq<Notification>, c: seq<Notification>)
    requires KeysKept(a, b) && KeysKept(b, c)
    ensures KeysKept(a, c)
  {
    forall i | 0 <= i < |a| ensures KeyOf(c[i]) == KeyOf(a[i]) {
      assert KeyOf(c[i]) == KeyOf(b[i]);
    }
  }

  /** A key the visit does not touch keeps its rows. */
  lemma StepStays(run: Run, env: Env, phase: Phase, pr: Product, key: Key)
    requires !Touches(env, phase, pr, key)
    ensures Stays(run.notes, Step(run, env, phase, pr).notes, key)
  {
    if Selects(env, phase, pr) {
      match phase
      case ClearOut =>
      case ClearLow =>
      case Empty =>
        var cleared := Resolve(run.notes, LowKey(env, pr), env.now);
        var e := Ensure(cleared, OutKey(env, pr));
        StaysTrans(run.notes, cleared, e.0, key);
        var r := Announce(Run(e.0, run.mails), env, OutKey(env, pr), e.1);
        StaysTrans(run.notes, e.0, r.notes, key);
      case Low =>
        if !AnyOpen(run.notes, OutKey(env, pr)) {
          var e := Ensure(run.notes, LowKey(env, pr));
          var r := Announce(Run(e.0, run.mails), env, LowKey(env, pr), e.1);
          StaysTrans(run.notes, e.0, r.notes, key);
        }
    }
  }

  /** One pass over the product table, in table order. */
  function Sweep(run: Run, env: Env, phase: Phase, ps: seq<Product>): Run
    decreases |ps|
  {
    if |ps| == 0 then run else Sweep(Step(run, env, phase, ps[0]), env, phase, ps[1..])
  }

  /** A pass that touches none of the key's rows keeps them. */
  lemma {:induction false} SweepStays(run: Run, env: Env, phase: Phase, ps: seq<Product>, key: Key)
    requires forall i :: 0 <= i < |ps| ==> !Touches(env, phase, ps[i], key)
    ensures Stays(run.notes, Sweep(run, env, phase, ps).notes, key)
    decreases |ps|
  {
    if |ps| > 0 {
      var next := Step(run, env, phase, ps[0]);
      StepStays(run, env, phase, ps[0], key);
      SweepStays(next, env, phase, ps[1..], key);
      StaysTrans(run.notes, next.notes, Sweep(next, env, phase, ps[1..]).notes, key);
    }
  }

  lemma {:induction false} SweepAppend(run: Run, env: Env, phase: Phase, a: seq<Product>, b: seq<Product>)
    ensures Sweep(run, env, phase, a + b) == Sweep(Sweep(run, env, phase, a), env, phase, b)
    decreases |a|
  {
    if |a| == 0 {
      assert a + b == b;
    } else {
      assert (a + b)[1..] == a[1..] + b;
      SweepAppend(Step(run, env, phase, a[0]), env, phase, a[1..], b);
    }
  }

  /** No other product of the table touches a product's keys (product ids are unique). */
  lemma OthersDoNotTouch(env: Env, phase: Phase, ps: seq<Product>, j: nat, kind: NoteKind)
    requires UniqueProductIds(ps) && j < |ps|
    ensures forall i :: 0 <= i < |ps| && i != j ==> !Touches(env, phase, ps[i], Key(env.pharmacy, ps[j].id, kind))
  {
  }

  /**
   * Seen from one product's key, a pass is that product's visit alone: the
   * visits before it and after it leave the key's rows as they were.
   */
  lemma SweepFocus(run: Run, env: Env, phase: Phase, ps: seq<Product>, j: nat, kind: NoteKind)
    requires UniqueProductIds(ps) && j < |ps|
    ensures var key := Key(env.pharmacy, ps[j].id, kind);
      var mid := Sweep(run, env, phase, ps[..j]);
      && Stays(run.notes, mid.notes, key)
      && Stays(Step(mid, env, phase, ps[j]).notes, Sweep(run, env, phase, ps).notes, key)
  {
    var key := Key(env.pharmacy, ps[j].id, kind);
    var mid := Sweep(run, env, phase, ps[..j]);
    OthersDoNotTouch(env, phase, ps, j, kind);
    assert ps == ps[..j] + ([ps[j]] + ps[j + 1..]);
    SweepAppend(run, env, phase, ps[..j], [ps[j]] + ps[j + 1..]);
    assert ([ps[j]] + ps[j + 1..])[1..] == ps[j + 1..];
    SweepStays(run, env, phase, ps[..j], key);
    SweepStays(Step(mid, env, phase, ps[j]), env, phase, ps[j + 1..], key);
  }

  /** The product-level state the job drives a pharmacy's products to. */
  predicate Settled(ns: seq<Notification>, env: Env, pr: Product) {
    && (pr.quantity > 0 ==> AllResolved(ns, OutKey(env, pr)))
    && (pr.quantity >= env.threshold + Buffer(env.threshold) ==> AllResolved(ns, LowKey(env, pr)))
    && (pr.quantity == 0 ==> AllResolved(ns, LowKey(env, pr)) && FirstOpen(ns, OutKey(env, pr)))
    && (0 < pr.quantity <= env.threshold ==> FirstOpen(ns, LowKey(env, pr)))
  }

  predicate AllSettled(ns: seq<Notification>, env: Env, ps: seq<Product>) {
    forall i :: 0 <= i < |ps| && ps[i].pharmacy == env.pharmacy ==> Settled(ns, env, ps[i])
  }

  /** One pharmacy's run of the job: the four passes over the product table. */
  function Pass(run: Run, env: Env, ps: seq<Product>): Run {
    var a := Sweep(run, env, ClearOut, ps);
    var b := Sweep(a, env, ClearLow, ps);
    var c := Sweep(b, env, Empty, ps);
    Sweep(c, env, Low, ps)
  }

  /** The `Empty` visit: `low_stock` ends all resolved and the looked-up `out_of_stock` row open. */
  lemma EmptyStepEffect(run: Run, env: Env, pr: Product)
    requires Selects(env, Empty, pr)
    ensures AllResolved(Step(run, env, Empty, pr).notes, LowKey(env, pr))
    ensures FirstOpen(Step(run, env, Empty, pr).notes, OutKey(env, pr))
  {
    var cleared := Resolve(run.notes, LowKey(env, pr), env.now);
    var e := Ensure(cleared, OutKey(env, pr));
    StaysKeepsState(cleared, e.0, LowKey(env, pr));
    var r := Announce(Run(e.0, run.mails), env, OutKey(env, pr), e.1);
    if r != Run(e.0, run.mails) {
      MarkEmailedKeepsOpen(e.0, OutKey(env, pr));
      StaysKeepsState(e.0, r.notes, LowKey(env, pr));
    }
  }

  /** The `Low` visit, with no `out_of_stock` open: the looked-up `low_stock` row ends open. */
  lemma LowStepEffect(run: Run, env: Env, pr: Product)
    requires Selects(env, Low, pr) && AllResolved(run.notes, OutKey(env, pr))
    ensures FirstOpen(Step(run, env, Low, pr).notes, LowKey(env, pr))
  {
    assert !AnyOpen(run.notes, OutKey(env, pr));
    var e := Ensure(run.notes, LowKey(env, pr));
    var r := Announce(Run(e.0, run.mails), env, LowKey(env, pr), e.1);
    if r != Run(e.0, run.mails) {
      MarkEmailedKeepsOpen(e.0, LowKey(env, pr));
    }
  }

  /** A pass that does not select the product keeps all of its keys. */
  lemma SweepSkips(run: Run, env: Env, phase: Phase, ps: seq<Product>, j: nat, kind: NoteKind)
    requires UniqueProductIds(ps) && j < |ps|
    requires !Selects(env, phase, ps[j]) || !Writes(phase, kind)
    ensures Stays(run.notes, Sweep(run, env, phase, ps).notes, Key(env.pharmacy, ps[j].id, kind))
  {
    OthersDoNotTouch(env, phase, ps, j, kind);
    SweepStays(run, env, phase, ps, Key(env.pharmacy, ps[j].id, kind));
  }

  /**
   * Once a product has stock, the first pass resolves its `out_of_stock`
   * rows and the later passes keep them resolved.
   */
  lemma StockedOutResolved(run: Run, env: Env, ps: seq<Product>, j: nat)
    requires UniqueProductIds(ps) && j < |ps| && ps[j].pharmacy == env.pharmacy && ps[j].quantity > 0
    ensures var c := Sweep(Sweep(Sweep(run, env, ClearOut, ps), env, ClearLow, ps), env, Empty, ps);
      && AllResolved(c.notes, OutKey(env, ps[j]))
      && AllResolved(Pass(run, env, ps).notes, OutKey(env, ps[j]))
  {
    var key := OutKey(env, ps[j]);
    var a := Sweep(run, env, ClearOut, ps);
    var b := Sweep(a, env, ClearLow, ps);
    var c := Sweep(b, env, Empty, ps);
    var d := Sweep(c, env, Low, ps);
    SweepFocus(run, env, ClearOut, ps, j, OutOfStock);
    var mid := Sweep(run, env, ClearOut, ps[..j]);
    StaysKeepsState(Step(mid, env, ClearOut, ps[j]).notes, a.notes, key);
    SweepSkips(a, env, ClearLow, ps, j, OutOfStock);
    StaysKeepsState(a.notes, b.notes, key);
    SweepSkips(b, env, Empty, ps, j, OutOfStock);
    StaysKeepsState(b.notes, c.notes, key);
    SweepSkips(c, env, Low, ps, j, OutOfStock);
    StaysKeepsState(c.notes, d.notes, key);
  }

  /** At quantity 0 the pass leaves `low_stock` resolved and the `out_of_stock` row open. */
  lemma EmptyProductSettles(run: Run, env: Env, ps: seq<Product>, j: nat)
    requires UniqueProductIds(ps) && j < |ps| && ps[j].pharmacy == env.pharmacy && ps[j].quantity == 0
    ensures AllResolved(Pass(run, env, ps).notes, LowKey(env, ps[j]))
    ensures FirstOpen(Pass(run, env, ps).notes, OutKey(env, ps[j]))
  {
    var b := Sweep(Sweep(run, env, ClearOut, ps), env, ClearLow, ps);
    var c := Sweep(b, env, Empty, ps);
    var d := Sweep(c, env, Low, ps);
    SweepFocus(b, env, Empty, ps, j, LowStock);
    SweepFocus(b, env, Empty, ps, j, OutOfStock);
    var after := Step(Sweep(b, env, Empty, ps[..j]), env, Empty, ps[j]);
    EmptyStepEffect(Sweep(b, env, Empty, ps[..j]), env, ps[j]);
    StaysKeepsState(after.notes, c.notes, LowKey(env, ps[j]));
    StaysKeepsState(after.notes, c.notes, OutKey(env, ps[j]));
    SweepSkips(c, env, Low, ps, j, LowStock);
    SweepSkips(c, env, Low, ps, j, OutOfStock);
    StaysKeepsState(c.notes, d.notes, LowKey(env, ps[j]));
    StaysKeepsState(c.notes, d.notes, OutKey(env, ps[j]));
  }

  /**
   * At 0 < quantity <= threshold the pass leaves the `low_stock` row open:
   * the first pass has already resolved any `out_of_stock`, so the priority
   * check never holds the ensure back.
   */
  lemma LowProductSettles(run: Run, env: Env, ps: seq<Product>, j: nat)
    requires UniqueProductIds(ps) && j < |ps| && ps[j].pharmacy == env.pharmacy
    requires 0 < ps[j].quantity <= env.threshold
    ensures FirstOpen(Pass(run, env, ps).notes, LowKey(env, ps[j]))
  {
    var c := Sweep(Sweep(Sweep(run, env, ClearOut, ps), env, ClearLow, ps), env, Empty, ps);
    var d := Sweep(c, env, Low, ps);
    StockedOutResolved(run, env, ps, j);
    SweepFocus(c, env, Low, ps, j, OutOfStock);
    SweepFocus(c, env, Low, ps, j, LowStock);
    var mid := Sweep(c, env, Low, ps[..j]);
    StaysKeepsState(c.notes, mid.notes, OutKey(env, ps[j]));
    LowStepEffect(mid, env, ps[j]);
    StaysKeepsState(Step(mid, env, Low, ps[j]).notes, d.notes, LowKey(env, ps[j]));
  }

  /** At threshold plus buffer or more (and stock above 0) the pass leaves `low_stock` resolved. */
  lemma RecoveredProductSettles(run: Run, env: Env, ps: seq<Product>, j: nat)
    requires UniqueProductIds(ps) && j < |ps| && ps[j].pharmacy == env.pharmacy
    requires ps[j].quantity >= env.threshold + Buffer(env.threshold) && ps[j].quantity != 0
    ensures AllResolved(Pass(run, env, ps).notes, LowKey(env, ps[j]))
  {
    var key := LowKey(env, ps[j]);
    var a := Sweep(run, env, ClearOut, ps);
    var b := Sweep(a, env, ClearLow, ps);
    var c := Sweep(b, env, Empty, ps);
    var d := Sweep(c, env, Low, ps);
    SweepFocus(a, env, ClearLow, ps, j, LowStock);
    var mid := Sweep(a, env, ClearLow, ps[..j]);
    assert Step(mid, env, ClearLow, ps[j]).notes == Resolve(mid.notes, key, env.now);
    StaysKeepsState(Step(mid, env, ClearLow, ps[j]).notes, b.notes, key);
    SweepSkips(b, env, Empty, ps, j, LowStock);
    StaysKeepsState(b.notes, c.notes, key);
    SweepSkips(c, env, Low, ps, j, LowStock);
    StaysKeepsState(c.notes, d.notes, key);
  }

  /**
   * Hysteresis: a product strictly between the threshold and threshold plus
   * buffer keeps its `low_stock` rows exactly as they were, open or resolved.
   */
  lemma BandKeepsLowStock(run: Run, env: Env, ps: seq<Product>, j: nat)
    requires UniqueProductIds(ps) && j < |ps| && ps[j].pharmacy == env.pharmacy
    requires env.threshold < ps[j].quantity < env.threshold + Buffer(env.threshold)
    ensures Stays(run.notes, Pass(run, env, ps).notes, LowKey(env, ps[j]))
  {
    var key := LowKey(env, ps[j]);
    BandIsPositive(env.threshold, ps[j].quantity);
    var a := Sweep(run, env, ClearOut, ps);
    var b := Sweep(a, env, ClearLow, ps);
    var c := Sweep(b, env, Empty, ps);
    SweepSkips(run, env, ClearOut, ps, j, LowStock);
    SweepSkips(a, env, ClearLow, ps, j, LowStock);
    SweepSkips(b, env, Empty, ps, j, LowStock);
    SweepSkips(c, env, Low, ps, j, LowStock);
    StaysTrans(run.notes, a.notes, b.notes, key);
    StaysTrans(run.notes, b.notes, c.notes, key);
    StaysTrans(run.notes, c.notes, Sweep(c, env, Low, ps).notes, key);
  }

  /** Every product of the pharmacy ends a pass settled. */
  lemma PassSettles(run: Run, env: Env, ps: seq<Product>)
    requires UniqueProductIds(ps)
    ensures AllSettled(Pass(run, env, ps).notes, env, ps)
  {
    forall j | 0 <= j < |ps| && ps[j].pharmacy == env.pharmacy
      ensures Settled(Pass(run, env, ps).notes, env, ps[j])
    {
      if ps[j].quantity > 0 {
        StockedOutResolved(run, env, ps, j);
      }
      if ps[j].quantity == 0 {
        EmptyProductSettles(run, env, ps, j);
      }
      if 0 < ps[j].quantity <= env.threshold {
        LowProductSettles(run, env, ps, j);
      }
      if ps[j].quantity >= env.threshold + Buffer(env.threshold) && ps[j].quantity != 0 {
        RecoveredProductSettles(run, env, ps, j);
      }
    }
  }

  /** On a settled product every visit is a no-op: nothing to resolve, nothing to ensure, no mail. */
  lemma SettledStepIdentity(run: Run, env: Env, phase: Phase, pr: Product)
    requires pr.pharmacy == env.pharmacy ==> Settled(run.notes, env, pr)
    ensures Step(run, env, phase, pr) == run
  {
  }

  lemma {:induction false} SettledSweepIdentity(run: Run, env: Env, phase: Phase, ps: seq<Product>)
    requires AllSettled(run.notes, env, ps)
    ensures Sweep(run, env, phase, ps) == run
    decreases |ps|
  {
    if |ps| > 0 {
      SettledStepIdentity(run, env, phase, ps[0]);
      assert forall i :: 0 <= i < |ps[1..]| ==> ps[1..][i] == ps[i + 1];
      SettledSweepIdentity(run, env, phase, ps[1..]);
    }
  }

  /** A second pass right after the first changes nothing and asks for no e-mail. */
  lemma PassIdempotent(run: Run, env: Env, ps: seq<Product>)
    requires UniqueProductIds(ps)
    ensures Pass(Pass(run, env, ps), env, ps) == Pass(run, env, ps)
  {
    var once := Pass(run, env, ps);
    PassSettles(run, env, ps);
    SettledSweepIdentity(once, env, ClearOut, ps);
    SettledSweepIdentity(once, env, ClearLow, ps);
    SettledSweepIdentity(once, env, Empty, ps);
    SettledSweepIdentity(once, env, Low, ps);
  }

  /** The pass of one settings row; a NULL threshold reads as 0. */
  function EnvOf(db: Db, s: Settings, now: int): Env {
    Env(s.pharmacy, s.lowStockThreshold.GetOr(0), db.settings, db.users, now)
  }

  /** The passes of the settings rows, in table order. */
  function Passes(run: Run, db: Db, ss: seq<Settings>, now: int): Run
    decreases |ss|
  {
    if |ss| == 0 then run else Passes(Pass(run, EnvOf(db, ss[0], now), db.products), db, ss[1..], now)
  }

  /**
   * The low-stock job at time `now`: the new notification table and the
   * e-mails it asks for. Nothing but notifications is written.
   */
  function LowStockCheck(db: Db, now: int): (r: (Db, seq<Mail>))
    ensures r.0 == db.(notes := r.0.notes)
  {
    var fin := Passes(Run(db.notes, []), db, db.settings, now);
    (db.(notes := fin.notes), fin.mails)
  }

  /** Each pharmacy has at most one settings row. */
  predicate OneRowPerPharmacy(ss: seq<Settings>) {
    forall i, j :: 0 <= i < j < |ss| ==> ss[i].pharmacy != ss[j].pharmacy
  }

  /** A pharmacy's pass keeps every key of every other pharmacy. */
  lemma PassStays(run: Run, env: Env, ps: seq<Product>, key: Key)
    requires key.pharmacy != env.pharmacy
    ensures Stays(run.notes, Pass(run, env, ps).notes, key)
  {
    var a := Sweep(run, env, ClearOut, ps);
    var b := Sweep(a, env, ClearLow, ps);
    var c := Sweep(b, env, Empty, ps);
    SweepStays(run, env, ClearOut, ps, key);
    SweepStays(a, env, ClearLow, ps, key);
    SweepStays(b, env, Empty, ps, key);
    SweepStays(c, env, Low, ps, key);
    StaysTrans(run.notes, a.notes, b.notes, key);
    StaysTrans(run.notes, b.notes, c.notes, key);
    StaysTrans(run.notes, c.notes, Sweep(c, env, Low, ps).notes, key);
  }

  lemma {:induction false} PassesStay(run: Run, db: Db, ss: seq<Settings>, now: int, key: Key)
    requires forall i :: 0 <= i < |ss| ==> ss[i].pharmacy != key.pharmacy
    ensures Stays(run.notes, Passes(run, db, ss, now).notes, key)
    decreases |ss|
  {
    if |ss| > 0 {
      var next := Pass(run, EnvOf(db, ss[0], now), db.products);
      PassStays(run, EnvOf(db, ss[0], now), db.products, key);
      PassesStay(next, db, ss[1..], now, key);
      StaysTrans(run.notes, next.notes, Passes(next, db, ss[1..], now).notes, key);
    }
  }

  /** Whether a product is settled depends only on its own keys. */
  lemma SettledStays(a: seq<Notification>, b: seq<Notification>, env: Env, pr: Product)
    requires Stays(a, b, OutKey(env, pr)) && Stays(a, b, LowKey(env, pr))
    ensures Settled(b, env, pr) <==> Settled(a, env, pr)
  {
    StaysKeepsState(a, b, OutKey(env, pr));
    StaysKeepsState(a, b, LowKey(env, pr));
  }

  lemma {:induction false} PassesKeepSettled(run: Run, db: Db, ss: seq<Settings>, now: int, env: Env)
    requires forall i :: 0 <= i < |ss| ==> ss[i].pharmacy != env.pharmacy
    requires AllSettled(run.notes, env, db.products)
    ensures AllSettled(Passes(run, db, ss, now).notes, env, db.products)
  {
    var fin := Passes(run, db, ss, now).notes;
    forall j | 0 <= j < |db.products| && db.products[j].pharmacy == env.pharmacy
      ensures Settled(fin, env, db.products[j])
    {
      PassesStay(run, db, ss, now, OutKey(env, db.products[j]));
      PassesStay(run, db, ss, now, LowKey(env, db.products[j]));
      SettledStays(run.notes, fin, env, db.products[j]);
    }
  }

  lemma {:induction false} PassesSettle(run: Run, db: Db, ss: seq<Settings>, now: int, k: nat)
    requires UniqueProductIds(db.products) && OneRowPerPharmacy(ss) && k < |ss|
    ensures AllSettled(Passes(run, db, ss, now).notes, EnvOf(db, ss[k], now), db.products)
    decreases |ss|
  {
    var next := Pass(run, EnvOf(db, ss[0], now), db.products);
    if k == 0 {
      PassSettles(run, EnvOf(db, ss[0], now), db.products);
      PassesKeepSettled(next, db, ss[1..], now, EnvOf(db, ss[0], now));
    } else {
      assert ss[1..][k - 1] == ss[k];
      PassesSettle(next, db, ss[1..], now, k - 1);
    }
  }

  /**
   * After the job, with one settings row per pharmacy, every product of
   * every configured pharmacy is settled: no open `out_of_stock` once it has
   * stock, no open `low_stock` at or above threshold plus buffer or at 0, an
   * open `out_of_stock` at 0 and an open `low_stock` at 0 < quantity <=
   * threshold.
   */
  lemma LowStockCheckSettles(db: Db, now: int, k: nat)
    requires UniqueProductIds(db.products) && OneRowPerPharmacy(db.settings) && k < |db.settings|
    ensures AllSettled(LowStockCheck(db, now).0.notes, EnvOf(db, db.settings[k], now), db.products)
  {
    PassesSettle(Run(db.notes, []), db, db.settings, now, k);
  }

  /** Hysteresis over the whole job: a product in its pharmacy's band keeps its `low_stock` rows. */
  lemma {:induction false} PassesKeepBand(run: Run, db: Db, ss: seq<Settings>, now: int, k: nat, j: nat)
    requires UniqueProductIds(db.products) && OneRowPerPharmacy(ss) && k < |ss| && j < |db.products|
    requires db.products[j].pharmacy == ss[k].pharmacy
    requires var t := ss[k].lowStockThreshold.GetOr(0); t < db.products[j].quantity < t + Buffer(t)
    ensures Stays(run.notes, Passes(run, db, ss, now).notes, LowKey(EnvOf(db, ss[k], now), db.products[j]))
    decreases |ss|
  {
    var key := LowKey(EnvOf(db, ss[k], now), db.products[j]);
    var next := Pass(run, EnvOf(db, ss[0], now), db.products);
    if k == 0 {
      BandKeepsLowStock(run, EnvOf(db, ss[0], now), db.products, j);
      PassesStay(next, db, ss[1..], now, key);
    } else {
      PassStays(run, EnvOf(db, ss[0], now), db.products, key);
      assert ss[1..][k - 1] == ss[k];
      PassesKeepBand(next, db, ss[1..], now, k - 1, j);
    }
    StaysTrans(run.notes, next.notes, Passes(next, db, ss[1..], now).notes, key);
  }

  lemma LowStockCheckKeepsBand(db: Db, now: int, k: nat, j: nat)
    requires UniqueProductIds(db.products) && OneRowPerPharmacy(db.settings) && k < |db.settings| && j < |db.products|
    requires db.products[j].pharmacy == db.settings[k].pharmacy
    requires var t := db.settings[k].lowStockThreshold.GetOr(0); t < db.products[j].quantity < t + Buffer(t)
    ensures Stays(db.notes, LowStockCheck(db, now).0.notes, LowKey(EnvOf(db, db.settings[k], now), db.products[j]))
  {
    PassesKeepBand(Run(db.notes, []), db, db.settings, now, k, j);
  }

  lemma {:induction false} PassesIdentity(run: Run, db: Db, ss: seq<Settings>, now: int)
    requires forall k :: 0 <= k < |ss| ==> AllSettled(run.notes, EnvOf(db, ss[k], now), db.products)
    ensures Passes(run, db, ss, now) == run
    decreases |ss|
  {
    if |ss| > 0 {
      var env := EnvOf(db, ss[0], now);
      SettledSweepIdentity(run, env, ClearOut, db.products);
      SettledSweepIdentity(run, env, ClearLow, db.products);
      SettledSweepIdentity(run, env, Empty, db.products);
      SettledSweepIdentity(run, env, Low, db.products);
      assert forall k :: 0 <= k < |ss[1..]| ==> ss[1..][k] == ss[k + 1];
      PassesIdentity(run, db, ss[1..], now);
    }
  }

  /**
   * Running the job again right away changes no notification and asks for
   * no e-mail: every ensure finds its row open and every resolve finds
   * nothing open.
   */
  lemma LowStockCheckIdempotent(db: Db, now: int, later: int)
    requires UniqueProductIds(db.products) && OneRowPerPharmacy(db.settings)
    ensures var once := LowStockCheck(db, now).0;
      LowStockCheck(once, later) == (once, [])
  {
    var once := LowStockCheck(db, now).0;
    forall k | 0 <= k < |db.settings|
      ensures AllSettled(once.notes, EnvOf(once, once.settings[k], later), once.products)
    {
      LowStockCheckSettles(db, now, k);
      SettledEnvClock(once.notes, EnvOf(db, db.settings[k], now), later, once.products);
    }
    PassesIdentity(Run(once.notes, []), once, once.settings, later);
  }

  /** Being settled does not depend on the clock. */
  lemma SettledEnvClock(ns: seq<Notification>, env: Env, later: int, ps: seq<Product>)
    requires AllSettled(ns, env, ps)
    ensures AllSettled(ns, env.(now := later), ps)
  {
    forall i | 0 <= i < |ps| && ps[i].pharmacy == env.pharmacy ensures Settled(ns, env.(now := later), ps[i]) {
      assert Settled(ns, env, ps[i]);
    }
  }

  /** Every e-mail asked for goes to a verified user of the pharmacy the alert is about. */
  predicate Addressed(ms: seq<Mail>, us: seq<User>) {
    forall m :: m in ms ==> exists u :: u in us && Verified(u, m.key.pharmacy) && u.id == m.user
  }

  lemma {:induction false} SweepAddressed(run: Run, env: Env, phase: Phase, ps: seq<Product>)
    requires Addressed(run.mails, env.users)
    ensures Addressed(Sweep(run, env, phase, ps).mails, env.users)
    decreases |ps|
  {
    if |ps| > 0 {
      var next := Step(run, env, phase, ps[0]);
      assert Addressed(next.mails, env.users) by {
        if Selects(env, phase, ps[0]) && (phase == Empty || phase == Low) {
          forall m | m in next.mails ensures exists u :: u in env.users && Verified(u, m.key.pharmacy) && u.id == m.user {
            if m !in run.mails {
              assert m in MailsFor(env.users, OutKey(env, ps[0])) || m in MailsFor(env.users, LowKey(env, ps[0]));
            }
          }
        }
      }
      SweepAddressed(next, env, phase, ps[1..]);
    }
  }

  lemma {:induction false} PassesAddressed(run: Run, db: Db, ss: seq<Settings>, now: int)
    requires Addressed(run.mails, db.users)
    ensures Addressed(Passes(run, db, ss, now).mails, db.users)
    decreases |ss|
  {
    if |ss| > 0 {
      var env := EnvOf(db, ss[0], now);
      var a := Sweep(run, env, ClearOut, db.products);
      var b := Sweep(a, env, ClearLow, db.products);
      var c := Sweep(b, env, Empty, db.products);
      SweepAddressed(run, env, ClearOut, db.products);
      SweepAddressed(a, env, ClearLow, db.products);
      SweepAddressed(b, env, Empty, db.products);
      SweepAddressed(c, env, Low, db.products);
      PassesAddressed(Pass(run, env, db.products), db, ss[1..], now);
    }
  }

  /** The job only ever mails verified users, and only of the pharmacy the alert belongs to. */
  lemma LowStockCheckMailsVerified(db: Db, now: int)
    ensures Addressed(LowStockCheck(db, now).1, db.users)
  {
    PassesAddressed(Run(db.notes, []), db, db.settings, now);
  }
}
