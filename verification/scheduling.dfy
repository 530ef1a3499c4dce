/**
 * The staff-scheduling rules: day-off requests and their status changes,
 * shifts, rotation templates with their weekly slots, and rotation
 * assignments. Each handler returns the new roster and the inserted row's
 * id, or the rejection it answers with; a rejection changes nothing. The one
 * exception, which the model does not represent, is a null entry among a
 * rotation template's slots: the handler fails with a 500 after the template
 * row was inserted, outside any transaction, so that row stays.
 *
 * Request ids are JavaScript values tested for truthiness: 0 stands for a
 * missing or falsy id, and a stored user's pharmacy 0 for NULL.
 */
module Scheduling {
  import opened Base
  import opened Text
  import opened Records
  import opened TimeRanges

  datatype Pharmacy = Pharmacy(id: nat, admin: nat)

  /** A scheduling request refused: the HTTP status and why. */
  datatype Refusal = Refusal(status: nat, why: Why)

  datatype Why =
    | MissingField
    | StartAfterEnd
    | UserNotFound
    | PharmacyRequired
    | Overlap
    | UnknownStatus
    | DayOffNotFound
    | NotOwner
    | StaffMayOnlyCancel
    | NotPending
    | NotYourPharmacy
    | DuplicateName
    | TemplateNotFound

  /** Who is asking: a staff account, the admin of some pharmacies, or any other admin. */
  datatype CallerKind = Staff | PharmacyAdmin | OtherAdmin
  datatype Caller = Caller(id: nat, kind: CallerKind)

  datatype DayOffStatus = Pending | Approved | Rejected | Cancelled

  datatype DayOff = DayOff(
    id: nat,
    user: nat,
    pharmacy: nat,
    start: string,
    end: string,
    startHalf: Half,
    endHalf: Half,
    reason: Option<string>,
    status: DayOffStatus)

  /** A shift; its label, location and notes are carried through unread and not modelled. */
  datatype Shift = Shift(id: nat, user: nat, pharmacy: nat, start: int, end: int, createdBy: nat)

  datatype Template = Template(id: nat, pharmacy: nat, name: string, description: Option<string>, active: bool)

  /** A slot as the request sends it; `None` is a missing value or one of the wrong type. */
  datatype SlotInput = SlotInput(dow: Option<int>, start: Option<string>, end: Option<string>, caption: Option<string>)

  /** A stored weekly slot of a template. */
  datatype Slot = Slot(template: nat, dow: int, start: string, end: string, caption: Option<string>)

  /** A user following a template from `from` to `to`; a NULL `to` is open-ended. */
  datatype Assignment = Assignment(id: nat, user: nat, pharmacy: nat, template: nat, from: string, to: Option<string>)

  /** The scheduling tables with their auto-increment counters. */
  datatype Roster = Roster(
    users: seq<User>,
    pharmacies: seq<Pharmacy>,
    daysOff: seq<DayOff>,
    shifts: seq<Shift>,
    templates: seq<Template>,
    slots: seq<Slot>,
    assignments: seq<Assignment>,
    nextDayOff: nat,
    nextShift: nat,
    nextTemplate: nat,
    nextAssignment: nat)

  /** A truthy string: present and not empty. */
  predicate Present(x: Option<string>) {
    x.Some? && x.value != ""
  }

  /** The user row with this id, if any. */
  function FindUser(us: seq<User>, id: nat): (r: Option<User>)
    ensures r.Some? ==> r.value in us && r.value.id == id
    ensures r.None? ==> forall u :: u in us ==> u.id != id
  {
    if |us| == 0 then None
    else if us[0].id == id then Some(us[0])
    else FindUser(us[1..], id)
  }

  /** The caller administers the pharmacy. */
  predicate Administers(r: Roster, caller: nat, pharmacy: nat) {
    exists i :: 0 <= i < |r.pharmacies| && r.pharmacies[i].id == pharmacy && r.pharmacies[i].admin == caller
  }

  // ---------------------------------------------------------------- days off

  /** Pending and approved requests hold their days; rejected and cancelled ones release them. */
  predicate Holds(s: DayOffStatus) {
    s == Pending || s == Approved
  }

  /** A request of the user that holds days sharing a day with [start, end]. */
  predicate Clashes(d: DayOff, user: nat, start: string, end: string) {
    d.user == user && Holds(d.status) && DatesOverlap(d.start, d.end, start, end)
  }

  predicate AnyClash(ds: seq<DayOff>, user: nat, start: string, end: string) {
    exists i :: 0 <= i < |ds| && Clashes(ds[i], user, start, end)
  }

  /** No user holds two requests that share a day. */
  predicate HeldApart(ds: seq<DayOff>) {
    forall i, j :: 0 <= i < j < |ds| && ds[i].user == ds[j].user && Holds(ds[i].status) && Holds(ds[j].status)
      ==> !DatesOverlap(ds[i].start, ds[i].end, ds[j].start, ds[j].end)
  }

  /**
   * Whose request it is and for which pharmacy: an admin may name the user,
   * staff always ask for themselves and their own pharmacy, and a missing
   * pharmacy is taken from the user's row.
   */
  function DayOffTarget(r: Roster, caller: Caller, userId: nat, pharmacyId: nat): (t: Result<(nat, nat), Refusal>)
    ensures t.Ok? ==> t.value.1 != 0 && FindUser(r.users, t.value.0).Some?
    ensures t.Ok? && caller.kind == Staff ==> t.value.0 == caller.id && t.value.1 == FindUser(r.users, caller.id).value.pharmacy
    ensures t.Ok? && caller.kind != Staff ==> t.value.0 == (if userId != 0 then userId else caller.id)
  {
    var user := if caller.kind != Staff && userId != 0 then userId else caller.id;
    var own := FindUser(r.users, caller.id);
    if caller.kind == Staff && own.None? then Err(Refusal(404, UserNotFound))
    else
      var pharmacy := if caller.kind == Staff then own.value.pharmacy else pharmacyId;
      var row := FindUser(r.users, user);
      if row.None? then Err(Refusal(404, UserNotFound))
      else
        var pharmacy' := if pharmacy == 0 then row.value.pharmacy else pharmacy;
        if pharmacy' == 0 then Err(Refusal(400, PharmacyRequired))
        else Ok((user, pharmacy'))
  }

  /**
   * `createDayOff`: both dates required and in order, halves defaulting to
   * FULL, no pending or approved request of the same user sharing a day;
   * the new request is appended as PENDING.
   */
  function CreateDayOff(r: Roster, caller: Caller, userId: nat, pharmacyId: nat,
                        start: Option<string>, end: Option<string>,
                        startHalf: Option<string>, endHalf: Option<string>,
                        reason: Option<string>): (res: Result<(Roster, nat), Refusal>)
    ensures !Present(start) || !Present(end) ==> res == Err(Refusal(400, MissingField))
    ensures res.Err? ==> res.error.status in {400, 404, 409}
    ensures res.Ok? ==>
      var (r', id) := res.value;
      && LessEq(start.value, end.value)
      && DayOffTarget(r, caller, userId, pharmacyId).Ok?
      && var (user, pharmacy) := DayOffTarget(r, caller, userId, pharmacyId).value;
      && !AnyClash(r.daysOff, user, start.value, end.value)
      && r' == r.(daysOff := r'.daysOff, nextDayOff := r.nextDayOff + 1)
      && r'.daysOff == r.daysOff + [DayOff(id, user, pharmacy, start.value, end.value,
                                           HalfOr(startHalf), HalfOr(endHalf), reason, Pending)]
    ensures Present(start) && Present(end) && LessEq(start.value, end.value)
         && DayOffTarget(r, caller, userId, pharmacyId).Ok?
         ==> (res.Ok? <==> !AnyClash(r.daysOff, DayOffTarget(r, caller, userId, pharmacyId).value.0, start.value, end.value))
  {
    if !Present(start) || !Present(end) then Err(Refusal(400, MissingField))
    else
      NotLessIsLessEq(end.value, start.value);
      if Less(end.value, start.value) then Err(Refusal(400, StartAfterEnd))
      else match DayOffTarget(r, caller, userId, pharmacyId)
      case Err(e) => Err(e)
      case Ok((user, pharmacy)) =>
        if AnyClash(r.daysOff, user, start.value, end.value) then Err(Refusal(409, Overlap))
        else
          var row := DayOff(r.nextDayOff, user, pharmacy, start.value, end.value,
                            HalfOr(startHalf), HalfOr(endHalf), reason, Pending);
          Ok((r.(daysOff := r.daysOff + [row], nextDayOff := r.nextDayOff + 1), r.nextDayOff))
  }

  /** Creating a request never leaves a user holding two requests that share a day. */
  lemma CreateDayOffKeepsApart(r: Roster, caller: Caller, userId: nat, pharmacyId: nat,
                               start: Option<string>, end: Option<string>,
                               startHalf: Option<string>, endHalf: Option<string>, reason: Option<string>)
    requires HeldApart(r.daysOff)
    requires CreateDayOff(r, caller, userId, pharmacyId, start, end, startHalf, endHalf, reason).Ok?
    ensures HeldApart(CreateDayOff(r, caller, userId, pharmacyId, start, end, startHalf, endHalf, reason).value.0.daysOff)
  {
    var ds := CreateDayOff(r, caller, userId, pharmacyId, start, end, startHalf, endHalf, reason).value.0.daysOff;
    var n := |r.daysOff|;
    forall i, j | 0 <= i < j < |ds| && ds[i].user == ds[j].user && Holds(ds[i].status) && Holds(ds[j].status)
      ensures !DatesOverlap(ds[i].start, ds[i].end, ds[j].start, ds[j].end)
    {
      if j == n {
        assert ds[i] == r.daysOff[i];
        assert !Clashes(r.daysOff[i], ds[j].user, ds[j].start, ds[j].end);
      } else {
        assert ds[i] == r.daysOff[i] && ds[j] == r.daysOff[j];
      }
    }
  }

  function StatusText(s: DayOffStatus): string {
    match s
    case Pending => "PENDING"
    case Approved => "APPROVED"
    case Rejected => "REJECTED"
    case Cancelled => "CANCELLED"
  }

  /** The status a change may ask for: APPROVED, REJECTED or CANCELLED; never PENDING. */
  function TargetStatus(x: Option<string>): (s: Option<DayOffStatus>)
    ensures s.Some? <==> x.Some? && x.value in {"APPROVED", "REJECTED", "CANCELLED"}
    ensures s.Some? ==> s.value != Pending && x == Some(StatusText(s.value))
  {
    if x == Some("APPROVED") then Some(Approved)
    else if x == Some("REJECTED") then Some(Rejected)
    else if x == Some("CANCELLED") then Some(Cancelled)
    else None
  }

  /** The request with this id whose user still exists. */
  function FindDayOff(r: Roster, id: nat): (d: Option<DayOff>)
    ensures d.Some? ==> d.value in r.daysOff && d.value.id == id && FindUser(r.users, d.value.user).Some?
    ensures d.None? ==> forall k :: 0 <= k < |r.daysOff| && r.daysOff[k].id == id ==> FindUser(r.users, r.daysOff[k].user).None?
  {
    FindDayOffFrom(r.daysOff, r.users, id)
  }

  function FindDayOffFrom(ds: seq<DayOff>, us: seq<User>, id: nat): (d: Option<DayOff>)
    ensures d.Some? ==> d.value in ds && d.value.id == id && FindUser(us, d.value.user).Some?
    ensures d.None? ==> forall k :: 0 <= k < |ds| && ds[k].id == id ==> FindUser(us, ds[k].user).None?
  {
    if |ds| == 0 then None
    else if ds[0].id == id && FindUser(us, ds[0].user).Some? then Some(ds[0])
    else
      var rest := FindDayOffFrom(ds[1..], us, id);
      assert forall k :: 1 <= k < |ds| ==> ds[k] == ds[1..][k - 1];
      rest
  }

  /** The new status, and the new reason when one is given; rows with other ids untouched. */
  function SetStatus(ds: seq<DayOff>, id: nat, s: DayOffStatus, reason: Option<string>): (r: seq<DayOff>)
    ensures |r| == |ds|
    ensures forall k :: 0 <= k < |ds| ==>
      r[k] == if ds[k].id == id then ds[k].(status := s, reason := if reason.Some? then reason else ds[k].reason) else ds[k]
  {
    seq(|ds|, k requires 0 <= k < |ds| =>
      if ds[k].id == id then ds[k].(status := s, reason := if reason.Some? then reason else ds[k].reason) else ds[k])
  }

  /**
   * `updateDayOffStatus`: the target status must be APPROVED, REJECTED or
   * CANCELLED and the request must exist. Staff may only cancel their own
   * pending request; a pharmacy admin may decide requests of pharmacies
   * they administer; other admins may set any of the three from any status.
   */
  function UpdateDayOffStatus(r: Roster, caller: Caller, id: nat, status: Option<string>, reason: Option<string>): (res: Result<Roster, Refusal>)
    ensures res.Ok? ==> TargetStatus(status).Some? && FindDayOff(r, id).Some?
    ensures res.Ok? ==> res.value == r.(daysOff := SetStatus(r.daysOff, id, TargetStatus(status).value, reason))
    ensures caller.kind == Staff ==>
      (res.Ok? <==> && FindDayOff(r, id).Some? && FindDayOff(r, id).value.user == caller.id
                    && FindDayOff(r, id).value.status == Pending && status == Some("CANCELLED"))
    ensures caller.kind == PharmacyAdmin ==>
      (res.Ok? <==> TargetStatus(status).Some? && FindDayOff(r, id).Some? && Administers(r, caller.id, FindDayOff(r, id).value.pharmacy))
    ensures caller.kind == OtherAdmin ==> (res.Ok? <==> TargetStatus(status).Some? && FindDayOff(r, id).Some?)
    ensures TargetStatus(status).None? ==> res == Err(Refusal(400, UnknownStatus))
  {
    match TargetStatus(status)
    case None => Err(Refusal(400, UnknownStatus))
    case Some(target) =>
      match FindDayOff(r, id)
      case None => Err(Refusal(404, DayOffNotFound))
      case Some(d) =>
        if caller.kind == Staff && d.user != caller.id then Err(Refusal(403, NotOwner))
        else if caller.kind == Staff && target != Cancelled then Err(Refusal(403, StaffMayOnlyCancel))
        else if caller.kind == Staff && d.status != Pending then Err(Refusal(400, NotPending))
        else if caller.kind == PharmacyAdmin && !Administers(r, caller.id, d.pharmacy) then Err(Refusal(403, NotYourPharmacy))
        else Ok(r.(daysOff := SetStatus(r.daysOff, id, target, reason)))
  }

  /** The only change staff can make: a pending request of their own becomes cancelled. */
  lemma StaffOnlyCancelPending(r: Roster, caller: Caller, id: nat, status: Option<string>, reason: Option<string>, k: nat)
    requires caller.kind == Staff
    requires UpdateDayOffStatus(r, caller, id, status, reason).Ok?
    requires k < |r.daysOff| && r.daysOff[k].id == id && FindUser(r.users, r.daysOff[k].user).Some?
    requires UniqueDayOffIds(r.daysOff)
    ensures r.daysOff[k].user == caller.id && r.daysOff[k].status == Pending
    ensures UpdateDayOffStatus(r, caller, id, status, reason).value.daysOff[k].status == Cancelled
  {
    var d := FindDayOff(r, id).value;
    var j :| 0 <= j < |r.daysOff| && r.daysOff[j] == d;
    assert j == k;
  }

  predicate UniqueDayOffIds(ds: seq<DayOff>) {
    forall i, j :: 0 <= i < j < |ds| ==> ds[i].id != ds[j].id
  }

  /**
   * A status change keeps requests apart unless it approves a request that
   * held no days: moving a holding request between PENDING and APPROVED,
   * or releasing it, adds no held days.
   */
  lemma StatusChangeKeepsApart(r: Roster, caller: Caller, id: nat, status: Option<string>, reason: Option<string>)
    requires HeldApart(r.daysOff) && UniqueDayOffIds(r.daysOff)
    requires UpdateDayOffStatus(r, caller, id, status, reason).Ok?
    requires status != Some("APPROVED") || Holds(FindDayOff(r, id).value.status)
    ensures HeldApart(UpdateDayOffStatus(r, caller, id, status, reason).value.daysOff)
  {
    var target := TargetStatus(status).value;
    var ds := UpdateDayOffStatus(r, caller, id, status, reason).value.daysOff;
    var d := FindDayOff(r, id).value;
    var m :| 0 <= m < |r.daysOff| && r.daysOff[m] == d;
    forall k | 0 <= k < |ds| && Holds(ds[k].status)
      ensures Holds(r.daysOff[k].status)
      ensures ds[k].user == r.daysOff[k].user && ds[k].start == r.daysOff[k].start && ds[k].end == r.daysOff[k].end
    {
      if r.daysOff[k].id == id {
        assert k == m;
      }
    }
  }

  /** One user holding an approved request over 2024-2025 and a rejected one inside it. */
  function TwoRequests(): Roster {
    var held := DayOff(1, 5, 2, "2024-01-01", "2026-01-01", Full, Full, None, Approved);
    var released := DayOff(2, 5, 2, "2025-01-01", "2025-02-01", Full, Full, None, Rejected);
    Roster([User(5, 2, true)], [], [held, released], [], [], [], [], 3, 1, 1, 1)
  }

  /** The two requests' date ranges share a day. */
  lemma TwoRequestsOverlap()
    ensures DatesOverlap("2024-01-01", "2026-01-01", "2025-01-01", "2025-02-01")
  {
    FirstDifference("2026-01-01", "2025-01-01", 3);
    FirstDifference("2025-02-01", "2024-01-01", 3);
  }

  /** Two requests with different ids, the second holding no days, are apart. */
  lemma PairApart(ds: seq<DayOff>)
    requires |ds| == 2 && ds[0].id != ds[1].id && !Holds(ds[1].status)
    ensures HeldApart(ds) && UniqueDayOffIds(ds)
  {
    forall i, j | 0 <= i < j < |ds| ensures ds[i].id != ds[j].id && !Holds(ds[j].status) {
      assert i == 0 && j == 1;
    }
  }

  /**
   * Approval does not look at overlaps: approving a request of a user who
   * already holds another request sharing a day with it succeeds, and
   * afterwards the user holds both.
   */
  lemma ApprovalIgnoresOverlap(r: Roster, admin: nat, reason: Option<string>, i: nat, j: nat)
    requires i < j < |r.daysOff| && UniqueDayOffIds(r.daysOff)
    requires FindUser(r.users, r.daysOff[j].user).Some?
    requires r.daysOff[i].user == r.daysOff[j].user && Holds(r.daysOff[i].status)
    requires DatesOverlap(r.daysOff[i].start, r.daysOff[i].end, r.daysOff[j].start, r.daysOff[j].end)
    ensures var res := UpdateDayOffStatus(r, Caller(admin, OtherAdmin), r.daysOff[j].id, Some("APPROVED"), reason);
      res.Ok? && !HeldApart(res.value.daysOff)
  {
    var id := r.daysOff[j].id;
    assert FindDayOff(r, id).Some?;
    var ds := SetStatus(r.daysOff, id, Approved, reason);
    assert ds[i] == r.daysOff[i];
    assert ds[j].status == Approved && ds[j].start == r.daysOff[j].start && ds[j].end == r.daysOff[j].end;
  }

  /**
   * An admin may approve a rejected request without the overlap check, so
   * a user can end up holding two requests that share a day.
   */
  lemma ApprovalCanBreakApart()
    ensures HeldApart(TwoRequests().daysOff) && UniqueDayOffIds(TwoRequests().daysOff)
    ensures UpdateDayOffStatus(TwoRequests(), Caller(9, OtherAdmin), 2, Some("APPROVED"), None).Ok?
    ensures !HeldApart(UpdateDayOffStatus(TwoRequests(), Caller(9, OtherAdmin), 2, Some("APPROVED"), None).value.daysOff)
  {
    var r := TwoRequests();
    PairApart(r.daysOff);
    TwoRequestsOverlap();
    assert FindUser(r.users, 5) == Some(User(5, 2, true));
    ApprovalIgnoresOverlap(r, 9, None, 0, 1);
  }

  // ---------------------------------------------------------------- shifts

  /** No user has two shifts whose half-open spans overlap. */
  predicate ShiftsApart(ss: seq<Shift>) {
    forall i, j :: 0 <= i < j < |ss| && ss[i].user == ss[j].user
      ==> !TimesOverlap(ss[i].start, ss[i].end, ss[j].start, ss[j].end)
  }

  predicate AnyShiftClash(ss: seq<Shift>, user: nat, start: int, end: int) {
    exists i :: 0 <= i < |ss| && ss[i].user == user && TimesOverlap(ss[i].start, ss[i].end, start, end)
  }

  /**
   * Whose shift it is and for which pharmacy: staff book for themselves and
   * their own pharmacy; an admin names both, and a missing pharmacy is taken
   * from the named user's row when that row exists.
   */
  function ShiftTarget(r: Roster, caller: Caller, userId: nat, pharmacyId: nat): (t: Result<(nat, nat), Refusal>)
    ensures t.Ok? ==> t.value.0 != 0 && t.value.1 != 0
    ensures t.Ok? && caller.kind == Staff ==> t.value.0 == caller.id && FindUser(r.users, caller.id).Some?
    ensures t.Ok? && caller.kind != Staff ==> t.value.0 == userId
  {
    var own := FindUser(r.users, caller.id);
    if caller.kind == Staff && own.None? then Err(Refusal(404, UserNotFound))
    else
      var user := if caller.kind == Staff then caller.id else userId;
      var pharmacy := if caller.kind == Staff then own.value.pharmacy else pharmacyId;
      var named := FindUser(r.users, user);
      var pharmacy' := if pharmacy == 0 && user != 0 && named.Some? then named.value.pharmacy else pharmacy;
      if user == 0 || pharmacy' == 0 then Err(Refusal(400, MissingField))
      else Ok((user, pharmacy'))
  }

  /**
   * `createShift`: both date-times required, start strictly before end, and
   * no shift of the same user overlapping the half-open span; the caller is
   * recorded as its creator.
   */
  function CreateShift(r: Roster, caller: Caller, userId: nat, pharmacyId: nat,
                       start: Option<Stamp>, end: Option<Stamp>): (res: Result<(Roster, nat), Refusal>)
    ensures start.None? || end.None? ==> res == Err(Refusal(400, MissingField))
    ensures res.Err? ==> res.error.status in {400, 404, 409}
    ensures res.Ok? ==>
      var (r', id) := res.value;
      && DateTimeOrderValid(start, end)
      && ShiftTarget(r, caller, userId, pharmacyId).Ok?
      && var (user, pharmacy) := ShiftTarget(r, caller, userId, pharmacyId).value;
      && !AnyShiftClash(r.shifts, user, start.value.at, end.value.at)
      && r' == r.(shifts := r'.shifts, nextShift := r.nextShift + 1)
      && r'.shifts == r.shifts + [Shift(id, user, pharmacy, start.value.at, end.value.at, caller.id)]
    ensures DateTimeOrderValid(start, end) && ShiftTarget(r, caller, userId, pharmacyId).Ok?
         ==> (res.Ok? <==> !AnyShiftClash(r.shifts, ShiftTarget(r, caller, userId, pharmacyId).value.0, start.value.at, end.value.at))
  {
    if start.None? || end.None? then Err(Refusal(400, MissingField))
    else if !DateTimeOrderValid(start, end) then Err(Refusal(400, StartAfterEnd))
    else
      match ShiftTarget(r, caller, userId, pharmacyId)
      case Err(e) => Err(e)
      case Ok((user, pharmacy)) =>
        if AnyShiftClash(r.shifts, user, start.value.at, end.value.at) then Err(Refusal(409, Overlap))
        else
          var row := Shift(r.nextShift, user, pharmacy, start.value.at, end.value.at, caller.id);
          Ok((r.(shifts := r.shifts + [row], nextShift := r.nextShift + 1), r.nextShift))
  }

  /** Booking a shift never gives a user two overlapping shifts, and every stored shift stays non-empty. */
  lemma CreateShiftKeepsApart(r: Roster, caller: Caller, userId: nat, pharmacyId: nat, start: Option<Stamp>, end: Option<Stamp>)
    requires ShiftsApart(r.shifts)
    requires CreateShift(r, caller, userId, pharmacyId, start, end).Ok?
    ensures ShiftsApart(CreateShift(r, caller, userId, pharmacyId, start, end).value.0.shifts)
  {
    var ss := CreateShift(r, caller, userId, pharmacyId, start, end).value.0.shifts;
    var n := |r.shifts|;
    forall i, j | 0 <= i < j < |ss| && ss[i].user == ss[j].user
      ensures !TimesOverlap(ss[i].start, ss[i].end, ss[j].start, ss[j].end)
    {
      assert ss[i] == r.shifts[i];
      if j < n {
        assert ss[j] == r.shifts[j];
      }
    }
  }

  // ---------------------------------------------------------------- rotation templates

  /** A slot the template keeps: a day of the week and two valid times, start before end as strings. */
  predicate SlotOk(s: SlotInput) {
    ValidDayOfWeek(s.dow) && ValidTime(s.start) && ValidTime(s.end) && TimeOrderAsWritten(s.start, s.end)
  }

  /** The same filter with the times compared as times of day. */
  predicate SlotOkIntended(s: SlotInput) {
    ValidDayOfWeek(s.dow) && TimeOrderIntended(s.start, s.end)
  }

  function SlotOf(template: nat, s: SlotInput): Slot
    requires s.dow.Some? && s.start.Some? && s.end.Some?
  {
    Slot(template, s.dow.value, s.start.value, s.end.value, s.caption)
  }

  /** The stored slots: the acceptable inputs in request order; the rest are dropped without an error. */
  function KeepSlots(template: nat, ins: seq<SlotInput>): (r: seq<Slot>)
    ensures |r| <= |ins|
    ensures forall i :: 0 <= i < |ins| && SlotOk(ins[i]) ==> SlotOf(template, ins[i]) in r
    ensures forall s :: s in r ==> exists i :: 0 <= i < |ins| && SlotOk(ins[i]) && s == SlotOf(template, ins[i])
    decreases |ins|
  {
    if |ins| == 0 then []
    else
      var rest := KeepSlots(template, ins[1..]);
      assert forall i :: 1 <= i < |ins| ==> ins[i] == ins[1..][i - 1];
      assert forall i :: 0 <= i < |ins[1..]| ==> ins[1..][i] == ins[i + 1];
      if SlotOk(ins[0]) then [SlotOf(template, ins[0])] + rest else rest
  }

  /**
   * Every stored slot has a day of the week from 0 to 6 and its start before
   * its end in string order, two valid times.
   */
  lemma KeptSlotsValid(template: nat, ins: seq<SlotInput>)
    ensures forall s :: s in KeepSlots(template, ins) ==>
      && ValidDayOfWeek(Some(s.dow)) && 0 <= s.dow <= 6
      && TimeOrderAsWritten(Some(s.start), Some(s.end))
      && s.template == template
  {
    forall s | s in KeepSlots(template, ins)
      ensures ValidDayOfWeek(Some(s.dow)) && TimeOrderAsWritten(Some(s.start), Some(s.end)) && s.template == template
    {
      var i :| 0 <= i < |ins| && SlotOk(ins[i]) && s == SlotOf(template, ins[i]);
    }
  }

  /** The slot filter the time check evidently means. */
  function KeepSlotsIntended(template: nat, ins: seq<SlotInput>): (r: seq<Slot>)
    ensures |r| <= |ins|
    ensures forall i :: 0 <= i < |ins| && SlotOkIntended(ins[i]) ==> SlotOf(template, ins[i]) in r
    ensures forall s :: s in r ==> exists i :: 0 <= i < |ins| && SlotOkIntended(ins[i]) && s == SlotOf(template, ins[i])
    decreases |ins|
  {
    if |ins| == 0 then []
    else
      var rest := KeepSlotsIntended(template, ins[1..]);
      assert forall i :: 1 <= i < |ins| ==> ins[i] == ins[1..][i - 1];
      assert forall i :: 0 <= i < |ins[1..]| ==> ins[1..][i] == ins[i + 1];
      if SlotOkIntended(ins[0]) then [SlotOf(template, ins[0])] + rest else rest
  }

  /** The filter works slot by slot: filtering a concatenation concatenates the filtered parts. */
  lemma {:induction false} KeepSlotsAppend(template: nat, a: seq<SlotInput>, b: seq<SlotInput>)
    ensures KeepSlots(template, a + b) == KeepSlots(template, a) + KeepSlots(template, b)
    decreases |a|
  {
    if |a| > 0 {
      assert (a + b)[0] == a[0] && (a + b)[1..] == a[1..] + b;
      KeepSlotsAppend(template, a[1..], b);
    } else {
      assert a + b == b;
    }
  }

  /** A slot with zero-padded hours on both ends. */
  predicate Padded(s: SlotInput) {
    s.start.Some? && s.end.Some? && |s.start.value| == 8 && |s.end.value| == 8
  }

  /** When every slot writes its hours with two digits, the filter as written keeps exactly the intended slots. */
  lemma {:induction false} PaddedSlotsAgree(template: nat, ins: seq<SlotInput>)
    requires forall i :: 0 <= i < |ins| ==> Padded(ins[i])
    ensures KeepSlots(template, ins) == KeepSlotsIntended(template, ins)
    decreases |ins|
  {
    if |ins| > 0 {
      var s := ins[0];
      if ValidTime(s.start) && ValidTime(s.end) {
        PaddedOrderAgrees(s.start.value, s.end.value);
      }
      assert forall i :: 0 <= i < |ins[1..]| ==> ins[1..][i] == ins[i + 1];
      PaddedSlotsAgree(template, ins[1..]);
    }
  }

  predicate NameTaken(ts: seq<Template>, pharmacy: nat, name: string) {
    exists i :: 0 <= i < |ts| && ts[i].pharmacy == pharmacy && ts[i].name == name
  }

  /**
   * `createRotationTemplate`: a pharmacy and a name are required, a pharmacy
   * admin must administer the pharmacy, names are unique per pharmacy; the
   * template is stored active with the acceptable slots. Every slot entry is
   * taken to be an object: a null entry, which the handler answers with a 500
   * after inserting the template row, has no counterpart here.
   */
  function CreateRotationTemplate(r: Roster, caller: Caller, pharmacyId: nat, name: Option<string>,
                                  description: Option<string>, slots: Option<seq<SlotInput>>): (res: Result<(Roster, nat), Refusal>)
    ensures pharmacyId == 0 || !Present(name) ==> res == Err(Refusal(400, MissingField))
    ensures res.Err? ==> res.error.status in {400, 403, 409}
    ensures res.Ok? ==>
      var (r', id) := res.value;
      && (caller.kind == PharmacyAdmin ==> Administers(r, caller.id, pharmacyId))
      && !NameTaken(r.templates, pharmacyId, name.value)
      && r' == r.(templates := r'.templates, slots := r'.slots, nextTemplate := r.nextTemplate + 1)
      && r'.templates == r.templates + [Template(id, pharmacyId, name.value, description, true)]
      && r'.slots == r.slots + KeepSlots(id, slots.GetOr([]))
    ensures pharmacyId != 0 && Present(name) && (caller.kind == PharmacyAdmin ==> Administers(r, caller.id, pharmacyId))
         ==> (res.Ok? <==> !NameTaken(r.templates, pharmacyId, name.value))
  {
    if pharmacyId == 0 || !Present(name) then Err(Refusal(400, MissingField))
    else if caller.kind == PharmacyAdmin && !Administers(r, caller.id, pharmacyId) then Err(Refusal(403, NotYourPharmacy))
    else if NameTaken(r.templates, pharmacyId, name.value) then Err(Refusal(409, DuplicateName))
    else
      var id := r.nextTemplate;
      Ok((r.(templates := r.templates + [Template(id, pharmacyId, name.value, description, true)],
             slots := r.slots + KeepSlots(id, slots.GetOr([])),
             nextTemplate := id + 1), id))
  }

  // ---------------------------------------------------------------- rotation assignments

  /** `2999-12-31`, the end the overlap check gives an open-ended assignment. */
  const FarFuture: string := "2999-12-31"

  /** The last day an assignment covers. */
  function LastDay(to: Option<string>): string {
    if to.Some? then to.value else FarFuture
  }

  predicate AssignmentClash(a: Assignment, user: nat, from: string, to: string) {
    a.user == user && DatesOverlap(a.from, LastDay(a.to), from, to)
  }

  predicate AnyAssignmentClash(rows: seq<Assignment>, user: nat, from: string, to: string) {
    exists i :: 0 <= i < |rows| && AssignmentClash(rows[i], user, from, to)
  }

  /** No user follows two rotations over a shared day. */
  predicate AssignmentsApart(rows: seq<Assignment>) {
    forall i, j :: 0 <= i < j < |rows| && rows[i].user == rows[j].user
      ==> !DatesOverlap(rows[i].from, LastDay(rows[i].to), rows[j].from, LastDay(rows[j].to))
  }

  predicate UserInPharmacy(r: Roster, user: nat, pharmacy: nat) {
    exists i :: 0 <= i < |r.users| && r.users[i].id == user && r.users[i].pharmacy == pharmacy
  }

  predicate ActiveTemplate(r: Roster, template: nat, pharmacy: nat) {
    exists i :: 0 <= i < |r.templates| && r.templates[i].id == template && r.templates[i].pharmacy == pharmacy && r.templates[i].active
  }

  /**
   * `createRotationAssignment`: user, pharmacy, template and start required;
   * a pharmacy admin must administer the pharmacy; the user must belong to
   * it and the template must be its and active; no assignment of the user
   * may share a day with the new one, a missing end counting as 2999-12-31.
   */
  function CreateRotationAssignment(r: Roster, caller: Caller, userId: nat, pharmacyId: nat, templateId: nat,
                                    from: Option<string>, to: Option<string>): (res: Result<(Roster, nat), Refusal>)
    ensures userId == 0 || pharmacyId == 0 || templateId == 0 || !Present(from) ==> res == Err(Refusal(400, MissingField))
    ensures res.Err? ==> res.error.status in {400, 403, 404, 409}
    ensures res.Ok? ==>
      var (r', id) := res.value;
      var to' := if Present(to) then to else None;
      && (caller.kind == PharmacyAdmin ==> Administers(r, caller.id, pharmacyId))
      && UserInPharmacy(r, userId, pharmacyId) && ActiveTemplate(r, templateId, pharmacyId)
      && !AnyAssignmentClash(r.assignments, userId, from.value, LastDay(to'))
      && r' == r.(assignments := r'.assignments, nextAssignment := r.nextAssignment + 1)
      && r'.assignments == r.assignments + [Assignment(id, userId, pharmacyId, templateId, from.value, to')]
    ensures && userId != 0 && pharmacyId != 0 && templateId != 0 && Present(from)
            && (caller.kind == PharmacyAdmin ==> Administers(r, caller.id, pharmacyId))
            && UserInPharmacy(r, userId, pharmacyId) && ActiveTemplate(r, templateId, pharmacyId)
         ==> (res.Ok? <==> !AnyAssignmentClash(r.assignments, userId, from.value, LastDay(if Present(to) then to else None)))
  {
    if userId == 0 || pharmacyId == 0 || templateId == 0 || !Present(from) then Err(Refusal(400, MissingField))
    else if caller.kind == PharmacyAdmin && !Administers(r, caller.id, pharmacyId) then Err(Refusal(403, NotYourPharmacy))
    else if !UserInPharmacy(r, userId, pharmacyId) then Err(Refusal(404, UserNotFound))
    else if !ActiveTemplate(r, templateId, pharmacyId) then Err(Refusal(404, TemplateNotFound))
    else
      var to' := if Present(to) then to else None;
      if AnyAssignmentClash(r.assignments, userId, from.value, LastDay(to')) then Err(Refusal(409, Overlap))
      else
        var id := r.nextAssignment;
        Ok((r.(assignments := r.assignments + [Assignment(id, userId, pharmacyId, templateId, from.value, to')],
               nextAssignment := id + 1), id))
  }

  /** Assigning a rotation never makes a user follow two rotations over a shared day. */
  lemma CreateAssignmentKeepsApart(r: Roster, caller: Caller, userId: nat, pharmacyId: nat, templateId: nat,
                                   from: Option<string>, to: Option<string>)
    requires AssignmentsApart(r.assignments)
    requires CreateRotationAssignment(r, caller, userId, pharmacyId, templateId, from, to).Ok?
    ensures AssignmentsApart(CreateRotationAssignment(r, caller, userId, pharmacyId, templateId, from, to).value.0.assignments)
  {
    var rows := CreateRotationAssignment(r, caller, userId, pharmacyId, templateId, from, to).value.0.assignments;
    var n := |r.assignments|;
    forall i, j | 0 <= i < j < |rows| && rows[i].user == rows[j].user
      ensures !DatesOverlap(rows[i].from, LastDay(rows[i].to), rows[j].from, LastDay(rows[j].to))
    {
      assert rows[i] == r.assignments[i];
      if j < n {
        assert rows[j] == r.assignments[j];
      } else {
        assert !AssignmentClash(r.assignments[i], userId, rows[j].from, LastDay(rows[j].to));
      }
    }
  }

  /**
   * An open-ended assignment blocks every later open-ended one of the same
   * user: two assignments without an end, both starting by 2999-12-31,
   * always share a day.
   */
  lemma OpenEndedAssignmentsClash(a: Assignment, from: string)
    requires a.to.None? && LessEq(a.from, FarFuture) && LessEq(from, FarFuture)
    ensures AssignmentClash(a, a.user, from, LastDay(None))
  {
    DatesOverlapMeaning(a.from, FarFuture, from, FarFuture);
  }
}
