/** The leave controller: a request is created PENDING and decided once, by
    approval (which also records a LEAVE attendance row, in one transaction)
    or by rejection. */
module Leave {
  import opened Common
  import opened Clock
  import opened Store

  const PAST_DATE := "Leave date cannot be in the past."
  const WEEKEND := "Leave cannot be requested on weekends (Saturday and Sunday)."

  /** The checks `requestLeave` makes before inserting, in the source's
      order. An absent date passes the first two (an invalid `Date`
      compares false and has no weekday) and is caught by the third. A
      request is accepted only for a weekday no earlier than now, with a
      reason, and a past date is reported before a weekend one. */
  function RequestRefusal(reason: string, date: Option<int>, now: int): (e: Option<string>)
    ensures e.None? <==> date.Some? && date.value >= now && !IsWeekend(date.value) && reason != ""
    ensures date.Some? && date.value < now ==> e == Some(PAST_DATE)
    ensures date.Some? && date.value >= now && Weekday(date.value) in {0, 6} ==> e == Some(WEEKEND)
  {
    if date.Some? && date.value < now then Some(PAST_DATE)
    else if date.Some? && IsWeekend(date.value) then Some(WEEKEND)
    else if date.None? || reason == "" then Some("User ID and reason for leave are required.")
    else None
  }

  /** `requestLeave`: the checks above, then one PENDING row for the caller.
      The caller's id comes from the token; an id with no user breaks the
      foreign key, which surfaces as a 500. */
  method RequestLeave(db: Db, userId: int, reason: string, date: Option<int>, now: int) returns (r: Reply<LeaveRow>)
    requires db.Valid()
    modifies db`leaves, db`nextLeaveId
    ensures db.Valid()
    ensures RequestRefusal(reason, date, now).Some? ==>
      r == Failure(BAD_REQUEST, RequestRefusal(reason, date, now).value) && db.leaves == old(db.leaves)
    ensures RequestRefusal(reason, date, now).None? && userId !in db.users ==>
      !r.success && r.status == SERVER_ERROR && db.leaves == old(db.leaves)
    ensures RequestRefusal(reason, date, now).None? && userId in db.users ==>
      var row := LeaveRow(userId, date.value, reason, Pending, None);
      && r == Success("Leave request submitted successfully.", row)
      && old(db.nextLeaveId) !in old(db.leaves)
      && db.leaves == old(db.leaves)[old(db.nextLeaveId) := row]
  {
    var refusal := RequestRefusal(reason, date, now);
    if refusal.Some? {
      return Failure(BAD_REQUEST, refusal.value);
    }
    if userId !in db.users {
      return Failure(SERVER_ERROR, "An unexpected error occurred while requesting leave. Please try again.");
    }
    var id := db.nextLeaveId;
    var row := LeaveRow(userId, date.value, reason, Pending, None);
    InsertPendingKeeps(db.leaves, db.attendance, id, row);
    db.leaves := db.leaves[id := row];
    db.nextLeaveId := id + 1;
    r := Success("Leave request submitted successfully.", row);
  }

  /** The checks of `approveLeaveRequest`, in order: the id is given, the
      request exists, it is PENDING, its date is not past and not on a
      weekend, and the user has no attendance row on that date's day (the
      attendance date column compares by day). Approval
      goes ahead exactly when every one of them passes. */
  function ApprovalRefusal(leaves: Leaves, att: Attendances, id: int, now: int): (g: Option<Refusal>)
    ensures g.None? <==>
      && id != 0 && id in leaves && leaves[id].status == Pending
      && leaves[id].date >= now && !IsWeekend(leaves[id].date)
      && !HasRowOn(att, leaves[id].userId, StartOfDay(leaves[id].date))
    ensures id != 0 && id !in leaves ==> g == Some(Refusal(NOT_FOUND, "Leave request not found."))
  {
    if id == 0 then Some(Refusal(BAD_REQUEST, "Request ID is required."))
    else if id !in leaves then Some(Refusal(NOT_FOUND, "Leave request not found."))
    else
      var l := leaves[id];
      if l.status != Pending then Some(Refusal(BAD_REQUEST, "Leave request is not in PENDING status."))
      else if l.date < now then Some(Refusal(BAD_REQUEST, PAST_DATE))
      else if IsWeekend(l.date) then Some(Refusal(BAD_REQUEST, WEEKEND))
      else if HasRowOn(att, l.userId, StartOfDay(l.date)) then Some(Refusal(BAD_REQUEST, "Attendance record already exists for this date."))
      else None
  }

  /** A request already decided is refused whatever the dates and the
      attendance table say, so approving twice always fails the second time. */
  lemma DecidedIsRefused(leaves: Leaves, att: Attendances, id: int, now: int)
    requires id != 0 && id in leaves && leaves[id].status != Pending
    ensures ApprovalRefusal(leaves, att, id, now) == Some(Refusal(BAD_REQUEST, "Leave request is not in PENDING status."))
  {
  }

  /** `adminComment || fallback`: the comment stored with a decision, which
      is "Leave Granted" on approval and "Leave Rejected" on rejection when
      the administrator gives none. */
  function CommentOr(adminComment: string, fallback: string): (c: string)
    ensures adminComment != "" ==> c == adminComment
    ensures adminComment == "" ==> c == fallback
  {
    if adminComment == "" then fallback else adminComment
  }

  const GRANTED := "Leave Granted"
  const REJECTED := "Leave Rejected"

  /** `approveLeaveRequest`: if no check refuses, the request becomes
      APPROVED and one LEAVE row is inserted for its user on its date, which
      the attendance date column stores as that day's midnight, both in one
      transaction; any refusal leaves both tables as they were. */
  method ApproveLeaveRequest(db: Db, id: int, adminComment: string, now: int) returns (r: Reply<LeaveRow>)
    requires db.Valid()
    modifies db`leaves, db`attendance, db`nextAttendanceId
    ensures db.Valid()
    ensures var g := ApprovalRefusal(old(db.leaves), old(db.attendance), id, now);
      g.Some? ==> r == Failure(g.value.status, g.value.message)
    ensures !r.success ==>
      db.leaves == old(db.leaves) && db.attendance == old(db.attendance) && db.nextAttendanceId == old(db.nextAttendanceId)
    ensures ApprovalRefusal(old(db.leaves), old(db.attendance), id, now).None? ==>
      var l := old(db.leaves)[id];
      var approved := l.(status := Approved, adminComment := Some(CommentOr(adminComment, GRANTED)));
      && r == Success("Leave request approved and attendance updated.", approved)
      && db.leaves == old(db.leaves)[id := approved]
      && old(db.nextAttendanceId) !in old(db.attendance)
      && db.attendance == old(db.attendance)[old(db.nextAttendanceId) := AttendanceRow(l.userId, StartOfDay(l.date), OnLeave, now)]
    ensures r.success ==>
      db.leaves[id].status == Approved && HasRowWith(db.attendance, db.leaves[id].userId, StartOfDay(db.leaves[id].date), OnLeave)
  {
    var refusal := ApprovalRefusal(db.leaves, db.attendance, id, now);
    if refusal.Some? {
      return Failure(refusal.value.status, refusal.value.message);
    }
    var l := db.leaves[id];
    var approved := l.(status := Approved, adminComment := Some(CommentOr(adminComment, GRANTED)));
    var k := db.nextAttendanceId;
    var row := AttendanceRow(l.userId, StartOfDay(l.date), OnLeave, now);
    ApproveKeeps(db.leaves, db.attendance, id, CommentOr(adminComment, GRANTED), k, now);
    db.leaves := db.leaves[id := approved];
    db.attendance := db.attendance[k := row];
    db.nextAttendanceId := k + 1;
    assert db.attendance[k] == row;
    r := Success("Leave request approved and attendance updated.", approved);
  }

  /** `rejectLeaveRequest`: a missing or already decided request is reported
      as success without any change; a PENDING one becomes REJECTED. There
      is never an attendance side effect. */
  method RejectLeaveRequest(db: Db, id: int, adminComment: string) returns (r: Reply<LeaveRow>)
    requires db.Valid()
    modifies db`leaves
    ensures db.Valid()
    ensures id == 0 ==> r == Failure(BAD_REQUEST, "Request ID is required.") && db.leaves == old(db.leaves)
    ensures id != 0 && (id !in old(db.leaves) || old(db.leaves)[id].status != Pending) ==>
      r == SuccessNoData("Leave is already approved or rejected.") && db.leaves == old(db.leaves)
    ensures id != 0 && id in old(db.leaves) && old(db.leaves)[id].status == Pending ==>
      var rejected := old(db.leaves)[id].(status := Rejected, adminComment := Some(CommentOr(adminComment, REJECTED)));
      && r == Success("Leave request rejected successfully.", rejected)
      && db.leaves == old(db.leaves)[id := rejected]
  {
    if id == 0 {
      return Failure(BAD_REQUEST, "Request ID is required.");
    }
    if id !in db.leaves || db.leaves[id].status != Pending {
      return SuccessNoData("Leave is already approved or rejected.");
    }
    var rejected := db.leaves[id].(status := Rejected, adminComment := Some(CommentOr(adminComment, REJECTED)));
    RejectKeeps(db.leaves, db.attendance, id, CommentOr(adminComment, REJECTED));
    db.leaves := db.leaves[id := rejected];
    r := Success("Leave request rejected successfully.", rejected);
  }

  // ------------------------------------------------------------ read filters

  /** The leave requests of one user: the `where: { userId }` filter, the
      same shape as `Attendance.RowsOf` over another table. */
  function LeavesOf(leaves: Leaves, userId: int): (r: Leaves)
    ensures forall k :: k in r <==> k in leaves && leaves[k].userId == userId
    ensures forall k :: k in r ==> r[k] == leaves[k]
  {
    map k | k in leaves && leaves[k].userId == userId :: leaves[k]
  }

  /** `getAllLeaveRequests`: the whole table. */
  function GetAllLeaveRequests(leaves: Leaves): Reply<Leaves>
  {
    Success("Leave requests retrieved successfully.", leaves)
  }

  /** `getUserLeaveRequest` (the caller's requests) and
      `getLeaveRequestByUserId` (a named user's): a missing id is a 400. */
  function GetLeaveRequestsByUser(leaves: Leaves, userId: int): (r: Reply<Leaves>)
    ensures userId == 0 ==> r == Failure(BAD_REQUEST, "User ID is required.")
    ensures userId != 0 ==> r.success && r.data.Some?
    ensures userId != 0 ==> forall k :: k in r.data.value <==> k in leaves && leaves[k].userId == userId
    ensures userId != 0 ==> forall k :: k in r.data.value ==> r.data.value[k] == leaves[k]
  {
    if userId == 0 then Failure(BAD_REQUEST, "User ID is required.")
    else Success("Leave requests retrieved successfully.", LeavesOf(leaves, userId))
  }

  /** `getLeaveRequestById`: a `findMany` on the id, so an unknown id is an
      empty success, not a 404. */
  function GetLeaveRequestById(leaves: Leaves, id: int): (r: Reply<Leaves>)
    ensures id == 0 ==> r == Failure(BAD_REQUEST, "Request ID is required.")
    ensures id != 0 ==> r.success && r.data.Some? && r.data.value.Keys == (if id in leaves then {id} else {})
    ensures id != 0 && id in leaves ==> r.data.value[id] == leaves[id]
  {
    if id == 0 then Failure(BAD_REQUEST, "Request ID is required.")
    else Success("Leave requests retrieved successfully.", map k | k in leaves && k == id :: leaves[k])
  }

  /** The administrator's view and the per-user views agree: a request is
      in its own user's reply exactly when it is in the whole table, with
      the same value, and a user's reply holds nothing the table lacks. */
  lemma AllRequestsSplitByUser(leaves: Leaves, userId: int)
    requires userId != 0
    ensures var all := GetAllLeaveRequests(leaves);
            var mine := GetLeaveRequestsByUser(leaves, userId);
            && all.success && all.data.Some? && mine.success && mine.data.Some?
            && mine.data.value.Keys <= all.data.value.Keys
            && forall k :: k in all.data.value && all.data.value[k].userId == userId ==>
                 k in mine.data.value && mine.data.value[k] == all.data.value[k]
  {
  }
}
