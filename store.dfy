/** The four tables of the relational store (users, attendance, leave
    requests, tasks) and the invariants the controllers keep on them. Rows are
    keyed by their autoincremented id; uuids and createdAt/updatedAt
    bookkeeping columns are not represented, except the attendance row's
    createdAt, which grading filters on. */
module Store {
  import opened Common
  import opened Text
  import opened Clock

  datatype Role = Admin | User
  datatype AttendanceStatus = Present | Absent | OnLeave
  /** The status of a leave request and of a task. */
  datatype Decision = Pending | Approved | Rejected

  datatype UserRow = UserRow(
    name: string, email: string, password: string, role: Role,
    address: string, phone: string, image: Option<string>)

  datatype AttendanceRow = AttendanceRow(userId: int, date: int, status: AttendanceStatus, createdAt: int)

  datatype LeaveRow = LeaveRow(userId: int, date: int, reason: string, status: Decision, adminComment: Option<string>)

  datatype TaskRow = TaskRow(
    title: string, description: string, dueDate: int, userId: int, status: Decision,
    adminComment: Option<string>, submitComment: Option<string>, submittedAt: Option<int>)

  type Users = map<int, UserRow>
  type Attendances = map<int, AttendanceRow>
  type Leaves = map<int, LeaveRow>
  type Tasks = map<int, TaskRow>

  /** Some attendance row of user u carries the date d. */
  predicate HasRowOn(att: Attendances, u: int, d: int)
  {
    exists k :: k in att && att[k].userId == u && att[k].date == d
  }

  /** Some attendance row of user u on date d has status st. */
  predicate HasRowWith(att: Attendances, u: int, d: int, st: AttendanceStatus)
  {
    exists k :: k in att && att[k].userId == u && att[k].date == d && att[k].status == st
  }

  /** The `(userId, date)` uniqueness constraint of the attendance table. */
  predicate AttendanceUnique(att: Attendances)
  {
    forall i, j :: i in att && j in att && att[i].userId == att[j].userId && att[i].date == att[j].date ==> i == j
  }

  /** Absence is never stored: rows are created PRESENT or LEAVE only. */
  predicate NoStoredAbsence(att: Attendances)
  {
    forall k :: k in att ==> att[k].status != Absent
  }

  /** The attendance `date` column holds a day, not an instant: what is
      stored is the midnight (UTC) of the value written. */
  predicate AttendanceDatesAreDays(att: Attendances)
  {
    forall k :: k in att ==> StartOfDay(att[k].date) == att[k].date
  }

  /** Every approved leave request has its LEAVE attendance row on the
      request's day ... */
  predicate ApprovedLeavesRecorded(leaves: Leaves, att: Attendances)
  {
    forall l :: l in leaves && leaves[l].status == Approved ==> HasRowWith(att, leaves[l].userId, StartOfDay(leaves[l].date), OnLeave)
  }

  predicate ApprovedLeaveFor(leaves: Leaves, u: int, d: int)
  {
    exists l :: l in leaves && leaves[l].status == Approved && leaves[l].userId == u && StartOfDay(leaves[l].date) == d
  }

  /** ... and every LEAVE row stems from an approved leave request. */
  predicate LeaveRowsApproved(leaves: Leaves, att: Attendances)
  {
    forall k :: k in att && att[k].status == OnLeave ==> ApprovedLeaveFor(leaves, att[k].userId, att[k].date)
  }

  /** The unique constraint on `User.email`. */
  predicate EmailsUnique(users: Users)
  {
    forall i, j :: i in users && j in users && users[i].email == users[j].email ==> i == j
  }

  /** Sign-up stores e-mails lower-cased. */
  predicate EmailsLowerCase(users: Users)
  {
    forall i :: i in users ==> ToLower(users[i].email) == users[i].email
  }

  predicate AttendanceOwned(att: Attendances, users: Users)
  {
    forall k :: k in att ==> att[k].userId in users
  }

  predicate LeavesOwned(leaves: Leaves, users: Users)
  {
    forall k :: k in leaves ==> leaves[k].userId in users
  }

  predicate TasksOwned(tasks: Tasks, users: Users)
  {
    forall k :: k in tasks ==> tasks[k].userId in users
  }

  /** No two approved leave requests share a (user, day) pair, so with
      the two predicates above approved requests and LEAVE rows correspond
      one to one. */
  predicate ApprovedLeavesDistinct(leaves: Leaves)
  {
    forall l, m ::
      (l in leaves && m in leaves && leaves[l].status == Approved && leaves[m].status == Approved &&
       leaves[l].userId == leaves[m].userId && StartOfDay(leaves[l].date) == StartOfDay(leaves[m].date)) ==> l == m
  }

  /** The attendance and leave invariants together. */
  predicate LeaveAttendanceInvariant(leaves: Leaves, att: Attendances)
  {
    && AttendanceUnique(att)
    && AttendanceDatesAreDays(att)
    && NoStoredAbsence(att)
    && ApprovedLeavesRecorded(leaves, att)
    && LeaveRowsApproved(leaves, att)
    && ApprovedLeavesDistinct(leaves)
  }

  /** Inserting a PRESENT row, dated by a day, for a (user, day) pair that
      has none keeps the invariant. */
  lemma {:induction false} InsertPresentKeeps(leaves: Leaves, att: Attendances, k: int, row: AttendanceRow)
    requires LeaveAttendanceInvariant(leaves, att)
    requires k !in att && !HasRowOn(att, row.userId, row.date) && row.status == Present
    requires StartOfDay(row.date) == row.date
    ensures LeaveAttendanceInvariant(leaves, att[k := row])
    ensures HasRowWith(att[k := row], row.userId, row.date, Present)
  {
    var att' := att[k := row];
    assert att'[k] == row;
    forall l | l in leaves && leaves[l].status == Approved
      ensures HasRowWith(att', leaves[l].userId, StartOfDay(leaves[l].date), OnLeave)
    {
      var j :| j in att && att[j].userId == leaves[l].userId && att[j].date == StartOfDay(leaves[l].date) && att[j].status == OnLeave;
      assert att'[j] == att[j];
    }
    forall j | j in att' && att'[j].status == OnLeave
      ensures ApprovedLeaveFor(leaves, att'[j].userId, att'[j].date)
    {
      assert j in att && att'[j] == att[j];
    }
  }

  /** Adding a PENDING leave request keeps the invariant. */
  lemma {:induction false} InsertPendingKeeps(leaves: Leaves, att: Attendances, l: int, row: LeaveRow)
    requires LeaveAttendanceInvariant(leaves, att)
    requires l !in leaves && row.status == Pending
    ensures LeaveAttendanceInvariant(leaves[l := row], att)
  {
    var leaves' := leaves[l := row];
    forall j | j in att && att[j].status == OnLeave
      ensures ApprovedLeaveFor(leaves', att[j].userId, att[j].date)
    {
      var m :| m in leaves && leaves[m].status == Approved && leaves[m].userId == att[j].userId && StartOfDay(leaves[m].date) == att[j].date;
      assert leaves'[m] == leaves[m];
    }
  }

  /** Rejecting a PENDING leave request keeps the invariant. */
  lemma {:induction false} RejectKeeps(leaves: Leaves, att: Attendances, l: int, comment: string)
    requires LeaveAttendanceInvariant(leaves, att)
    requires l in leaves && leaves[l].status == Pending
    ensures LeaveAttendanceInvariant(leaves[l := leaves[l].(status := Rejected, adminComment := Some(comment))], att)
  {
    var leaves' := leaves[l := leaves[l].(status := Rejected, adminComment := Some(comment))];
    forall j | j in att && att[j].status == OnLeave
      ensures ApprovedLeaveFor(leaves', att[j].userId, att[j].date)
    {
      var m :| m in leaves && leaves[m].status == Approved && leaves[m].userId == att[j].userId && StartOfDay(leaves[m].date) == att[j].date;
      assert m != l && leaves'[m] == leaves[m];
    }
  }

  /** Approving a PENDING leave request together with inserting its LEAVE row
      on the request's day keeps the invariant; either write alone would
      break it. */
  lemma {:induction false} ApproveKeeps(leaves: Leaves, att: Attendances, l: int, comment: string, k: int, now: int)
    requires LeaveAttendanceInvariant(leaves, att)
    requires l in leaves && leaves[l].status == Pending
    requires k !in att && !HasRowOn(att, leaves[l].userId, StartOfDay(leaves[l].date))
    ensures var leaves' := leaves[l := leaves[l].(status := Approved, adminComment := Some(comment))];
            var att' := att[k := AttendanceRow(leaves[l].userId, StartOfDay(leaves[l].date), OnLeave, now)];
            LeaveAttendanceInvariant(leaves', att')
  {
    var leaves' := leaves[l := leaves[l].(status := Approved, adminComment := Some(comment))];
    var day := StartOfDay(leaves[l].date);
    var row := AttendanceRow(leaves[l].userId, day, OnLeave, now);
    var att' := att[k := row];
    assert att'[k] == row;
    assert StartOfDay(day) == day;
    forall m | m in leaves' && leaves'[m].status == Approved
      ensures HasRowWith(att', leaves'[m].userId, StartOfDay(leaves'[m].date), OnLeave)
    {
      if m != l {
        var j :| j in att && att[j].userId == leaves[m].userId && att[j].date == StartOfDay(leaves[m].date) && att[j].status == OnLeave;
        assert att'[j] == att[j];
      }
    }
    forall j | j in att' && att'[j].status == OnLeave
      ensures ApprovedLeaveFor(leaves', att'[j].userId, att'[j].date)
    {
      if j == k {
        assert leaves'[l].status == Approved;
      } else {
        var m :| m in leaves && leaves[m].status == Approved && leaves[m].userId == att[j].userId && StartOfDay(leaves[m].date) == att[j].date;
        assert m != l && leaves'[m] == leaves[m];
      }
    }
    forall m | m in leaves' && m != l && leaves'[m].status == Approved
      ensures leaves'[m].userId != leaves'[l].userId || StartOfDay(leaves'[m].date) != StartOfDay(leaves'[l].date)
    {
      var j :| j in att && att[j].userId == leaves[m].userId && att[j].date == StartOfDay(leaves[m].date) && att[j].status == OnLeave;
    }
  }

  class Db {
    var users: Users
    var attendance: Attendances
    var leaves: Leaves
    var tasks: Tasks
    /** The next value of each table's autoincrement id. */
    var nextUserId: int
    var nextAttendanceId: int
    var nextLeaveId: int
    var nextTaskId: int

    ghost predicate Valid()
      reads this
    {
      && 1 <= nextUserId && 1 <= nextAttendanceId && 1 <= nextLeaveId && 1 <= nextTaskId
      && (forall k :: k in users ==> 0 < k < nextUserId)
      && (forall k :: k in attendance ==> 0 < k < nextAttendanceId)
      && (forall k :: k in leaves ==> 0 < k < nextLeaveId)
      && (forall k :: k in tasks ==> 0 < k < nextTaskId)
      && AttendanceOwned(attendance, users)
      && LeavesOwned(leaves, users)
      && TasksOwned(tasks, users)
      && LeaveAttendanceInvariant(leaves, attendance)
      && EmailsUnique(users)
      && EmailsLowerCase(users)
    }

    /** An empty database. */
    constructor ()
      ensures Valid()
      ensures users == map[] && attendance == map[] && leaves == map[] && tasks == map[]
    {
      users, attendance, leaves, tasks := map[], map[], map[], map[];
      nextUserId, nextAttendanceId, nextLeaveId, nextTaskId := 1, 1, 1, 1;
    }
  }
}
