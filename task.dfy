/** The task controller: an admin creates and edits tasks, the assignee
    submits them, and an admin approves or rejects them. Approve and reject
    are unconditional: they overwrite the status whatever it was. */
module Tasks {
  import opened Common
  import opened Clock
  import opened Store

  /** The row `createTask` inserts: the given fields, status PENDING (the
      column default) and no comments or submission yet. */
  function NewTask(title: string, description: string, dueDate: int, userId: int): (t: TaskRow)
    ensures t.title == title && t.description == description && t.dueDate == dueDate && t.userId == userId
    ensures t.status == Pending && t.adminComment.None? && t.submitComment.None? && t.submittedAt.None?
  {
    TaskRow(title, description, dueDate, userId, Pending, None, None, None)
  }

  /** `createTask`: every one of title, description, dueDate and userId must
      be given; a userId with no user breaks the foreign key (a 500). */
  method CreateTask(db: Db, title: string, description: string, dueDate: Option<int>, userId: int) returns (r: Reply<TaskRow>)
    requires db.Valid()
    modifies db`tasks, db`nextTaskId
    ensures db.Valid()
    ensures title == "" || description == "" || dueDate.None? || userId == 0 ==>
      r == Failure(BAD_REQUEST, "All fields are required.") && db.tasks == old(db.tasks)
    ensures title != "" && description != "" && dueDate.Some? && userId != 0 && userId !in db.users ==>
      !r.success && r.status == SERVER_ERROR && db.tasks == old(db.tasks)
    ensures title != "" && description != "" && dueDate.Some? && userId != 0 && userId in db.users ==>
      var t := NewTask(title, description, dueDate.value, userId);
      && r == Success("Task created successfully.", t)
      && old(db.nextTaskId) !in old(db.tasks)
      && db.tasks == old(db.tasks)[old(db.nextTaskId) := t]
  {
    if title == "" || description == "" || dueDate.None? || userId == 0 {
      return Failure(BAD_REQUEST, "All fields are required.");
    }
    if userId !in db.users {
      return Failure(SERVER_ERROR, "An unexpected error occurred while creating the task. Please try again.");
    }
    var id := db.nextTaskId;
    var t := NewTask(title, description, dueDate.value, userId);
    db.tasks := db.tasks[id := t];
    db.nextTaskId := id + 1;
    r := Success("Task created successfully.", t);
  }

  // ------------------------------------------------------------ partial update

  /** The `data` of `updateTask`: each of title, description, dueDate and
      userId replaces the stored value only when it is truthy; a falsy one
      becomes `undefined`, which Prisma skips. */
  function PatchTask(t: TaskRow, title: string, description: string, dueDate: Option<int>, userId: int): (p: TaskRow)
    ensures p.title == (if title != "" then title else t.title)
    ensures p.description == (if description != "" then description else t.description)
    ensures p.dueDate == (if dueDate.Some? then dueDate.value else t.dueDate)
    ensures p.userId == (if userId != 0 then userId else t.userId)
    ensures p.status == t.status && p.adminComment == t.adminComment
    ensures p.submitComment == t.submitComment && p.submittedAt == t.submittedAt
  {
    t.(title := if title != "" then title else t.title,
       description := if description != "" then description else t.description,
       dueDate := if dueDate.Some? then dueDate.value else t.dueDate,
       userId := if userId != 0 then userId else t.userId)
  }

  /** An update with no field supplied leaves the task as it was. */
  lemma EmptyPatchIsIdentity(t: TaskRow)
    ensures PatchTask(t, "", "", None, 0) == t
  {
  }

  /** Applying the same update twice is applying it once. */
  lemma PatchIdempotent(t: TaskRow, title: string, description: string, dueDate: Option<int>, userId: int)
    ensures var p := PatchTask(t, title, description, dueDate, userId);
            PatchTask(p, title, description, dueDate, userId) == p
  {
  }

  /** Of two updates in a row, the later one wins on every field it supplies
      and the earlier one survives on every other. */
  lemma PatchLastWins(t: TaskRow, title1: string, description1: string, dueDate1: Option<int>, userId1: int,
                      title2: string, description2: string, dueDate2: Option<int>, userId2: int)
    ensures var p := PatchTask(PatchTask(t, title1, description1, dueDate1, userId1), title2, description2, dueDate2, userId2);
      && p.title == (if title2 != "" then title2 else if title1 != "" then title1 else t.title)
      && p.description == (if description2 != "" then description2 else if description1 != "" then description1 else t.description)
      && p.dueDate == (if dueDate2.Some? then dueDate2.value else if dueDate1.Some? then dueDate1.value else t.dueDate)
      && p.userId == (if userId2 != 0 then userId2 else if userId1 != 0 then userId1 else t.userId)
  {
  }

  /** `updateTask`: the id is required; an unknown id makes Prisma's
      `update` throw, and so does a new userId with no user (the foreign
      key); both surface as a 500. Even an update that supplies no field
      succeeds and reports the unchanged task. */
  method UpdateTask(db: Db, id: int, title: string, description: string, dueDate: Option<int>, userId: int) returns (r: Reply<TaskRow>)
    requires db.Valid()
    modifies db`tasks
    ensures db.Valid()
    ensures id == 0 ==> r == Failure(BAD_REQUEST, "Id and some fields are required.") && db.tasks == old(db.tasks)
    ensures id != 0 && (id !in old(db.tasks) || (userId != 0 && userId !in db.users)) ==>
      r == Failure(SERVER_ERROR, "An unexpected error occurred while updating the task. Please try again.")
      && db.tasks == old(db.tasks)
    ensures id != 0 && id in old(db.tasks) && (userId == 0 || userId in db.users) ==>
      var p := PatchTask(old(db.tasks)[id], title, description, dueDate, userId);
      && r == Success("Task updated successfully.", p)
      && db.tasks == old(db.tasks)[id := p]
  {
    if id == 0 {
      return Failure(BAD_REQUEST, "Id and some fields are required.");
    }
    if id !in db.tasks || (userId != 0 && userId !in db.users) {
      return Failure(SERVER_ERROR, "An unexpected error occurred while updating the task. Please try again.");
    }
    var p := PatchTask(db.tasks[id], title, description, dueDate, userId);
    db.tasks := db.tasks[id := p];
    r := Success("Task updated successfully.", p);
  }

  // ---------------------------------------------------------------- submission

  /** The `data` of `submitTask`: the comment (when one is sent; `undefined`
      is skipped) and the submission time. Status, admin comment, title,
      description, due date and owner are untouched. */
  function Submit(t: TaskRow, submitComment: Option<string>, now: int): (s: TaskRow)
    ensures s.submittedAt == Some(now)
    ensures s.submitComment == (if submitComment.Some? then submitComment else t.submitComment)
    ensures s.status == t.status && s.adminComment == t.adminComment
    ensures s.title == t.title && s.description == t.description && s.dueDate == t.dueDate && s.userId == t.userId
  {
    t.(submitComment := if submitComment.Some? then submitComment else t.submitComment, submittedAt := Some(now))
  }

  /** Submitting again overwrites the earlier submission: no history is kept. */
  lemma SubmitLastWins(t: TaskRow, c1: string, now1: int, c2: string, now2: int)
    ensures Submit(Submit(t, Some(c1), now1), Some(c2), now2) == Submit(t, Some(c2), now2)
  {
  }

  /** The task the caller may submit: the id must name a task of theirs. */
  predicate OwnsTask(tasks: Tasks, taskId: int, userId: int)
  {
    taskId in tasks && tasks[taskId].userId == userId
  }

  /** `submitTask`: the update is filtered on both the task id and the
      caller's id, so another user's task (or an unknown id) matches nothing,
      Prisma throws, and the reply is a 500 with nothing changed. */
  method SubmitTask(db: Db, taskId: int, submitComment: Option<string>, userId: int, now: int) returns (r: Reply<TaskRow>)
    requires db.Valid()
    modifies db`tasks
    ensures db.Valid()
    ensures userId == 0 ==> r == Failure(BAD_REQUEST, "Task ID is required.") && db.tasks == old(db.tasks)
    ensures userId != 0 && !OwnsTask(old(db.tasks), taskId, userId) ==>
      r == Failure(SERVER_ERROR, "An unexpected error occurred while submitting the task. Please try again.")
      && db.tasks == old(db.tasks)
    ensures userId != 0 && OwnsTask(old(db.tasks), taskId, userId) ==>
      var s := Submit(old(db.tasks)[taskId], submitComment, now);
      && r == Success("Task submitted successfully.", s)
      && db.tasks == old(db.tasks)[taskId := s]
    ensures r.success ==> OwnsTask(old(db.tasks), taskId, userId)
  {
    if userId == 0 {
      return Failure(BAD_REQUEST, "Task ID is required.");
    }
    if !(taskId in db.tasks && db.tasks[taskId].userId == userId) {
      return Failure(SERVER_ERROR, "An unexpected error occurred while submitting the task. Please try again.");
    }
    var s := Submit(db.tasks[taskId], submitComment, now);
    db.tasks := db.tasks[taskId := s];
    r := Success("Task submitted successfully.", s);
  }

  // ---------------------------------------------------------------- review

  /** The `data` of `approveTask` (status APPROVED) and `rejectTask` (status
      REJECTED): the status and the admin comment, whatever the status was
      before; an `undefined` comment is skipped. */
  function Review(t: TaskRow, decision: Decision, adminComment: Option<string>): (v: TaskRow)
    ensures v.status == decision
    ensures v.adminComment == (if adminComment.Some? then adminComment else t.adminComment)
    ensures v.submitComment == t.submitComment && v.submittedAt == t.submittedAt
    ensures v.title == t.title && v.description == t.description && v.dueDate == t.dueDate && v.userId == t.userId
  {
    t.(status := decision, adminComment := if adminComment.Some? then adminComment else t.adminComment)
  }

  /** Reviewing twice with the same decision and comment is reviewing once. */
  lemma ReviewIdempotent(t: TaskRow, decision: Decision, adminComment: Option<string>)
    ensures Review(Review(t, decision, adminComment), decision, adminComment) == Review(t, decision, adminComment)
  {
  }

  /** The later review decides: there is no terminal state for tasks. */
  lemma ReviewLastWins(t: TaskRow, d1: Decision, c1: string, d2: Decision, c2: string)
    ensures Review(Review(t, d1, Some(c1)), d2, Some(c2)) == Review(t, d2, Some(c2))
  {
  }

  /** Submission and review write disjoint columns, so their order does not
      matter. */
  lemma SubmitReviewCommute(t: TaskRow, submitComment: Option<string>, now: int, decision: Decision, adminComment: Option<string>)
    ensures Review(Submit(t, submitComment, now), decision, adminComment)
         == Submit(Review(t, decision, adminComment), submitComment, now)
  {
  }

  /** `approveTask` (decision APPROVED) and `rejectTask` (decision REJECTED):
      the task id is required, an unknown id makes Prisma throw (a 500), and
      otherwise the review is written unconditionally. */
  method ReviewTask(db: Db, taskId: int, decision: Decision, adminComment: Option<string>) returns (r: Reply<TaskRow>)
    requires db.Valid()
    requires decision != Pending
    modifies db`tasks
    ensures db.Valid()
    ensures taskId == 0 ==> r == Failure(BAD_REQUEST, "Task ID is required.") && db.tasks == old(db.tasks)
    ensures taskId != 0 && taskId !in old(db.tasks) ==>
      !r.success && r.status == SERVER_ERROR && db.tasks == old(db.tasks)
    ensures taskId != 0 && taskId in old(db.tasks) ==>
      var v := Review(old(db.tasks)[taskId], decision, adminComment);
      && r == Success(if decision == Approved then "Task approved successfully." else "Task rejected successfully.", v)
      && db.tasks == old(db.tasks)[taskId := v]
  {
    if taskId == 0 {
      return Failure(BAD_REQUEST, "Task ID is required.");
    }
    var verb := if decision == Approved then "approving" else "rejecting";
    if taskId !in db.tasks {
      return Failure(SERVER_ERROR, "An unexpected error occurred while " + verb + " the task. Please try again.");
    }
    var v := Review(db.tasks[taskId], decision, adminComment);
    db.tasks := db.tasks[taskId := v];
    r := Success(if decision == Approved then "Task approved successfully." else "Task rejected successfully.", v);
  }

  /** `approveTask`. */
  method ApproveTask(db: Db, taskId: int, adminComment: Option<string>) returns (r: Reply<TaskRow>)
    requires db.Valid()
    modifies db`tasks
    ensures db.Valid()
    ensures taskId == 0 ==> r == Failure(BAD_REQUEST, "Task ID is required.") && db.tasks == old(db.tasks)
    ensures taskId != 0 && taskId !in old(db.tasks) ==> !r.success && r.status == SERVER_ERROR && db.tasks == old(db.tasks)
    ensures taskId != 0 && taskId in old(db.tasks) ==>
      r == Success("Task approved successfully.", Review(old(db.tasks)[taskId], Approved, adminComment))
      && db.tasks == old(db.tasks)[taskId := Review(old(db.tasks)[taskId], Approved, adminComment)]
  {
    r := ReviewTask(db, taskId, Approved, adminComment);
  }

  /** `rejectTask`. */
  method RejectTask(db: Db, taskId: int, adminComment: Option<string>) returns (r: Reply<TaskRow>)
    requires db.Valid()
    modifies db`tasks
    ensures db.Valid()
    ensures taskId == 0 ==> r == Failure(BAD_REQUEST, "Task ID is required.") && db.tasks == old(db.tasks)
    ensures taskId != 0 && taskId !in old(db.tasks) ==> !r.success && r.status == SERVER_ERROR && db.tasks == old(db.tasks)
    ensures taskId != 0 && taskId in old(db.tasks) ==>
      r == Success("Task rejected successfully.", Review(old(db.tasks)[taskId], Rejected, adminComment))
      && db.tasks == old(db.tasks)[taskId := Review(old(db.tasks)[taskId], Rejected, adminComment)]
  {
    r := ReviewTask(db, taskId, Rejected, adminComment);
  }

  // ------------------------------------------------------------ read filters

  /** The tasks assigned to one user: the `where: { userId }` filter, the
      same shape as `Attendance.RowsOf` and `Leave.LeavesOf` over another
      table. */
  function TasksOf(tasks: Tasks, userId: int): (r: Tasks)
    ensures forall k :: k in r <==> k in tasks && tasks[k].userId == userId
    ensures forall k :: k in r ==> r[k] == tasks[k]
  {
    map k | k in tasks && tasks[k].userId == userId :: tasks[k]
  }

  /** `getAllTasks`: the whole table. */
  function GetAllTasks(tasks: Tasks): Reply<Tasks>
  {
    Success("Tasks retrieved successfully.", tasks)
  }

  /** `getTaskById`: `findUnique` gives `null` for an unknown id, which is
      still reported as success. */
  function GetTaskById(tasks: Tasks, id: int): (r: Reply<TaskRow>)
    ensures id == 0 ==> r == Failure(BAD_REQUEST, "Task ID is required.")
    ensures id != 0 ==> r.success && r.message == "Task retrieved successfully."
    ensures id != 0 ==> (r.data.Some? <==> id in tasks)
    ensures id != 0 && id in tasks ==> r.data == Some(tasks[id])
  {
    if id == 0 then Failure(BAD_REQUEST, "Task ID is required.")
    else if id in tasks then Success("Task retrieved successfully.", tasks[id])
    else SuccessNoData("Task retrieved successfully.")
  }

  /** `getTasksByUserId` (an admin naming the user in the request body). */
  function GetTasksByUserId(tasks: Tasks, userId: int): (r: Reply<Tasks>)
    ensures userId == 0 ==> r == Failure(BAD_REQUEST, "User ID is required.")
    ensures userId != 0 ==> r.success && r.data.Some?
    ensures userId != 0 ==> forall k :: k in r.data.value <==> k in tasks && tasks[k].userId == userId
    ensures userId != 0 ==> r.data == Some(TasksOf(tasks, userId))
  {
    if userId == 0 then Failure(BAD_REQUEST, "User ID is required.")
    else Success("Tasks retrieved successfully.", TasksOf(tasks, userId))
  }

  /** `getTasks` (the caller's tasks, the id taken from the token). It
      returns what `getTasksByUserId` returns for the same user, under
      different messages; the source keeps the two handlers apart, and so
      does the model. */
  function GetTasks(tasks: Tasks, userId: int): (r: Reply<Tasks>)
    ensures userId == 0 ==> r == Failure(BAD_REQUEST, "Task ID is required.")
    ensures userId != 0 ==> r.success && r.data.Some?
    ensures userId != 0 ==> forall k :: k in r.data.value <==> k in tasks && tasks[k].userId == userId
    ensures userId != 0 ==> r.data == Some(TasksOf(tasks, userId))
  {
    if userId == 0 then Failure(BAD_REQUEST, "Task ID is required.")
    else Success("Task retrieved successfully.", TasksOf(tasks, userId))
  }

  /** `getTasksByIdandUserId`: the lookup is filtered on the caller's id as
      well, so guessing the id of someone else's task yields nothing. */
  function GetTasksByIdAndUserId(tasks: Tasks, id: int, userId: int): (r: Reply<Tasks>)
    ensures userId == 0 ==> r == Failure(BAD_REQUEST, "User ID is required.")
    ensures userId != 0 ==> r.success && r.data.Some?
    ensures userId != 0 ==> r.data.value.Keys == (if OwnsTask(tasks, id, userId) then {id} else {})
    ensures userId != 0 ==> forall k :: k in r.data.value ==> r.data.value[k] == tasks[k] && tasks[k].userId == userId
  {
    if userId == 0 then Failure(BAD_REQUEST, "User ID is required.")
    else Success("Tasks retrieved successfully.", map k | k in tasks && k == id && tasks[k].userId == userId :: tasks[k])
  }

  /** The caller's tasks due between today's midnight and 23:59:59.999
      inclusive, which is exactly the tasks due on today's date. */
  function DueToday(tasks: Tasks, userId: int, now: int): (r: Tasks)
    ensures forall k :: k in r <==> k in tasks && tasks[k].userId == userId && DayOf(tasks[k].dueDate) == DayOf(now)
    ensures forall k :: k in r ==> r[k] == tasks[k]
  {
    map k | k in tasks && tasks[k].userId == userId && StartOfDay(now) <= tasks[k].dueDate <= EndOfDay(now) :: tasks[k]
  }

  /** `getTasksToday`: an empty result is a success without data. */
  function GetTasksToday(tasks: Tasks, userId: int, now: int): (r: Reply<Tasks>)
    ensures userId == 0 ==> r == Failure(BAD_REQUEST, "User authentication required.")
    ensures userId != 0 && DueToday(tasks, userId, now) == map[] ==> r == SuccessNoData("No tasks found for today.")
    ensures userId != 0 && DueToday(tasks, userId, now) != map[] ==>
      r == Success("Tasks retrieved successfully.", DueToday(tasks, userId, now))
  {
    if userId == 0 then Failure(BAD_REQUEST, "User authentication required.")
    else
      var due := DueToday(tasks, userId, now);
      if due == map[] then SuccessNoData("No tasks found for today.")
      else Success("Tasks retrieved successfully.", due)
  }

  /** The administrator's view and the per-user views agree: a task is in
      its assignee's reply exactly when it is in the whole table, with the
      same value, and an assignee's reply holds nothing the table lacks. */
  lemma AllTasksSplitByUser(tasks: Tasks, userId: int)
    requires userId != 0
    ensures var all := GetAllTasks(tasks);
            var mine := GetTasksByUserId(tasks, userId);
            && all.success && all.data.Some? && mine.success && mine.data.Some?
            && mine.data.value.Keys <= all.data.value.Keys
            && forall k :: k in all.data.value && all.data.value[k].userId == userId ==>
                 k in mine.data.value && mine.data.value[k] == all.data.value[k]
  {
  }
}
