/** The attendance controller: self-marking, the read filters, the absentee
    queries and the attendance grade. */
module Attendance {
  import opened Common
  import opened Text
  import opened Clock
  import opened Store

  // ---------------------------------------------------------------- marking

  /** `markAttendance`: insert a PRESENT row for the caller. The row's date
      is the store's default, today, which the date column keeps as the
      midnight of `now`'s day; `now` itself stamps createdAt. The
      `(userId, date)` unique constraint turns a second mark on the same day
      into the 409 conflict, and an unknown user violates the foreign key,
      which surfaces as a 500. */
  method MarkAttendance(db: Db, userId: int, now: int) returns (r: Reply<AttendanceRow>)
    requires db.Valid()
    modifies db`attendance, db`nextAttendanceId
    ensures db.Valid()
    ensures HasRowOn(old(db.attendance), userId, StartOfDay(now)) ==>
      r == Failure(CONFLICT, "Attendance for today has already been marked.") && db.attendance == old(db.attendance)
    ensures !HasRowOn(old(db.attendance), userId, StartOfDay(now)) && userId !in db.users ==>
      !r.success && r.status == SERVER_ERROR && db.attendance == old(db.attendance)
    ensures !HasRowOn(old(db.attendance), userId, StartOfDay(now)) && userId in db.users ==>
      var row := AttendanceRow(userId, StartOfDay(now), Present, now);
      && r == Success("Attendance marked successfully.", row)
      && old(db.nextAttendanceId) !in old(db.attendance)
      && db.attendance == old(db.attendance)[old(db.nextAttendanceId) := row]
    ensures r.success ==> HasRowWith(db.attendance, userId, StartOfDay(now), Present)
  {
    var today := StartOfDay(now);
    var taken := exists k | k in db.attendance :: db.attendance[k].userId == userId && db.attendance[k].date == today;
    if taken {
      r := Failure(CONFLICT, "Attendance for today has already been marked.");
      return;
    }
    if userId !in db.users {
      r := Failure(SERVER_ERROR, "An unexpected error occurred while marking attendance. Please try again.");
      return;
    }
    var id := db.nextAttendanceId;
    var row := AttendanceRow(userId, today, Present, now);
    InsertPresentKeeps(db.leaves, db.attendance, id, row);
    db.attendance := db.attendance[id := row];
    db.nextAttendanceId := id + 1;
    r := Success("Attendance marked successfully.", row);
  }

  // ------------------------------------------------------------ read filters

  /** The rows of one user (`getAttendance`, `getAttendanceByUserId`). */
  function RowsOf(att: Attendances, userId: int): (r: Attendances)
    ensures forall k :: k in r <==> k in att && att[k].userId == userId
    ensures forall k :: k in r ==> r[k] == att[k]
  {
    map k | k in att && att[k].userId == userId :: att[k]
  }

  /** The rows carrying one date (`getAllAttendanceToday`, `getAllAttendanceByDate`). */
  function RowsOn(att: Attendances, day: int): (r: Attendances)
    ensures forall k :: k in r <==> k in att && att[k].date == day
    ensures forall k :: k in r ==> r[k] == att[k]
  {
    map k | k in att && att[k].date == day :: att[k]
  }

  /** `getAttendanceToday`: the caller's rows whose date is the midnight
      named by the day string of `now`, taken to be the midnight of `now`'s
      day; under the uniqueness constraint there is at most one. */
  function AttendanceToday(att: Attendances, userId: int, now: int): (r: Attendances)
    ensures forall k :: k in r <==> k in att && att[k].userId == userId && att[k].date == StartOfDay(now)
    ensures AttendanceUnique(att) ==> forall i, j :: i in r && j in r ==> i == j
    ensures AttendanceDatesAreDays(att) ==> forall k :: k in r <==> k in att && att[k].userId == userId && DayOf(att[k].date) == DayOf(now)
  {
    assert forall k :: k in att && AttendanceDatesAreDays(att) ==> att[k].date == StartOfDay(att[k].date);
    RowsOn(RowsOf(att, userId), StartOfDay(now))
  }

  /** `getAttendanceById`: a missing id is a 400 and an unknown one a 404. */
  function GetAttendanceById(att: Attendances, id: int): (r: Reply<AttendanceRow>)
    ensures id == 0 ==> r.status == BAD_REQUEST
    ensures id != 0 && id !in att ==> r == Failure(NOT_FOUND, "Attendance record not found.")
    ensures r.success <==> id != 0 && id in att
    ensures r.success ==> r.data == Some(att[id])
  {
    if id == 0 then Failure(BAD_REQUEST, "Attendance ID is required.")
    else if id !in att then Failure(NOT_FOUND, "Attendance record not found.")
    else Success("Attendance record retrieved successfully.", att[id])
  }

  /** `getAttendanceByUserId`: a missing user id is a 400; otherwise success,
      with an empty table when the user has no rows (an empty array is truthy,
      so the 404 branch of the source never fires). */
  function GetAttendanceByUserId(att: Attendances, userId: int): (r: Reply<Attendances>)
    ensures r.success <==> userId != 0
    ensures r.success ==> r.data == Some(RowsOf(att, userId))
  {
    if userId == 0 then Failure(BAD_REQUEST, "User ID is required.")
    else Success("Attendance record retrieved successfully.", RowsOf(att, userId))
  }

  /** `getAllAttendanceByDate`: the given instant is normalised to the
      midnight of its day before filtering. `dateText` is what
      `toDateString()` gives for the date, which the success message
      quotes. When every stored date is a day, as the store keeps them, the
      rows are exactly those on the given date's day. */
  function GetAllAttendanceByDate(att: Attendances, date: Option<int>, dateText: string): (r: Reply<Attendances>)
    ensures date.None? ==> r == Failure(BAD_REQUEST, "Date is required.")
    ensures r.success <==> date.Some?
    ensures r.success ==> r.message == "Attendance records for " + dateText + " retrieved successfully."
    ensures r.success ==> r.data.Some? && forall k :: k in r.data.value <==> k in att && DayOf(att[k].date) == DayOf(date.value) && att[k].date % MS_PER_DAY == 0
    ensures r.success ==> forall k :: k in r.data.value ==> r.data.value[k] == att[k]
    ensures r.success && AttendanceDatesAreDays(att) ==>
      forall k :: k in r.data.value <==> k in att && DayOf(att[k].date) == DayOf(date.value)
  {
    if date.None? then Failure(BAD_REQUEST, "Date is required.")
    else
      var r := RowsOn(att, StartOfDay(date.value));
      assert forall k :: k in att && att[k].date % MS_PER_DAY == 0 ==> att[k].date == StartOfDay(att[k].date);
      Success("Attendance records for " + dateText + " retrieved successfully.", r)
  }

  // ------------------------------------------------------------- absentees

  /** `getAllAbsentAttendanceByDate`: the users with no row on the date, or
      with an ABSENT row on it. */
  function AbsenteesOn(users: Users, att: Attendances, day: int): set<int>
  {
    set u | u in users && (!HasRowOn(att, u, day) || HasRowWith(att, u, day, Absent))
  }

  /** The `none`/`some` filters compare the attendance date column by day,
      so the given instant counts as the midnight of its day. When every
      stored date is a day and none is ABSENT, the absentees are exactly the
      users with no row on that day. */
  function GetAllAbsentAttendanceByDate(users: Users, att: Attendances, date: Option<int>): (r: Reply<set<int>>)
    ensures date.None? ==> r == Failure(BAD_REQUEST, "Date is required.")
    ensures r.success <==> date.Some?
    ensures r.success ==> r.data == Some(AbsenteesOn(users, att, StartOfDay(date.value)))
    ensures r.success && AttendanceDatesAreDays(att) && NoStoredAbsence(att) ==>
      forall u :: u in r.data.value <==> u in users && forall k :: k in att && att[k].userId == u ==> DayOf(att[k].date) != DayOf(date.value)
  {
    if date.None? then Failure(BAD_REQUEST, "Date is required.")
    else
      var day := StartOfDay(date.value);
      AbsenteesAreUnmarked(users, att, day);
      assert forall k :: k in att && AttendanceDatesAreDays(att) ==> att[k].date == StartOfDay(att[k].date);
      Success("All attendance absent records for today retrieved successfully.", AbsenteesOn(users, att, day))
  }

  /** A user who has a PRESENT or LEAVE row on the date is never an absentee. */
  lemma PresentIsNotAbsent(users: Users, att: Attendances, u: int, day: int, st: AttendanceStatus)
    requires AttendanceUnique(att)
    requires st != Absent && HasRowWith(att, u, day, st)
    ensures u !in AbsenteesOn(users, att, day)
  {
  }

  /** Since no row is ever stored ABSENT, the absentees of a date are exactly
      the users with no row on it. */
  lemma AbsenteesAreUnmarked(users: Users, att: Attendances, day: int)
    ensures NoStoredAbsence(att) ==> forall u :: u in AbsenteesOn(users, att, day) <==> u in users && !HasRowOn(att, u, day)
  {
  }

  /** The raw SQL of `getAllAbsentAttendanceToday` as written:
      `a.id IS NULL OR a.status = 'ABSENT' AND a.date = CURRENT_DATE`;
      AND binds tighter, so it yields the users with no attendance row at
      all, plus those with an ABSENT row today. */
  function AbsentTodayAsWritten(users: Users, att: Attendances, now: int): set<int>
  {
    set u | u in users && ((forall k :: k in att ==> att[k].userId != u) || HasRowWith(att, u, StartOfDay(now), Absent))
  }

  /** The query as written misses a user who attended an earlier day but has
      no row today. */
  lemma AbsentTodayAsWrittenMissesAbsentee()
    ensures var users := map[1 := UserRow("Ann", "ann@example.com", "h", User, "Street 1", "+15550100", None)];
            var att := map[1 := AttendanceRow(1, 0, Present, 0)];
            && 1 !in AbsentTodayAsWritten(users, att, MS_PER_DAY)
            && 1 in AbsentToday(users, att, MS_PER_DAY)
  {
    var users := map[1 := UserRow("Ann", "ann@example.com", "h", User, "Street 1", "+15550100", None)];
    var att := map[1 := AttendanceRow(1, 0, Present, 0)];
    assert att[1].userId == 1 && 1 in users;
    assert !HasRowOn(att, 1, MS_PER_DAY);
    assert !HasRowWith(att, 1, MS_PER_DAY, Absent);
  }

  /** With no stored absence the query as written returns only users who
      never had any attendance row. */
  lemma AbsentTodayAsWrittenIsNeverMarked(users: Users, att: Attendances, now: int)
    requires NoStoredAbsence(att)
    ensures forall u :: u in AbsentTodayAsWritten(users, att, now) <==> u in users && forall k :: k in att ==> att[k].userId != u
  {
  }

  /** The intended today query: the absentees of `CURRENT_DATE`, the
      midnight of `now`'s day, the same derivation as the by-date query. */
  function AbsentToday(users: Users, att: Attendances, now: int): (r: set<int>)
    ensures NoStoredAbsence(att) ==> forall u :: u in r <==> u in users && !HasRowOn(att, u, StartOfDay(now))
  {
    AbsenteesAreUnmarked(users, att, StartOfDay(now));
    AbsenteesOn(users, att, StartOfDay(now))
  }

  // ----------------------------------------------------------------- grading

  /** `(presentCount / totalDays) * 100` as JavaScript computes it: a finite
      ratio, `Infinity` for a positive count over zero days, `NaN` for zero
      over zero. */
  datatype Percentage = Ratio(num: int, den: int) | Infinity | NaN

  function PercentageOf(present: nat, days: int): (p: Percentage)
    ensures p.Ratio? ==> p.den == days != 0
  {
    if days == 0 then (if present == 0 then NaN else Infinity) else Ratio(present * 100, days)
  }

  /** `percentage > t`, by cross-multiplication for a finite ratio. */
  predicate Exceeds(p: Percentage, t: int)
  {
    match p
    case Ratio(n, d) => if d > 0 then n > t * d else n < t * d
    case Infinity => true
    case NaN => false
  }

  /** The `switch (true)` over strict thresholds 90, 80, 70, 60 and 50. */
  function LetterGrade(p: Percentage): char
  {
    if Exceeds(p, 90) then 'A'
    else if Exceeds(p, 80) then 'B'
    else if Exceeds(p, 70) then 'C'
    else if Exceeds(p, 60) then 'D'
    else if Exceeds(p, 50) then 'E'
    else 'F'
  }

  /** Grades from F (0) to A (5), for stating monotonicity. */
  function Rank(g: char): int
  {
    match g
    case 'A' => 5
    case 'B' => 4
    case 'C' => 3
    case 'D' => 2
    case 'E' => 1
    case _ => 0
  }

  datatype GradeReport = GradeReport(percentage: Percentage, presentCount: nat, totalDays: int, grade: char)

  /** The caller's PRESENT rows created between `from` and `to`, inclusive. */
  function PresentCount(att: Attendances, userId: int, from: int, to: int): nat
  {
    |set k | k in att && att[k].userId == userId && att[k].status == Present && from <= att[k].createdAt <= to|
  }

  /** The report the grade endpoints compute from the two instants given. */
  function GradeOf(att: Attendances, userId: int, start: int, end: int): GradeReport
  {
    var from, to := StartOfDay(start), EndOfDay(end);
    var days := CeilDiv(to - from, MS_PER_DAY);
    var present := PresentCount(att, userId, from, to);
    var pct := PercentageOf(present, days);
    GradeReport(pct, present, days, LetterGrade(pct))
  }

  /** The body shared by both grade endpoints: `start` and `end` are moved
      in place to the start and the end of their days before the store is
      queried and the difference is taken. */
  method ComputeGrade(att: Attendances, userId: int, startDate: int, endDate: int) returns (report: GradeReport)
    ensures report == GradeOf(att, userId, startDate, endDate)
  {
    var start := new JsDate(startDate);
    var end := new JsDate(endDate);
    var from := start.SetStartOfDay();
    var to := end.SetEndOfDay();
    var presentCount := |set k | k in att && att[k].userId == userId && att[k].status == Present && from <= att[k].createdAt <= to|;
    var diffMs := end.time - start.time;
    var diffDays := CeilDiv(diffMs, MS_PER_DAY);
    var percentage := PercentageOf(presentCount, diffDays);
    report := GradeReport(percentage, presentCount, diffDays, LetterGrade(percentage));
  }

  /** `attendanceGrade`, for the caller. */
  method AttendanceGrade(db: Db, userId: int, startDate: Option<int>, endDate: Option<int>) returns (r: Reply<GradeReport>)
    ensures userId == 0 ==> r == Failure(BAD_REQUEST, "User ID is required.")
    ensures userId != 0 && (startDate.None? || endDate.None?) ==>
      r == Failure(BAD_REQUEST, "Start Date and End Date is required.")
    ensures r.success <==> userId != 0 && startDate.Some? && endDate.Some?
    ensures r.success ==> r.data == Some(GradeOf(db.attendance, userId, startDate.value, endDate.value))
  {
    if userId == 0 {
      return Failure(BAD_REQUEST, "User ID is required.");
    }
    if startDate.None? || endDate.None? {
      return Failure(BAD_REQUEST, "Start Date and End Date is required.");
    }
    var report := ComputeGrade(db.attendance, userId, startDate.value, endDate.value);
    r := Success("Attendance grade calculated successfully.", report);
  }

  /** `attendanceGradeByUserId`: the same computation for a user named in the
      request; it reports the same data as `AttendanceGrade` for that user. */
  method AttendanceGradeByUserId(db: Db, userId: int, startDate: Option<int>, endDate: Option<int>) returns (r: Reply<GradeReport>)
    ensures (userId == 0 || startDate.None? || endDate.None?) ==>
      r == Failure(BAD_REQUEST, "User ID, Start and End Dates are required.")
    ensures r.success <==> userId != 0 && startDate.Some? && endDate.Some?
    ensures r.success ==> r.data == Some(GradeOf(db.attendance, userId, startDate.value, endDate.value))
  {
    if userId == 0 || startDate.None? || endDate.None? {
      return Failure(BAD_REQUEST, "User ID, Start and End Dates are required.");
    }
    var report := ComputeGrade(db.attendance, userId, startDate.value, endDate.value);
    r := Success("Attendance grade calculated successfully.", report);
  }

  /** The day count is the inclusive number of calendar days from the start
      day to the end day: `end.setHours(23, 59, 59, 999)` moves the end
      forward before the difference is taken, so `totalDays` is 1, not 0,
      when both fall on the same day. */
  lemma TotalDaysInclusive(att: Attendances, userId: int, start: int, end: int)
    ensures GradeOf(att, userId, start, end).totalDays == DayOf(end) - DayOf(start) + 1
  {
    var k := DayOf(end) - DayOf(start);
    var diff := EndOfDay(end) - StartOfDay(start);
    assert diff == k * MS_PER_DAY + MS_PER_DAY - 1;
    var q := CeilDiv(diff, MS_PER_DAY);
    assert (q - 1) * MS_PER_DAY < k * MS_PER_DAY + MS_PER_DAY - 1 <= q * MS_PER_DAY;

  }

  /** Only PRESENT rows of the user created inside the two days' bounds count. */
  lemma PresentCountBounds(att: Attendances, userId: int, start: int, end: int, k: int)
    requires k in att && att[k].userId == userId && att[k].status == Present
    ensures StartOfDay(start) <= att[k].createdAt <= EndOfDay(end) ==> GradeOf(att, userId, start, end).presentCount >= 1
    ensures DayOf(end) < DayOf(start) ==> GradeOf(att, userId, start, end).presentCount == 0
  {
    var from, to := StartOfDay(start), EndOfDay(end);
    var s := set j | j in att && att[j].userId == userId && att[j].status == Present && from <= att[j].createdAt <= to;
    if from <= att[k].createdAt <= to {
      assert k in s;
    }
    if DayOf(end) < DayOf(start) {
      assert to < from;
      assert s == {};
    }
  }

  /** An end day before the start day counts nothing and grades F (the
      percentage is NaN when the day count is 0 and -0 below that). */
  lemma ReversedRangeIsF(att: Attendances, userId: int, start: int, end: int)
    requires DayOf(end) < DayOf(start)
    ensures GradeOf(att, userId, start, end).presentCount == 0
    ensures GradeOf(att, userId, start, end).grade == 'F'
  {
    var from, to := StartOfDay(start), EndOfDay(end);
    var s := set j | j in att && att[j].userId == userId && att[j].status == Present && from <= att[j].createdAt <= to;
    assert s == {};
    TotalDaysInclusive(att, userId, start, end);
  }

  /** The thresholds are strict: over a positive number of days, each grade
      is exactly one band of the percentage. */
  lemma GradeBands(present: nat, days: int)
    requires days > 0
    ensures var g := LetterGrade(PercentageOf(present, days));
      && (g == 'A' <==> 100 * present > 90 * days)
      && (g == 'B' <==> 90 * days >= 100 * present > 80 * days)
      && (g == 'C' <==> 80 * days >= 100 * present > 70 * days)
      && (g == 'D' <==> 70 * days >= 100 * present > 60 * days)
      && (g == 'E' <==> 60 * days >= 100 * present > 50 * days)
      && (g == 'F' <==> 50 * days >= 100 * present)
  {
  }

  /** Exactly 90 percent is not above 90: nine days out of ten is a B. */
  lemma NinetyPercentIsB()
    ensures LetterGrade(PercentageOf(9, 10)) == 'B'
  {
  }

  /** For a fixed day count, more present days never lower the grade. */
  lemma GradeMonotone(p1: nat, p2: nat, days: int)
    requires p1 <= p2
    ensures Rank(LetterGrade(PercentageOf(p1, days))) <= Rank(LetterGrade(PercentageOf(p2, days)))
  {
    if days > 0 {
      assert p1 * 100 <= p2 * 100;
    } else if days < 0 {
      assert forall t: int :: t >= 50 ==> !Exceeds(PercentageOf(p1, days), t);
    }
  }
}
