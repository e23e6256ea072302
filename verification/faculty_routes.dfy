/** The `/faculty` router: course creation and detail, grading, material
    upload and announcements. */
module FacultyRoutes {
  import opened Wrappers
  import opened SharedApi
  import opened Text
  import opened Tables
  import opened Http

  datatype FacultyRequest =
    | CreateCourse(courseCode: Option<string>, courseName: Option<string>, description: Option<string>,
                   semester: Option<string>, credits: Option<int>, maxStudents: Option<int>)
    | CourseDetail(courseId: int)
    | GradeSubmission(submissionId: int, grade: Option<string>, feedback: Option<string>)
    | UploadMaterial(courseId: int, title: Option<string>, description: Option<string>, fileType: Option<string>,
                     filePath: Option<string>, fileSize: Option<string>)
    | Announce(courseId: int, message: Option<string>)

  /** The roles `authorizeRoles` is given for this router. */
  const FacultyRoles: seq<string> := [RoleName(Faculty)]

  const DefaultCredits: int := 3
  const DefaultMaxStudents: int := 100

  const UnauthorizedCourse := Response(403, ErrorBody("Unauthorized course access"))

  /** `value || fallback` for a numeric field: NULL and 0 fall back. */
  function OrDefault(f: Option<int>, fallback: int): (r: int)
    ensures f.Some? && f.value != 0 ==> r == f.value
    ensures f.None? || f.value == 0 ==> r == fallback
  {
    if f.Some? && f.value != 0 then f.value else fallback
  }

  /** Another course already has this code; NULL codes never collide. */
  predicate CodeTaken(courses: Table<CourseData>, code: Option<string>) {
    code.Some? && exists k :: 0 <= k < |courses.rows| && courses.rows[k].val.code == code
  }

  /** `POST /courses`: the owner is the caller, credits default to 3 and
      seats to 100 when falsy; a duplicate code answers 409 and any other
      database failure 500, both without change; otherwise one course row is
      appended. */
  function NewCourse(db: Db, facultyId: int, req: FacultyRequest, fault: bool): (o: Outcome)
    requires req.CreateCourse?
    ensures fault ==> o == Outcome(Response(500, ErrorBody("Failed to create course")), db)
    ensures !fault && CodeTaken(db.courses, req.courseCode) ==>
      o == Outcome(Response(409, ErrorBody("Course code already exists")), db)
    ensures o.response.status == 201 <==> !fault && !CodeTaken(db.courses, req.courseCode)
    ensures o.response.status == 201 ==>
      && o.response.body == CreatedBody(db.courses.nextId, "Course created successfully")
      && o.db == db.(courses := o.db.courses)
      && |o.db.courses.rows| == |db.courses.rows| + 1
      && o.db.courses.rows[..|db.courses.rows|] == db.courses.rows
      && var c := o.db.courses.rows[|db.courses.rows|];
         c.id == db.courses.nextId && c.val.facultyId == facultyId && c.val.code == req.courseCode &&
         c.val.name == req.courseName && c.val.description == req.description && c.val.semester == req.semester &&
         (req.credits.Some? && req.credits.value != 0 ==> c.val.credits == req.credits.value) &&
         (req.credits.None? || req.credits.value == 0 ==> c.val.credits == DefaultCredits) &&
         (req.maxStudents.Some? && req.maxStudents.value != 0 ==> c.val.maxStudents == req.maxStudents.value) &&
         (req.maxStudents.None? || req.maxStudents.value == 0 ==> c.val.maxStudents == DefaultMaxStudents)
    ensures o.response.status != 201 ==> o.db == db
    ensures Valid(db) ==> Valid(o.db)
  {
    if fault then Outcome(Response(500, ErrorBody("Failed to create course")), db)
    else if CodeTaken(db.courses, req.courseCode) then
      Outcome(Response(409, ErrorBody("Course code already exists")), db)
    else
      var row := CourseData(req.courseCode, req.courseName, req.description, facultyId, req.semester,
                            OrDefault(req.credits, DefaultCredits), OrDefault(req.maxStudents, DefaultMaxStudents));
      var (courses, id) := Insert(db.courses, row);
      Outcome(Response(201, CreatedBody(id, "Course created successfully")), db.(courses := courses))
  }

  /** `WHERE id = ? AND faculty_id = ?` */
  predicate OwnsCourse(row: Row<CourseData>, courseId: int, facultyId: int) {
    row.id == courseId && row.val.facultyId == facultyId
  }

  predicate CallerOwns(db: Db, courseId: int, facultyId: int) {
    exists k :: 0 <= k < |db.courses.rows| && OwnsCourse(db.courses.rows[k], courseId, facultyId)
  }

  /** `WHERE course_id = ? AND status = 'active'` on enrolments. */
  function ActiveIn(courseId: int): Row<EnrollmentData> -> bool {
    (e: Row<EnrollmentData>) => e.val.courseId == courseId && e.val.status == "active"
  }

  /** Student ids of the course's active enrolment rows, in table order: one
      entry per row, so a student enrolled twice appears twice. */
  function ActiveStudents(rows: seq<Row<EnrollmentData>>, courseId: int): (ids: seq<int>)
    ensures |ids| <= |rows|
    ensures forall s :: s in ids <==>
      exists k :: 0 <= k < |rows| && rows[k].val == EnrollmentData(s, courseId, "active")
  {
    if |rows| == 0 then []
    else
      var tail := ActiveStudents(rows[1..], courseId);
      forall sid | exists k :: 1 <= k < |rows| && rows[k].val == EnrollmentData(sid, courseId, "active")
        ensures sid in tail {
        var k :| 1 <= k < |rows| && rows[k].val == EnrollmentData(sid, courseId, "active");
        assert rows[1..][k - 1] == rows[k];
      }
      if rows[0].val.courseId == courseId && rows[0].val.status == "active" then [rows[0].val.studentId] + tail
      else tail
  }

  /** The list is exactly the projection of the active enrolment rows onto
      their student ids: same length, same order, duplicates kept. */
  lemma {:induction false} ActiveStudentsProjection(rows: seq<Row<EnrollmentData>>, courseId: int)
    ensures |ActiveStudents(rows, courseId)| == |Filter(rows, ActiveIn(courseId))|
    ensures forall j :: 0 <= j < |ActiveStudents(rows, courseId)| ==>
      ActiveStudents(rows, courseId)[j] == Filter(rows, ActiveIn(courseId))[j].val.studentId
  {
    if |rows| > 0 {
      var f := ActiveIn(courseId);
      var ids, tail := ActiveStudents(rows, courseId), ActiveStudents(rows[1..], courseId);
      var kept, rest := Filter(rows, f), Filter(rows[1..], f);
      ActiveStudentsProjection(rows[1..], courseId);
      if f(rows[0]) {
        assert ids == [rows[0].val.studentId] + tail;
        assert kept == [rows[0]] + rest;
        forall j | 0 <= j < |ids| ensures ids[j] == kept[j].val.studentId {
          if j > 0 { assert ids[j] == tail[j - 1] && kept[j] == rest[j - 1]; }
        }
      } else {
        assert ids == tail && kept == rest;
      }
    }
  }

  /** `GET /courses/:id`: 404 unless the caller owns a course with that id;
      otherwise the course and the students actively enrolled in it. */
  function Detail(db: Db, facultyId: int, courseId: int, fault: bool): (resp: Response)
    ensures fault ==> resp == Response(500, ErrorBody("Failed to fetch course details"))
    ensures !fault && !CallerOwns(db, courseId, facultyId) ==> resp == Response(404, ErrorBody("Course not found"))
    ensures resp.status == 200 <==> !fault && CallerOwns(db, courseId, facultyId)
    ensures resp.status == 200 ==>
      resp.body.CourseDetailBody? && resp.body.course in db.courses.rows &&
      OwnsCourse(resp.body.course, courseId, facultyId) &&
      resp.body.studentIds == ActiveStudents(db.enrollments.rows, courseId)
  {
    if fault then Response(500, ErrorBody("Failed to fetch course details"))
    else match FindFirst(db.courses.rows, (c: Row<CourseData>) => OwnsCourse(c, courseId, facultyId))
      case None => Response(404, ErrorBody("Course not found"))
      case Some(i) => Response(200, CourseDetailBody(db.courses.rows[i], ActiveStudents(db.enrollments.rows, courseId)))
  }

  function GradeNotification(studentId: int, submissionId: int, grade: Option<string>): NotificationData {
    NotificationData(studentId, "Assignment Graded", Some("Your submission has been graded. Score: " + TemplateText(grade)),
                     "grade", "submission", submissionId, false)
  }

  /** `UPDATE assignment_submissions SET grade, feedback, status = 'graded' WHERE id = ?` */
  function GradeRows(rows: seq<Row<SubmissionData>>, submissionId: int, grade: Option<string>,
                     feedback: Option<string>): (r: seq<Row<SubmissionData>>)
    ensures |r| == |rows|
    ensures forall k :: 0 <= k < |rows| ==> r[k].id == rows[k].id
    ensures forall k :: 0 <= k < |rows| && rows[k].id != submissionId ==> r[k] == rows[k]
    ensures forall k :: 0 <= k < |rows| && rows[k].id == submissionId ==>
      && r[k].val.grade == grade && r[k].val.feedback == feedback && r[k].val.status == "graded"
      && r[k].val.(grade := rows[k].val.grade, feedback := rows[k].val.feedback, status := rows[k].val.status) == rows[k].val
  {
    seq(|rows|, k requires 0 <= k < |rows| =>
      if rows[k].id == submissionId then rows[k].(val := rows[k].val.(grade := grade, feedback := feedback, status := "graded"))
      else rows[k])
  }

  /** `PUT /submissions/:id/grade`: updates the submission by id with no
      check that the caller teaches its course, always answers 200, and adds
      one notification for the submission's student only when the
      submission exists. */
  function Grade(db: Db, submissionId: int, grade: Option<string>, feedback: Option<string>, fault: bool): (o: Outcome)
    ensures fault ==> o == Outcome(Response(500, ErrorBody("Failed to grade submission")), db)
    ensures !fault ==>
      && o.response == Response(200, MessageBody("Submission graded successfully"))
      && o.db == db.(submissions := o.db.submissions, notifications := o.db.notifications)
      && o.db.submissions == Table(GradeRows(db.submissions.rows, submissionId, grade, feedback), db.submissions.nextId)
    ensures !fault ==> match FindFirst(db.submissions.rows, (s: Row<SubmissionData>) => s.id == submissionId)
      case None => o.db.notifications == db.notifications
      case Some(i) => (o.db.notifications.rows == db.notifications.rows +
        [Row(db.notifications.nextId, GradeNotification(db.submissions.rows[i].val.studentId, submissionId, grade))])
    ensures Valid(db) ==> Valid(o.db)
  {
    if fault then Outcome(Response(500, ErrorBody("Failed to grade submission")), db)
    else
      var rows := GradeRows(db.submissions.rows, submissionId, grade, feedback);
      var submissions := Table(rows, db.submissions.nextId);
      assert UniqueSubmissionKeys(db.submissions) ==> UniqueSubmissionKeys(submissions);
      var notifications :=
        match FindFirst(rows, (s: Row<SubmissionData>) => s.id == submissionId)
        case None => db.notifications
        case Some(i) => Insert(db.notifications, GradeNotification(rows[i].val.studentId, submissionId, grade)).0;
      assert FindFirst(rows, (s: Row<SubmissionData>) => s.id == submissionId) ==
             FindFirst(db.submissions.rows, (s: Row<SubmissionData>) => s.id == submissionId) by {
        FindFirstSameIds(rows, db.submissions.rows, submissionId);
      }
      Outcome(Response(200, MessageBody("Submission graded successfully")),
              db.(submissions := submissions, notifications := notifications))
  }

  /** Looking a row up by id only depends on the ids. */
  lemma {:induction false} FindFirstSameIds<T>(a: seq<Row<T>>, b: seq<Row<T>>, id: int)
    requires |a| == |b| && forall k :: 0 <= k < |a| ==> a[k].id == b[k].id
    ensures FindFirst(a, (r: Row<T>) => r.id == id) == FindFirst(b, (r: Row<T>) => r.id == id)
  {
    if |a| > 0 {
      FindFirstSameIds(a[1..], b[1..], id);
    }
  }

  /** The missing ownership check: a faculty member grades a submission to a
      course owned by somebody else, and the grade is stored. */
  lemma GradeIgnoresOwnership(db: Db, facultyId: int, i: nat, grade: Option<string>, feedback: Option<string>)
    requires i < |db.submissions.rows| && IdsDistinct(db.submissions.rows)
    requires forall k :: 0 <= k < |db.courses.rows| ==> db.courses.rows[k].val.facultyId != facultyId
    ensures var o := Grade(db, db.submissions.rows[i].id, grade, feedback, false);
      o.response.status == 200 && o.db.submissions.rows[i].val.grade == grade &&
      o.db.submissions.rows[i].val.status == "graded"
  {
  }

  /** `POST /materials`: 403 and no insert unless the caller owns the course;
      otherwise one material row, uploaded by the caller, is appended. */
  function Upload(db: Db, facultyId: int, req: FacultyRequest, fault: bool): (o: Outcome)
    requires req.UploadMaterial?
    ensures fault ==> o == Outcome(Response(500, ErrorBody("Failed to upload material")), db)
    ensures !fault && !CallerOwns(db, req.courseId, facultyId) ==> o == Outcome(UnauthorizedCourse, db)
    ensures o.response.status == 201 <==> !fault && CallerOwns(db, req.courseId, facultyId)
    ensures o.response.status == 201 ==>
      && o.response.body == CreatedBody(db.materials.nextId, "Material uploaded successfully")
      && o.db == db.(materials := o.db.materials)
      && o.db.materials.rows == db.materials.rows + [Row(db.materials.nextId, MaterialData(req.courseId, req.title,
           req.description, req.fileType, req.filePath, req.fileSize, facultyId))]
    ensures o.response.status != 201 ==> o.db == db
    ensures Valid(db) ==> Valid(o.db)
  {
    if fault then Outcome(Response(500, ErrorBody("Failed to upload material")), db)
    else if !CallerOwns(db, req.courseId, facultyId) then Outcome(UnauthorizedCourse, db)
    else
      var (materials, id) := Insert(db.materials, MaterialData(req.courseId, req.title, req.description, req.fileType,
                                                               req.filePath, req.fileSize, facultyId));
      Outcome(Response(201, CreatedBody(id, "Material uploaded successfully")), db.(materials := materials))
  }

  /** Appends one notification per recipient, in order. */
  function NotifyAll(t: Table<NotificationData>, recipients: seq<int>, make: int -> NotificationData): (r: Table<NotificationData>)
    ensures |r.rows| == |t.rows| + |recipients|
    ensures r.rows[..|t.rows|] == t.rows
    ensures forall k :: 0 <= k < |recipients| ==> r.rows[|t.rows| + k].val == make(recipients[k])
    ensures WellFormed(t) ==> WellFormed(r)
    decreases |recipients|
  {
    if |recipients| == 0 then t
    else
      var t1 := Insert(t, make(recipients[0])).0;
      var r := NotifyAll(t1, recipients[1..], make);
      assert r.rows[..|t.rows|] == r.rows[..|t1.rows|][..|t.rows|];
      forall k | 1 <= k < |recipients| ensures r.rows[|t.rows| + k].val == make(recipients[k]) {
        assert r.rows[|t1.rows| + (k - 1)].val == make(recipients[1..][k - 1]);
      }
      r
  }

  function AnnouncementFor(course: Row<CourseData>, message: Option<string>): int -> NotificationData {
    (studentId: int) => NotificationData(studentId, "Announcement: " + TemplateText(course.val.name), message,
                                         "announcement", "course", course.id, false)
  }

  /** `after` is `before` with one announcement row appended per student,
      in order, each addressed to that student and carrying the message and
      the course. */
  predicate Announced(before: Table<NotificationData>, after: Table<NotificationData>, students: seq<int>,
                      message: Option<string>, courseId: int) {
    && |after.rows| == |before.rows| + |students|
    && after.rows[..|before.rows|] == before.rows
    && forall k :: 0 <= k < |students| ==>
         var n := after.rows[|before.rows| + k].val;
         n.userId == students[k] && n.message == message && n.kind == "announcement" && n.relatedId == courseId
  }

  /** The fan-out of an announcement on `course`: the table grows by one row
      per recipient, after the existing rows, each addressed to its recipient
      and carrying the message and the course. */
  function Broadcast(t: Table<NotificationData>, students: seq<int>, course: Row<CourseData>, message: Option<string>,
                     courseId: int): (r: Table<NotificationData>)
    requires course.id == courseId
    ensures Announced(t, r, students, message, courseId)
    ensures WellFormed(t) ==> WellFormed(r)
  {
    var make := AnnouncementFor(course, message);
    var r := NotifyAll(t, students, make);
    forall k | 0 <= k < |students|
      ensures var n := r.rows[|t.rows| + k].val;
        n.userId == students[k] && n.message == message && n.kind == "announcement" && n.relatedId == courseId
    {
      assert r.rows[|t.rows| + k].val == make(students[k]);
    }
    r
  }

  /** `POST /announcements` as intended, the corrected route: 403 and
      nothing inserted unless the caller owns the course; otherwise exactly
      one notification per active enrolment row of the course (none when
      there are none), and the reply reports that count. The route as
      written is `AnnouncementAsWritten`. */
  function Announcement(db: Db, facultyId: int, courseId: int, message: Option<string>, fault: bool): (o: Outcome)
    ensures fault ==> o == Outcome(Response(500, ErrorBody("Failed to send announcement")), db)
    ensures !fault && !CallerOwns(db, courseId, facultyId) ==> o == Outcome(UnauthorizedCourse, db)
    ensures o.response.status == 200 <==> !fault && CallerOwns(db, courseId, facultyId)
    ensures o.response.status == 200 ==>
      var students := ActiveStudents(db.enrollments.rows, courseId);
      && o.response.body == MessageBody("Announcement sent to " + NatText(|students|) + " students")
      && o.db == db.(notifications := o.db.notifications)
      && Announced(db.notifications, o.db.notifications, students, message, courseId)
    ensures o.response.status != 200 ==> o.db == db
    ensures Valid(db) ==> Valid(o.db)
  {
    if fault then Outcome(Response(500, ErrorBody("Failed to send announcement")), db)
    else match FindFirst(db.courses.rows, (c: Row<CourseData>) => OwnsCourse(c, courseId, facultyId))
      case None => Outcome(UnauthorizedCourse, db)
      case Some(i) =>
        var students := ActiveStudents(db.enrollments.rows, courseId);
        assert db.courses.rows[i].id == courseId;
        var notifications := Broadcast(db.notifications, students, db.courses.rows[i], message, courseId);
        Outcome(Response(200, MessageBody("Announcement sent to " + NatText(|students|) + " students")),
                db.(notifications := notifications))
  }

  /** An owned course with no active students: the announcement succeeds,
      reports 0 and inserts nothing. */
  lemma AnnouncementToEmptyCourse(db: Db, facultyId: int, courseId: int, message: Option<string>)
    requires CallerOwns(db, courseId, facultyId)
    requires forall k :: 0 <= k < |db.enrollments.rows| ==>
      db.enrollments.rows[k].val.courseId != courseId || db.enrollments.rows[k].val.status != "active"
    ensures Announcement(db, facultyId, courseId, message, false) ==
      Outcome(Response(200, MessageBody("Announcement sent to 0 students")), db)
  {
    var students := ActiveStudents(db.enrollments.rows, courseId);
    if |students| > 0 {
      assert students[0] in students;
      var k :| 0 <= k < |db.enrollments.rows| && db.enrollments.rows[k].val == EnrollmentData(students[0], courseId, "active");
      assert false;
    }
  }

  /** A successful announcement inserts one notification per active
      enrolment row of the course, addressed to that row's student, in order. */
  lemma AnnouncementPerEnrolmentRow(db: Db, facultyId: int, courseId: int, message: Option<string>)
    requires CallerOwns(db, courseId, facultyId)
    ensures var o := Announcement(db, facultyId, courseId, message, false);
      var active := Filter(db.enrollments.rows, ActiveIn(courseId));
      && o.response.status == 200
      && |o.db.notifications.rows| == |db.notifications.rows| + |active|
      && forall j :: 0 <= j < |active| ==>
           o.db.notifications.rows[|db.notifications.rows| + j].val.userId == active[j].val.studentId
  {
    var o := Announcement(db, facultyId, courseId, message, false);
    ActiveStudentsProjection(db.enrollments.rows, courseId);
    AnnouncedRowsFollow(db.notifications, o.db.notifications, ActiveStudents(db.enrollments.rows, courseId),
                        Filter(db.enrollments.rows, ActiveIn(courseId)), message, courseId);
  }

  /** Announced rows addressed to a projection of enrolment rows follow
      those rows one for one. */
  lemma AnnouncedRowsFollow(before: Table<NotificationData>, after: Table<NotificationData>, students: seq<int>,
                            active: seq<Row<EnrollmentData>>, message: Option<string>, courseId: int)
    requires Announced(before, after, students, message, courseId)
    requires |students| == |active|
    requires forall j :: 0 <= j < |active| ==> students[j] == active[j].val.studentId
    ensures |after.rows| == |before.rows| + |active|
    ensures forall j :: 0 <= j < |active| ==> after.rows[|before.rows| + j].val.userId == active[j].val.studentId
  {
  }

  /** The announcement route as written. Its bulk insert `INSERT ... VALUES ?`
      goes through `pool.execute`, a server-side prepared statement, where a
      placeholder stands for one value and cannot expand into a list of rows:
      the server refuses the statement and the catch branch answers 500. So
      only an owned course with no active students gets a 200. */
  function AnnouncementAsWritten(db: Db, facultyId: int, courseId: int, message: Option<string>, fault: bool): (o: Outcome)
    ensures o.db == db
    ensures o.response.status == 200 <==>
      !fault && CallerOwns(db, courseId, facultyId) && |ActiveStudents(db.enrollments.rows, courseId)| == 0
    ensures !fault && !CallerOwns(db, courseId, facultyId) ==> o.response == UnauthorizedCourse
    ensures (fault || (CallerOwns(db, courseId, facultyId) && |ActiveStudents(db.enrollments.rows, courseId)| > 0)) ==>
      o.response == Response(500, ErrorBody("Failed to send announcement"))
  {
    if fault then Outcome(Response(500, ErrorBody("Failed to send announcement")), db)
    else if !CallerOwns(db, courseId, facultyId) then Outcome(UnauthorizedCourse, db)
    else if |ActiveStudents(db.enrollments.rows, courseId)| > 0 then
      Outcome(Response(500, ErrorBody("Failed to send announcement")), db)
    else Outcome(Response(200, MessageBody("Announcement sent to 0 students")), db)
  }

  /** The discrepancy: for an owned course with one active student, the code
      as written answers 500 and notifies nobody, while the intended route
      answers 200 and notifies that student. */
  lemma AnnouncementAsWrittenFailsWithStudents(db: Db, facultyId: int, courseId: int, message: Option<string>, k: nat)
    requires CallerOwns(db, courseId, facultyId)
    requires k < |db.enrollments.rows| && db.enrollments.rows[k].val.courseId == courseId
    requires db.enrollments.rows[k].val.status == "active"
    ensures AnnouncementAsWritten(db, facultyId, courseId, message, false) ==
      Outcome(Response(500, ErrorBody("Failed to send announcement")), db)
    ensures Announcement(db, facultyId, courseId, message, false).response.status == 200
    ensures |Announcement(db, facultyId, courseId, message, false).db.notifications.rows| > |db.notifications.rows|
  {
    var e := db.enrollments.rows[k];
    assert e.val == EnrollmentData(e.val.studentId, courseId, "active");
    assert e.val.studentId in ActiveStudents(db.enrollments.rows, courseId);
  }

  /** The handler behind the guards, for a caller with the given id. An
      announcement goes to the corrected `Announcement`, not to
      `AnnouncementAsWritten`. */
  function Handle(db: Db, facultyId: int, req: FacultyRequest, fault: bool): (o: Outcome)
    ensures Valid(db) ==> Valid(o.db)
    ensures req.CourseDetail? ==> o.db == db
  {
    match req
    case CreateCourse(_, _, _, _, _, _) => NewCourse(db, facultyId, req, fault)
    case CourseDetail(courseId) => Outcome(Detail(db, facultyId, courseId, fault), db)
    case GradeSubmission(submissionId, grade, feedback) => Grade(db, submissionId, grade, feedback, fault)
    case UploadMaterial(_, _, _, _, _, _) => Upload(db, facultyId, req, fault)
    case Announce(courseId, message) => Announcement(db, facultyId, courseId, message, fault)
  }

  /** Every faculty route: `authenticateToken`, then `authorizeRoles('faculty')`,
      then the handler. A request either guard refuses gets that guard's
      answer and changes nothing. */
  function Route(g: Guards, authorization: Option<string>, db: Db, req: FacultyRequest, fault: bool): (o: Outcome)
    ensures g.authenticate(authorization).Failure? ==> o == Outcome(g.authenticate(authorization).error, db)
    ensures (g.authenticate(authorization).Success? &&
      g.authorize(FacultyRoles, g.authenticate(authorization).value).Some?) ==>
      o == Outcome(g.authorize(FacultyRoles, g.authenticate(authorization).value).value, db)
    ensures (g.authenticate(authorization).Success? &&
      g.authorize(FacultyRoles, g.authenticate(authorization).value).None?) ==>
      o == Handle(db, g.authenticate(authorization).value.id, req, fault)
    ensures o.db != db ==>
      g.authenticate(authorization).Success? && g.authorize(FacultyRoles, g.authenticate(authorization).value).None?
    ensures Valid(db) ==> Valid(o.db)
  {
    match Admit(g, FacultyRoles, authorization)
    case Failure(resp) => Outcome(resp, db)
    case Success(user) => Handle(db, user.id, req, fault)
  }
}
