/** The `/student` router: enrolment, assignment submission, the materials
    filter, the notification list and marking a notification read. */
module StudentRoutes {
  import opened Wrappers
  import opened SharedApi
  import opened Text
  import opened Tables
  import opened Http

  datatype StudentRequest =
    | Enroll(courseId: int)
    | SubmitAssignment(assignmentId: int, submissionText: Option<string>, filePath: Option<string>)
    | ListMaterials(courseIdParam: Option<string>)
    | ListNotifications
    | MarkNotificationRead(notificationId: int)

  /** The roles `authorizeRoles` is given for this router. */
  const StudentRoles: seq<string> := [RoleName(Student)]

  /** The notification list is cut at this many rows. */
  const NotificationLimit: nat := 25

  /** Some enrolment row links the student to the course, in any status. */
  predicate HasEnrollment(db: Db, studentId: int, courseId: int) {
    exists k :: 0 <= k < |db.enrollments.rows| &&
      db.enrollments.rows[k].val.studentId == studentId && db.enrollments.rows[k].val.courseId == courseId
  }

  /** `POST /courses/:id/enroll`: 409 when the student already has an
      enrolment row for the course in any status; otherwise exactly one
      'active' row is appended and nothing else changes. */
  function EnrollIn(db: Db, studentId: int, courseId: int, fault: bool): (o: Outcome)
    ensures fault ==> o == Outcome(Response(500, ErrorBody("Failed to enroll in course")), db)
    ensures !fault && HasEnrollment(db, studentId, courseId) ==>
      o == Outcome(Response(409, ErrorBody("Already enrolled in this course")), db)
    ensures !fault && !HasEnrollment(db, studentId, courseId) ==>
      && o.response == Response(200, MessageBody("Enrollment successful"))
      && o.db == db.(enrollments := o.db.enrollments)
      && o.db.enrollments.rows ==
           db.enrollments.rows + [Row(db.enrollments.nextId, EnrollmentData(studentId, courseId, "active"))]
    ensures HasEnrollment(o.db, studentId, courseId) || fault
    ensures Valid(db) ==> Valid(o.db)
  {
    if fault then Outcome(Response(500, ErrorBody("Failed to enroll in course")), db)
    else if HasEnrollment(db, studentId, courseId) then
      Outcome(Response(409, ErrorBody("Already enrolled in this course")), db)
    else
      var (enrollments, _) := Insert(db.enrollments, EnrollmentData(studentId, courseId, "active"));
      assert enrollments.rows[|db.enrollments.rows|].val == EnrollmentData(studentId, courseId, "active");
      Outcome(Response(200, MessageBody("Enrollment successful")), db.(enrollments := enrollments))
  }

  /** Enrolling twice in a row: the second attempt is refused and changes nothing. */
  lemma EnrollTwiceRefused(db: Db, studentId: int, courseId: int)
    ensures var first := EnrollIn(db, studentId, courseId, false);
      EnrollIn(first.db, studentId, courseId, false) ==
        Outcome(Response(409, ErrorBody("Already enrolled in this course")), first.db)
  {
  }

  /** The assignment exists and the student has an enrolment row, in any
      status, for the assignment's course. */
  predicate CanSubmit(db: Db, studentId: int, assignmentId: int) {
    exists a, e :: 0 <= a < |db.assignments.rows| && 0 <= e < |db.enrollments.rows| &&
      db.assignments.rows[a].id == assignmentId &&
      db.enrollments.rows[e].val.studentId == studentId &&
      db.enrollments.rows[e].val.courseId == db.assignments.rows[a].val.courseId
  }

  predicate SubmissionKey(row: Row<SubmissionData>, assignmentId: int, studentId: int) {
    row.val.assignmentId == assignmentId && row.val.studentId == studentId
  }

  /** A submission row for the key is in the state a submit leaves it in. */
  predicate SubmittedAs(row: Row<SubmissionData>, assignmentId: int, studentId: int,
                        text: Option<string>, filePath: Option<string>) {
    SubmissionKey(row, assignmentId, studentId) && row.val.status == "submitted" &&
    row.val.text == OrNull(text) && row.val.filePath == OrNull(filePath)
  }

  /** The upsert of `INSERT ... ON DUPLICATE KEY UPDATE` on
      `(assignment_id, student_id)`. */
  function Upsert(subs: Table<SubmissionData>, assignmentId: int, studentId: int,
                  text: Option<string>, filePath: Option<string>): (r: Table<SubmissionData>)
    ensures |r.rows| >= |subs.rows|
    ensures forall k :: 0 <= k < |subs.rows| ==> !SubmissionKey(subs.rows[k], assignmentId, studentId) ==>
      r.rows[k] == subs.rows[k]
    ensures exists k :: 0 <= k < |r.rows| && SubmittedAs(r.rows[k], assignmentId, studentId, text, filePath)
    ensures (exists k :: 0 <= k < |subs.rows| && SubmissionKey(subs.rows[k], assignmentId, studentId)) ==>
      |r.rows| == |subs.rows| && r.nextId == subs.nextId
    ensures (forall k :: 0 <= k < |subs.rows| ==> !SubmissionKey(subs.rows[k], assignmentId, studentId)) ==>
      r.rows == subs.rows + [Row(subs.nextId, SubmissionData(assignmentId, studentId, OrNull(text),
                                 OrNull(filePath), "submitted", None, None))]
    ensures forall k :: (0 <= k < |subs.rows| && SubmissionKey(subs.rows[k], assignmentId, studentId) &&
        (forall j :: 0 <= j < k ==> !SubmissionKey(subs.rows[j], assignmentId, studentId))) ==>
      && SubmittedAs(r.rows[k], assignmentId, studentId, text, filePath)
      && r.rows[k].id == subs.rows[k].id
      && r.rows[k].val.grade == subs.rows[k].val.grade
      && r.rows[k].val.feedback == subs.rows[k].val.feedback
    ensures WellFormed(subs) ==> WellFormed(r)
    ensures UniqueSubmissionKeys(subs) ==> UniqueSubmissionKeys(r)
  {
    match FindFirst(subs.rows, (row: Row<SubmissionData>) => SubmissionKey(row, assignmentId, studentId))
    case Some(i) =>
      var old_ := subs.rows[i].val;
      var r := Update(subs, i, old_.(text := OrNull(text), filePath := OrNull(filePath), status := "submitted"));
      assert SubmittedAs(r.rows[i], assignmentId, studentId, text, filePath);
      r
    case None =>
      var (r, _) := Insert(subs, SubmissionData(assignmentId, studentId, OrNull(text), OrNull(filePath),
                                                "submitted", None, None));
      assert SubmittedAs(r.rows[|subs.rows|], assignmentId, studentId, text, filePath);
      r
  }

  /** `POST /assignments/:id/submit`: 404 unless the student may submit; else
      the submission for (assignment, student) is created or overwritten with
      status 'submitted' and the new text and file (NULL when falsy). */
  function Submit(db: Db, studentId: int, assignmentId: int, text: Option<string>, filePath: Option<string>,
                  fault: bool): (o: Outcome)
    ensures fault ==> o == Outcome(Response(500, ErrorBody("Failed to submit assignment")), db)
    ensures !fault && !CanSubmit(db, studentId, assignmentId) ==>
      o == Outcome(Response(404, ErrorBody("Assignment not found")), db)
    ensures !fault && CanSubmit(db, studentId, assignmentId) ==>
      && o.response == Response(200, MessageBody("Assignment submitted successfully"))
      && o.db == db.(submissions := Upsert(db.submissions, assignmentId, studentId, text, filePath))
    ensures Valid(db) ==> Valid(o.db)
  {
    if fault then Outcome(Response(500, ErrorBody("Failed to submit assignment")), db)
    else if !CanSubmit(db, studentId, assignmentId) then
      Outcome(Response(404, ErrorBody("Assignment not found")), db)
    else
      Outcome(Response(200, MessageBody("Assignment submitted successfully")),
              db.(submissions := Upsert(db.submissions, assignmentId, studentId, text, filePath)))
  }

  /** Under the unique key, after an upsert exactly one row holds the key,
      and it carries the new text and file with status 'submitted'. */
  lemma UpsertLeavesOneRow(subs: Table<SubmissionData>, assignmentId: int, studentId: int,
                           text: Option<string>, filePath: Option<string>)
    requires UniqueSubmissionKeys(subs)
    ensures var r := Upsert(subs, assignmentId, studentId, text, filePath);
      exists k :: 0 <= k < |r.rows| && SubmittedAs(r.rows[k], assignmentId, studentId, text, filePath) &&
        forall j :: 0 <= j < |r.rows| && j != k ==> !SubmissionKey(r.rows[j], assignmentId, studentId)
  {
    var r := Upsert(subs, assignmentId, studentId, text, filePath);
    assert UniqueSubmissionKeys(r);
    var k :| 0 <= k < |r.rows| && SubmittedAs(r.rows[k], assignmentId, studentId, text, filePath);
    forall j | 0 <= j < |r.rows| && j != k ensures !SubmissionKey(r.rows[j], assignmentId, studentId) {
      if j < k {
        assert (r.rows[j].val.assignmentId, r.rows[j].val.studentId) !=
               (r.rows[k].val.assignmentId, r.rows[k].val.studentId);
      } else {
        assert (r.rows[k].val.assignmentId, r.rows[k].val.studentId) !=
               (r.rows[j].val.assignmentId, r.rows[j].val.studentId);
      }
    }
  }

  /** The `cm.course_id = ?` filter: absent (`None`) unless the query
      parameter is truthy, in which case it holds `Number(courseId)`, which
      may be NaN (`Some(None)`). */
  function MaterialsFilter(courseIdParam: Option<string>): (f: Option<Option<nat>>)
    ensures f.Some? <==> Truthy(courseIdParam)
    ensures f.Some? ==> f.value == ParseDecimal(courseIdParam.value)
  {
    if Truthy(courseIdParam) then Some(ParseDecimal(courseIdParam.value)) else None
  }

  predicate ActiveEnrollment(db: Db, studentId: int, courseId: int) {
    exists k :: 0 <= k < |db.enrollments.rows| && db.enrollments.rows[k].val == EnrollmentData(studentId, courseId, "active")
  }

  predicate CourseExists(db: Db, courseId: int) {
    exists k :: 0 <= k < |db.courses.rows| && db.courses.rows[k].id == courseId
  }

  /** A material the student sees: its course exists, the student is actively
      enrolled in it, and it passes the filter; a NaN filter matches nothing. */
  predicate MaterialVisible(db: Db, studentId: int, filter: Option<Option<nat>>, m: Row<MaterialData>) {
    && CourseExists(db, m.val.courseId)
    && ActiveEnrollment(db, studentId, m.val.courseId)
    && (filter.Some? ==> filter.value == Some(m.val.courseId as nat) && m.val.courseId >= 0)
  }

  /** `GET /materials`: the materials of the student's active courses,
      narrowed to one course exactly when the parameter is truthy. */
  function VisibleMaterials(db: Db, studentId: int, courseIdParam: Option<string>): (r: seq<Row<MaterialData>>)
    ensures forall i :: 0 <= i < |r| ==>
      r[i] in db.materials.rows && MaterialVisible(db, studentId, MaterialsFilter(courseIdParam), r[i])
    ensures forall k :: (0 <= k < |db.materials.rows| &&
      MaterialVisible(db, studentId, MaterialsFilter(courseIdParam), db.materials.rows[k])) ==> db.materials.rows[k] in r
  {
    var filter := MaterialsFilter(courseIdParam);
    Filter(db.materials.rows, (m: Row<MaterialData>) => MaterialVisible(db, studentId, filter, m))
  }

  /** A falsy parameter adds no filter: the list is the same as with none. */
  lemma FalsyCourseParamIsNoFilter(db: Db, studentId: int, courseIdParam: Option<string>)
    requires !Truthy(courseIdParam)
    ensures VisibleMaterials(db, studentId, courseIdParam) == VisibleMaterials(db, studentId, None)
  {
  }

  predicate BelongsTo(row: Row<NotificationData>, userId: int) {
    row.val.userId == userId
  }

  /** `WHERE user_id = ?` on notifications. */
  function Mine(userId: int): Row<NotificationData> -> bool {
    (row: Row<NotificationData>) => BelongsTo(row, userId)
  }

  /** How many notifications in `rows` belong to the user. */
  function CountFor(rows: seq<Row<NotificationData>>, userId: int): nat {
    |Filter(rows, Mine(userId))|
  }

  /** `s` read from its last element back to its first. */
  function Reverse<T>(s: seq<T>): (r: seq<T>)
    ensures |r| == |s|
    ensures forall i :: 0 <= i < |s| ==> r[i] == s[|s| - 1 - i]
  {
    if |s| == 0 then [] else [s[|s| - 1]] + Reverse(s[..|s| - 1])
  }

  /** Filtering distributes over appending one row at the end. */
  lemma {:induction false} FilterSnoc<T>(rows: seq<Row<T>>, x: Row<T>, keep: Row<T> -> bool)
    ensures Filter(rows + [x], keep) == Filter(rows, keep) + (if keep(x) then [x] else [])
  {
    if |rows| > 0 {
      assert (rows + [x])[1..] == rows[1..] + [x];
      FilterSnoc(rows[1..], x, keep);
    } else {
      assert [x][1..] == [];
    }
  }

  function Min(a: nat, b: nat): nat { if a < b then a else b }

  /** `WHERE user_id = ? ORDER BY created_at DESC LIMIT 25`, with creation
      order taken as table order: the user's rows read from the newest back,
      at most `limit` of them, and all of them when there are fewer. */
  function NewestFor(rows: seq<Row<NotificationData>>, userId: int, limit: nat): (r: seq<Row<NotificationData>>)
    ensures |r| == Min(limit, CountFor(rows, userId))
    ensures forall i :: 0 <= i < |r| ==> r[i] in rows && BelongsTo(r[i], userId)
    decreases |rows|
  {
    if |rows| == 0 || limit == 0 then []
    else
      var init, last := rows[..|rows| - 1], rows[|rows| - 1];
      assert rows == init + [last];
      FilterSnoc(init, last, Mine(userId));
      if BelongsTo(last, userId) then [last] + NewestFor(init, userId, limit - 1)
      else NewestFor(init, userId, limit)
  }

  /** The listing is the user's notifications, newest first, cut at the
      limit: the first `limit` rows of the user's rows read back to front. */
  lemma {:induction false} NewestForIsNewestFirst(rows: seq<Row<NotificationData>>, userId: int, limit: nat)
    ensures NewestFor(rows, userId, limit) == Reverse(Filter(rows, Mine(userId)))[..Min(limit, CountFor(rows, userId))]
    decreases |rows|
  {
    var mine := Filter(rows, Mine(userId));
    if |rows| == 0 || limit == 0 {
    } else {
      var init, last := rows[..|rows| - 1], rows[|rows| - 1];
      assert rows == init + [last];
      FilterSnoc(init, last, Mine(userId));
      var before := Filter(init, Mine(userId));
      NewestForIsNewestFirst(init, userId, if BelongsTo(last, userId) then limit - 1 else limit);
      if BelongsTo(last, userId) {
        assert mine == before + [last];
        assert Reverse(mine) == [last] + Reverse(before) by {
          assert mine[..|mine| - 1] == before;
        }
        assert Min(limit, |mine|) == 1 + Min(limit - 1, |before|);
        assert Reverse(mine)[..Min(limit, |mine|)] == [last] + Reverse(before)[..Min(limit - 1, |before|)];
      } else {
        assert mine == before;
      }
    }
  }

  /** A user with at least 25 notifications gets their 25 newest; one with
      fewer gets every one of them, newest first. */
  lemma NotificationsCapped(db: Db, studentId: int)
    ensures var r := NewestFor(db.notifications.rows, studentId, NotificationLimit);
      var mine := Reverse(Filter(db.notifications.rows, Mine(studentId)));
      && (CountFor(db.notifications.rows, studentId) >= 25 ==> |r| == 25 && r == mine[..25])
      && (CountFor(db.notifications.rows, studentId) < 25 ==> r == mine)
  {
    NewestForIsNewestFirst(db.notifications.rows, studentId, NotificationLimit);
  }

  predicate OwnsNotification(row: Row<NotificationData>, notificationId: int, userId: int) {
    row.id == notificationId && row.val.userId == userId
  }

  /** `UPDATE notifications SET is_read = TRUE WHERE id = ? AND user_id = ?` */
  function MarkRows(rows: seq<Row<NotificationData>>, notificationId: int, userId: int): (r: seq<Row<NotificationData>>)
    ensures |r| == |rows|
    ensures forall k :: 0 <= k < |rows| ==> r[k].id == rows[k].id
    ensures forall k :: 0 <= k < |rows| && !OwnsNotification(rows[k], notificationId, userId) ==> r[k] == rows[k]
    ensures forall k :: 0 <= k < |rows| && OwnsNotification(rows[k], notificationId, userId) ==>
      r[k].val.isRead && r[k].val.(isRead := rows[k].val.isRead) == rows[k].val
  {
    seq(|rows|, k requires 0 <= k < |rows| =>
      if OwnsNotification(rows[k], notificationId, userId) then rows[k].(val := rows[k].val.(isRead := true))
      else rows[k])
  }

  /** `PUT /notifications/:id/read`: 404 unless a notification with that id
      belongs to the caller (the driver's affected-row count counts matched
      rows); otherwise only that row's read flag is set. */
  function MarkRead(db: Db, studentId: int, notificationId: int, fault: bool): (o: Outcome)
    ensures fault ==> o == Outcome(Response(500, ErrorBody("Failed to update notification")), db)
    ensures !fault && (forall k :: 0 <= k < |db.notifications.rows| ==>
      !OwnsNotification(db.notifications.rows[k], notificationId, studentId)) ==>
      o == Outcome(Response(404, ErrorBody("Notification not found")), db)
    ensures o.response.status == 200 <==> (!fault &&
      exists k :: 0 <= k < |db.notifications.rows| && OwnsNotification(db.notifications.rows[k], notificationId, studentId))
    ensures o.response.status == 200 ==>
      && o.response.body == SuccessBody
      && (exists k :: 0 <= k < |db.notifications.rows| && OwnsNotification(db.notifications.rows[k], notificationId, studentId))
      && o.db == db.(notifications := o.db.notifications)
      && o.db.notifications.nextId == db.notifications.nextId
      && |o.db.notifications.rows| == |db.notifications.rows|
      && forall k :: 0 <= k < |db.notifications.rows| ==>
           o.db.notifications.rows[k].id == db.notifications.rows[k].id &&
           o.db.notifications.rows[k].val.isRead == (db.notifications.rows[k].val.isRead ||
             OwnsNotification(db.notifications.rows[k], notificationId, studentId)) &&
           o.db.notifications.rows[k].val.(isRead := false) == db.notifications.rows[k].val.(isRead := false)
    ensures o.response.status in {200, 404, 500}
    ensures Valid(db) ==> Valid(o.db)
  {
    if fault then Outcome(Response(500, ErrorBody("Failed to update notification")), db)
    else if forall k :: 0 <= k < |db.notifications.rows| ==>
      !OwnsNotification(db.notifications.rows[k], notificationId, studentId) then
      Outcome(Response(404, ErrorBody("Notification not found")), db)
    else
      var rows := MarkRows(db.notifications.rows, notificationId, studentId);
      var notifications := Table(rows, db.notifications.nextId);
      assert WellFormed(db.notifications) ==> WellFormed(notifications) by {
        assert forall k :: 0 <= k < |rows| ==> rows[k].id == db.notifications.rows[k].id;
      }
      Outcome(Response(200, SuccessBody), db.(notifications := notifications))
  }

  /** The handler behind the guards, for a caller with the given id. */
  function Handle(db: Db, studentId: int, req: StudentRequest, fault: bool): (o: Outcome)
    ensures Valid(db) ==> Valid(o.db)
    ensures (req.ListMaterials? || req.ListNotifications?) ==> o.db == db
  {
    match req
    case Enroll(courseId) => EnrollIn(db, studentId, courseId, fault)
    case SubmitAssignment(assignmentId, text, filePath) => Submit(db, studentId, assignmentId, text, filePath, fault)
    case ListMaterials(courseIdParam) =>
      if fault then Outcome(Response(500, ErrorBody("Failed to fetch materials")), db)
      else Outcome(Response(200, MaterialsBody(VisibleMaterials(db, studentId, courseIdParam))), db)
    case ListNotifications =>
      if fault then Outcome(Response(500, ErrorBody("Failed to fetch notifications")), db)
      else Outcome(Response(200, NotificationsBody(NewestFor(db.notifications.rows, studentId, NotificationLimit))), db)
    case MarkNotificationRead(notificationId) => MarkRead(db, studentId, notificationId, fault)
  }

  /** Every student route: `authenticateToken`, then `authorizeRoles("student")`,
      then the handler with the identity the first guard attached. A request
      either guard refuses gets that guard's answer and changes nothing. */
  function Route(g: Guards, authorization: Option<string>, db: Db, req: StudentRequest, fault: bool): (o: Outcome)
    ensures g.authenticate(authorization).Failure? ==> o == Outcome(g.authenticate(authorization).error, db)
    ensures (g.authenticate(authorization).Success? &&
      g.authorize(StudentRoles, g.authenticate(authorization).value).Some?) ==>
      o == Outcome(g.authorize(StudentRoles, g.authenticate(authorization).value).value, db)
    ensures (g.authenticate(authorization).Success? &&
      g.authorize(StudentRoles, g.authenticate(authorization).value).None?) ==>
      o == Handle(db, g.authenticate(authorization).value.id, req, fault)
    ensures o.db != db ==>
      g.authenticate(authorization).Success? && g.authorize(StudentRoles, g.authenticate(authorization).value).None?
    ensures Valid(db) ==> Valid(o.db)
  {
    match Admit(g, StudentRoles, authorization)
    case Failure(resp) => Outcome(resp, db)
    case Success(user) => Handle(db, user.id, req, fault)
  }
}
