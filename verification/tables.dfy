/** The database as in-memory tables. A table is a sequence of rows in
    insertion order plus the next auto-increment id. Only the columns the
    modelled write paths read or write are kept. */
module Tables {
  import opened Wrappers

  datatype Row<T> = Row(id: nat, val: T)

  datatype Table<T> = Table(rows: seq<Row<T>>, nextId: nat)

  /** Every id is below the auto-increment counter and no two rows share one. */
  predicate WellFormed<T>(t: Table<T>) {
    && (forall i :: 0 <= i < |t.rows| ==> t.rows[i].id < t.nextId)
    && IdsDistinct(t.rows)
  }

  /** Appends a row under a fresh id; returns the new table and that id. */
  function Insert<T>(t: Table<T>, v: T): (r: (Table<T>, nat))
    ensures |r.0.rows| == |t.rows| + 1 && r.0.rows[..|t.rows|] == t.rows
    ensures r.0.rows[|t.rows|] == Row(r.1, v)
    ensures WellFormed(t) ==> WellFormed(r.0)
    ensures WellFormed(t) ==> forall i :: 0 <= i < |t.rows| ==> t.rows[i].id != r.1
  {
    (Table(t.rows + [Row(t.nextId, v)], t.nextId + 1), t.nextId)
  }

  /** Replaces the value of row `i`, keeping its id and position. */
  function Update<T>(t: Table<T>, i: nat, v: T): (r: Table<T>)
    requires i < |t.rows|
    ensures |r.rows| == |t.rows| && r.nextId == t.nextId
    ensures r.rows[i] == Row(t.rows[i].id, v)
    ensures forall k :: 0 <= k < |t.rows| && k != i ==> r.rows[k] == t.rows[k]
    ensures WellFormed(t) ==> WellFormed(r)
  {
    Table(t.rows[i := Row(t.rows[i].id, v)], t.nextId)
  }

  /** Keeps the rows satisfying `keep`, in order. */
  function Filter<T>(rows: seq<Row<T>>, keep: Row<T> -> bool): (r: seq<Row<T>>)
    ensures |r| <= |rows|
    ensures forall i :: 0 <= i < |r| ==> r[i] in rows && keep(r[i])
    ensures forall i :: 0 <= i < |rows| && keep(rows[i]) ==> rows[i] in r
  {
    if |rows| == 0 then []
    else (if keep(rows[0]) then [rows[0]] else []) + Filter(rows[1..], keep)
  }

  predicate IdsDistinct<T>(rows: seq<Row<T>>) {
    forall i, j :: 0 <= i < j < |rows| ==> rows[i].id != rows[j].id
  }

  /** Filtering a well-formed table leaves a well-formed table. */
  lemma {:induction false} FilterKeepsIdsDistinct<T>(rows: seq<Row<T>>, keep: Row<T> -> bool)
    requires IdsDistinct(rows)
    ensures IdsDistinct(Filter(rows, keep))
  {
    if |rows| > 0 {
      FilterKeepsIdsDistinct(rows[1..], keep);
      var tail := Filter(rows[1..], keep);
      forall j | 0 <= j < |tail| ensures tail[j].id != rows[0].id {
        assert tail[j] in rows[1..];
        var k :| 0 <= k < |rows[1..]| && rows[1..][k] == tail[j];
        assert rows[k + 1] == tail[j];
      }
      var r := Filter(rows, keep);
      if keep(rows[0]) {
        assert r == [rows[0]] + tail;
        forall i, j | 0 <= i < j < |r| ensures r[i].id != r[j].id {
          if i > 0 {
            assert r[i] == tail[i - 1] && r[j] == tail[j - 1];
            assert tail[i - 1].id != tail[j - 1].id;
          } else {
            assert r[j] == tail[j - 1];
          }
        }
      } else {
        assert r == tail;
      }
    }
  }

  /** Index of the first row satisfying `p`, if any. */
  function FindFirst<T>(rows: seq<Row<T>>, p: Row<T> -> bool): (r: Option<nat>)
    ensures r.Some? ==> r.value < |rows| && p(rows[r.value])
    ensures r.Some? ==> forall k :: 0 <= k < r.value ==> !p(rows[k])
    ensures r.None? <==> forall k :: 0 <= k < |rows| ==> !p(rows[k])
  {
    if |rows| == 0 then None
    else if p(rows[0]) then Some(0)
    else match FindFirst(rows[1..], p)
      case None => None
      case Some(k) => Some(k + 1)
  }

  datatype UserData = UserData(
    email: string,
    passwordHash: string,
    firstName: string,
    lastName: string,
    role: string,
    profileImage: Option<string>)

  datatype CourseData = CourseData(
    code: Option<string>,
    name: Option<string>,
    description: Option<string>,
    facultyId: int,
    semester: Option<string>,
    credits: int,
    maxStudents: int)

  datatype EnrollmentData = EnrollmentData(studentId: int, courseId: int, status: string)

  datatype AssignmentData = AssignmentData(courseId: int)

  datatype SubmissionData = SubmissionData(
    assignmentId: int,
    studentId: int,
    text: Option<string>,
    filePath: Option<string>,
    status: string,
    grade: Option<string>,
    feedback: Option<string>)

  datatype MaterialData = MaterialData(
    courseId: int,
    title: Option<string>,
    description: Option<string>,
    fileType: Option<string>,
    filePath: Option<string>,
    fileSize: Option<string>,
    uploadedBy: int)

  datatype NotificationData = NotificationData(
    userId: int,
    title: string,
    message: Option<string>,
    kind: string,
    relatedType: string,
    relatedId: int,
    isRead: bool)

  datatype Db = Db(
    users: Table<UserData>,
    courses: Table<CourseData>,
    enrollments: Table<EnrollmentData>,
    assignments: Table<AssignmentData>,
    submissions: Table<SubmissionData>,
    materials: Table<MaterialData>,
    notifications: Table<NotificationData>)

  /** The unique key on `users.email`. */
  predicate UniqueEmails(users: Table<UserData>) {
    forall i, j :: 0 <= i < j < |users.rows| ==> users.rows[i].val.email != users.rows[j].val.email
  }

  /** The unique key on `courses.course_code`; NULL codes do not collide. */
  predicate UniqueCourseCodes(courses: Table<CourseData>) {
    forall i, j :: 0 <= i < j < |courses.rows| && courses.rows[i].val.code.Some? ==>
      courses.rows[i].val.code != courses.rows[j].val.code
  }

  /** The unique key on `(assignment_id, student_id)` of submissions. */
  predicate UniqueSubmissionKeys(subs: Table<SubmissionData>) {
    forall i, j :: 0 <= i < j < |subs.rows| ==>
      (subs.rows[i].val.assignmentId, subs.rows[i].val.studentId) !=
      (subs.rows[j].val.assignmentId, subs.rows[j].val.studentId)
  }

  /** The database invariant every write path must keep. */
  predicate Valid(db: Db) {
    && WellFormed(db.users) && WellFormed(db.courses) && WellFormed(db.enrollments)
    && WellFormed(db.assignments) && WellFormed(db.submissions)
    && WellFormed(db.materials) && WellFormed(db.notifications)
    && UniqueEmails(db.users)
    && UniqueCourseCodes(db.courses)
    && UniqueSubmissionKeys(db.submissions)
  }
}
