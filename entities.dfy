/** The records the services read and write, with the fields the services
    actually use, and the database they live in. Times are milliseconds
    since the epoch, as `Date.getTime()` gives them. */
module Entities {
  import opened Wrappers
  import opened Collections

  datatype Role = Teacher | Student

  /** A stored account. `hashedRefreshToken` is `None` for SQL `NULL`. */
  datatype User = User(
    id: string,
    email: string,
    fullName: Option<string>,
    passwordHash: string,
    role: Role,
    hashedRefreshToken: Option<string>)

  /** A user without the password hash and the refresh-token hash. */
  datatype SafeUser = SafeUser(id: string, email: string, fullName: Option<string>, role: Role)

  datatype Course = Course(id: string, title: string, teacherId: string)

  datatype TaskStatus = Draft | Active

  datatype Task = Task(
    id: string,
    courseId: string,
    title: string,
    description: Option<string>,
    deadline: int,
    latePenaltyPercent: int,
    referenceFileUrl: string,
    status: TaskStatus)

  datatype SubmissionStatus = Pending | Graded

  datatype Submission = Submission(
    id: string,
    taskId: string,
    studentId: string,
    submittedAt: int,
    autoScore: Option<int>,
    finalScore: Option<int>,
    status: SubmissionStatus)

  datatype SubmissionFile = SubmissionFile(id: string, submissionId: string, fileUrl: string)

  /** A submission with the relations a query loads: the `student` (the
      whole users row, both hashes included), the `task`, the task's
      `course` and the `files`. A relation the query does not request is
      `None`. */
  datatype SubmissionView = SubmissionView(
    submission: Submission,
    student: Option<User>,
    task: Option<Task>,
    course: Option<Course>,
    files: seq<SubmissionFile>)

  /** `tasksRepository.findOne({ where: { id } })`, shared by the task and
      submission services. */
  function FindTask(tasks: seq<Task>, id: string): (r: Option<Task>)
    ensures r.Some? ==> r.value in tasks && r.value.id == id
    ensures r.None? <==> forall i :: 0 <= i < |tasks| ==> tasks[i].id != id
  {
    First(tasks, (t: Task) => t.id == id)
  }

  /** `coursesRepository.findOne({ where: { id } })`, shared by the task and
      submission services. */
  function FindCourse(courses: seq<Course>, id: string): (r: Option<Course>)
    ensures r.Some? ==> r.value in courses && r.value.id == id
    ensures r.None? <==> forall i :: 0 <= i < |courses| ==> courses[i].id != id
  {
    First(courses, (c: Course) => c.id == id)
  }

  ghost predicate UsersKeyed(users: seq<User>) {
    && (forall i, j :: 0 <= i < j < |users| ==> users[i].id != users[j].id)
    && (forall i, j :: 0 <= i < j < |users| ==> users[i].email != users[j].email)
  }

  ghost predicate CoursesKeyed(courses: seq<Course>) {
    forall i, j :: 0 <= i < j < |courses| ==> courses[i].id != courses[j].id
  }

  /** Task ids are unique and every task's course is stored. */
  ghost predicate TasksKeyed(tasks: seq<Task>, courses: seq<Course>) {
    && (forall i, j :: 0 <= i < j < |tasks| ==> tasks[i].id != tasks[j].id)
    && (forall i :: 0 <= i < |tasks| ==> exists k :: 0 <= k < |courses| && courses[k].id == tasks[i].courseId)
  }

  ghost predicate SubmissionsKeyed(submissions: seq<Submission>) {
    forall i, j :: 0 <= i < j < |submissions| ==> submissions[i].id != submissions[j].id
  }

  /** File ids are unique and every file's submission is stored. */
  ghost predicate FilesKeyed(files: seq<SubmissionFile>, submissions: seq<Submission>) {
    && (forall i, j :: 0 <= i < j < |files| ==> files[i].id != files[j].id)
    && (forall i :: 0 <= i < |files| ==> exists k :: 0 <= k < |submissions| && submissions[k].id == files[i].submissionId)
  }

  /** The tables, in insertion order. `findOne` returns the first matching row. */
  class Database {
    var users: seq<User>
    var courses: seq<Course>
    var tasks: seq<Task>
    var submissions: seq<Submission>
    var files: seq<SubmissionFile>

    constructor()
      ensures users == [] && courses == [] && tasks == [] && submissions == [] && files == []
      ensures Valid()
    {
      users := [];
      courses := [];
      tasks := [];
      submissions := [];
      files := [];
    }

    /** Primary keys are unique, emails are unique (the `IDX_USERS_EMAIL`
        index), every task belongs to a stored course and every file to a
        stored submission. */
    ghost predicate Valid()
      reads this
    {
      && UsersKeyed(users)
      && CoursesKeyed(courses)
      && TasksKeyed(tasks, courses)
      && SubmissionsKeyed(submissions)
      && FilesKeyed(files, submissions)
    }
  }
}
