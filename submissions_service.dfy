/** Student submissions: creation with their files, the lookup with its
    relations, the listings for a student and for a task's owner (newest
    first), and the two score updates. The submission time the database
    stamps and the ids it generates are parameters. */
module SubmissionsService {
  import opened Wrappers
  import opened Entities
  import opened Collections
  import Users = UsersService

  datatype CreateSubmissionDto = CreateSubmissionDto(taskId: string, fileUrls: seq<string>)

  function SubmissionNotFound(id: string): string {
    "Submission " + id + " not found"
  }

  function TaskNotFound(id: string): string {
    "Task " + id + " not found"
  }

  function FindSubmission(submissions: seq<Submission>, id: string): (r: Option<Submission>)
    ensures r.Some? ==> r.value in submissions && r.value.id == id
    ensures r.None? <==> forall i :: 0 <= i < |submissions| ==> submissions[i].id != id
  {
    First(submissions, (s: Submission) => s.id == id)
  }

  /** The `files` relation of a submission: its file rows in table order. */
  function FilesOf(files: seq<SubmissionFile>, submissionId: string): (r: seq<SubmissionFile>)
    ensures forall i :: 0 <= i < |r| ==> r[i] in files && r[i].submissionId == submissionId
    ensures forall i :: 0 <= i < |files| && files[i].submissionId == submissionId ==> files[i] in r
  {
    Filter(files, (f: SubmissionFile) => f.submissionId == submissionId)
  }

  /** The `task.course` relation: the course of a loaded task. */
  function CourseOf(courses: seq<Course>, task: Option<Task>): (r: Option<Course>)
    ensures r.Some? ==> task.Some? && r.value in courses && r.value.id == task.value.courseId
    ensures task.Some? ==> (r.None? <==> forall i :: 0 <= i < |courses| ==> courses[i].id != task.value.courseId)
  {
    if task.Some? then FindCourse(courses, task.value.courseId) else None
  }

  /** `findById`: the submission with its `files`, `student`, `task` and
      `task.course` relations, or `NotFound`. */
  function View(users: seq<User>, courses: seq<Course>, tasks: seq<Task>, submissions: seq<Submission>,
                files: seq<SubmissionFile>, id: string): (r: Result<SubmissionView>)
    ensures FindSubmission(submissions, id).None? <==> r == Err(NotFound(SubmissionNotFound(id)))
    ensures r.Ok? ==>
      && r.value.submission == FindSubmission(submissions, id).value
      && r.value.student == Users.FindById(users, r.value.submission.studentId)
      && r.value.task == FindTask(tasks, r.value.submission.taskId)
      && r.value.course == CourseOf(courses, r.value.task)
      && r.value.files == FilesOf(files, id)
    ensures r.Ok? && r.value.student.Some? ==>
      r.value.student.value in users && r.value.student.value.id == r.value.submission.studentId
  {
    match FindSubmission(submissions, id)
    case None => Err(NotFound(SubmissionNotFound(id)))
    case Some(s) =>
      var task := FindTask(tasks, s.taskId);
      Ok(SubmissionView(s, Users.FindById(users, s.studentId), task, CourseOf(courses, task), FilesOf(files, id)))
  }

  /** The loaded student is the stored row itself, so the response of
      `findById` carries the student's password hash and refresh-token hash
      unchanged. */
  lemma ViewCarriesStudentSecrets(users: seq<User>, courses: seq<Course>, tasks: seq<Task>, submissions: seq<Submission>,
                                  files: seq<SubmissionFile>, id: string, k: int)
    requires UsersKeyed(users)
    requires 0 <= k < |users|
    requires FindSubmission(submissions, id).Some? && FindSubmission(submissions, id).value.studentId == users[k].id
    ensures var r := View(users, courses, tasks, submissions, files, id);
      && r.Ok? && r.value.student == Some(users[k])
      && r.value.student.value.passwordHash == users[k].passwordHash
      && r.value.student.value.hashedRefreshToken == users[k].hashedRefreshToken
  {
    Users.FindByIdUnique(users, k);
  }

  /** `saveFiles`: one row per URL, in the order given. */
  function NewFiles(submissionId: string, fileUrls: seq<string>, fileIds: seq<string>): (r: seq<SubmissionFile>)
    requires |fileIds| == |fileUrls|
    ensures |r| == |fileUrls|
    ensures forall i :: 0 <= i < |r| ==> r[i] == SubmissionFile(fileIds[i], submissionId, fileUrls[i])
  {
    seq(|fileUrls|, i requires 0 <= i < |fileUrls| => SubmissionFile(fileIds[i], submissionId, fileUrls[i]))
  }

  /** The submission `createSubmission` stores: pending, not yet scored. */
  function NewSubmission(id: string, taskId: string, studentId: string, now: int): (s: Submission)
    ensures s.id == id && s.taskId == taskId && s.studentId == studentId && s.submittedAt == now
    ensures s.status == Pending && s.autoScore.None? && s.finalScore.None?
  {
    Submission(id, taskId, studentId, now, None, None, Pending)
  }

  /** A submission's files are exactly the new rows when no older row refers to it. */
  lemma NewFilesAreTheFiles(files: seq<SubmissionFile>, submissionId: string, fileUrls: seq<string>, fileIds: seq<string>)
    requires |fileIds| == |fileUrls|
    requires forall i :: 0 <= i < |files| ==> files[i].submissionId != submissionId
    ensures FilesOf(files + NewFiles(submissionId, fileUrls, fileIds), submissionId) == NewFiles(submissionId, fileUrls, fileIds)
  {
    var p := (f: SubmissionFile) => f.submissionId == submissionId;
    var added := NewFiles(submissionId, fileUrls, fileIds);
    FilterConcat(files, added, p);
    FilterAllOrNone(files, p);
    FilterAllOrNone(added, p);
  }

  /** The `find` with `order: { submittedAt: 'DESC' }`: the submissions
      satisfying `p`, newest first. */
  function NewestFirst(submissions: seq<Submission>, p: Submission -> bool): (r: seq<Submission>)
    ensures multiset(r) == multiset(Filter(submissions, p))
    ensures forall i :: 0 <= i < |r| ==> r[i] in submissions && p(r[i])
    ensures forall i, j :: 0 <= i < j < |r| ==> r[i].submittedAt >= r[j].submittedAt
  {
    var chosen := Filter(submissions, p);
    var sorted := SortBy(chosen, (s: Submission) => -s.submittedAt);
    assert forall i :: 0 <= i < |sorted| ==> sorted[i] in chosen by {
      forall i | 0 <= i < |sorted| ensures sorted[i] in chosen {
        assert sorted[i] in multiset(sorted);
      }
    }
    sorted
  }

  /** Every submission satisfying `p` is listed. */
  lemma NewestFirstComplete(submissions: seq<Submission>, p: Submission -> bool, k: int)
    requires 0 <= k < |submissions| && p(submissions[k])
    ensures submissions[k] in NewestFirst(submissions, p)
  {
    var chosen := Filter(submissions, p);
    SortKeepsElements(chosen, (s: Submission) => -s.submittedAt, submissions[k]);
  }

  /** Attaches the loaded relations to each listed submission: the `files`
      always, the `student` when `users` is given, the `task` when `tasks`
      is given, and never the task's course (no listing requests it). */
  function WithRelations(list: seq<Submission>, users: Option<seq<User>>, tasks: Option<seq<Task>>,
                         files: seq<SubmissionFile>): (r: seq<SubmissionView>)
    ensures |r| == |list|
    ensures forall i :: 0 <= i < |r| ==>
      && r[i].submission == list[i]
      && r[i].files == FilesOf(files, list[i].id)
      && r[i].student == (if users.Some? then Users.FindById(users.value, list[i].studentId) else None)
      && r[i].task == (if tasks.Some? then FindTask(tasks.value, list[i].taskId) else None)
      && r[i].course.None?
  {
    seq(|list|, i requires 0 <= i < |list| =>
      SubmissionView(list[i],
                     if users.Some? then Users.FindById(users.value, list[i].studentId) else None,
                     if tasks.Some? then FindTask(tasks.value, list[i].taskId) else None,
                     None,
                     FilesOf(files, list[i].id)))
  }

  /** `findByStudent`: the student's submissions, newest first, with their
      task and files (the `student` relation is not requested). */
  function FindByStudent(submissions: seq<Submission>, tasks: seq<Task>, files: seq<SubmissionFile>, studentId: string): (r: seq<SubmissionView>)
    ensures multiset(Submissions(r)) == multiset(Filter(submissions, (s: Submission) => s.studentId == studentId))
    ensures forall i :: 0 <= i < |r| ==> r[i].submission in submissions && r[i].submission.studentId == studentId
    ensures forall i :: 0 <= i < |r| ==> r[i].task == FindTask(tasks, r[i].submission.taskId) && r[i].files == FilesOf(files, r[i].submission.id)
    ensures forall i :: 0 <= i < |r| ==> r[i].student.None? && r[i].course.None?
    ensures forall i, j :: 0 <= i < j < |r| ==> r[i].submission.submittedAt >= r[j].submission.submittedAt
  {
    var list := NewestFirst(submissions, (s: Submission) => s.studentId == studentId);
    var r := WithRelations(list, None, Some(tasks), files);
    SubmissionsOfRelations(list, None, Some(tasks), files);
    r
  }

  /** The submissions of a listing, without their relations. */
  function Submissions(views: seq<SubmissionView>): (r: seq<Submission>)
    ensures |r| == |views| && forall i :: 0 <= i < |r| ==> r[i] == views[i].submission
  {
    seq(|views|, i requires 0 <= i < |views| => views[i].submission)
  }

  lemma SubmissionsOfRelations(list: seq<Submission>, users: Option<seq<User>>, tasks: Option<seq<Task>>, files: seq<SubmissionFile>)
    ensures Submissions(WithRelations(list, users, tasks, files)) == list
  {
  }

  /** `findByTask`: the task must exist and its course belong to the
      teacher; then its submissions, newest first, with their `student`
      (the whole users row) and their files (the `task` relation is not
      requested and stays unloaded). */
  function FindByTask(users: seq<User>, submissions: seq<Submission>, tasks: seq<Task>, courses: seq<Course>,
                      files: seq<SubmissionFile>, taskId: string, teacherId: string): (r: Result<seq<SubmissionView>>)
    ensures FindTask(tasks, taskId).None? ==> r == Err(NotFound(TaskNotFound(taskId)))
    ensures FindTask(tasks, taskId).Some? && FindCourse(courses, FindTask(tasks, taskId).value.courseId).Some? ==>
      (r.Err? <==> FindCourse(courses, FindTask(tasks, taskId).value.courseId).value.teacherId != teacherId)
    ensures r.Err? && FindTask(tasks, taskId).Some? && FindCourse(courses, FindTask(tasks, taskId).value.courseId).Some? ==>
      r == Err(Forbidden("Only the course owner can view submissions"))
    ensures r.Ok? ==> multiset(Submissions(r.value)) == multiset(Filter(submissions, (s: Submission) => s.taskId == taskId))
    ensures r.Ok? ==> forall i :: 0 <= i < |r.value| ==>
      r.value[i].submission.taskId == taskId && r.value[i].task.None? && r.value[i].files == FilesOf(files, r.value[i].submission.id)
    ensures r.Ok? ==> forall i :: 0 <= i < |r.value| ==>
      r.value[i].student == Users.FindById(users, r.value[i].submission.studentId) && r.value[i].course.None?
    ensures r.Ok? ==> forall i, j :: 0 <= i < j < |r.value| ==> r.value[i].submission.submittedAt >= r.value[j].submission.submittedAt
  {
    match FindTask(tasks, taskId)
    case None => Err(NotFound(TaskNotFound(taskId)))
    case Some(task) =>
      match FindCourse(courses, task.courseId)
      case None => Err(NotFound(TaskNotFound(taskId)))
      case Some(course) =>
        if course.teacherId != teacherId then Err(Forbidden("Only the course owner can view submissions"))
        else
          var list := NewestFirst(submissions, (s: Submission) => s.taskId == taskId);
          SubmissionsOfRelations(list, Some(users), None, files);
          Ok(WithRelations(list, Some(users), None, files))
  }

  /** `update(submissionId, { autoScore })`. */
  function SetAutoScore(submissions: seq<Submission>, id: string, score: int): (r: seq<Submission>)
    ensures |r| == |submissions|
    ensures forall i :: 0 <= i < |r| ==> r[i].id == submissions[i].id
    ensures forall i :: 0 <= i < |r| && submissions[i].id != id ==> r[i] == submissions[i]
  {
    seq(|submissions|, i requires 0 <= i < |submissions| =>
      if submissions[i].id == id then submissions[i].(autoScore := Some(score)) else submissions[i])
  }

  /** `update(submissionId, { finalScore, status: Graded })`. */
  function SetFinalScore(submissions: seq<Submission>, id: string, score: int): (r: seq<Submission>)
    ensures |r| == |submissions|
    ensures forall i :: 0 <= i < |r| ==> r[i].id == submissions[i].id
    ensures forall i :: 0 <= i < |r| && submissions[i].id != id ==> r[i] == submissions[i]
  {
    seq(|submissions|, i requires 0 <= i < |submissions| =>
      if submissions[i].id == id then submissions[i].(finalScore := Some(score), status := Graded) else submissions[i])
  }

  /** The first row with an id is found at the same place after an update
      that keeps every row's id. */
  lemma FindSamePlace(before: seq<Submission>, after: seq<Submission>, id: string)
    requires |after| == |before|
    requires forall i :: 0 <= i < |after| ==> after[i].id == before[i].id
    ensures FindSubmission(after, id).None? <==> FindSubmission(before, id).None?
    ensures FindSubmission(before, id).Some? ==>
      exists k :: 0 <= k < |before| && before[k] == FindSubmission(before, id).value && after[k] == FindSubmission(after, id).value
  {
    FirstSamePlace(before, after, (s: Submission) => s.id == id);
  }

  /** After `updateAutoScore` the submission carries the new automatic
      score; its final score and status are kept. */
  lemma AutoScoreSet(submissions: seq<Submission>, id: string, score: int)
    requires FindSubmission(submissions, id).Some?
    ensures FindSubmission(SetAutoScore(submissions, id, score), id) ==
      Some(FindSubmission(submissions, id).value.(autoScore := Some(score)))
  {
    FindSamePlace(submissions, SetAutoScore(submissions, id, score), id);
  }

  /** After `updateFinalScore` the submission is graded with the new final
      score; its automatic score is kept. */
  lemma FinalScoreSet(submissions: seq<Submission>, id: string, score: int)
    requires FindSubmission(submissions, id).Some?
    ensures FindSubmission(SetFinalScore(submissions, id, score), id) ==
      Some(FindSubmission(submissions, id).value.(finalScore := Some(score), status := Graded))
  {
    FindSamePlace(submissions, SetFinalScore(submissions, id, score), id);
  }

  /** Saving a submission with a fresh id and file rows with fresh ids that
      point at it keeps the keys valid; no stored file pointed at it before. */
  lemma AppendKeepsKeys(submissions: seq<Submission>, files: seq<SubmissionFile>, saved: Submission, added: seq<SubmissionFile>)
    requires SubmissionsKeyed(submissions) && FilesKeyed(files, submissions)
    requires forall i :: 0 <= i < |submissions| ==> submissions[i].id != saved.id
    requires forall i :: 0 <= i < |added| ==> added[i].submissionId == saved.id
    requires forall i, j :: 0 <= i < j < |added| ==> added[i].id != added[j].id
    requires forall i, j :: 0 <= i < |files| && 0 <= j < |added| ==> files[i].id != added[j].id
    ensures SubmissionsKeyed(submissions + [saved])
    ensures FilesKeyed(files + added, submissions + [saved])
    ensures forall i :: 0 <= i < |submissions| ==> submissions[i].id != saved.id
    ensures forall i :: 0 <= i < |files| ==> files[i].submissionId != saved.id
  {
    var subs := submissions + [saved];
    var all := files + added;
    forall i | 0 <= i < |files| ensures files[i].submissionId != saved.id {
      var f := files[i];
      var k :| 0 <= k < |submissions| && submissions[k].id == files[i].submissionId;
    }
    forall i, j | 0 <= i < j < |all| ensures all[i].id != all[j].id {
      if j < |files| {
      } else if i < |files| {
        assert all[j] == added[j - |files|];
      } else {
        assert all[i] == added[i - |files|] && all[j] == added[j - |files|];
      }
    }
    forall i | 0 <= i < |all|
      ensures exists k :: 0 <= k < |subs| && subs[k].id == all[i].submissionId
    {
      if i < |files| {
        var f := files[i];
        var k :| 0 <= k < |submissions| && submissions[k].id == f.submissionId;
        assert subs[k].id == all[i].submissionId;
      } else {
        assert all[i] == added[i - |files|];
        assert subs[|submissions|].id == all[i].submissionId;
      }
    }
    assert forall i :: 0 <= i < |all| ==> exists k :: 0 <= k < |subs| && subs[k].id == all[i].submissionId;
  }

  /** `updateAutoScore` of one submission leaves every other submission as
      it was. */
  lemma AutoScoreOthers(submissions: seq<Submission>, id: string, score: int, other: string)
    requires other != id
    ensures FindSubmission(SetAutoScore(submissions, id, score), other) == FindSubmission(submissions, other)
  {
    var r := SetAutoScore(submissions, id, score);
    assert forall i :: 0 <= i < |submissions| && submissions[i].id == other ==> r[i] == submissions[i];
    FindSamePlace(submissions, r, other);
  }

  /** `updateFinalScore` of one submission leaves every other submission as
      it was. */
  lemma FinalScoreOthers(submissions: seq<Submission>, id: string, score: int, other: string)
    requires other != id
    ensures FindSubmission(SetFinalScore(submissions, id, score), other) == FindSubmission(submissions, other)
  {
    var r := SetFinalScore(submissions, id, score);
    assert forall i :: 0 <= i < |submissions| && submissions[i].id == other ==> r[i] == submissions[i];
    FindSamePlace(submissions, r, other);
  }

  /** An update of a missing id changes no row, and `findById` then fails. */
  lemma ScoreOfMissingSubmission(submissions: seq<Submission>, id: string, score: int)
    requires FindSubmission(submissions, id).None?
    ensures SetAutoScore(submissions, id, score) == submissions
    ensures SetFinalScore(submissions, id, score) == submissions
  {
  }

  /** Re-running the automatic evaluation after grading does not ungrade. */
  lemma AutoScoreKeepsGrade(submissions: seq<Submission>, id: string, auto: int, final: int)
    requires FindSubmission(submissions, id).Some?
    ensures var graded := SetAutoScore(SetFinalScore(submissions, id, final), id, auto);
      FindSubmission(graded, id).value.status == Graded && FindSubmission(graded, id).value.finalScore == Some(final)
  {
    var once := SetFinalScore(submissions, id, final);
    FinalScoreSet(submissions, id, final);
    AutoScoreSet(once, id, auto);
  }

  /** Row keys survive an update that keeps every row's id. */
  lemma SameIdsKeepKeys(before: seq<Submission>, after: seq<Submission>, files: seq<SubmissionFile>)
    requires |after| == |before|
    requires forall i :: 0 <= i < |after| ==> after[i].id == before[i].id
    requires SubmissionsKeyed(before) && FilesKeyed(files, before)
    ensures SubmissionsKeyed(after) && FilesKeyed(files, after)
  {
    forall i, j | 0 <= i < j < |after| ensures after[i].id != after[j].id {
      assert after[i].id == before[i].id && after[j].id == before[j].id;
    }
    forall i | 0 <= i < |files|
      ensures exists k :: 0 <= k < |after| && after[k].id == files[i].submissionId
    {
      var k :| 0 <= k < |before| && before[k].id == files[i].submissionId;
      assert 0 <= k < |after| && after[k].id == files[i].submissionId;
    }
    assert forall i :: 0 <= i < |files| ==> exists k :: 0 <= k < |after| && after[k].id == files[i].submissionId;
  }

  class SubmissionsService {
    const db: Database

    constructor(db: Database)
      ensures this.db == db
    {
      this.db := db;
    }

    /** `createSubmission`: the task must exist; the pending submission and
        one file row per URL are saved, and the submission is read back. */
    method CreateSubmission(studentId: string, dto: CreateSubmissionDto, id: string, now: int, fileIds: seq<string>)
      returns (r: Result<SubmissionView>)
      requires db.Valid()
      requires |fileIds| == |dto.fileUrls|
      requires forall i :: 0 <= i < |db.submissions| ==> db.submissions[i].id != id
      requires forall i, j :: 0 <= i < j < |fileIds| ==> fileIds[i] != fileIds[j]
      requires forall i, j :: 0 <= i < |db.files| && 0 <= j < |fileIds| ==> db.files[i].id != fileIds[j]
      modifies db
      ensures db.Valid()
      ensures FindTask(old(db.tasks), dto.taskId).None? ==>
        r == Err(NotFound(TaskNotFound(dto.taskId))) && db.submissions == old(db.submissions) && db.files == old(db.files)
      ensures FindTask(old(db.tasks), dto.taskId).Some? ==>
        && db.submissions == old(db.submissions) + [NewSubmission(id, dto.taskId, studentId, now)]
        && db.files == old(db.files) + NewFiles(id, dto.fileUrls, fileIds)
        && r == Ok(SubmissionView(NewSubmission(id, dto.taskId, studentId, now),
                                  Users.FindById(old(db.users), studentId),
                                  FindTask(old(db.tasks), dto.taskId),
                                  FindCourse(old(db.courses), FindTask(old(db.tasks), dto.taskId).value.courseId),
                                  NewFiles(id, dto.fileUrls, fileIds)))
      ensures db.users == old(db.users) && db.courses == old(db.courses) && db.tasks == old(db.tasks)
    {
      var task := FindTask(db.tasks, dto.taskId);
      if task.None? {
        return Err(NotFound(TaskNotFound(dto.taskId)));
      }
      var saved := NewSubmission(id, task.value.id, studentId, now);
      var added := NewFiles(saved.id, dto.fileUrls, fileIds);
      AppendKeepsKeys(db.submissions, db.files, saved, added);
      FirstOfUnique(db.submissions + [saved], (s: Submission) => s.id == id, |db.submissions|);
      NewFilesAreTheFiles(db.files, id, dto.fileUrls, fileIds);
      db.submissions := db.submissions + [saved];
      db.files := db.files + added;
      r := View(db.users, db.courses, db.tasks, db.submissions, db.files, saved.id);
    }

    /** `findById`. */
    method FindById(id: string) returns (r: Result<SubmissionView>)
      ensures r == View(db.users, db.courses, db.tasks, db.submissions, db.files, id)
    {
      r := View(db.users, db.courses, db.tasks, db.submissions, db.files, id);
    }

    /** `updateAutoScore`: sets the automatic score, then reads the submission back. */
    method UpdateAutoScore(id: string, score: int) returns (r: Result<SubmissionView>)
      requires db.Valid()
      modifies db
      ensures db.Valid()
      ensures db.submissions == SetAutoScore(old(db.submissions), id, score)
      ensures r == View(db.users, db.courses, db.tasks, db.submissions, db.files, id)
      ensures db.users == old(db.users) && db.courses == old(db.courses)
      ensures db.tasks == old(db.tasks) && db.files == old(db.files)
    {
      var updated := SetAutoScore(db.submissions, id, score);
      SameIdsKeepKeys(db.submissions, updated, db.files);
      db.submissions := updated;
      r := View(db.users, db.courses, db.tasks, db.submissions, db.files, id);
    }

    /** `updateFinalScore`: sets the final score and marks the submission
        graded, then reads it back. */
    method UpdateFinalScore(id: string, score: int) returns (r: Result<SubmissionView>)
      requires db.Valid()
      modifies db
      ensures db.Valid()
      ensures db.submissions == SetFinalScore(old(db.submissions), id, score)
      ensures r == View(db.users, db.courses, db.tasks, db.submissions, db.files, id)
      ensures db.users == old(db.users) && db.courses == old(db.courses)
      ensures db.tasks == old(db.tasks) && db.files == old(db.files)
    {
      var updated := SetFinalScore(db.submissions, id, score);
      SameIdsKeepKeys(db.submissions, updated, db.files);
      db.submissions := updated;
      r := View(db.users, db.courses, db.tasks, db.submissions, db.files, id);
    }
  }
}
