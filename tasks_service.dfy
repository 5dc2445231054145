/** Tasks of a course: creation by the course's teacher with defaults,
    lookup, listing by deadline, partial update and replacement of the
    reference file. Parsing a date string (`new Date(value)`) is an abstract
    partial function giving milliseconds since the epoch. */
module TasksService {
  import opened Wrappers
  import opened Entities
  import opened Collections

  /** A deadline as the DTO may carry it: a `Date` or a string. */
  datatype DeadlineInput = DateValue(time: int) | DateString(text: string)

  /** The fields `create` reads. It reads `deadline`, which the DTO does not
      declare (it declares `dueDate`); `None` stands for `undefined`. */
  datatype CreateTaskDto = CreateTaskDto(
    courseId: string,
    title: string,
    description: Option<string>,
    deadline: Option<DeadlineInput>,
    latePenaltyPercent: Option<int>,
    referenceFileUrl: string,
    status: Option<TaskStatus>)

  /** `None` stands for a field left `undefined`. */
  datatype UpdateTaskDto = UpdateTaskDto(
    title: Option<string>,
    description: Option<string>,
    deadline: Option<DeadlineInput>,
    latePenaltyPercent: Option<int>,
    status: Option<TaskStatus>)

  const InvalidDeadline: string := "Invalid deadline"

  function CourseNotFound(courseId: string): string {
    "Course " + courseId + " not found"
  }

  function TaskNotFound(id: string): string {
    "Task " + id + " not found"
  }

  /** `parseDeadline`: a `Date` passes through, a string must parse. */
  function ParseDeadline(value: DeadlineInput, parse: string -> Option<int>): (r: Result<int>)
    ensures value.DateValue? ==> r == Ok(value.time)
    ensures value.DateString? ==> (r.Err? <==> parse(value.text).None?)
    ensures value.DateString? && r.Ok? ==> r.value == parse(value.text).value
    ensures r.Err? ==> r.error == BadRequest(InvalidDeadline)
  {
    match value
    case DateValue(t) => Ok(t)
    case DateString(s) =>
      match parse(s)
      case None => Err(BadRequest(InvalidDeadline))
      case Some(t) => Ok(t)
  }

  /** `parseDeadline` of a field that may be `undefined`: `new Date(undefined)`
      is an invalid date, so a missing deadline is rejected like an
      unparsable one. */
  function ParseOptionalDeadline(value: Option<DeadlineInput>, parse: string -> Option<int>): (r: Result<int>)
    ensures value.None? ==> r == Err(BadRequest(InvalidDeadline))
    ensures value.Some? ==> r == ParseDeadline(value.value, parse)
  {
    if value.Some? then ParseDeadline(value.value, parse) else Err(BadRequest(InvalidDeadline))
  }

  /** A create body validated against the DTO cannot carry `deadline`, so
      whenever the course exists and belongs to the teacher, `create`
      rejects it with the invalid-deadline error. */
  lemma CreateWithoutDeadline(courses: seq<Course>, dto: CreateTaskDto, teacherId: string, id: string,
                              parse: string -> Option<int>)
    requires dto.deadline.None?
    ensures CreateCheck(courses, dto, teacherId, id, parse).Err?
    ensures FindCourse(courses, dto.courseId).Some? && FindCourse(courses, dto.courseId).value.teacherId == teacherId ==>
      CreateCheck(courses, dto, teacherId, id, parse) == Err(BadRequest(InvalidDeadline))
  {
  }

  /** The decision of `create`: the course must exist, then belong to the
      teacher, and only then is the deadline parsed; absent fields take their
      defaults. */
  function CreateCheck(courses: seq<Course>, dto: CreateTaskDto, teacherId: string, id: string,
                       parse: string -> Option<int>): (r: Result<Task>)
    ensures FindCourse(courses, dto.courseId).None? ==> r == Err(NotFound(CourseNotFound(dto.courseId)))
    ensures FindCourse(courses, dto.courseId).Some? && FindCourse(courses, dto.courseId).value.teacherId != teacherId ==>
      r == Err(Forbidden("Only the course owner can create tasks"))
    ensures r.Ok? ==> FindCourse(courses, dto.courseId).Some? && FindCourse(courses, dto.courseId).value.teacherId == teacherId
    ensures r.Ok? ==> dto.deadline.Some? && ParseDeadline(dto.deadline.value, parse) == Ok(r.value.deadline)
    ensures FindCourse(courses, dto.courseId).Some? && FindCourse(courses, dto.courseId).value.teacherId == teacherId ==>
      (r.Err? <==> dto.deadline.None? || ParseDeadline(dto.deadline.value, parse).Err?)
    ensures r.Ok? ==>
      && r.value.id == id && r.value.courseId == dto.courseId && r.value.title == dto.title
      && r.value.referenceFileUrl == dto.referenceFileUrl
      && r.value.description == dto.description
      && r.value.latePenaltyPercent == (if dto.latePenaltyPercent.Some? then dto.latePenaltyPercent.value else 0)
      && r.value.status == (if dto.status.Some? then dto.status.value else Draft)
  {
    match FindCourse(courses, dto.courseId)
    case None => Err(NotFound(CourseNotFound(dto.courseId)))
    case Some(course) =>
      if course.teacherId != teacherId then Err(Forbidden("Only the course owner can create tasks"))
      else
        var deadline :- ParseOptionalDeadline(dto.deadline, parse);
        Ok(Task(id, dto.courseId, dto.title, dto.description, deadline,
                dto.latePenaltyPercent.GetOr(0), dto.referenceFileUrl, dto.status.GetOr(Draft)))
  }

  /** The fields of an update, merged: each field the DTO carries replaces
      the stored one, the rest stay, and an unparsable deadline rejects the
      whole update. */
  function Merge(task: Task, dto: UpdateTaskDto, parse: string -> Option<int>): (r: Result<Task>)
    ensures r.Err? <==> dto.deadline.Some? && ParseDeadline(dto.deadline.value, parse).Err?
    ensures r.Err? ==> r.error == BadRequest(InvalidDeadline)
    ensures r.Ok? ==>
      && r.value.id == task.id && r.value.courseId == task.courseId
      && r.value.referenceFileUrl == task.referenceFileUrl
      && r.value.title == (if dto.title.Some? then dto.title.value else task.title)
      && r.value.description == (if dto.description.Some? then dto.description else task.description)
      && r.value.deadline == (if dto.deadline.Some? then ParseDeadline(dto.deadline.value, parse).value else task.deadline)
      && r.value.latePenaltyPercent == (if dto.latePenaltyPercent.Some? then dto.latePenaltyPercent.value else task.latePenaltyPercent)
      && r.value.status == (if dto.status.Some? then dto.status.value else task.status)
  {
    var deadline :- if dto.deadline.Some? then ParseDeadline(dto.deadline.value, parse) else Ok(task.deadline);
    Ok(Task(task.id, task.courseId, dto.title.GetOr(task.title),
            if dto.description.Some? then dto.description else task.description,
            deadline, dto.latePenaltyPercent.GetOr(task.latePenaltyPercent),
            task.referenceFileUrl, dto.status.GetOr(task.status)))
  }

  /** An update without fields changes nothing. */
  lemma MergeEmpty(task: Task, parse: string -> Option<int>)
    ensures Merge(task, UpdateTaskDto(None, None, None, None, None), parse) == Ok(task)
  {
  }

  /** Applying the same update twice is applying it once. */
  lemma MergeIdempotent(task: Task, dto: UpdateTaskDto, parse: string -> Option<int>)
    requires Merge(task, dto, parse).Ok?
    ensures Merge(Merge(task, dto, parse).value, dto, parse) == Merge(task, dto, parse)
  {
  }

  /** Updates of disjoint fields commute. */
  lemma MergeTitleThenStatus(task: Task, title: string, status: TaskStatus, parse: string -> Option<int>)
    ensures var byTitle := UpdateTaskDto(Some(title), None, None, None, None);
      var byStatus := UpdateTaskDto(None, None, None, None, Some(status));
      Merge(Merge(task, byTitle, parse).value, byStatus, parse) ==
      Merge(Merge(task, byStatus, parse).value, byTitle, parse)
  {
  }

  /** `tasksRepository.save(task)` for a task already stored: its row is replaced. */
  function Replace(tasks: seq<Task>, t: Task): (r: seq<Task>)
    ensures |r| == |tasks|
    ensures forall i :: 0 <= i < |r| ==> r[i].id == tasks[i].id && r[i].courseId == (if tasks[i].id == t.id then t.courseId else tasks[i].courseId)
    ensures forall i :: 0 <= i < |r| ==> (tasks[i].id == t.id ==> r[i] == t) && (tasks[i].id != t.id ==> r[i] == tasks[i])
  {
    seq(|tasks|, i requires 0 <= i < |tasks| => if tasks[i].id == t.id then t else tasks[i])
  }

  /** `findByCourse`: the course's tasks, ordered by ascending deadline. */
  function FindByCourse(courses: seq<Course>, tasks: seq<Task>, courseId: string): (r: Result<seq<Task>>)
    ensures FindCourse(courses, courseId).None? <==> r == Err(NotFound(CourseNotFound(courseId)))
    ensures r.Ok? ==> multiset(r.value) == multiset(Filter(tasks, (t: Task) => t.courseId == courseId))
    ensures r.Ok? ==> forall i :: 0 <= i < |r.value| ==> r.value[i] in tasks && r.value[i].courseId == courseId
    ensures r.Ok? ==> forall i, j :: 0 <= i < j < |r.value| ==> r.value[i].deadline <= r.value[j].deadline
  {
    if FindCourse(courses, courseId).None? then Err(NotFound(CourseNotFound(courseId)))
    else
      var mine := Filter(tasks, (t: Task) => t.courseId == courseId);
      var sorted := SortBy(mine, (t: Task) => t.deadline);
      assert forall i :: 0 <= i < |sorted| ==> sorted[i] in mine by {
        forall i | 0 <= i < |sorted| ensures sorted[i] in mine {
          assert sorted[i] in multiset(sorted);
        }
      }
      Ok(sorted)
  }

  /** Every task of the course is listed. */
  lemma FindByCourseComplete(courses: seq<Course>, tasks: seq<Task>, courseId: string, k: int)
    requires FindCourse(courses, courseId).Some?
    requires 0 <= k < |tasks| && tasks[k].courseId == courseId
    ensures tasks[k] in FindByCourse(courses, tasks, courseId).value
  {
    var mine := Filter(tasks, (t: Task) => t.courseId == courseId);
    assert tasks[k] in mine;
    SortKeepsElements(mine, (t: Task) => t.deadline, tasks[k]);
  }

  /** The check `update` and `updateReference` share: the task must exist and
      its course must belong to the teacher. */
  function OwnedTask(tasks: seq<Task>, courses: seq<Course>, id: string, teacherId: string, action: string): (r: Result<Task>)
    ensures FindTask(tasks, id).None? ==> r == Err(NotFound(TaskNotFound(id)))
    ensures r.Ok? ==> FindTask(tasks, id) == Some(r.value)
    ensures r.Ok? ==> (FindCourse(courses, r.value.courseId).Some? &&
      FindCourse(courses, r.value.courseId).value.teacherId == teacherId)
    ensures FindTask(tasks, id).Some? && FindCourse(courses, FindTask(tasks, id).value.courseId).Some? ==>
      (r.Err? <==> FindCourse(courses, FindTask(tasks, id).value.courseId).value.teacherId != teacherId)
    ensures r.Err? && FindTask(tasks, id).Some? && FindCourse(courses, FindTask(tasks, id).value.courseId).Some? ==>
      r == Err(Forbidden("Only the course owner can " + action))
  {
    match FindTask(tasks, id)
    case None => Err(NotFound(TaskNotFound(id)))
    case Some(task) =>
      match FindCourse(courses, task.courseId)
      case None => Err(NotFound(TaskNotFound(id)))
      case Some(course) =>
        if course.teacherId != teacherId then Err(Forbidden("Only the course owner can " + action))
        else Ok(task)
  }

  class TasksService {
    const db: Database
    const parse: string -> Option<int>

    constructor(db: Database, parse: string -> Option<int>)
      ensures this.db == db && this.parse == parse
    {
      this.db := db;
      this.parse := parse;
    }

    /** `create`: saves the task `CreateCheck` builds. */
    method Create(dto: CreateTaskDto, teacherId: string, id: string) returns (r: Result<Task>)
      requires db.Valid()
      requires forall i :: 0 <= i < |db.tasks| ==> db.tasks[i].id != id
      modifies db
      ensures db.Valid()
      ensures r == CreateCheck(old(db.courses), dto, teacherId, id, parse)
      ensures r.Ok? ==> db.tasks == old(db.tasks) + [r.value]
      ensures r.Err? ==> db.tasks == old(db.tasks)
      ensures db.users == old(db.users) && db.courses == old(db.courses)
      ensures db.submissions == old(db.submissions) && db.files == old(db.files)
    {
      r := CreateCheck(db.courses, dto, teacherId, id, parse);
      if r.Ok? {
        var course := FindCourse(db.courses, dto.courseId).value;
        ghost var k :| 0 <= k < |db.courses| && db.courses[k] == course;
        db.tasks := db.tasks + [r.value];
        assert db.tasks[|db.tasks| - 1] == r.value;
        assert TasksKeyed(db.tasks, db.courses) by {
          forall i | 0 <= i < |db.tasks|
            ensures exists k :: 0 <= k < |db.courses| && db.courses[k].id == db.tasks[i].courseId
          {
            if i < |db.tasks| - 1 {
              assert db.tasks[i] == old(db.tasks)[i];
            } else {
              assert db.courses[k].id == db.tasks[i].courseId;
            }
          }
        }
      }
    }

    /** `update`: after the ownership check, each field the DTO carries is
        assigned in turn; an unparsable deadline abandons the update unsaved. */
    method Update(id: string, dto: UpdateTaskDto, teacherId: string) returns (r: Result<Task>)
      requires db.Valid()
      modifies db
      ensures db.Valid()
      ensures var owned := OwnedTask(old(db.tasks), old(db.courses), id, teacherId, "update tasks");
        && (owned.Err? ==> r == owned && db.tasks == old(db.tasks))
        && (owned.Ok? ==> r == Merge(owned.value, dto, parse))
      ensures r.Ok? ==> db.tasks == Replace(old(db.tasks), r.value)
      ensures r.Err? ==> db.tasks == old(db.tasks)
      ensures db.users == old(db.users) && db.courses == old(db.courses)
      ensures db.submissions == old(db.submissions) && db.files == old(db.files)
    {
      var owned := OwnedTask(db.tasks, db.courses, id, teacherId, "update tasks");
      if owned.Err? {
        return owned;
      }
      var updated := ApplyUpdate(owned.value, dto, parse);
      if updated.Err? {
        return updated;
      }
      var task := updated.value;
      ReplaceKeepsKeys(db.tasks, db.courses, task, owned.value);
      db.tasks := Replace(db.tasks, task);
      r := Ok(task);
    }

    /** `updateReference`: after the ownership check, only the reference file changes. */
    method UpdateReference(id: string, referenceFileUrl: string, teacherId: string) returns (r: Result<Task>)
      requires db.Valid()
      modifies db
      ensures db.Valid()
      ensures var owned := OwnedTask(old(db.tasks), old(db.courses), id, teacherId, "update reference");
        && (owned.Err? ==> r == owned && db.tasks == old(db.tasks))
        && (owned.Ok? ==> r == Ok(owned.value.(referenceFileUrl := referenceFileUrl)))
      ensures r.Ok? ==> db.tasks == Replace(old(db.tasks), r.value)
      ensures db.users == old(db.users) && db.courses == old(db.courses)
      ensures db.submissions == old(db.submissions) && db.files == old(db.files)
    {
      var owned := OwnedTask(db.tasks, db.courses, id, teacherId, "update reference");
      if owned.Err? {
        return owned;
      }
      var task := owned.value.(referenceFileUrl := referenceFileUrl);
      ReplaceKeepsKeys(db.tasks, db.courses, task, owned.value);
      db.tasks := Replace(db.tasks, task);
      r := Ok(task);
    }
  }

  /** The field assignments of `update`, one carried field at a time; an
      unparsable deadline stops the update. */
  method ApplyUpdate(stored: Task, dto: UpdateTaskDto, parse: string -> Option<int>) returns (r: Result<Task>)
    ensures r == Merge(stored, dto, parse)
  {
    var task := stored;
    if dto.title.Some? {
      task := task.(title := dto.title.value);
    }
    if dto.description.Some? {
      task := task.(description := dto.description);
    }
    if dto.deadline.Some? {
      var deadline := ParseDeadline(dto.deadline.value, parse);
      if deadline.Err? {
        return Err(deadline.error);
      }
      task := task.(deadline := deadline.value);
    }
    if dto.latePenaltyPercent.Some? {
      task := task.(latePenaltyPercent := dto.latePenaltyPercent.value);
    }
    if dto.status.Some? {
      task := task.(status := dto.status.value);
    }
    r := Ok(task);
  }

  /** Replacing a stored task by one with the same id and course keeps the keys valid. */
  lemma ReplaceKeepsKeys(tasks: seq<Task>, courses: seq<Course>, t: Task, stored: Task)
    requires TasksKeyed(tasks, courses)
    requires stored in tasks && t.id == stored.id && t.courseId == stored.courseId
    ensures TasksKeyed(Replace(tasks, t), courses)
  {
    var r := Replace(tasks, t);
    var m :| 0 <= m < |tasks| && tasks[m] == stored;
    var c :| 0 <= c < |courses| && courses[c].id == tasks[m].courseId;
    forall i | 0 <= i < |r|
      ensures exists k :: 0 <= k < |courses| && courses[k].id == r[i].courseId
    {
      if tasks[i].id == t.id {
        assert courses[c].id == r[i].courseId;
      } else {
        assert r[i] == tasks[i];
      }
    }
  }
}
