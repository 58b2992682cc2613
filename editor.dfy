/** The save button of the task form, in both versions of the page. The form
    is rejected when the trimmed name or the priority is empty. Otherwise a
    form without a task id appends a new task whose id is the clock value,
    and a form with an id replaces the task with that id at its position,
    carrying the time-tracking fields over from it. */
module Editor {
  import opened Js
  import opened Records
  import Format

  /** What the save handler reads from the form. `id` is the hidden task id
      after `parseInt` (`None` when the field is empty); `timeEstimate` is
      `parseInt` of its field (`None` when that gives NaN). `description`
      is the text area's value in the earlier page and the HTML of the
      editor in the later one. The last five fields exist only in the later
      page; the focus slider's value is a string. */
  datatype Form = Form(
    id: Option<int>,
    name: string,
    priority: string,
    dueDate: string,
    dueTime: string,
    description: string,
    project: string,
    timeEstimate: Option<int>,
    tags: string,
    energyLevel: string,
    completedAt: string,
    completedTime: string,
    isCompleted: bool,
    isArchive: bool,
    focusScore: string)

  /** `name && priority`, with the name trimmed. */
  predicate Accepted(f: Form) {
    Trim(f.name) != "" && f.priority != ""
  }

  /** `existingTask`: the task with the form's id, when the form has one and
      such a task exists. */
  function Existing(tasks: seq<Task>, f: Form): (e: Option<Task>)
    ensures e.Some? <==> f.id.Some? && FindById(tasks, Has(f.id.value)).Some?
    ensures e.Some? ==> e.value == tasks[FindById(tasks, Has(f.id.value)).value]
  {
    if f.id.None? then None
    else match FindById(tasks, Has(f.id.value))
      case Some(i) => Some(tasks[i])
      case None => None
  }

  /** `parseInt(...) || 0`. */
  function NumberOrZero(n: Option<int>): int {
    match n case Some(v) => v case None => 0
  }

  /** The new id: the form's id, or the clock for a new task. */
  function NewId(f: Form, now: int): int {
    match f.id case Some(v) => v case None => now
  }

  /** `taskData` in the earlier page. */
  function FormTask(f: Form, buffer: seq<Item>, now: int, existing: Option<Task>): Task {
    Task(
      id := Has(NewId(f, now)),
      name := Has(Trim(f.name)),
      priority := Has(f.priority),
      dueDate := Has(f.dueDate),
      dueTime := Has(f.dueTime),
      createdAt := Absent,
      completedAt := Absent,
      completedTime := Absent,
      isCompleted := Absent,
      isArchive := Absent,
      description := Has(f.description),
      checklist := buffer,
      focusScore := Absent,
      project := f.project,
      timeEstimate := NumberOrZero(f.timeEstimate),
      tags := f.tags,
      energyLevel := f.energyLevel,
      timeSpent := match existing case Some(e) => e.timeSpent case None => 0,
      isTimerRunning := match existing case Some(e) => e.isTimerRunning case None => false,
      currentSessionStartTime := match existing case Some(e) => e.currentSessionStartTime case None => None)
  }

  /** `toLocaleString(...).slice(0, 16)`: the first 16 characters. */
  function Stamp(localeTime: string): string {
    if |localeTime| <= 16 then localeTime else localeTime[..16]
  }

  /** `existingTask?.createdAt` is truthy. */
  predicate HasCreatedAt(e: Option<Task>) {
    e.Some? && e.value.createdAt.Has? && e.value.createdAt.value != ""
  }

  /** `taskData` in the later page: the creation time is kept when the edited
      task has one, and each time-tracking field is kept only when truthy. */
  function FormTaskExt(f: Form, buffer: seq<Item>, now: int, localeTime: string, existing: Option<Task>): Task {
    Task(
      id := Has(NewId(f, now)),
      name := Has(Trim(f.name)),
      priority := Has(f.priority),
      dueDate := Has(f.dueDate),
      dueTime := Has(f.dueTime),
      createdAt := if HasCreatedAt(existing) then existing.value.createdAt else Has(Stamp(localeTime)),
      completedAt := Has(f.completedAt),
      completedTime := Has(f.completedTime),
      isCompleted := Has(f.isCompleted),
      isArchive := Has(Bool(f.isArchive)),
      description := Has(Format.EscapeHtml(Has(f.description))),
      checklist := buffer,
      focusScore := Has(Text(f.focusScore)),
      project := f.project,
      timeEstimate := NumberOrZero(f.timeEstimate),
      tags := f.tags,
      energyLevel := f.energyLevel,
      timeSpent := if existing.Some? && existing.value.timeSpent != 0 then existing.value.timeSpent else 0,
      isTimerRunning := if existing.Some? && existing.value.isTimerRunning then existing.value.isTimerRunning else false,
      currentSessionStartTime :=
        if existing.Some? && existing.value.currentSessionStartTime.Some? && existing.value.currentSessionStartTime.value != 0
        then existing.value.currentSessionStartTime else None)
  }

  /** The replace-or-append step: an edit whose id is no longer present
      changes nothing. */
  function Upsert(tasks: seq<Task>, f: Form, t: Task): seq<Task> {
    match f.id
    case None => tasks + [t]
    case Some(v) =>
      match FindById(tasks, Has(v))
      case Some(i) => tasks[i := t]
      case None => tasks
  }

  /** The earlier save handler; `None` when the form is rejected. */
  function Save(tasks: seq<Task>, f: Form, buffer: seq<Item>, now: int): Option<seq<Task>> {
    if !Accepted(f) then None
    else Some(Upsert(tasks, f, FormTask(f, buffer, now, Existing(tasks, f))))
  }

  /** The later save handler; `None` when the form is rejected. */
  function SaveExt(tasks: seq<Task>, f: Form, buffer: seq<Item>, now: int, localeTime: string): Option<seq<Task>> {
    if !Accepted(f) then None
    else Some(Upsert(tasks, f, FormTaskExt(f, buffer, now, localeTime, Existing(tasks, f))))
  }

  /** Both handlers reject exactly the forms with a blank name or no
      priority. */
  lemma {:induction false} SaveRejects(tasks: seq<Task>, f: Form, buffer: seq<Item>, now: int, localeTime: string)
    ensures Save(tasks, f, buffer, now).None? <==> Trim(f.name) == "" || f.priority == ""
    ensures SaveExt(tasks, f, buffer, now, localeTime).None? <==> Trim(f.name) == "" || f.priority == ""
    ensures AllSpace(f.name) ==> Save(tasks, f, buffer, now).None?
  {
    TrimEmptyIff(f.name);
  }

  /** A new task is appended with the clock as its id, the trimmed name, the
      edited checklist, and no time spent and no timer. */
  lemma {:induction false} SaveCreates(tasks: seq<Task>, f: Form, buffer: seq<Item>, now: int)
    requires Accepted(f) && f.id.None?
    ensures var r := Save(tasks, f, buffer, now).value;
      && |r| == |tasks| + 1 && r[..|tasks|] == tasks
      && r[|tasks|].id == Has(now) && r[|tasks|].name == Has(Trim(f.name))
      && r[|tasks|].priority == Has(f.priority) && r[|tasks|].checklist == buffer
      && r[|tasks|].timeSpent == 0 && !r[|tasks|].isTimerRunning
      && r[|tasks|].currentSessionStartTime == None
  {
    var r := Save(tasks, f, buffer, now).value;
    assert r == tasks + [FormTask(f, buffer, now, None)];
  }

  /** An edit replaces the task with the form's id at its own position, with
      the form's values and the old task's time-tracking fields; every other
      position is untouched. */
  lemma {:induction false} SaveEdits(tasks: seq<Task>, f: Form, buffer: seq<Item>, now: int, i: nat)
    requires Accepted(f) && f.id.Some? && FindById(tasks, Has(f.id.value)) == Some(i)
    ensures var r := Save(tasks, f, buffer, now).value;
      && |r| == |tasks|
      && r[i].id == tasks[i].id && r[i].name == Has(Trim(f.name)) && r[i].checklist == buffer
      && r[i].timeSpent == tasks[i].timeSpent
      && r[i].isTimerRunning == tasks[i].isTimerRunning
      && r[i].currentSessionStartTime == tasks[i].currentSessionStartTime
      && forall k :: 0 <= k < |tasks| && k != i ==> r[k] == tasks[k]
  {
  }

  /** Saving a form whose task has disappeared leaves the collection as it
      was, in both versions. */
  lemma {:induction false} SaveEditOfMissing(tasks: seq<Task>, f: Form, buffer: seq<Item>, now: int, localeTime: string)
    requires Accepted(f) && f.id.Some? && FindById(tasks, Has(f.id.value)).None?
    ensures Save(tasks, f, buffer, now) == Some(tasks)
    ensures SaveExt(tasks, f, buffer, now, localeTime) == Some(tasks)
  {
  }

  /** The replace-or-append step keeps the single-timer invariant when the
      new task runs only if the one it replaces did. */
  lemma {:induction false} UpsertKeepsOneRunning(tasks: seq<Task>, f: Form, t: Task)
    requires AtMostOneRunning(tasks)
    requires f.id.None? ==> !t.isTimerRunning
    requires f.id.Some? && FindById(tasks, Has(f.id.value)).Some? ==>
      t.isTimerRunning == tasks[FindById(tasks, Has(f.id.value)).value].isTimerRunning
    ensures AtMostOneRunning(Upsert(tasks, f, t))
  {
    var r := Upsert(tasks, f, t);
    if f.id.None? {
      assert forall k :: 0 <= k < |tasks| ==> r[k] == tasks[k];
    } else if FindById(tasks, Has(f.id.value)).Some? {
      var i := FindById(tasks, Has(f.id.value)).value;
      assert forall k :: 0 <= k < |r| ==> r[k].isTimerRunning == tasks[k].isTimerRunning;
    }
  }

  /** Saving, in either version, keeps at most one timer running. */
  lemma {:induction false} SaveKeepsOneRunning(tasks: seq<Task>, f: Form, buffer: seq<Item>, now: int, localeTime: string)
    requires AtMostOneRunning(tasks)
    ensures Save(tasks, f, buffer, now).Some? ==> AtMostOneRunning(Save(tasks, f, buffer, now).value)
    ensures SaveExt(tasks, f, buffer, now, localeTime).Some? ==>
      AtMostOneRunning(SaveExt(tasks, f, buffer, now, localeTime).value)
  {
    if Accepted(f) {
      var e := Existing(tasks, f);
      UpsertKeepsOneRunning(tasks, f, FormTask(f, buffer, now, e));
      UpsertKeepsOneRunning(tasks, f, FormTaskExt(f, buffer, now, localeTime, e));
    }
  }

  /** The later save keeps the edited task's creation time when it has one
      and stamps the local time otherwise; it keeps the time spent and the
      running flag, and the session start unless that was 0, which becomes
      null; every other position is untouched. */
  lemma {:induction false} SaveExtEdits(tasks: seq<Task>, f: Form, buffer: seq<Item>, now: int, localeTime: string, i: nat)
    requires Accepted(f) && f.id.Some? && FindById(tasks, Has(f.id.value)) == Some(i)
    ensures var r := SaveExt(tasks, f, buffer, now, localeTime).value;
      && |r| == |tasks|
      && r[i].id == tasks[i].id && r[i].name == Has(Trim(f.name)) && r[i].checklist == buffer
      && r[i].createdAt == (if tasks[i].createdAt.Has? && tasks[i].createdAt.value != ""
                            then tasks[i].createdAt else Has(Stamp(localeTime)))
      && r[i].timeSpent == tasks[i].timeSpent
      && r[i].isTimerRunning == tasks[i].isTimerRunning
      && r[i].currentSessionStartTime == (if tasks[i].currentSessionStartTime == Some(0)
                                          then None else tasks[i].currentSessionStartTime)
      && forall k :: 0 <= k < |tasks| && k != i ==> r[k] == tasks[k]
  {
    var t := FormTaskExt(f, buffer, now, localeTime, Some(tasks[i]));
    assert SaveExt(tasks, f, buffer, now, localeTime).value == tasks[i := t];
  }

  /** A new task from the later save is stamped with the local time and
      starts with no time spent and no timer. */
  lemma {:induction false} SaveExtCreates(tasks: seq<Task>, f: Form, buffer: seq<Item>, now: int, localeTime: string)
    requires Accepted(f) && f.id.None?
    ensures var r := SaveExt(tasks, f, buffer, now, localeTime).value;
      && |r| == |tasks| + 1 && r[..|tasks|] == tasks
      && r[|tasks|].id == Has(now) && r[|tasks|].name == Has(Trim(f.name))
      && r[|tasks|].createdAt == Has(Stamp(localeTime))
      && r[|tasks|].isArchive == Has(Bool(f.isArchive))
      && r[|tasks|].timeSpent == 0 && !r[|tasks|].isTimerRunning
      && r[|tasks|].currentSessionStartTime == None
  {
    assert SaveExt(tasks, f, buffer, now, localeTime).value == tasks + [FormTaskExt(f, buffer, now, localeTime, None)];
  }

  /** The later save writes what the earlier one writes, at the same
      positions, apart from its own fields (creation and completion times,
      flags, focus score), the escaped description, and a session start of 0,
      which it drops. */
  lemma {:induction false} SaveVariantsAgree(tasks: seq<Task>, f: Form, buffer: seq<Item>, now: int, localeTime: string)
    requires Accepted(f)
    ensures var r1, r2 := Save(tasks, f, buffer, now).value, SaveExt(tasks, f, buffer, now, localeTime).value;
      && |r1| == |r2|
      && forall k :: 0 <= k < |r1| ==>
           r2[k] == r1[k] ||
           r2[k].(createdAt := Absent, completedAt := Absent, completedTime := Absent,
                  isCompleted := Absent, isArchive := Absent, focusScore := Absent,
                  description := Has(f.description),
                  currentSessionStartTime := r1[k].currentSessionStartTime) == r1[k]
  {
    var e := Existing(tasks, f);
    var t1, t2 := FormTask(f, buffer, now, e), FormTaskExt(f, buffer, now, localeTime, e);
    assert t2.(createdAt := Absent, completedAt := Absent, completedTime := Absent,
               isCompleted := Absent, isArchive := Absent, focusScore := Absent,
               description := Has(f.description),
               currentSessionStartTime := t1.currentSessionStartTime) == t1;
  }

  /** The later save stores the description HTML-escaped: the stored text
      decodes back to the editor's HTML and holds no raw markup character. */
  lemma {:induction false} SaveExtEscapesDescription(tasks: seq<Task>, f: Form, buffer: seq<Item>, now: int, localeTime: string)
    requires Accepted(f)
    requires f.id.None? || FindById(tasks, Has(f.id.value)).Some?
    ensures var r := SaveExt(tasks, f, buffer, now, localeTime).value;
      var i := if f.id.None? then |tasks| else FindById(tasks, Has(f.id.value)).value;
      && i < |r| && r[i].description.Has?
      && Format.DecodeEntities(r[i].description.value) == f.description
      && forall k :: 0 <= k < |r[i].description.value| ==> !Format.IsMarkup(r[i].description.value[k])
  {
    Format.EscapeRoundTrip(f.description);
    Format.EscapeHtmlHasNoMarkup(Has(f.description));
  }
}
