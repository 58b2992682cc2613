/** Migration of stored records into the in-memory task shape, in the two
    versions of the page: the earlier one fills the time-tracking and
    classification fields, the later one also carries the completion,
    archive and focus fields and decodes the description. */
module Migration {
  import opened Js
  import opened Records
  import Seqs

  /** The per-record `map` of the earlier `loadTasks`. */
  function Migrate(r: Stored): Task {
    Task(
      id := r.id,
      name := r.name,
      priority := r.priority,
      dueDate := r.dueDate,
      dueTime := r.dueTime,
      createdAt := Absent,
      completedAt := Absent,
      completedTime := Absent,
      isCompleted := Absent,
      isArchive := Absent,
      description := r.description,
      checklist := ListOrEmpty(r.checklist),
      focusScore := Absent,
      project := StrOr(r.project, ""),
      timeEstimate := IntOr(r.timeEstimate, 0),
      tags := StrOr(r.tags, ""),
      energyLevel := StrOr(r.energyLevel, ""),
      timeSpent := IntOr(r.timeSpent, 0),
      isTimerRunning := BoolOrFalse(r.isTimerRunning),
      currentSessionStartTime := IntOrNull(r.currentSessionStartTime))
  }

  /** The per-record `map` of the later `loadTasks`. The description goes
      through the page's HTML decoder, which is a browser call and is taken
      here as the parameter `unescape`; it receives `String(description)`. */
  function MigrateExt(r: Stored, unescape: string -> string): Task {
    Task(
      id := r.id,
      name := r.name,
      priority := r.priority,
      dueDate := r.dueDate,
      dueTime := r.dueTime,
      createdAt := r.createdAt,
      completedAt := r.completedAt,
      completedTime := r.completedTime,
      isCompleted := Has(BoolOrFalse(r.isCompleted)),
      isArchive := Has(ScalarOr(r.isArchive, Bool(false))),
      description := Has(unescape(ToStr(r.description))),
      checklist := ListOrEmpty(r.checklist),
      focusScore := Has(ScalarOr(r.focusScore, Num(0))),
      project := StrOr(r.project, ""),
      timeEstimate := IntOr(r.timeEstimate, 0),
      tags := StrOr(r.tags, ""),
      energyLevel := StrOr(r.energyLevel, ""),
      timeSpent := IntOr(r.timeSpent, 0),
      isTimerRunning := BoolOrFalse(r.isTimerRunning),
      currentSessionStartTime := IntOrNull(r.currentSessionStartTime))
  }

  function MigrateAll(rs: seq<Stored>): (ts: seq<Task>)
    ensures |ts| == |rs|
    ensures forall k :: 0 <= k < |rs| ==> ts[k] == Migrate(rs[k])
  {
    Seqs.Map(rs, Migrate)
  }

  function MigrateAllExt(rs: seq<Stored>, unescape: string -> string): (ts: seq<Task>)
    ensures |ts| == |rs|
    ensures forall k :: 0 <= k < |rs| ==> ts[k] == MigrateExt(rs[k], unescape)
  {
    Seqs.Map(rs, (r: Stored) => MigrateExt(r, unescape))
  }

  /** The tasks the earlier migration produces: none of the later fields,
      and no session start time of 0 (which `|| null` turns into null). */
  predicate EarlyShaped(t: Task) {
    && t.createdAt == Absent && t.completedAt == Absent && t.completedTime == Absent
    && t.isCompleted == Absent && t.isArchive == Absent && t.focusScore == Absent
    && t.currentSessionStartTime != Some(0)
  }

  /** The tasks the later migration produces, for a given decoder. */
  predicate LateShaped(t: Task, unescape: string -> string) {
    && t.isCompleted.Has? && t.isArchive.Has? && t.focusScore.Has?
    && (ScalarTruthy(t.isArchive.value) || t.isArchive.value == Bool(false))
    && (ScalarTruthy(t.focusScore.value) || t.focusScore.value == Num(0))
    && t.description.Has? && unescape(t.description.value) == t.description.value
    && t.currentSessionStartTime != Some(0)
  }

  /** Migration keeps the identity, name, priority, dates and description as
      stored, and turns every falsy defaulted field into its default: `[]`,
      `''`, `0`, `false` or `null`; a truthy value is kept. */
  lemma {:induction false} MigrateFields(r: Stored)
    ensures var t := Migrate(r);
      && t.id == r.id && t.name == r.name && t.priority == r.priority
      && t.dueDate == r.dueDate && t.dueTime == r.dueTime && t.description == r.description
      && t.checklist == (if r.checklist.Has? then r.checklist.value else [])
      && (r.project.Has? && r.project.value != "" <==> t.project != "")
      && (t.project != "" ==> t.project == r.project.value)
      && (r.tags.Has? && r.tags.value != "" <==> t.tags != "")
      && (t.tags != "" ==> t.tags == r.tags.value)
      && (r.energyLevel.Has? && r.energyLevel.value != "" <==> t.energyLevel != "")
      && (t.energyLevel != "" ==> t.energyLevel == r.energyLevel.value)
      && (r.timeEstimate.Has? && r.timeEstimate.value != 0 <==> t.timeEstimate != 0)
      && (t.timeEstimate != 0 ==> t.timeEstimate == r.timeEstimate.value)
      && (r.timeSpent.Has? && r.timeSpent.value != 0 <==> t.timeSpent != 0)
      && (t.timeSpent != 0 ==> t.timeSpent == r.timeSpent.value)
      && (t.isTimerRunning <==> r.isTimerRunning == Has(true))
      && (t.currentSessionStartTime.Some? <==> r.currentSessionStartTime.Has? && r.currentSessionStartTime.value != 0)
      && (t.currentSessionStartTime.Some? ==> t.currentSessionStartTime.value == r.currentSessionStartTime.value)
  {
  }

  /** A record with no properties at all migrates to the all-defaults task. */
  lemma {:induction false} MigrateEmptyRecord()
    ensures var t := Migrate(Stored(Absent, Absent, Absent, Absent, Absent, Absent, Absent, Absent, Absent,
                                    Absent, Absent, Absent, Absent, Absent, Absent, Absent, Absent, Absent, Absent, Absent));
      && t.checklist == [] && t.project == "" && t.tags == "" && t.energyLevel == ""
      && t.timeEstimate == 0 && t.timeSpent == 0 && !t.isTimerRunning && t.currentSessionStartTime == None
      && t.id == Absent && t.name == Absent
  {
  }

  /** Saving a task and migrating it back gives the same task exactly when
      the task has the shape the earlier migration produces. */
  lemma {:induction false} MigrateRoundTrip(t: Task)
    ensures Migrate(ToStored(t)) == t <==> EarlyShaped(t)
  {
    if EarlyShaped(t) {
      var m := Migrate(ToStored(t));
      assert m.project == t.project;
      assert m.currentSessionStartTime == t.currentSessionStartTime;
    }
  }

  /** Every migrated task has that shape. */
  lemma {:induction false} MigrateIsEarlyShaped(r: Stored)
    ensures EarlyShaped(Migrate(r))
  {
  }

  /** Applying the migration to its own saved output changes nothing. */
  lemma {:induction false} MigrateIdempotent(r: Stored)
    ensures Migrate(ToStored(Migrate(r))) == Migrate(r)
  {
    MigrateIsEarlyShaped(r);
    MigrateRoundTrip(Migrate(r));
  }

  /** The whole collection: same length, and a second load of the saved
      collection reproduces it. */
  lemma {:induction false} MigrateAllIdempotent(rs: seq<Stored>)
    ensures MigrateAll(Persist(MigrateAll(rs))) == MigrateAll(rs)
  {
    forall k | 0 <= k < |rs|
      ensures MigrateAll(Persist(MigrateAll(rs)))[k] == MigrateAll(rs)[k]
    {
      MigrateIdempotent(rs[k]);
    }
  }

  /** The later migration defaults falsy `isCompleted` and `isArchive` to
      false and a falsy `focusScore` to 0, decodes `String(description)`,
      and fills every other field as the earlier migration does. */
  lemma {:induction false} MigrateExtFields(r: Stored, unescape: string -> string)
    ensures var t := MigrateExt(r, unescape);
      && t.createdAt == r.createdAt && t.completedAt == r.completedAt && t.completedTime == r.completedTime
      && t.isCompleted == Has(r.isCompleted == Has(true))
      && (r.isArchive.Has? && ScalarTruthy(r.isArchive.value) ==> t.isArchive == r.isArchive)
      && (!(r.isArchive.Has? && ScalarTruthy(r.isArchive.value)) ==> t.isArchive == Has(Bool(false)))
      && (r.focusScore.Has? && ScalarTruthy(r.focusScore.value) ==> t.focusScore == r.focusScore)
      && (!(r.focusScore.Has? && ScalarTruthy(r.focusScore.value)) ==> t.focusScore == Has(Num(0)))
      && t.description == Has(unescape(ToStr(r.description)))
      && t.(createdAt := Absent, completedAt := Absent, completedTime := Absent, isCompleted := Absent,
            isArchive := Absent, focusScore := Absent, description := r.description) == Migrate(r)
  {
  }

  /** Saving and migrating back with the later migration is the identity
      exactly on the tasks it produces. */
  lemma {:induction false} MigrateExtRoundTrip(t: Task, unescape: string -> string)
    ensures MigrateExt(ToStored(t), unescape) == t <==> LateShaped(t, unescape)
  {
  }

  /** The later migration is idempotent when the decoder is idempotent on
      the description it decodes; `unescapeHtml` is not in general (it turns
      `&amp;lt;` into `&lt;` and then into `<`), so a second load can change
      a description that a first load already decoded. */
  lemma {:induction false} MigrateExtIdempotent(r: Stored, unescape: string -> string)
    requires unescape(unescape(ToStr(r.description))) == unescape(ToStr(r.description))
    ensures MigrateExt(ToStored(MigrateExt(r, unescape)), unescape) == MigrateExt(r, unescape)
  {
    MigrateExtRoundTrip(MigrateExt(r, unescape), unescape);
  }
}
