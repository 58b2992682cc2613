/** The task record in its two shapes: as stored (every property may be
    missing or null) and as the page holds it after migration, together with
    the lookups the event handlers share. */
module Records {
  import opened Js
  import Seqs

  /** One checklist entry. */
  datatype Item = Item(text: string, done: bool)

  /** A task as held in memory. The properties that migration copies
      unchanged keep their missing/null/present shape; the ones it defaults
      are plain values. The fields from `createdAt` to `focusScore` are only
      written by the later variant of the page; the earlier one leaves them
      missing. `currentSessionStartTime` is `None` for `null`. */
  datatype Task = Task(
    id: Prop<int>,
    name: Prop<string>,
    priority: Prop<string>,
    dueDate: Prop<string>,
    dueTime: Prop<string>,
    createdAt: Prop<string>,
    completedAt: Prop<string>,
    completedTime: Prop<string>,
    isCompleted: Prop<bool>,
    isArchive: Prop<Scalar>,
    description: Prop<string>,
    checklist: seq<Item>,
    focusScore: Prop<Scalar>,
    project: string,
    timeEstimate: int,
    tags: string,
    energyLevel: string,
    timeSpent: int,
    isTimerRunning: bool,
    currentSessionStartTime: Option<int>)

  /** A record as parsed back from storage: any property may be missing or
      null (records written by older versions lack the newer fields). */
  datatype Stored = Stored(
    id: Prop<int>,
    name: Prop<string>,
    priority: Prop<string>,
    dueDate: Prop<string>,
    dueTime: Prop<string>,
    createdAt: Prop<string>,
    completedAt: Prop<string>,
    completedTime: Prop<string>,
    isCompleted: Prop<bool>,
    isArchive: Prop<Scalar>,
    description: Prop<string>,
    checklist: Prop<seq<Item>>,
    focusScore: Prop<Scalar>,
    project: Prop<string>,
    timeEstimate: Prop<int>,
    tags: Prop<string>,
    energyLevel: Prop<string>,
    timeSpent: Prop<int>,
    isTimerRunning: Prop<bool>,
    currentSessionStartTime: Prop<int>)

  /** What `JSON.parse(JSON.stringify(task))` gives back: missing properties
      stay missing, `null` stays `null`, every other value is present. */
  function ToStored(t: Task): Stored {
    Stored(
      t.id, t.name, t.priority, t.dueDate, t.dueTime,
      t.createdAt, t.completedAt, t.completedTime, t.isCompleted, t.isArchive,
      t.description, Has(t.checklist), t.focusScore,
      Has(t.project), Has(t.timeEstimate), Has(t.tags), Has(t.energyLevel),
      Has(t.timeSpent), Has(t.isTimerRunning),
      match t.currentSessionStartTime case None => Null case Some(v) => Has(v))
  }

  /** The records `saveToStorage` writes for the whole collection. */
  function Persist(tasks: seq<Task>): (r: seq<Stored>)
    ensures |r| == |tasks|
  {
    Seqs.Map(tasks, ToStored)
  }

  /** `tasks.find(t => t.id === id)` and `tasks.findIndex(...)`: the first
      position holding that id, if any (strict equality on the id value). */
  function FindById(tasks: seq<Task>, id: Prop<int>): (r: Option<nat>)
    ensures r.Some? ==> r.value < |tasks| && tasks[r.value].id == id
    ensures r.Some? ==> forall k :: 0 <= k < r.value ==> tasks[k].id != id
    ensures r.None? <==> forall k :: 0 <= k < |tasks| ==> tasks[k].id != id
  {
    if tasks == [] then None
    else if tasks[0].id == id then Some(0)
    else match FindById(tasks[1..], id)
      case None => None
      case Some(i) => Some(i + 1)
  }

  /** `tasks.find(t => t.isTimerRunning)`: the first running task, if any. */
  function FirstRunning(tasks: seq<Task>): (r: Option<nat>)
    ensures r.Some? ==> r.value < |tasks| && tasks[r.value].isTimerRunning
    ensures r.Some? ==> forall k :: 0 <= k < r.value ==> !tasks[k].isTimerRunning
    ensures r.None? <==> forall k :: 0 <= k < |tasks| ==> !tasks[k].isTimerRunning
  {
    if tasks == [] then None
    else if tasks[0].isTimerRunning then Some(0)
    else match FirstRunning(tasks[1..])
      case None => None
      case Some(i) => Some(i + 1)
  }

  /** `tasks.some(t => t.isTimerRunning)`. */
  predicate AnyRunning(tasks: seq<Task>) {
    exists k :: 0 <= k < |tasks| && tasks[k].isTimerRunning
  }

  /** The single-active-timer invariant. */
  predicate AtMostOneRunning(tasks: seq<Task>) {
    forall i, j :: 0 <= i < |tasks| && 0 <= j < |tasks| && tasks[i].isTimerRunning && tasks[j].isTimerRunning ==> i == j
  }

  /** The lookup by id depends on nothing but the ids, in order. */
  lemma {:induction false} FindByIdOnlyReadsIds(a: seq<Task>, b: seq<Task>, id: Prop<int>)
    requires |a| == |b|
    requires forall k :: 0 <= k < |a| ==> a[k].id == b[k].id
    ensures FindById(a, id) == FindById(b, id)
  {
    if a != [] {
      FindByIdOnlyReadsIds(a[1..], b[1..], id);
    }
  }
}
