/** The page's state and its event handlers: the task collection, the id of
    the task shown in the detail view, the checklist being edited in the
    task form, and what storage holds. The clock, the confirmation dialog,
    the form's fields, the order of the cards and rows after a drag, and the
    browser's HTML decoder are parameters of the handlers. */
module Handlers {
  import opened Js
  import opened Records
  import Seqs
  import Migration
  import Loading
  import Checklist
  import Timer
  import Board
  import Editor

  /** `tasks.filter(t => t.id !== id)`. */
  function WithoutId(tasks: seq<Task>, id: Prop<int>): seq<Task> {
    Seqs.Filter(tasks, (t: Task) => t.id != id)
  }

  /** `!currentViewId` is false: a present, non-zero id. */
  predicate ViewSet(view: Prop<int>) {
    view.Has? && view.value != 0
  }

  /** The checklist-toggle handler: `None` when it stops early (no task
      shown) or fails (no task with the shown id, or no item at the
      index), leaving everything as it was. */
  function Toggled(tasks: seq<Task>, view: Prop<int>, realIndex: int, checked: bool): Option<seq<Task>> {
    if !ViewSet(view) then None
    else match FindById(tasks, view)
      case None => None
      case Some(i) =>
        if 0 <= realIndex < |tasks[i].checklist|
        then Some(tasks[i := tasks[i].(checklist := Checklist.SetDone(tasks[i].checklist, realIndex, checked))])
        else None
  }

  /** Deleting removes exactly the tasks with the id and keeps the others. */
  lemma {:induction false} DeleteRemovesExactly(tasks: seq<Task>, id: Prop<int>)
    ensures forall t :: t in WithoutId(tasks, id) <==> t in tasks && t.id != id
    ensures |WithoutId(tasks, id)| <= |tasks|
    ensures (forall k :: 0 <= k < |tasks| ==> tasks[k].id != id) ==> WithoutId(tasks, id) == tasks
  {
    if forall k :: 0 <= k < |tasks| ==> tasks[k].id != id {
      Seqs.FilterKeepsAll(tasks, (t: Task) => t.id != id);
    }
  }

  /** The remaining tasks keep their order: deleting works task by task over
      any split of the collection. */
  lemma {:induction false} DeleteKeepsOrder(a: seq<Task>, b: seq<Task>, id: Prop<int>)
    ensures WithoutId(a + b, id) == WithoutId(a, id) + WithoutId(b, id)
    ensures WithoutId([], id) == []
  {
    Seqs.FilterConcat(a, b, (t: Task) => t.id != id);
  }

  /** Deleting keeps the single-timer invariant. */
  lemma {:induction false} DeleteKeepsOneRunning(tasks: seq<Task>, id: Prop<int>)
    requires AtMostOneRunning(tasks)
    ensures AtMostOneRunning(WithoutId(tasks, id))
    ensures !AnyRunning(tasks) ==> !AnyRunning(WithoutId(tasks, id))
  {
    if tasks != [] {
      var rest := tasks[1..];
      TailRunning(tasks);
      DeleteKeepsOneRunning(rest, id);
      var r1 := WithoutId(rest, id);
      if tasks[0].id != id {
        assert WithoutId(tasks, id) == [tasks[0]] + r1;
        ConsRunning(tasks[0], r1);
      } else {
        assert WithoutId(tasks, id) == r1;
      }
    }
  }

  lemma {:induction false} TailRunning(tasks: seq<Task>)
    requires tasks != [] && AtMostOneRunning(tasks)
    ensures AtMostOneRunning(tasks[1..])
    ensures tasks[0].isTimerRunning ==> !AnyRunning(tasks[1..])
    ensures !AnyRunning(tasks) ==> !AnyRunning(tasks[1..]) && !tasks[0].isTimerRunning
  {
    var rest := tasks[1..];
    forall i | 0 <= i < |rest| ensures rest[i] == tasks[i + 1] {}
  }

  lemma {:induction false} ConsRunning(t: Task, r: seq<Task>)
    requires AtMostOneRunning(r)
    requires t.isTimerRunning ==> !AnyRunning(r)
    ensures AtMostOneRunning([t] + r)
    ensures !t.isTimerRunning && !AnyRunning(r) ==> !AnyRunning([t] + r)
  {
    var c := [t] + r;
    forall i | 1 <= i < |c| ensures c[i] == r[i - 1] {}
  }

  /** The toggle acts exactly when a task is shown, exists and has an item
      at the index; it then sets that item's flag, and nothing else in that
      task or in any other task changes. */
  lemma {:induction false} ToggleSpec(tasks: seq<Task>, view: Prop<int>, realIndex: int, checked: bool)
    ensures Toggled(tasks, view, realIndex, checked).Some? <==>
      ViewSet(view) && FindById(tasks, view).Some?
      && 0 <= realIndex < |tasks[FindById(tasks, view).value].checklist|
    ensures Toggled(tasks, view, realIndex, checked).Some? ==>
      var r, i := Toggled(tasks, view, realIndex, checked).value, FindById(tasks, view).value;
      && |r| == |tasks|
      && r[i].checklist[realIndex] == Item(tasks[i].checklist[realIndex].text, checked)
      && |r[i].checklist| == |tasks[i].checklist|
      && (forall k :: 0 <= k < |r[i].checklist| && k != realIndex ==> r[i].checklist[k] == tasks[i].checklist[k])
      && r[i].(checklist := tasks[i].checklist) == tasks[i]
      && (forall k :: 0 <= k < |tasks| && k != i ==> r[k] == tasks[k])
  {
  }

  /** Ticking the box of displayed row `k` of the shown task sets the flag
      of the item displayed in that row. */
  lemma {:induction false} ToggleDisplayedRow(tasks: seq<Task>, view: Prop<int>, k: nat, checked: bool)
    requires ViewSet(view) && FindById(tasks, view).Some?
    requires k < |tasks[FindById(tasks, view).value].checklist|
    ensures var i := FindById(tasks, view).value;
      var cl := tasks[i].checklist;
      var realIndex := Checklist.DisplayOrder(cl)[k];
      && Toggled(tasks, view, realIndex, checked).Some?
      && Toggled(tasks, view, realIndex, checked).value[i].checklist[realIndex]
         == Checklist.SortedChecklist(cl)[k].(done := checked)
  {
    var i := FindById(tasks, view).value;
    Checklist.ToggleHitsDisplayedItem(tasks[i].checklist, k, checked);
  }

  /** What the earlier page saves, it loads back unchanged, as long as no
      task holds a session start of 0 (the migration turns it into null). */
  lemma {:induction false} SaveThenLoad(tasks: seq<Task>, before: seq<Task>)
    requires forall k :: 0 <= k < |tasks| ==> Migration.EarlyShaped(tasks[k])
    ensures Loading.LoadedTasks(Loading.Saved(Persist(tasks)), before) == tasks
  {
    forall k | 0 <= k < |tasks| ensures Migration.Migrate(ToStored(tasks[k])) == tasks[k] {
      Migration.MigrateRoundTrip(tasks[k]);
    }
  }

  /** The page state. */
  class Session {
    var tasks: seq<Task>
    var currentViewId: Prop<int>
    var checklistBuffer: seq<Item>
    /** `localStorage` under the key `tasks`. */
    var store: Loading.Store

    /** The state before `loadTasks` runs. */
    constructor (saved: Loading.Store)
      ensures tasks == [] && currentViewId == Null && checklistBuffer == [] && store == saved
    {
      tasks := [];
      currentViewId := Null;
      checklistBuffer := [];
      store := saved;
    }

    /** `saveToStorage`. */
    method SaveToStorage()
      modifies this
      ensures store == Loading.Saved(Persist(tasks))
      ensures tasks == old(tasks) && currentViewId == old(currentViewId) && checklistBuffer == old(checklistBuffer)
    {
      store := Loading.Saved(Persist(tasks));
    }

    /** `renderDetailView(id)`: shows the task when it exists. */
    method View(id: Prop<int>)
      modifies this
      ensures currentViewId == if FindById(tasks, id).Some? then id else old(currentViewId)
      ensures tasks == old(tasks) && checklistBuffer == old(checklistBuffer) && store == old(store)
    {
      var found := FindById(tasks, id);
      if found.Some? {
        currentViewId := id;
      }
    }

    /** The earlier `loadTasks`: migrate what storage holds, then show the
        first running task. */
    method LoadTasks()
      modifies this
      ensures tasks == Loading.LoadedTasks(store, old(tasks))
      ensures currentViewId == if store.Saved? then Loading.ViewAfterLoad(tasks, old(currentViewId)) else old(currentViewId)
      ensures store == old(store) && checklistBuffer == old(checklistBuffer)
    {
      match store
      case Missing =>
      case Corrupt =>
        tasks := [];
      case Saved(rs) =>
        tasks := Migration.MigrateAll(rs);
        ShowFirstRunning();
    }

    /** The later `loadTasks(query)`: keep the records not archived that
        match the query, migrate them, then show the first running task. */
    method LoadTasksFiltered(query: string, unescape: string -> string)
      modifies this
      ensures tasks == Loading.LoadedTasksFiltered(store, query, unescape)
      ensures currentViewId == Loading.ViewAfterLoad(tasks, old(currentViewId))
      ensures store == old(store) && checklistBuffer == old(checklistBuffer)
    {
      match store
      case Missing =>
        tasks := [];
      case Corrupt =>
        tasks := [];
      case Saved(rs) =>
        tasks := Migration.MigrateAllExt(Loading.Kept(rs, query), unescape);
      ShowFirstRunning();
    }

    method ShowFirstRunning()
      modifies this
      ensures currentViewId == Loading.ViewAfterLoad(tasks, old(currentViewId))
      ensures tasks == old(tasks) && store == old(store) && checklistBuffer == old(checklistBuffer)
    {
      var running := FirstRunning(tasks);
      if running.Some? {
        currentViewId := tasks[running.value].id;
      }
    }

    /** The create button: an empty form and an empty checklist. */
    method OpenCreateForm()
      modifies this
      ensures checklistBuffer == []
      ensures tasks == old(tasks) && currentViewId == old(currentViewId) && store == old(store)
    {
      checklistBuffer := [];
    }

    /** An edit button: the form edits a copy of the task's checklist. */
    method OpenEditForm(id: Prop<int>)
      modifies this
      ensures checklistBuffer == match FindById(tasks, id)
        case Some(i) => tasks[i].checklist
        case None => old(checklistBuffer)
      ensures tasks == old(tasks) && currentViewId == old(currentViewId) && store == old(store)
    {
      var found := FindById(tasks, id);
      if found.Some? {
        checklistBuffer := tasks[found.value].checklist;
      }
    }

    /** A delete button, after the confirmation dialog. */
    method DeleteTask(id: Prop<int>, confirmed: bool)
      modifies this
      ensures tasks == if confirmed then WithoutId(old(tasks), id) else old(tasks)
      ensures currentViewId == if confirmed && old(currentViewId) == id then Null else old(currentViewId)
      ensures store == if confirmed then Loading.Saved(Persist(tasks)) else old(store)
      ensures checklistBuffer == old(checklistBuffer)
    {
      if confirmed {
        tasks := WithoutId(tasks, id);
        SaveToStorage();
        if currentViewId == id {
          currentViewId := Null;
        }
      }
    }

    /** A checklist box of the detail view. */
    method ToggleChecklistItem(realIndex: int, checked: bool)
      modifies this
      ensures Toggled(old(tasks), old(currentViewId), realIndex, checked).Some? ==>
        tasks == Toggled(old(tasks), old(currentViewId), realIndex, checked).value
        && store == Loading.Saved(Persist(tasks))
      ensures Toggled(old(tasks), old(currentViewId), realIndex, checked).None? ==>
        tasks == old(tasks) && store == old(store)
      ensures currentViewId == old(currentViewId) && checklistBuffer == old(checklistBuffer)
    {
      if !ViewSet(currentViewId) {
        return;
      }
      var found := FindById(tasks, currentViewId);
      if found.None? {
        return;
      }
      var i := found.value;
      if !(0 <= realIndex < |tasks[i].checklist|) {
        return;
      }
      var cl := tasks[i].checklist;
      cl := cl[realIndex := cl[realIndex].(done := checked)];
      tasks := tasks[i := tasks[i].(checklist := cl)];
      SaveToStorage();
    }

    /** `addBufferItem`. */
    method AddBufferItem(input: string)
      modifies this
      ensures checklistBuffer == Checklist.WithItemAdded(old(checklistBuffer), input)
      ensures tasks == old(tasks) && currentViewId == old(currentViewId) && store == old(store)
    {
      var text := Trim(input);
      if text != "" {
        checklistBuffer := checklistBuffer + [Item(text, false)];
      }
    }

    /** A remove button of the form's checklist: `splice(idx, 1)`. */
    method RemoveBufferItem(idx: int)
      modifies this
      ensures checklistBuffer == Checklist.SpliceOne(old(checklistBuffer), idx)
      ensures tasks == old(tasks) && currentViewId == old(currentViewId) && store == old(store)
    {
      var s := Checklist.SpliceStart(|checklistBuffer|, idx);
      if s < |checklistBuffer| {
        checklistBuffer := checklistBuffer[..s] + checklistBuffer[s + 1..];
      }
    }

    /** The later page's drag handler for the form's checklist: one entry
        per displayed row, each copied from the first item with the row's
        text; a row without such an item stops the handler. */
    method RebuildBufferFromRows(rows: seq<string>)
      modifies this
      ensures checklistBuffer == match Checklist.Rebuilt(old(checklistBuffer), rows)
        case Some(b) => b
        case None => old(checklistBuffer)
      ensures tasks == old(tasks) && currentViewId == old(currentViewId) && store == old(store)
    {
      var newBuffer: seq<Item> := [];
      var k := 0;
      while k < |rows|
        invariant 0 <= k <= |rows|
        invariant |newBuffer| == k
        invariant forall j :: 0 <= j < k ==> Checklist.FirstWithText(checklistBuffer, rows[j]).Some?
        invariant forall j :: 0 <= j < k ==> newBuffer[j] == Checklist.ItemForRow(checklistBuffer, rows[j])
      {
        var original := Checklist.FirstWithText(checklistBuffer, rows[k]);
        if original.None? {
          return;
        }
        var item := checklistBuffer[original.value];
        newBuffer := newBuffer + [Item(item.text, item.done)];
        k := k + 1;
      }
      checklistBuffer := newBuffer;
    }

    /** The earlier save button; `accepted` is false where the page shows
        its alert and changes nothing. */
    method SaveTask(f: Editor.Form, now: int) returns (accepted: bool)
      modifies this
      ensures accepted == Editor.Accepted(f)
      ensures tasks == match Editor.Save(old(tasks), f, old(checklistBuffer), now)
        case Some(r) => r
        case None => old(tasks)
      ensures store == if accepted then Loading.Saved(Persist(tasks)) else old(store)
      ensures currentViewId == old(currentViewId) && checklistBuffer == old(checklistBuffer)
    {
      if Trim(f.name) == "" || f.priority == "" {
        return false;
      }
      var t := Editor.FormTask(f, checklistBuffer, now, Editor.Existing(tasks, f));
      Upsert(f, t);
      return true;
    }

    /** The later save button. */
    method SaveTaskExt(f: Editor.Form, now: int, localeTime: string) returns (accepted: bool)
      modifies this
      ensures accepted == Editor.Accepted(f)
      ensures tasks == match Editor.SaveExt(old(tasks), f, old(checklistBuffer), now, localeTime)
        case Some(r) => r
        case None => old(tasks)
      ensures store == if accepted then Loading.Saved(Persist(tasks)) else old(store)
      ensures currentViewId == old(currentViewId) && checklistBuffer == old(checklistBuffer)
    {
      if Trim(f.name) == "" || f.priority == "" {
        return false;
      }
      var t := Editor.FormTaskExt(f, checklistBuffer, now, localeTime, Editor.Existing(tasks, f));
      Upsert(f, t);
      return true;
    }

    /** `tasks[idx] = taskData` or `tasks.push(taskData)`, then the save. */
    method Upsert(f: Editor.Form, t: Task)
      modifies this
      ensures tasks == Editor.Upsert(old(tasks), f, t)
      ensures store == Loading.Saved(Persist(tasks))
      ensures currentViewId == old(currentViewId) && checklistBuffer == old(checklistBuffer)
    {
      if f.id.Some? {
        var idx := FindById(tasks, Has(f.id.value));
        if idx.Some? {
          tasks := tasks[idx.value := t];
        }
      } else {
        tasks := tasks + [t];
      }
      SaveToStorage();
    }

    /** The start button of the detail view. */
    method StartTimer(now: int)
      modifies this
      ensures tasks == match Timer.Start(old(tasks), old(currentViewId), now)
        case Some(r) => r
        case None => old(tasks)
      ensures store == if Timer.Start(old(tasks), old(currentViewId), now).Some? then Loading.Saved(Persist(tasks)) else old(store)
      ensures currentViewId == old(currentViewId) && checklistBuffer == old(checklistBuffer)
    {
      var found := FindById(tasks, currentViewId);
      if found.Some? && !AnyRunning(tasks) {
        var i := found.value;
        tasks := tasks[i := tasks[i].(isTimerRunning := true, currentSessionStartTime := Some(now))];
        SaveToStorage();
      }
    }

    /** The pause button of the detail view. */
    method PauseTimer(now: int)
      modifies this
      ensures tasks == match Timer.Pause(old(tasks), old(currentViewId), now)
        case Some(r) => r
        case None => old(tasks)
      ensures store == if Timer.Pause(old(tasks), old(currentViewId), now).Some? then Loading.Saved(Persist(tasks)) else old(store)
      ensures currentViewId == old(currentViewId) && checklistBuffer == old(checklistBuffer)
    {
      var found := FindById(tasks, currentViewId);
      if found.Some? && tasks[found.value].isTimerRunning {
        var i := found.value;
        var elapsed := now - match tasks[i].currentSessionStartTime case Some(s) => s case None => 0;
        tasks := tasks[i := tasks[i].(timeSpent := tasks[i].timeSpent + elapsed,
                                      isTimerRunning := false, currentSessionStartTime := None)];
        SaveToStorage();
      }
    }

    /** One tick of the live timer: the total to show, if any. */
    method Tick(now: int) returns (shown: Option<int>)
      ensures shown == Timer.LiveTotal(tasks, currentViewId, now)
    {
      var running := FirstRunning(tasks);
      if running.Some? && tasks[running.value].id == currentViewId {
        var t := tasks[running.value];
        shown := Some(t.timeSpent + Timer.Elapsed(t, now));
      } else {
        shown := None;
      }
    }

    /** `rebuildStateFromDOM`, given the card ids of the three lists. */
    method ReorderFromBuckets(superIds: seq<Prop<int>>, importantIds: seq<Prop<int>>, notIds: seq<Prop<int>>)
      modifies this
      ensures tasks == Board.Reorder(old(tasks), superIds, importantIds, notIds)
      ensures store == Loading.Saved(Persist(tasks))
      ensures currentViewId == old(currentViewId) && checklistBuffer == old(checklistBuffer)
    {
      tasks := Board.RebuildState(tasks, superIds, importantIds, notIds);
      SaveToStorage();
    }
  }
}
