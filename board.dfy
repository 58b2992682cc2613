/** `rebuildStateFromDOM`: after a card is dragged, the collection is rebuilt
    from the three priority lists of the sidebar, top to bottom. Each card
    carries a task id; the task with that id (the first one, as `find`
    gives it) gets the list's priority written into it and is appended to
    the new collection. Tasks without a card are dropped.

    The handler writes the priority into the task object itself, so a task
    reached from two cards is one object: both entries show the priority
    written last. The model keeps that sharing explicit: `work` is the old
    collection with the priorities written so far, and `refs` lists, for
    each entry of the new collection, the old position it refers to. */
module Board {
  import opened Js
  import opened Records
  import Seqs

  const SuperImportant: string := "Super Important"
  const Important: string := "Important"
  const NotImportant: string := "Not Important"

  /** The old positions the cards of one list refer to, in card order; a
      card whose id matches no task adds nothing. */
  function Resolve(tasks: seq<Task>, ids: seq<Prop<int>>): (ps: seq<nat>)
    ensures |ps| <= |ids|
    ensures forall k :: 0 <= k < |ps| ==> ps[k] < |tasks| && tasks[ps[k]].id in ids
  {
    if ids == [] then []
    else
      var rest := Resolve(tasks, ids[..|ids| - 1]);
      match FindById(tasks, ids[|ids| - 1])
      case Some(p) => rest + [p]
      case None => rest
  }

  /** `task.priority = name` for every position in `ps`. */
  function Relabel(work: seq<Task>, ps: seq<nat>, name: string): (r: seq<Task>)
    ensures |r| == |work|
    ensures forall k :: 0 <= k < |work| ==>
      r[k] == if k in ps then work[k].(priority := Has(name)) else work[k]
  {
    if ps == [] then work
    else
      var r := Relabel(work, ps[..|ps| - 1], name);
      var p := ps[|ps| - 1];
      assert forall k :: k in ps <==> k in ps[..|ps| - 1] || k == p by {
        assert ps == ps[..|ps| - 1] + [p];
      }
      if p < |work| then r[p := r[p].(priority := Has(name))] else r
  }

  /** The entries the positions in `refs` refer to, in that order. */
  function Gather(work: seq<Task>, refs: seq<nat>): (r: seq<Task>)
    requires forall j :: 0 <= j < |refs| ==> refs[j] < |work|
    ensures |r| == |refs|
    ensures forall j :: 0 <= j < |refs| ==> r[j] == work[refs[j]]
  {
    seq(|refs|, j requires 0 <= j < |refs| => work[refs[j]])
  }

  /** The old positions behind the new collection: the super-important
      cards, then the important ones, then the rest. */
  function Refs(tasks: seq<Task>, superIds: seq<Prop<int>>, importantIds: seq<Prop<int>>, notIds: seq<Prop<int>>): seq<nat> {
    Resolve(tasks, superIds) + Resolve(tasks, importantIds) + Resolve(tasks, notIds)
  }

  /** The collection after the old one with the priorities of the three
      lists written into it, as the handler leaves it. */
  function Relabelled(tasks: seq<Task>, superIds: seq<Prop<int>>, importantIds: seq<Prop<int>>, notIds: seq<Prop<int>>): seq<Task> {
    Relabel(Relabel(Relabel(tasks, Resolve(tasks, superIds), SuperImportant),
                    Resolve(tasks, importantIds), Important),
            Resolve(tasks, notIds), NotImportant)
  }

  /** The new collection. */
  function Reorder(tasks: seq<Task>, superIds: seq<Prop<int>>, importantIds: seq<Prop<int>>, notIds: seq<Prop<int>>): seq<Task> {
    Gather(Relabelled(tasks, superIds, importantIds, notIds), Refs(tasks, superIds, importantIds, notIds))
  }

  /** The priority the handler leaves in a task with id `id`: the list
      processed last among those holding a card with that id. */
  function BucketOf(id: Prop<int>, superIds: seq<Prop<int>>, importantIds: seq<Prop<int>>, notIds: seq<Prop<int>>): string {
    if id in notIds then NotImportant else if id in importantIds then Important else SuperImportant
  }

  /** The card ids that match a task, in card order. */
  function CardsFound(tasks: seq<Task>, ids: seq<Prop<int>>): seq<Prop<int>> {
    Seqs.Filter(ids, (id: Prop<int>) => FindById(tasks, id).Some?)
  }

  /** `processList`: walks the cards of one list, writing the priority into
      each matching task and appending its position to the new collection. */
  method ProcessList(tasks: seq<Task>, ids: seq<Prop<int>>, name: string, work0: seq<Task>, refs0: seq<nat>)
    returns (work: seq<Task>, refs: seq<nat>)
    requires |work0| == |tasks|
    ensures work == Relabel(work0, Resolve(tasks, ids), name)
    ensures refs == refs0 + Resolve(tasks, ids)
  {
    work, refs := work0, refs0;
    var k := 0;
    while k < |ids|
      invariant 0 <= k <= |ids|
      invariant work == Relabel(work0, Resolve(tasks, ids[..k]), name)
      invariant refs == refs0 + Resolve(tasks, ids[..k])
    {
      assert ids[..k + 1][..k] == ids[..k];
      var found := FindById(tasks, ids[k]);
      if found.Some? {
        work := work[found.value := work[found.value].(priority := Has(name))];
        refs := refs + [found.value];
      }
      k := k + 1;
    }
    assert ids[..k] == ids;
  }

  /** The body of `rebuildStateFromDOM`: the three lists in order, then the
      new collection. */
  method RebuildState(tasks: seq<Task>, superIds: seq<Prop<int>>, importantIds: seq<Prop<int>>, notIds: seq<Prop<int>>)
    returns (r: seq<Task>)
    ensures r == Reorder(tasks, superIds, importantIds, notIds)
  {
    ghost var ps, pi, pn := Resolve(tasks, superIds), Resolve(tasks, importantIds), Resolve(tasks, notIds);
    var work, refs := ProcessList(tasks, superIds, SuperImportant, tasks, []);
    assert refs == ps;
    work, refs := ProcessList(tasks, importantIds, Important, work, refs);
    work, refs := ProcessList(tasks, notIds, NotImportant, work, refs);
    assert refs == Refs(tasks, superIds, importantIds, notIds);
    assert work == Relabelled(tasks, superIds, importantIds, notIds);
    r := Gather(work, refs);
  }

  /** The positions a list resolves to are exactly those holding the first
      task for one of its card ids. */
  lemma {:induction false} ResolveMember(tasks: seq<Task>, ids: seq<Prop<int>>, p: nat)
    ensures p in Resolve(tasks, ids) <==>
      p < |tasks| && tasks[p].id in ids && FindById(tasks, tasks[p].id) == Some(p)
  {
    if ids != [] {
      var init, last := ids[..|ids| - 1], ids[|ids| - 1];
      assert ids == init + [last];
      ResolveMember(tasks, init, p);
      if p < |tasks| && FindById(tasks, tasks[p].id) == Some(p) && tasks[p].id == last {
        assert FindById(tasks, last) == Some(p);
      }
    }
  }

  lemma {:induction false} FilterSnoc<T>(s: seq<T>, x: T, f: T -> bool)
    ensures Seqs.Filter(s + [x], f) == Seqs.Filter(s, f) + (if f(x) then [x] else [])
  {
    Seqs.FilterConcat(s, [x], f);
    assert [x][1..] == [];
  }

  /** A list resolves, card by card, to tasks carrying the ids of its
      matching cards, in card order. */
  lemma {:induction false} ResolveIds(tasks: seq<Task>, ids: seq<Prop<int>>)
    ensures |Resolve(tasks, ids)| == |CardsFound(tasks, ids)|
    ensures forall k :: 0 <= k < |Resolve(tasks, ids)| ==>
      tasks[Resolve(tasks, ids)[k]].id == CardsFound(tasks, ids)[k]
  {
    if ids != [] {
      var init, last := ids[..|ids| - 1], ids[|ids| - 1];
      assert ids == init + [last];
      ResolveIds(tasks, init);
      FilterSnoc(init, last, (id: Prop<int>) => FindById(tasks, id).Some?);
    }
  }

  /** Resolving works card by card over any split of the cards. */
  lemma {:induction false} ResolveConcat(tasks: seq<Task>, a: seq<Prop<int>>, b: seq<Prop<int>>)
    ensures Resolve(tasks, a + b) == Resolve(tasks, a) + Resolve(tasks, b)
  {
    if b == [] {
      assert a + b == a;
    } else {
      var init, last := b[..|b| - 1], b[|b| - 1];
      assert (a + b)[..|a + b| - 1] == a + init;
      assert b[..|b| - 1] == init;
      ResolveConcat(tasks, a, init);
    }
  }

  /** The task at an old position that is the first with its id ends with
      the priority of the last list holding a card with that id. */
  lemma {:induction false} RelabelledAt(tasks: seq<Task>, superIds: seq<Prop<int>>, importantIds: seq<Prop<int>>, notIds: seq<Prop<int>>, p: nat)
    requires p < |tasks| && FindById(tasks, tasks[p].id) == Some(p)
    requires tasks[p].id in superIds + importantIds + notIds
    ensures Relabelled(tasks, superIds, importantIds, notIds)[p]
         == tasks[p].(priority := Has(BucketOf(tasks[p].id, superIds, importantIds, notIds)))
  {
    var id := tasks[p].id;
    var w1 := Relabel(tasks, Resolve(tasks, superIds), SuperImportant);
    var w2 := Relabel(w1, Resolve(tasks, importantIds), Important);
    var w3 := Relabel(w2, Resolve(tasks, notIds), NotImportant);
    ResolveMember(tasks, superIds, p);
    assert w1[p] == if id in superIds then tasks[p].(priority := Has(SuperImportant)) else tasks[p];
    ResolveMember(tasks, importantIds, p);
    assert w2[p] == if id in importantIds then tasks[p].(priority := Has(Important)) else w1[p];
    ResolveMember(tasks, notIds, p);
    assert w3[p] == if id in notIds then tasks[p].(priority := Has(NotImportant)) else w2[p];
    assert Relabelled(tasks, superIds, importantIds, notIds) == w3;
  }

  /** Each entry of the new collection refers to an old position holding
      the first task with its id, for a card in one of the lists. */
  lemma {:induction false} RefsAt(tasks: seq<Task>, superIds: seq<Prop<int>>, importantIds: seq<Prop<int>>, notIds: seq<Prop<int>>, j: nat)
    requires j < |Refs(tasks, superIds, importantIds, notIds)|
    ensures var p := Refs(tasks, superIds, importantIds, notIds)[j];
      && p < |tasks| && FindById(tasks, tasks[p].id) == Some(p)
      && tasks[p].id in superIds + importantIds + notIds
  {
    var ps, pi, pn := Resolve(tasks, superIds), Resolve(tasks, importantIds), Resolve(tasks, notIds);
    var p := Refs(tasks, superIds, importantIds, notIds)[j];
    if j < |ps| {
      assert p == ps[j];
      ResolveMember(tasks, superIds, p);
    } else if j < |ps| + |pi| {
      assert p == pi[j - |ps|];
      ResolveMember(tasks, importantIds, p);
    } else {
      assert p == pn[j - |ps| - |pi|];
      ResolveMember(tasks, notIds, p);
    }
  }

  lemma {:induction false} EntryAt(tasks: seq<Task>, superIds: seq<Prop<int>>, importantIds: seq<Prop<int>>, notIds: seq<Prop<int>>, j: nat)
    requires j < |Refs(tasks, superIds, importantIds, notIds)|
    ensures var p := Refs(tasks, superIds, importantIds, notIds)[j];
      && p < |tasks| && j < |Reorder(tasks, superIds, importantIds, notIds)|
      && Reorder(tasks, superIds, importantIds, notIds)[j]
         == tasks[p].(priority := Has(BucketOf(tasks[p].id, superIds, importantIds, notIds)))
      && tasks[p].id in superIds + importantIds + notIds
  {
    var refs := Refs(tasks, superIds, importantIds, notIds);
    RefsAt(tasks, superIds, importantIds, notIds, j);
    RelabelledAt(tasks, superIds, importantIds, notIds, refs[j]);
  }

  /** Every entry of the new collection is an old task with the id of a
      card, unchanged except for its priority, which is that of the last
      list holding a card with its id. */
  lemma {:induction false} ReorderEntries(tasks: seq<Task>, superIds: seq<Prop<int>>, importantIds: seq<Prop<int>>, notIds: seq<Prop<int>>)
    ensures var r, refs := Reorder(tasks, superIds, importantIds, notIds), Refs(tasks, superIds, importantIds, notIds);
      && |r| == |refs|
      && forall j :: 0 <= j < |r| ==>
           && refs[j] < |tasks|
           && r[j] == tasks[refs[j]].(priority := Has(BucketOf(tasks[refs[j]].id, superIds, importantIds, notIds)))
           && r[j].id in superIds + importantIds + notIds
  {
    var refs := Refs(tasks, superIds, importantIds, notIds);
    var r := Reorder(tasks, superIds, importantIds, notIds);
    forall j | 0 <= j < |r|
      ensures refs[j] < |tasks|
      ensures r[j] == tasks[refs[j]].(priority := Has(BucketOf(tasks[refs[j]].id, superIds, importantIds, notIds)))
      ensures r[j].id in superIds + importantIds + notIds
    {
      EntryAt(tasks, superIds, importantIds, notIds, j);
    }
  }

  /** The new collection holds, in order, the super-important, important
      and not-important cards whose ids match a task, and nothing else. */
  lemma {:induction false} ReorderIds(tasks: seq<Task>, superIds: seq<Prop<int>>, importantIds: seq<Prop<int>>, notIds: seq<Prop<int>>)
    ensures Seqs.Map(Reorder(tasks, superIds, importantIds, notIds), (t: Task) => t.id)
         == CardsFound(tasks, superIds + importantIds + notIds)
  {
    var all := superIds + importantIds + notIds;
    ResolveConcat(tasks, superIds, importantIds);
    ResolveConcat(tasks, superIds + importantIds, notIds);
    assert Refs(tasks, superIds, importantIds, notIds) == Resolve(tasks, all);
    ResolveIds(tasks, all);
    ReorderEntries(tasks, superIds, importantIds, notIds);
  }

  /** When every card matches a task, the ids of the new collection are the
      cards' ids, list after list. */
  lemma {:induction false} ReorderFollowsCards(tasks: seq<Task>, superIds: seq<Prop<int>>, importantIds: seq<Prop<int>>, notIds: seq<Prop<int>>)
    requires forall id :: id in superIds + importantIds + notIds ==> FindById(tasks, id).Some?
    ensures Seqs.Map(Reorder(tasks, superIds, importantIds, notIds), (t: Task) => t.id) == superIds + importantIds + notIds
  {
    ReorderIds(tasks, superIds, importantIds, notIds);
    var all := superIds + importantIds + notIds;
    Seqs.FilterKeepsAll(all, (id: Prop<int>) => FindById(tasks, id).Some?);
  }

  /** A task whose id is on no card is not in the new collection. */
  lemma {:induction false} ReorderDropsUncarded(tasks: seq<Task>, superIds: seq<Prop<int>>, importantIds: seq<Prop<int>>, notIds: seq<Prop<int>>, id: Prop<int>)
    requires id !in superIds + importantIds + notIds
    ensures forall j :: 0 <= j < |Reorder(tasks, superIds, importantIds, notIds)| ==>
      Reorder(tasks, superIds, importantIds, notIds)[j].id != id
  {
    ReorderEntries(tasks, superIds, importantIds, notIds);
  }

  /** When no id is on cards of two lists, each entry carries the priority
      of the list its card is in: the first entries come from the
      super-important list, then the important one, then the last. */
  lemma {:induction false} ReorderBuckets(tasks: seq<Task>, superIds: seq<Prop<int>>, importantIds: seq<Prop<int>>, notIds: seq<Prop<int>>)
    requires forall id :: id in superIds ==> id !in importantIds && id !in notIds
    requires forall id :: id in importantIds ==> id !in notIds
    ensures var r, a, b := Reorder(tasks, superIds, importantIds, notIds),
                          |Resolve(tasks, superIds)|, |Resolve(tasks, importantIds)|;
      && (forall j :: 0 <= j < a ==> r[j].priority == Has(SuperImportant))
      && (forall j :: a <= j < a + b ==> r[j].priority == Has(Important))
      && (forall j :: a + b <= j < |r| ==> r[j].priority == Has(NotImportant))
  {
    var r := Reorder(tasks, superIds, importantIds, notIds);
    var a, b := |Resolve(tasks, superIds)|, |Resolve(tasks, importantIds)|;
    forall j | 0 <= j < |r|
      ensures r[j].priority == Has(if j < a then SuperImportant else if j < a + b then Important else NotImportant)
    {
      EntryAt(tasks, superIds, importantIds, notIds, j);
      BucketAt(tasks, superIds, importantIds, notIds, j);
    }
  }

  lemma {:induction false} BucketAt(tasks: seq<Task>, superIds: seq<Prop<int>>, importantIds: seq<Prop<int>>, notIds: seq<Prop<int>>, j: nat)
    requires forall id :: id in superIds ==> id !in importantIds && id !in notIds
    requires forall id :: id in importantIds ==> id !in notIds
    requires j < |Refs(tasks, superIds, importantIds, notIds)|
    ensures var ps, pi := Resolve(tasks, superIds), Resolve(tasks, importantIds);
      var p := Refs(tasks, superIds, importantIds, notIds)[j];
      p < |tasks| &&
      BucketOf(tasks[p].id, superIds, importantIds, notIds)
        == if j < |ps| then SuperImportant else if j < |ps| + |pi| then Important else NotImportant
  {
    var ps, pi, pn := Resolve(tasks, superIds), Resolve(tasks, importantIds), Resolve(tasks, notIds);
    var p := Refs(tasks, superIds, importantIds, notIds)[j];
    if j < |ps| {
      assert p == ps[j];
    } else if j < |ps| + |pi| {
      assert p == pi[j - |ps|];
    } else {
      assert p == pn[j - |ps| - |pi|];
    }
  }

  /** A task reached from cards in two lists is one object: both entries
      show the priority of the list processed last. */
  lemma {:induction false} ReorderSharesObject(tasks: seq<Task>, superIds: seq<Prop<int>>, importantIds: seq<Prop<int>>, notIds: seq<Prop<int>>, j1: nat, j2: nat)
    requires j1 < |Reorder(tasks, superIds, importantIds, notIds)| && j2 < |Reorder(tasks, superIds, importantIds, notIds)|
    requires Reorder(tasks, superIds, importantIds, notIds)[j1].id == Reorder(tasks, superIds, importantIds, notIds)[j2].id
    ensures Reorder(tasks, superIds, importantIds, notIds)[j1] == Reorder(tasks, superIds, importantIds, notIds)[j2]
  {
    var refs := Refs(tasks, superIds, importantIds, notIds);
    ReorderEntries(tasks, superIds, importantIds, notIds);
    RefsAt(tasks, superIds, importantIds, notIds, j1);
    RefsAt(tasks, superIds, importantIds, notIds, j2);
  }

  /** When no id is on two cards, the reorder keeps the single-timer
      invariant. */
  lemma {:induction false} ReorderKeepsOneRunning(tasks: seq<Task>, superIds: seq<Prop<int>>, importantIds: seq<Prop<int>>, notIds: seq<Prop<int>>)
    requires AtMostOneRunning(tasks)
    requires var all := superIds + importantIds + notIds;
      forall i, j :: 0 <= i < j < |all| ==> all[i] != all[j]
    ensures AtMostOneRunning(Reorder(tasks, superIds, importantIds, notIds))
  {
    var r := Reorder(tasks, superIds, importantIds, notIds);
    var all := superIds + importantIds + notIds;
    ReorderIds(tasks, superIds, importantIds, notIds);
    ReorderEntries(tasks, superIds, importantIds, notIds);
    var found := CardsFound(tasks, all);
    FilterKeepsDistinct(all, (id: Prop<int>) => FindById(tasks, id).Some?);
    var refs := Refs(tasks, superIds, importantIds, notIds);
    var ids := Seqs.Map(r, (t: Task) => t.id);
    assert ids == found;
    forall i, j | 0 <= i < |r| && 0 <= j < |r| && r[i].isTimerRunning && r[j].isTimerRunning
      ensures i == j
    {
      assert tasks[refs[i]].isTimerRunning && tasks[refs[j]].isTimerRunning;
      assert refs[i] == refs[j];
      assert ids[i] == r[i].id == r[j].id == ids[j];
      assert found[i] == found[j];
    }
  }

  lemma {:induction false} FilterKeepsDistinct<T>(s: seq<T>, f: T -> bool)
    requires forall i, j :: 0 <= i < j < |s| ==> s[i] != s[j]
    ensures forall i, j :: 0 <= i < j < |Seqs.Filter(s, f)| ==> Seqs.Filter(s, f)[i] != Seqs.Filter(s, f)[j]
  {
    if s != [] {
      FilterKeepsDistinct(s[1..], f);
      var rest := Seqs.Filter(s[1..], f);
      assert forall i, j :: 0 <= i < j < |rest| ==> rest[i] != rest[j];
      if !f(s[0]) {
        assert Seqs.Filter(s, f) == rest;
      }
    }
  }

  /** When the cards carry each task id exactly as often as the tasks do
      (one card per task), the new collection has one entry per task and
      the same ids. */
  lemma {:induction false} ReorderIsRearrangement(tasks: seq<Task>, superIds: seq<Prop<int>>, importantIds: seq<Prop<int>>, notIds: seq<Prop<int>>)
    requires multiset(superIds + importantIds + notIds) == multiset(Seqs.Map(tasks, (t: Task) => t.id))
    ensures multiset(Seqs.Map(Reorder(tasks, superIds, importantIds, notIds), (t: Task) => t.id))
         == multiset(Seqs.Map(tasks, (t: Task) => t.id))
    ensures |Reorder(tasks, superIds, importantIds, notIds)| == |tasks|
  {
    var all := superIds + importantIds + notIds;
    forall id | id in all ensures FindById(tasks, id).Some? {
      assert id in multiset(Seqs.Map(tasks, (t: Task) => t.id));
      var k :| 0 <= k < |tasks| && Seqs.Map(tasks, (t: Task) => t.id)[k] == id;
    }
    ReorderFollowsCards(tasks, superIds, importantIds, notIds);
    assert |all| == |multiset(all)|;
  }
}
