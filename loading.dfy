/** `loadTasks` in both versions of the page, as a function of what storage
    holds: the earlier version migrates every record, the later one first
    drops archived records and keeps those matching the search query. */
module Loading {
  import opened Js
  import opened Records
  import opened Migration
  import Seqs

  /** The storage slot under the key `tasks`: nothing (or an empty string),
      text that does not parse as a list of records, or a list of records. */
  datatype Store = Missing | Corrupt | Saved(records: seq<Stored>)

  /** The collection after the earlier `loadTasks`, given the collection
      before it: unchanged when storage is empty, reset on corrupt data. */
  function LoadedTasks(store: Store, before: seq<Task>): (r: seq<Task>)
    ensures store.Missing? ==> r == before
    ensures store.Corrupt? ==> r == []
    ensures store.Saved? ==>
      |r| == |store.records| && forall k :: 0 <= k < |r| ==> r[k] == Migrate(store.records[k])
  {
    match store
    case Missing => before
    case Corrupt => []
    case Saved(rs) => MigrateAll(rs)
  }

  /** `item.isArchive == false`. */
  predicate NotArchived(r: Stored) {
    LooseEqualsFalse(r.isArchive)
  }

  /** The six searched columns, each as `String(item[col])`. */
  function SearchColumns(r: Stored): seq<string> {
    [ToStr(r.name), ToStr(r.description), ToStr(r.project), ToStr(r.tags), ToStr(r.priority), ToStr(r.energyLevel)]
  }

  /** Some column, lower-cased, includes the lower-cased query. */
  predicate MatchesQuery(r: Stored, query: string) {
    exists c :: 0 <= c < 6 && Includes(ToLower(SearchColumns(r)[c]), ToLower(query))
  }

  /** The records the later `loadTasks` keeps, in storage order. */
  function Kept(rs: seq<Stored>, query: string): seq<Stored> {
    Seqs.Filter(Seqs.Filter(rs, NotArchived), (r: Stored) => MatchesQuery(r, query))
  }

  /** The collection after the later `loadTasks(query)`: empty when storage
      is empty or corrupt, otherwise the kept records migrated. */
  function LoadedTasksFiltered(store: Store, query: string, unescape: string -> string): (r: seq<Task>)
    ensures !store.Saved? ==> r == []
    ensures store.Saved? ==> r == MigrateAllExt(Kept(store.records, query), unescape)
  {
    match store
    case Saved(rs) => MigrateAllExt(Kept(rs, query), unescape)
    case _ => []
  }

  /** The selection after loading: the id of the first running task when
      there is one, and the previous selection otherwise. */
  function ViewAfterLoad(tasks: seq<Task>, before: Prop<int>): (v: Prop<int>)
    ensures (exists k :: 0 <= k < |tasks| && tasks[k].isTimerRunning) ==>
      exists k :: 0 <= k < |tasks| && tasks[k].isTimerRunning && v == tasks[k].id
        && forall j :: 0 <= j < k ==> !tasks[j].isTimerRunning
    ensures (forall k :: 0 <= k < |tasks| ==> !tasks[k].isTimerRunning) ==> v == before
  {
    match FirstRunning(tasks)
    case Some(i) => tasks[i].id
    case None => before
  }

  /** A record is kept exactly when it is stored, loosely equal to false in
      its `isArchive`, and matches the query. */
  lemma {:induction false} KeptIff(rs: seq<Stored>, query: string, r: Stored)
    ensures r in Kept(rs, query) <==> r in rs && NotArchived(r) && MatchesQuery(r, query)
  {
    var a := Seqs.Filter(rs, NotArchived);
    if r in rs && NotArchived(r) && MatchesQuery(r, query) {
      var k :| 0 <= k < |rs| && rs[k] == r;
      assert r in a;
      var j :| 0 <= j < |a| && a[j] == r;
    }
    if r in Kept(rs, query) {
      var k :| 0 <= k < |Kept(rs, query)| && Kept(rs, query)[k] == r;
      var j :| 0 <= j < |a| && a[j] == r;
    }
  }

  /** The later load, task by task: missing or corrupt storage gives no
      task; otherwise a task is loaded exactly when it is the migration of a
      stored record that is not archived and matches the query. */
  lemma {:induction false} LoadedFilteredMembers(store: Store, query: string, unescape: string -> string, t: Task)
    ensures !store.Saved? ==> LoadedTasksFiltered(store, query, unescape) == []
    ensures store.Saved? ==>
      (t in LoadedTasksFiltered(store, query, unescape) <==>
        exists s :: s in store.records && NotArchived(s) && MatchesQuery(s, query) && t == MigrateExt(s, unescape))
  {
    if store.Saved? {
      var ks := Kept(store.records, query);
      MigratedMembers(ks, unescape, t);
      forall s | s in store.records && NotArchived(s) && MatchesQuery(s, query) ensures s in ks {
        KeptIff(store.records, query, s);
      }
      forall s | s in ks ensures s in store.records && NotArchived(s) && MatchesQuery(s, query) {
        KeptIff(store.records, query, s);
      }
    }
  }

  /** A task comes out of the later migration exactly when it is the
      migration of one of the records. */
  lemma {:induction false} MigratedMembers(ks: seq<Stored>, unescape: string -> string, t: Task)
    ensures t in MigrateAllExt(ks, unescape) <==> exists s :: s in ks && t == MigrateExt(s, unescape)
  {
    var r := MigrateAllExt(ks, unescape);
    if t in r {
      var k :| 0 <= k < |r| && r[k] == t;
      assert ks[k] in ks;
    }
    if exists s :: s in ks && t == MigrateExt(s, unescape) {
      var s :| s in ks && t == MigrateExt(s, unescape);
      var k :| 0 <= k < |ks| && ks[k] == s;
      assert r[k] == t;
    }
  }

  /** The kept records keep their storage order: keeping works record by
      record over any split of the stored list. */
  lemma {:induction false} KeptConcat(a: seq<Stored>, b: seq<Stored>, query: string)
    ensures Kept(a + b, query) == Kept(a, query) + Kept(b, query)
    ensures Kept([], query) == []
  {
    Seqs.FilterConcat(a, b, NotArchived);
    Seqs.FilterConcat(Seqs.Filter(a, NotArchived), Seqs.Filter(b, NotArchived), (r: Stored) => MatchesQuery(r, query));
  }

  /** One record is kept (as itself) or dropped. */
  lemma {:induction false} KeptSingle(r: Stored, query: string)
    ensures Kept([r], query) == if NotArchived(r) && MatchesQuery(r, query) then [r] else []
  {
    assert [r][1..] == [];
  }

  /** Every record matches the empty query. */
  lemma {:induction false} EmptyQueryMatches(r: Stored)
    ensures MatchesQuery(r, "")
  {
    IncludesEmpty(ToLower(SearchColumns(r)[0]));
  }

  /** With the empty query, loading keeps every non-archived record in its
      original order; when none is archived it keeps them all. */
  lemma {:induction false} EmptyQueryKeepsAll(rs: seq<Stored>)
    ensures Kept(rs, "") == Seqs.Filter(rs, NotArchived)
    ensures (forall k :: 0 <= k < |rs| ==> NotArchived(rs[k])) ==> Kept(rs, "") == rs
  {
    var a := Seqs.Filter(rs, NotArchived);
    forall k | 0 <= k < |a| ensures MatchesQuery(a[k], "") {
      EmptyQueryMatches(a[k]);
    }
    Seqs.FilterKeepsAll(a, (r: Stored) => MatchesQuery(r, ""));
    if forall k :: 0 <= k < |rs| ==> NotArchived(rs[k]) {
      Seqs.FilterKeepsAll(rs, NotArchived);
    }
  }

  lemma {:induction false} LowerIdempotent(s: string)
    ensures ToLower(ToLower(s)) == ToLower(s)
  {
  }

  /** The search ignores the case of the query: a query matches exactly
      when its lower-cased form does. */
  lemma {:induction false} MatchIgnoresQueryCase(r: Stored, query: string)
    ensures MatchesQuery(r, query) <==> MatchesQuery(r, ToLower(query))
  {
    LowerIdempotent(query);
  }

  /** A missing description is searched as the text "undefined". */
  lemma {:induction false} MissingDescriptionMatchesUndefined(r: Stored)
    requires r.description == Absent
    ensures MatchesQuery(r, "undef")
  {
    assert OccursAt(ToLower("undefined"), ToLower("undef"), 0);
    assert SearchColumns(r)[1] == "undefined";
  }

  /** A missing or null `isArchive` drops the record; false, 0 and "" keep it. */
  lemma {:induction false} ArchiveFlagDecides(r: Stored)
    ensures r.isArchive == Absent || r.isArchive == Null || r.isArchive == Has(Bool(true)) ==> !NotArchived(r)
    ensures r.isArchive == Has(Bool(false)) || r.isArchive == Has(Num(0)) || r.isArchive == Has(Text("")) ==> NotArchived(r)
  {
  }
}
