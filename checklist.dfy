/** Checklist logic: the progress percentage, the display order of the detail
    view with its mapping back to storage positions (`realIndex`), and the
    edits of the modal's checklist buffer. */
module Checklist {
  import opened Js
  import opened Records
  import Seqs

  // ---- calculateProgress ----

  function DoneCount(cl: seq<Item>): (d: nat)
    ensures d <= |cl|
  {
    if cl == [] then 0 else (if cl[0].done then 1 else 0) + DoneCount(cl[1..])
  }

  predicate AllDone(cl: seq<Item>) {
    forall k :: 0 <= k < |cl| ==> cl[k].done
  }

  /** The count reaches the length exactly when every item is done. */
  lemma {:induction false} DoneCountFull(cl: seq<Item>)
    ensures DoneCount(cl) == |cl| <==> AllDone(cl)
  {
    if cl != [] {
      DoneCountFull(cl[1..]);
      assert AllDone(cl) <==> cl[0].done && AllDone(cl[1..]) by {
        if cl[0].done && AllDone(cl[1..]) {
          forall k | 0 <= k < |cl| ensures cl[k].done {
            if k > 0 { assert cl[k] == cl[1..][k - 1]; }
          }
        }
      }
    }
  }

  lemma {:induction false} MulMono(a: nat, b: int, c: int)
    requires b <= c
    ensures a * b <= a * c
  {
  }

  /** `Math.round(100 * done / total)` on the exact quotient: the nearest
      integer, with halves rounded up. */
  function RoundedPercent(done: nat, total: nat): (p: nat)
    requires 0 < total && done <= total
    ensures p <= 100
    ensures 2 * total * p <= 200 * done + total < 2 * total * p + 2 * total
  {
    var n, x := 2 * total, 200 * done + total;
    var p := x / n;
    assert x == n * p + x % n && 0 <= x % n < n;
    assert p <= 100 by {
      if p >= 101 {
        MulMono(n, 101, p);
      }
    }
    p
  }

  /** `calculateProgress(checklist)`: 0 for an empty checklist, otherwise
      the rounded percentage of done items. */
  function Progress(cl: seq<Item>): (p: nat)
    ensures cl == [] ==> p == 0
    ensures p <= 100
    ensures cl != [] ==> 2 * |cl| * p <= 200 * DoneCount(cl) + |cl| < 2 * |cl| * p + 2 * |cl|
  {
    if cl == [] then 0 else RoundedPercent(DoneCount(cl), |cl|)
  }

  /** Progress reads 100 exactly when the undone items are at most half a
      percent of the list; below 200 items that means all of them are done. */
  lemma {:induction false} ProgressFull(cl: seq<Item>)
    requires cl != []
    ensures Progress(cl) == 100 <==> 200 * (|cl| - DoneCount(cl)) <= |cl|
    ensures |cl| < 200 ==> (Progress(cl) == 100 <==> AllDone(cl))
  {
    DoneCountFull(cl);
    var n, d := |cl|, DoneCount(cl);
    var p := Progress(cl);
    assert 2 * n * p <= 200 * d + n < 2 * n * p + 2 * n;
    if p == 100 {
      assert 2 * n * 100 <= 200 * d + n;
    }
    if 200 * (n - d) <= n {
      assert 200 * n <= 200 * d + n;
      if p <= 99 {
        MulMono(2 * n, p, 99);
        assert false;
      }
    }
    if n < 200 && d < n {
      assert 200 * (n - d) >= 200;
    }
  }

  /** 199 done items out of 200 already round to 100. */
  lemma {:induction false} ProgressRoundsUpNearlyFull()
    ensures RoundedPercent(199, 200) == 100
  {
  }

  /** Two of three done gives 67. */
  lemma {:induction false} ProgressTwoOfThree()
    ensures Progress([Item("a", true), Item("b", false), Item("c", true)]) == 67
  {
    var cl := [Item("a", true), Item("b", false), Item("c", true)];
    assert cl[1..][1..][1..] == [];
    assert DoneCount(cl) == 2;
  }

  // ---- Display order of the detail view ----

  /** Storage positions from `from` on whose item has the given flag, in
      increasing order. */
  function PositionsWith(cl: seq<Item>, done: bool, from: nat): (ps: seq<nat>)
    requires from <= |cl|
    ensures forall k :: 0 <= k < |ps| ==> from <= ps[k] < |cl| && cl[ps[k]].done == done
    ensures forall i, j :: 0 <= i < j < |ps| ==> ps[i] < ps[j]
    decreases |cl| - from
  {
    if from == |cl| then []
    else (if cl[from].done == done then [from] else []) + PositionsWith(cl, done, from + 1)
  }

  lemma {:induction false} PositionsCover(cl: seq<Item>, from: nat)
    requires from <= |cl|
    ensures |PositionsWith(cl, false, from)| + |PositionsWith(cl, true, from)| == |cl| - from
    decreases |cl| - from
  {
    if from < |cl| {
      PositionsCover(cl, from + 1);
    }
  }

  /** The items of `cl` with the given flag, in storage order. */
  function Flagged(cl: seq<Item>, done: bool): (r: seq<Item>)
    ensures |r| <= |cl|
  {
    if cl == [] then [] else (if cl[0].done == done then [cl[0]] else []) + Flagged(cl[1..], done)
  }

  lemma {:induction false} FlaggedSplit(cl: seq<Item>)
    ensures |Flagged(cl, false)| + |Flagged(cl, true)| == |cl|
    ensures multiset(Flagged(cl, false)) + multiset(Flagged(cl, true)) == multiset(cl)
  {
    if cl != [] {
      FlaggedSplit(cl[1..]);
      assert cl == [cl[0]] + cl[1..];
    }
  }

  function ItemAt(cl: seq<Item>): nat -> Item {
    (i: nat) => if i < |cl| then cl[i] else Item("", false)
  }

  /** The items at those positions are the items of `cl[from..]` with that
      flag, in order. */
  lemma {:induction false} PositionsPickFlagged(cl: seq<Item>, done: bool, from: nat)
    requires from <= |cl|
    ensures Seqs.Map(PositionsWith(cl, done, from), ItemAt(cl)) == Flagged(cl[from..], done)
    decreases |cl| - from
  {
    if from < |cl| {
      PositionsPickFlagged(cl, done, from + 1);
      assert cl[from..][1..] == cl[from + 1..];
      var head: seq<nat> := if cl[from].done == done then [from] else [];
      Seqs.MapConcat(head, PositionsWith(cl, done, from + 1), ItemAt(cl));
    } else {
      assert cl[from..] == [];
    }
  }

  /** For each displayed row, the storage position its toggle writes
      (`realIndex`): the positions of undone items, then those of done
      items, each group in storage order. */
  function DisplayOrder(cl: seq<Item>): (order: seq<nat>)
    ensures |order| == |cl|
    ensures forall k :: 0 <= k < |order| ==> order[k] < |cl|
    ensures forall i, j :: 0 <= i < j < |order| ==> order[i] != order[j]
    ensures forall i, j :: 0 <= i < j < |order| ==> !cl[order[i]].done || cl[order[j]].done
    ensures forall i, j :: 0 <= i < j < |order| && cl[order[i]].done == cl[order[j]].done ==> order[i] < order[j]
  {
    PositionsCover(cl, 0);
    var undone, done := PositionsWith(cl, false, 0), PositionsWith(cl, true, 0);
    var order := undone + done;
    assert forall k :: 0 <= k < |undone| ==> !cl[order[k]].done;
    assert forall k :: |undone| <= k < |order| ==> cl[order[k]].done && order[k] == done[k - |undone|];
    order
  }

  /** `[...checklist].sort((a, b) => a.done - b.done)`: a stable sort that
      puts undone items before done ones. */
  function SortedChecklist(cl: seq<Item>): (r: seq<Item>)
    ensures |r| == |cl|
  {
    FlaggedSplit(cl);
    Flagged(cl, false) + Flagged(cl, true)
  }

  /** Each displayed row's `realIndex` points at that very item in storage. */
  lemma {:induction false} RealIndexPointsToItem(cl: seq<Item>)
    ensures forall k :: 0 <= k < |cl| ==> cl[DisplayOrder(cl)[k]] == SortedChecklist(cl)[k]
  {
    PositionsPickFlagged(cl, false, 0);
    PositionsPickFlagged(cl, true, 0);
    assert cl[0..] == cl;
    Seqs.MapConcat(PositionsWith(cl, false, 0), PositionsWith(cl, true, 0), ItemAt(cl));
    assert Seqs.Map(DisplayOrder(cl), ItemAt(cl)) == SortedChecklist(cl);
  }

  /** The displayed list is a rearrangement of the stored one. */
  lemma {:induction false} SortedIsPermutation(cl: seq<Item>)
    ensures multiset(SortedChecklist(cl)) == multiset(cl)
  {
    FlaggedSplit(cl);
  }

  // ---- The checklist-toggle handler's write ----

  /** `checklist[realIndex].done = checked`. */
  function SetDone(cl: seq<Item>, i: nat, checked: bool): (r: seq<Item>)
    requires i < |cl|
    ensures |r| == |cl| && r[i] == Item(cl[i].text, checked)
    ensures forall k :: 0 <= k < |cl| && k != i ==> r[k] == cl[k]
  {
    cl[i := cl[i].(done := checked)]
  }

  /** Ticking the box of displayed row `k` changes exactly the item shown in
      that row, and only its `done` flag. */
  lemma {:induction false} ToggleHitsDisplayedItem(cl: seq<Item>, k: nat, checked: bool)
    requires k < |cl|
    ensures var i := DisplayOrder(cl)[k];
      var r := SetDone(cl, i, checked);
      && r[i] == SortedChecklist(cl)[k].(done := checked)
      && forall j :: 0 <= j < |cl| && j != i ==> r[j] == cl[j]
  {
    RealIndexPointsToItem(cl);
  }

  // ---- The modal's checklist buffer ----

  /** `addBufferItem`: append the trimmed text as an undone item, unless the
      text is blank. */
  function WithItemAdded(buffer: seq<Item>, input: string): seq<Item> {
    var text := Trim(input);
    if text != "" then buffer + [Item(text, false)] else buffer
  }

  /** A blank input changes nothing; any other input appends exactly one
      undone item carrying the input without its surrounding white space. */
  lemma {:induction false} ItemAdded(buffer: seq<Item>, input: string)
    ensures AllSpace(input) ==> WithItemAdded(buffer, input) == buffer
    ensures !AllSpace(input) ==>
      && |WithItemAdded(buffer, input)| == |buffer| + 1
      && WithItemAdded(buffer, input)[..|buffer|] == buffer
      && !WithItemAdded(buffer, input)[|buffer|].done
      && WithItemAdded(buffer, input)[|buffer|].text == Trim(input)
      && Trim(input) != [] && !IsSpace(Trim(input)[0]) && !IsSpace(Trim(input)[|Trim(input)| - 1])
  {
    TrimEmptyIff(input);
    TrimIsSlice(input);
  }

  /** The position `splice(idx, 1)` starts at: a negative index counts from
      the end, and both ends are clamped to the list. */
  function SpliceStart(len: nat, idx: int): (s: nat)
    ensures s <= len
  {
    if idx < 0 then (if len + idx < 0 then 0 else len + idx)
    else if idx > len then len
    else idx
  }

  /** `buffer.splice(idx, 1)`. */
  function SpliceOne(buffer: seq<Item>, idx: int): seq<Item> {
    var s := SpliceStart(|buffer|, idx);
    if s < |buffer| then buffer[..s] + buffer[s + 1..] else buffer
  }

  /** Removing a valid index drops exactly that item and keeps the others
      in order. */
  lemma {:induction false} SpliceRemovesOne(buffer: seq<Item>, idx: int)
    requires 0 <= idx < |buffer|
    ensures var r := SpliceOne(buffer, idx);
      && |r| == |buffer| - 1
      && (forall k :: 0 <= k < idx ==> r[k] == buffer[k])
      && (forall k :: idx <= k < |r| ==> r[k] == buffer[k + 1])
      && multiset(r) + multiset{buffer[idx]} == multiset(buffer)
  {
    assert buffer == buffer[..idx] + [buffer[idx]] + buffer[idx + 1..];
  }

  /** An index at or past the end removes nothing; -1 removes the last item. */
  lemma {:induction false} SpliceEdges(buffer: seq<Item>, idx: int)
    ensures idx >= |buffer| ==> SpliceOne(buffer, idx) == buffer
    ensures buffer != [] && idx == -1 ==> SpliceOne(buffer, idx) == buffer[..|buffer| - 1]
  {
  }

  // ---- Rebuilding the buffer in drag order ----

  /** `buffer.find(item => item.text === text)`, as a position. */
  function FirstWithText(buffer: seq<Item>, text: string): (r: Option<nat>)
    ensures r.Some? ==> r.value < |buffer| && buffer[r.value].text == text
    ensures r.Some? ==> forall k :: 0 <= k < r.value ==> buffer[k].text != text
    ensures r.None? <==> forall k :: 0 <= k < |buffer| ==> buffer[k].text != text
  {
    if buffer == [] then None
    else if buffer[0].text == text then Some(0)
    else match FirstWithText(buffer[1..], text)
      case None => None
      case Some(i) => Some(i + 1)
  }

  /** The entry the rebuild pushes for a row: a copy of the first buffer
      item with the row's text (rows whose text is absent never get here). */
  function ItemForRow(buffer: seq<Item>, text: string): Item {
    match FirstWithText(buffer, text)
    case Some(i) => Item(buffer[i].text, buffer[i].done)
    case None => Item(text, false)
  }

  predicate AllRowsFound(buffer: seq<Item>, rows: seq<string>) {
    forall k :: 0 <= k < |rows| ==> FirstWithText(buffer, rows[k]).Some?
  }

  /** The buffer after the drag `update` handler, one entry per displayed
      row; `None` when a row's text is not in the buffer, where the handler
      fails on `originalItem.text` and leaves the buffer as it was. */
  function Rebuilt(buffer: seq<Item>, rows: seq<string>): (r: Option<seq<Item>>)
    ensures r.Some? <==> AllRowsFound(buffer, rows)
    ensures r.Some? ==>
      |r.value| == |rows| && forall k :: 0 <= k < |rows| ==> r.value[k].text == rows[k]
  {
    if AllRowsFound(buffer, rows) then Some(Seqs.Map(rows, (t: string) => ItemForRow(buffer, t))) else None
  }

  /** Each entry's `done` comes from the first buffer item with its text. */
  lemma {:induction false} RebuiltTakesFirstMatch(buffer: seq<Item>, rows: seq<string>, k: nat)
    requires AllRowsFound(buffer, rows) && k < |rows|
    ensures var i := FirstWithText(buffer, rows[k]).value;
      Rebuilt(buffer, rows).value[k] == buffer[i]
      && forall j :: 0 <= j < i ==> buffer[j].text != rows[k]
  {
  }

  /** Two items with the same text both come out with the first one's flag. */
  lemma {:induction false} RebuiltDuplicatesShareDone()
    ensures Rebuilt([Item("a", true), Item("a", false)], ["a", "a"])
         == Some([Item("a", true), Item("a", true)])
  {
    var buffer := [Item("a", true), Item("a", false)];
    assert FirstWithText(buffer, "a") == Some(0);
    assert ItemForRow(buffer, "a") == Item("a", true);
    assert AllRowsFound(buffer, ["a", "a"]);
    var r := Rebuilt(buffer, ["a", "a"]).value;
    assert |r| == 2 && r[0] == Item("a", true) && r[1] == Item("a", true);
    assert r == [Item("a", true), Item("a", true)];
  }

  function Texts(buffer: seq<Item>): (ts: seq<string>)
    ensures |ts| == |buffer| && forall k :: 0 <= k < |buffer| ==> ts[k] == buffer[k].text
  {
    Seqs.Map(buffer, (x: Item) => x.text)
  }

  predicate DistinctTexts(buffer: seq<Item>) {
    forall i, j :: 0 <= i < j < |buffer| ==> buffer[i].text != buffer[j].text
  }

  /** When the texts are distinct and the rows show each of them once, the
      rebuilt buffer is a rearrangement of the old one. */
  lemma {:induction false} RebuiltIsPermutation(buffer: seq<Item>, rows: seq<string>)
    requires DistinctTexts(buffer)
    requires multiset(rows) == multiset(Texts(buffer))
    ensures Rebuilt(buffer, rows).Some?
    ensures multiset(Rebuilt(buffer, rows).value) == multiset(buffer)
  {
    var f := (t: string) => ItemForRow(buffer, t);
    forall k | 0 <= k < |rows| ensures FirstWithText(buffer, rows[k]).Some? {
      assert rows[k] in multiset(Texts(buffer));
      var j :| 0 <= j < |buffer| && Texts(buffer)[j] == rows[k];
    }
    forall j | 0 <= j < |buffer| ensures f(Texts(buffer)[j]) == buffer[j] {
      var i := FirstWithText(buffer, buffer[j].text);
      assert i.Some? && i.value == j;
    }
    assert Seqs.Map(Texts(buffer), f) == buffer;
    Seqs.MapPreservesPermutation(rows, Texts(buffer), f);
  }
}
