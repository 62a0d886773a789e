/**
 * `ReadingTracker`: the collection of reading items and the operations that
 * change it (adding, status, priority and progress writes, timed reading
 * sessions, delete with undo, editing), each followed by the save that
 * refreshes the stored copy, the tag universe and the status counts.
 */
module Tracker {
  import opened Wrappers
  import opened Text
  import Tags
  import opened Items
  import Query
  import Sorting
  import opened Statistics
  import opened Achievements

  /** The session being timed: which item, and when it began (ms). */
  datatype ActiveSession = ActiveSession(itemId: string, startTime: int)

  /** An entry of `deletedItems`: the removed item and the index it had. */
  datatype Deleted = Deleted(item: Item, index: nat)

  /** `Math.min(Math.max(0, progress), 100)`. */
  function Clamp(progress: int): (r: int)
    ensures 0 <= r <= 100
    ensures 0 <= progress <= 100 ==> r == progress
    ensures progress < 0 ==> r == 0
    ensures progress > 100 ==> r == 100
  {
    if progress < 0 then 0 else if progress > 100 then 100 else progress
  }

  // ----- Writes to the first item with a given id (`items.find(...)`).

  /** The collection with `f` applied to the first item whose id is `id`, if there is one. */
  function UpdateFirst(items: seq<Item>, id: string, f: Item -> Item): (r: seq<Item>)
    ensures |r| == |items|
    ensures match FindIndex(items, id)
      case None => r == items
      case Some(i) => r[i] == f(items[i]) && forall j :: 0 <= j < |items| && j != i ==> r[j] == items[j]
  {
    match FindIndex(items, id)
    case None => items
    case Some(i) => items[i := f(items[i])]
  }

  /** A write that keeps the id keeps every lookup by id. */
  lemma UpdateFirstKeepsIds(items: seq<Item>, id: string, f: Item -> Item, x: string)
    requires forall it :: f(it).id == it.id
    ensures FindIndex(UpdateFirst(items, id, f), x) == FindIndex(items, x)
  {
    var r := UpdateFirst(items, id, f);
    assert forall j :: 0 <= j < |items| ==> r[j].id == items[j].id;
    FindIndexSameIds(r, items, x);
  }

  /** A write that keeps the tags keeps the tag universe. */
  lemma UpdateFirstKeepsTags(items: seq<Item>, id: string, f: Item -> Item)
    requires forall it :: f(it).tags == it.tags
    ensures TagUniverse(UpdateFirst(items, id, f)) == TagUniverse(items)
  {
    var r := UpdateFirst(items, id, f);
    assert forall j :: 0 <= j < |items| ==> r[j].tags == items[j].tags;
    forall t | t in TagUniverse(items) ensures t in TagUniverse(r) {
      var j :| 0 <= j < |items| && t in items[j].tags;
      assert t in r[j].tags;
    }
    forall t | t in TagUniverse(r) ensures t in TagUniverse(items) {
      var j :| 0 <= j < |r| && t in r[j].tags;
      assert t in items[j].tags;
    }
  }

  function WithStatus(status: Status): Item -> Item {
    (it: Item) => it.(status := status)
  }

  function WithPriority(priority: Priority): Item -> Item {
    (it: Item) => it.(priority := priority)
  }

  /** The progress write of `updateProgress`: a clamped progress of 100 also completes the item. */
  function WithProgress(p: int): Item -> Item {
    (it: Item) => it.(progress := p, status := if p == 100 then Completed else it.status)
  }

  /** The writes of `startReadingSession`: an unread item becomes reading, and it was last read now. */
  function Started(now: int): Item -> Item {
    (it: Item) => it.(status := if it.status == Unread then Reading else it.status, lastRead := Some(now))
  }

  /** The writes of `handleEditSubmit`. */
  function Edited(title: string, url: string, priority: Priority, tags: seq<string>, notes: string): Item -> Item {
    (it: Item) => it.(title := title, url := url, priority := priority, tags := tags, notes := notes)
  }

  // ----- Delete and undo.

  function OtherId(id: string): Item -> bool {
    (it: Item) => it.id != id
  }

  /** `items.filter(item => item.id !== id)`: every item with that id goes, the rest stay in order. */
  function RemoveId(items: seq<Item>, id: string): (r: seq<Item>)
    ensures forall x :: x in r <==> x in items && x.id != id
    ensures !HasId(r, id)
    ensures |r| < |items| <==> HasId(items, id)
  {
    FilterKeepsAll(items, OtherId(id));
    Query.FilterMembers(items, OtherId(id));
    Query.Filter(items, OtherId(id))
  }

  /** A filter keeps the length exactly when every element passes. */
  lemma {:induction false} FilterKeepsAll(s: seq<Item>, p: Item -> bool)
    ensures |Query.Filter(s, p)| == |s| <==> forall i :: 0 <= i < |s| ==> p(s[i])
  {
    if s != [] {
      var init := s[..|s| - 1];
      var last := s[|s| - 1];
      FilterKeepsAll(init, p);
      var f := Query.Filter(init, p);
      assert Query.Filter(s, p) == f + (if p(last) then [last] else []);
      assert |f| <= |init|;
      if forall i :: 0 <= i < |s| ==> p(s[i]) {
        assert forall i :: 0 <= i < |init| ==> p(init[i]) by {
          forall i | 0 <= i < |init| ensures p(init[i]) {
            assert init[i] == s[i];
          }
        }
      }
    }
  }

  /** `items.splice(index, 0, item)`: an index past the end appends. */
  function Reinsert(items: seq<Item>, d: Deleted): (r: seq<Item>)
    ensures |r| == |items| + 1
    ensures multiset(r) == multiset(items) + multiset{d.item}
    ensures d.index <= |items| ==> r[d.index] == d.item
    ensures d.index > |items| ==> r[|items|] == d.item
  {
    var k := if d.index < |items| then d.index else |items|;
    assert items == items[..k] + items[k..];
    items[..k] + [d.item] + items[k..]
  }

  /** Removing the only item with its id leaves the items before and after it. */
  lemma RemoveOnly(items: seq<Item>, i: nat)
    requires i < |items|
    requires forall j :: 0 <= j < |items| && j != i ==> items[j].id != items[i].id
    ensures RemoveId(items, items[i].id) == items[..i] + items[i + 1..]
  {
    FilterOnlyFails(items, i, OtherId(items[i].id));
  }

  /** Filtering out the one element that fails the test cuts out its position. */
  lemma {:induction false} FilterOnlyFails(s: seq<Item>, i: nat, p: Item -> bool)
    requires i < |s| && !p(s[i])
    requires forall j :: 0 <= j < |s| && j != i ==> p(s[j])
    ensures Query.Filter(s, p) == s[..i] + s[i + 1..]
  {
    var init := s[..|s| - 1];
    assert forall j :: 0 <= j < |init| ==> init[j] == s[j];
    if i == |s| - 1 {
      FilterIsAllRec(init, p);
    } else {
      FilterOnlyFails(init, i, p);
      assert init[..i] + init[i + 1..] + [s[|s| - 1]] == s[..i] + s[i + 1..];
    }
  }

  /** Deleting an item whose id is unique and undoing it gives the collection back. */
  lemma DeleteThenUndo(items: seq<Item>, i: nat)
    requires i < |items|
    requires forall j :: 0 <= j < |items| && j != i ==> items[j].id != items[i].id
    ensures Reinsert(RemoveId(items, items[i].id), Deleted(items[i], i)) == items
  {
    RemoveOnly(items, i);
    var xs := items[..i] + items[i + 1..];
    assert xs[..i] == items[..i];
    assert xs[i..] == items[i + 1..];
    assert items == items[..i] + [items[i]] + items[i + 1..];
  }

  lemma {:induction false} FilterIsAllRec(s: seq<Item>, p: Item -> bool)
    requires forall i :: 0 <= i < |s| ==> p(s[i])
    ensures Query.Filter(s, p) == s
  {
    if s != [] {
      var init := s[..|s| - 1];
      assert forall i :: 0 <= i < |init| ==> init[i] == s[i];
      FilterIsAllRec(init, p);
      assert s == init + [s[|s| - 1]];
    }
  }

  /** Two items with the same id: delete removes both and undo brings back only one, so an item is lost. */
  lemma DeleteThenUndoDuplicate(items: seq<Item>, i: nat, j: nat)
    requires i < j < |items| && items[i].id == items[j].id
    ensures |Reinsert(RemoveId(items, items[i].id), Deleted(items[i], i))| < |items|
  {
    var p := OtherId(items[i].id);
    var before, after := items[..j], items[j + 1..];
    assert items == before + [items[j]] + after;
    Query.FilterAppend(before + [items[j]], after, p);
    Query.FilterAppend(before, [items[j]], p);
    assert Query.Filter([items[j]], p) == [] by {
      assert [items[j]][..0] == [];
    }
    assert before[i] == items[i];
    FilterKeepsAll(before, p);
  }

  // ----- Ending a session.

  /** The collection after the active session (if any) is closed at `now` on its item (if it still exists). */
  function EndedItems(items: seq<Item>, active: Option<ActiveSession>, now: int): seq<Item> {
    match active
    case None => items
    case Some(s) =>
      match FindIndex(items, s.itemId)
      case None => items
      case Some(i) => items[i := CloseSession(items[i], s.startTime, now)]
  }

  /**
   * Ending a session adds its whole-second duration to the total reading time
   * and one session record to the item, and nothing when no session is
   * active or its item is gone.
   */
  lemma EndedItemsTime(items: seq<Item>, active: Option<ActiveSession>, now: int)
    ensures |EndedItems(items, active, now)| == |items|
    ensures SumTime(EndedItems(items, active, now)) ==
      SumTime(items) + if active.Some? && HasId(items, active.value.itemId) then ElapsedSeconds(active.value.startTime, now) else 0
    ensures active.Some? && HasId(items, active.value.itemId) ==>
      var i := FindIndex(items, active.value.itemId).value;
      EndedItems(items, active, now)[i].sessions ==
        items[i].sessions + [Session(active.value.startTime, ElapsedSeconds(active.value.startTime, now), now)]
    ensures TagUniverse(EndedItems(items, active, now)) == TagUniverse(items)
  {
    if active.Some? && HasId(items, active.value.itemId) {
      var s := active.value;
      var i := FindIndex(items, s.itemId).value;
      SumTimeUpdate(items, i, CloseSession(items[i], s.startTime, now));
      var r := EndedItems(items, active, now);
      assert forall j :: 0 <= j < |items| ==> r[j].tags == items[j].tags;
      forall t | t in TagUniverse(items) ensures t in TagUniverse(r) {
        var j :| 0 <= j < |items| && t in items[j].tags;
        assert t in r[j].tags;
      }
    }
  }

  /**
   * On a clock that has not gone back since the session began, ending it
   * never lowers any item's `timeSpent`, nor the total.
   */
  lemma EndedItemsGrow(items: seq<Item>, active: Option<ActiveSession>, now: int)
    requires active.Some? ==> active.value.startTime <= now
    ensures |EndedItems(items, active, now)| == |items|
    ensures forall i :: 0 <= i < |items| ==> EndedItems(items, active, now)[i].timeSpent >= items[i].timeSpent
    ensures SumTime(EndedItems(items, active, now)) >= SumTime(items)
  {
    EndedItemsTime(items, active, now);
  }

  // ----- The tracker's state as a value.

  /** The fields of the tracker that its operations change. */
  datatype View = View(
    items: seq<Item>,
    activeReadingSession: Option<ActiveSession>,
    deletedItems: map<string, Deleted>,
    allTags: set<string>,
    currentTags: seq<string>,
    editCurrentTags: seq<string>,
    currentEditId: Option<string>,
    unreadCount: nat,
    readingCount: nat,
    completedCount: nat,
    storedItems: Option<seq<StoredItem>>)

  /** The derived fields agree with the items: the tag universe and the three status counts. */
  predicate Synced(v: View) {
    && v.allTags == TagUniverse(v.items)
    && v.unreadCount == CountStatus(v.items, Unread)
    && v.readingCount == CountStatus(v.items, Reading)
    && v.completedCount == CountStatus(v.items, Completed)
  }

  /** `items := xs` followed by `saveItems`: the stored copy, the tag universe and the counts follow the items. */
  function Saved(v: View, xs: seq<Item>): View {
    v.(items := xs, allTags := TagUniverse(xs),
       unreadCount := CountStatus(xs, Unread), readingCount := CountStatus(xs, Reading),
       completedCount := CountStatus(xs, Completed), storedItems := Some(Items.SaveItems(xs)))
  }

  /** `endReadingSession`. */
  function AfterEnd(v: View, now: int): View {
    if v.activeReadingSession.None? then v
    else Saved(v, EndedItems(v.items, v.activeReadingSession, now)).(activeReadingSession := None)
  }

  /** `startReadingSession`: ends any session, then starts one on the item if it exists. */
  function AfterStart(v: View, id: string, now: int): View {
    AfterBegin(AfterEnd(v, now), id, now)
  }

  /** The second half of `startReadingSession`, once no session is active. */
  function AfterBegin(v: View, id: string, now: int): View {
    if HasId(v.items, id)
    then Saved(v, UpdateFirst(v.items, id, Started(now))).(activeReadingSession := Some(ActiveSession(id, now)))
    else v
  }

  /** `updateProgress`. */
  function AfterProgress(v: View, id: string, progress: int, now: int): (r: View)
    ensures |r.items| == |v.items|
    ensures r.deletedItems == v.deletedItems && r.currentTags == v.currentTags && r.editCurrentTags == v.editCurrentTags
  {
    if !HasId(v.items, id) then v
    else
      var p := Clamp(progress);
      var w := v.(items := UpdateFirst(v.items, id, WithProgress(p)));
      var w2 := if p == 100 then AfterEnd(w, now) else w;
      Saved(w2, w2.items)
  }

  /** `handleAddItem`: a title that trims to nothing changes nothing. */
  function AfterAdd(v: View, title: string, url: string, priority: Priority, now: int): (r: View)
    ensures |r.items| == |v.items| + if Trim(title) == [] then 0 else 1
    ensures r.deletedItems == v.deletedItems && r.activeReadingSession == v.activeReadingSession
  {
    var t := Trim(title);
    if t == [] then v
    else
      var it := NewItem(IntToString(now), t, Trim(url), v.currentTags, now).(priority := priority);
      Saved(v, [it] + v.items).(currentTags := [])
  }

  /** `handleStatusChange`, `handlePriorityChange` and `handleEditSubmit`: a write to the first item with the id, then a save. */
  function AfterWrite(v: View, id: string, f: Item -> Item): View {
    if HasId(v.items, id) then Saved(v, UpdateFirst(v.items, id, f)) else v
  }

  /** `openEditModal(it)`: the form edits `it`, starting from its tags. */
  function AfterOpenEdit(v: View, it: Item): View {
    v.(currentEditId := Some(it.id), editCurrentTags := Tags.TagSet(it.tags))
  }

  /** `closeEditModal`: nothing is being edited and the form's tags are cleared. */
  function AfterCloseEdit(v: View): View {
    v.(currentEditId := None, editCurrentTags := [])
  }

  /**
   * `handleEditSubmit` followed by the `closeEditModal` it schedules: when the
   * item being edited still exists, its fields are written and saved and the
   * form is closed; otherwise nothing changes. No checked priority means medium.
   */
  function AfterEdit(v: View, title: string, url: string, priority: Option<Priority>, notes: string): (r: View)
    ensures |r.items| == |v.items|
    ensures r.currentEditId == None || r == v
    ensures r.deletedItems == v.deletedItems && r.activeReadingSession == v.activeReadingSession
  {
    match v.currentEditId
    case None => v
    case Some(id) =>
      if HasId(v.items, id)
      then AfterCloseEdit(AfterWrite(v, id, Edited(Trim(title), Trim(url), priority.GetOr(Medium), v.editCurrentTags, notes)))
      else v
  }

  /** `handleDeleteItem`: remembers the first item with the id and its index, then removes every item with the id. */
  function AfterDelete(v: View, id: string): (r: View)
    ensures !HasId(r.items, id)
    ensures HasId(v.items, id) ==> id in r.deletedItems && r.deletedItems[id].index < |v.items|
                                   && v.items[r.deletedItems[id].index] == r.deletedItems[id].item
    ensures r.activeReadingSession == v.activeReadingSession
  {
    match FindIndex(v.items, id)
    case None => v
    case Some(i) => Saved(v.(deletedItems := v.deletedItems[id := Deleted(v.items[i], i)]), RemoveId(v.items, id))
  }

  /** `handleUndo`. */
  function AfterUndo(v: View, id: string): (r: View)
    ensures id !in r.deletedItems
    ensures |r.items| == |v.items| + if id in v.deletedItems then 1 else 0
  {
    if id in v.deletedItems
    then Saved(v.(deletedItems := v.deletedItems - {id}), Reinsert(v.items, v.deletedItems[id]))
    else v
  }

  /** The undo timer firing: the undo entry is dropped. */
  function AfterExpire(v: View, id: string): View {
    v.(deletedItems := v.deletedItems - {id})
  }

  // ----- Properties of the operations.

  /** After ending, no session is active, and ending again changes nothing. */
  lemma EndIdempotent(v: View, now: int, later: int)
    ensures AfterEnd(v, now).activeReadingSession == None
    ensures AfterEnd(AfterEnd(v, now), later) == AfterEnd(v, now)
    ensures v.activeReadingSession.Some? ==> Synced(AfterEnd(v, now))
  {
  }

  /**
   * Starting a session on an existing item makes it the active session, marks
   * the item as read now and as no longer unread; on a missing item the
   * previous session is still ended and none is active.
   */
  lemma StartSession(v: View, id: string, now: int)
    ensures var r := AfterStart(v, id, now);
      HasId(v.items, id) ==>
        var i := FindIndex(v.items, id).value;
        && r.activeReadingSession == Some(ActiveSession(id, now))
        && r.items[i].lastRead == Some(now)
        && r.items[i].status != Unread
        && (v.items[i].status != Unread ==> r.items[i].status == v.items[i].status)
    ensures !HasId(v.items, id) ==> AfterStart(v, id, now).activeReadingSession == None
    ensures |AfterStart(v, id, now).items| == |v.items|
  {
    var w := AfterEnd(v, now);
    EndedItemsTime(v.items, v.activeReadingSession, now);
    EndedItemsKeepIds(v.items, v.activeReadingSession, now, id);
    if HasId(v.items, id) {
      var i := FindIndex(v.items, id).value;
      assert FindIndex(w.items, id) == Some(i);
      if v.activeReadingSession.Some? && HasId(v.items, v.activeReadingSession.value.itemId) {
        var k := FindIndex(v.items, v.activeReadingSession.value.itemId).value;
        assert w.items[i].status == v.items[i].status by {
          if k != i {
            assert w.items[i] == v.items[i];
          }
        }
      }
    }
  }

  lemma EndedItemsKeepIds(items: seq<Item>, active: Option<ActiveSession>, now: int, x: string)
    ensures FindIndex(EndedItems(items, active, now), x) == FindIndex(items, x)
  {
    if active.Some? && HasId(items, active.value.itemId) {
      var s := active.value;
      var i := FindIndex(items, s.itemId).value;
      var f := (it: Item) => CloseSession(it, s.startTime, now);
      assert EndedItems(items, active, now) == UpdateFirst(items, s.itemId, f);
      UpdateFirstKeepsIds(items, s.itemId, f, x);
    }
  }

  /**
   * After `updateProgress` on an existing item its progress is the clamped
   * value; reaching 100 completes it and ends any active session, and a
   * lower value leaves its status alone.
   */
  lemma ProgressEffect(v: View, id: string, progress: int, now: int)
    requires HasId(v.items, id)
    ensures var r := AfterProgress(v, id, progress, now);
      var i := FindIndex(v.items, id).value;
      && |r.items| == |v.items|
      && r.items[i].progress == Clamp(progress)
      && (Clamp(progress) == 100 ==> r.items[i].status == Completed && r.activeReadingSession == None)
      && (Clamp(progress) < 100 ==> r.items[i].status == v.items[i].status && r.activeReadingSession == v.activeReadingSession)
      && Synced(r)
  {
    var p := Clamp(progress);
    var i := FindIndex(v.items, id).value;
    var w := v.(items := UpdateFirst(v.items, id, WithProgress(p)));
    EndedItemsTime(w.items, w.activeReadingSession, now);
    if p == 100 && w.activeReadingSession.Some? && HasId(w.items, w.activeReadingSession.value.itemId) {
      var s := w.activeReadingSession.value;
      var k := FindIndex(w.items, s.itemId).value;
      var e := EndedItems(w.items, w.activeReadingSession, now);
      if k == i {
        assert e[i] == CloseSession(w.items[i], s.startTime, now);
      } else {
        assert e[i] == w.items[i];
      }
    }
  }

  /** Adding puts the new unread item first, keeps the others behind it, and clears the form's tags. */
  lemma AddEffect(v: View, title: string, url: string, priority: Priority, now: int)
    ensures Trim(title) == [] ==> AfterAdd(v, title, url, priority, now) == v
    ensures Trim(title) != [] ==>
      var r := AfterAdd(v, title, url, priority, now);
      && |r.items| == |v.items| + 1
      && r.items[1..] == v.items
      && r.items[0].title == Trim(title) && r.items[0].tags == v.currentTags
      && r.items[0].status == Unread && r.items[0].priority == priority
      && r.items[0].id == IntToString(now) && r.items[0].dateAdded == now
      && r.unreadCount == CountStatus(v.items, Unread) + 1
      && r.currentTags == []
  {
    if Trim(title) != [] {
      var r := AfterAdd(v, title, url, priority, now);
      CountStatusPrepend(r.items[0], v.items, Unread);
      assert [r.items[0]] + v.items == r.items;
    }
  }

  lemma {:induction false} CountStatusPrepend(it: Item, items: seq<Item>, s: Status)
    ensures CountStatus([it] + items, s) == CountStatus(items, s) + if it.status == s then 1 else 0
  {
    if items == [] {
      assert [it] + items == [it];
      assert [it][..0] == [];
    } else {
      var init := items[..|items| - 1];
      CountStatusPrepend(it, init, s);
      assert ([it] + items)[..|[it] + items| - 1] == [it] + init;
    }
  }

  /** Deleting an item whose id is unique and undoing it restores the collection and drops the undo entry. */
  lemma DeleteUndoRoundTrip(v: View, i: nat)
    requires i < |v.items|
    requires forall j :: 0 <= j < |v.items| && j != i ==> v.items[j].id != v.items[i].id
    ensures var id := v.items[i].id;
      var r := AfterUndo(AfterDelete(v, id), id);
      && r.items == v.items
      && r.deletedItems == v.deletedItems - {id}
      && Synced(r)
  {
    var id := v.items[i].id;
    var d := Deleted(v.items[i], i);
    FindUnique(v.items, i);
    var w := AfterDelete(v, id);
    assert w.items == RemoveId(v.items, id) && w.deletedItems == v.deletedItems[id := d];
    DeleteThenUndo(v.items, i);
    DropOverwritten(v.deletedItems, id, d);
  }

  lemma DropOverwritten<K, V>(m: map<K, V>, k: K, x: V)
    ensures m[k := x] - {k} == m - {k}
  {
  }

  /** The only item with its id is the one found. */
  lemma FindUnique(items: seq<Item>, i: nat)
    requires i < |items|
    requires forall j :: 0 <= j < |items| && j != i ==> items[j].id != items[i].id
    ensures FindIndex(items, items[i].id) == Some(i)
  {
  }

  /**
   * Opening the edit form on an item and submitting it without touching its
   * tags keeps the item's tags (when they hold no repeats, as every list the
   * forms build does); the other fields take the form's values, and the form
   * is closed afterwards.
   */
  lemma EditKeepsUntouchedTags(v: View, i: nat, title: string, url: string, priority: Option<Priority>, notes: string)
    requires i < |v.items| && FindIndex(v.items, v.items[i].id) == Some(i)
    requires Tags.NoRepeats(v.items[i].tags)
    ensures var r := AfterEdit(AfterOpenEdit(v, v.items[i]), title, url, priority, notes);
      && |r.items| == |v.items|
      && r.items[i] == v.items[i].(title := Trim(title), url := Trim(url), priority := priority.GetOr(Medium), notes := notes)
      && (forall j :: 0 <= j < |v.items| && j != i ==> r.items[j] == v.items[j])
      && r.currentEditId == None && r.editCurrentTags == []
  {
    var w := AfterOpenEdit(v, v.items[i]);
    assert w.editCurrentTags == v.items[i].tags;
    assert HasId(w.items, v.items[i].id);
  }

  /** Once the undo entry has expired, undo changes nothing. */
  lemma ExpiredUndoIsNoOp(v: View, id: string)
    ensures AfterUndo(AfterExpire(v, id), id) == AfterExpire(v, id)
    ensures id !in AfterExpire(v, id).deletedItems
  {
  }

  /** A status or priority change keeps every lookup by id and the tag universe. */
  lemma WriteKeepsIdsAndTags(v: View, id: string, status: Status, priority: Priority, x: string)
    ensures FindIndex(AfterWrite(v, id, WithStatus(status)).items, x) == FindIndex(v.items, x)
    ensures FindIndex(AfterWrite(v, id, WithPriority(priority)).items, x) == FindIndex(v.items, x)
    ensures AfterWrite(v, id, WithStatus(status)).allTags == (if HasId(v.items, id) then TagUniverse(v.items) else v.allTags)
  {
    UpdateFirstKeepsIds(v.items, id, WithStatus(status), x);
    UpdateFirstKeepsIds(v.items, id, WithPriority(priority), x);
    UpdateFirstKeepsTags(v.items, id, WithStatus(status));
  }

  /** `updateAllTags`' two loops add up to the tag universe of the prefix. */
  lemma TagUniverseSnoc(items: seq<Item>, i: nat)
    requires i < |items|
    ensures TagUniverse(items[..i + 1]) == TagUniverse(items[..i]) + set t | t in items[i].tags
  {
    var pre := items[..i + 1];
    forall t | t in TagUniverse(pre) ensures t in TagUniverse(items[..i]) || t in items[i].tags {
      var j :| 0 <= j < |pre| && t in pre[j].tags;
      if j < i {
        assert items[..i][j] == pre[j];
      }
    }
    forall t | t in TagUniverse(items[..i]) ensures t in TagUniverse(pre) {
      var j :| 0 <= j < i && t in items[..i][j].tags;
      assert pre[j] == items[..i][j];
    }
    assert pre[i] == items[i];
  }

  /** The reading tracker. */
  class ReadingTracker {
    var items: seq<Item>
    var activeReadingSession: Option<ActiveSession>
    var deletedItems: map<string, Deleted>
    var allTags: set<string>
    /** The tags entered in the add form, in entry order. */
    var currentTags: seq<string>
    /** The tags entered in the edit form, in entry order. */
    var editCurrentTags: seq<string>
    /** The id of the item open in the edit form, if any. */
    var currentEditId: Option<string>
    /** The three status counts shown on screen. */
    var unreadCount: nat
    var readingCount: nat
    var completedCount: nat
    /** The `readingItems` entry of local storage. */
    var storedItems: Option<seq<StoredItem>>
    const achievementManager: AchievementManager
    /** The user's calendar, for the statistics. */
    const calendar: Calendar
    /** `localeCompare` on titles, as a "may precede" relation. */
    const collation: (string, string) -> bool

    function Fields(): View
      reads this
    {
      View(items, activeReadingSession, deletedItems, allTags, currentTags, editCurrentTags, currentEditId,
           unreadCount, readingCount, completedCount, storedItems)
    }

    /** What holds between any two writes: the achievement state and the form tag lists. */
    ghost predicate Ready()
      reads this, achievementManager
    {
      && achievementManager.Valid()
      && Tags.WellFormedTags(currentTags)
      && Tags.NoRepeats(editCurrentTags)
    }

    /** What holds after every operation: also the derived fields agree with the items. */
    ghost predicate Valid()
      reads this, achievementManager
    {
      Ready() && Synced(Fields())
    }

    /** `new ReadingTracker`: the achievement manager and the saved items, as stored. */
    constructor(stored: Option<seq<StoredItem>>, storedProgress: Option<SavedProgress>, calendar: Calendar, collation: (string, string) -> bool)
      ensures Valid()
      ensures fresh(achievementManager)
      ensures Fields() == View(LoadItems(stored), None, map[], TagUniverse(LoadItems(stored)), [], [], None,
                               CountStatus(LoadItems(stored), Unread), CountStatus(LoadItems(stored), Reading),
                               CountStatus(LoadItems(stored), Completed), stored)
      ensures achievementManager.State() == ManagerState(LoadedAchievements(storedProgress), LoadedProgress(storedProgress), storedProgress)
    {
      this.calendar := calendar;
      this.collation := collation;
      achievementManager := new AchievementManager(storedProgress);
      items := LoadItems(stored);
      activeReadingSession := None;
      deletedItems := map[];
      allTags := {};
      currentTags := [];
      editCurrentTags := [];
      currentEditId := None;
      unreadCount, readingCount, completedCount := 0, 0, 0;
      storedItems := stored;
      new;
      UpdateAllTags();
      UpdateStatusCounts();
    }

    /** `updateAllTags`: every tag of every item, collected item by item. */
    method UpdateAllTags()
      modifies this
      ensures Fields() == old(Fields()).(allTags := TagUniverse(items))
    {
      var xs := items;
      var tags: set<string> := {};
      for i := 0 to |xs|
        invariant unchanged(this)
        invariant tags == TagUniverse(xs[..i])
      {
        var itemTags := xs[i].tags;
        for j := 0 to |itemTags|
          invariant unchanged(this)
          invariant tags == TagUniverse(xs[..i]) + set t | t in itemTags[..j]
        {
          assert itemTags[..j + 1] == itemTags[..j] + [itemTags[j]];
          tags := tags + {itemTags[j]};
        }
        assert itemTags[..|itemTags|] == itemTags;
        TagUniverseSnoc(xs, i);
      }
      assert xs[..|xs|] == xs;
      allTags := tags;
    }

    /** `updateStatusCounts`. */
    method UpdateStatusCounts()
      modifies this
      ensures Fields() == old(Fields()).(unreadCount := CountStatus(items, Unread),
                                         readingCount := CountStatus(items, Reading),
                                         completedCount := CountStatus(items, Completed))
    {
      unreadCount, readingCount, completedCount := StatusCounts(items);
    }

    /** `saveItems`: writes the items to storage and refreshes the tag universe and the counts. */
    method SaveItems()
      modifies this
      ensures Fields() == Saved(old(Fields()), old(items))
    {
      storedItems := Some(Items.SaveItems(items));
      UpdateAllTags();
      UpdateStatusCounts();
    }

    /** `addTag`: the add form's tag list. */
    method AddTag(tagName: string)
      requires Valid()
      modifies this
      ensures Valid()
      ensures Fields() == old(Fields()).(currentTags := Tags.AddTag(old(currentTags), tagName))
    {
      currentTags := Tags.AddTag(currentTags, tagName);
    }

    /** `addEditTag`: the edit form's tag list. */
    method AddEditTag(tagName: string)
      requires Valid()
      modifies this
      ensures Valid()
      ensures Fields() == old(Fields()).(editCurrentTags := Tags.AddTag(old(editCurrentTags), tagName))
    {
      editCurrentTags := Tags.AddTag(editCurrentTags, tagName);
    }

    /** The remove button of a tag in the add form's preview. */
    method RemoveTag(tag: string)
      requires Valid()
      modifies this
      ensures Valid()
      ensures Fields() == old(Fields()).(currentTags := Tags.RemoveTag(old(currentTags), tag))
    {
      currentTags := Tags.RemoveTag(currentTags, tag);
    }

    /** The remove button of a tag in the edit form's preview. */
    method RemoveEditTag(tag: string)
      requires Valid()
      modifies this
      ensures Valid()
      ensures Fields() == old(Fields()).(editCurrentTags := Tags.RemoveTag(old(editCurrentTags), tag))
    {
      editCurrentTags := Tags.RemoveTag(editCurrentTags, tag);
    }

    /** `handleAddItem`, at time `now`: the new item goes first, then a save and an achievement check. */
    method AddItem(title: string, url: string, priority: Priority, now: int)
      requires Valid()
      modifies this, achievementManager
      ensures Valid()
      ensures Fields() == AfterAdd(old(Fields()), title, url, priority, now)
      ensures achievementManager.State() ==
        if Trim(title) == [] then old(achievementManager.State())
        else AfterCheck(old(achievementManager.State()), StatsOf(items, now, calendar), now)
    {
      var t := Trim(title);
      var u := Trim(url);
      if t != [] {
        AddTrimmed(t, u, priority, now);
      }
    }

    /** `handleAddItem` once the title is known not to be blank. */
    method AddTrimmed(t: string, u: string, priority: Priority, now: int)
      requires Valid()
      modifies this, achievementManager
      ensures Valid()
      ensures Fields() == Saved(old(Fields()), [NewItem(IntToString(now), t, u, old(currentTags), now).(priority := priority)] + old(items)).(currentTags := [])
      ensures achievementManager.State() == AfterCheck(old(achievementManager.State()), StatsOf(items, now, calendar), now)
    {
      var tags := currentTags;
      var newItem := NewItem(IntToString(now), t, u, tags, now).(priority := priority);
      Unshift(newItem);
      achievementManager.CheckAchievements(items, now, calendar);
      ClearTags();
    }

    /** `this.currentTags.clear()`. */
    method ClearTags()
      requires Valid()
      modifies this
      ensures Valid()
      ensures Fields() == old(Fields()).(currentTags := [])
    {
      currentTags := [];
    }

    /** `items.unshift(item)` followed by `saveItems`. */
    method Unshift(item: Item)
      requires Valid()
      modifies this
      ensures Valid()
      ensures Fields() == Saved(old(Fields()), [item] + old(items))
    {
      items := [item] + items;
      SaveItems();
    }

    /** `handleStatusChange`. */
    method ChangeStatus(id: string, newStatus: Status)
      requires Valid()
      modifies this
      ensures Valid()
      ensures Fields() == AfterWrite(old(Fields()), id, WithStatus(newStatus))
    {
      var idx := FindIndex(items, id);
      if idx.Some? {
        var i := idx.value;
        items := items[i := items[i].(status := newStatus)];
        SaveItems();
      }
    }

    /** `handlePriorityChange`. */
    method ChangePriority(id: string, newPriority: Priority)
      requires Valid()
      modifies this
      ensures Valid()
      ensures Fields() == AfterWrite(old(Fields()), id, WithPriority(newPriority))
    {
      var idx := FindIndex(items, id);
      if idx.Some? {
        var i := idx.value;
        items := items[i := items[i].(priority := newPriority)];
        SaveItems();
      }
    }

    /** `openEditModal`: the edit form opens on `it`, with the item's tags. */
    method OpenEditModal(it: Item)
      requires Valid()
      modifies this
      ensures Valid()
      ensures Fields() == AfterOpenEdit(old(Fields()), it)
    {
      currentEditId := Some(it.id);
      editCurrentTags := Tags.TagSet(it.tags);
    }

    /** `closeEditModal`. */
    method CloseEditModal()
      requires Valid()
      modifies this
      ensures Valid()
      ensures Fields() == AfterCloseEdit(old(Fields()))
    {
      currentEditId := None;
      editCurrentTags := [];
    }

    /** `handleEditSubmit` on the item being edited, then the form closes. */
    method EditSubmit(title: string, url: string, priority: Option<Priority>, notes: string)
      requires Valid()
      modifies this
      ensures Valid()
      ensures Fields() == AfterEdit(old(Fields()), title, url, priority, notes)
    {
      if currentEditId.None? {
        return;
      }
      var idx := FindIndex(items, currentEditId.value);
      if idx.Some? {
        WriteEdit(idx.value, title, url, priority, notes);
        CloseEditModal();
      }
    }

    /** The field writes of `handleEditSubmit` on the item at `i`, then a save. */
    method WriteEdit(i: nat, title: string, url: string, priority: Option<Priority>, notes: string)
      requires Valid() && currentEditId.Some? && FindIndex(items, currentEditId.value) == Some(i)
      modifies this
      ensures Valid()
      ensures Fields() == AfterWrite(old(Fields()), old(currentEditId).value,
                                     Edited(Trim(title), Trim(url), priority.GetOr(Medium), old(editCurrentTags), notes))
    {
      var newTitle := Trim(title);
      var newUrl := Trim(url);
      var newPriority := priority.GetOr(Medium);
      items := items[i := items[i].(title := newTitle, url := newUrl, priority := newPriority,
                                    tags := editCurrentTags, notes := notes)];
      SaveItems();
    }

    /** `endReadingSession`, at time `now`. */
    method EndReadingSession(now: int)
      requires Ready()
      modifies this, achievementManager
      ensures Ready()
      ensures old(Synced(Fields())) || old(activeReadingSession).Some? ==> Synced(Fields())
      ensures Fields() == AfterEnd(old(Fields()), now)
      ensures achievementManager.State() ==
        if old(activeReadingSession).None? then old(achievementManager.State())
        else AfterCheck(old(achievementManager.State()), StatsOf(items, now, calendar), now)
    {
      if activeReadingSession.Some? {
        var session := activeReadingSession.value;
        var idx := FindIndex(items, session.itemId);
        if idx.Some? {
          var i := idx.value;
          items := items[i := CloseSession(items[i], session.startTime, now)];
        }
        activeReadingSession := None;
        SaveItems();
        achievementManager.CheckAchievements(items, now, calendar);
      }
    }

    /** `startReadingSession`, at time `now`. */
    method StartReadingSession(itemId: string, now: int)
      requires Valid()
      modifies this, achievementManager
      ensures Valid()
      ensures Fields() == AfterStart(old(Fields()), itemId, now)
      ensures achievementManager.State() ==
        if old(activeReadingSession).None? then old(achievementManager.State())
        else AfterCheck(old(achievementManager.State()),
                        StatsOf(EndedItems(old(items), old(activeReadingSession), now), now, calendar), now)
    {
      EndReadingSession(now);
      BeginSession(itemId, now);
    }

    /** The second half of `startReadingSession`: the item, if it exists, is being read from now on. */
    method BeginSession(itemId: string, now: int)
      requires Valid()
      modifies this
      ensures Valid()
      ensures Fields() == AfterBegin(old(Fields()), itemId, now)
    {
      var idx := FindIndex(items, itemId);
      if idx.Some? {
        var i := idx.value;
        activeReadingSession := Some(ActiveSession(itemId, now));
        var item := items[i];
        if item.status == Unread {
          item := item.(status := Reading);
        }
        items := items[i := item.(lastRead := Some(now))];
        SaveItems();
      }
    }

    /** `updateProgress`, at time `now`. */
    method UpdateProgress(itemId: string, progress: int, now: int)
      requires Valid()
      modifies this, achievementManager
      ensures Valid()
      ensures Fields() == AfterProgress(old(Fields()), itemId, progress, now)
      ensures achievementManager.State() ==
        if HasId(old(items), itemId) then AfterCheck(old(achievementManager.State()), StatsOf(items, now, calendar), now)
        else old(achievementManager.State())
    {
      var idx := FindIndex(items, itemId);
      if idx.Some? {
        ghost var v0 := Fields();
        var i := idx.value;
        var p := Clamp(progress);
        items := items[i := items[i].(progress := p)];
        if p == 100 {
          items := items[i := items[i].(status := Completed)];
        }
        ghost var w := Fields();
        assert w == v0.(items := UpdateFirst(v0.items, itemId, WithProgress(p)));
        if p == 100 {
          EndReadingSession(now);
        }
        ghost var w2 := Fields();
        assert w2 == if p == 100 then AfterEnd(w, now) else w;
        SaveItems();
        assert Fields() == Saved(w2, w2.items);
        AfterCheckIdempotent(old(achievementManager.State()), StatsOf(items, now, calendar), now);
        achievementManager.CheckAchievements(items, now, calendar);
      }
    }

    /** `handleDeleteItem` and the removal that follows it. */
    method DeleteItem(id: string)
      requires Valid()
      modifies this
      ensures Valid()
      ensures Fields() == AfterDelete(old(Fields()), id)
    {
      var idx := FindIndex(items, id);
      if idx.Some? {
        var itemIndex := idx.value;
        deletedItems := deletedItems[id := Deleted(items[itemIndex], itemIndex)];
        items := RemoveId(items, id);
        SaveItems();
      }
    }

    /** `handleUndo`. */
    method Undo(itemId: string)
      requires Valid()
      modifies this
      ensures Valid()
      ensures Fields() == AfterUndo(old(Fields()), itemId)
    {
      if itemId in deletedItems {
        var deletedItem := deletedItems[itemId];
        items := Reinsert(items, deletedItem);
        deletedItems := deletedItems - {itemId};
        SaveItems();
      }
    }

    /** The undo timer of `showUndoToast` firing. */
    method ExpireUndo(itemId: string)
      requires Valid()
      modifies this
      ensures Valid()
      ensures Fields() == AfterExpire(old(Fields()), itemId)
    {
      deletedItems := deletedItems - {itemId};
    }

    /** `getFilteredItems`: the filter chain, copied into an array and sorted in place. */
    method GetFilteredItems(spec: Query.QuerySpec) returns (r: seq<Item>)
      ensures r == Query.FilteredItems(items, spec, collation)
    {
      var kept := Query.FilterChain(items, spec);
      var a := new Item[|kept|](i requires 0 <= i < |kept| => kept[i]);
      assert a[..] == kept;
      Sorting.SortInPlace(a, Query.Precedes(Query.SortModeOf(spec.sortBy), collation));
      r := a[..];
    }
  }
}
