/**
 * The reading item record, its defaults, lookups by id, the per-item effect
 * of a finished reading session, the persisted form of the collection and the
 * collection-wide counts (status counts, total time, tag universe).
 */
module Items {
  import opened Wrappers

  datatype Status = Unread | Reading | Completed
  datatype Priority = Low | Medium | High

  /** One finished reading session; times in milliseconds, `duration` in whole seconds. */
  datatype Session = Session(startTime: int, duration: int, endTime: int)

  /** A reading item; `dateAdded` and `lastRead` are timestamps in milliseconds, `timeSpent` is seconds. */
  datatype Item = Item(
    id: string,
    title: string,
    url: string,
    tags: seq<string>,
    status: Status,
    dateAdded: int,
    progress: int,
    timeSpent: int,
    lastRead: Option<int>,
    sessions: seq<Session>,
    priority: Priority,
    notes: string)

  /** The `ReadingItem` constructor: unread, no progress, no time, no sessions, medium priority, no notes. */
  function NewItem(id: string, title: string, url: string, tags: seq<string>, now: int): (r: Item)
    ensures r.id == id && r.title == title && r.url == url && r.tags == tags && r.dateAdded == now
    ensures r.status == Unread && r.progress == 0 && r.timeSpent == 0 && r.lastRead == None && r.sessions == []
    ensures r.priority == Medium && r.notes == ""
  {
    Item(id, title, url, tags, Unread, now, 0, 0, None, [], Medium, "")
  }

  predicate HasId(items: seq<Item>, id: string) {
    exists i :: 0 <= i < |items| && items[i].id == id
  }

  /** `items.findIndex(i => i.id === id)`, with `None` for -1. */
  function FindIndex(items: seq<Item>, id: string): (r: Option<nat>)
    ensures r.Some? ==> r.value < |items| && items[r.value].id == id
    ensures r.Some? ==> forall j :: 0 <= j < r.value ==> items[j].id != id
    ensures r.None? <==> !HasId(items, id)
  {
    if |items| == 0 then None
    else if items[0].id == id then Some(0)
    else
      match FindIndex(items[1..], id)
      case None => None
      case Some(k) => Some(k + 1)
  }

  /** Lookup by id only sees the ids, so two collections with the same ids, position by position, agree on it. */
  lemma {:induction false} FindIndexSameIds(a: seq<Item>, b: seq<Item>, x: string)
    requires |a| == |b| && forall j :: 0 <= j < |a| ==> a[j].id == b[j].id
    ensures FindIndex(a, x) == FindIndex(b, x)
  {
    if |a| > 0 && a[0].id != x {
      assert forall j :: 0 <= j < |a| - 1 ==> a[1..][j].id == b[1..][j].id by {
        forall j | 0 <= j < |a| - 1 ensures a[1..][j].id == b[1..][j].id {
          assert a[1..][j] == a[j + 1] && b[1..][j] == b[j + 1];
        }
      }
      FindIndexSameIds(a[1..], b[1..], x);
    }
  }

  /** Whole seconds between two millisecond timestamps, rounded down (`Math.floor(ms / 1000)`). */
  function ElapsedSeconds(start: int, now: int): (d: int)
    ensures d * 1000 <= now - start < d * 1000 + 1000
    ensures start <= now ==> d >= 0
  {
    (now - start) / 1000
  }

  /** The item after a session begun at `start` ends at `now`: the duration is added and recorded. */
  function CloseSession(it: Item, start: int, now: int): (r: Item)
    ensures r.timeSpent == it.timeSpent + ElapsedSeconds(start, now)
    ensures r.sessions == it.sessions + [Session(start, ElapsedSeconds(start, now), now)]
    ensures r == it.(timeSpent := r.timeSpent, sessions := r.sessions)
  {
    var d := ElapsedSeconds(start, now);
    it.(timeSpent := it.timeSpent + d, sessions := it.sessions + [Session(start, d, now)])
  }

  /** The number of items whose status is `s`. */
  function CountStatus(items: seq<Item>, s: Status): nat {
    if items == [] then 0
    else CountStatus(items[..|items| - 1], s) + (if items[|items| - 1].status == s then 1 else 0)
  }

  /** The three status counts together account for every item. */
  lemma {:induction false} StatusCountsCover(items: seq<Item>)
    ensures CountStatus(items, Unread) + CountStatus(items, Reading) + CountStatus(items, Completed) == |items|
  {
    if items != [] {
      StatusCountsCover(items[..|items| - 1]);
    }
  }

  /** `updateStatusCounts`: one pass that counts the items of each status. */
  method StatusCounts(items: seq<Item>) returns (unread: nat, reading: nat, completed: nat)
    ensures unread == CountStatus(items, Unread)
    ensures reading == CountStatus(items, Reading)
    ensures completed == CountStatus(items, Completed)
    ensures unread + reading + completed == |items|
  {
    unread, reading, completed := 0, 0, 0;
    for i := 0 to |items|
      invariant unread == CountStatus(items[..i], Unread)
      invariant reading == CountStatus(items[..i], Reading)
      invariant completed == CountStatus(items[..i], Completed)
    {
      assert items[..i + 1][..i] == items[..i];
      match items[i].status
      case Unread => unread := unread + 1;
      case Reading => reading := reading + 1;
      case Completed => completed := completed + 1;
    }
    assert items[..|items|] == items;
    StatusCountsCover(items);
  }

  /** `items.reduce((total, item) => total + (item.timeSpent || 0), 0)`. */
  function SumTime(items: seq<Item>): int {
    if items == [] then 0 else SumTime(items[..|items| - 1]) + items[|items| - 1].timeSpent
  }

  lemma {:induction false} SumTimeAppend(a: seq<Item>, b: seq<Item>)
    ensures SumTime(a + b) == SumTime(a) + SumTime(b)
  {
    if b != [] {
      assert (a + b)[..|a + b| - 1] == a + b[..|b| - 1];
      SumTimeAppend(a, b[..|b| - 1]);
    } else {
      assert a + b == a;
    }
  }

  /** Replacing one item changes the total time by exactly the change of that item's time. */
  lemma SumTimeUpdate(items: seq<Item>, i: nat, it: Item)
    requires i < |items|
    ensures SumTime(items[i := it]) == SumTime(items) - items[i].timeSpent + it.timeSpent
  {
    assert items == items[..i] + [items[i]] + items[i + 1..];
    assert items[i := it] == items[..i] + [it] + items[i + 1..];
    SumTimeAppend(items[..i] + [items[i]], items[i + 1..]);
    SumTimeAppend(items[..i] + [it], items[i + 1..]);
    SumTimeAppend(items[..i], [items[i]]);
    SumTimeAppend(items[..i], [it]);
    assert SumTime([items[i]]) == items[i].timeSpent by { assert [items[i]][..0] == []; }
    assert SumTime([it]) == it.timeSpent by { assert [it][..0] == []; }
  }

  /** Every tag carried by some item: the `allTags` set, whose size is the `uniqueTags` statistic. */
  function TagUniverse(items: seq<Item>): set<string> {
    set i, t | 0 <= i < |items| && t in items[i].tags :: t
  }

  /** The persisted form of an item: the loader checks that `tags` holds an array, so it is kept apart. */
  datatype StoredItem = StoredItem(fields: Item, tags: Option<seq<string>>)

  /** The array written under `readingItems`. */
  function SaveItems(items: seq<Item>): (r: seq<StoredItem>)
    ensures |r| == |items|
    ensures forall i :: 0 <= i < |items| ==> r[i].tags == Some(items[i].tags)
  {
    seq(|items|, i requires 0 <= i < |items| => StoredItem(items[i], Some(items[i].tags)))
  }

  /** `loadItems`: a missing or unreadable blob gives no items; an item without a tag array gets `[]`. */
  function LoadItems(blob: Option<seq<StoredItem>>): (r: seq<Item>)
    ensures blob.None? ==> r == []
    ensures blob.Some? ==> |r| == |blob.value|
    ensures blob.Some? ==> forall i :: 0 <= i < |r| ==>
              r[i] == blob.value[i].fields.(tags := blob.value[i].tags.GetOr([]))
  {
    match blob
    case None => []
    case Some(stored) =>
      seq(|stored|, i requires 0 <= i < |stored| => stored[i].fields.(tags := stored[i].tags.GetOr([])))
  }

  /** Saving then loading the collection gives it back unchanged. */
  lemma SaveLoadRoundTrip(items: seq<Item>)
    ensures LoadItems(Some(SaveItems(items))) == items
  {
    var r := LoadItems(Some(SaveItems(items)));
    assert forall i :: 0 <= i < |items| ==> r[i] == items[i];
  }
}
