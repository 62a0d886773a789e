/**
 * The query engine behind `getFilteredItems`: six filters applied in a fixed
 * order to the item collection, then a stable sort by the selected key.
 */
module Query {
  import opened Wrappers
  import opened Text
  import opened Items
  import Sorting

  /** The status buttons: every item, or only the items of one status. */
  datatype StatusFilter = AllStatuses | OnlyStatus(status: Status)

  /** The tag-matching radio: `'any'`, or anything else, which the code treats as "all". */
  datatype TagsMode = AnyTag | EveryTag

  /** The filter and sort state of the tracker; dates are millisecond timestamps. */
  datatype QuerySpec = QuerySpec(
    status: StatusFilter,
    priorities: set<Priority>,
    minProgress: int,
    maxProgress: int,
    dateFrom: Option<int>,
    dateTo: Option<int>,
    tags: set<string>,
    tagsMode: TagsMode,
    query: string,
    sortBy: string)

  datatype SortMode =
    | DateAddedDesc | DateAddedAsc
    | PriorityDesc | PriorityAsc
    | ProgressDesc | ProgressAsc
    | TimeSpentDesc | TimeSpentAsc
    | TitleAsc | TitleDesc
    | Unsorted

  /** The values of the sort select; any other value falls to the comparator's `default` (no order). */
  function SortModeOf(name: string): (r: SortMode)
    ensures r == Unsorted <==> name !in {"date-added-desc", "date-added-asc", "priority-desc", "priority-asc",
                                         "progress-desc", "progress-asc", "time-spent-desc", "time-spent-asc",
                                         "title-asc", "title-desc"}
  {
    if name == "date-added-desc" then DateAddedDesc
    else if name == "date-added-asc" then DateAddedAsc
    else if name == "priority-desc" then PriorityDesc
    else if name == "priority-asc" then PriorityAsc
    else if name == "progress-desc" then ProgressDesc
    else if name == "progress-asc" then ProgressAsc
    else if name == "time-spent-desc" then TimeSpentDesc
    else if name == "time-spent-asc" then TimeSpentAsc
    else if name == "title-asc" then TitleAsc
    else if name == "title-desc" then TitleDesc
    else Unsorted
  }

  /** The rank table of `priority-desc`. */
  function RankDesc(p: Priority): int {
    match p
    case High => 2
    case Medium => 1
    case Low => 0
  }

  /** The rank table of `priority-asc`, written out separately in the source. */
  function RankAsc(p: Priority): int {
    match p
    case Low => 2
    case Medium => 1
    case High => 0
  }

  /**
   * `a` may precede `b`: the comparator `(a, b) => …` of the sort returns at
   * most 0. `titleLe(x, y)` stands for `x.localeCompare(y) <= 0`.
   */
  function Precedes(mode: SortMode, titleLe: (string, string) -> bool): (le: (Item, Item) -> bool)
    ensures mode == Unsorted ==> forall a, b :: le(a, b)
    ensures !IsTitleMode(mode) ==> forall a, b :: le(a, b) || le(b, a)
  {
    (a: Item, b: Item) =>
      match mode
      case DateAddedDesc => b.dateAdded - a.dateAdded <= 0
      case DateAddedAsc => a.dateAdded - b.dateAdded <= 0
      case PriorityDesc => RankDesc(b.priority) - RankDesc(a.priority) <= 0
      case PriorityAsc => RankAsc(b.priority) - RankAsc(a.priority) <= 0
      case ProgressDesc => b.progress - a.progress <= 0
      case ProgressAsc => a.progress - b.progress <= 0
      case TimeSpentDesc => b.timeSpent - a.timeSpent <= 0
      case TimeSpentAsc => a.timeSpent - b.timeSpent <= 0
      case TitleAsc => titleLe(a.title, b.title)
      case TitleDesc => titleLe(b.title, a.title)
      case Unsorted => true
  }

  predicate IsTitleMode(mode: SortMode) {
    mode == TitleAsc || mode == TitleDesc
  }

  /** `array.filter(p)`. */
  function Filter(s: seq<Item>, p: Item -> bool): (r: seq<Item>)
    ensures |r| <= |s|
  {
    if s == [] then []
    else
      assert s == s[..|s| - 1] + [s[|s| - 1]];
      Filter(s[..|s| - 1], p) + (if p(s[|s| - 1]) then [s[|s| - 1]] else [])
  }

  /** `filter` keeps every copy of an element that passes and none of one that fails. */
  lemma {:induction false} FilterCount(s: seq<Item>, p: Item -> bool, x: Item)
    ensures multiset(Filter(s, p))[x] == if p(x) then multiset(s)[x] else 0
  {
    if s != [] {
      FilterCount(s[..|s| - 1], p, x);
      assert s == s[..|s| - 1] + [s[|s| - 1]];
    }
  }

  /** `filter` keeps exactly the elements that pass, and nothing new. */
  lemma FilterMembers(s: seq<Item>, p: Item -> bool)
    ensures forall x :: x in Filter(s, p) <==> x in s && p(x)
    ensures multiset(Filter(s, p)) <= multiset(s)
  {
    forall x ensures x in Filter(s, p) <==> x in s && p(x) {
      FilterCount(s, p, x);
      assert x in Filter(s, p) <==> x in multiset(Filter(s, p));
      assert x in s <==> x in multiset(s);
    }
    forall x ensures multiset(Filter(s, p))[x] <= multiset(s)[x] {
      FilterCount(s, p, x);
    }
  }

  lemma {:induction false} FilterAppend(a: seq<Item>, b: seq<Item>, p: Item -> bool)
    ensures Filter(a + b, p) == Filter(a, p) + Filter(b, p)
  {
    if b == [] {
      assert a + b == a;
    } else {
      assert (a + b)[..|a + b| - 1] == a + b[..|b| - 1];
      FilterAppend(a, b[..|b| - 1], p);
    }
  }

  /** An element that fails the test leaves the filtered prefix as it was. */
  lemma FilterSkip(a: seq<Item>, x: Item, p: Item -> bool)
    requires !p(x)
    ensures Filter(a + [x], p) == Filter(a, p)
  {
    assert (a + [x])[..|a + [x]| - 1] == a;
  }

  /** Filtering out exactly one element between two runs that pass. */
  lemma FilterDropsOne(a: seq<Item>, x: Item, b: seq<Item>, p: Item -> bool)
    requires Filter(a, p) == a && Filter(b, p) == b && !p(x)
    ensures Filter(a + [x] + b, p) == a + b
  {
    FilterAppend(a + [x], b, p);
    FilterSkip(a, x, p);
  }

  lemma {:induction false} FilterSame(s: seq<Item>, p: Item -> bool, q: Item -> bool)
    requires forall x :: p(x) == q(x)
    ensures Filter(s, p) == Filter(s, q)
  {
    if s != [] {
      FilterSame(s[..|s| - 1], p, q);
    }
  }

  lemma {:induction false} FilterAll(s: seq<Item>, p: Item -> bool)
    requires forall x :: p(x)
    ensures Filter(s, p) == s
  {
    if s != [] {
      FilterAll(s[..|s| - 1], p);
      assert s == s[..|s| - 1] + [s[|s| - 1]];
    }
  }

  // The individual criteria, as the stages of the pipeline test them.

  predicate StatusOk(spec: QuerySpec, it: Item) {
    spec.status.AllStatuses? || it.status == spec.status.status
  }

  predicate PriorityOk(spec: QuerySpec, it: Item) {
    spec.priorities == {} || it.priority in spec.priorities
  }

  predicate ProgressOk(spec: QuerySpec, it: Item) {
    spec.minProgress <= it.progress <= spec.maxProgress
  }

  predicate DateOk(spec: QuerySpec, it: Item) {
    && (spec.dateFrom.Some? ==> spec.dateFrom.value <= it.dateAdded)
    && (spec.dateTo.Some? ==> it.dateAdded <= spec.dateTo.value)
  }

  predicate TagsOk(spec: QuerySpec, it: Item) {
    || spec.tags == {}
    || (spec.tagsMode == AnyTag && exists t :: t in spec.tags && t in it.tags)
    || (spec.tagsMode == EveryTag && forall t :: t in spec.tags ==> t in it.tags)
  }

  predicate SearchOk(spec: QuerySpec, it: Item) {
    var q := ToLower(spec.query);
    || spec.query == []
    || Contains(ToLower(it.title), q)
    || Contains(ToLower(it.url), q)
    || exists t :: t in it.tags && Contains(ToLower(t), q)
  }

  /** An item the query shows: it meets every active criterion. */
  predicate Matches(spec: QuerySpec, it: Item) {
    StatusOk(spec, it) && PriorityOk(spec, it) && ProgressOk(spec, it)
    && DateOk(spec, it) && TagsOk(spec, it) && SearchOk(spec, it)
  }

  // The callbacks the stages pass to `filter`.

  function HasStatus(status: Status): Item -> bool {
    (it: Item) => it.status == status
  }

  function InPriorities(priorities: set<Priority>): Item -> bool {
    (it: Item) => it.priority in priorities
  }

  function InProgressRange(min: int, max: int): Item -> bool {
    (it: Item) => it.progress >= min && it.progress <= max
  }

  function InDateRange(from: Option<int>, to: Option<int>): Item -> bool {
    (it: Item) =>
      if from.Some? && it.dateAdded < from.value then false
      else if to.Some? && it.dateAdded > to.value then false
      else true
  }

  function TagMatch(tags: set<string>, mode: TagsMode): Item -> bool {
    (it: Item) =>
      if mode == AnyTag then exists t :: t in tags && t in it.tags
      else forall t :: t in tags ==> t in it.tags
  }

  /** `q` is the lower-cased query. */
  function SearchMatch(q: string): Item -> bool {
    (it: Item) =>
      || Contains(ToLower(it.title), q)
      || Contains(ToLower(it.url), q)
      || exists t :: t in it.tags && Contains(ToLower(t), q)
  }

  // The stages of the filter chain of `getFilteredItems`, in the order it applies them.

  function ByStatus(s: seq<Item>, spec: QuerySpec): seq<Item> {
    if spec.status.AllStatuses? then s else Filter(s, HasStatus(spec.status.status))
  }

  function ByPriority(s: seq<Item>, spec: QuerySpec): seq<Item> {
    if |spec.priorities| > 0 then Filter(s, InPriorities(spec.priorities)) else s
  }

  /** Unconditional: this stage always copies, so the sort below never reorders the tracker's own array. */
  function ByProgress(s: seq<Item>, spec: QuerySpec): seq<Item> {
    Filter(s, InProgressRange(spec.minProgress, spec.maxProgress))
  }

  function ByDate(s: seq<Item>, spec: QuerySpec): seq<Item> {
    if spec.dateFrom.Some? || spec.dateTo.Some? then Filter(s, InDateRange(spec.dateFrom, spec.dateTo)) else s
  }

  function ByTags(s: seq<Item>, spec: QuerySpec): seq<Item> {
    if |spec.tags| > 0 then Filter(s, TagMatch(spec.tags, spec.tagsMode)) else s
  }

  function BySearch(s: seq<Item>, spec: QuerySpec): seq<Item> {
    if spec.query != [] then Filter(s, SearchMatch(ToLower(spec.query))) else s
  }

  function FilterChain(items: seq<Item>, spec: QuerySpec): seq<Item> {
    BySearch(ByTags(ByDate(ByProgress(ByPriority(ByStatus(items, spec), spec), spec), spec), spec), spec)
  }

  /** The first `n` criteria of `Matches`, as one test. */
  function PassesFirst(spec: QuerySpec, n: nat): Item -> bool {
    (it: Item) =>
      && (n >= 1 ==> StatusOk(spec, it))
      && (n >= 2 ==> PriorityOk(spec, it))
      && (n >= 3 ==> ProgressOk(spec, it))
      && (n >= 4 ==> DateOk(spec, it))
      && (n >= 5 ==> TagsOk(spec, it))
      && (n >= 6 ==> SearchOk(spec, it))
  }

  function MatchesTest(spec: QuerySpec): Item -> bool {
    (it: Item) => Matches(spec, it)
  }

  lemma {:induction false} FilterThen(s: seq<Item>, p: Item -> bool, q: Item -> bool, pq: Item -> bool)
    requires forall x :: pq(x) == (p(x) && q(x))
    ensures Filter(Filter(s, p), q) == Filter(s, pq)
  {
    if s != [] {
      var init, last := s[..|s| - 1], s[|s| - 1];
      FilterThen(init, p, q, pq);
      FilterAppend(Filter(init, p), if p(last) then [last] else [], q);
      assert Filter([last], q) == Filter([last][..0], q) + (if q(last) then [last] else []);
    }
  }

  /** One more stage of the chain: filtering by `test`, or passing through when the stage is off. */
  lemma {:induction false} Step(items: seq<Item>, spec: QuerySpec, n: nat, prev: seq<Item>, staged: seq<Item>, on: bool, test: Item -> bool)
    requires 1 <= n
    requires prev == Filter(items, PassesFirst(spec, n - 1))
    requires on ==> staged == Filter(prev, test) && forall x :: PassesFirst(spec, n)(x) == (PassesFirst(spec, n - 1)(x) && test(x))
    requires !on ==> staged == prev && forall x :: PassesFirst(spec, n)(x) == PassesFirst(spec, n - 1)(x)
    ensures staged == Filter(items, PassesFirst(spec, n))
  {
    if on {
      FilterThen(items, PassesFirst(spec, n - 1), test, PassesFirst(spec, n));
    } else {
      FilterSame(items, PassesFirst(spec, n - 1), PassesFirst(spec, n));
    }
  }

  lemma {:induction false} StatusStage(items: seq<Item>, spec: QuerySpec)
    ensures ByStatus(items, spec) == Filter(items, PassesFirst(spec, 1))
  {
    var none := PassesFirst(spec, 0);
    FilterAll(items, none);
    if spec.status.OnlyStatus? {
      assert forall x :: PassesFirst(spec, 1)(x) == (none(x) && HasStatus(spec.status.status)(x));
      Step(items, spec, 1, items, ByStatus(items, spec), true, HasStatus(spec.status.status));
    } else {
      Step(items, spec, 1, items, ByStatus(items, spec), false, none);
    }
  }

  lemma {:induction false} PriorityStage(items: seq<Item>, spec: QuerySpec, prev: seq<Item>)
    requires prev == Filter(items, PassesFirst(spec, 1))
    ensures ByPriority(prev, spec) == Filter(items, PassesFirst(spec, 2))
  {
    Step(items, spec, 2, prev, ByPriority(prev, spec), |spec.priorities| > 0, InPriorities(spec.priorities));
  }

  lemma {:induction false} ProgressStage(items: seq<Item>, spec: QuerySpec, prev: seq<Item>)
    requires prev == Filter(items, PassesFirst(spec, 2))
    ensures ByProgress(prev, spec) == Filter(items, PassesFirst(spec, 3))
  {
    Step(items, spec, 3, prev, ByProgress(prev, spec), true, InProgressRange(spec.minProgress, spec.maxProgress));
  }

  lemma {:induction false} DateStage(items: seq<Item>, spec: QuerySpec, prev: seq<Item>)
    requires prev == Filter(items, PassesFirst(spec, 3))
    ensures ByDate(prev, spec) == Filter(items, PassesFirst(spec, 4))
  {
    Step(items, spec, 4, prev, ByDate(prev, spec), spec.dateFrom.Some? || spec.dateTo.Some?,
         InDateRange(spec.dateFrom, spec.dateTo));
  }

  lemma {:induction false} TagsStage(items: seq<Item>, spec: QuerySpec, prev: seq<Item>)
    requires prev == Filter(items, PassesFirst(spec, 4))
    ensures ByTags(prev, spec) == Filter(items, PassesFirst(spec, 5))
  {
    Step(items, spec, 5, prev, ByTags(prev, spec), |spec.tags| > 0, TagMatch(spec.tags, spec.tagsMode));
  }

  lemma {:induction false} SearchStage(items: seq<Item>, spec: QuerySpec, prev: seq<Item>)
    requires prev == Filter(items, PassesFirst(spec, 5))
    ensures BySearch(prev, spec) == Filter(items, PassesFirst(spec, 6))
  {
    Step(items, spec, 6, prev, BySearch(prev, spec), spec.query != [], SearchMatch(ToLower(spec.query)));
  }

  /**
   * The chain of six filters keeps exactly the items that meet every active
   * criterion, in their original order.
   */
  lemma {:induction false} ChainIsFilter(items: seq<Item>, spec: QuerySpec)
    ensures FilterChain(items, spec) == Filter(items, MatchesTest(spec))
  {
    var s1 := ByStatus(items, spec);
    StatusStage(items, spec);
    var s2 := ByPriority(s1, spec);
    PriorityStage(items, spec, s1);
    var s3 := ByProgress(s2, spec);
    ProgressStage(items, spec, s2);
    var s4 := ByDate(s3, spec);
    DateStage(items, spec, s3);
    var s5 := ByTags(s4, spec);
    TagsStage(items, spec, s4);
    SearchStage(items, spec, s5);
    FilterSame(items, PassesFirst(spec, 6), MatchesTest(spec));
  }

  /** `getFilteredItems`: the filter chain, then the stable sort by the selected key. */
  function FilteredItems(items: seq<Item>, spec: QuerySpec, titleLe: (string, string) -> bool): (r: seq<Item>)
    ensures multiset(r) <= multiset(items)
    ensures |r| <= |items|
  {
    var kept := FilterChain(items, spec);
    ChainIsFilter(items, spec);
    FilterMembers(items, MatchesTest(spec));
    Sorting.SortPermutes(Precedes(SortModeOf(spec.sortBy), titleLe), kept);
    Sorting.Sort(Precedes(SortModeOf(spec.sortBy), titleLe), kept)
  }

  /** Every sort key orders the items by a total preorder; the title keys do when `localeCompare` does. */
  lemma PrecedesTotal(mode: SortMode, titleLe: (string, string) -> bool)
    requires IsTitleMode(mode) ==> Sorting.TotalPreorder(titleLe)
    ensures Sorting.TotalPreorder(Precedes(mode, titleLe))
  {
    var le := Precedes(mode, titleLe);
    if IsTitleMode(mode) {
      forall x ensures le(x, x) {
        assert titleLe(x.title, x.title);
      }
      forall x, y ensures le(x, y) || le(y, x) {
        assert titleLe(x.title, y.title) || titleLe(y.title, x.title);
      }
      forall x, y, z | le(x, y) && le(y, z) ensures le(x, z) {
        if mode == TitleAsc {
          assert titleLe(x.title, y.title) && titleLe(y.title, z.title);
        } else {
          assert titleLe(z.title, y.title) && titleLe(y.title, x.title);
        }
      }
    }
  }

  /**
   * The two priority tables are mirror images: `priority-asc` lets `a` precede
   * `b` exactly when `priority-desc` lets `b` precede `a`, so it sorts low,
   * medium, high, where `priority-desc` sorts high, medium, low.
   */
  lemma PriorityOrdersMirror(titleLe: (string, string) -> bool, a: Item, b: Item)
    ensures Precedes(PriorityAsc, titleLe)(a, b) == Precedes(PriorityDesc, titleLe)(b, a)
    ensures Precedes(PriorityDesc, titleLe)(a, b) <==> RankDesc(a.priority) >= RankDesc(b.priority)
  {
    assert RankAsc(a.priority) == 2 - RankDesc(a.priority);
    assert RankAsc(b.priority) == 2 - RankDesc(b.priority);
  }

  /**
   * What `getFilteredItems` returns: exactly the items, with their
   * multiplicities, that meet every active criterion.
   */
  lemma {:induction false} FilteredItemsContents(items: seq<Item>, spec: QuerySpec, titleLe: (string, string) -> bool)
    ensures var r := FilteredItems(items, spec, titleLe);
      && (forall x :: x in r <==> x in items && Matches(spec, x))
      && (forall x :: multiset(r)[x] == if Matches(spec, x) then multiset(items)[x] else 0)
      && multiset(r) == multiset(Filter(items, MatchesTest(spec)))
  {
    var r := FilteredItems(items, spec, titleLe);
    var kept := Filter(items, MatchesTest(spec));
    ChainIsFilter(items, spec);
    Sorting.SortPermutes(Precedes(SortModeOf(spec.sortBy), titleLe), kept);
    forall x ensures multiset(r)[x] == if Matches(spec, x) then multiset(items)[x] else 0 {
      FilterCount(items, MatchesTest(spec), x);
    }
    forall x ensures x in r <==> x in items && Matches(spec, x) {
      assert x in r <==> x in multiset(r);
      assert x in items <==> x in multiset(items);
    }
  }

  /**
   * The order of `getFilteredItems`: sorted by the selected key, and items
   * with equal keys in their order in the collection (a stable sort).
   */
  lemma {:induction false} FilteredItemsOrder(items: seq<Item>, spec: QuerySpec, titleLe: (string, string) -> bool)
    requires IsTitleMode(SortModeOf(spec.sortBy)) ==> Sorting.TotalPreorder(titleLe)
    ensures var r := FilteredItems(items, spec, titleLe);
      var le := Precedes(SortModeOf(spec.sortBy), titleLe);
      && Sorting.SortedBy(le, r)
      && Sorting.StableFrom(le, Filter(items, MatchesTest(spec)), r)
  {
    var le := Precedes(SortModeOf(spec.sortBy), titleLe);
    var kept := Filter(items, MatchesTest(spec));
    ChainIsFilter(items, spec);
    PrecedesTotal(SortModeOf(spec.sortBy), titleLe);
    Sorting.SortSorted(le, kept);
    Sorting.SortStable(le, kept);
  }

  /** An unknown sort key leaves the filtered items in collection order. */
  lemma {:induction false} FilteredItemsUnsorted(items: seq<Item>, spec: QuerySpec, titleLe: (string, string) -> bool)
    requires SortModeOf(spec.sortBy) == Unsorted
    ensures FilteredItems(items, spec, titleLe) == Filter(items, MatchesTest(spec))
  {
    ChainIsFilter(items, spec);
    Sorting.SortAllTied(Precedes(Unsorted, titleLe), Filter(items, MatchesTest(spec)));
  }
}
