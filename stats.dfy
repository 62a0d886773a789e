/**
 * `calculateStats`: the aggregate snapshot of the collection that the
 * achievement rules are evaluated against.
 */
module Statistics {
  import opened Items

  /**
   * The user's calendar: the day number of a millisecond timestamp (the date
   * that `toISOString` shows, one apart for consecutive days) and its hour of
   * the day on the local clock (`getHours`).
   */
  datatype Calendar = Calendar(dayOf: int -> int, hourOf: int -> int)

  /** A number or `Infinity`, which is what `Math.min()` of no arguments gives. */
  datatype Extended = Finite(n: int) | Infinite

  datatype Stats = Stats(
    totalItems: nat,
    completedItems: nat,
    readingStreak: nat,
    totalTimeSpent: int,
    uniqueTags: nat,
    fastestCompletion: Extended,
    usedAllPriorities: bool,
    lateNightReading: bool,
    earlyMorningReading: bool)

  /** `items.flatMap(item => item.readingSessions)`. */
  function AllSessions(items: seq<Item>): seq<Session> {
    if items == [] then [] else AllSessions(items[..|items| - 1]) + items[|items| - 1].sessions
  }

  /** The days on which some session started. */
  function SessionDays(items: seq<Item>, cal: Calendar): set<int> {
    set s | s in AllSessions(items) :: cal.dayOf(s.startTime)
  }

  /** The number of consecutive days, counting back from `day`, that are in `days`. */
  function Streak(days: set<int>, day: int): (r: nat)
    ensures r == 0 <==> day !in days
    ensures r <= |days|
    decreases |days|
  {
    if day in days then 1 + Streak(days - {day}, day - 1) else 0
  }

  /** The days `today - k + 1` .. `today`. */
  function Window(today: int, k: nat): set<int> {
    set d: int | today - k < d <= today && InWindow(today, k, d)
  }

  predicate InWindow(today: int, k: nat, d: int) {
    today - k < d <= today
  }

  lemma {:induction false} WindowSize(today: int, k: nat)
    ensures |Window(today, k)| == k
  {
    if k > 0 {
      WindowSize(today, k - 1);
      assert Window(today, k) == Window(today, k - 1) + {today - (k - 1)};
    }
  }

  /** The streak is `k` exactly when the `k` days ending with today all have a session and the day before them has none. */
  lemma {:induction false} StreakCharacterisation(days: set<int>, today: int)
    ensures Window(today, Streak(days, today)) <= days
    ensures today - Streak(days, today) !in days
    decreases |days|
  {
    if today in days {
      var rest := days - {today};
      StreakCharacterisation(rest, today - 1);
      var k := Streak(rest, today - 1);
      assert Window(today, k + 1) == Window(today - 1, k) + {today};
    }
  }

  lemma {:induction false} StreakUnique(days: set<int>, today: int, k: nat)
    requires Window(today, k) <= days
    requires today - k !in days
    ensures k == Streak(days, today)
    decreases k
  {
    if k == 0 {
      assert today !in days;
    } else {
      assert today in Window(today, k);
      var rest := days - {today};
      assert Window(today - 1, k - 1) <= rest;
      StreakUnique(rest, today - 1, k - 1);
    }
  }

  /** An item that counts towards `fastestCompletion`: completed, with a truthy (non-zero) time. */
  predicate IsTimedCompletion(it: Item) {
    it.status == Completed && it.timeSpent != 0
  }

  function MinWith(e: Extended, n: int): Extended {
    match e
    case Infinite => Finite(n)
    case Finite(m) => Finite(if n < m then n else m)
  }

  /** `Math.min(...items.filter(completed, timed).map(timeSpent))`. */
  function FastestCompletion(items: seq<Item>): (r: Extended)
    ensures r.Infinite? <==> forall i :: 0 <= i < |items| ==> !IsTimedCompletion(items[i])
  {
    if items == [] then Infinite
    else
      var rest := FastestCompletion(items[..|items| - 1]);
      var last := items[|items| - 1];
      if IsTimedCompletion(last) then MinWith(rest, last.timeSpent) else rest
  }

  /**
   * `fastestCompletion` is the least time of a completed, timed item, and
   * `Infinity` exactly when there is no such item.
   */
  lemma {:induction false} FastestCompletionSpec(items: seq<Item>)
    ensures var f := FastestCompletion(items);
      && (f.Infinite? <==> forall i :: 0 <= i < |items| ==> !IsTimedCompletion(items[i]))
      && (f.Finite? ==> exists i :: 0 <= i < |items| && IsTimedCompletion(items[i]) && items[i].timeSpent == f.n)
      && (f.Finite? ==> forall i :: 0 <= i < |items| && IsTimedCompletion(items[i]) ==> f.n <= items[i].timeSpent)
  {
    if items != [] {
      var init := items[..|items| - 1];
      FastestCompletionSpec(init);
      var f := FastestCompletion(items);
      if f.Finite? {
        var g := FastestCompletion(init);
        var last := |items| - 1;
        if !(IsTimedCompletion(items[last]) && (g.Infinite? || items[last].timeSpent < g.n)) {
          var i :| 0 <= i < |init| && IsTimedCompletion(init[i]) && init[i].timeSpent == g.n;
          assert items[i] == init[i];
        }
      }
    }
  }

  /** The set of priorities in use. */
  function PrioritiesUsed(items: seq<Item>): set<Priority> {
    set i | 0 <= i < |items| :: items[i].priority
  }

  /** `usedAllPriorities` (a set of size 3) holds exactly when each of low, medium and high is used. */
  lemma UsedAllPrioritiesIff(items: seq<Item>)
    ensures |PrioritiesUsed(items)| == 3 <==> Low in PrioritiesUsed(items) && Medium in PrioritiesUsed(items) && High in PrioritiesUsed(items)
  {
    var used := PrioritiesUsed(items);
    assert used <= {Low, Medium, High} by {
      forall p | p in used ensures p in {Low, Medium, High} {
        match p
        case Low =>
        case Medium =>
        case High =>
      }
    }
    if Low in used && Medium in used && High in used {
      assert used == {Low, Medium, High};
    } else {
      var missing := if Low !in used then Low else if Medium !in used then Medium else High;
      var others := {Low, Medium, High} - {missing};
      assert used <= others;
      assert |others| == 2;
      SubsetSize(used, others);
    }
  }

  lemma {:induction false} SubsetSize<T>(a: set<T>, b: set<T>)
    requires a <= b
    ensures |a| <= |b|
    decreases |a|
  {
    if a != {} {
      var x :| x in a;
      SubsetSize(a - {x}, b - {x});
    }
  }

  predicate IsLateNight(hour: int) {
    hour >= 22 || hour < 4
  }

  predicate IsEarlyMorning(hour: int) {
    hour >= 5 && hour < 8
  }

  /** The statistics of `items` at time `now`. */
  function StatsOf(items: seq<Item>, now: int, cal: Calendar): (r: Stats)
    ensures r.completedItems <= r.totalItems == |items|
    ensures r.readingStreak == 0 <==> cal.dayOf(now) !in SessionDays(items, cal)
    ensures r.usedAllPriorities <==> Low in PrioritiesUsed(items) && Medium in PrioritiesUsed(items) && High in PrioritiesUsed(items)
  {
    StatusCountsCover(items);
    UsedAllPrioritiesIff(items);
    var sessions := AllSessions(items);
    Stats(
      |items|,
      CountStatus(items, Completed),
      Streak(SessionDays(items, cal), cal.dayOf(now)),
      SumTime(items),
      |TagUniverse(items)|,
      FastestCompletion(items),
      |PrioritiesUsed(items)| == 3,
      exists s :: s in sessions && IsLateNight(cal.hourOf(s.startTime)),
      exists s :: s in sessions && IsEarlyMorning(cal.hourOf(s.startTime)))
  }

  /**
   * `calculateStats`. The streak comes from the source's loop, which steps
   * back one day at a time from today while the day has a session.
   */
  method CalculateStats(items: seq<Item>, now: int, cal: Calendar) returns (stats: Stats)
    ensures stats == StatsOf(items, now, cal)
  {
    var streak := ReadingStreak(SessionDays(items, cal), cal.dayOf(now));
    var sessions := AllSessions(items);
    stats := Stats(
      |items|,
      CountStatus(items, Completed),
      streak,
      SumTime(items),
      |TagUniverse(items)|,
      FastestCompletion(items),
      |PrioritiesUsed(items)| == 3,
      exists s :: s in sessions && IsLateNight(cal.hourOf(s.startTime)),
      exists s :: s in sessions && IsEarlyMorning(cal.hourOf(s.startTime)));
  }

  /** The streak loop: the `k` days up to today all have a session and the one before them does not. */
  method ReadingStreak(sessionDates: set<int>, today: int) returns (streak: nat)
    ensures Window(today, streak) <= sessionDates
    ensures today - streak !in sessionDates
    ensures streak == Streak(sessionDates, today)
  {
    streak := 0;
    var currentDate := today;
    while currentDate in sessionDates
      invariant currentDate == today - streak
      invariant Window(today, streak) <= sessionDates
      decreases |sessionDates| - streak
    {
      WindowSize(today, streak);
      assert Window(today, streak + 1) == Window(today, streak) + {currentDate};
      WindowSize(today, streak + 1);
      SubsetSize(Window(today, streak + 1), sessionDates);
      streak := streak + 1;
      currentDate := currentDate - 1;
    }
    StreakUnique(sessionDates, today, streak);
  }
}
