/**
 * The gamification layer: a fixed catalogue of achievements, each earned once
 * when its rule holds for the current statistics, with points, a level
 * derived from them, and a saved copy of the progress.
 */
module Achievements {
  import opened Wrappers
  import opened Items
  import opened Statistics

  /** The condition of an achievement, as a rule on the statistics. */
  datatype Rule =
    | MinItems(n: int)
    | MinStreak(n: int)
    | MinTime(n: int)
    | MinCompleted(n: int)
    | MinUniqueTags(n: int)
    | MaxFastest(n: int)
    | AllPriorities
    | LateNight
    | EarlyMorning

  /** `condition(stats)`; `Infinity <= n` is false. */
  predicate Holds(rule: Rule, stats: Stats) {
    match rule
    case MinItems(n) => stats.totalItems >= n
    case MinStreak(n) => stats.readingStreak >= n
    case MinTime(n) => stats.totalTimeSpent >= n
    case MinCompleted(n) => stats.completedItems >= n
    case MinUniqueTags(n) => stats.uniqueTags >= n
    case MaxFastest(n) => stats.fastestCompletion.Finite? && stats.fastestCompletion.n <= n
    case AllPriorities => stats.usedAllPriorities
    case LateNight => stats.lateNightReading
    case EarlyMorning => stats.earlyMorningReading
  }

  datatype Achievement = Achievement(
    id: string,
    title: string,
    description: string,
    icon: string,
    condition: Rule,
    points: nat,
    earned: bool,
    earnedDate: Option<int>)

  /** A new achievement is not earned and has no date. */
  function NewAchievement(id: string, title: string, description: string, icon: string, condition: Rule, points: nat): (a: Achievement)
    ensures !a.earned && a.earnedDate == None
    ensures a.id == id && a.condition == condition && a.points == points
  {
    Achievement(id, title, description, icon, condition, points, false, None)
  }

  predicate DistinctIds(achs: seq<Achievement>) {
    forall i, j :: 0 <= i < j < |achs| ==> achs[i].id != achs[j].id
  }

  /** The ten achievements, in the order they are checked. */
  function Catalog(): seq<Achievement> {
    seq(10, k requires 0 <= k < 10 => Entry(k))
  }

  /** The `k`-th entry of the catalogue. */
  function Entry(k: nat): Achievement
    requires k < 10
  {
    NewAchievement(EntryId(k), EntryTitle(k), EntryDescription(k), EntryIcon(k), EntryRule(k), EntryPoints(k))
  }

  /** The ids, which are what the saved progress refers to. */
  function EntryId(k: nat): string
    requires k < 10
  {
    match k
    case 0 => "first_book"
    case 1 => "reading_streak"
    case 2 => "time_spent"
    case 3 => "completion_master"
    case 4 => "organization_pro"
    case 5 => "speed_reader"
    case 6 => "priority_planner"
    case 7 => "night_owl"
    case 8 => "early_bird"
    case 9 => "bookworm"
  }

  /** The titles shown when an achievement is earned. */
  function EntryTitle(k: nat): string
    requires k < 10
  {
    match k
    case 0 => "First Steps"
    case 1 => "Reading Streak"
    case 2 => "Dedicated Reader"
    case 3 => "Completion Master"
    case 4 => "Organization Pro"
    case 5 => "Speed Reader"
    case 6 => "Priority Planner"
    case 7 => "Night Owl"
    case 8 => "Early Bird"
    case 9 => "Bookworm"
  }

  /** The descriptions shown when an achievement is earned. */
  function EntryDescription(k: nat): string
    requires k < 10
  {
    match k
    case 0 => "Add your first reading item"
    case 1 => "Read for 5 consecutive days"
    case 2 => "Spend 2 hours reading"
    case 3 => "Complete 5 reading items"
    case 4 => "Use 5 different tags"
    case 5 => "Complete a reading item in under 30 minutes"
    case 6 => "Have items in all priority levels"
    case 7 => "Read after 10 PM"
    case 8 => "Read before 8 AM"
    case 9 => "Read 10 different items"
  }

  /** The icons, as Unicode code points. */
  function EntryIcon(k: nat): string
    requires k < 10
  {
    match k
    case 0 => "\U{1F4DA}"
    case 1 => "\U{1F525}"
    case 2 => "\U{23F1}\U{FE0F}"
    case 3 => "\U{2705}"
    case 4 => "\U{1F3F7}\U{FE0F}"
    case 5 => "\U{26A1}"
    case 6 => "\U{1F4CA}"
    case 7 => "\U{1F989}"
    case 8 => "\U{1F305}"
    case 9 => "\U{1FAB1}"
  }

  /** The rule of each achievement. */
  function EntryRule(k: nat): Rule
    requires k < 10
  {
    match k
    case 0 => MinItems(1)
    case 1 => MinStreak(5)
    case 2 => MinTime(7200)
    case 3 => MinCompleted(5)
    case 4 => MinUniqueTags(5)
    case 5 => MaxFastest(1800)
    case 6 => AllPriorities
    case 7 => LateNight
    case 8 => EarlyMorning
    case 9 => MinItems(10)
  }

  /** The points each achievement is worth. */
  function EntryPoints(k: nat): nat
    requires k < 10
  {
    match k
    case 0 => 10
    case 1 => 50
    case 2 => 30
    case 3 => 40
    case 4 => 20
    case 5 => 25
    case 6 => 15
    case 7 => 20
    case 8 => 20
    case 9 => 60
  }

  /** The catalogue has ten unearned, undated entries with distinct ids, each worth some points. */
  lemma CatalogFacts()
    ensures |Catalog()| == 10
    ensures Cleared(Catalog()) == Catalog()
    ensures forall i :: 0 <= i < |Catalog()| ==> Catalog()[i].points > 0
    ensures DistinctIds(Catalog())
  {
    var c := Catalog();
    forall i | 0 <= i < 10 ensures |c[i].id| > 0 && c[i].id[0] == Initials()[i] && c[i].points > 0 {
      EntryInitial(i);
    }
    InitialsDistinct();
    forall i, j | 0 <= i < j < 10 ensures c[i].id != c[j].id {
      assert c[i].id[0] != c[j].id[0];
    }
  }

  /** The first letters of the ids, which already tell the entries apart. */
  function Initials(): string {
    "frtcospneb"
  }

  lemma InitialsDistinct()
    ensures forall i, j :: 0 <= i < j < 10 ==> Initials()[i] != Initials()[j]
  {
  }

  lemma EntryInitial(k: nat)
    requires k < 10
    ensures |EntryId(k)| > 0 && EntryId(k)[0] == Initials()[k] && EntryPoints(k) > 0
  {
    match k
    case 0 => case 1 => case 2 => case 3 => case 4 =>
    case 5 => case 6 => case 7 => case 8 => case 9 =>
  }

  /** The entries with their earned state reset. */
  function Cleared(achs: seq<Achievement>): (r: seq<Achievement>)
    ensures |r| == |achs|
    ensures forall i :: 0 <= i < |r| ==> SameEntry(r[i], achs[i]) && !r[i].earned && r[i].earnedDate == None
  {
    seq(|achs|, i requires 0 <= i < |achs| => achs[i].(earned := false, earnedDate := None))
  }

  /** The sum of the points of `achs`. */
  function PointsOf(achs: seq<Achievement>): nat {
    if achs == [] then 0 else PointsOf(achs[..|achs| - 1]) + achs[|achs| - 1].points
  }

  /** The progress record; `achievements` is a set kept in insertion order. */
  datatype UserProgress = UserProgress(totalPoints: int, level: int, achievements: seq<string>)

  predicate NoDup(s: seq<string>) {
    forall i, j :: 0 <= i < j < |s| ==> s[i] != s[j]
  }

  /** `Set.prototype.add`: a new member goes at the end, a present one changes nothing. */
  function AddId(ids: seq<string>, x: string): (r: seq<string>)
    ensures x in r
    ensures forall y :: y in r <==> y in ids || y == x
    ensures NoDup(ids) ==> NoDup(r)
  {
    if x in ids then ids else ids + [x]
  }

  /** Adding the members of `xs` one by one, as `new Set(xs)` does starting from empty. */
  function AddAll(ids: seq<string>, xs: seq<string>): seq<string> {
    if xs == [] then ids else AddId(AddAll(ids, xs[..|xs| - 1]), xs[|xs| - 1])
  }

  lemma {:induction false} AddAllSpec(ids: seq<string>, xs: seq<string>)
    ensures forall y :: y in AddAll(ids, xs) <==> y in ids || y in xs
    ensures NoDup(ids) ==> NoDup(AddAll(ids, xs))
    ensures NoDup(ids + xs) ==> AddAll(ids, xs) == ids + xs
  {
    if xs != [] {
      var init := xs[..|xs| - 1];
      AddAllSpec(ids, init);
      assert xs == init + [xs[|xs| - 1]];
      if NoDup(ids + xs) {
        assert ids + xs == (ids + init) + [xs[|xs| - 1]];
        assert NoDup(ids + init) by {
          forall i, j | 0 <= i < j < |ids + init| ensures (ids + init)[i] != (ids + init)[j] {
            assert (ids + init)[i] == (ids + xs)[i] && (ids + init)[j] == (ids + xs)[j];
          }
        }
        assert xs[|xs| - 1] == (ids + xs)[|ids + xs| - 1];
        assert xs[|xs| - 1] !in ids + init by {
          forall k | 0 <= k < |ids + init| ensures (ids + init)[k] != xs[|xs| - 1] {
            assert (ids + init)[k] == (ids + xs)[k];
          }
        }
      }
    }
  }

  /** Whether `a` is earned by this check: not yet earned and its rule holds. */
  predicate Newly(a: Achievement, stats: Stats) {
    !a.earned && Holds(a.condition, stats)
  }

  /** The same achievement, whatever its earned state. */
  predicate SameEntry(a: Achievement, b: Achievement) {
    a.(earned := b.earned, earnedDate := b.earnedDate) == b
  }

  /** One achievement after a check at time `now`. */
  function Award(a: Achievement, stats: Stats, now: int): (r: Achievement)
    ensures r.earned <==> a.earned || Holds(a.condition, stats)
    ensures a.earned ==> r == a
    ensures SameEntry(r, a)
    ensures Newly(a, stats) ==> r.earnedDate == Some(now)
  {
    if Newly(a, stats) then a.(earned := true, earnedDate := Some(now)) else a
  }

  function AwardAll(achs: seq<Achievement>, stats: Stats, now: int): (r: seq<Achievement>)
    ensures |r| == |achs|
  {
    seq(|achs|, i requires 0 <= i < |achs| => Award(achs[i], stats, now))
  }

  /** Whether some entry of `achs` is newly earned. */
  predicate AnyNew(achs: seq<Achievement>, stats: Stats) {
    exists i :: 0 <= i < |achs| && Newly(achs[i], stats)
  }

  /** The progress after checking `achs` in order: each newly earned entry adds its points and id and recomputes the level. */
  function Progressed(p: UserProgress, achs: seq<Achievement>, stats: Stats): (r: UserProgress)
    ensures r.totalPoints >= p.totalPoints
  {
    if achs == [] then p
    else
      var q := Progressed(p, achs[..|achs| - 1], stats);
      var a := achs[|achs| - 1];
      if Newly(a, stats) then
        var total := q.totalPoints + a.points;
        UserProgress(total, total / 100 + 1, AddId(q.achievements, a.id))
      else q
  }

  /** Checking one more entry. */
  lemma PrefixStep(p: UserProgress, achs: seq<Achievement>, i: nat, stats: Stats)
    requires i < |achs|
    ensures Progressed(p, achs[..i + 1], stats) ==
      var q := Progressed(p, achs[..i], stats);
      if Newly(achs[i], stats) then
        UserProgress(q.totalPoints + achs[i].points, (q.totalPoints + achs[i].points) / 100 + 1, AddId(q.achievements, achs[i].id))
      else q
    ensures AnyNew(achs[..i + 1], stats) <==> AnyNew(achs[..i], stats) || Newly(achs[i], stats)
  {
    var pre := achs[..i + 1];
    assert pre[..i] == achs[..i];
    assert pre[i] == achs[i];
    if AnyNew(achs[..i], stats) {
      var j :| 0 <= j < i && Newly(achs[..i][j], stats);
      assert pre[j] == achs[..i][j];
    }
    if AnyNew(pre, stats) && !Newly(achs[i], stats) {
      var j :| 0 <= j < i + 1 && Newly(pre[j], stats);
      assert achs[..i][j] == pre[j];
    }
  }

  predicate NewlyEarnedId(achs: seq<Achievement>, stats: Stats, x: string) {
    exists i :: 0 <= i < |achs| && Newly(achs[i], stats) && achs[i].id == x
  }

  /**
   * A check adds the points of exactly the newly earned entries; the level is
   * `floor(points / 100) + 1` after it when anything was earned and unchanged otherwise.
   */
  lemma {:induction false} ProgressedPoints(p: UserProgress, achs: seq<Achievement>, stats: Stats)
    ensures Progressed(p, achs, stats).totalPoints == p.totalPoints + PointsOf(NewlyEarned(achs, stats))
    ensures AnyNew(achs, stats) ==> Progressed(p, achs, stats).level == Progressed(p, achs, stats).totalPoints / 100 + 1
    ensures !AnyNew(achs, stats) ==> Progressed(p, achs, stats) == p
  {
    if achs != [] {
      var init := achs[..|achs| - 1];
      ProgressedPoints(p, init, stats);
      AnyNewSnoc(achs, stats);
      var rest := NewlyEarned(init, stats);
      if Newly(achs[|achs| - 1], stats) {
        assert (rest + [achs[|achs| - 1]])[..|rest|] == rest;
      }
    }
  }

  /** Some entry is newly earned exactly when one before the last is, or the last is. */
  lemma AnyNewSnoc(achs: seq<Achievement>, stats: Stats)
    requires achs != []
    ensures AnyNew(achs, stats) <==> AnyNew(achs[..|achs| - 1], stats) || Newly(achs[|achs| - 1], stats)
  {
    var init := achs[..|achs| - 1];
    if AnyNew(achs, stats) && !Newly(achs[|achs| - 1], stats) {
      var i :| 0 <= i < |achs| && Newly(achs[i], stats);
      assert init[i] == achs[i];
    }
    if AnyNew(init, stats) {
      var i :| 0 <= i < |init| && Newly(init[i], stats);
      assert init[i] == achs[i];
    }
  }

  /** The entries of `achs` that a check earns, in order. */
  function NewlyEarned(achs: seq<Achievement>, stats: Stats): (r: seq<Achievement>)
    ensures forall a :: a in r <==> a in achs && Newly(a, stats)
  {
    if achs == [] then []
    else
      var init := achs[..|achs| - 1];
      var rest := NewlyEarned(init, stats);
      assert forall a :: a in achs <==> a in init || a == achs[|achs| - 1];
      if Newly(achs[|achs| - 1], stats) then rest + [achs[|achs| - 1]] else rest
  }

  /** The ids in the progress after a check are those before it plus the ids of the newly earned entries. */
  lemma {:induction false} ProgressedIds(p: UserProgress, achs: seq<Achievement>, stats: Stats)
    ensures forall x :: x in Progressed(p, achs, stats).achievements <==> x in p.achievements || NewlyEarnedId(achs, stats, x)
    ensures NoDup(p.achievements) ==> NoDup(Progressed(p, achs, stats).achievements)
  {
    if achs != [] {
      var init := achs[..|achs| - 1];
      var last := achs[|achs| - 1];
      ProgressedIds(p, init, stats);
      forall x ensures NewlyEarnedId(achs, stats, x) <==> NewlyEarnedId(init, stats, x) || (Newly(last, stats) && last.id == x) {
        if NewlyEarnedId(init, stats, x) {
          var i :| 0 <= i < |init| && Newly(init[i], stats) && init[i].id == x;
          assert achs[i] == init[i];
        }
        if NewlyEarnedId(achs, stats, x) {
          var i :| 0 <= i < |achs| && Newly(achs[i], stats) && achs[i].id == x;
          if i < |init| {
            assert init[i] == achs[i];
          }
        }
      }
    }
  }

  /**
   * The state the manager keeps: distinct ids, an entry earned exactly when
   * its id is in the progress, unearned entries undated, and the id set
   * without repeats.
   */
  predicate Consistent(achs: seq<Achievement>, p: UserProgress) {
    && DistinctIds(achs)
    && (forall i :: 0 <= i < |achs| ==> (achs[i].earned <==> achs[i].id in p.achievements))
    && (forall i :: 0 <= i < |achs| ==> !achs[i].earned ==> achs[i].earnedDate == None)
    && NoDup(p.achievements)
  }

  /** A check keeps the manager's state consistent. */
  lemma AwardKeepsConsistent(achs: seq<Achievement>, p: UserProgress, stats: Stats, now: int)
    requires Consistent(achs, p)
    ensures Consistent(AwardAll(achs, stats, now), Progressed(p, achs, stats))
    ensures Cleared(AwardAll(achs, stats, now)) == Cleared(achs)
  {
    ProgressedIds(p, achs, stats);
    var r := AwardAll(achs, stats, now);
    var q := Progressed(p, achs, stats);
    forall i | 0 <= i < |r| ensures r[i].earned <==> r[i].id in q.achievements {
      if NewlyEarnedId(achs, stats, achs[i].id) {
        var j :| 0 <= j < |achs| && Newly(achs[j], stats) && achs[j].id == achs[i].id;
        assert j == i;
      }
    }
  }

  /** A second check with the same statistics earns nothing and changes nothing. */
  lemma AwardIdempotent(achs: seq<Achievement>, p: UserProgress, stats: Stats, now: int, later: int)
    ensures !AnyNew(AwardAll(achs, stats, now), stats)
    ensures AwardAll(AwardAll(achs, stats, now), stats, later) == AwardAll(achs, stats, now)
    ensures Progressed(p, AwardAll(achs, stats, now), stats) == p
  {
    ProgressedPoints(p, AwardAll(achs, stats, now), stats);
  }

  /** What a check writes to storage: progress, the id list, and the date of each earned entry. */
  datatype SavedProgress = SavedProgress(totalPoints: int, level: int, achievements: seq<string>, earnedDates: map<string, Option<int>>)

  /** `earnedDates`: id to date for the earned entries; a later entry with the same id overwrites an earlier one. */
  function EarnedDates(achs: seq<Achievement>): map<string, Option<int>> {
    if achs == [] then map[]
    else
      var last := achs[|achs| - 1];
      var rest := EarnedDates(achs[..|achs| - 1]);
      if last.earned then rest[last.id := last.earnedDate] else rest
  }

  /** Some earned entry of `achs` has the id `k`. */
  predicate EarnedIdIn(achs: seq<Achievement>, k: string) {
    exists i :: 0 <= i < |achs| && achs[i].earned && achs[i].id == k
  }

  /** The saved dates have a key for exactly the earned ids. */
  lemma {:induction false} EarnedDatesKeys(achs: seq<Achievement>, k: string)
    ensures k in EarnedDates(achs) <==> EarnedIdIn(achs, k)
  {
    if achs != [] {
      var init := achs[..|achs| - 1];
      EarnedDatesKeys(init, k);
      if EarnedIdIn(init, k) {
        var i :| 0 <= i < |init| && init[i].earned && init[i].id == k;
        assert achs[i] == init[i];
      }
      if EarnedIdIn(achs, k) && !(achs[|achs| - 1].earned && achs[|achs| - 1].id == k) {
        var i :| 0 <= i < |achs| && achs[i].earned && achs[i].id == k;
        assert init[i] == achs[i];
      }
    }
  }

  lemma {:induction false} EarnedDateOf(achs: seq<Achievement>, i: nat)
    requires i < |achs| && DistinctIds(achs) && achs[i].earned
    ensures achs[i].id in EarnedDates(achs) && EarnedDates(achs)[achs[i].id] == achs[i].earnedDate
  {
    var init := achs[..|achs| - 1];
    if i < |init| {
      DistinctPrefix(achs);
      assert init[i] == achs[i];
      EarnedDateOf(init, i);
      assert achs[|achs| - 1].id != achs[i].id;
    }
  }

  lemma DistinctPrefix(achs: seq<Achievement>)
    requires achs != [] && DistinctIds(achs)
    ensures DistinctIds(achs[..|achs| - 1])
  {
    var init := achs[..|achs| - 1];
    forall a, b | 0 <= a < b < |init| ensures init[a].id != init[b].id {
      assert init[a] == achs[a] && init[b] == achs[b];
    }
  }

  /** `saveProgress`. */
  function Snapshot(achs: seq<Achievement>, p: UserProgress): SavedProgress {
    SavedProgress(p.totalPoints, p.level, p.achievements, EarnedDates(achs))
  }

  /** `earnedDates?.[id] || null`: a missing date reads as none. */
  function LoadedDate(sp: SavedProgress, id: string): Option<int> {
    if id in sp.earnedDates then sp.earnedDates[id] else None
  }

  function LoadedAchievement(a: Achievement, sp: SavedProgress): (r: Achievement)
    ensures SameEntry(r, a)
    ensures r.earned <==> a.earned || a.id in sp.achievements
  {
    if a.id in sp.achievements then a.(earned := true, earnedDate := LoadedDate(sp, a.id)) else a
  }

  /** Entries of `base` whose ids were saved become earned, with their saved dates. */
  function Overlay(base: seq<Achievement>, sp: SavedProgress): (r: seq<Achievement>)
    ensures |r| == |base|
  {
    seq(|base|, i requires 0 <= i < |base| => LoadedAchievement(base[i], sp))
  }

  /** The catalogue after `loadProgress`. */
  function LoadedAchievements(stored: Option<SavedProgress>): seq<Achievement> {
    match stored
    case None => Catalog()
    case Some(sp) => Overlay(Catalog(), sp)
  }

  /** The progress after `loadProgress`: points and level as saved, ids deduplicated by the set. */
  function LoadedProgress(stored: Option<SavedProgress>): UserProgress {
    match stored
    case None => UserProgress(0, 1, [])
    case Some(sp) => UserProgress(sp.totalPoints, sp.level, AddAll([], sp.achievements))
  }

  /** Whatever was stored, the loaded state is consistent and is the catalogue up to earned states. */
  lemma LoadConsistent(stored: Option<SavedProgress>)
    ensures Consistent(LoadedAchievements(stored), LoadedProgress(stored))
    ensures Cleared(LoadedAchievements(stored)) == Catalog()
  {
    CatalogFacts();
    var c := Catalog();
    if stored.Some? {
      var sp := stored.value;
      AddAllSpec([], sp.achievements);
      var r := Overlay(c, sp);
      assert forall i :: 0 <= i < |r| ==> r[i].id == c[i].id;
      assert DistinctIds(r);
      assert forall i :: 0 <= i < |r| ==> Cleared(r)[i] == Cleared(c)[i];
    }
  }

  /** Saving a consistent state and overlaying the save on the cleared entries gives it back. */
  lemma SaveLoadRoundTrip(achs: seq<Achievement>, p: UserProgress)
    requires Consistent(achs, p)
    ensures Overlay(Cleared(achs), Snapshot(achs, p)) == achs
    ensures LoadedProgress(Some(Snapshot(achs, p))) == p
  {
    var sp := Snapshot(achs, p);
    AddAllSpec([], p.achievements);
    assert [] + p.achievements == p.achievements;
    var loaded := Overlay(Cleared(achs), sp);
    forall i | 0 <= i < |achs| ensures loaded[i] == achs[i] {
      if achs[i].earned {
        EarnedDateOf(achs, i);
      }
    }
  }

  /** The entries that are earned, in order: `achievements.filter(a => a.earned)`. */
  function EarnedOnly(achs: seq<Achievement>): (r: seq<Achievement>)
    ensures forall a :: a in r <==> a in achs && a.earned
    ensures |r| <= |achs|
  {
    if achs == [] then []
    else
      var init := achs[..|achs| - 1];
      var rest := EarnedOnly(init);
      assert forall a :: a in achs <==> a in init || a == achs[|achs| - 1];
      if achs[|achs| - 1].earned then rest + [achs[|achs| - 1]] else rest
  }

  /**
   * `EarnedOnly` is the order-keeping filter: it keeps or drops each entry on
   * its own, and distributes over concatenation, so the earned entries come
   * out in catalog order.
   */
  lemma {:induction false} EarnedOnlyAppend(a: seq<Achievement>, b: seq<Achievement>)
    ensures EarnedOnly(a + b) == EarnedOnly(a) + EarnedOnly(b)
    ensures |b| == 1 ==> EarnedOnly(b) == if b[0].earned then b else []
    decreases |b|
  {
    if b == [] {
      assert a + b == a;
    } else {
      var init := b[..|b| - 1];
      assert (a + b)[..|a + b| - 1] == a + init;
      EarnedOnlyAppend(a, init);
      if |b| == 1 {
        assert init == [];
      }
    }
  }

  datatype Report = Report(earnedAchievements: seq<Achievement>, totalAchievements: nat, points: int, level: int)

  /** `Dedicated Reader`, `Speed Reader` and `Reading Streak` in terms of the items. */
  lemma SpeedReaderRule(items: seq<Item>, now: int, cal: Calendar)
    ensures Holds(Catalog()[5].condition, StatsOf(items, now, cal)) <==>
      exists i :: 0 <= i < |items| && IsTimedCompletion(items[i]) && items[i].timeSpent <= 1800
  {
    FastestCompletionSpec(items);
  }

  lemma StreakRule(items: seq<Item>, now: int, cal: Calendar)
    ensures Holds(Catalog()[1].condition, StatsOf(items, now, cal)) <==>
      Window(cal.dayOf(now), 5) <= SessionDays(items, cal)
  {
    var days := SessionDays(items, cal);
    var today := cal.dayOf(now);
    var k := Streak(days, today);
    StreakCharacterisation(days, today);
    if k >= 5 {
      assert Window(today, 5) <= Window(today, k);
    } else {
      assert today - k in Window(today, 5);
    }
  }

  lemma TimeRule(items: seq<Item>, now: int, cal: Calendar)
    ensures Holds(Catalog()[2].condition, StatsOf(items, now, cal)) <==> SumTime(items) >= 7200
  {
  }

  /** The fields of the manager that a check changes. */
  datatype ManagerState = ManagerState(achievements: seq<Achievement>, userProgress: UserProgress, storage: Option<SavedProgress>)

  /** `checkAchievements` with statistics `stats` at time `now`: the awards, the progress, and a save only if something was earned. */
  function AfterCheck(s: ManagerState, stats: Stats, now: int): (r: ManagerState)
    ensures |r.achievements| == |s.achievements|
    ensures r.userProgress.totalPoints >= s.userProgress.totalPoints
    ensures r.storage != s.storage ==> AnyNew(s.achievements, stats)
  {
    var achs := AwardAll(s.achievements, stats, now);
    var p := Progressed(s.userProgress, s.achievements, stats);
    ManagerState(achs, p, if AnyNew(s.achievements, stats) then Some(Snapshot(achs, p)) else s.storage)
  }

  /** Checking twice with the same statistics is the same as checking once. */
  lemma AfterCheckIdempotent(s: ManagerState, stats: Stats, now: int)
    ensures AfterCheck(AfterCheck(s, stats, now), stats, now) == AfterCheck(s, stats, now)
  {
    AwardIdempotent(s.achievements, s.userProgress, stats, now, now);
    var t := AfterCheck(s, stats, now);
    ProgressedPoints(t.userProgress, t.achievements, stats);
  }

  /** The achievement engine: the catalogue with earned flags, the progress, and the saved copy. */
  class AchievementManager {
    var achievements: seq<Achievement>
    var userProgress: UserProgress
    /** The `achievementProgress` entry of local storage. */
    var storage: Option<SavedProgress>

    ghost predicate Valid()
      reads this
    {
      Consistent(achievements, userProgress) && Cleared(achievements) == Catalog()
    }

    function State(): ManagerState
      reads this
    {
      ManagerState(achievements, userProgress, storage)
    }

    /** `new AchievementManager`: the catalogue, then whatever progress was stored. */
    constructor(stored: Option<SavedProgress>)
      ensures achievements == LoadedAchievements(stored)
      ensures userProgress == LoadedProgress(stored)
      ensures storage == stored
      ensures Valid()
    {
      achievements := Catalog();
      userProgress := UserProgress(0, 1, []);
      storage := stored;
      new;
      LoadProgress();
    }

    /** `loadProgress`: marks the stored ids as earned, one entry at a time. */
    method LoadProgress()
      requires achievements == Catalog() && userProgress == UserProgress(0, 1, [])
      modifies this
      ensures achievements == LoadedAchievements(storage)
      ensures userProgress == LoadedProgress(storage)
      ensures storage == old(storage)
      ensures Valid()
    {
      LoadConsistent(storage);
      match storage
      case None =>
      case Some(sp) =>
        userProgress := UserProgress(sp.totalPoints, sp.level, AddAll([], sp.achievements));
        OverlaySaved(sp);
    }

    /** The `forEach` of `loadProgress`: every entry whose id was saved is marked earned. */
    method OverlaySaved(sp: SavedProgress)
      modifies this
      ensures achievements == Overlay(old(achievements), sp)
      ensures userProgress == old(userProgress) && storage == old(storage)
    {
      ghost var base := achievements;
      for i := 0 to |achievements|
        invariant |achievements| == |base|
        invariant forall j :: 0 <= j < i ==> achievements[j] == LoadedAchievement(base[j], sp)
        invariant forall j :: i <= j < |base| ==> achievements[j] == base[j]
        invariant userProgress == old(userProgress) && storage == old(storage)
      {
        var a := achievements[i];
        if a.id in sp.achievements {
          achievements := achievements[i := a.(earned := true, earnedDate := LoadedDate(sp, a.id))];
        }
      }
    }

    /** `saveProgress`. */
    method SaveProgress()
      modifies this
      ensures storage == Some(Snapshot(achievements, userProgress))
      ensures achievements == old(achievements) && userProgress == old(userProgress)
    {
      storage := Some(Snapshot(achievements, userProgress));
    }

    /**
     * `checkAchievements`: computes the statistics of `items`, earns every
     * entry whose rule holds and that was not earned before, adding its points
     * and recomputing the level, and saves only if something was earned.
     */
    method CheckAchievements(items: seq<Item>, now: int, cal: Calendar)
      requires Valid()
      modifies this
      ensures Valid()
      ensures achievements == AwardAll(old(achievements), StatsOf(items, now, cal), now)
      ensures userProgress == Progressed(old(userProgress), old(achievements), StatsOf(items, now, cal))
      ensures storage == if AnyNew(old(achievements), StatsOf(items, now, cal))
                         then Some(Snapshot(achievements, userProgress))
                         else old(storage)
      ensures State() == AfterCheck(old(State()), StatsOf(items, now, cal), now)
    {
      var stats := CalculateStats(items, now, cal);
      AwardKeepsConsistent(achievements, userProgress, stats, now);
      var newAchievements := EarnNew(stats, now);
      if newAchievements {
        SaveProgress();
      }
    }

    /** The `forEach` of `checkAchievements`: earns, in order, each entry that is not yet earned and whose rule holds. */
    method EarnNew(stats: Stats, now: int) returns (newAchievements: bool)
      modifies this
      ensures achievements == AwardAll(old(achievements), stats, now)
      ensures userProgress == Progressed(old(userProgress), old(achievements), stats)
      ensures newAchievements <==> AnyNew(old(achievements), stats)
      ensures storage == old(storage)
    {
      ghost var before := achievements;
      ghost var start := userProgress;
      newAchievements := false;
      for i := 0 to |achievements|
        invariant |achievements| == |before|
        invariant forall j :: 0 <= j < i ==> achievements[j] == Award(before[j], stats, now)
        invariant forall j :: i <= j < |before| ==> achievements[j] == before[j]
        invariant userProgress == Progressed(start, before[..i], stats)
        invariant newAchievements <==> AnyNew(before[..i], stats)
        invariant storage == old(storage)
      {
        PrefixStep(start, before, i, stats);
        var earned := EarnAt(i, stats, now);
        if earned {
          newAchievements := true;
        }
      }
      assert before[..|before|] == before;
      assert achievements == AwardAll(before, stats, now);
    }

    /** The body of that `forEach` for the entry at `i`. */
    method EarnAt(i: nat, stats: Stats, now: int) returns (earned: bool)
      requires i < |achievements|
      modifies this
      ensures earned == Newly(old(achievements[i]), stats)
      ensures achievements == old(achievements)[i := Award(old(achievements[i]), stats, now)]
      ensures userProgress ==
        if earned then
          var total := old(userProgress).totalPoints + old(achievements[i]).points;
          UserProgress(total, total / 100 + 1, AddId(old(userProgress).achievements, old(achievements[i]).id))
        else old(userProgress)
      ensures storage == old(storage)
    {
      var a := achievements[i];
      earned := false;
      if !a.earned && Holds(a.condition, stats) {
        achievements := achievements[i := a.(earned := true, earnedDate := Some(now))];
        userProgress := userProgress.(
          achievements := AddId(userProgress.achievements, a.id),
          totalPoints := userProgress.totalPoints + a.points);
        UpdateLevel();
        earned := true;
      }
    }

    /** `updateLevel`: one level per 100 points, starting at 1. */
    method UpdateLevel()
      modifies this
      ensures userProgress == old(userProgress).(level := old(userProgress).totalPoints / 100 + 1)
      ensures achievements == old(achievements) && storage == old(storage)
    {
      userProgress := userProgress.(level := userProgress.totalPoints / 100 + 1);
    }

    /** `getProgress`. */
    function GetProgress(): (r: Report)
      reads this
      ensures forall a :: a in r.earnedAchievements <==> a in achievements && a.earned
      ensures r.totalAchievements == |achievements|
      ensures r.points == userProgress.totalPoints && r.level == userProgress.level
    {
      Report(EarnedOnly(achievements), |achievements|, userProgress.totalPoints, userProgress.level)
    }
  }
}
