/**
 * The aggregation body of the `GET /:userId` handler in
 * backend/src/routes/dashboard.js: the emotion histogram, the set of entry
 * days, the journaling streak, the seven daily activity buckets, the
 * habit completion rate and the stats block. The window's entries, the
 * per-habit completion counts, the user's habits and today's day number
 * are inputs; a calendar day is one integer, consecutive days differ by 1.
 */
module Dashboard {
  import opened Optional

  /** A journal entry of the 30-day window: the day it was written and its `ai_emotion`. */
  datatype Entry = Entry(day: int, emotion: Option<string>)

  /** `entry.ai_emotion` is truthy: present and not the empty string. */
  predicate HasEmotion(e: Entry) {
    e.emotion.Some? && e.emotion.value != ""
  }

  // ---------------------------------------------------------------------
  // emotionDistribution
  // ---------------------------------------------------------------------

  /** How many entries carry the emotion `emotion`. */
  function CountEmotion(entries: seq<Entry>, emotion: string): (n: nat)
    ensures n <= |entries|
  {
    if |entries| == 0 then 0
    else
      var last := entries[|entries| - 1];
      CountEmotion(entries[..|entries| - 1], emotion)
      + (if HasEmotion(last) && last.emotion.value == emotion then 1 else 0)
  }

  /** How many entries carry an emotion at all. */
  function CountWithEmotion(entries: seq<Entry>): (n: nat)
    ensures n <= |entries|
  {
    if |entries| == 0 then 0
    else CountWithEmotion(entries[..|entries| - 1]) + (if HasEmotion(entries[|entries| - 1]) then 1 else 0)
  }

  /** The histogram after visiting `entries` in order, one increment per entry with an emotion. */
  function Distribution(entries: seq<Entry>): map<string, nat> {
    if |entries| == 0 then map[]
    else
      var d := Distribution(entries[..|entries| - 1]);
      var last := entries[|entries| - 1];
      if HasEmotion(last) then
        var emotion := last.emotion.value;
        d[emotion := (if emotion in d then d[emotion] else 0) + 1]
      else d
  }

  /**
   * The keys are exactly the emotions some entry carries, each mapped to
   * the number of entries carrying it, so no key has count 0.
   */
  lemma {:induction false} DistributionCounts(entries: seq<Entry>)
    ensures forall emotion :: emotion in Distribution(entries) <==> CountEmotion(entries, emotion) > 0
    ensures forall emotion :: emotion in Distribution(entries) ==>
      Distribution(entries)[emotion] == CountEmotion(entries, emotion)
  {
    if |entries| > 0 {
      DistributionCounts(entries[..|entries| - 1]);
    }
  }

  /** One key of a non-empty map; `MapTotal` and its lemma agree on the choice. */
  ghost function SomeKey(m: map<string, nat>): (k: string)
    requires |m| > 0
    ensures k in m
  {
    var k :| k in m; k
  }

  /** The sum of the counts of a histogram. */
  ghost function MapTotal(m: map<string, nat>): nat
    decreases |m|
  {
    if |m| == 0 then 0
    else
      var k := SomeKey(m);
      m[k] + MapTotal(m - {k})
  }

  /** Any key may be taken out first. */
  lemma {:induction false} MapTotalRemove(m: map<string, nat>, k: string)
    requires k in m
    ensures MapTotal(m) == m[k] + MapTotal(m - {k})
    decreases |m|
  {
    var k' := SomeKey(m);
    if k' != k {
      MapTotalRemove(m - {k'}, k);
      MapTotalRemove(m - {k}, k');
      assert m - {k'} - {k} == m - {k} - {k'};
    }
  }

  /** Setting key `k` to `v` changes the total by the difference. */
  lemma MapTotalUpdate(m: map<string, nat>, k: string, v: nat)
    ensures MapTotal(m[k := v]) == MapTotal(m) - (if k in m then m[k] else 0) + v
  {
    var m' := m[k := v];
    MapTotalRemove(m', k);
    assert m' - {k} == m - {k};
    if k in m {
      MapTotalRemove(m, k);
    } else {
      assert m - {k} == m;
    }
  }

  /** The counts add up to the number of entries with an emotion. */
  lemma {:induction false} DistributionTotal(entries: seq<Entry>)
    ensures MapTotal(Distribution(entries)) == CountWithEmotion(entries)
  {
    if |entries| > 0 {
      var init := entries[..|entries| - 1];
      DistributionTotal(init);
      var last := entries[|entries| - 1];
      if HasEmotion(last) {
        var d, emotion := Distribution(init), last.emotion.value;
        MapTotalUpdate(d, emotion, (if emotion in d then d[emotion] else 0) + 1);
      }
    }
  }

  /** The histogram loop of the handler. */
  method EmotionDistribution(allEntries: seq<Entry>) returns (emotionDistribution: map<string, nat>)
    ensures emotionDistribution == Distribution(allEntries)
  {
    emotionDistribution := map[];
    for i := 0 to |allEntries|
      invariant emotionDistribution == Distribution(allEntries[..i])
    {
      var entry := allEntries[i];
      if HasEmotion(entry) {
        var emotion := entry.emotion.value;
        emotionDistribution := emotionDistribution[emotion :=
          (if emotion in emotionDistribution then emotionDistribution[emotion] else 0) + 1];
      }
      assert allEntries[..i + 1][..i] == allEntries[..i];
    }
    assert allEntries[..|allEntries|] == allEntries;
  }

  // ---------------------------------------------------------------------
  // uniqueDates
  // ---------------------------------------------------------------------

  /** The days on which some entry was written. */
  function EntryDays(entries: seq<Entry>): set<int> {
    set e | e in entries :: e.day
  }

  /** There are no more entry days than entries. */
  lemma {:induction false} EntryDaysBound(entries: seq<Entry>)
    ensures |EntryDays(entries)| <= |entries|
  {
    if |entries| > 0 {
      var init := entries[..|entries| - 1];
      var last := entries[|entries| - 1];
      EntryDaysBound(init);
      assert entries == init + [last];
      assert EntryDays(entries) == EntryDays(init) + {last.day};
    }
  }

  /** The loop that fills the `uniqueDates` set. */
  method UniqueDates(entries: seq<Entry>) returns (uniqueDates: set<int>)
    ensures uniqueDates == EntryDays(entries)
  {
    uniqueDates := {};
    for i := 0 to |entries|
      invariant uniqueDates == EntryDays(entries[..i])
    {
      uniqueDates := uniqueDates + {entries[i].day};
      assert entries[..i + 1] == entries[..i] + [entries[i]];
    }
    assert entries[..|entries|] == entries;
  }

  // ---------------------------------------------------------------------
  // currentStreak
  // ---------------------------------------------------------------------

  /** Every day from `lo` to `hi` (both included) is in `dates`. */
  predicate AllIn(dates: set<int>, lo: int, hi: int) {
    forall e :: lo <= e <= hi ==> e in dates
  }

  /** How many consecutive days `d, d - 1, d - 2, …` are in `dates`. */
  function RunFrom(dates: set<int>, d: int): (r: nat)
    ensures r <= |dates|
    decreases |dates|
  {
    if d in dates then 1 + RunFrom(dates - {d}, d - 1) else 0
  }

  /** The run from `d` covers the days `d - r + 1 .. d` and stops at the missing day `d - r`. */
  lemma {:induction false} RunFromIsRun(dates: set<int>, d: int)
    ensures AllIn(dates, d - RunFrom(dates, d) + 1, d)
    ensures d - RunFrom(dates, d) !in dates
    decreases |dates|
  {
    if d in dates {
      RunFromIsRun(dates - {d}, d - 1);
      forall e | d - RunFrom(dates, d) + 1 <= e <= d ensures e in dates {
        if e != d {
          assert e in dates - {d};
        }
      }
    }
  }

  /** A run of `k` present days followed by a missing one has length `k`. */
  lemma RunFromExact(dates: set<int>, d: int, k: nat)
    requires AllIn(dates, d - k + 1, d)
    requires d - k !in dates
    ensures RunFrom(dates, d) == k
  {
    RunFromIsRun(dates, d);
  }

  /** `k` consecutive present days make a run of at least `k`. */
  lemma RunFromAtLeast(dates: set<int>, d: int, k: nat)
    requires AllIn(dates, d - k + 1, d)
    ensures RunFrom(dates, d) >= k
  {
    RunFromIsRun(dates, d);
  }

  function Min(a: int, b: int): int {
    if a <= b then a else b
  }

  /**
   * The streak the handler's loop computes, as written: the run ending
   * today when today has an entry; otherwise, when yesterday has one, the
   * loop counts yesterday at `i = 0` and again at `i = 1`, so the result is
   * one more than the run ending yesterday, capped at the number of
   * distinct days; otherwise 0.
   */
  function StreakOf(dates: set<int>, today: int): (streak: nat)
    ensures streak <= |dates|
  {
    if today in dates then RunFrom(dates, today)
    else if today - 1 in dates then 1 + Min(RunFrom(dates, today - 1), |dates| - 1)
    else 0
  }

  /** The last day the loop has counted after `i` iterations: today, or yesterday when today is missing. */
  function CountedUpTo(dates: set<int>, today: int): int {
    if today in dates then today else today - 1
  }

  /** The loop's state when it stops at day `today - i`. */
  lemma StreakStops(dates: set<int>, today: int, i: nat)
    requires i < |dates|
    requires AllIn(dates, today - i + 1, CountedUpTo(dates, today))
    requires i > 0 ==> today in dates || today - 1 in dates
    requires today - i !in dates
    requires i == 0 ==> today - 1 !in dates
    ensures StreakOf(dates, today) == i
  {
    if today in dates {
      RunFromExact(dates, today, i);
    } else if i > 0 {
      RunFromExact(dates, today - 1, i - 1);
    }
  }

  /** The loop's state when it runs through all `|dates|` iterations. */
  lemma StreakRunsOut(dates: set<int>, today: int)
    requires AllIn(dates, today - |dates| + 1, CountedUpTo(dates, today))
    requires |dates| > 0 ==> today in dates || today - 1 in dates
    ensures StreakOf(dates, today) == |dates|
  {
    if today in dates {
      RunFromAtLeast(dates, today, |dates|);
    } else if today - 1 in dates {
      RunFromAtLeast(dates, today - 1, |dates| - 1);
    }
  }

  /**
   * The streak loop as written: `i` runs over `0 .. sortedDates.length - 1`
   * (`sortedDates` holds the distinct entry days); a present day
   * `today - i` adds one, a missing today falls back to yesterday by
   * setting the streak to 1 and continuing, any other missing day stops.
   */
  method CurrentStreak(uniqueDates: set<int>, today: int) returns (currentStreak: nat)
    ensures currentStreak == StreakOf(uniqueDates, today)
  {
    var n := |uniqueDates|;
    currentStreak := 0;
    var i := 0;
    while i < n
      invariant 0 <= i <= n
      invariant currentStreak == i
      invariant i > 0 ==> today in uniqueDates || today - 1 in uniqueDates
      invariant AllIn(uniqueDates, today - i + 1, CountedUpTo(uniqueDates, today))
    {
      var expectedDate := today - i;
      if expectedDate in uniqueDates {
        currentStreak := currentStreak + 1;
      } else if i == 0 {
        var yesterday := today - 1;
        if yesterday in uniqueDates {
          currentStreak := 1;
          i := i + 1;
          continue;
        }
        StreakStops(uniqueDates, today, i);
        break;
      } else {
        StreakStops(uniqueDates, today, i);
        break;
      }
      i := i + 1;
    }
    if i == n {
      StreakRunsOut(uniqueDates, today);
    }
  }

  /** The streak is 0 exactly when neither today nor yesterday has an entry. */
  lemma StreakZeroIff(dates: set<int>, today: int)
    ensures StreakOf(dates, today) == 0 <==> today !in dates && today - 1 !in dates
  {
    if today in dates {
      RunFromAtLeast(dates, today, 1);
    }
  }

  /**
   * When today has an entry, the streak is the length of the run of
   * consecutive entry days ending today: all of them present, the day
   * before the run missing.
   */
  lemma StreakFromToday(dates: set<int>, today: int)
    requires today in dates
    ensures var streak := StreakOf(dates, today);
      streak >= 1 && AllIn(dates, today - streak + 1, today) && today - streak !in dates
  {
    RunFromIsRun(dates, today);
    RunFromAtLeast(dates, today, 1);
  }

  /**
   * Without an entry today, the run ending yesterday is counted one day too
   * many whenever some entry day lies outside it: a streak of `k` stands for
   * only `k - 1` consecutive entry days ending yesterday.
   */
  lemma YesterdayCountedTwice(dates: set<int>, today: int)
    requires today !in dates && today - 1 in dates
    requires RunFrom(dates, today - 1) < |dates|
    ensures var streak := StreakOf(dates, today);
      streak == RunFrom(dates, today - 1) + 1
      && AllIn(dates, today - streak + 1, today - 1) && today - streak !in dates
  {
    RunFromIsRun(dates, today - 1);
  }

  /**
   * Without an entry today, when the run ending yesterday holds every entry
   * day, the loop runs out of rounds and the streak equals that run.
   */
  lemma YesterdayRunHoldsAllDays(dates: set<int>, today: int)
    requires today !in dates && today - 1 in dates
    requires RunFrom(dates, today - 1) == |dates|
    ensures StreakOf(dates, today) == RunFrom(dates, today - 1)
    ensures AllIn(dates, today - StreakOf(dates, today), today - 1)
  {
    RunFromIsRun(dates, today - 1);
  }

  /** Entries only yesterday give a streak of 1. */
  lemma StreakOnlyYesterday(today: int)
    ensures StreakOf({today - 1}, today) == 1
  {
    assert RunFrom({today - 1} - {today - 1}, today - 2) == 0;
  }

  /** Entries today and yesterday give a streak of 2. */
  lemma StreakTodayAndYesterday(today: int)
    ensures StreakOf({today, today - 1}, today) == 2
  {
    RunFromExact({today, today - 1}, today, 2);
  }

  /** Entries yesterday, two days ago and ten days ago give 3: yesterday is counted twice. */
  lemma StreakYesterdayExample(today: int)
    ensures StreakOf({today - 1, today - 2, today - 10}, today) == 3
  {
    var dates := {today - 1, today - 2, today - 10};
    assert |dates| == 3;
    RunFromExact(dates, today - 1, 2);
  }

  // ---------------------------------------------------------------------
  // weeklyActivity
  // ---------------------------------------------------------------------

  /** One bucket of `weeklyActivity` (the `dayName` field is not modelled). */
  datatype DayActivity = DayActivity(date: int, entryCount: nat)

  /** `allEntries.filter(entry => entry's day === day)`. */
  function EntriesOn(entries: seq<Entry>, day: int): (onDay: seq<Entry>)
    ensures |onDay| <= |entries|
  {
    if |entries| == 0 then []
    else (if entries[0].day == day then [entries[0]] else []) + EntriesOn(entries[1..], day)
  }

  /** The filter keeps exactly the entries of that day. */
  lemma {:induction false} EntriesOnKeepsDay(entries: seq<Entry>, day: int)
    ensures forall e :: e in EntriesOn(entries, day) <==> e in entries && e.day == day
  {
    if |entries| > 0 {
      EntriesOnKeepsDay(entries[1..], day);
      assert forall e :: e in entries <==> e == entries[0] || e in entries[1..];
    }
  }

  /** The seven buckets from `today - 6` up to `today`. */
  function Week(entries: seq<Entry>, today: int): (week: seq<DayActivity>)
    ensures |week| == 7
  {
    seq(7, k requires 0 <= k < 7 => DayActivity(today - 6 + k, |EntriesOn(entries, today - 6 + k)|))
  }

  /** The countdown loop that pushes one bucket per day. */
  method WeeklyActivity(allEntries: seq<Entry>, today: int) returns (weeklyActivity: seq<DayActivity>)
    ensures weeklyActivity == Week(allEntries, today)
  {
    weeklyActivity := [];
    var i := 6;
    while i >= 0
      invariant -1 <= i <= 6
      invariant |weeklyActivity| == 6 - i
      invariant forall k :: 0 <= k < 6 - i ==> weeklyActivity[k] == Week(allEntries, today)[k]
    {
      var dateStr := today - i;
      var entriesOnDay := EntriesOn(allEntries, dateStr);
      weeklyActivity := weeklyActivity + [DayActivity(dateStr, |entriesOnDay|)];
      i := i - 1;
    }
  }

  /** The sum of the bucket counts. */
  function TotalCount(week: seq<DayActivity>): nat {
    if |week| == 0 then 0 else TotalCount(week[..|week| - 1]) + week[|week| - 1].entryCount
  }

  /** How many entries fall in the `w` days `lo .. lo + w - 1`. */
  function CountInWindow(entries: seq<Entry>, lo: int, w: nat): (n: nat)
    ensures n <= |entries|
  {
    if |entries| == 0 then 0
    else (if lo <= entries[0].day < lo + w then 1 else 0) + CountInWindow(entries[1..], lo, w)
  }

  /** The bucket counts of the days `lo .. lo + w - 1`, added up. */
  function SumWindow(entries: seq<Entry>, lo: int, w: nat): nat {
    if w == 0 then 0 else SumWindow(entries, lo, w - 1) + |EntriesOn(entries, lo + w - 1)|
  }

  /** An entry in front adds one to its own day's filter and nothing to the others. */
  lemma EntriesOnCons(e: Entry, rest: seq<Entry>, day: int)
    ensures |EntriesOn([e] + rest, day)| == (if e.day == day then 1 else 0) + |EntriesOn(rest, day)|
  {
    assert ([e] + rest)[0] == e;
    assert ([e] + rest)[1..] == rest;
  }

  /** An entry adds one to the window sum when its day lies in the window, and nothing otherwise. */
  lemma {:induction false} SumWindowCons(e: Entry, rest: seq<Entry>, lo: int, w: nat)
    ensures SumWindow([e] + rest, lo, w) == (if lo <= e.day < lo + w then 1 else 0) + SumWindow(rest, lo, w)
  {
    if w > 0 {
      var a := [e] + rest;
      SumWindowCons(e, rest, lo, w - 1);
      EntriesOnCons(e, rest, lo + w - 1);
      assert SumWindow(a, lo, w) == SumWindow(a, lo, w - 1) + |EntriesOn(a, lo + w - 1)|;
      assert SumWindow(rest, lo, w) == SumWindow(rest, lo, w - 1) + |EntriesOn(rest, lo + w - 1)|;
    }
  }

  /** Distinct days fall in distinct buckets: the window sum counts each entry of the window once. */
  lemma {:induction false} SumWindowCountsEntries(entries: seq<Entry>, lo: int, w: nat)
    ensures SumWindow(entries, lo, w) == CountInWindow(entries, lo, w)
    decreases |entries|, w
  {
    if |entries| == 0 {
      if w > 0 {
        SumWindowCountsEntries(entries, lo, w - 1);
      }
    } else {
      SumWindowCountsEntries(entries[1..], lo, w);
      SumWindowCons(entries[0], entries[1..], lo, w);
      assert [entries[0]] + entries[1..] == entries;
    }
  }

  lemma {:induction false} TotalCountOfWeek(entries: seq<Entry>, today: int, k: nat)
    requires k <= 7
    ensures TotalCount(Week(entries, today)[..k]) == SumWindow(entries, today - 6, k)
  {
    if k > 0 {
      TotalCountOfWeek(entries, today, k - 1);
      assert Week(entries, today)[..k][..k - 1] == Week(entries, today)[..k - 1];
    }
  }

  /** The filter for one day keeps as many entries as carry that day. */
  lemma EntriesOnCount(entries: seq<Entry>, d: int)
    ensures |EntriesOn(entries, d)| == CountInWindow(entries, d, 1)
  {
    SumWindowCountsEntries(entries, d, 1);
  }

  /** Each bucket counts the entries of its day; together they count at most every entry once. */
  lemma WeekCounts(entries: seq<Entry>, today: int)
    ensures forall k :: 0 <= k < 7 ==>
      Week(entries, today)[k].date == today - 6 + k
      && Week(entries, today)[k].entryCount == |EntriesOn(entries, today - 6 + k)|
      && Week(entries, today)[k].entryCount == CountInWindow(entries, today - 6 + k, 1)
    ensures TotalCount(Week(entries, today)) == CountInWindow(entries, today - 6, 7)
    ensures TotalCount(Week(entries, today)) <= |entries|
  {
    forall k | 0 <= k < 7
      ensures Week(entries, today)[k].entryCount == CountInWindow(entries, today - 6 + k, 1)
    {
      EntriesOnCount(entries, today - 6 + k);
    }
    TotalCountOfWeek(entries, today, 7);
    assert Week(entries, today)[..7] == Week(entries, today);
    SumWindowCountsEntries(entries, today - 6, 7);
  }

  // ---------------------------------------------------------------------
  // habitCompletionRate
  // ---------------------------------------------------------------------

  function Sum(counts: seq<nat>): nat {
    if |counts| == 0 then 0 else Sum(counts[..|counts| - 1]) + counts[|counts| - 1]
  }

  /**
   * The mean `completion_count` over the habit rows, or 0 with no rows: the
   * rate times the number of rows is the total count.
   */
  function CompletionRate(habitCompletions: seq<nat>): (rate: real)
    ensures |habitCompletions| == 0 ==> rate == 0.0
    ensures |habitCompletions| > 0 ==> rate * |habitCompletions| as real == Sum(habitCompletions) as real
    ensures rate >= 0.0
  {
    if |habitCompletions| > 0 then Sum(habitCompletions) as real / |habitCompletions| as real else 0.0
  }

  lemma {:induction false} SumBounded(counts: seq<nat>, bound: nat)
    requires forall i :: 0 <= i < |counts| ==> counts[i] <= bound
    ensures Sum(counts) <= |counts| * bound
  {
    if |counts| > 0 {
      SumBounded(counts[..|counts| - 1], bound);
    }
  }

  /** No habit completed more than `bound` times gives a rate of at most `bound`. */
  lemma CompletionRateBounded(habitCompletions: seq<nat>, bound: nat)
    requires forall i :: 0 <= i < |habitCompletions| ==> habitCompletions[i] <= bound
    ensures CompletionRate(habitCompletions) <= bound as real
  {
    SumBounded(habitCompletions, bound);
    if |habitCompletions| > 0 {
      var n := |habitCompletions| as real;
      var rate := CompletionRate(habitCompletions);
      assert rate * n <= bound as real * n;
    }
  }

  // ---------------------------------------------------------------------
  // The dashboard response
  // ---------------------------------------------------------------------

  datatype Stats = Stats(totalEntries: nat, totalHabits: nat, currentStreak: nat, habitCompletionRate: real)

  datatype DashboardData = DashboardData(
    stats: Stats,
    emotionDistribution: map<string, nat>,
    habitCompletions: seq<nat>,
    weeklyActivity: seq<DayActivity>)

  /**
   * Lines 30-107 of the handler: `allEntries` are the window's entries,
   * `habitCompletions` the per-habit completion counts, `allHabits` all
   * the user's habits, `today` today's day number.
   */
  method BuildDashboard<H>(allEntries: seq<Entry>, habitCompletions: seq<nat>, allHabits: seq<H>, today: int)
    returns (data: DashboardData)
    ensures data.stats.totalEntries == |allEntries|
    ensures data.stats.totalHabits == |allHabits|
    ensures data.emotionDistribution == Distribution(allEntries)
    ensures data.stats.currentStreak == StreakOf(EntryDays(allEntries), today)
    ensures data.stats.currentStreak <= |allEntries|
    ensures data.weeklyActivity == Week(allEntries, today)
    ensures TotalCount(data.weeklyActivity) <= data.stats.totalEntries
    ensures data.stats.habitCompletionRate == CompletionRate(habitCompletions)
    ensures data.habitCompletions == habitCompletions
  {
    var totalHabits := |allHabits|;
    var emotionDistribution := EmotionDistribution(allEntries);
    var uniqueDates := UniqueDates(allEntries);
    var currentStreak := CurrentStreak(uniqueDates, today);
    EntryDaysBound(allEntries);
    var weeklyActivity := WeeklyActivity(allEntries, today);
    WeekCounts(allEntries, today);
    var habitCompletionRate := CompletionRate(habitCompletions);
    data := DashboardData(
      Stats(|allEntries|, totalHabits, currentStreak, habitCompletionRate),
      emotionDistribution, habitCompletions, weeklyActivity);
  }
}
