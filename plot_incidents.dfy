/**
 * The data behind the two charts of scripts/plot_incidents.py: the
 * day-by-day streak series with its highlighted best streak, and the
 * number of incidents per month with the worst months highlighted.
 * Drawing (matplotlib) is not modelled; each chart is the values it plots.
 */
module PlotIncidents {
  import opened Incidents

  /** Python's `min` of a non-empty list. */
  function MinOf(s: seq<int>): (m: int)
    requires |s| > 0
    ensures m in s
    ensures forall i :: 0 <= i < |s| ==> m <= s[i]
  {
    if |s| == 1 then s[0]
    else
      var rest := MinOf(s[1..]);
      assert forall i :: 1 <= i < |s| ==> s[i] == s[1..][i - 1];
      if s[0] <= rest then s[0] else rest
  }

  /** Python's `max` of a non-empty list. */
  function MaxOf(s: seq<int>): (m: int)
    requires |s| > 0
    ensures m in s
    ensures forall i :: 0 <= i < |s| ==> s[i] <= m
  {
    if |s| == 1 then s[0]
    else
      var rest := MaxOf(s[1..]);
      assert forall i :: 1 <= i < |s| ==> s[i] == s[1..][i - 1];
      if rest <= s[0] then s[0] else rest
  }

  // ---------------------------------------------------------------------
  // The streak series of plot_streak_over_time
  // ---------------------------------------------------------------------

  /**
   * The most recent incident day on or before `day`, counting `start` (the
   * first incident day) as one: the value of `last_incident` once the loop
   * has reached `day`.
   */
  function LastOnOrBefore(incidentDays: set<int>, start: int, day: int): (d: int)
    decreases day - start
    ensures day >= start ==> start <= d <= day
    ensures d == start || d in incidentDays
  {
    if day <= start then start
    else if day in incidentDays then day
    else LastOnOrBefore(incidentDays, start, day - 1)
  }

  /** The incident days as a set (`incident_set`). */
  function DaySet(dates: seq<int>): set<int>
  {
    set d | d in dates
  }

  /** No incident falls after the day LastOnOrBefore picks and on or before `day`. */
  lemma {:induction false} LastOnOrBeforeIsLatest(incidentDays: set<int>, start: int, day: int, x: int)
    requires LastOnOrBefore(incidentDays, start, day) < x <= day
    ensures x !in incidentDays
    decreases day - start
  {
    if day > start && day !in incidentDays && x < day {
      LastOnOrBeforeIsLatest(incidentDays, start, day - 1, x);
    }
  }

  /** Days without an incident on `day`: 0 on an incident day, else days since the last one. */
  function StreakOn(incidentDays: set<int>, start: int, day: int): int
  {
    day - LastOnOrBefore(incidentDays, start, day)
  }

  /** The streak is 0 exactly on incident days. */
  lemma StreakZeroIffIncident(incidentDays: set<int>, start: int, day: int)
    requires start in incidentDays && day >= start
    ensures StreakOn(incidentDays, start, day) == 0 <==> day in incidentDays
  {
  }

  /** On a day without an incident the streak is one more than the day before. */
  lemma StreakStep(incidentDays: set<int>, start: int, day: int)
    requires day > start && day !in incidentDays
    ensures StreakOn(incidentDays, start, day) == StreakOn(incidentDays, start, day - 1) + 1
  {
  }

  /** Day `i` of the series, counted from `firstDay`, holds that day's streak. */
  predicate IsStreakSeries(dates: seq<int>, firstDay: int, streak: seq<int>)
  {
    forall i :: 0 <= i < |streak| ==> streak[i] == StreakOn(DaySet(dates), firstDay, firstDay + i)
  }

  /** The loop of plot_streak_over_time: one streak value per day from the first incident to today. */
  method StreakSeries(dates: seq<int>, today: int) returns (streak: seq<int>)
    requires |dates| > 0
    ensures |streak| == Max(0, today - MinOf(dates) + 1)
    ensures IsStreakSeries(dates, MinOf(dates), streak)
  {
    var start := MinOf(dates);
    var days := today - start + 1;
    var incidentSet := DaySet(dates);
    var lastIncident := start;
    streak := [];
    var i := 0;
    while i < days
      invariant 0 <= i && (days <= 0 ==> i == 0) && (days > 0 ==> i <= days)
      invariant |streak| == i
      invariant lastIncident == LastOnOrBefore(incidentSet, start, start + i - 1)
      invariant forall k :: 0 <= k < i ==> streak[k] == StreakOn(incidentSet, start, start + k)
    {
      var day := start + i;
      if day in incidentSet {
        lastIncident := day;
        streak := streak + [0];
      } else {
        streak := streak + [day - lastIncident];
      }
      i := i + 1;
    }
  }

  /** The indices `k..` of `s` holding `v`, in order (`best_indices`). */
  function IndicesFrom(s: seq<int>, v: int, k: nat): (r: seq<nat>)
    requires k <= |s|
    decreases |s| - k
    ensures forall j :: 0 <= j < |r| ==> k <= r[j] < |s| && s[r[j]] == v
    ensures forall i :: k <= i < |s| && s[i] == v ==> i in r
    ensures forall j, j' :: 0 <= j < j' < |r| ==> r[j] < r[j']
  {
    if k == |s| then []
    else if s[k] == v then [k] + IndicesFrom(s, v, k + 1)
    else IndicesFrom(s, v, k + 1)
  }

  /** Across `lo..hi` the streak rises by exactly one each day. */
  predicate Rising(streak: seq<int>, lo: nat, hi: nat)
    requires lo <= hi < |streak|
  {
    forall k :: lo <= k < hi ==> RisesAfter(streak, k)
  }

  /** The streak on day `k + 1` is one more than on day `k`. */
  predicate RisesAfter(streak: seq<int>, k: nat)
    requires k + 1 < |streak|
  {
    streak[k + 1] == streak[k] + 1
  }

  /** `lo` is where the run of one-day rises ending at `hi` begins. */
  predicate RiseStartOf(streak: seq<int>, lo: nat, hi: nat)
  {
    lo <= hi < |streak| && Rising(streak, lo, hi) && (lo == 0 || streak[lo - 1] != streak[lo] - 1)
  }

  /** The inner `while` of the best-streak search: walk back while the streak falls by one. */
  method RiseStart(streak: seq<int>, idx: nat) returns (startIdx: nat)
    requires idx < |streak|
    ensures RiseStartOf(streak, startIdx, idx)
  {
    startIdx := idx;
    while startIdx > 0 && streak[startIdx - 1] == streak[startIdx] - 1
      invariant startIdx <= idx
      invariant Rising(streak, startIdx, idx)
    {
      startIdx := startIdx - 1;
    }
  }

  /**
   * The range the chart highlights: it ends on the first day holding the
   * maximum and starts where the one-day rises leading to it begin.
   */
  predicate IsBestRange(streak: seq<int>, bestStart: nat, bestEnd: nat)
  {
    && RiseStartOf(streak, bestStart, bestEnd)
    && streak[bestEnd] == MaxOf(streak)
    && forall i :: 0 <= i < bestEnd ==> streak[i] < streak[bestEnd]
  }

  /**
   * The best-streak search: the peak is the first day holding the maximum,
   * and the range reaches back from it while the streak keeps falling by one.
   */
  method BestStreak(streak: seq<int>) returns (maxStreak: int, bestStart: nat, bestEnd: nat)
    requires |streak| > 0
    ensures maxStreak == MaxOf(streak)
    ensures IsBestRange(streak, bestStart, bestEnd)
  {
    maxStreak := MaxOf(streak);
    var bestIndices := IndicesFrom(streak, maxStreak, 0);
    var starts: seq<nat> := [];
    for g := 0 to |bestIndices|
      invariant |starts| == g
      invariant forall j :: 0 <= j < g ==> RiseStartOf(streak, starts[j], bestIndices[j])
    {
      var startIdx := RiseStart(streak, bestIndices[g]);
      starts := starts + [startIdx];
    }
    // best_indices holds every index of the maximum, so at least one; the
    // (-1, -1) fallback of the source is never taken.
    assert maxStreak in streak;
    assert |bestIndices| > 0;
    bestStart, bestEnd := starts[0], bestIndices[0];
  }

  /** Bar `i` is green iff it lies in the best range and the best streak is positive. */
  predicate IsHighlight(highlight: seq<bool>, bestStart: int, bestEnd: int, maxStreak: int)
  {
    forall i :: 0 <= i < |highlight| ==> (highlight[i] <==> bestStart <= i <= bestEnd && maxStreak > 0)
  }

  /** The colour loop: a bar is highlighted iff it lies in the best range and that streak is positive. */
  method Highlight(n: nat, bestStart: int, bestEnd: int, maxStreak: int) returns (highlight: seq<bool>)
    ensures |highlight| == n
    ensures IsHighlight(highlight, bestStart, bestEnd, maxStreak)
  {
    highlight := [];
    for i := 0 to n
      invariant |highlight| == i
      invariant forall k :: 0 <= k < i ==> (highlight[k] <==> bestStart <= k <= bestEnd && maxStreak > 0)
    {
      highlight := highlight + [bestStart <= i <= bestEnd && maxStreak > 0];
    }
  }

  /**
   * Over a streak series the best range starts on an incident day (streak
   * 0), so its length is the record: it runs from the last incident before
   * the record streak up to the day it peaked.
   */
  lemma {:induction false} BestRangeStartsAtIncident(dates: seq<int>, streak: seq<int>, bestStart: nat, bestEnd: nat)
    requires |dates| > 0
    requires IsStreakSeries(dates, MinOf(dates), streak)
    requires RiseStartOf(streak, bestStart, bestEnd)
    ensures streak[bestStart] == 0
    ensures streak[bestEnd] == bestEnd - bestStart
  {
    var incidentDays := DaySet(dates);
    var start := MinOf(dates);
    var day := start + bestStart;
    if day !in incidentDays && bestStart > 0 {
      // The day before would then be one lower, so the range would reach back further.
      StreakStep(incidentDays, start, day);
    }
    StreakZeroIffIncident(incidentDays, start, day);
    RisingSpan(streak, bestStart, bestEnd);
  }

  lemma {:induction false} RisingSpan(streak: seq<int>, lo: nat, hi: nat)
    requires lo <= hi < |streak| && Rising(streak, lo, hi)
    ensures streak[hi] == streak[lo] + (hi - lo)
    decreases hi - lo
  {
    if lo < hi {
      RisingSpan(streak, lo, hi - 1);
      assert RisesAfter(streak, hi - 1);
    }
  }

  /** What plot_streak_over_time draws, or why it draws nothing. */
  datatype StreakChart =
    | NoIncidents                     // "No incidents to plot."
    | StreakDateError(badDate: string) // strptime raises ValueError
    | NoDays                           // today is before the first incident: max() of an empty list raises
    | StreakBars(firstDay: int, streak: seq<int>, bestStart: nat, bestEnd: nat, highlight: seq<bool>)

  method PlotStreakOverTime(incidents: seq<Incident>, parse: Parser, today: int) returns (chart: StreakChart)
    ensures chart.NoIncidents? <==> |incidents| == 0
    ensures chart.StreakDateError? <==> |incidents| > 0 && ParseAll(parse, Dates(incidents)).Err?
    ensures chart.StreakDateError? ==> chart.badDate == ParseAll(parse, Dates(incidents)).badDate
    ensures chart.NoDays? <==> |incidents| > 0 && ParseAll(parse, Dates(incidents)).Ok?
                               && today < MinOf(ParseAll(parse, Dates(incidents)).value)
    ensures chart.StreakBars? ==>
              var dates := ParseAll(parse, Dates(incidents)).value;
              && |dates| > 0
              && chart.firstDay == MinOf(dates)
              && |chart.streak| == today - chart.firstDay + 1
              && IsStreakSeries(dates, chart.firstDay, chart.streak)
              && IsBestRange(chart.streak, chart.bestStart, chart.bestEnd)
              && chart.streak[chart.bestStart] == 0
              && |chart.highlight| == |chart.streak|
              && IsHighlight(chart.highlight, chart.bestStart, chart.bestEnd, MaxOf(chart.streak))
  {
    if |incidents| == 0 {
      return NoIncidents;
    }
    var parsed := ParseAll(parse, Dates(incidents));
    if parsed.Err? {
      return StreakDateError(parsed.badDate);
    }
    var dates := parsed.value;
    var streak := StreakSeries(dates, today);
    if |streak| == 0 {
      return NoDays;
    }
    var maxStreak, bestStart, bestEnd := BestStreak(streak);
    BestRangeStartsAtIncident(dates, streak, bestStart, bestEnd);
    var highlight := Highlight(|streak|, bestStart, bestEnd, maxStreak);
    chart := StreakBars(MinOf(dates), streak, bestStart, bestEnd, highlight);
  }

  // ---------------------------------------------------------------------
  // The monthly counts of plot_incident_timeline
  // ---------------------------------------------------------------------

  /** The counts of a tally added up. */
  function SumCounts(bars: seq<(string, nat)>): nat
  {
    if bars == [] then 0 else bars[0].1 + SumCounts(bars[1..])
  }

  /** Each month at most once, in increasing order. */
  predicate KeysIncreasing(bars: seq<(string, nat)>)
  {
    forall k, k' :: 0 <= k < k' < |bars| ==> StrLt(bars[k].0, bars[k'].0)
  }

  /** Each bar's count is how often its month occurs, so at least 1. */
  predicate CountsOccurrences(months: seq<string>, bars: seq<(string, nat)>)
  {
    forall k :: 0 <= k < |bars| ==> bars[k].1 == multiset(months)[bars[k].0] && bars[k].1 >= 1
  }

  /** The months of the bars, in order (`sorted_months`). */
  function Keys(bars: seq<(string, nat)>): (keys: seq<string>)
    ensures |keys| == |bars| && forall k :: 0 <= k < |bars| ==> keys[k] == bars[k].0
  {
    seq(|bars|, k requires 0 <= k < |bars| => bars[k].0)
  }

  /** Every month has a bar. */
  predicate Covers(months: seq<string>, bars: seq<(string, nat)>)
  {
    forall i :: 0 <= i < |months| ==> months[i] in Keys(bars)
  }

  /**
   * `bars` tallies `months`: each distinct month once, in increasing order,
   * with the number of times it occurs; and the counts add up to the
   * number of months.
   */
  predicate IsTally(months: seq<string>, bars: seq<(string, nat)>)
  {
    KeysIncreasing(bars) && CountsOccurrences(months, bars) && Covers(months, bars)
    && SumCounts(bars) == |months|
  }

  /**
   * Run-length encoding: each maximal run of equal strings becomes the
   * string with the length of its run.
   */
  function Runs(s: seq<string>): (r: seq<(string, nat)>)
    ensures |s| > 0 ==> |r| > 0 && r[0].0 == s[0]
    ensures SumCounts(r) == |s|
  {
    if s == [] then []
    else
      var rest := Runs(s[1..]);
      if |rest| > 0 && rest[0].0 == s[0] then
        var r := [(s[0], rest[0].1 + 1)] + rest[1..];
        assert r[1..] == rest[1..];
        r
      else
        var r := [(s[0], 1)] + rest;
        assert r[1..] == rest;
        r
  }

  /**
   * On a sorted list the runs are a tally: `Counter` followed by
   * `sorted(month_counts.keys())`.
   */
  lemma {:induction false} RunsOfSortedIsTally(s: seq<string>)
    requires Sorted(s)
    ensures IsTally(s, Runs(s))
  {
    if s != [] {
      var x, tail := s[0], s[1..];
      assert s == [x] + tail;
      assert Sorted(tail) by {
        forall i, j | 0 <= i < j < |tail| ensures StrLe(tail[i], tail[j]) {
          assert tail[i] == s[i + 1] && tail[j] == s[j + 1];
        }
      }
      RunsOfSortedIsTally(tail);
      var rest := Runs(tail);
      if |rest| > 0 && rest[0].0 == x {
        MergedHeadIsTally(x, tail, rest);
      } else {
        assert forall j :: 0 <= j < |tail| ==> StrLe(x, tail[j]) by {
          forall j | 0 <= j < |tail| ensures StrLe(x, tail[j]) {
            assert s[j + 1] == tail[j];
          }
        }
        NewHeadIsTally(x, tail, rest);
      }
    }
  }

  /** The step of RunsOfSortedIsTally where the head joins the first run of the tail. */
  lemma MergedHeadIsTally(x: string, tail: seq<string>, rest: seq<(string, nat)>)
    requires rest == Runs(tail) && IsTally(tail, rest) && |rest| > 0 && rest[0].0 == x
    ensures IsTally([x] + tail, Runs([x] + tail))
  {
    var s := [x] + tail;
    var r := Runs(s);
    assert s[1..] == tail;
    assert r == [(x, rest[0].1 + 1)] + rest[1..];
    MergedKeys(x, rest, r);
    MergedCounts(x, tail, rest, r);
    MergedCovers(x, tail, rest, r);
  }

  lemma MergedKeys(x: string, rest: seq<(string, nat)>, r: seq<(string, nat)>)
    requires KeysIncreasing(rest) && |rest| > 0 && rest[0].0 == x
    requires r == [(x, rest[0].1 + 1)] + rest[1..]
    ensures KeysIncreasing(r)
  {
    forall k, k' | 0 <= k < k' < |r| ensures StrLt(r[k].0, r[k'].0) {
      assert r[k].0 == rest[k].0 && r[k'] == rest[k'];
    }
  }

  lemma MergedCounts(x: string, tail: seq<string>, rest: seq<(string, nat)>, r: seq<(string, nat)>)
    requires KeysIncreasing(rest) && CountsOccurrences(tail, rest) && |rest| > 0 && rest[0].0 == x
    requires r == [(x, rest[0].1 + 1)] + rest[1..]
    ensures CountsOccurrences([x] + tail, r)
  {
    assert multiset([x] + tail) == multiset{x} + multiset(tail);
    forall k | 1 <= k < |r| ensures r[k].1 == multiset([x] + tail)[r[k].0] {
      assert r[k] == rest[k];
      assert StrLt(rest[0].0, rest[k].0);
    }
  }

  lemma MergedCovers(x: string, tail: seq<string>, rest: seq<(string, nat)>, r: seq<(string, nat)>)
    requires Covers(tail, rest) && |rest| > 0 && rest[0].0 == x
    requires r == [(x, rest[0].1 + 1)] + rest[1..]
    ensures Covers([x] + tail, r)
  {
    assert Keys(r) == Keys(rest);
  }

  /** The step of RunsOfSortedIsTally where the head starts a run of its own. */
  lemma NewHeadIsTally(x: string, tail: seq<string>, rest: seq<(string, nat)>)
    requires rest == Runs(tail) && IsTally(tail, rest) && !(|rest| > 0 && rest[0].0 == x)
    requires Sorted(tail) && forall j :: 0 <= j < |tail| ==> StrLe(x, tail[j])
    ensures IsTally([x] + tail, Runs([x] + tail))
  {
    var s := [x] + tail;
    var r := Runs(s);
    assert s[1..] == tail;
    assert r == [(x, 1)] + rest;
    assert x !in tail by {
      if x in tail {
        var j :| 0 <= j < |tail| && tail[j] == x;
        assert StrLe(tail[0], x) by {
          if j > 0 { assert StrLe(tail[0], tail[j]); } else { StrLeReflexive(x); }
        }
        StrLeAntisymmetric(tail[0], x);
      }
    }
    NewKeys(x, tail, rest, r);
    NewCounts(x, tail, rest, r);
    NewCovers(x, tail, rest, r);
  }

  lemma NewKeys(x: string, tail: seq<string>, rest: seq<(string, nat)>, r: seq<(string, nat)>)
    requires KeysIncreasing(rest) && CountsOccurrences(tail, rest) && x !in tail
    requires forall j :: 0 <= j < |tail| ==> StrLe(x, tail[j])
    requires r == [(x, 1)] + rest
    ensures KeysIncreasing(r)
  {
    forall k, k' | 0 <= k < k' < |r| ensures StrLt(r[k].0, r[k'].0) {
      assert r[k'] == rest[k' - 1];
      if k > 0 {
        assert r[k] == rest[k - 1];
      } else {
        assert rest[k' - 1].0 in multiset(tail);
        var j :| 0 <= j < |tail| && tail[j] == rest[k' - 1].0;
      }
    }
  }

  lemma NewCounts(x: string, tail: seq<string>, rest: seq<(string, nat)>, r: seq<(string, nat)>)
    requires CountsOccurrences(tail, rest) && x !in tail
    requires r == [(x, 1)] + rest
    ensures CountsOccurrences([x] + tail, r)
  {
    assert multiset([x] + tail) == multiset{x} + multiset(tail);
    forall k | 1 <= k < |r| ensures r[k].1 == multiset([x] + tail)[r[k].0] {
      assert r[k] == rest[k - 1];
      assert rest[k - 1].0 in multiset(tail);
    }
  }

  lemma NewCovers(x: string, tail: seq<string>, rest: seq<(string, nat)>, r: seq<(string, nat)>)
    requires Covers(tail, rest)
    requires r == [(x, 1)] + rest
    ensures Covers([x] + tail, r)
  {
    assert Keys(r) == [x] + Keys(rest);
  }

  /** A tally depends only on how often each month occurs, not on their order. */
  lemma TallyOfPermutation(a: seq<string>, b: seq<string>, bars: seq<(string, nat)>)
    requires multiset(a) == multiset(b) && IsTally(a, bars)
    ensures IsTally(b, bars)
  {
    assert |a| == |multiset(a)| == |multiset(b)| == |b|;
    forall i | 0 <= i < |b| ensures b[i] in Keys(bars) {
      assert b[i] in multiset(a);
      var j :| 0 <= j < |a| && a[j] == b[i];
    }
  }

  function Counts(bars: seq<(string, nat)>): (counts: seq<int>)
    ensures |counts| == |bars| && forall k :: 0 <= k < |bars| ==> counts[k] == bars[k].1
  {
    seq(|bars|, k requires 0 <= k < |bars| => bars[k].1)
  }

  /** `['crimson' if c == max_count else 'salmon' for c in counts]`: true for the worst months. */
  function WorstMonths(counts: seq<int>): (worst: seq<bool>)
    requires |counts| > 0
    ensures |worst| == |counts|
    ensures forall k :: 0 <= k < |counts| ==> (worst[k] <==> counts[k] == MaxOf(counts))
    ensures exists k :: 0 <= k < |counts| && worst[k]
  {
    var maxCount := MaxOf(counts);
    seq(|counts|, k requires 0 <= k < |counts| => counts[k] == maxCount)
  }

  /** `date.strftime('%Y-%m')` of each date, `monthOf` standing for the formatting. */
  function MonthsOf(dates: seq<int>, monthOf: int -> string): (months: seq<string>)
    ensures |months| == |dates| && forall i :: 0 <= i < |dates| ==> months[i] == monthOf(dates[i])
  {
    seq(|dates|, i requires 0 <= i < |dates| => monthOf(dates[i]))
  }

  /** What plot_incident_timeline draws, or why it draws nothing. */
  datatype Timeline =
    | NoIncidentsToPlot                      // "No incidents to plot."
    | TimelineDateError(badDate: string)     // strptime raises ValueError
    | MonthBars(bars: seq<(string, nat)>, worst: seq<bool>)

  /**
   * One bar per month holding an incident, in sorted order, its height the
   * number of incidents that month; the worst months are those with the
   * largest count, and there is at least one.
   */
  function PlotIncidentTimeline(incidents: seq<Incident>, parse: Parser, monthOf: int -> string)
    : (t: Timeline)
    ensures t.NoIncidentsToPlot? <==> |incidents| == 0
    ensures t.TimelineDateError? <==> |incidents| > 0 && ParseAll(parse, Dates(incidents)).Err?
    ensures t.TimelineDateError? ==> t.badDate == ParseAll(parse, Dates(incidents)).badDate
    ensures t.MonthBars? ==>
              && ParseAll(parse, Dates(incidents)).Ok?
              && IsTally(MonthsOf(ParseAll(parse, Dates(incidents)).value, monthOf), t.bars)
              && |t.bars| > 0
              && t.worst == WorstMonths(Counts(t.bars))
  {
    if |incidents| == 0 then NoIncidentsToPlot
    else
      match ParseAll(parse, Dates(incidents))
      case Err(b) => TimelineDateError(b)
      case Ok(dates) =>
        var months := MonthsOf(dates, monthOf);
        var sorted := SortStrings(months);
        var bars := Runs(sorted);
        RunsOfSortedIsTally(sorted);
        TallyOfPermutation(sorted, months, bars);
        assert |sorted| == |multiset(sorted)| == |multiset(months)| == |months|;
        MonthBars(bars, WorstMonths(Counts(bars)))
  }
}
