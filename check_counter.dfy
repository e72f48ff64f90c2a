/**
 * The daily check (scripts/check_incident_counter.py): the current streak,
 * the record streak, the status tier, the milestone text and the Slack
 * message that reports them. `date.today()` is the parameter `today`.
 */
module CheckCounter {
  import opened Incidents
  import opened Blocks

  // ---------------------------------------------------------------------
  // calculate_days_since_incident: a bad date aborts the run
  // ---------------------------------------------------------------------

  /**
   * Days from the latest incident to `today`; 0 for an empty log or an
   * empty latest date string (Python's `if not last_incident_date_str`).
   * A latest date that does not parse aborts the run (`sys.exit(1)`).
   * Not clamped: an incident dated after `today` gives a negative count.
   */
  function DaysSince(incidents: seq<Incident>, parse: Parser, today: int): (r: Result<int>)
    ensures |incidents| == 0 ==> r == Ok(0)
    ensures |incidents| > 0 && LastIncidentDate(incidents).value == "" ==> r == Ok(0)
    ensures r.Err? <==> (|incidents| > 0 && LastIncidentDate(incidents).value != ""
                                          && parse(LastIncidentDate(incidents).value).None?)
    ensures r.Err? ==> r.badDate == LastIncidentDate(incidents).value
    ensures r.Ok? && |incidents| > 0 && LastIncidentDate(incidents).value != "" ==>
              parse(LastIncidentDate(incidents).value) == Some(today - r.value)
  {
    match LastIncidentDate(incidents)
    case None => Ok(0)
    case Some(last) =>
      if last == "" then Ok(0)
      else
        match parse(last)
        case None => Err(last)
        case Some(d) => Ok(today - d)
  }

  /**
   * When string order is chronological and every date parses, the count is
   * measured from the chronologically latest incident: it is the smallest of
   * `today - d` over all incident days `d`.
   */
  lemma DaysSinceFromLatestDay(incidents: seq<Incident>, parse: Parser, today: int)
    requires Chronological(parse, Dates(incidents))
    requires forall i :: 0 <= i < |incidents| ==> parse(incidents[i].date).Some?
    requires |incidents| > 0 && LastIncidentDate(incidents).value != ""
    ensures DaysSince(incidents, parse, today).Ok?
    ensures forall i :: 0 <= i < |incidents| ==>
              DaysSince(incidents, parse, today).value <= today - parse(incidents[i].date).value
    ensures exists i :: 0 <= i < |incidents| &&
              DaysSince(incidents, parse, today).value == today - parse(incidents[i].date).value
  {
    var last := LastIncidentDate(incidents).value;
    var k :| 0 <= k < |incidents| && incidents[k].date == last;
    forall i | 0 <= i < |incidents|
      ensures DaysSince(incidents, parse, today).value <= today - parse(incidents[i].date).value
    {
      LatestIsChronologicalMax(parse, incidents, i);
    }
  }

  // ---------------------------------------------------------------------
  // calculate_record_streak
  // ---------------------------------------------------------------------

  /** The streak between the `i`-th and the next incident day. */
  function Gap(days: seq<int>, i: nat): int
    requires i + 1 < |days|
  {
    days[i + 1] - days[i]
  }

  /** max(0, every gap between consecutive days), accumulated left to right. */
  function MaxGap(days: seq<int>): (g: int)
    ensures g >= 0
    ensures forall i :: 0 <= i < |days| - 1 ==> Gap(days, i) <= g
    ensures g == 0 || exists i :: 0 <= i < |days| - 1 && Gap(days, i) == g
  {
    if |days| < 2 then 0
    else
      var n := |days| - 1;
      var prefix := days[..n];
      assert forall i :: 0 <= i < n ==> prefix[i] == days[i];
      var g := MaxGap(prefix);
      assert forall i :: 0 <= i < n - 1 ==> Gap(prefix, i) == Gap(days, i);
      Max(g, Gap(days, n - 1))
  }

  lemma MaxGapSnoc(days: seq<int>, d: int)
    requires |days| > 0
    ensures MaxGap(days + [d]) == Max(MaxGap(days), d - days[|days| - 1])
  {
    assert (days + [d])[..|days|] == days;
  }

  /** The dates sorted as strings, oldest first, then parsed. */
  function SortedDays(incidents: seq<Incident>, parse: Parser): Result<seq<int>>
  {
    ParseAll(parse, SortStrings(Dates(incidents)))
  }

  /**
   * `v` is the record: the largest of 0, the current streak and every gap
   * between consecutive incident days.
   */
  predicate IsLongestStreak(v: int, days: seq<int>, current: int)
  {
    && v >= 0
    && v >= current
    && (forall i :: 0 <= i < |days| - 1 ==> Gap(days, i) <= v)
    && (v == 0 || v == current || exists i :: 0 <= i < |days| - 1 && Gap(days, i) == v)
  }

  /** The sorted list is a permutation, so a date fails in one iff it fails in the other. */
  lemma SortedParsesIffAll(incidents: seq<Incident>, parse: Parser)
    ensures SortedDays(incidents, parse).Ok? <==>
              forall i :: 0 <= i < |incidents| ==> parse(incidents[i].date).Some?
    ensures SortedDays(incidents, parse).Err? ==>
              parse(SortedDays(incidents, parse).badDate).None? &&
              exists i :: 0 <= i < |incidents| && incidents[i].date == SortedDays(incidents, parse).badDate
  {
    var ds := Dates(incidents);
    var sorted := SortStrings(ds);
    assert |sorted| == |multiset(sorted)| == |multiset(ds)| == |ds|;
    if forall i :: 0 <= i < |incidents| ==> parse(incidents[i].date).Some? {
      forall j | 0 <= j < |sorted| ensures parse(sorted[j]).Some? {
        assert sorted[j] in multiset(ds);
        var i :| 0 <= i < |ds| && ds[i] == sorted[j];
      }
    } else {
      var i :| 0 <= i < |incidents| && parse(incidents[i].date).None?;
      assert ds[i] in multiset(sorted);
      var j :| 0 <= j < |sorted| && sorted[j] == ds[i];
    }
    if SortedDays(incidents, parse).Err? {
      var b := SortedDays(incidents, parse).badDate;
      ParseAllFailsAtFirst(parse, sorted);
      var j :| 0 <= j < |sorted| && sorted[j] == b && parse(sorted[j]).None?;
      assert b in multiset(ds);
      var i :| 0 <= i < |ds| && ds[i] == b;
    }
  }

  /**
   * The record streak. Fewer than two incidents: the current streak. Otherwise
   * the largest of 0, every gap between consecutive sorted dates, and the
   * current streak; any date that does not parse aborts the run.
   */
  function RecordStreakOf(incidents: seq<Incident>, parse: Parser, today: int): (r: Result<int>)
    ensures |incidents| < 2 ==> r == DaysSince(incidents, parse, today)
    ensures |incidents| >= 2 ==>
              (r.Ok? <==> forall i :: 0 <= i < |incidents| ==> parse(incidents[i].date).Some?)
    ensures r.Err? ==> parse(r.badDate).None?
                       && exists i :: 0 <= i < |incidents| && incidents[i].date == r.badDate
    ensures r.Ok? ==> DaysSince(incidents, parse, today).Ok?
                      && r.value >= DaysSince(incidents, parse, today).value
    ensures |incidents| >= 2 && r.Ok? ==>
              SortedDays(incidents, parse).Ok?
              && IsLongestStreak(r.value, SortedDays(incidents, parse).value,
                                 DaysSince(incidents, parse, today).value)
  {
    if |incidents| < 2 then DaysSince(incidents, parse, today)
    else
      SortedParsesIffAll(incidents, parse);
      match SortedDays(incidents, parse)
      case Err(b) => Err(b)
      case Ok(days) =>
        match DaysSince(incidents, parse, today)
        case Err(b) => Err(b)
        case Ok(current) => Ok(Max(MaxGap(days), current))
  }

  /** The largest of 0 and every gap between consecutive dates of `sorted`, once all of them parse. */
  function ConsecutiveGapsOf(parse: Parser, sorted: seq<string>): Result<int>
  {
    match ParseAll(parse, sorted)
    case Err(b) => Err(b)
    case Ok(days) => Ok(MaxGap(days))
  }

  /** The loop of `calculate_record_streak` over consecutive sorted dates. */
  method ConsecutiveGaps(parse: Parser, sorted: seq<string>) returns (r: Result<int>)
    requires |sorted| >= 2
    ensures r == ConsecutiveGapsOf(parse, sorted)
  {
    var maxStreak := 0;
    ghost var days: seq<int> := [];
    assert sorted[..0] == [];
    for i := 0 to |sorted| - 1
      invariant i == 0 ==> days == []
      invariant i > 0 ==> ParseAll(parse, sorted[..i + 1]) == Ok(days)
      invariant maxStreak == MaxGap(days)
    {
      ghost var upTo: seq<int> := if i == 0 then [] else days;
      if i == 0 {
        assert ParseAll(parse, sorted[..0]) == Ok([]);
        ParseAllExtend(parse, sorted, 0, []);
      }
      var start := parse(sorted[i]);
      if start.None? {
        assert i == 0;
        ParseAllPrefixErr(parse, sorted, 1);
        return Err(sorted[i]);
      }
      upTo := if i == 0 then [start.value] else days;
      assert i == 0 ==> [] + [start.value] == upTo;
      assert ParseAll(parse, sorted[..i + 1]) == Ok(upTo);
      ParseAllExtend(parse, sorted, i + 1, upTo);
      var end := parse(sorted[i + 1]);
      if end.None? {
        ParseAllPrefixErr(parse, sorted, i + 2);
        return Err(sorted[i + 1]);
      }
      assert |upTo| == i + 1 && sorted[..i + 1][i] == sorted[i];
      assert upTo[i] == start.value;
      if i == 0 {
        assert MaxGap(days) == 0 == MaxGap([start.value]);
      }
      MaxGapSnoc(upTo, end.value);
      var streak := end.value - start.value;
      maxStreak := Max(maxStreak, streak);
      days := upTo + [end.value];
    }
    assert sorted[..|sorted|] == sorted;
    return Ok(maxStreak);
  }

  /** `calculate_record_streak`. */
  method RecordStreak(incidents: seq<Incident>, parse: Parser, today: int) returns (r: Result<int>)
    ensures r == RecordStreakOf(incidents, parse, today)
  {
    if |incidents| < 2 {
      return DaysSince(incidents, parse, today);
    }
    var sorted := SortStrings(Dates(incidents));
    assert |sorted| == |multiset(sorted)| == |multiset(Dates(incidents))| == |incidents|;
    var maxStreak := ConsecutiveGaps(parse, sorted);
    if maxStreak.Err? {
      return maxStreak;
    }
    var current := DaysSince(incidents, parse, today);
    if current.Err? {
      return current;
    }
    return Ok(Max(maxStreak.value, current.value));
  }

  /**
   * The live streak is the record exactly when nothing in the history is
   * longer: the message's "new record" condition, read against the log.
   */
  lemma NewRecordIffLongest(incidents: seq<Incident>, parse: Parser, today: int)
    requires |incidents| >= 2 && RecordStreakOf(incidents, parse, today).Ok?
    ensures var current := DaysSince(incidents, parse, today).value;
            var days := SortedDays(incidents, parse).value;
            IsNewRecord(current, RecordStreakOf(incidents, parse, today).value) <==>
              current > 0 && forall i :: 0 <= i < |days| - 1 ==> Gap(days, i) <= current
  {
  }

  /** With one incident on day `d`, both the current and the record streak are `today - d`. */
  lemma SingleIncident(incident: Incident, parse: Parser, today: int)
    requires incident.date != "" && parse(incident.date).Some?
    ensures DaysSince([incident], parse, today) == Ok(today - parse(incident.date).value)
    ensures RecordStreakOf([incident], parse, today) == Ok(today - parse(incident.date).value)
  {
  }

  // ---------------------------------------------------------------------
  // Status tiers and milestones
  // ---------------------------------------------------------------------

  datatype Tier = StartingFresh | BuildingMomentum | GrowingStrong | SolidFoundation | ExcellenceAchieved

  /** The status shown for a streak of `days` (format_slack_message's if-chain). */
  function Status(days: int): (t: Tier)
    ensures days >= 0 ==> InTier(t, days)
    ensures days < 0 ==> t == BuildingMomentum
  {
    if days == 0 then StartingFresh
    else if days < 10 then BuildingMomentum
    else if days < 30 then GrowingStrong
    else if days < 50 then SolidFoundation
    else ExcellenceAchieved
  }

  /** The threshold table: the first and (except for the last tier) the last day of each tier. */
  function MinDays(t: Tier): int
  {
    match t
    case StartingFresh => 0
    case BuildingMomentum => 1
    case GrowingStrong => 10
    case SolidFoundation => 30
    case ExcellenceAchieved => 50
  }

  function MaxDays(t: Tier): Option<int>
  {
    match t
    case StartingFresh => Some(0)
    case BuildingMomentum => Some(9)
    case GrowingStrong => Some(29)
    case SolidFoundation => Some(49)
    case ExcellenceAchieved => None
  }

  predicate InTier(t: Tier, days: int)
  {
    MinDays(t) <= days && (MaxDays(t).None? || days <= MaxDays(t).value)
  }

  /** The tiers cover every non-negative count once: the status is the one tier whose range holds it. */
  lemma StatusIsTheOnlyMatchingTier(days: int, t: Tier)
    requires days >= 0
    ensures InTier(t, days) <==> t == Status(days)
  {
  }

  function Rank(t: Tier): nat
  {
    match t
    case StartingFresh => 0
    case BuildingMomentum => 1
    case GrowingStrong => 2
    case SolidFoundation => 3
    case ExcellenceAchieved => 4
  }

  /** A longer non-negative streak never has a lower status. */
  lemma StatusMonotone(a: int, b: int)
    requires 0 <= a <= b
    ensures Rank(Status(a)) <= Rank(Status(b))
  {
  }

  datatype Milestone = TenDays | ThirtyDays | FiftyDays | HundredDays | Recurring(days: int)

  const Milestones: map<int, Milestone> :=
    map[10 := TenDays, 30 := ThirtyDays, 50 := FiftyDays, 100 := HundredDays]

  /** get_milestone_message: the table entry first, then the recurring rule, else none. */
  function MilestoneFor(days: int): (m: Option<Milestone>)
    ensures days in Milestones ==> m == Some(Milestones[days])
    ensures days !in Milestones ==> (m.Some? <==> days > 100 && days % 50 == 0)
    ensures m.Some? && days !in Milestones ==> m.value == Recurring(days)
  {
    if days in Milestones then Some(Milestones[days])
    else if days > 100 && days % 50 == 0 then Some(Recurring(days))
    else None
  }

  /** The days that earn a milestone: 10, 30, 50, 100, and every multiple of 50 from 150 on. */
  lemma MilestoneDays(days: int)
    ensures MilestoneFor(days).Some? <==>
              days == 10 || days == 30 || days == 50 || days == 100 || exists k :: 3 <= k && days == 50 * k
  {
    if days > 100 && days % 50 == 0 {
      assert days == 50 * (days / 50);
    }
  }

  // ---------------------------------------------------------------------
  // format_slack_message
  // ---------------------------------------------------------------------

  /** What each text of the daily message says. */
  datatype SlackText =
    | DaysWithoutIncidentSummary(days: int)   // "Days Without Incident: {days}"
    | StatusHeader(tier: Tier)                // "{emoji} Days Without Incident"
    | CurrentStreakField(days: int)
    | StatusField(tier: Tier)
    | LastIncidentField(shown: string)
    | RecordStreakField(days: int)
    | NewRecordText
    | MilestoneReachedText(milestone: Milestone)
    | TotalIncidentsFooter(total: nat)

  const NoneRecorded := "None recorded"

  /** `last_incident_date or 'None recorded'`: an empty date string also counts as none. */
  function LastIncidentShown(incidents: seq<Incident>): string
  {
    match LastIncidentDate(incidents)
    case None => NoneRecorded
    case Some(d) => if d == "" then NoneRecorded else d
  }

  predicate IsNewRecord(daysSince: int, recordStreak: int)
  {
    daysSince > 0 && daysSince == recordStreak
  }

  /** Where each block sits in the message; blocks appear in strictly increasing order of this. */
  function SlackRank(b: Block<SlackText>): nat
  {
    match b
    case Header(_) => 0
    case Fields(_) => 1
    case Section(NewRecordText) => 2
    case Section(MilestoneReachedText(_)) => 3
    case Context(_) => 4
    case _ => 5
  }

  predicate IsMilestoneSection(b: Block<SlackText>)
  {
    b.Section? && b.text.MilestoneReachedText?
  }

  /**
   * In a message whose blocks are in rank order (as FormatSlackMessage
   * ensures), the new-record section precedes the milestone section, which
   * precedes the footer.
   */
  lemma SlackSectionsInOrder(blocks: seq<Block<SlackText>>, i: nat, j: nat, k: nat)
    requires InRankOrder(blocks, SlackRank) && i < |blocks| && j < |blocks| && k < |blocks|
    requires blocks[i] == Section(NewRecordText) && IsMilestoneSection(blocks[j]) && blocks[k].Context?
    ensures i < j < k
  {
    LowerRankComesFirst(blocks, SlackRank, i, j);
    LowerRankComesFirst(blocks, SlackRank, j, k);
  }

  /**
   * The blocks of the daily message, in the order format_slack_message
   * appends them, given the values it shows.
   */
  function SlackBlocks(status: Tier, daysSince: int, recordStreak: int, lastShown: string,
                       milestone: Option<Milestone>, total: nat): seq<Block<SlackText>>
  {
    [Header(StatusHeader(status)),
     Fields([CurrentStreakField(daysSince), StatusField(status),
             LastIncidentField(lastShown), RecordStreakField(recordStreak)])]
    + Optional(IsNewRecord(daysSince, recordStreak), Section(NewRecordText))
    + MilestoneBlocks(milestone)
    + Optional(daysSince > 0, Context([TotalIncidentsFooter(total)]))
  }

  /** The milestone section, when there is a milestone. */
  function MilestoneBlocks(milestone: Option<Milestone>): (bs: seq<Block<SlackText>>)
    ensures |bs| == Count(milestone.Some?)
    ensures forall i :: 0 <= i < |bs| ==> bs[i] == Section(MilestoneReachedText(milestone.value))
  {
    match milestone
    case Some(ms) => [Section(MilestoneReachedText(ms))]
    case None => []
  }

  /** Each block ranks above the one before it: the order of the appends. */
  lemma SlackBlocksInRankOrder(status: Tier, daysSince: int, recordStreak: int, lastShown: string,
                               milestone: Option<Milestone>, total: nat)
    ensures InRankOrder(SlackBlocks(status, daysSince, recordStreak, lastShown, milestone, total), SlackRank)
  {
  }

  /** Where the optional sections are found: each is present exactly when its condition holds. */
  lemma SlackBlocksSections(status: Tier, daysSince: int, recordStreak: int, lastShown: string,
                            milestone: Option<Milestone>, total: nat)
    ensures var bs := SlackBlocks(status, daysSince, recordStreak, lastShown, milestone, total);
            && (Section(NewRecordText) in bs <==> IsNewRecord(daysSince, recordStreak))
            && (milestone.Some? ==> Section(MilestoneReachedText(milestone.value)) in bs)
            && (milestone.None? ==> forall i :: 0 <= i < |bs| ==> !IsMilestoneSection(bs[i]))
            && (daysSince > 0 <==> bs[|bs| - 1] == Context([TotalIncidentsFooter(total)]))
  {
    var bs := SlackBlocks(status, daysSince, recordStreak, lastShown, milestone, total);
    var rec := Optional(IsNewRecord(daysSince, recordStreak), Section(NewRecordText));
    if milestone.Some? {
      assert bs[2 + |rec|] == Section(MilestoneReachedText(milestone.value));
    }
  }

  method FormatSlackMessage(incidents: seq<Incident>, daysSince: int, recordStreak: int)
    returns (m: Message<SlackText>)
    ensures m.text == DaysWithoutIncidentSummary(daysSince)
    ensures |m.blocks| == 2 + Count(IsNewRecord(daysSince, recordStreak))
                            + Count(MilestoneFor(daysSince).Some?) + Count(daysSince > 0)
    ensures m.blocks[0] == Header(StatusHeader(Status(daysSince)))
    ensures m.blocks[1] == Fields([CurrentStreakField(daysSince), StatusField(Status(daysSince)),
                                   LastIncidentField(LastIncidentShown(incidents)),
                                   RecordStreakField(recordStreak)])
    ensures Section(NewRecordText) in m.blocks <==> IsNewRecord(daysSince, recordStreak)
    ensures MilestoneFor(daysSince).Some? ==>
              Section(MilestoneReachedText(MilestoneFor(daysSince).value)) in m.blocks
    ensures MilestoneFor(daysSince).None? ==>
              forall i :: 0 <= i < |m.blocks| ==> !IsMilestoneSection(m.blocks[i])
    ensures daysSince > 0 <==> m.blocks[|m.blocks| - 1] == Context([TotalIncidentsFooter(|incidents|)])
    ensures InRankOrder(m.blocks, SlackRank)
    ensures m.blocks == SlackBlocks(Status(daysSince), daysSince, recordStreak, LastIncidentShown(incidents),
                                    MilestoneFor(daysSince), |incidents|)
  {
    var isNewRecord := daysSince > 0 && daysSince == recordStreak;
    var status := Status(daysSince);
    var blocks := [
      Header(StatusHeader(status)),
      Fields([CurrentStreakField(daysSince), StatusField(status),
              LastIncidentField(LastIncidentShown(incidents)), RecordStreakField(recordStreak)])
    ];
    ghost var expected := blocks;
    if isNewRecord {
      blocks := blocks + [Section(NewRecordText)];
    }
    expected := expected + Optional(IsNewRecord(daysSince, recordStreak), Section(NewRecordText));
    assert blocks == expected;
    var milestone := MilestoneFor(daysSince);
    if milestone.Some? {
      blocks := blocks + [Section(MilestoneReachedText(milestone.value))];
    }
    expected := expected + MilestoneBlocks(milestone);
    assert blocks == expected;
    if daysSince > 0 {
      blocks := blocks + [Context([TotalIncidentsFooter(|incidents|)])];
    }
    expected := expected + Optional(daysSince > 0, Context([TotalIncidentsFooter(|incidents|)]));
    var lastShown := LastIncidentShown(incidents);
    assert blocks == expected == SlackBlocks(status, daysSince, recordStreak, lastShown, milestone, |incidents|);
    SlackBlocksInRankOrder(status, daysSince, recordStreak, lastShown, milestone, |incidents|);
    SlackBlocksSections(status, daysSince, recordStreak, lastShown, milestone, |incidents|);
    m := Message(DaysWithoutIncidentSummary(daysSince), blocks);
  }
}
