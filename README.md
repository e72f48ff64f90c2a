# Days since last incident — a verified model

reliability-culture keeps a JSON log of production incidents and reports
a "days without incident" streak to Slack. It has three parts:

- A daily check, `scripts/check_incident_counter.py`. It computes the current streak and the record streak. It picks a status tier and an optional milestone, and builds the daily Slack message.
- An incident reporter, `scripts/reset_counter.py`. It computes the streak being lost, appends the new incident to the log, and optionally builds a notification.
- A plotting script, `scripts/plot_incidents.py`. It draws the day-by-day streak with the best streak highlighted, and the number of incidents per month with the worst months highlighted.

The shared helpers in `scripts/incident_utils.py` hold a third copy of the streak calculation. This copy takes an explicit reference date.

This project models that logic in Dafny and proves what each piece
promises.

Modules, one per source file plus three shared ones:

- `Incidents` (`incidents.dfy`): the incident record, Python's string order, the latest date, sorting, and parsing a list of dates.
- `Blocks` (`blocks.dfy`): the shape of a Slack message, a summary text and an ordered list of typed blocks.
- `CheckCounter` (`check_counter.dfy`): the daily check.
- `ResetCounter` (`reset_counter.dfy`): reporting an incident.
- `IncidentUtils` (`incident_utils.dfy`): the shared helpers.
- `IsoDates` (`iso_dates.dfy`): the log's zero-padded `YYYY-MM-DD` dates, Python's calendar, and the proof that for such dates string order is day order.
- `PlotIncidents` (`plot_incidents.dfy`): the data behind the two charts.

Modelling choices:

- **Dates.** An incident keeps its raw `date` string. The source finds the latest incident and sorts the log by that raw string, so the model does too, with Python's lexicographic string order (`StrLe`).
- **Date parsing.** Turning a date string into a day number (`dateutil.parser.parse`, `datetime.strptime`) is the parameter `parse: string -> Option<int>`. `None` stands for the `ValueError` the library raises.
- **String order against day order.** `Chronological(parse, dates)` states that string order and day order agree. Results that relate the string-latest date to the chronologically latest day take it as a hypothesis. `IsoDates` discharges it for zero-padded `YYYY-MM-DD` dates. There `ParseIso` reads such a string as `date(...).toordinal()` does, with Python's leap-year rule and years 1 to 9999. `IsoDatesChronological` proves the hypothesis for any parser that agrees with it.
- **Today.** `date.today()` is the parameter `today`, a day number.
- **Python semantics.** Truthiness is modelled where the source relies on it. An empty latest date string counts as "no incident" (`if not last_incident_date_str`). `new_incident.get('description')` is false for an empty description. `dict.get(key, default)` shows the default only when the key is absent.
- **Stopping the run.** `sys.exit(1)` and an uncaught `ValueError` are modelled as an `Err` result that carries the offending date string.
- **Message content.** Texts, emoji and Markdown are opaque constructors such as `NewRecordText` or `StreakEnded(daysLost)`. Only the shape of a message and the values it shows are modelled.

Where the source is imperative, the model is too:

- The record-streak loop and the appends that build the two Slack messages are methods with loops or appends.
- The streak-series loop, the backward scan of the best-streak search and the colour loop are methods as well.
- The append of the new incident to the log is a method of the class `IncidentLog`, which owns the `incidents` list.

Each method is proved against a specification function, or states its result outright.

In these places the code does not do what a design-level description of the system would lead one to expect. The model follows the code:

- The tier thresholds and the milestone table are hard-coded. Nothing reads them from configuration.
- The current streak parses only the latest date, the one that sorts last as a string. An unparseable date elsewhere in the log does not stop the daily check's count; only the record streak, which parses every date, stops on it.
- An unparseable latest date is fatal only in the daily check and in the shared helpers. The reporter's copy, `scripts/reset_counter.py:52-54`, returns 0 instead.
- A negative streak, from an incident dated after today, falls in the `Building momentum` tier (`days_since < 10`). It does not fall back to the last tier.
- The streak lost on reporting an incident is measured to today. It is not measured to the date of the new incident.
- An incident record has no `duration_minutes` field in the code.

## Model

| member | source | states |
|---|---|---|
| Incidents.MaxDate | scripts/incident_utils.py:36-37 | the first element of the list sorted by date in descending order: a date of the list that no other date exceeds in string order |
| Incidents.LastIncidentDate | scripts/incident_utils.py:31-37 | `None` exactly for an empty log; otherwise the date of some incident that every incident's date is at most in string order (the same function appears at scripts/check_incident_counter.py:27-34 and scripts/reset_counter.py:31-38) |
| Incidents.LastIncidentDateOfPermutation | scripts/incident_utils.py:36-37 | the latest date depends only on the multiset of dates, not on the order of the log |
| Incidents.LatestIsChronologicalMax | scripts/check_incident_counter.py:33-34 | when string order is chronological and the dates parse, the string-latest date is also the chronologically latest day |
| Incidents.SortStrings | scripts/check_incident_counter.py:60 | `sorted` by date: the result is in ascending string order and is a permutation of the input |
| Incidents.ParseAll | scripts/plot_incidents.py:12-14 | succeeds iff every date parses, with the parsed days element by element |
| Incidents.ParseAllFailsAtFirst | scripts/plot_incidents.py:12-14 | a failure reports the first date of the list that does not parse |
| CheckCounter.DaysSince | scripts/check_incident_counter.py:37-50 | 0 for an empty log or an empty latest date; fails exactly when the latest date does not parse, reporting that date; otherwise `today` minus the latest day, not clamped |
| CheckCounter.DaysSinceFromLatestDay | scripts/check_incident_counter.py:37-50 | with chronological dates that all parse, the count is the least `today - d` over all incident days `d`, and some incident attains it |
| CheckCounter.MaxGap | scripts/check_incident_counter.py:62-69 | at least 0, at least every gap between consecutive days, and equal to 0 or to one of those gaps |
| CheckCounter.SortedParsesIffAll | scripts/check_incident_counter.py:60-68 | the sorted dates all parse iff every incident's date parses; a failure names a date from the log |
| CheckCounter.RecordStreakOf | scripts/check_incident_counter.py:53-75 | fewer than two incidents: the current streak; otherwise succeeds iff every date parses, and is then the largest of 0, every consecutive gap after sorting and the current streak; never below the current streak; a failure names an unparseable date of the log |
| CheckCounter.ConsecutiveGaps | scripts/check_incident_counter.py:62-69 | the loop over consecutive sorted dates yields the largest of 0 and every gap, or the first date that does not parse |
| CheckCounter.RecordStreak | scripts/check_incident_counter.py:53-75 | the imperative record streak equals RecordStreakOf |
| CheckCounter.NewRecordIffLongest | scripts/check_incident_counter.py:99-101 | the "new record" flag holds iff the current streak is positive and no consecutive gap in the history is longer |
| CheckCounter.SingleIncident | scripts/check_incident_counter.py:53-57 | with one incident on day `d`, both the current and the record streak are `today - d` |
| CheckCounter.Status | scripts/check_incident_counter.py:104-118 | a non-negative count lies in the range of the tier returned; a negative count gives `Building momentum` |
| CheckCounter.StatusIsTheOnlyMatchingTier | scripts/check_incident_counter.py:104-118 | the five tier ranges (0, 1-9, 10-29, 30-49, 50 and more) cover each non-negative count exactly once |
| CheckCounter.StatusMonotone | scripts/check_incident_counter.py:104-118 | a longer non-negative streak never has a lower tier |
| CheckCounter.MilestoneFor | scripts/check_incident_counter.py:78-92 | the table entry for 10, 30, 50 and 100 first; otherwise the recurring milestone iff the count is above 100 and divisible by 50; otherwise none |
| CheckCounter.MilestoneDays | scripts/check_incident_counter.py:87-92 | a milestone is reached exactly on days 10, 30, 50 and 100 and on every multiple of 50 from 150 on |
| CheckCounter.FormatSlackMessage | scripts/check_incident_counter.py:95-187 | the header with the tier, then the four fields (current streak, status, last incident or "None recorded", record); the new-record section iff the count is positive and equals the record; the milestone section iff there is a milestone; the footer with the number of incidents, last, iff the count is positive; 2 blocks plus one per flag, in this order; the whole block list is `SlackBlocks` of these values |
| CheckCounter.SlackBlocksInRankOrder | scripts/check_incident_counter.py:120-185 | each block of the daily message ranks above the one before it: header, fields, new record, milestone, footer |
| CheckCounter.SlackSectionsInOrder | scripts/check_incident_counter.py:154-185 | in a message in rank order, the new-record section comes before the milestone section, which comes before the footer |
| CheckCounter.SlackBlocksSections | scripts/check_incident_counter.py:154-185 | the new-record section is present iff the flag holds, the milestone section iff there is a milestone, and the footer is last iff the count is positive |
| IsoDates.IsoStringOrder | scripts/incident_utils.py:36-37 | on canonical dates, Python's string comparison compares the year, then the month, then the day |
| IsoDates.OrdinalOrder | scripts/plot_incidents.py:14 | day numbers of valid dates compare as the dates do: year first, then month, then day |
| IsoDates.IsoDateOrder | scripts/incident_utils.py:36-37 | on canonical dates, string order and day order agree in both directions |
| IsoDates.IsoDatesChronological | scripts/check_incident_counter.py:60-68 | a log of canonical dates satisfies `Chronological` for every parser that reads them as `date` does wherever it succeeds |
| IsoDates.IsoLogCountsFromLatest | scripts/check_incident_counter.py:37-50 | on a log of canonical dates the daily count succeeds and is at most `today - d` for every incident day `d`, with no hypothesis |
| IsoDates.ParseFormatIso | scripts/plot_incidents.py:14 | a valid date, formatted as `YYYY-MM-DD` and parsed back, gives its own day number |
| IsoDates.FormatParsedIso | scripts/plot_incidents.py:14 | a canonical date string is the formatting of the date it names, so the form has no variants |
| IsoDates.MonthKeyIsPrefix | scripts/plot_incidents.py:85 | `strftime('%Y-%m')` of a canonical date is its first seven characters |
| IsoDates.MonthKeyOrder | scripts/plot_incidents.py:86-88 | sorting month keys as strings puts the months in calendar order |
| IsoDates.TwoIncidentsRecord | scripts/check_incident_counter.py:53-75 | with two incidents, the first earlier as a string, the record is the larger of the gap between them (at least 0) and the current streak |
| IsoDates.WorkedExample | scripts/check_incident_counter.py:37-101 | incidents on 2024-01-01 and 2024-01-11 checked on 2024-02-10: the current streak is 30, the record is 30, and it is a new record |
| ResetCounter.DaysSince | scripts/reset_counter.py:41-54 | 0 for an empty log, an empty latest date or a latest date that does not parse; otherwise `today` minus the latest day |
| ResetCounter.DaysSinceAgreesWithCheck | scripts/reset_counter.py:41-54 | this copy equals the daily check's wherever that one succeeds, and is 0 where it aborts |
| ResetCounter.SeverityShown | scripts/reset_counter.py:93 | "Not specified" only when the severity key is absent; an empty severity is shown as empty |
| ResetCounter.FormatIncidentNotification | scripts/reset_counter.py:57-130 | the header, the streak-ended section and the four fields (date, days lost, total, severity) first; a description section iff the description is non-empty; a postmortem section iff the link is non-empty, after it; a divider and the closing "Remember" section last; 5 blocks plus one per flag; the whole message is `NoticeBlocks` of these values |
| ResetCounter.NoticeBlocksInRankOrder | scripts/reset_counter.py:59-128 | each block of the notification ranks above the one before it: header, streak sentence, fields, description, postmortem, divider, closing section |
| ResetCounter.NoticeSectionsInOrder | scripts/reset_counter.py:100-128 | in a notification in rank order, the description comes before the postmortem link, and both before the divider |
| ResetCounter.NoticeBlocksSections | scripts/reset_counter.py:100-116 | the description section is present iff the description is truthy, and the postmortem section iff the link is |
| ResetCounter.IncidentLog.constructor | scripts/reset_counter.py:159-160 | the log holds the incidents loaded from the file |
| ResetCounter.IncidentLog.ReportIncident | scripts/reset_counter.py:158-191 | the days lost are counted on the log before the append; the log becomes the old log plus a record with exactly the four arguments; a notification exists iff asked for, shows the same days lost in its sentence and field, and counts old length + 1 incidents; it is exactly the notification built from the new log, with the description and postmortem arguments as present values (so an empty argument leaves its section out) |
| ResetCounter.AppendingFirstLosesTheCount | scripts/reset_counter.py:162-174 | had the record dated today been appended before counting, and its date sorts last, the days lost would always read 0 |
| IncidentUtils.DaysSince | scripts/incident_utils.py:40-55 | 0 for an empty log or an empty latest date, whatever the reference; fails exactly when the latest date does not parse; otherwise the reference day (today when none is given) minus the latest day |
| IncidentUtils.NoReferenceMeansToday | scripts/incident_utils.py:47-50 | without a reference date the result is the daily check's count to today |
| IncidentUtils.SingleIncident | scripts/incident_utils.py:40-52 | one incident on day `d` and reference `r`: the count is `r - d` |
| IncidentUtils.DaysSinceOfPermutation | scripts/incident_utils.py:36-52 | reordering the log does not change the count |
| IncidentUtils.DaysSinceShift | scripts/incident_utils.py:46-52 | moving the reference `k` days later adds `k` to the count |
| PlotIncidents.MinOf | scripts/plot_incidents.py:23 | `min(dates)`: an element that no element is below |
| PlotIncidents.MaxOf | scripts/plot_incidents.py:37 | `max(streak)`: an element that no element exceeds |
| PlotIncidents.LastOnOrBefore | scripts/plot_incidents.py:28-35 | the value of `last_incident` when the loop reaches a day: between the first incident day and that day, and an incident day or the first day |
| PlotIncidents.LastOnOrBeforeIsLatest | scripts/plot_incidents.py:28-35 | no incident falls after `last_incident` and on or before the day reached |
| PlotIncidents.StreakZeroIffIncident | scripts/plot_incidents.py:30-33 | the streak is 0 exactly on incident days, so also on the first day |
| PlotIncidents.StreakStep | scripts/plot_incidents.py:34-35 | on a day without an incident the streak is the previous day's plus one |
| PlotIncidents.StreakSeries | scripts/plot_incidents.py:22-35 | one entry per day from the first incident to today, `(today - first) + 1` of them, entry `i` the streak on `first + i` |
| PlotIncidents.IndicesFrom | scripts/plot_incidents.py:38 | `best_indices`: every index holding the maximum, in increasing order, and nothing else |
| PlotIncidents.RiseStart | scripts/plot_incidents.py:43-45 | the backward scan stops where the run of one-day rises ending at the index begins |
| PlotIncidents.BestStreak | scripts/plot_incidents.py:37-55 | the range ends at the first index holding the maximum, with every earlier value lower; it rises by one each day and cannot be extended backwards |
| PlotIncidents.BestRangeStartsAtIncident | scripts/plot_incidents.py:37-55 | on a streak series the best range starts on an incident day (streak 0), so the maximum equals its length minus one |
| PlotIncidents.Highlight | scripts/plot_incidents.py:56-61 | a bar is highlighted iff it lies in the best range and the maximum is positive |
| PlotIncidents.PlotStreakOverTime | scripts/plot_incidents.py:17-61 | nothing for an empty log; the first date that does not parse stops it; no bars when today is before the first incident; otherwise the series, the best range starting at streak 0 and the highlight above |
| PlotIncidents.Runs | scripts/plot_incidents.py:86-89 | run-length encoding whose counts add up to the length of the list |
| PlotIncidents.RunsOfSortedIsTally | scripts/plot_incidents.py:86-89 | on a sorted list the runs list each month once, in increasing order, with its number of occurrences (at least 1), cover every month and sum to the number of incidents |
| PlotIncidents.TallyOfPermutation | scripts/plot_incidents.py:86-88 | a tally of the sorted months is a tally of the months in log order |
| PlotIncidents.MonthsOf | scripts/plot_incidents.py:85 | one month key per parsed date, in order |
| PlotIncidents.WorstMonths | scripts/plot_incidents.py:91-92 | a month is highlighted iff its count is the maximum, and at least one is |
| PlotIncidents.PlotIncidentTimeline | scripts/plot_incidents.py:78-92 | nothing for an empty log; the first date that does not parse stops it; otherwise a non-empty tally of the months of the incidents and the worst-month highlight |

## Left out

- Reading and writing `last_incident.json` and `config.json` (`load_incident_data`, `save_incident_data`, `load_config`): file I/O. The log is a parameter, and `IncidentLog` stands for the loaded document.
- `send_slack_message`: network transport. The messages are modelled up to the point where they would be sent.
- The `main` functions, apart from the compute-then-append step of the reporter: argument parsing, environment variables, test mode, printing and exit codes.
- The scripts' date parsing in full. `dateutil.parser.parse` and `datetime.strptime` are the parameter `parse`, `date.strftime('%Y-%m')` is the parameter `monthOf`, and `date.today()` is `today`. `IsoDates.ParseIso` reads only the canonical zero-padded form. It rejects the other spellings these libraries accept, such as `2024-1-5`, because for those the string order the scripts sort by is not day order.
- Converting a day number back into a calendar date: `MonthKey` formats a month from its year and month, but `monthOf` stays a parameter.
- All matplotlib calls: the charts are the values they would plot.
- PlotIncidents.BestStreak: the forward scan for `end_idx` is not modelled, because its result is never used.
- PlotIncidents.BestStreak: the `(-1, -1)` fallback is not modelled, because it is unreachable once the series is non-empty. The method asserts that at least one group exists.
- PlotIncidents.PlotStreakOverTime: the separate green bars drawn over the best range are not modelled. They repeat the highlighted values.
- PlotIncidents.PlotStreakOverTime: `NoDays` stands for the `ValueError` of `max` on an empty series, when today is before the first incident.
- CheckCounter.FormatSlackMessage: the message reads `data['incidents']`, which raises `KeyError` when the key is missing. `main` reads it with a default, so the model takes the incident list itself.
- ResetCounter.IncidentLog.ReportIncident: the `--notify` flag and the presence of `SLACK_WEBHOOK_URL` are merged into the single parameter `notify`.
