/**
 * The shared helpers (scripts/incident_utils.py): the one copy of
 * calculate_days_since_incident that takes an explicit reference date.
 */
module IncidentUtils {
  import opened Incidents
  import CheckCounter

  /** The reference date if one is given, otherwise today. */
  function ReferenceDay(reference: Option<int>, today: int): int
  {
    match reference
    case Some(r) => r
    case None => today
  }

  /**
   * Days from the latest incident to the reference date (`today` when none
   * is given); 0 for an empty log or an empty latest date string, whatever
   * the reference. A latest date that does not parse aborts the run.
   */
  function DaysSince(incidents: seq<Incident>, parse: Parser, reference: Option<int>, today: int)
    : (r: Result<int>)
    ensures |incidents| == 0 ==> r == Ok(0)
    ensures |incidents| > 0 && LastIncidentDate(incidents).value == "" ==> r == Ok(0)
    ensures r.Err? <==> (|incidents| > 0 && LastIncidentDate(incidents).value != ""
                                          && parse(LastIncidentDate(incidents).value).None?)
    ensures r.Err? ==> r.badDate == LastIncidentDate(incidents).value
    ensures r.Ok? && |incidents| > 0 && LastIncidentDate(incidents).value != "" ==>
              parse(LastIncidentDate(incidents).value) == Some(ReferenceDay(reference, today) - r.value)
  {
    match LastIncidentDate(incidents)
    case None => Ok(0)
    case Some(last) =>
      if last == "" then Ok(0)
      else
        match parse(last)
        case None => Err(last)
        case Some(d) => Ok(ReferenceDay(reference, today) - d)
  }

  /** Without a reference date this is the daily check's copy, measured to today. */
  lemma NoReferenceMeansToday(incidents: seq<Incident>, parse: Parser, today: int)
    ensures DaysSince(incidents, parse, None, today) == CheckCounter.DaysSince(incidents, parse, today)
  {
  }

  /** One incident on day `d`: the count is `reference - d`. */
  lemma SingleIncident(incident: Incident, parse: Parser, reference: int, today: int)
    requires incident.date != "" && parse(incident.date).Some?
    ensures DaysSince([incident], parse, Some(reference), today) == Ok(reference - parse(incident.date).value)
  {
  }

  /** Only the latest date matters: reordering the log does not change the count. */
  lemma DaysSinceOfPermutation(a: seq<Incident>, b: seq<Incident>, parse: Parser, reference: Option<int>, today: int)
    requires multiset(Dates(a)) == multiset(Dates(b))
    ensures DaysSince(a, parse, reference, today) == DaysSince(b, parse, reference, today)
  {
    LastIncidentDateOfPermutation(a, b);
  }

  /** Moving the reference date `k` days later adds `k` to the count (not clamped, so it may go below 0). */
  lemma DaysSinceShift(incidents: seq<Incident>, parse: Parser, reference: int, k: int, today: int)
    requires |incidents| > 0 && LastIncidentDate(incidents).value != ""
    requires DaysSince(incidents, parse, Some(reference), today).Ok?
    ensures DaysSince(incidents, parse, Some(reference + k), today) ==
              Ok(DaysSince(incidents, parse, Some(reference), today).value + k)
  {
  }
}
