/**
 * Reporting an incident (scripts/reset_counter.py): the streak that is lost,
 * appending the new record to the log, and the Slack notification about it.
 */
module ResetCounter {
  import opened Incidents
  import opened Blocks
  import CheckCounter

  /**
   * calculate_days_since_incident, this script's copy: like the daily
   * check's, except that a latest date that does not parse yields 0
   * instead of aborting the run.
   */
  function DaysSince(incidents: seq<Incident>, parse: Parser, today: int): (r: int)
    ensures |incidents| == 0 ==> r == 0
    ensures |incidents| > 0 && LastIncidentDate(incidents).value != "" &&
            parse(LastIncidentDate(incidents).value).Some? ==>
              r == today - parse(LastIncidentDate(incidents).value).value
    ensures |incidents| > 0 &&
            (LastIncidentDate(incidents).value == "" || parse(LastIncidentDate(incidents).value).None?) ==>
              r == 0
  {
    match LastIncidentDate(incidents)
    case None => 0
    case Some(last) =>
      if last == "" then 0
      else
        match parse(last)
        case None => 0
        case Some(d) => today - d
  }

  /** The two copies agree wherever the daily check does not abort; where it aborts, this one says 0. */
  lemma DaysSinceAgreesWithCheck(incidents: seq<Incident>, parse: Parser, today: int)
    ensures DaysSince(incidents, parse, today) ==
              match CheckCounter.DaysSince(incidents, parse, today)
              case Ok(days) => days
              case Err(_) => 0
  {
  }

  // ---------------------------------------------------------------------
  // format_incident_notification
  // ---------------------------------------------------------------------

  /** What each text of the notification says. */
  datatype NoticeText =
    | IncidentReportedSummary           // "Incident Reported - Counter Reset"
    | IncidentReportedHeader            // "Incident Reported", with a siren
    | StreakEnded(daysLost: int)        // "Our streak of {days_lost} days has ended, ..."
    | IncidentDateField(date: string)
    | DaysLostField(daysLost: int)
    | TotalIncidentsField(total: nat)
    | SeverityField(shown: string)
    | DescriptionText(description: string)
    | PostmortemText(link: string)
    | RememberText

  /** Python truthiness of `new_incident.get(key)` for a text value. */
  predicate Truthy(value: Option<string>)
  {
    value.Some? && value.value != ""
  }

  const NotSpecified := "Not specified"

  /** `new_incident.get('severity', 'Not specified')`: the default only when the key is absent. */
  function SeverityShown(severity: Option<string>): (shown: string)
    ensures severity.None? ==> shown == NotSpecified
    ensures severity.Some? ==> shown == severity.value
  {
    match severity
    case None => NotSpecified
    case Some(s) => s
  }

  /** The four fields of the notification. */
  function NoticeFields(incidents: seq<Incident>, daysLost: int, newIncident: Incident): seq<NoticeText>
  {
    [IncidentDateField(newIncident.date), DaysLostField(daysLost),
     TotalIncidentsField(|incidents|), SeverityField(SeverityShown(newIncident.severity))]
  }

  /** Where each block sits in the notification; blocks appear in strictly increasing order of this. */
  function NoticeRank(b: Block<NoticeText>): nat
  {
    match b
    case Header(_) => 0
    case Section(StreakEnded(_)) => 1
    case Fields(_) => 2
    case Section(DescriptionText(_)) => 3
    case Section(PostmortemText(_)) => 4
    case Divider => 5
    case _ => 6
  }

  predicate IsDescriptionSection(b: Block<NoticeText>)
  {
    b.Section? && b.text.DescriptionText?
  }

  predicate IsPostmortemSection(b: Block<NoticeText>)
  {
    b.Section? && b.text.PostmortemText?
  }

  /**
   * In a notification whose blocks are in rank order (as
   * FormatIncidentNotification ensures), the description precedes the
   * postmortem link, and both precede the divider.
   */
  lemma NoticeSectionsInOrder(blocks: seq<Block<NoticeText>>, i: nat, j: nat, k: nat)
    requires InRankOrder(blocks, NoticeRank) && i < |blocks| && j < |blocks| && k < |blocks|
    requires IsDescriptionSection(blocks[i]) && IsPostmortemSection(blocks[j]) && blocks[k] == Divider
    ensures i < j < k
  {
    LowerRankComesFirst(blocks, NoticeRank, i, j);
    LowerRankComesFirst(blocks, NoticeRank, j, k);
  }

  /**
   * The blocks of the notification, in the order format_incident_notification
   * appends them, given the values it shows.
   */
  function NoticeBlocks(daysLost: int, fields: seq<NoticeText>, description: Option<string>,
                        postmortemLink: Option<string>): seq<Block<NoticeText>>
  {
    [Header(IncidentReportedHeader), Section(StreakEnded(daysLost)), Fields(fields)]
    + DescriptionBlocks(description)
    + PostmortemBlocks(postmortemLink)
    + [Divider, Section(RememberText)]
  }

  /** The description section, when the description is truthy. */
  function DescriptionBlocks(description: Option<string>): (bs: seq<Block<NoticeText>>)
    ensures |bs| == Count(Truthy(description))
    ensures forall i :: 0 <= i < |bs| ==> bs[i] == Section(DescriptionText(description.value))
  {
    if Truthy(description) then [Section(DescriptionText(description.value))] else []
  }

  /** The postmortem section, when the link is truthy. */
  function PostmortemBlocks(link: Option<string>): (bs: seq<Block<NoticeText>>)
    ensures |bs| == Count(Truthy(link))
    ensures forall i :: 0 <= i < |bs| ==> bs[i] == Section(PostmortemText(link.value))
  {
    if Truthy(link) then [Section(PostmortemText(link.value))] else []
  }

  /** Each block ranks above the one before it: the order of the appends. */
  lemma NoticeBlocksInRankOrder(daysLost: int, fields: seq<NoticeText>, description: Option<string>,
                                postmortemLink: Option<string>)
    ensures InRankOrder(NoticeBlocks(daysLost, fields, description, postmortemLink), NoticeRank)
  {
  }

  /** The optional sections are present exactly when their values are truthy. */
  lemma NoticeBlocksSections(daysLost: int, fields: seq<NoticeText>, description: Option<string>,
                             postmortemLink: Option<string>)
    ensures var bs := NoticeBlocks(daysLost, fields, description, postmortemLink);
            && (Truthy(description) ==> Section(DescriptionText(description.value)) in bs)
            && (!Truthy(description) ==> forall i :: 0 <= i < |bs| ==> !IsDescriptionSection(bs[i]))
            && (Truthy(postmortemLink) ==> Section(PostmortemText(postmortemLink.value)) in bs)
            && (!Truthy(postmortemLink) ==> forall i :: 0 <= i < |bs| ==> !IsPostmortemSection(bs[i]))
  {
    var bs := NoticeBlocks(daysLost, fields, description, postmortemLink);
    var desc := DescriptionBlocks(description);
    if Truthy(description) {
      assert bs[3] == desc[0];
    }
    if Truthy(postmortemLink) {
      assert bs[3 + |desc|] == Section(PostmortemText(postmortemLink.value));
    }
  }

  method FormatIncidentNotification(incidents: seq<Incident>, daysLost: int, newIncident: Incident)
    returns (m: Message<NoticeText>)
    ensures m.text == IncidentReportedSummary
    ensures |m.blocks| == 5 + Count(Truthy(newIncident.description)) + Count(Truthy(newIncident.postmortemLink))
    ensures m.blocks[0] == Header(IncidentReportedHeader)
    ensures m.blocks[1] == Section(StreakEnded(daysLost))
    ensures m.blocks[2] == Fields(NoticeFields(incidents, daysLost, newIncident))
    ensures Truthy(newIncident.description) ==>
              Section(DescriptionText(newIncident.description.value)) in m.blocks
    ensures !Truthy(newIncident.description) ==>
              forall i :: 0 <= i < |m.blocks| ==> !IsDescriptionSection(m.blocks[i])
    ensures Truthy(newIncident.postmortemLink) ==>
              Section(PostmortemText(newIncident.postmortemLink.value)) in m.blocks
    ensures !Truthy(newIncident.postmortemLink) ==>
              forall i :: 0 <= i < |m.blocks| ==> !IsPostmortemSection(m.blocks[i])
    ensures m.blocks[|m.blocks| - 2] == Divider && m.blocks[|m.blocks| - 1] == Section(RememberText)
    ensures InRankOrder(m.blocks, NoticeRank)
    ensures m == Message(IncidentReportedSummary,
                         NoticeBlocks(daysLost, NoticeFields(incidents, daysLost, newIncident),
                                      newIncident.description, newIncident.postmortemLink))
  {
    var blocks := [
      Header(IncidentReportedHeader),
      Section(StreakEnded(daysLost)),
      Fields(NoticeFields(incidents, daysLost, newIncident))
    ];
    ghost var expected := blocks;
    if Truthy(newIncident.description) {
      blocks := blocks + [Section(DescriptionText(newIncident.description.value))];
    }
    expected := expected + DescriptionBlocks(newIncident.description);
    assert blocks == expected;
    if Truthy(newIncident.postmortemLink) {
      blocks := blocks + [Section(PostmortemText(newIncident.postmortemLink.value))];
    }
    expected := expected + PostmortemBlocks(newIncident.postmortemLink);
    assert blocks == expected;
    blocks := blocks + [Divider];
    blocks := blocks + [Section(RememberText)];
    var fields := NoticeFields(incidents, daysLost, newIncident);
    assert blocks == NoticeBlocks(daysLost, fields, newIncident.description, newIncident.postmortemLink);
    NoticeBlocksInRankOrder(daysLost, fields, newIncident.description, newIncident.postmortemLink);
    NoticeBlocksSections(daysLost, fields, newIncident.description, newIncident.postmortemLink);
    m := Message(IncidentReportedSummary, blocks);
  }

  // ---------------------------------------------------------------------
  // main: compute the streak lost, then append the new record
  // ---------------------------------------------------------------------

  /** The record `main` builds from its arguments: exactly these four keys. */
  function NewIncident(date: string, description: string, postmortem: string, severity: string): Incident
  {
    Incident(date, Some(description), Some(postmortem), Some(severity))
  }

  /** The loaded JSON document, whose `incidents` list `main` appends to in place. */
  class IncidentLog {
    var incidents: seq<Incident>

    constructor(incidents: seq<Incident>)
      ensures this.incidents == incidents
    {
      this.incidents := incidents;
    }

    /**
     * The days lost are counted on the log as it was before the new record
     * is appended; the notification, when asked for, is built from the log
     * after the append.
     */
    method ReportIncident(date: string, description: string, postmortem: string, severity: string,
                          parse: Parser, today: int, notify: bool)
      returns (daysLost: int, newIncident: Incident, message: Option<Message<NoticeText>>)
      modifies this
      ensures daysLost == DaysSince(old(incidents), parse, today)
      ensures newIncident == NewIncident(date, description, postmortem, severity)
      ensures incidents == old(incidents) + [newIncident]
      ensures message.Some? <==> notify
      ensures notify ==> |message.value.blocks| >= 5
      ensures notify ==> message.value.blocks[1] == Section(StreakEnded(daysLost))
      ensures notify ==>
                message.value.blocks[2] ==
                  Fields([IncidentDateField(date), DaysLostField(daysLost),
                          TotalIncidentsField(|old(incidents)| + 1), SeverityField(severity)])
    ensures notify ==>
              message.value ==
                Message(IncidentReportedSummary,
                        NoticeBlocks(daysLost, NoticeFields(incidents, daysLost, newIncident),
                                     Some(description), Some(postmortem)))
    {
      daysLost := DaysSince(incidents, parse, today);
      newIncident := NewIncident(date, description, postmortem, severity);
      incidents := incidents + [newIncident];
      if notify {
        var m := FormatIncidentNotification(incidents, daysLost, newIncident);
        message := Some(m);
      } else {
        message := None;
      }
    }
  }

  /**
   * Why the order matters: had the record dated today been appended first,
   * with every earlier date sorting no later than it, the streak lost would
   * always read 0.
   */
  lemma AppendingFirstLosesTheCount(incidents: seq<Incident>, newIncident: Incident, parse: Parser, today: int)
    requires newIncident.date != "" && parse(newIncident.date) == Some(today)
    requires forall i :: 0 <= i < |incidents| ==> StrLe(incidents[i].date, newIncident.date)
    ensures DaysSince(incidents + [newIncident], parse, today) == 0
  {
    var all := incidents + [newIncident];
    var last := LastIncidentDate(all).value;
    var k :| 0 <= k < |all| && all[k].date == last;
    assert StrLe(all[|incidents|].date, last);
    if k < |incidents| {
      assert StrLe(last, newIncident.date);
      StrLeAntisymmetric(last, newIncident.date);
    }
  }
}
