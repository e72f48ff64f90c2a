/**
 * The incident log shared by every script: the record type, Python's
 * ordering of date strings, the "most recent date" lookup, sorting by the
 * raw date string, and parsing a list of date strings into day numbers.
 *
 * A calendar date is a day number (an `int`). Every operation that parses
 * (dateutil's `parse`, `datetime.strptime`) takes the parser as a parameter
 * `parse`, a partial map from a string to a day number (`None` where the
 * library raises `ValueError`); module IsoDates gives a concrete one.
 */
module Incidents {

  datatype Option<T> = None | Some(value: T)

  /** A computation that either succeeds or stops on a date string that does not parse. */
  datatype Result<T> = Ok(value: T) | Err(badDate: string)

  /**
   * One entry of the `incidents` list of the JSON log. `date` is always
   * present (the scripts index it with `x['date']`); the other keys may be
   * absent, which `None` stands for.
   */
  datatype Incident = Incident(
    date: string,
    description: Option<string>,
    postmortemLink: Option<string>,
    severity: Option<string>)

  /** A date parser: the day number of a date string, or `None` if it does not parse. */
  type Parser = string -> Option<int>

  function Max(a: int, b: int): int { if a < b then b else a }

  function Dates(incidents: seq<Incident>): (ds: seq<string>)
    ensures |ds| == |incidents|
    ensures forall i :: 0 <= i < |ds| ==> ds[i] == incidents[i].date
  {
    seq(|incidents|, i requires 0 <= i < |incidents| => incidents[i].date)
  }

  // ---------------------------------------------------------------------
  // Python's comparison of `str` values: lexicographic by code point.
  // ---------------------------------------------------------------------

  predicate StrLe(a: string, b: string)
  {
    |a| == 0 || (|b| > 0 && (a[0] < b[0] || (a[0] == b[0] && StrLe(a[1..], b[1..]))))
  }

  predicate StrLt(a: string, b: string)
  {
    StrLe(a, b) && a != b
  }

  lemma {:induction false} StrLeReflexive(a: string)
    ensures StrLe(a, a)
  {
    if |a| > 0 {
      StrLeReflexive(a[1..]);
    }
  }

  lemma {:induction false} StrLeTotal(a: string, b: string)
    ensures StrLe(a, b) || StrLe(b, a)
  {
    if |a| > 0 && |b| > 0 && a[0] == b[0] {
      StrLeTotal(a[1..], b[1..]);
    }
  }

  lemma {:induction false} StrLeAntisymmetric(a: string, b: string)
    requires StrLe(a, b) && StrLe(b, a)
    ensures a == b
  {
    if |a| > 0 && |b| > 0 {
      StrLeAntisymmetric(a[1..], b[1..]);
      assert a == [a[0]] + a[1..];
      assert b == [b[0]] + b[1..];
    }
  }

  lemma {:induction false} StrLeTransitive(a: string, b: string, c: string)
    requires StrLe(a, b) && StrLe(b, c)
    ensures StrLe(a, c)
  {
    if |a| > 0 && |b| > 0 && |c| > 0 && a[0] == b[0] && b[0] == c[0] {
      StrLeTransitive(a[1..], b[1..], c[1..]);
    }
  }

  /** Not `a <= b` means `b < a`: used wherever the scripts branch on a comparison. */
  lemma StrNotLe(a: string, b: string)
    requires !StrLe(a, b)
    ensures StrLt(b, a)
  {
    StrLeTotal(a, b);
    if a == b { StrLeReflexive(a); }
  }

  // ---------------------------------------------------------------------
  // get_last_incident_date
  // ---------------------------------------------------------------------

  /** The greatest string of a non-empty list, in Python's string order. */
  function MaxDate(ds: seq<string>): (r: string)
    requires |ds| > 0
    ensures r in ds
    ensures forall i :: 0 <= i < |ds| ==> StrLe(ds[i], r)
  {
    if |ds| == 1 then
      StrLeReflexive(ds[0]);
      ds[0]
    else
      var m := MaxDate(ds[1..]);
      assert forall i :: 1 <= i < |ds| ==> StrLe(ds[i], m) by {
        forall i | 1 <= i < |ds| ensures StrLe(ds[i], m) { assert ds[i] == ds[1..][i - 1]; }
      }
      if StrLe(m, ds[0]) then
        StrLeReflexive(ds[0]);
        forall i | 1 <= i < |ds| ensures StrLe(ds[i], ds[0]) { StrLeTransitive(ds[i], m, ds[0]); }
        ds[0]
      else
        StrNotLe(m, ds[0]);
        m
  }

  /**
   * `get_last_incident_date`: sort by the raw date string, newest first, and
   * take the first date; `None` for an empty list.
   */
  function LastIncidentDate(incidents: seq<Incident>): (r: Option<string>)
    ensures r.None? <==> |incidents| == 0
    ensures r.Some? ==> exists i :: 0 <= i < |incidents| && incidents[i].date == r.value
    ensures r.Some? ==> forall i :: 0 <= i < |incidents| ==> StrLe(incidents[i].date, r.value)
  {
    if |incidents| == 0 then None
    else
      var ds := Dates(incidents);
      var m := MaxDate(ds);
      assert forall i :: 0 <= i < |incidents| ==> StrLe(incidents[i].date, m) by {
        forall i | 0 <= i < |incidents| ensures StrLe(incidents[i].date, m) { assert ds[i] == incidents[i].date; }
      }
      Some(m)
  }

  /** The latest date depends only on the multiset of dates, not on the order of the log. */
  lemma LastIncidentDateOfPermutation(a: seq<Incident>, b: seq<Incident>)
    requires multiset(Dates(a)) == multiset(Dates(b))
    ensures LastIncidentDate(a) == LastIncidentDate(b)
  {
    var da, db := Dates(a), Dates(b);
    assert |da| == |multiset(da)| == |multiset(db)| == |db|;
    if |a| > 0 {
      var ma, mb := LastIncidentDate(a).value, LastIncidentDate(b).value;
      var i :| 0 <= i < |a| && a[i].date == ma;
      var j :| 0 <= j < |b| && b[j].date == mb;
      assert da[i] == ma;
      assert ma in multiset(db);
      var j' :| 0 <= j' < |db| && db[j'] == ma;
      assert mb in multiset(da);
      var i' :| 0 <= i' < |da| && da[i'] == mb;
      StrLeAntisymmetric(ma, mb);
    }
  }

  // ---------------------------------------------------------------------
  // sorted(incidents, key=lambda x: x['date'])
  // ---------------------------------------------------------------------

  predicate Sorted(ds: seq<string>)
  {
    forall i, j :: 0 <= i < j < |ds| ==> StrLe(ds[i], ds[j])
  }

  function Insert(x: string, ds: seq<string>): (r: seq<string>)
    requires Sorted(ds)
    ensures Sorted(r)
    ensures multiset(r) == multiset(ds) + multiset{x}
  {
    if ds == [] then
      [x]
    else if StrLe(x, ds[0]) then
      forall j | 0 <= j < |ds| ensures StrLe(x, ds[j]) {
        if j > 0 { StrLeTransitive(x, ds[0], ds[j]); }
      }
      [x] + ds
    else
      StrNotLe(x, ds[0]);
      var rest := Insert(x, ds[1..]);
      assert ds == [ds[0]] + ds[1..];
      forall y | y in multiset(rest) ensures StrLe(ds[0], y) {
        if y != x {
          assert y in multiset(ds[1..]);
          var k :| 0 <= k < |ds[1..]| && ds[1..][k] == y;
          assert ds[k + 1] == y;
        }
      }
      forall j | 0 <= j < |rest| ensures StrLe(ds[0], rest[j]) {
        assert rest[j] in multiset(rest);
      }
      [ds[0]] + rest
  }

  /** Python's `sorted` on a list of strings, ascending. */
  function SortStrings(ds: seq<string>): (r: seq<string>)
    ensures Sorted(r)
    ensures multiset(r) == multiset(ds)
  {
    if ds == [] then []
    else
      assert ds == [ds[0]] + ds[1..];
      Insert(ds[0], SortStrings(ds[1..]))
  }

  // ---------------------------------------------------------------------
  // Parsing a list of dates: the first one that does not parse stops it.
  // ---------------------------------------------------------------------

  function ParseAll(parse: Parser, ds: seq<string>): (r: Result<seq<int>>)
    ensures r.Ok? <==> forall i :: 0 <= i < |ds| ==> parse(ds[i]).Some?
    ensures r.Ok? ==> |r.value| == |ds| && forall i :: 0 <= i < |ds| ==> parse(ds[i]) == Some(r.value[i])
  {
    if ds == [] then Ok([])
    else
      var n := |ds| - 1;
      var prefix := ds[..n];
      assert forall i :: 0 <= i < n ==> prefix[i] == ds[i];
      match ParseAll(parse, prefix)
      case Err(b) => Err(b)
      case Ok(days) =>
        match parse(ds[n])
        case None => Err(ds[n])
        case Some(d) => Ok(days + [d])
  }

  /** The date a failure reports is the first one that does not parse. */
  lemma {:induction false} ParseAllFailsAtFirst(parse: Parser, ds: seq<string>)
    requires ParseAll(parse, ds).Err?
    ensures exists i :: 0 <= i < |ds| && ds[i] == ParseAll(parse, ds).badDate && parse(ds[i]).None?
                        && forall j :: 0 <= j < i ==> parse(ds[j]).Some?
  {
    var n := |ds| - 1;
    var prefix := ds[..n];
    assert forall i :: 0 <= i < n ==> prefix[i] == ds[i];
    if ParseAll(parse, prefix).Err? {
      ParseAllFailsAtFirst(parse, prefix);
      var i :| 0 <= i < |prefix| && prefix[i] == ParseAll(parse, prefix).badDate && parse(prefix[i]).None?
                && forall j :: 0 <= j < i ==> parse(prefix[j]).Some?;
      assert ds[i] == ParseAll(parse, ds).badDate;
    } else {
      assert ParseAll(parse, ds).badDate == ds[n];
    }
  }

  /** A failure in a prefix is the failure of the whole list. */
  lemma {:induction false} ParseAllPrefixErr(parse: Parser, ds: seq<string>, k: nat)
    requires k <= |ds|
    requires ParseAll(parse, ds[..k]).Err?
    ensures ParseAll(parse, ds) == ParseAll(parse, ds[..k])
  {
    if k < |ds| {
      var n := |ds| - 1;
      assert ds[..n][..k] == ds[..k];
      ParseAllPrefixErr(parse, ds[..n], k);
      var b := ParseAll(parse, ds[..n]).badDate;
      assert ParseAll(parse, ds[..n]) == Err(b);
    } else {
      assert ds[..k] == ds;
    }
  }

  /** A list whose prefix parsed, extended by one date. */
  lemma ParseAllExtend(parse: Parser, ds: seq<string>, k: nat, days: seq<int>)
    requires k < |ds|
    requires ParseAll(parse, ds[..k]) == Ok(days)
    ensures ParseAll(parse, ds[..k + 1]) ==
              if parse(ds[k]).Some? then Ok(days + [parse(ds[k]).value]) else Err(ds[k])
  {
    assert ds[..k + 1][..k] == ds[..k];
  }

  // ---------------------------------------------------------------------
  // The hypothesis under which sorting strings sorts dates.
  // ---------------------------------------------------------------------

  /**
   * The string order of the dates agrees with their chronological order.
   * True of zero-padded YYYY-MM-DD strings (IsoDates.IsoDatesChronological);
   * the scripts rely on it whenever they sort or take a maximum by the raw
   * string.
   */
  predicate Chronological(parse: Parser, ds: seq<string>)
  {
    forall i, j :: 0 <= i < |ds| && 0 <= j < |ds| ==> ChronologicalPair(parse, ds[i], ds[j])
  }

  /** Two dates that both parse compare as strings exactly as they compare as days. */
  predicate ChronologicalPair(parse: Parser, a: string, b: string)
  {
    parse(a).Some? && parse(b).Some? ==> (StrLe(a, b) <==> parse(a).value <= parse(b).value)
  }

  /** One instance of the hypothesis. */
  lemma ChronologicalAt(parse: Parser, ds: seq<string>, i: nat, j: nat)
    requires Chronological(parse, ds)
    requires i < |ds| && j < |ds| && parse(ds[i]).Some? && parse(ds[j]).Some?
    ensures StrLe(ds[i], ds[j]) <==> parse(ds[i]).value <= parse(ds[j]).value
  {
  }

  /** Under that hypothesis the latest date string is also the latest day. */
  lemma LatestIsChronologicalMax(parse: Parser, incidents: seq<Incident>, i: nat)
    requires Chronological(parse, Dates(incidents))
    requires |incidents| > 0 && parse(LastIncidentDate(incidents).value).Some?
    requires i < |incidents| && parse(incidents[i].date).Some?
    ensures parse(incidents[i].date).value <= parse(LastIncidentDate(incidents).value).value
  {
    var ds := Dates(incidents);
    var last := LastIncidentDate(incidents).value;
    var k :| 0 <= k < |incidents| && incidents[k].date == last;
    assert ds[i] == incidents[i].date && ds[k] == last;
    ChronologicalAt(parse, ds, i, k);
  }
}
