/**
 * The two kinds of security event the dashboard receives, from the stream and
 * from the REST snapshots alike. Timestamps are milliseconds since the epoch
 * (the value `new Date(timestamp)` compares by). Severity is compared as a
 * string in the views, so a severity outside the enum of models.py is kept as
 * `Unrecognised` rather than ruled out.
 */
module Events {
  import opened Seqs

  datatype Severity = Low | Medium | High | Critical | Unrecognised(name: string)

  /** The wire names of models.py's SeverityLevel. */
  function SeverityName(s: Severity): string {
    match s
    case Low => "low"
    case Medium => "medium"
    case High => "high"
    case Critical => "critical"
    case Unrecognised(name) => name
  }

  predicate IsEnumSeverity(s: Severity) {
    !s.Unrecognised?
  }

  /** The severity a wire name denotes: one of the enum's four, or kept as `Unrecognised`. */
  function ParseSeverity(name: string): (s: Severity)
    ensures SeverityName(s) == name
    ensures WellFormedSeverity(s)
    ensures IsEnumSeverity(s) <==> name in {"low", "medium", "high", "critical"}
  {
    if name == "low" then Low
    else if name == "medium" then Medium
    else if name == "high" then High
    else if name == "critical" then Critical
    else Unrecognised(name)
  }

  /** A severity as parsing yields it: `Unrecognised` never carries an enum name. */
  predicate WellFormedSeverity(s: Severity) {
    s.Unrecognised? ==> s.name !in {"low", "medium", "high", "critical"}
  }

  /** On well-formed severities, the wire name and the parse are inverse. */
  lemma ParseNameRoundTrip(s: Severity, name: string)
    requires WellFormedSeverity(s)
    ensures ParseSeverity(SeverityName(s)) == s
    ensures ParseSeverity(name) == s <==> name == SeverityName(s)
  {
    if ParseSeverity(name) == s {
      assert SeverityName(ParseSeverity(name)) == name;
    }
  }

  /** A point on the globe, in degrees; a missing field is modelled as 0, which is falsy. */
  datatype Location = Location(latitude: real, longitude: real)

  datatype Alert = Alert(
    id: string,
    timestamp: int,
    userId: string,
    severity: Severity,
    description: string,
    status: string)

  datatype Activity = Activity(
    id: string,
    timestamp: int,
    userId: string,
    action: string,
    ipAddress: string,
    success: bool,
    location: Option<Location>)

  /** A filter select: the option 'all', or one value to match exactly. */
  datatype Choice<T(==)> = All | Only(value: T) {
    predicate Admits(x: T) {
      All? || x == value
    }
  }

  const MinuteMs: int := 60 * 1000
  const HourMs: int := 60 * MinuteMs
  const DayMs: int := 24 * HourMs

  function AlertId(a: Alert): string { a.id }
  function AlertTime(a: Alert): int { a.timestamp }
  function ActivityId(a: Activity): string { a.id }
  function ActivityTime(a: Activity): int { a.timestamp }

  /** The actions the Activities page and the profile count as suspicious. */
  const SuspiciousActions: set<string> := {"privilege_escalation", "mass_data_access", "suspicious_download"}

  predicate IsHighOrCritical(a: Alert) {
    a.severity == High || a.severity == Critical
  }

  function CountSeverity(alerts: seq<Alert>, s: Severity): nat {
    Count(alerts, (a: Alert) => a.severity == s)
  }

  /** The four enum severities and the unrecognised ones split the alerts between them. */
  lemma {:induction false} SeverityCountsPartition(alerts: seq<Alert>)
    ensures CountSeverity(alerts, Critical) + CountSeverity(alerts, High)
          + CountSeverity(alerts, Medium) + CountSeverity(alerts, Low)
          + Count(alerts, (a: Alert) => !IsEnumSeverity(a.severity)) == |alerts|
  {
    if alerts != [] {
      SeverityCountsPartition(alerts[1..]);
    }
  }

  /** When every severity is one of the enum's four, the four counts add up to the whole. */
  lemma SeverityCountsTotal(alerts: seq<Alert>)
    ensures (forall a :: a in alerts ==> IsEnumSeverity(a.severity)) ==>
      CountSeverity(alerts, Critical) + CountSeverity(alerts, High)
      + CountSeverity(alerts, Medium) + CountSeverity(alerts, Low) == |alerts|
  {
    SeverityCountsPartition(alerts);
    if forall a :: a in alerts ==> IsEnumSeverity(a.severity) {
      CountNone(alerts, (a: Alert) => !IsEnumSeverity(a.severity));
    }
  }
}
