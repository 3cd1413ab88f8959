/** The Dashboard page's threat level (src/pages/Dashboard.jsx:46-60). */
module Dashboard {
  import opened Seqs
  import opened Events

  datatype ThreatLevel = LowThreat | MediumThreat | HighThreat | CriticalThreat

  /** The order low < medium < high < critical. */
  function Rank(t: ThreatLevel): nat {
    match t
    case LowThreat => 0
    case MediumThreat => 1
    case HighThreat => 2
    case CriticalThreat => 3
  }

  const ThreatWindowMs: int := 5 * MinuteMs

  /** Strictly newer than five minutes before `now`. */
  predicate IsRecent(a: Alert, now: int) {
    a.timestamp > now - ThreatWindowMs
  }

  /** `getThreatLevel`, with the clock reading `Date.now()` passed in as `now`. */
  function GetThreatLevel(alerts: seq<Alert>, now: int): ThreatLevel {
    var recent := Recent(alerts, now);
    var critical := CountSeverity(recent, Critical);
    var high := CountSeverity(recent, High);
    if critical > 0 then CriticalThreat
    else if high > 2 then HighThreat
    else if high > 0 then MediumThreat
    else LowThreat
  }

  /** `recentAlerts`: the alerts inside the window. */
  function Recent(alerts: seq<Alert>, now: int): seq<Alert> {
    Filter(alerts, (a: Alert) => IsRecent(a, now))
  }

  lemma RecentCons(a: Alert, alerts: seq<Alert>, now: int)
    ensures Recent([a] + alerts, now) == if IsRecent(a, now) then [a] + Recent(alerts, now) else Recent(alerts, now)
  {
    assert ([a] + alerts)[1..] == alerts;
  }

  /** Recent alerts of one severity. */
  function RecentCount(alerts: seq<Alert>, now: int, s: Severity): nat {
    CountSeverity(Recent(alerts, now), s)
  }

  /** The level in terms of the recent alerts: the first matching rule wins. */
  lemma ThreatLevelRules(alerts: seq<Alert>, now: int)
    ensures var t := GetThreatLevel(alerts, now);
      var critical := RecentCount(alerts, now, Critical);
      var high := RecentCount(alerts, now, High);
      && (t == CriticalThreat <==> critical > 0)
      && (t == HighThreat <==> critical == 0 && high > 2)
      && (t == MediumThreat <==> critical == 0 && 1 <= high <= 2)
      && (t == LowThreat <==> critical == 0 && high == 0)
  {
  }

  /** Any critical alert inside the window makes the level critical. */
  lemma RecentCriticalIsCritical(alerts: seq<Alert>, now: int, a: Alert)
    requires a in alerts && IsRecent(a, now) && a.severity == Critical
    ensures GetThreatLevel(alerts, now) == CriticalThreat
  {
    assert a in Recent(alerts, now);
    CountPositive(Recent(alerts, now), (a: Alert) => a.severity == Critical);
  }

  /** An empty list is low. */
  lemma NoAlertsIsLow(now: int)
    ensures GetThreatLevel([], now) == LowThreat
  {
  }

  /** Only the five-minute window matters: alerts older than it never affect the level. */
  lemma OldAlertIgnored(a: Alert, alerts: seq<Alert>, now: int)
    requires !IsRecent(a, now)
    ensures GetThreatLevel([a] + alerts, now) == GetThreatLevel(alerts, now)
  {
    RecentCons(a, alerts, now);
  }

  lemma RecentConsCounts(a: Alert, alerts: seq<Alert>, now: int, s: Severity)
    ensures RecentCount([a] + alerts, now, s)
         == RecentCount(alerts, now, s) + (if IsRecent(a, now) && a.severity == s then 1 else 0)
  {
    RecentCons(a, alerts, now);
    var rest := Recent(alerts, now);
    assert ([a] + rest)[1..] == rest;
  }

  /** Adding an alert that is neither high nor critical leaves the level as it was. */
  lemma MinorAlertKeepsLevel(a: Alert, alerts: seq<Alert>, now: int)
    requires a.severity != High && a.severity != Critical
    ensures GetThreatLevel([a] + alerts, now) == GetThreatLevel(alerts, now)
  {
    RecentConsCounts(a, alerts, now, Critical);
    RecentConsCounts(a, alerts, now, High);
  }

  /** Adding an alert never lowers the level. */
  lemma AddingAlertNeverLowers(a: Alert, alerts: seq<Alert>, now: int)
    ensures Rank(GetThreatLevel([a] + alerts, now)) >= Rank(GetThreatLevel(alerts, now))
  {
    RecentConsCounts(a, alerts, now, Critical);
    RecentConsCounts(a, alerts, now, High);
  }

  /** The worked cases: one critical, three highs, one high, nothing. */
  lemma ThreatLevelExamples(now: int, c: Alert, h1: Alert, h2: Alert, h3: Alert)
    requires c.severity == Critical && c.timestamp == now - MinuteMs
    requires h1.severity == High && h1.timestamp == now - MinuteMs
    requires h2.severity == High && h2.timestamp == now - 2 * MinuteMs
    requires h3.severity == High && h3.timestamp == now - 3 * MinuteMs
    ensures GetThreatLevel([c], now) == CriticalThreat
    ensures GetThreatLevel([h1, h2, h3], now) == HighThreat
    ensures GetThreatLevel([h1], now) == MediumThreat
    ensures GetThreatLevel([], now) == LowThreat
  {
    assert [c] == [c] + [] && [h1] == [h1] + [];
    RecentConsCounts(c, [], now, Critical);
    RecentConsCounts(h1, [], now, Critical);
    RecentConsCounts(h1, [], now, High);
    assert RecentCount([c], now, Critical) == 1;
    assert RecentCount([h1], now, Critical) == 0 && RecentCount([h1], now, High) == 1;
    ThreeHighs(now, h1, h2, h3);
    ThreatLevelRules([c], now);
    ThreatLevelRules([h1], now);
    ThreatLevelRules([h1, h2, h3], now);
  }

  /** Three high alerts inside the window and no critical one. */
  lemma ThreeHighs(now: int, h1: Alert, h2: Alert, h3: Alert)
    requires h1.severity == High && h1.timestamp == now - MinuteMs
    requires h2.severity == High && h2.timestamp == now - 2 * MinuteMs
    requires h3.severity == High && h3.timestamp == now - 3 * MinuteMs
    ensures RecentCount([h1, h2, h3], now, High) == 3
    ensures RecentCount([h1, h2, h3], now, Critical) == 0
  {
    assert [h1, h2, h3] == [h1] + [h2, h3] && [h2, h3] == [h2] + [h3] && [h3] == [h3] + [];
    RecentConsCounts(h3, [], now, High);
    RecentConsCounts(h2, [h3], now, High);
    RecentConsCounts(h1, [h2, h3], now, High);
    RecentConsCounts(h3, [], now, Critical);
    RecentConsCounts(h2, [h3], now, Critical);
    RecentConsCounts(h1, [h2, h3], now, Critical);
  }
}
