/**
 * The navigation sidebar (src/components/Layout/Sidebar.jsx): the Alerts
 * entry carries a badge with the number of high and critical alerts in the
 * stream buffer, hidden when there are none.
 */
module Sidebar {
  import opened Seqs
  import opened Events

  /** `alerts.filter(a => a.severity === 'high' || a.severity === 'critical').length` */
  function ActiveAlertsCount(alerts: seq<Alert>): (n: nat)
    ensures n <= |alerts|
  {
    Count(alerts, IsHighOrCritical)
  }

  /** The badge counts exactly the high and the critical alerts. */
  lemma {:induction false} ActiveAlertsAreHighPlusCritical(alerts: seq<Alert>)
    ensures ActiveAlertsCount(alerts) == CountSeverity(alerts, High) + CountSeverity(alerts, Critical)
  {
    if alerts != [] {
      ActiveAlertsAreHighPlusCritical(alerts[1..]);
    }
  }

  lemma ActiveAlertsPositive(alerts: seq<Alert>)
    ensures ActiveAlertsCount(alerts) > 0 <==> exists a :: a in alerts && IsHighOrCritical(a)
  {
    CountPositive(alerts, IsHighOrCritical);
  }

  datatype NavItem = NavItem(name: string, href: string, badge: Option<nat>)

  /** `activeAlertsCount > 0 ? activeAlertsCount : null` */
  function AlertsBadge(alerts: seq<Alert>): (b: Option<nat>)
    ensures b == None <==> ActiveAlertsCount(alerts) == 0
    ensures b.Some? ==> b.value == ActiveAlertsCount(alerts) && b.value > 0
  {
    var n := ActiveAlertsCount(alerts);
    if n > 0 then Some(n) else None
  }

  /** The `navigation` array. */
  function Navigation(alerts: seq<Alert>): (items: seq<NavItem>)
    ensures |items| == 5
    ensures items[1].name == "Alerts" && items[1].badge == AlertsBadge(alerts)
    ensures forall i :: 0 <= i < |items| && i != 1 ==> items[i].badge == None
  {
    [ NavItem("Dashboard", "/", None),
      NavItem("Alerts", "/alerts", AlertsBadge(alerts)),
      NavItem("Activities", "/activities", None),
      NavItem("Analytics", "/analytics", None),
      NavItem("Settings", "/settings", None) ]
  }

  /** A badge shows only when some alert is high or critical, and then only on the Alerts entry. */
  lemma BadgeShownIffUrgentAlert(alerts: seq<Alert>)
    ensures (exists i :: 0 <= i < 5 && Navigation(alerts)[i].badge.Some?)
        <==> exists a :: a in alerts && IsHighOrCritical(a)
  {
    ActiveAlertsPositive(alerts);
    assert Navigation(alerts)[1].badge == AlertsBadge(alerts);
  }
}
