/**
 * The system health panel (src/components/Dashboard/SystemHealth.jsx): four
 * metrics derived from the connection flag and the number of buffered
 * activities, and an overall status that lets an error outrank a warning.
 */
module SystemHealth {
  import opened Seqs

  datatype HealthStatus = Healthy | Warning | Error

  datatype Metric = Metric(name: string, status: HealthStatus)

  /** `healthMetrics`; the Dashboard passes `activities.length` as `activitiesCount`. */
  function HealthMetrics(isConnected: bool, activitiesCount: int): (ms: seq<Metric>)
    ensures |ms| == 4
    ensures ms[0].status == Healthy && ms[1].status == Healthy
    ensures ms[2].status == Error <==> !isConnected
    ensures ms[2].status != Warning
    ensures ms[3].status == Warning <==> activitiesCount <= 0
    ensures ms[3].status != Error
  {
    [ Metric("AI Engine", Healthy),
      Metric("Database", Healthy),
      Metric("WebSocket", if isConnected then Healthy else Error),
      Metric("Monitoring", if activitiesCount > 0 then Healthy else Warning) ]
  }

  predicate IsError(m: Metric) { m.status == Error }
  predicate IsWarning(m: Metric) { m.status == Warning }

  /** `getOverallStatus`: first-match on the error count, then the warning count. */
  function OverallStatus(ms: seq<Metric>): HealthStatus {
    var errorCount := Count(ms, IsError);
    var warningCount := Count(ms, IsWarning);
    if errorCount > 0 then Error
    else if warningCount > 0 then Warning
    else Healthy
  }

  /** Precedence over any list of metrics: an error outranks a warning, which outranks healthy. */
  lemma OverallStatusPrecedence(ms: seq<Metric>)
    ensures OverallStatus(ms) == Error <==> exists m :: m in ms && m.status == Error
    ensures OverallStatus(ms) == Warning <==>
      (forall m :: m in ms ==> m.status != Error) && exists m :: m in ms && m.status == Warning
    ensures OverallStatus(ms) == Healthy <==> forall m :: m in ms ==> m.status == Healthy
  {
    CountPositive(ms, IsError);
    CountPositive(ms, IsWarning);
  }

  /** On the dashboard: an error exactly when disconnected, a warning exactly when connected with no activities. */
  lemma DashboardHealth(isConnected: bool, activitiesCount: int)
    ensures OverallStatus(HealthMetrics(isConnected, activitiesCount)) == Error <==> !isConnected
    ensures OverallStatus(HealthMetrics(isConnected, activitiesCount)) == Warning <==>
      isConnected && activitiesCount <= 0
    ensures OverallStatus(HealthMetrics(isConnected, activitiesCount)) == Healthy <==>
      isConnected && activitiesCount > 0
  {
    var ms := HealthMetrics(isConnected, activitiesCount);
    OverallStatusPrecedence(ms);
    assert forall m :: m in ms <==> m == ms[0] || m == ms[1] || m == ms[2] || m == ms[3];
  }
}
