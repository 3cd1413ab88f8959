/** The Alerts page (src/pages/Alerts.jsx): the merged view, its filters and the summary counts. */
module AlertsPage {
  import opened Seqs
  import opened Events
  import opened Merge
  import opened StableSort

  /** `allAlerts`: stream buffer and polled snapshot merged, newest first. */
  function AllAlerts(realtime: seq<Alert>, api: seq<Alert>): (r: seq<Alert>)
    ensures SortedDesc(r, AlertTime)
    ensures UniqueBy(r, AlertId)
    ensures forall a :: a in r ==> a in realtime || a in api
    ensures forall x :: x in realtime || x in api ==> exists a :: a in r && a.id == x.id
    ensures forall a :: a in r && FindIndex(realtime, AlertId, a.id) >= 0 ==>
      a == realtime[FindIndex(realtime, AlertId, a.id)]
  {
    MergeFeedsSpec(realtime, api, AlertId, AlertTime);
    MergeFeeds(realtime, api, AlertId, AlertTime)
  }

  datatype AlertFilters = AlertFilters(severity: Choice<Severity>, status: Choice<string>, search: string)

  /** An empty query matches everything; otherwise a case-insensitive substring of the user or the description. */
  predicate MatchesSearch(a: Alert, query: string) {
    query == []
    || Contains(Lower(a.userId), Lower(query))
    || Contains(Lower(a.description), Lower(query))
  }

  predicate MatchesFilters(a: Alert, f: AlertFilters) {
    f.severity.Admits(a.severity) && f.status.Admits(a.status) && MatchesSearch(a, f.search)
  }

  /** `filteredAlerts` */
  function FilteredAlerts(all: seq<Alert>, f: AlertFilters): (r: seq<Alert>)
    ensures IsSubsequence(r, all)
    ensures forall a :: a in r ==> MatchesFilters(a, f)
    ensures forall a :: a in all && MatchesFilters(a, f) ==> a in r
  {
    FilterIsSubsequence(all, (a: Alert) => MatchesFilters(a, f));
    Filter(all, (a: Alert) => MatchesFilters(a, f))
  }

  /** `clearFilters` */
  function ClearedFilters(): AlertFilters {
    AlertFilters(All, All, "")
  }

  /** With the filters cleared the page lists the whole merged view. */
  lemma ClearedFiltersShowAll(all: seq<Alert>)
    ensures FilteredAlerts(all, ClearedFilters()) == all
  {
    FilterAll(all, (a: Alert) => MatchesFilters(a, ClearedFilters()));
  }

  /** The query's case does not matter. */
  lemma SearchIgnoresQueryCase(a: Alert, query: string)
    ensures MatchesSearch(a, query) <==> MatchesSearch(a, Lower(query))
  {
    LowerIdempotent(query);
  }

  /** A non-empty query matches when its lower-cased text occurs at some offset of a lower-cased field. */
  lemma SearchFindsOccurrence(a: Alert, query: string)
    requires query != []
    ensures MatchesSearch(a, query) <==>
      (exists i :: OccursAt(Lower(a.userId), Lower(query), i))
      || (exists i :: OccursAt(Lower(a.description), Lower(query), i))
  {
    assert MatchesSearch(a, query) <==>
      Contains(Lower(a.userId), Lower(query)) || Contains(Lower(a.description), Lower(query));
    ContainsIffOccurs(Lower(a.userId), Lower(query));
    ContainsIffOccurs(Lower(a.description), Lower(query));
  }

  datatype SeverityCounts = SeverityCounts(critical: nat, high: nat, medium: nat, low: nat, total: nat)

  /** `getSeverityCounts` over the merged view. */
  function GetSeverityCounts(all: seq<Alert>): (c: SeverityCounts)
    ensures c.total == |all|
    ensures c.critical == CountSeverity(all, Critical) && c.high == CountSeverity(all, High)
    ensures c.medium == CountSeverity(all, Medium) && c.low == CountSeverity(all, Low)
    ensures c.critical <= c.total && c.high <= c.total && c.medium <= c.total && c.low <= c.total
    ensures c.critical + c.high + c.medium + c.low <= c.total
    ensures (forall a :: a in all ==> IsEnumSeverity(a.severity)) ==>
      c.critical + c.high + c.medium + c.low == c.total
  {
    SeverityCountsPartition(all);
    SeverityCountsTotal(all);
    SeverityCounts(
      CountSeverity(all, Critical), CountSeverity(all, High),
      CountSeverity(all, Medium), CountSeverity(all, Low), |all|)
  }
}
