/**
 * The Activities page (src/pages/Activities.jsx): the merged view, its filters,
 * the options offered by the action and user selects, and the summary stats.
 */
module ActivitiesPage {
  import opened Seqs
  import opened Events
  import opened Merge
  import opened StableSort

  /** `allActivities`: stream buffer and polled snapshot merged, newest first. */
  function AllActivities(realtime: seq<Activity>, api: seq<Activity>): (r: seq<Activity>)
    ensures SortedDesc(r, ActivityTime)
    ensures UniqueBy(r, ActivityId)
    ensures forall a :: a in r ==> a in realtime || a in api
    ensures forall x :: x in realtime || x in api ==> exists a :: a in r && a.id == x.id
    ensures forall a :: a in r && FindIndex(realtime, ActivityId, a.id) >= 0 ==>
      a == realtime[FindIndex(realtime, ActivityId, a.id)]
  {
    MergeFeedsSpec(realtime, api, ActivityId, ActivityTime);
    MergeFeeds(realtime, api, ActivityId, ActivityTime)
  }

  /** The success select: 'all', 'success' or 'failed'. */
  datatype OutcomeFilter = AnyOutcome | OnlySucceeded | OnlyFailed

  datatype ActivityFilters = ActivityFilters(
    action: Choice<string>,
    user: Choice<string>,
    outcome: OutcomeFilter,
    search: string)

  predicate MatchesOutcome(a: Activity, f: OutcomeFilter) {
    f.AnyOutcome? || (f.OnlySucceeded? && a.success) || (f.OnlyFailed? && !a.success)
  }

  /** An empty query matches everything; otherwise a case-insensitive substring of the user, the action or the address. */
  predicate MatchesSearch(a: Activity, query: string) {
    query == []
    || Contains(Lower(a.userId), Lower(query))
    || Contains(Lower(a.action), Lower(query))
    || Contains(Lower(a.ipAddress), Lower(query))
  }

  predicate MatchesFilters(a: Activity, f: ActivityFilters) {
    && f.action.Admits(a.action)
    && f.user.Admits(a.userId)
    && MatchesOutcome(a, f.outcome)
    && MatchesSearch(a, f.search)
  }

  /** `filteredActivities` */
  function FilteredActivities(all: seq<Activity>, f: ActivityFilters): (r: seq<Activity>)
    ensures IsSubsequence(r, all)
    ensures forall a :: a in r ==> MatchesFilters(a, f)
    ensures forall a :: a in all && MatchesFilters(a, f) ==> a in r
  {
    FilterIsSubsequence(all, (a: Activity) => MatchesFilters(a, f));
    Filter(all, (a: Activity) => MatchesFilters(a, f))
  }

  /** 'success' keeps exactly the successful activities, 'failed' exactly the failed ones, 'all' both. */
  lemma OutcomeFilterSelects(a: Activity)
    ensures MatchesOutcome(a, OnlySucceeded) <==> a.success
    ensures MatchesOutcome(a, OnlyFailed) <==> !a.success
    ensures MatchesOutcome(a, AnyOutcome)
  {
  }

  /** `clearFilters` */
  function ClearedFilters(): ActivityFilters {
    ActivityFilters(All, All, AnyOutcome, "")
  }

  lemma ClearedFiltersShowAll(all: seq<Activity>)
    ensures FilteredActivities(all, ClearedFilters()) == all
  {
    FilterAll(all, (a: Activity) => MatchesFilters(a, ClearedFilters()));
  }

  function ActionOf(a: Activity): string { a.action }
  function UserOf(a: Activity): string { a.userId }

  /** `uniqueActions`: every action of the merged view, once, in order of first appearance. */
  function UniqueActions(all: seq<Activity>): (r: seq<string>)
    ensures NoDuplicates(r)
    ensures forall x :: x in r <==> exists a :: a in all && a.action == x
  {
    var actions := Map(all, ActionOf);
    assert forall a :: a in all ==> a.action in actions;
    Distinct(actions)
  }

  /** `uniqueUsers`: every user of the merged view, once, in order of first appearance. */
  function UniqueUsers(all: seq<Activity>): (r: seq<string>)
    ensures NoDuplicates(r)
    ensures forall x :: x in r <==> exists a :: a in all && a.userId == x
  {
    var users := Map(all, UserOf);
    assert forall a :: a in all ==> a.userId in users;
    Distinct(users)
  }

  datatype ActivityStats = ActivityStats(total: nat, successful: nat, failed: int, suspicious: nat)

  predicate IsSuspicious(a: Activity) {
    a.action in SuspiciousActions
  }

  /** `getActivityStats`: `failed` is computed as `total - successful`. */
  function GetActivityStats(all: seq<Activity>): (s: ActivityStats)
    ensures s.total == |all|
    ensures s.successful + s.failed == s.total
    ensures 0 <= s.failed <= s.total && s.suspicious <= s.total
  {
    var successful := Count(all, (a: Activity) => a.success);
    ActivityStats(|all|, successful, |all| - successful, Count(all, IsSuspicious))
  }

  /** The subtraction is exact: `failed` is the number of failed activities. */
  lemma {:induction false} FailedCountsFailures(all: seq<Activity>)
    ensures GetActivityStats(all).failed == Count(all, (a: Activity) => !a.success)
  {
    if all != [] {
      FailedCountsFailures(all[1..]);
    }
  }

  /** `suspicious` counts precisely the three escalation and exfiltration actions. */
  lemma {:induction false} SuspiciousCountsListedActions(all: seq<Activity>)
    ensures GetActivityStats(all).suspicious == Count(all, (a: Activity) =>
      a.action == "privilege_escalation" || a.action == "mass_data_access" || a.action == "suspicious_download")
  {
    if all != [] {
      SuspiciousCountsListedActions(all[1..]);
    }
  }
}
