/**
 * The Analytics page's derived metrics (src/pages/Analytics.jsx): trend
 * windows, the threat distribution and its percentages, the per-user and
 * per-action tallies, and the hour-of-day buckets. The clock is passed in as
 * `now`; the page's `timeRange` select does not enter any of these.
 */
module Analytics {
  import opened Seqs
  import opened Events
  import opened StableSort

  // ---------------------------------------------------------------------------
  // Trends (getTrends)

  const WeekMs: int := 7 * DayMs

  /** `t > now - 24h` */
  predicate InRecentWindow(t: int, now: int) {
    t > now - DayMs
  }

  /** `now - 7d < t <= now - 24h` */
  predicate InOlderWindow(t: int, now: int) {
    now - WeekMs < t <= now - DayMs
  }

  /** The two windows never share an instant. */
  lemma WindowsDisjoint(t: int, now: int)
    ensures !(InRecentWindow(t, now) && InOlderWindow(t, now))
  {
  }

  function RecentCount<T>(s: seq<T>, time: T -> int, now: int): nat {
    Count(s, (x: T) => InRecentWindow(time(x), now))
  }

  function OlderCount<T>(s: seq<T>, time: T -> int, now: int): nat {
    Count(s, (x: T) => InOlderWindow(time(x), now))
  }

  /** Because the windows are disjoint, no event is counted twice. */
  lemma {:induction false} WindowCountsBounded<T>(s: seq<T>, time: T -> int, now: int)
    ensures RecentCount(s, time, now) + OlderCount(s, time, now) <= |s|
  {
    if s != [] {
      WindowCountsBounded(s[1..], time, now);
    }
  }

  /** `(recent - older) / older * 100`, guarded to 0 when there is nothing older. */
  function TrendPercent(recent: nat, older: nat): real {
    if older > 0 then (recent - older) as real / older as real * 100.0 else 0.0
  }

  /** The guard, and the sign of the trend when it applies. */
  lemma TrendPercentMeaning(recent: nat, older: nat)
    ensures older == 0 ==> TrendPercent(recent, older) == 0.0
    ensures older > 0 ==> TrendPercent(recent, older) * older as real == (recent - older) as real * 100.0
    ensures older > 0 ==> (TrendPercent(recent, older) > 0.0 <==> recent > older)
    ensures older > 0 ==> (TrendPercent(recent, older) == 0.0 <==> recent == older)
  {
    if older > 0 {
      var d := (recent - older) as real;
      var o := older as real;
      assert d / o * o == d;
      assert d / o > 0.0 <==> d > 0.0;
    }
  }

  lemma TrendPercentExamples()
    ensures TrendPercent(15, 10) == 50.0
    ensures TrendPercent(5, 0) == 0.0
  {
  }

  datatype Trends = Trends(alertsTrend: int, activitiesTrend: int, alertTrendPercent: real, activityTrendPercent: real)

  /** `getTrends` */
  function GetTrends(alerts: seq<Alert>, activities: seq<Activity>, now: int): (t: Trends)
    ensures t.alertsTrend == RecentCount(alerts, AlertTime, now) - OlderCount(alerts, AlertTime, now)
    ensures t.activitiesTrend == RecentCount(activities, ActivityTime, now) - OlderCount(activities, ActivityTime, now)
    ensures -|alerts| <= t.alertsTrend <= |alerts|
    ensures -|activities| <= t.activitiesTrend <= |activities|
    ensures OlderCount(alerts, AlertTime, now) == 0 ==> t.alertTrendPercent == 0.0
    ensures OlderCount(alerts, AlertTime, now) > 0 ==>
      t.alertTrendPercent * OlderCount(alerts, AlertTime, now) as real == t.alertsTrend as real * 100.0
    ensures OlderCount(activities, ActivityTime, now) == 0 ==> t.activityTrendPercent == 0.0
    ensures OlderCount(activities, ActivityTime, now) > 0 ==>
      t.activityTrendPercent * OlderCount(activities, ActivityTime, now) as real == t.activitiesTrend as real * 100.0
  {
    var recentAlerts := RecentCount(alerts, AlertTime, now);
    var olderAlerts := OlderCount(alerts, AlertTime, now);
    var recentActivities := RecentCount(activities, ActivityTime, now);
    var olderActivities := OlderCount(activities, ActivityTime, now);
    TrendPercentMeaning(recentAlerts, olderAlerts);
    TrendPercentMeaning(recentActivities, olderActivities);
    Trends(
      recentAlerts - olderAlerts,
      recentActivities - olderActivities,
      TrendPercent(recentAlerts, olderAlerts),
      TrendPercent(recentActivities, olderActivities))
  }

  // ---------------------------------------------------------------------------
  // Threat distribution (getThreatDistribution) and its percentages

  datatype Distribution = Distribution(critical: nat, high: nat, medium: nat, low: nat) {
    /** `Object.values(threatDistribution).reduce((a, b) => a + b, 0)` */
    function Total(): nat {
      critical + high + medium + low
    }
  }

  function GetThreatDistribution(alerts: seq<Alert>): (d: Distribution)
    ensures d.critical == CountSeverity(alerts, Critical) && d.high == CountSeverity(alerts, High)
    ensures d.medium == CountSeverity(alerts, Medium) && d.low == CountSeverity(alerts, Low)
    ensures d.Total() <= |alerts|
    ensures (forall a :: a in alerts ==> IsEnumSeverity(a.severity)) ==> d.Total() == |alerts|
  {
    SeverityCountsPartition(alerts);
    SeverityCountsTotal(alerts);
    Distribution(
      CountSeverity(alerts, Critical), CountSeverity(alerts, High),
      CountSeverity(alerts, Medium), CountSeverity(alerts, Low))
  }

  /** `total > 0 ? (count / total * 100) : 0` */
  function Percentage(count: nat, total: nat): real {
    if total > 0 then count as real / total as real * 100.0 else 0.0
  }

  lemma PercentageBounds(count: nat, total: nat)
    requires count <= total
    ensures 0.0 <= Percentage(count, total) <= 100.0
    ensures total == 0 ==> Percentage(count, total) == 0.0
  {
    if total > 0 {
      var c, t := count as real, total as real;
      assert c / t <= 1.0 by {
        assert c / t * t == c;
      }
    }
  }

  /** The four bars of the distribution add up to 100% whenever there is an alert to show. */
  lemma DistributionPercentagesSum(d: Distribution)
    requires d.Total() > 0
    ensures Percentage(d.critical, d.Total()) + Percentage(d.high, d.Total())
          + Percentage(d.medium, d.Total()) + Percentage(d.low, d.Total()) == 100.0
  {
    var t := d.Total() as real;
    var a, b, c, e := d.critical as real, d.high as real, d.medium as real, d.low as real;
    assert a + b + c + e == t;
    SharesSumToOne(a, b, c, e, t);
    var s := a / t + b / t + c / t + e / t;
    assert a / t * 100.0 + b / t * 100.0 + c / t * 100.0 + e / t * 100.0 == s * 100.0;
  }

  /** Four parts of a positive whole, each divided by it, add up to one. */
  lemma SharesSumToOne(a: real, b: real, c: real, e: real, t: real)
    requires t > 0.0 && a + b + c + e == t
    ensures a / t + b / t + c / t + e / t == 1.0
  {
    var x1, x2, x3, x4 := a / t, b / t, c / t, e / t;
    assert x1 * t == a && x2 * t == b && x3 * t == c && x4 * t == e;
    var s := x1 + x2 + x3 + x4;
    assert s * t == x1 * t + x2 * t + x3 * t + x4 * t;
    assert (s - 1.0) * t == 0.0;
  }

  // ---------------------------------------------------------------------------
  // Tallies (the reduces of getTopUsers and getActivityTypes)

  /** One entry of `Object.entries(tally)`, mapped to `{ user, count }` or `{ action, count }`. */
  datatype Tallied<T> = Tallied(key: T, count: nat)

  function KeyOf<T>(e: Tallied<T>): T { e.key }
  function CountOf<T>(e: Tallied<T>): int { e.count }

  /** The count stored under `k`, 0 when `k` has no entry (`acc[x] || 0`). */
  function TallyAt<T(==)>(t: seq<Tallied<T>>, k: T): nat {
    if t == [] then 0 else if t[0].key == k then t[0].count else TallyAt(t[1..], k)
  }

  lemma {:induction false} TallyAtFinds<T>(t: seq<Tallied<T>>, i: nat)
    requires i < |t| && UniqueBy(t, KeyOf)
    ensures TallyAt(t, t[i].key) == t[i].count
  {
    if i > 0 {
      assert t[0].key != t[i].key;
      assert t[1..][i - 1] == t[i];
      TallyAtFinds(t[1..], i - 1);
    }
  }

  lemma {:induction false} TallyAtAbsent<T>(t: seq<Tallied<T>>, k: T)
    requires forall e :: e in t ==> e.key != k
    ensures TallyAt(t, k) == 0
  {
    if t != [] {
      assert t[0] in t;
      TallyAtAbsent(t[1..], k);
    }
  }

  lemma UniqueTail<T>(t: seq<Tallied<T>>)
    requires t != [] && UniqueBy(t, KeyOf)
    ensures UniqueBy(t[1..], KeyOf)
  {
    forall i, j | 0 <= i < j < |t| - 1 ensures t[1..][i].key != t[1..][j].key {
      assert t[1..][i] == t[i + 1] && t[1..][j] == t[j + 1];
    }
  }

  /** `acc[x] = (acc[x] || 0) + 1`: a new key is appended, an existing one keeps its place. */
  function Bump<T(==)>(t: seq<Tallied<T>>, x: T): (r: seq<Tallied<T>>)
    ensures |r| == if (exists e :: e in t && e.key == x) then |t| else |t| + 1
  {
    if t == [] then [Tallied(x, 1)]
    else if t[0].key == x then [Tallied(x, t[0].count + 1)] + t[1..]
    else [t[0]] + Bump(t[1..], x)
  }

  /** Bumping touches only the entry for `x`, and leaves one there. */
  lemma {:induction false} BumpEntries<T>(t: seq<Tallied<T>>, x: T)
    requires UniqueBy(t, KeyOf)
    ensures forall e :: e in Bump(t, x) && e.key != x ==> e in t
    ensures forall e :: e in t && e.key != x ==> e in Bump(t, x)
    ensures forall e :: e in Bump(t, x) && e.key == x ==> e.count == TallyAt(t, x) + 1
    ensures exists e :: e in Bump(t, x) && e.key == x
    ensures SumBy(Bump(t, x), CountOf) == SumBy(t, CountOf) + 1
  {
    BumpSum(t, x);
    if t != [] && t[0].key != x {
      UniqueTail(t);
      BumpEntries(t[1..], x);
      assert Bump(t, x) == [t[0]] + Bump(t[1..], x);
      assert forall e :: e in Bump(t, x) <==> e == t[0] || e in Bump(t[1..], x);
      assert forall e :: e in t <==> e == t[0] || e in t[1..];
    } else if t != [] {
      HeadKeyAbsent(t);
      var b := Tallied(x, t[0].count + 1);
      assert Bump(t, x) == [b] + t[1..];
      assert forall e :: e in t <==> e == t[0] || e in t[1..];
      assert forall e :: e in Bump(t, x) <==> e == b || e in t[1..];
    } else {
      assert Bump(t, x) == [Tallied(x, 1)];
    }
  }

  /** Each bump raises the total by one. */
  lemma {:induction false} BumpSum<T>(t: seq<Tallied<T>>, x: T)
    ensures SumBy(Bump(t, x), CountOf) == SumBy(t, CountOf) + 1
  {
    if t != [] && t[0].key != x {
      BumpSum(t[1..], x);
      assert Bump(t, x) == [t[0]] + Bump(t[1..], x);
      assert (Bump(t, x))[1..] == Bump(t[1..], x);
    } else if t != [] {
      assert Bump(t, x)[1..] == t[1..];
    }
  }

  /** In a tally with unique keys, the head's key appears nowhere else. */
  lemma HeadKeyAbsent<T>(t: seq<Tallied<T>>)
    requires t != [] && UniqueBy(t, KeyOf)
    ensures forall e :: e in t[1..] ==> e.key != t[0].key
  {
    forall e | e in t[1..] ensures e.key != t[0].key {
      var k :| 0 <= k < |t[1..]| && t[1..][k] == e;
      assert t[k + 1] == e;
    }
  }

  lemma {:induction false} BumpUnique<T>(t: seq<Tallied<T>>, x: T)
    requires UniqueBy(t, KeyOf)
    ensures UniqueBy(Bump(t, x), KeyOf)
  {
    if t != [] {
      UniqueTail(t);
      HeadKeyAbsent(t);
      var r := Bump(t, x);
      if t[0].key != x {
        BumpUnique(t[1..], x);
        BumpEntries(t[1..], x);
        var rest := Bump(t[1..], x);
        assert r == [t[0]] + rest;
        assert forall e :: e in rest ==> KeyOf(e) != KeyOf(t[0]);
        UniqueByCons(t[0], rest, KeyOf);
      } else {
        assert r == [Tallied(x, t[0].count + 1)] + t[1..];
        forall i, j | 0 <= i < j < |r| ensures r[i].key != r[j].key {
          assert r[j] == t[j];
          if i > 0 { assert r[i] == t[i]; }
        }
      }
    }
  }

  /** `s.reduce((acc, x) => { acc[x] = (acc[x] || 0) + 1; return acc }, {})`, as its entries. */
  function Tally<T(==)>(s: seq<T>): seq<Tallied<T>> {
    if s == [] then [] else Bump(Tally(s[..|s| - 1]), s[|s| - 1])
  }

  lemma {:induction false} TallyUnique<T>(s: seq<T>)
    ensures UniqueBy(Tally(s), KeyOf)
  {
    if s != [] {
      TallyUnique(s[..|s| - 1]);
      BumpUnique(Tally(s[..|s| - 1]), s[|s| - 1]);
    }
  }

  /** Every element of the input has an entry. */
  lemma {:induction false} TallyCovers<T>(s: seq<T>)
    ensures forall x :: x in s ==> exists e :: e in Tally(s) && e.key == x
  {
    if s != [] {
      var init, x := s[..|s| - 1], s[|s| - 1];
      assert s == init + [x];
      TallyCovers(init);
      TallyUnique(init);
      BumpEntries(Tally(init), x);
      forall y | y in s ensures exists e :: e in Tally(s) && e.key == y {
        if y != x {
          assert y in init;
          var d :| d in Tally(init) && d.key == y;
          assert d in Tally(s);
        }
      }
    }
  }

  /** The counts add up to the length of the input. */
  lemma {:induction false} TallySum<T>(s: seq<T>)
    ensures SumBy(Tally(s), CountOf) == |s|
  {
    if s != [] {
      TallySum(s[..|s| - 1]);
      TallyUnique(s[..|s| - 1]);
      BumpEntries(Tally(s[..|s| - 1]), s[|s| - 1]);
    }
  }

  /** Each entry's count is the number of occurrences of its key. */
  lemma {:induction false} TallyCounts<T>(s: seq<T>)
    ensures forall e :: e in Tally(s) ==> e.count == multiset(s)[e.key] && e.count >= 1
  {
    if s != [] {
      var init, x := s[..|s| - 1], s[|s| - 1];
      assert s == init + [x];
      TallyCounts(init);
      TallyUnique(init);
      TallyCovers(init);
      var t0 := Tally(init);
      BumpEntries(t0, x);
      assert Tally(s) == Bump(t0, x);
      assert TallyAt(t0, x) == multiset(init)[x] by {
        if exists d :: d in t0 && d.key == x {
          var d :| d in t0 && d.key == x;
          var k :| 0 <= k < |t0| && t0[k] == d;
          TallyAtFinds(t0, k);
          assert d.count == multiset(init)[d.key];
        } else {
          TallyAtAbsent(t0, x);
          assert x !in init;
        }
      }
    }
  }

  /** Each key once; each count the number of occurrences of its key; every element has an entry; the counts add up. */
  lemma TallySpec<T>(s: seq<T>)
    ensures var t := Tally(s);
      && UniqueBy(t, KeyOf)
      && (forall e :: e in t ==> e.count == multiset(s)[e.key] && e.count >= 1)
      && (forall x :: x in s ==> exists e :: e in t && e.key == x)
      && SumBy(t, CountOf) == |s|
  {
    TallyUnique(s);
    TallyCovers(s);
    TallySum(s);
    TallyCounts(s);
  }

  // ---------------------------------------------------------------------------
  // getTopUsers and getActivityTypes

  function UserOf(a: Activity): string { a.userId }
  function ActionOf(a: Activity): string { a.action }

  /** `Object.entries(...).map(...).sort((a, b) => b.count - a.count)` */
  function ByCountDesc(s: seq<string>): seq<Tallied<string>> {
    SortDesc(Tally(s), CountOf)
  }

  lemma ByCountDescSpec(s: seq<string>)
    ensures var r := ByCountDesc(s);
      && SortedDesc(r, CountOf)
      && UniqueBy(r, KeyOf)
      && (forall e :: e in r ==> e.count == multiset(s)[e.key] && e.count >= 1)
      && (forall x :: x in s ==> exists e :: e in r && e.key == x)
      && SumBy(r, CountOf) == |s|
  {
    var t := Tally(s);
    TallySpec(s);
    SortDescUnique(t, CountOf, KeyOf);
    SortDescSum(t, CountOf, CountOf);
    var r := ByCountDesc(s);
    forall e | e in r ensures e in t {
      assert e in multiset(r);
    }
    forall x | x in s ensures exists e :: e in r && e.key == x {
      var e :| e in t && e.key == x;
      assert e in multiset(t);
      assert e in r;
    }
  }

  lemma ByCountDescCovers(s: seq<string>, x: string)
    requires x in s
    ensures exists e :: e in ByCountDesc(s) && e.key == x
  {
    TallyCovers(s);
    var e :| e in Tally(s) && e.key == x;
    assert e in multiset(Tally(s));
    assert e in ByCountDesc(s);
  }

  /** An entry of a sorted list that is missing from its first `n` sits after them, and no higher. */
  lemma TakeDominates(sorted: seq<Tallied<string>>, n: nat, e: Tallied<string>)
    requires SortedDesc(sorted, CountOf) && e in sorted && n > 0
    requires forall d :: d in Take(sorted, n) ==> d.key != e.key
    ensures |sorted| > n && sorted[n - 1].count >= e.count
  {
    var k :| 0 <= k < |sorted| && sorted[k] == e;
    assert k >= |Take(sorted, n)|;
    assert CountOf(sorted[n - 1]) >= CountOf(sorted[k]);
  }

  /** `getTopUsers`: the ten busiest users, busiest first. */
  function GetTopUsers(activities: seq<Activity>): (r: seq<Tallied<string>>)
    ensures |r| <= 10
    ensures SortedDesc(r, CountOf)
    ensures UniqueBy(r, KeyOf)
    ensures forall e :: e in r ==> e.count == multiset(Map(activities, UserOf))[e.key] && e.count >= 1
  {
    var sorted := ByCountDesc(Map(activities, UserOf));
    ByCountDescSpec(Map(activities, UserOf));
    Take(sorted, 10)
  }

  /** A user left out of the top ten has no more activities than the tenth entry. */
  lemma TopUsersAreBusiest(activities: seq<Activity>, u: string)
    requires u in Map(activities, UserOf)
    requires forall e :: e in GetTopUsers(activities) ==> e.key != u
    ensures |GetTopUsers(activities)| == 10
    ensures multiset(Map(activities, UserOf))[u] <= GetTopUsers(activities)[9].count
  {
    var users := Map(activities, UserOf);
    var sorted := ByCountDesc(users);
    ByCountDescCovers(users, u);
    TallyCounts(users);
    var e :| e in sorted && e.key == u;
    assert e in Tally(users) by {
      assert e in multiset(sorted);
    }
    TakeDominates(sorted, 10, e);
  }

  /** `getActivityTypes`: every action with its count, commonest first. */
  function GetActivityTypes(activities: seq<Activity>): (r: seq<Tallied<string>>)
    ensures SortedDesc(r, CountOf)
    ensures UniqueBy(r, KeyOf)
    ensures forall e :: e in r ==> e.count == multiset(Map(activities, ActionOf))[e.key] && e.count >= 1
    ensures forall a :: a in activities ==> exists e :: e in r && e.key == a.action
    ensures SumBy(r, CountOf) == |activities|
  {
    var actions := Map(activities, ActionOf);
    ByCountDescSpec(actions);
    assert forall a :: a in activities ==> a.action in actions;
    ByCountDesc(actions)
  }

  /** The tallied count of a key is the number of activities carrying it. */
  lemma TalliedCountIsFilterCount(activities: seq<Activity>, u: string)
    ensures multiset(Map(activities, UserOf))[u] == Count(activities, (x: Activity) => UserOf(x) == u)
  {
    MultisetOfMap(activities, UserOf, u);
  }

  // ---------------------------------------------------------------------------
  // Time-of-day buckets

  /**
   * `new Date(t).getHours()` for a fixed offset of local time from UTC, in
   * milliseconds; Dafny's `/` and `%` round toward negative infinity here,
   * which is what the calendar does before 1970 as well.
   */
  function HourOf(t: int, utcOffsetMs: int): (h: int)
    ensures 0 <= h < 24
  {
    ((t + utcOffsetMs) / HourMs) % 24
  }

  predicate IsBusinessHour(h: int) { 9 <= h <= 17 }
  predicate IsEveningHour(h: int) { 18 <= h <= 23 }
  predicate IsNightHour(h: int) { 0 <= h <= 8 }

  function BusinessCount(activities: seq<Activity>, off: int): nat {
    Count(activities, (a: Activity) => IsBusinessHour(HourOf(a.timestamp, off)))
  }

  function EveningCount(activities: seq<Activity>, off: int): nat {
    Count(activities, (a: Activity) => IsEveningHour(HourOf(a.timestamp, off)))
  }

  function NightCount(activities: seq<Activity>, off: int): nat {
    Count(activities, (a: Activity) => IsNightHour(HourOf(a.timestamp, off)))
  }

  /** The three buckets split the day, so every activity lands in exactly one. */
  lemma {:induction false} HourBucketsPartition(activities: seq<Activity>, off: int)
    ensures BusinessCount(activities, off) + EveningCount(activities, off) + NightCount(activities, off)
         == |activities|
  {
    if activities != [] {
      HourBucketsPartition(activities[1..], off);
    }
  }
}
