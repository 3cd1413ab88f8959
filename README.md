# Third Umpire security dashboard: the live monitoring core in Dafny

Third Umpire watches user activity and raises security alerts. A FastAPI server
pushes alerts, activities and statistics over a WebSocket. A React dashboard
buffers what arrives, merges it with polled REST snapshots, and derives the
figures each page shows. This project models that live path and proves what
each step promises:

- **The server's connection registry** (`ConnectionRegistry`): `ConnectionManager` keeps
  a list of live connections and a metadata dictionary for each one. It fans every event
  out to all of them, and disconnects each client whose send raised. It also answers
  pings and records subscriptions. Sends are decided by outcomes passed in: `true` for
  delivered, `false` for an exception. A connection is known by its identity.
- **The browser's stream client** (`StreamClient`): the provider's state becomes a class
  `Client` whose methods are the socket's events and the provider's calls. It keeps
  bounded newest-first buffers of 100 alerts and 200 activities, and reconnects with
  exponential back-off, at most five times between two opens.
- **Merged views** (`Merge`, `AlertsPage`, `ActivitiesPage`): the pages concatenate the
  stream buffer and the snapshot, keep the first entry with each id, and sort newest
  first. The sort is stable (`StableSort`). Then come the filters, the search, the select
  options and the summary counts.
- **Derived metrics**:
  - the dashboard's threat level (`Dashboard`);
  - the analytics trends, distribution, top users, activity types and hour buckets
    (`Analytics`);
  - the geographic heatmap's grouping, colour and size bands, and top five locations
    (`Heatmap`);
  - the sidebar's alert badge (`Sidebar`);
  - the system health panel (`SystemHealth`).

Modelling conventions:

- Timestamps are integers in milliseconds, and the clock is a parameter `now`.
- Coordinates, percentages and intensities are exact reals.
- Severity is a datatype with a case for strings outside the four-value enum, because the
  views compare severities as strings.
- The server module never calls `handle_client_message`: its endpoint only reads frames to
  keep the socket open (`main.py:140-148`). The model covers the method as written all the
  same.

## Model

| member | source | states |
|---|---|---|
| Events.ParseSeverity | models.py:11-16 | the four enum names give their severity, any other name is kept as unrecognised, and the result's name is the input |
| Events.ParseNameRoundTrip | models.py:11-16 | on severities that parsing can yield, parsing a severity's name gives it back, and only its own name parses to it |
| Events.SeverityCountsPartition | src/pages/Alerts.jsx:53-61 | the four per-severity counts plus the unrecognised ones add up to the number of alerts |
| Events.SeverityCountsTotal | models.py:11-16 | when every severity is one of the enum's four values, the four counts add up to the number of alerts |
| StableSort.SortDesc | src/pages/Alerts.jsx:37 | the sorted sequence is a permutation of the input, in non-increasing key order |
| StableSort.SortDescStable | src/pages/Alerts.jsx:37 | restricted to any group of equal keys, the sorted sequence keeps the input order (the sort is stable) |
| StableSort.SortDescKeepsTieOrder | src/pages/Activities.jsx:40 | entries with the same timestamp keep their relative order |
| StableSort.InsertBehindTiesAt | src/components/Dashboard/GeographicHeatmap.jsx:83 | inserting behind the ties places the element just after every key at least its own |
| StableSort.InsertsCommute | src/pages/Alerts.jsx:37 | inserting one element in front of its ties and another behind theirs can be done in either order |
| StableSort.InsertionSortIsSortDesc | src/components/Dashboard/GeographicHeatmap.jsx:83 | the left-to-right insertion sort gives exactly the stable sort |
| StableSort.SortDescUnique | src/pages/Alerts.jsx:37 | sorting never makes two positions share an id |
| StableSort.SortDescSum | src/pages/Analytics.jsx:89 | sorting keeps every total |
| Merge.FindIndex | src/pages/Alerts.jsx:35 | the result is -1 exactly when no element has the id; otherwise it is the first position with that id |
| Merge.FindIndexInPrefix | src/pages/Alerts.jsx:33-35 | an id found in the realtime part is found there within the concatenation too |
| Merge.KeepFirstFromSpec | src/pages/Alerts.jsx:34-36 | from a given index on, the filter keeps exactly the first occurrence of each id |
| Merge.KeepFirst | src/pages/Alerts.jsx:34-36 | no two kept entries share an id, and each kept entry is the first one with its id |
| Merge.KeepFirstKeepsOrder | src/pages/Alerts.jsx:34-36 | the kept entries are a subsequence of the input: `filter` keeps its order |
| Merge.KeepFirstCovers | src/pages/Activities.jsx:37-39 | every id of the input survives the filter |
| Merge.MergeFeedsSpec | src/pages/Alerts.jsx:32-38 | the merge is sorted newest first, has unique ids, and draws only from its inputs. Every input id appears in it, and the realtime copy wins over the snapshot's |
| Merge.MergeFeedsStable | src/pages/Activities.jsx:35-41 | equal timestamps keep their order in the concatenation |
| Seqs.ContainsIffOccurs | src/pages/Alerts.jsx:46-47 | `includes` holds exactly when the needle occurs at some offset |
| Seqs.Distinct | src/pages/Activities.jsx:61-62 | `[...new Set(xs)]` has no duplicates and the same members as `xs` |
| Seqs.MultisetOfMap | src/pages/Analytics.jsx:82-85 | occurrences of a value among the mapped keys are the number of elements mapped to it |
| Seqs.Take | src/pages/Analytics.jsx:90 | `slice(0, n)` is a prefix of length `min(length, n)` |
| AlertsPage.AllAlerts | src/pages/Alerts.jsx:32-38 | the merged alerts: newest first, unique ids, realtime copy wins, every id of either feed present |
| AlertsPage.FilteredAlerts | src/pages/Alerts.jsx:41-51 | exactly the merged alerts matching severity, status and search, in order (a subsequence) |
| AlertsPage.ClearedFiltersShowAll | src/pages/Alerts.jsx:69-75 | with cleared filters the list is the whole merged view |
| AlertsPage.SearchIgnoresQueryCase | src/pages/Alerts.jsx:45-47 | the search matches the same alerts whatever the case of the query |
| AlertsPage.SearchFindsOccurrence | src/pages/Alerts.jsx:45-47 | a non-empty query matches when its lower-cased text occurs in the lower-cased user id or description |
| AlertsPage.GetSeverityCounts | src/pages/Alerts.jsx:53-61 | each of the four counts is the number of alerts with that severity and `total` is the number of alerts; their sum is at most the total, with equality when all severities are from the enum |
| ActivitiesPage.AllActivities | src/pages/Activities.jsx:35-41 | the merged activities: newest first, unique ids, realtime copy wins, every id of either feed present |
| ActivitiesPage.FilteredActivities | src/pages/Activities.jsx:44-58 | exactly the merged activities matching action, user, outcome and search, in order |
| ActivitiesPage.OutcomeFilterSelects | src/pages/Activities.jsx:48-50 | 'success' keeps the successful activities, 'failed' the failed ones, 'all' both |
| ActivitiesPage.ClearedFiltersShowAll | src/pages/Activities.jsx:81-88 | with cleared filters the list is the whole merged view |
| ActivitiesPage.UniqueActions | src/pages/Activities.jsx:61 | each action of the merged view once, and nothing else |
| ActivitiesPage.UniqueUsers | src/pages/Activities.jsx:62 | each user of the merged view once, and nothing else |
| ActivitiesPage.GetActivityStats | src/pages/Activities.jsx:64-73 | successful plus failed is the total; failed and suspicious lie between 0 and the total |
| ActivitiesPage.FailedCountsFailures | src/pages/Activities.jsx:66-67 | `total - successful` is exactly the number of failed activities |
| ActivitiesPage.SuspiciousCountsListedActions | src/pages/Activities.jsx:68-70 | `suspicious` counts exactly the three listed actions |
| Dashboard.ThreatLevelRules | src/pages/Dashboard.jsx:46-60 | critical iff a recent critical alert; high iff none and more than two recent highs; medium iff one or two; low iff neither |
| Dashboard.RecentCriticalIsCritical | src/pages/Dashboard.jsx:53-56 | one critical alert inside the five-minute window makes the level critical |
| Dashboard.NoAlertsIsLow | src/pages/Dashboard.jsx:59 | no alerts means low |
| Dashboard.RecentCons | src/pages/Dashboard.jsx:47-51 | an alert joins the recent ones exactly when it is strictly newer than five minutes ago |
| Dashboard.OldAlertIgnored | src/pages/Dashboard.jsx:47-51 | an alert at least five minutes old never changes the level |
| Dashboard.RecentConsCounts | src/pages/Dashboard.jsx:53-54 | adding an alert raises the recent count of its own severity by one if it is recent, and no other count |
| Dashboard.MinorAlertKeepsLevel | src/pages/Dashboard.jsx:53-59 | a low or medium alert never changes the level |
| Dashboard.AddingAlertNeverLowers | src/pages/Dashboard.jsx:46-60 | adding any alert never lowers the level |
| Dashboard.ThreatLevelExamples | src/pages/Dashboard.jsx:56-59 | one critical gives critical, three highs give high, one high gives medium, nothing gives low |
| Analytics.WindowsDisjoint | src/pages/Analytics.jsx:45-49 | the last-24-hours window and the previous-six-days window never overlap |
| Analytics.WindowCountsBounded | src/pages/Analytics.jsx:45-55 | no event is counted in both windows: the two counts add up to at most the total |
| Analytics.TrendPercentMeaning | src/pages/Analytics.jsx:60-63 | zero when nothing is older; otherwise percent times older is (recent - older) times 100, positive iff recent > older, zero iff equal |
| Analytics.TrendPercentExamples | src/pages/Analytics.jsx:60-61 | 15 against 10 is +50%; anything against 0 is 0 |
| Analytics.GetTrends | src/pages/Analytics.jsx:40-65 | each trend is the recent count minus the older count, within plus or minus the list length; each percentage is 0 when nothing is older, otherwise percentage times older count is trend times 100 |
| Analytics.GetThreatDistribution | src/pages/Analytics.jsx:69-77 | each of the four counts is the number of alerts with that severity; they add up to at most the number of alerts, exactly to it when all severities are from the enum |
| Analytics.PercentageBounds | src/pages/Analytics.jsx:218-219 | a share of a total lies in [0, 100], and is 0 when the total is 0 |
| Analytics.DistributionPercentagesSum | src/pages/Analytics.jsx:217-219 | the four distribution bars add up to 100% whenever some alert has one of the four enum severities |
| Analytics.TallyAtFinds | src/pages/Analytics.jsx:83 | `acc[x]` reads the count stored under `x` |
| Analytics.BumpEntries | src/pages/Analytics.jsx:83 | one step increments only `x`'s count, creating it at 1, and raises the total by one |
| Analytics.BumpUnique | src/pages/Analytics.jsx:83 | one step never creates a second entry for a key |
| Analytics.TallySpec | src/pages/Analytics.jsx:82-85 | the tally has one entry per distinct key, whose count is the key's number of occurrences; counts add up to the input length |
| Analytics.ByCountDescSpec | src/pages/Analytics.jsx:87-89 | the entries sorted by count: unique keys, exact counts, every key present, counts add up to the input length |
| Analytics.TakeDominates | src/pages/Analytics.jsx:89-90 | an entry missing from a sorted prefix comes after it and has no larger count |
| Analytics.GetTopUsers | src/pages/Analytics.jsx:81-91 | at most ten users, busiest first, each once, with their exact activity counts |
| Analytics.TopUsersAreBusiest | src/pages/Analytics.jsx:81-91 | a user left out means ten are listed, each with at least as many activities as that user |
| Analytics.GetActivityTypes | src/pages/Analytics.jsx:95-104 | every action once with its exact count, commonest first; counts add up to the number of activities |
| Analytics.TalliedCountIsFilterCount | src/pages/Analytics.jsx:82-85 | a tallied count is the number of activities carrying that key |
| Analytics.HourOf | src/pages/Analytics.jsx:314 | the local hour lies in [0, 24) |
| Analytics.HourBucketsPartition | src/pages/Analytics.jsx:312-338 | business, evening and night counts add up to the number of activities |
| Heatmap.RoundHalfUp | src/components/Dashboard/GeographicHeatmap.jsx:9 | the result is within half a unit of the input, ties rounding up |
| Heatmap.ToFixed2 | src/components/Dashboard/GeographicHeatmap.jsx:9 | the key keeps the sign, and its hundredths are |x|*100 rounded half up |
| Heatmap.AddSkipped | src/components/Dashboard/GeographicHeatmap.jsx:7 | an activity without a usable location leaves the summary of the groups intact |
| Heatmap.AddToExisting | src/components/Dashboard/GeographicHeatmap.jsx:18-19 | adding to an existing key's group keeps every group exactly its cell's activities, and the counts summing to the placed activities |
| Heatmap.AddToNew | src/components/Dashboard/GeographicHeatmap.jsx:10-19 | a new key gets a group holding that one activity, and the summary holds |
| Heatmap.GroupsSummarise | src/components/Dashboard/GeographicHeatmap.jsx:6-23 | groups have distinct keys; each is exactly the located activities of its cell, in order, with count its size; every located activity has a group; counts add up to the located ones |
| Heatmap.SameGroupIffSameCell | src/components/Dashboard/GeographicHeatmap.jsx:9-19 | two located activities share a group exactly when both rounded coordinates agree |
| Heatmap.GroupCounts | src/components/Dashboard/GeographicHeatmap.jsx:18-19 | every group counts at least one activity, and the counts add up to the located activities |
| Heatmap.GroupShowsFirstMember | src/components/Dashboard/GeographicHeatmap.jsx:10-17 | a group shows the exact coordinates of the first activity of its cell, and holds every activity of its cell |
| Heatmap.NoGroupsIffNoneLocated | src/components/Dashboard/GeographicHeatmap.jsx:43 | the placeholder shows exactly when no activity has a usable location |
| Heatmap.IndexFinds | src/components/Dashboard/GeographicHeatmap.jsx:10 | looking a key up in `acc` finds the same group as searching the groups in order |
| Heatmap.GroupByLocation | src/components/Dashboard/GeographicHeatmap.jsx:6-23 | the reduce loop yields `Object.values(acc)`, the groups in first-seen key order |
| Heatmap.MaxCount | src/components/Dashboard/GeographicHeatmap.jsx:24 | at least 1, no smaller than any count, and attained by a group unless it is the floor 1 |
| Heatmap.IntensityAbove | src/components/Dashboard/GeographicHeatmap.jsx:27 | `count / maxCount > k/5` is `5*count > k*maxCount` |
| Heatmap.LocationColorBands | src/components/Dashboard/GeographicHeatmap.jsx:26-33 | the colour is red, orange, yellow, green or blue by the 0.8/0.6/0.4/0.2 thresholds, strictly above each |
| Heatmap.LocationSizeBands | src/components/Dashboard/GeographicHeatmap.jsx:35-41 | the dot size follows the 0.8/0.6/0.4 thresholds |
| Heatmap.BandsMonotone | src/components/Dashboard/GeographicHeatmap.jsx:26-41 | a larger group never gets a cooler colour or a smaller dot |
| Heatmap.LargestGroupIsRed | src/components/Dashboard/GeographicHeatmap.jsx:24-41 | the largest group is red and drawn largest |
| Heatmap.Swap | src/components/Dashboard/GeographicHeatmap.jsx:83 | exchanges two cells, nothing else changes, a permutation |
| Heatmap.InsertAt | src/components/Dashboard/GeographicHeatmap.jsx:83 | moves the next group into the sorted front, behind every group with a count at least its own; the rest is untouched |
| Heatmap.Settled | src/components/Dashboard/GeographicHeatmap.jsx:83 | once the moving group meets a count at least its own, it sits where inserting behind its ties puts it |
| Heatmap.SortByCount | src/components/Dashboard/GeographicHeatmap.jsx:83 | sorts the array in place into exactly the stable sort by count, largest first, of its old contents |
| Heatmap.TopCount | src/components/Dashboard/GeographicHeatmap.jsx:84 | `slice(0, 5)` keeps five groups, or all of them when there are fewer |
| Heatmap.SortedPrefixIsTop | src/components/Dashboard/GeographicHeatmap.jsx:82-84 | the first five of a sorted permutation are sorted, drawn from the groups without repeats, and no group left out is larger than the last one |
| Heatmap.TopTiesFirstSeen | src/components/Dashboard/GeographicHeatmap.jsx:82-84 | among groups with equal counts, those shown are the first seen, in first-seen order |
| Heatmap.TopLocations | src/components/Dashboard/GeographicHeatmap.jsx:82-85 | exactly the first min(5, groups) of the stable sort by count: largest first, without repeats, none left out larger than the last shown |
| Sidebar.ActiveAlertsCount | src/components/Layout/Sidebar.jsx:17-19 | the count is at most the number of buffered alerts |
| Sidebar.ActiveAlertsAreHighPlusCritical | src/components/Layout/Sidebar.jsx:17-19 | the count is the high alerts plus the critical alerts |
| Sidebar.ActiveAlertsPositive | src/components/Layout/Sidebar.jsx:17-19 | the count is positive exactly when some alert is high or critical |
| Sidebar.AlertsBadge | src/components/Layout/Sidebar.jsx:27 | no badge exactly when the count is 0, otherwise the count |
| Sidebar.Navigation | src/components/Layout/Sidebar.jsx:21-32 | five entries; only the Alerts entry, the second, carries the badge |
| Sidebar.BadgeShownIffUrgentAlert | src/components/Layout/Sidebar.jsx:21-32 | some entry shows a badge exactly when some alert is high or critical |
| SystemHealth.HealthMetrics | src/components/Dashboard/SystemHealth.jsx:12-41 | engine and database always healthy; WebSocket an error exactly when disconnected; monitoring a warning exactly when no activities |
| SystemHealth.OverallStatusPrecedence | src/components/Dashboard/SystemHealth.jsx:56-63 | error iff some metric errs; warning iff none errs and one warns; healthy iff all are healthy |
| SystemHealth.DashboardHealth | src/pages/Dashboard.jsx:213-217 | on the dashboard: error iff disconnected, warning iff connected with no activities, healthy otherwise |
| StreamClient.Retain | src/contexts/WebSocketContext.jsx:144 | the new entry comes first, and the length is capped |
| StreamClient.RetainSpec | src/contexts/WebSocketContext.jsx:144 | prepend then truncate: the older entries keep their order, and only the oldest are dropped |
| StreamClient.ReceiveAllKeepsNewest | src/contexts/WebSocketContext.jsx:143-165 | after any run of frames the buffer holds the newest `cap` of them, then of the older ones, newest first |
| StreamClient.ReconnectDelay | src/contexts/WebSocketContext.jsx:110 | the back-off lies between 1 and 30 seconds |
| StreamClient.ReconnectDelayValues | src/contexts/WebSocketContext.jsx:110 | 1, 2, 4, 8, 16 seconds for the first five attempts |
| StreamClient.ReconnectDelayCapped | src/contexts/WebSocketContext.jsx:110 | from the sixth attempt the delay is the 30-second cap |
| StreamClient.ReconnectDelayMonotone | src/contexts/WebSocketContext.jsx:110 | a later attempt never waits less |
| StreamClient.AlertNotice | src/contexts/WebSocketContext.jsx:147-160 | an error toast exactly for high and critical, a warning otherwise, showing the description |
| StreamClient.AlertNoticeAsWritten | src/contexts/WebSocketContext.jsx:156-160 | as written, only high and critical alerts raise a toast |
| StreamClient.MediumAlertLosesWarning | src/contexts/WebSocketContext.jsx:156-160 | a medium alert should raise a warning toast, and as written raises none |
| StreamClient.Client.constructor | src/contexts/WebSocketContext.jsx:15-24 | disconnected, empty buffers, no socket, no timer, no attempts |
| StreamClient.Client.Connect | src/contexts/WebSocketContext.jsx:26-103 | a new connecting socket, or only the status set to error when construction throws |
| StreamClient.Client.OnOpen | src/contexts/WebSocketContext.jsx:33-50 | connected, attempts reset, one client_info frame sent, a success toast |
| StreamClient.Client.OnMessage | src/contexts/WebSocketContext.jsx:52-79 | a parsed frame becomes lastMessage and is dispatched by type, an alert with the corrected toast of "## Findings"; an unparsable one changes nothing; the connection is untouched |
| StreamClient.Client.OnClose | src/contexts/WebSocketContext.jsx:81-91 | disconnected; a reconnect is scheduled exactly after an unclean close with fewer than five attempts |
| StreamClient.Client.OnError | src/contexts/WebSocketContext.jsx:93-97 | only the status becomes error (`isConnected` stays), plus an error toast |
| StreamClient.Client.ScheduleReconnect | src/contexts/WebSocketContext.jsx:105-118 | the timer is replaced by one with the back-off for the attempts so far, and one more attempt is counted |
| StreamClient.Client.ReconnectTimerFires | src/contexts/WebSocketContext.jsx:115-117 | a pending timer fires once and calls connect |
| StreamClient.Client.Disconnect | src/contexts/WebSocketContext.jsx:120-133 | the socket is dropped, the timer cancelled, disconnected; attempts are kept |
| StreamClient.Client.SendMessage | src/contexts/WebSocketContext.jsx:135-141 | written exactly when the socket is open, dropped otherwise |
| StreamClient.Client.Ping | src/contexts/WebSocketContext.jsx:167-169 | one ping frame, under the same rule |
| StreamClient.Client.HandleNewAlert | src/contexts/WebSocketContext.jsx:143-161 | the alert buffer is prepended and capped at 100; one toast is raised, the corrected one of "## Findings" |
| StreamClient.Client.HandleNewActivity | src/contexts/WebSocketContext.jsx:163-165 | the activity buffer is prepended and capped at 200 |
| StreamClient.FailingReconnects | src/contexts/WebSocketContext.jsx:86-88 | with every socket failing, five reconnects are scheduled and the sixth close schedules none |
| ConnectionRegistry.DefaultMetadata | websocket_manager.py:28-32 | exactly the keys connected_at, client_type 'dashboard' and user_id None |
| ConnectionRegistry.RemoveFirst | websocket_manager.py:38 | `list.remove` drops one copy when present, changes nothing when absent, and keeps every other connection |
| ConnectionRegistry.RemoveFirstIsFirst | websocket_manager.py:38 | the copy removed is the first occurrence: the list without exactly that position |
| ConnectionRegistry.RemoveFirstKeepsOrder | websocket_manager.py:38 | the rest keeps its order; without duplicates the connection is gone |
| ConnectionRegistry.RemoveEachMultiset | websocket_manager.py:112-113 | when every removal finds its target, exactly the removed ones go |
| ConnectionRegistry.FailedSpec | websocket_manager.py:104-109 | exactly the connections whose send raised are collected, each at most as often as it is listed |
| ConnectionRegistry.Succeeded | websocket_manager.py:104-109 | exactly the connections whose send went through |
| ConnectionRegistry.SucceededIsSubsequence | websocket_manager.py:104-109 | the successful connections are kept in list order |
| ConnectionRegistry.BroadcastSurvivors | websocket_manager.py:96-113 | with distinct connections, the survivors are exactly the successful ones, in order |
| ConnectionRegistry.BroadcastPrunesFailures | websocket_manager.py:96-113 | a connection survives a broadcast exactly when its send succeeded |
| ConnectionRegistry.DuplicateConnectionSurvivesFailure | websocket_manager.py:104-113 | with a connection listed twice, a failed send on the second copy removes the first one |
| ConnectionRegistry.DeliveriesAreToSucceeded | websocket_manager.py:104-106 | each successful connection receives the frame once, in list order, and no other connection does |
| ConnectionRegistry.Subscribe | websocket_manager.py:153-155 | the set becomes exactly the old topics plus the new one, or `{topic}` when missing, and other keys are untouched; it raises exactly when the value there is not a set |
| ConnectionRegistry.SubscribeIdempotent | websocket_manager.py:153-155 | subscribing twice is subscribing once |
| ConnectionRegistry.SubscribeKeepsTopics | websocket_manager.py:153-155 | earlier topics stay |
| ConnectionRegistry.ConnectionManager.constructor | websocket_manager.py:20-22 | no connections, no metadata |
| ConnectionRegistry.ConnectionManager.ConnectionCount | websocket_manager.py:166-168 | the length of the connection list |
| ConnectionRegistry.ConnectionManager.Connect | websocket_manager.py:24-33 | appended without a duplicate check, with default metadata; the count grows by one |
| ConnectionRegistry.ConnectionManager.Disconnect | websocket_manager.py:35-41 | an unknown socket is ignored; otherwise its first entry and its metadata go |
| ConnectionRegistry.ConnectionManager.BroadcastMessage | websocket_manager.py:96-113 | frames go to the successful connections in order; then the failed ones are removed one by one, and their metadata dropped |
| ConnectionRegistry.ConnectionManager.SendAll | websocket_manager.py:104-109 | the send loop collects exactly the failed connections and changes no registry state |
| ConnectionRegistry.ConnectionManager.DisconnectAll | websocket_manager.py:112-113 | the removal loop is `disconnect` applied to each collected connection in turn |
| ConnectionRegistry.ConnectionManager.Broadcast | websocket_manager.py:43-94 | with no connections nothing happens; otherwise a `_broadcast_message` of the typed frame |
| ConnectionRegistry.ConnectionManager.SendToClient | websocket_manager.py:115-122 | a delivered frame is recorded; a failed send disconnects that client |
| ConnectionRegistry.ConnectionManager.HandleSubscription | websocket_manager.py:151-164 | for a known socket the topic is recorded and confirmed; an unknown socket or a failed `.add` changes nothing |
| ConnectionRegistry.ConnectionManager.HandleClientMessage | websocket_manager.py:124-149 | ping is answered with pong; a non-empty subscription is recorded and confirmed, and a failed confirmation disconnects the socket; client_info is merged into known metadata; anything else changes nothing |

## Left out

- Rendering, icons, CSS classes, toast styling, emoji and durations, and console or server logging.
- JSON encoding and decoding: frames are given already decoded, and a frame that fails to parse is `Unparsable`. `_broadcast_message` encodes the frame with `json.dumps` before its per-connection `try` (websocket_manager.py:101). A payload that cannot be encoded therefore aborts the whole broadcast before any send, and the exception reaches the caller; the model's frames always encode.
- Unicode case folding: `toLowerCase` is modelled on ASCII letters only.
- Time zones: `getHours` uses a fixed UTC offset, so daylight-saving changes are not modelled.
- Floating point: percentages, trends and intensities are exact reals, and coordinates are exact values, so rounding errors of binary doubles near a threshold or a `toFixed` tie are not modelled.
- Object key order: `Object.values` and `Object.entries` list integer-like keys first in JavaScript. The model lists keys in insertion order. This can change the order of equal-count tally entries. Heatmap keys always contain a comma, so they are never integer-like.
- Callbacks of an earlier socket firing after a new one was created are not modelled: the model has one current socket.
- StreamClient.Client.ReconnectTimerFires: the timer reference is cleared when it fires. The source keeps the stale id until it is replaced, which has no observable effect.
- Async scheduling on the server: each method runs to completion without interleaving. A failing `accept` is not modelled.
- `start_heartbeat` and `get_connection_info` (websocket_manager.py:170-215) are not part of this model. Neither are exceptions raised by a `client_info` payload that is not a dictionary.
- The React Query polling, the Analytics `timeRange` select, which no computation uses, and the `slice(0, 12)` display limit on activity types.
- StreamClient.Client.HandleNewAlert: raises the corrected toast of "## Findings"; as written, a low or medium alert raises none, because `toast.warning` throws.
- StreamClient.Client.OnMessage: dispatches alerts to `HandleNewAlert`, so it too raises the corrected toast; as written, the throw is caught and logged as a parse error.
- Events.ParseSeverity: the views take severities as given; a severity that parsing cannot yield (`Unrecognised("high")`) is not ruled out of their inputs.
- ConnectionRegistry.WellFormedClientMessage: `HandleClientMessage` takes messages as given; an `OtherType("ping")`, which decoding cannot yield, is not ruled out of its inputs.
- StreamClient.WellFormedMessage: `OnMessage` takes messages as given; an `OtherMessage("alert")`, which decoding cannot yield, is not ruled out of its inputs.
- Analytics.TallySpec: keys are taken as plain strings. In JavaScript, `(acc[k] || 0) + 1` on a plain `{}` starts a key naming an `Object.prototype` member (`constructor`, `toString`, …) from the inherited function, so its count becomes a string. An assignment to `__proto__` is dropped, so that key is missing from `Object.entries`. The model gives every key its exact count.
- Analytics.GetTopUsers: inherits the TallySpec caveat for a user id naming an `Object.prototype` member.
- Analytics.GetActivityTypes: inherits the TallySpec caveat for an action naming an `Object.prototype` member.
- ConnectionRegistry.BroadcastSurvivors: the exact survivor list is proved only for a connection list without duplicates. `DuplicateConnectionSurvivesFailure` shows what happens otherwise.

## Findings

| source | as written | input that shows it | evidently intended | confidence | as-written member | corrected member |
|---|---|---|---|---|---|---|
| src/contexts/WebSocketContext.jsx:156-160 | a low or medium alert calls `toast.warning`, a method react-hot-toast does not have; the call throws after the alert was buffered, and `onmessage`'s catch logs it as a parse error | any alert frame of severity medium or low | a warning toast with the alert's description | high; not executed | StreamClient.MediumAlertLosesWarning | StreamClient.AlertNotice |
