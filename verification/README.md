# expo-parsely in Dafny

A model of the JavaScript core of `expo-parsely`, a React Native wrapper around
the Parse.ly analytics SDK. The model covers:

- **Two heartbeat engines.** These measure engaged time and are kept apart
  because they disagree.
  - The standalone `HeartbeatManager` singleton keeps beating while the user
    is idle.
  - The `useReanimatedHeartbeat` hook ends the session at the first check
    that finds the user idle.
  - Both are pure state machines over an explicit clock argument `now` in
    milliseconds. A pending `setTimeout` is the instant it is due, or a
    handle the hook holds.
- **The debug views of engagement.** This covers the `useHeartbeatDebug`
  hook's derived values ("last activity" label, recent-activity flag,
  session duration) and the debug-store singleton (partial-record merges,
  reset, listeners).
- **Component-hierarchy analytics.** This covers the helpers over a stack
  of registered elements (nth-child and same-tag positions, id and name
  extraction, closest ancestor, depth, descendant test) and the tracking
  provider's stack (register, cleanup, `getHierarchy`, depth).
- **The touch boundary.** Its handlers form a state machine for scroll
  classification, the one-second activity throttle and the 2 s scroll
  reset timer.
- **The wrapper module.** This covers the in-memory common parameters,
  their merge into each tracking call, the two calling conventions of
  `trackPageView` and `startEngagement`, and the `videoPlaying` accessor.
- **Navigation.** This covers the expo-router hook (screen-name formatter,
  page url, unchanged-path skip) and the `NavigationTracker` component
  (change detection, activity debounce, title, url and from/to).
- **The release script's pure part.** This covers reading the version's
  parts as `Number` reads them (missing parts are `undefined`, other text
  is `NaN`), the release-type switch, the version text and the example
  app's dependency rewrite.

JavaScript semantics that matter are written out in `js_semantics.dfy`:

- `||` on possibly-absent strings (an empty string is falsy).
- Object spread as a map overlay.
- `Math.floor` and truncating division.
- The 32-bit wrap of `| 0`.

`text.dfy` and `decimal.dfy` hold the string operations (split, join,
first-letter upper-casing, decimal rendering and parsing) with their
round-trip lemmas.

Behaviours worth knowing before reading the model:

- **The manager never ends an idle session.** Its first firing after the
  activity timeout still counts a heartbeat and adds 0 s, and the timer is
  rescheduled. `HeartbeatManager.IdleSessionKeepsBeating` states this.
- **The hook ends an idle session at its first timer check.** Its
  `startHeartbeat` runs a check at once, so the count is 1 before the idle
  check ends the session.
  `ReanimatedHeartbeat.IdleSessionEndsAtFirstTimerCheck` states this.
- **The hook's session ends on a props change.** A new configuration gives
  its start and stop functions new identities, and the effect cleanups stop
  the session. `ReanimatedHeartbeat.PropsChangeEndsSession` states this.
- **The debug hook never shows activity.** It stores the pending Promise
  of the asynchronous status call. This is a finding below.
- **The hook's start keeps the last-heartbeat time.** Its first heartbeat
  after a restart therefore counts the time since the previous heartbeat.
  This is the first finding below.

## Model

| member | source | states |
|---|---|---|
| JsSemantics.OverlayAbsorbsBase | src/ExpoParselyModule.ts:40-47 | overlaying the same base again onto an overlay changes nothing |
| JsSemantics.ToInt32 | src/utils/HeartbeatManager.ts:69 | the bitwise-or with 0 wraps into the signed 32-bit range, agrees with the input modulo 2^32, and is the identity inside the range |
| JsSemantics.TruncDiv | src/utils/HeartbeatManager.ts:69 | division rounds toward zero for both signs of the dividend |
| JsSemantics.FloorDiv | src/hooks/useReanimatedHeartbeat.ts:347 | `Math.floor(a / b)` is the unique q with q*b <= a < q*b + b |
| Text.JoinSplit | src/components/NavigationTracker.tsx:59 | joining the pieces of a split by the separator gives back the original text |
| Text.SplitJoin | src/hooks/useNavigationTracking.tsx:151 | splitting a join of separator-free parts gives back exactly those parts |
| Text.CapitalizeFirstIdempotent | src/hooks/useNavigationTracking.tsx:143 | upper-casing the first word character twice is upper-casing it once |
| Decimal.ParseNatOfNatToString | scripts/bump-version.ts:16 | reading back a rendered natural number gives the number |
| Decimal.NatToStringInjective | scripts/bump-version.ts:37 | distinct numbers render to distinct text |
| HeartbeatConfig.Apply | src/utils/HeartbeatManager.ts:20-22 | each supplied key replaces the current value and every key not supplied keeps its value |
| HeartbeatConfig.ApplyLaws | src/hooks/useReanimatedHeartbeat.ts:66-75 | the empty patch changes nothing and a patch applied twice acts once |
| HeartbeatConfig.IntervalMs | src/hooks/useReanimatedHeartbeat.ts:78 | the configured seconds, fractions included, times 1000: the interval in ms divided by 1000 is the setting, positive exactly for a positive setting and at least 1000 from one second up |
| HeartbeatConfig.ActiveTimeoutMs | src/hooks/useReanimatedHeartbeat.ts:79 | the configured seconds, fractions included, times 1000: the timeout in ms divided by 1000 is the setting, non-negative exactly for a non-negative setting |
| HeartbeatConfig.FractionalSecondsKept | src/hooks/useReanimatedHeartbeat.ts:78-79 | a 2.5 s interval is 2500 ms and a 0.5 s timeout is 500 ms |
| HeartbeatManager.UpdateConfig | src/utils/HeartbeatManager.ts:20-22 | only the supplied configuration keys change; the session and a pending timer are untouched |
| HeartbeatManager.ScheduleNext | src/utils/HeartbeatManager.ts:49-57 | only a live session gets a timer, due one interval after now; nothing else changes |
| HeartbeatManager.Start | src/utils/HeartbeatManager.ts:24-34 | no-op when live or disabled; otherwise live, all three timestamps at now, both counters 0, one timer due an interval later, config kept |
| HeartbeatManager.Stop | src/utils/HeartbeatManager.ts:36-43 | afterwards inactive; a live session loses its timer and nothing else, a stopped one is left as it is |
| HeartbeatManager.RecordActivity | src/utils/HeartbeatManager.ts:45-47 | only the activity time changes, live session or not |
| HeartbeatManager.EngagedIncrement | src/utils/HeartbeatManager.ts:68-69 | 0 when not engaged; when engaged, the whole seconds elapsed for a gap in [0, 2^31) s, and for a gap in (-2^31, 0) s (a clock gone back) the seconds truncated toward zero, so never positive |
| HeartbeatManager.SendHeartbeat | src/utils/HeartbeatManager.ts:59-82 | inactive: nothing; live: engaged increment added, heartbeat stamped and counted, next timer scheduled, nothing else changed, the same increment passed to the callback when one is set |
| HeartbeatManager.TimerFires | src/utils/HeartbeatManager.ts:54-56 | with no timer pending nothing happens; a timer that fires on a stopped session only clears itself |
| HeartbeatManager.GetStats | src/utils/HeartbeatManager.ts:84-92 | the snapshot agrees with the session on all five fields |
| HeartbeatManager.Reset | src/utils/HeartbeatManager.ts:94-101 | both counters 0 and all three timestamps now; activity state, timer and configuration are kept |
| HeartbeatManager.StepKeepsValid | src/utils/HeartbeatManager.ts:24-82 | every call and firing keeps "a timer is pending exactly while the session is live" |
| HeartbeatManager.RunKeepsValid | src/utils/HeartbeatManager.ts:24-82 | the same holds along any sequence of calls and firings |
| HeartbeatManager.InitialIsValid | src/utils/HeartbeatManager.ts:4-18 | the freshly constructed manager is inactive with no timer |
| HeartbeatManager.StartStopIdempotent | src/utils/HeartbeatManager.ts:24-43 | starting a started session and stopping a stopped one change nothing |
| HeartbeatManager.InactiveFiringIsInert | src/utils/HeartbeatManager.ts:49-61 | with no live session a firing changes nothing and schedules nothing |
| HeartbeatManager.FiringNeverDeactivates | src/utils/HeartbeatManager.ts:59-82 | a firing on a live session leaves it live with the next timer one interval later, engaged or not |
| HeartbeatManager.CountersNeverDecrease | src/utils/HeartbeatManager.ts:72-74 | neither counter drops on any call but reset and start (which is a no-op on a live session), for a forward clock |
| HeartbeatManager.FiringIncrement | src/utils/HeartbeatManager.ts:63-72 | a live firing adds the whole seconds since the last heartbeat when engaged and 0 otherwise |
| HeartbeatManager.EngagedFiringsSumGaps | src/utils/HeartbeatManager.ts:68-74 | over a run of firings each engaged (by video or by activity within the timeout) the total grows by the sum of the whole seconds of each gap (no double counting) and the count by one per firing |
| HeartbeatManager.FiringsSeenThroughStats | src/utils/HeartbeatManager.ts:84-92 | seen through `getStats`, a run of live firings counts one heartbeat each, never lowers the engaged time, and keeps the session live with its start and activity times |
| HeartbeatManager.IdleSessionKeepsBeating | src/utils/HeartbeatManager.ts:59-82 | an idle session past its timeout stays live, counts the heartbeat and reports 0 s |
| HeartbeatDebug.ReadingOf | src/hooks/useHeartbeatDebug.ts:43-48 | seconds below a minute, whole minutes below an hour, whole hours otherwise; the amount is the elapsed seconds divided by the unit, and below 60 except for hours |
| HeartbeatDebug.NestedDivision | src/hooks/useHeartbeatDebug.ts:45-47 | whole minutes of whole minutes are whole hours |
| HeartbeatDebug.FormatLastActivity | src/hooks/useHeartbeatDebug.ts:41-49 | "Never" exactly for the timestamp 0; otherwise the rendering of the elapsed whole seconds |
| HeartbeatDebug.RenderReadsBack | src/hooks/useHeartbeatDebug.ts:44-48 | a label splits into the amount's digits, which read back to the amount, and the unit's suffix |
| HeartbeatDebug.IsActiveWindow | src/hooks/useHeartbeatDebug.ts:39 | an activity counts as recent for exactly 5 s and never again without a newer one |
| HeartbeatDebug.SessionDuration | src/hooks/useHeartbeatDebug.ts:59 | the whole seconds since the start, non-negative once the clock has passed it |
| HeartbeatDebug.SessionDurationMonotone | src/hooks/useHeartbeatDebug.ts:59 | the duration never decreases as time passes |
| HeartbeatDebug.DebugStats | src/hooks/useHeartbeatDebug.ts:38-62 | from a resolved status (the corrected poll): the flag holds iff there was activity in the last 5 s; the label is that timestamp's, the duration the hook's own, and the counters the status's |
| HeartbeatDebug.ResolvedStatusShowsActivity | src/hooks/useHeartbeatDebug.ts:38-44 | from a resolved status, activity one second old is reported live and labelled "1s ago" |
| HeartbeatDebug.DebugStatsAsWritten | src/hooks/useHeartbeatDebug.ts:19-62 | as written: before the first poll, the stats of the zero record; from the first poll on, the held Promise gives `undefined` counters; the duration is the hook's own either way |
| HeartbeatDebug.PolledStatsShowNoActivity | src/hooks/useHeartbeatDebug.ts:29-42 | as written, the flag is false and the label "Never" before and after any poll, whatever activity the native side recorded |
| ReanimatedHeartbeat.Mount | src/hooks/useReanimatedHeartbeat.ts:66-106 | props overlay the defaults; inactive, nothing scheduled, every timestamp at mount time, counters 0 |
| ReanimatedHeartbeat.RecordActivityInner | src/hooks/useReanimatedHeartbeat.ts:110-144 | the activity is stamped and counted and the session marked live; nothing else changes |
| ReanimatedHeartbeat.RecordActivity | src/hooks/useReanimatedHeartbeat.ts:331-336 | nothing when disabled; otherwise the inner record; it never schedules a check |
| ReanimatedHeartbeat.ClearTracked | src/hooks/useReanimatedHeartbeat.ts:166-170 | the held handle is dropped and only orphaned checks remain pending |
| ReanimatedHeartbeat.ScheduleCheck | src/hooks/useReanimatedHeartbeat.ts:200 | the handle names a check due an interval later and one more check is pending (a held pending one is orphaned) |
| ReanimatedHeartbeat.CheckInternal | src/hooks/useReanimatedHeartbeat.ts:147-203 | not engaged: session ended, handle cleared, nothing sent, counters kept; engaged: whole seconds since the last heartbeat added and reported, heartbeat stamped and counted, one more check scheduled |
| ReanimatedHeartbeat.PerformCheck | src/hooks/useReanimatedHeartbeat.ts:205-209 | with no video, a check past the timeout ends the session and sends nothing, since the timer path never reports scrolling |
| ReanimatedHeartbeat.TrackedCheckFires | src/hooks/useReanimatedHeartbeat.ts:200 | only a held pending check runs, and it runs the timer-path check |
| ReanimatedHeartbeat.OrphanCheckFires | src/hooks/useReanimatedHeartbeat.ts:200 | an orphaned check still runs the check, session live or not |
| ReanimatedHeartbeat.StartHeartbeat | src/hooks/useReanimatedHeartbeat.ts:212-250 | nothing when disabled; otherwise engagement starts for a truthy url, session stamps at now, and the immediate check counts a heartbeat that reports the seconds since the previous heartbeat and adds one pending check |
| ReanimatedHeartbeat.StopHeartbeat | src/hooks/useReanimatedHeartbeat.ts:253-280 | nothing when disabled; otherwise engagement stopped, session inactive, handle cleared, nothing else changed |
| ReanimatedHeartbeat.StartHeartbeatFixed | src/hooks/useReanimatedHeartbeat.ts:212-250 | the repaired start: the last-heartbeat time is restamped, the held check is cleared, and exactly one check is pending besides orphans; its first heartbeat reports 0 s |
| ReanimatedHeartbeat.AppStateChange | src/hooks/useReanimatedHeartbeat.ts:283-292 | backgrounding stops, becoming active starts (with the start as written) only a session that is not live, other states do nothing |
| ReanimatedHeartbeat.SetVideoPlaying | src/hooks/useReanimatedHeartbeat.ts:316-321 | only the configuration's video flag changes |
| ReanimatedHeartbeat.ResetStats | src/hooks/useReanimatedHeartbeat.ts:324-328 | only the two debug counters change, to 0 |
| ReanimatedHeartbeat.FormatLastActivity | src/hooks/useReanimatedHeartbeat.ts:345-353 | "Never" also when the last activity is the session start; otherwise the debug hook's label, which is then not "Never" |
| ReanimatedHeartbeat.DebugStats | src/hooks/useReanimatedHeartbeat.ts:339-367 | the pushed stats mirror the session flag and counters, with the duration since session start |
| ReanimatedHeartbeat.DebugStatsFollowCheck | src/hooks/useReanimatedHeartbeat.ts:339-367 | after an engaged check the pushed heartbeat count is exactly one higher, with the activity count, flag and label unchanged; the label equals the debug hook's whenever the last activity is not the session start |
| ReanimatedHeartbeat.PropsChange | src/hooks/useReanimatedHeartbeat.ts:296-307 | when an input of the configuration memo changes: the new configuration is the props over the defaults; an enabled hook's session ends, the held check is cleared, orphans stay; nothing else changes. Otherwise nothing changes, an in-place video write included |
| ReanimatedHeartbeat.PropsChangeEndsSession | src/hooks/useReanimatedHeartbeat.ts:66-75 | a live single-check session whose props change is left with nothing pending, so no timer counts another heartbeat; the counters are kept |
| ReanimatedHeartbeat.StepKeepsSingleCheck | src/hooks/useReanimatedHeartbeat.ts:283-292 | every event of the hook as written, the app-state listener and a props re-render included, keeps at most one check scheduled and only while live, except a direct start while a check is held, which leaves two when heartbeats are enabled and the timeout is non-negative (a disabled start changes nothing, and with a negative timeout the immediate check is idle and clears the held handle) |
| ReanimatedHeartbeat.StopLeavesNothingPending | src/hooks/useReanimatedHeartbeat.ts:253-280 | after a stop no check is left to run, and stopping twice is stopping once |
| ReanimatedHeartbeat.IdleCheckEndsSession | src/hooks/useReanimatedHeartbeat.ts:164-178 | a timer check past the timeout without video ends the session with nothing pending and no counter moved |
| ReanimatedHeartbeat.IdleSessionEndsAtFirstTimerCheck | src/hooks/useReanimatedHeartbeat.ts:212-250 | an idle session sends the immediate heartbeat and ends at the first timer check with the count at 1 |
| ReanimatedHeartbeat.ActivityRevivesWithoutCheck | src/hooks/useReanimatedHeartbeat.ts:122-123 | activity after an idle stop marks the session live with no check scheduled, so foregrounding will not restart it |
| ReanimatedHeartbeat.FixedStartKeepsSingleCheck | src/hooks/useReanimatedHeartbeat.ts:212-250 | with the repaired start even a repeated start keeps a single check |
| ReanimatedHeartbeat.RestartCountsBackgroundTime | src/hooks/useReanimatedHeartbeat.ts:228-244 | as written, the app-state listener's restart an hour after backgrounding reports 3601 engaged seconds |
| ReanimatedHeartbeat.FixedRestartCountsNothing | src/hooks/useReanimatedHeartbeat.ts:228-244 | with the repaired start, a restart after backgrounding reports 0 engaged seconds and adds nothing, however long the background time |
| ReanimatedHeartbeat.DoubleStartOrphansCheck | src/hooks/useReanimatedHeartbeat.ts:200 | as written, two starts leave two checks scheduled; after a stop one still runs and counts a heartbeat |
| HierarchyHelpers.ElementDepth | src/utils/hierarchyHelpers.ts:194-199 | -1 exactly when the element is absent; otherwise the position of its first occurrence |
| HierarchyHelpers.CountNamePrefixMonotone | src/utils/hierarchyHelpers.ts:41-58 | counting a name over a longer prefix never gives less |
| HierarchyHelpers.CountSameName | src/utils/hierarchyHelpers.ts:49-51 | the loop counts exactly the siblings with the name |
| HierarchyHelpers.CalculateNthChildPosition | src/utils/hierarchyHelpers.ts:41-58 | empty when absent; otherwise one entry per depth up to the element's, entry d the count of same-name elements among the first d+1, the last at least 1 |
| HierarchyHelpers.NthChildPositionsAscend | src/utils/hierarchyHelpers.ts:41-58 | the nth-child positions never decrease with depth |
| HierarchyHelpers.CalculateSameTagNthChild | src/utils/hierarchyHelpers.ts:66-87 | empty when absent; otherwise the single rank (at least 1) of the element among same-name elements up to it |
| HierarchyHelpers.GetElementPosition | src/utils/hierarchyHelpers.ts:96-108 | the same-tag list is exactly the last nth-child entry, and both are empty for an absent element |
| HierarchyHelpers.TrackingIds | src/utils/hierarchyHelpers.ts:115-119 | no kept id is empty or "null"; every id is that of a kept element and every kept element's id is present; nothing is dropped exactly when every element has a usable id |
| HierarchyHelpers.TrackingIdsSingleton | src/utils/hierarchyHelpers.ts:115-119 | one element contributes its id exactly when it is kept, which with the append law determines the filter |
| HierarchyHelpers.TrackingIdsAppend | src/utils/hierarchyHelpers.ts:115-119 | the filter keeps order: the ids of a concatenation are the ids of each part in turn |
| HierarchyHelpers.ComponentNames | src/utils/hierarchyHelpers.ts:126-128 | one name per element, position by position |
| HierarchyHelpers.TestIds | src/utils/hierarchyHelpers.ts:135-137 | one entry per element; it reads "null" exactly when the testID is missing, empty or itself "null" |
| HierarchyHelpers.BuildHierarchyData | src/utils/hierarchyHelpers.ts:144-160 | same elements in the same order with their fields, each ranked (from 1) among same-name elements so far |
| HierarchyHelpers.LastNamedBefore | src/utils/hierarchyHelpers.ts:176-183 | the nearest earlier position holding the name, with no such position between it and the bound |
| HierarchyHelpers.FindClosestAncestor | src/utils/hierarchyHelpers.ts:169-186 | nothing for an absent element or when no earlier element has the name; otherwise the named element nearest before the element |
| HierarchyHelpers.DescendantMeansAncestorEarlier | src/utils/hierarchyHelpers.ts:208-217 | descendant iff the descendant is present and the ancestor occurs before its first occurrence |
| HierarchyHelpers.DescendantIsStrictOrder | src/utils/hierarchyHelpers.ts:208-217 | the relation is irreflexive, asymmetric and transitive |
| HierarchyHelpers.ClosestAncestorIsAncestor | src/utils/hierarchyHelpers.ts:169-217 | whatever the ancestor search finds is an ancestor in the descendant sense |
| TrackingContext.Register | src/contexts/TrackingContext.tsx:127 | the component goes on top and the rest of the stack is unchanged |
| TrackingContext.Unregister | src/contexts/TrackingContext.tsx:137-148 | the first identical entry is spliced out keeping the others in order; an absent component changes nothing; exactly one occurrence leaves |
| TrackingContext.RegisterThenCleanup | src/contexts/TrackingContext.tsx:125-151 | registering deepens the stack by one and its cleanup restores it exactly |
| TrackingContext.CleanupTwiceIsCleanupOnce | src/contexts/TrackingContext.tsx:137-148 | a second cleanup of a component registered at most once changes nothing |
| TrackingContext.CurrentDepth | src/contexts/TrackingContext.tsx:185 | the depth is the number of registered components |
| TrackingContext.SameTagIndexes | src/contexts/TrackingContext.tsx:175-179 | one index per component, each its rank (from 1) among same-name components so far |
| TrackingContext.SpliceMultiset | src/contexts/TrackingContext.tsx:140 | splicing out one position removes exactly one occurrence and keeps the rest in order |
| TrackingContext.GetHierarchy | src/contexts/TrackingContext.tsx:153-183 | four arrays as long as the stack; names and testIDs as the helpers give them, unfiltered tracking ids with "null" in place, same-tag indexes as `buildHierarchyData` gives them |
| TouchBoundary.TouchStart | src/components/HeartbeatTouchBoundary.tsx:38-49 | the start point is remembered, both scroll flags drop, activity is recorded, the throttle and reset timer are untouched |
| TouchBoundary.TouchMove | src/components/HeartbeatTouchBoundary.tsx:51-86 | the first probable scroll raises both flags and replaces the reset timer; activity is recorded iff a second has passed since the last recorded move, which then becomes now |
| TouchBoundary.TouchEnd | src/components/HeartbeatTouchBoundary.tsx:88-101 | the timer and both flags are cleared whatever the state, and no activity is recorded |
| TouchBoundary.ScrollTimeoutFires | src/components/HeartbeatTouchBoundary.tsx:67-71 | a pending reset drops both flags; without one nothing happens |
| TouchBoundary.Unmount | src/components/HeartbeatTouchBoundary.tsx:103-112 | the timer and the module flag are cleared; the instance's flag is kept |
| TouchBoundary.ScrollRisesAtMostOnce | src/components/HeartbeatTouchBoundary.tsx:59-71 | along moves with no reset firing in between, the scroll flag rises at most once and stays up once up |
| TouchBoundary.DragRisesBoundedByResets | src/components/HeartbeatTouchBoundary.tsx:59-71 | during a drag of moves and reset firings the flag rises at most once more than the reset timer fires |
| TouchBoundary.LongDragRisesTwice | src/components/HeartbeatTouchBoundary.tsx:59-71 | a drag held past the 2 s reset raises the flag a second time after the timer clears it |
| TouchBoundary.MoveThrottle | src/components/HeartbeatTouchBoundary.tsx:78-83 | k recorded moves push the last recorded time at least k seconds forward |
| TouchBoundary.ExportedFlagGoesStale | src/components/HeartbeatTouchBoundary.tsx:8-9 | as written, the exported flag reads false while a drag has raised the module flag |
| TouchBoundary.CurrentlyScrolling | src/components/HeartbeatTouchBoundary.tsx:8-9 | the repaired export reads the live module flag |
| TouchBoundary.CurrentlyScrollingFollowsGesture | src/components/HeartbeatTouchBoundary.tsx:51-101 | the repaired export is up after a vertical drag and down after touch end or the reset timer |
| ParselyModule.Merge | src/ExpoParselyModule.ts:33-50 | metadata and extra data are the common keys overlaid by the call's keys; a truthy call siteId wins over the common one; every other field is the call's |
| ParselyModule.MergeIdempotent | src/ExpoParselyModule.ts:33-50 | merging the same common parameters twice is merging once |
| ParselyModule.MergeWithoutCommon | src/ExpoParselyModule.ts:33-50 | with nothing stored the merge only materialises the two objects and drops an empty siteId |
| ParselyModule.SetCommonParameters | src/ExpoParselyModule.ts:60-62 | the stored parameters read back as given; the video flag is kept |
| ParselyModule.ClearCommonParameters | src/ExpoParselyModule.ts:70-72 | nothing is stored afterwards; the video flag is kept |
| ParselyModule.CommonParametersLastWriteWins | src/ExpoParselyModule.ts:60-72 | of two sets only the last counts, and a clear undoes any set |
| ParselyModule.Normalise | src/ExpoParselyModule.ts:84-102 | a url string becomes the options with that url winning over any url in them; an options object passes unchanged |
| ParselyModule.TrackPageView | src/ExpoParselyModule.ts:80-107 | the native call receives the normalised options merged with the common parameters, with the url argument kept |
| ParselyModule.StartEngagement | src/ExpoParselyModule.ts:115-141 | engagement resolves and merges its arguments exactly as a page view does |
| ParselyModule.OverloadsAgree | src/ExpoParselyModule.ts:80-107 | a url plus options sends what the options object carrying that url sends |
| ParselyModule.SetVideoPlaying | src/ExpoParselyModule.ts:170-174 | the getter then returns the value set; common parameters are kept |
| ParselyModule.VideoPlayingReadsLastWrite | src/ExpoParselyModule.ts:164-174 | the getter starts false and returns the last value set |
| NavigationTracking.FormatSegment | src/hooks/useNavigationTracking.tsx:140-150 | a `[x]` segment gives x with its first word character upper-cased and is two characters shorter; any other is cut at `-` and `_` and the capitalised words run together, losing exactly its `-` and `_` characters, none of which remain |
| NavigationTracking.PlainWordsShape | src/hooks/useNavigationTracking.tsx:146-149 | cutting at `-` and `_` and joining the capitalised words loses exactly those characters and none remain |
| NavigationTracking.FormatSegmentAvoidsSpace | src/hooks/useNavigationTracking.tsx:140-150 | formatting never introduces a space |
| NavigationTracking.FormatScreenName | src/hooks/useNavigationTracking.tsx:133 | the root path is "Home" |
| NavigationTracking.ScreenNameWords | src/hooks/useNavigationTracking.tsx:132-152 | for a path without spaces, the name's space-separated words are exactly the formatted segments, one per `/`-separated segment |
| NavigationTracking.ScreenName | src/hooks/useNavigationTracking.tsx:77-96 | a truthy custom name wins, otherwise the built-in formatter's |
| NavigationTracking.PageMetadata | src/hooks/useNavigationTracking.tsx:75-80 | four keys, the canonical url and the title as given |
| NavigationTracking.PageViewAsWritten | src/hooks/useNavigationTracking.tsx:82 | as written, the page view carries the url but only the stored common metadata |
| NavigationTracking.PageViewIntended | src/hooks/useNavigationTracking.tsx:82 | the repaired call carries every metadata key built for the page |
| NavigationTracking.NavigationMetadataDropped | src/hooks/useNavigationTracking.tsx:75-82 | with nothing stored the call as written sends empty metadata, no title included, where the repaired one sends the title |
| NavigationTracking.NavigationEffect | src/hooks/useNavigationTracking.tsx:57-126 | nothing while disabled, without the router or on an unchanged path; otherwise a page view for `urlPrefix + pathname` carrying only the stored common metadata and a screen change, each if enabled, and the path is remembered |
| NavigationTracking.NavigationEffectIntended | src/hooks/useNavigationTracking.tsx:75-82 | the repaired effect makes the same decisions and screen change, and its page view carries the screen name as title |
| NavigationTracking.EffectDropsTitle | src/hooks/useNavigationTracking.tsx:75-82 | with nothing stored, every page view the effect sends has empty metadata, while the repaired effect sends the title |
| NavigationTracking.SamePathTrackedOnce | src/hooks/useNavigationTracking.tsx:69 | re-running the effect on the same path tracks nothing more |
| NavigationTracker.ScreenTitle | src/components/NavigationTracker.tsx:59 | the last `/`-segment, or "Screen" when it is empty |
| NavigationTracker.ScreenTitleIsTail | src/components/NavigationTracker.tsx:59 | a title other than the fallback is a slash-free tail of the path |
| NavigationTracker.ScreenUrl | src/components/NavigationTracker.tsx:60 | the url starts with `/`; a path starting with one is kept, any other gets one prepended |
| NavigationTracker.ScreenUrlIdempotent | src/components/NavigationTracker.tsx:60 | prefixing is idempotent and keeps the path exactly when it already starts with `/` |
| NavigationTracker.FromLabel | src/components/NavigationTracker.tsx:62 | the previous path, or "initial" when it is empty |
| NavigationTracker.Navigate | src/components/NavigationTracker.tsx:30-89 | handled iff the path is non-empty and new; activity recorded iff also past the debounce window, which then restarts; screen record from title, url and from/to; the path is always remembered |
| NavigationTracker.SamePathHandledOnce | src/components/NavigationTracker.tsx:33-81 | the same path twice in a row is handled at most once |
| NavigationTracker.DebounceWindow | src/components/NavigationTracker.tsx:34-41 | two navigations within the window record activity at most once |
| BumpVersion.Bump | scripts/bump-version.ts:22-35 | major resets minor and patch, minor resets patch, patch adds one to the patch |
| BumpVersion.BumpIncreases | scripts/bump-version.ts:22-35 | every release type gives a strictly greater version |
| BumpVersion.ParseVersion | scripts/bump-version.ts:16 | the well-formed reading: a version reads iff it has exactly three dot-separated runs of digits |
| BumpVersion.VersionStringShape | scripts/bump-version.ts:37 | the version text is the three numbers with a dot between each |
| BumpVersion.NumberOf | scripts/bump-version.ts:16 | `Number` on a part: the empty text reads 0, a run of digits its value, anything else `NaN` |
| BumpVersion.ReadParts | scripts/bump-version.ts:16 | the destructured parts: the major part is always read; minor and patch are `undefined` exactly when the version has fewer than one or two dots; a well-formed version reads as its numbers |
| BumpVersion.ReadPartsIgnoresRest | scripts/bump-version.ts:16 | a well-formed version followed by more dot-separated text reads as that version |
| BumpVersion.Inc | scripts/bump-version.ts:24-33 | `+= 1` raises a number by one and turns `NaN` and `undefined` into `NaN` |
| BumpVersion.PartString | scripts/bump-version.ts:37 | a number is written in decimal, `NaN` as "NaN", `undefined` as "undefined" |
| BumpVersion.BumpParts | scripts/bump-version.ts:18-35 | the switch on the parts as read: each named type changes its part and resets the lower ones, any other text changes nothing |
| BumpVersion.BumpPartsLifts | scripts/bump-version.ts:18-35 | on a well-formed version the switch on parts is the version bump |
| BumpVersion.PartsStringOfLift | scripts/bump-version.ts:37 | the parts of a version are written as its version text |
| BumpVersion.ParseVersionString | scripts/bump-version.ts:16-37 | writing a version and reading it back gives the same version |
| BumpVersion.VersionStringInjective | scripts/bump-version.ts:37 | distinct versions are written differently |
| BumpVersion.UpdateExampleDependency | scripts/bump-version.ts:48-50 | a present, non-empty dependency becomes "^" plus the new version with every other entry kept; otherwise nothing changes |
| BumpVersion.UpdateExampleDependencyIdempotent | scripts/bump-version.ts:48-50 | rewriting twice for the same version is rewriting once |
| BumpVersion.BumpVersion | scripts/bump-version.ts:9-60 | the example dependency points at the new text; an unknown release type writes the parts back as read; for a well-formed version and a named type the new text reads back as the bumped version and is strictly greater |
| BumpVersion.ExtraPartsIgnored | scripts/bump-version.ts:16-37 | "1.2.3.4" patch-bumps to "1.2.4" |
| BumpVersion.EmptyPartReadsZero | scripts/bump-version.ts:16-37 | "1..3" patch-bumps to "1.0.4" |
| BumpVersion.NaNPatchBumped | scripts/bump-version.ts:16-37 | a patch part that is not digits is reset to 0 by a minor bump and written "NaN" by a patch bump |
| BumpVersion.MissingPartBumped | scripts/bump-version.ts:16-37 | "1.2" patch-bumps to "1.2.NaN", and with an unknown type is written "1.2.undefined" |
| BumpVersion.MistypedReleaseTypeKeepsVersion | scripts/bump-version.ts:62 | as written, a mistyped release type writes a well-formed version back unchanged |
| BumpVersion.ParseReleaseType | scripts/bump-version.ts:62 | the repaired reading: patch when absent or empty, the three names accepted, anything else refused |
| BumpVersion.AcceptedReleaseTypeIncreases | scripts/bump-version.ts:18-62 | every accepted release type gives a strictly greater version, and the script writes exactly that version |
| DebugStore.MergeStats | src/stores/heartbeatDebugStore.ts:56 | supplied stats replace, every other stat keeps its value |
| DebugStore.MergeStatsLaws | src/stores/heartbeatDebugStore.ts:56 | the empty patch changes nothing and a patch applied twice acts once |
| DebugStore.UpdateStats | src/stores/heartbeatDebugStore.ts:55-58 | stats merged, scroll flag and listeners kept, every listener notified |
| DebugStore.UpdateScrollState | src/stores/heartbeatDebugStore.ts:60-63 | only the scroll flag changes; every listener notified |
| DebugStore.ResetStats | src/stores/heartbeatDebugStore.ts:66-78 | the default stats return, the scroll flag is kept, every listener notified |
| DebugStore.ResetStatsIdempotent | src/stores/heartbeatDebugStore.ts:66-78 | resetting twice is resetting once, and a reset undoes any stats update |
| DebugStore.UpdateDebugData | src/stores/heartbeatDebugStore.ts:81-89 | stats merged only when given, scroll flag set only when given, every listener notified even when nothing was given |
| DebugStore.UpdateDebugDataSpecialises | src/stores/heartbeatDebugStore.ts:81-89 | with one part given it is the dedicated action; with none it only notifies |
| DebugStore.Subscribe | src/stores/heartbeatDebugStore.ts:44-45 | the listener joins with set semantics; the data is untouched |
| DebugStore.Unsubscribe | src/stores/heartbeatDebugStore.ts:46 | exactly that listener leaves, reporting whether it was there |
| DebugStore.SubscribeRoundTrip | src/stores/heartbeatDebugStore.ts:44-47 | unsubscribing a fresh subscription restores the store and touches no other listener |
| DebugStore.GetData | src/stores/heartbeatDebugStore.ts:50-52 | the snapshot carries the current stats and scroll flag |
| DebugStore.GetDataReadsBack | src/stores/heartbeatDebugStore.ts:50-78 | the snapshot reads back what updates wrote, the defaults after a reset, and is unchanged by a subscription |

## Left out

- Native bridges and the Parse.ly SDK: `init`, `getHeartbeatStatus`, `isCurrentlyScrolling`, `stopEngagement` and the native side of `trackPageView`/`startEngagement` are foreign calls. The model gives the options handed to them, or a flag that the call was made.
- The wrapper's `recordActivity` (src/ExpoParselyModule.ts:157-161) is an empty placeholder. The touch boundary's recorded activity therefore reaches nothing in this code. The model reports it as an output of each step.
- React rendering, contexts, effect scheduling, `useState` batching, callback identity and Reanimated's `runOnUI` thread hop: every update is applied synchronously, with one `now` per operation.
- Async: `startHeartbeat`/`stopHeartbeat` await the bridge inside try/catch. A rejected bridge call (which skips the state update) is not modelled.
- `setTimeout` delay clamping and the host's rounding of a fractional delay (the model keeps the due instant as a real number of milliseconds), microtask ordering of `onHeartbeat`, and the callback itself: the value passed to the callback is an output. The flag `hasOnHeartbeat` stands for whether one is set.
- HeartbeatDebug.DebugStats: it takes the resolved status as an input. When the native side would resolve it, and what it would hold, are foreign. The one-second poll's timing is not modelled. The hook's `resetStats` (lines 51-54) only logs.
- The hook's 100 ms scroll-state polling, its debug logging, and the colour-coded debug logger.
- Effect cleanups of the heartbeat hook (src/hooks/useReanimatedHeartbeat.ts:296-307): they run on unmount and on every change of a configuration input. The change case is `PropsChange`, and unmount is its stop. Whether a callback prop is a new function is an input of `PropsChange`, since function identity is not modelled. A check scheduled before a configuration change keeps the closure of its own render, but the model runs every pending check with the current configuration.
- HeartbeatConfig.Config: the configured seconds are real numbers, so `NaN`, `Infinity` and floating-point rounding of `seconds * 1000` are not modelled.
- Touch coordinates are integers; JavaScript page coordinates are floating point.
- Several boundary instances share the module flag; one instance is modelled.
- Keys explicitly set to `undefined` in a partial record are treated like missing keys. Inherited object keys such as `constructor` in the per-name counts are not modelled.
- `getElementPosition`'s bounding rectangle is not modelled; it is a constant placeholder in the source.
- The search params and timestamp of the navigation screen context; the custom screen-name formatter is represented by the name it returns.
- src/hooks/useHeartbeat.ts, src/hooks/useTrackingHierarchy.ts and src/hooks/useElementTracking.ts are not part of this model. They call native methods that the wrapper does not declare, or are driven entirely by effects and timers.
- bump-version I/O, JSON parsing, logging and the process exit. A version that is not a string (which makes `split` throw) is not modelled.
- BumpVersion.NumberOf: reads as `NaN` a part that `Number` would read through surrounding whitespace, a sign, a `0x`/`0o`/`0b` prefix, an exponent or `Infinity` (for example " 1" is 1 in the script); values above 2^53 are exact here, while `Number` rounds them.
- Text: a Dafny string is a sequence of Unicode scalar values, while JavaScript slices and splits UTF-16 code units. The two differ only for a path whose first character lies outside the Basic Multilingual Plane, where `pathname.slice(1)` would keep half of it.
- HeartbeatManager.EngagedIncrement: the contract pins the value only for gaps in (-2^31, 2^31) seconds. Beyond that the wrap-around of `| 0` is written out in the body but not restated.
- ReanimatedHeartbeat.StartHeartbeat: its heartbeat postcondition assumes a non-negative activity timeout, since a negative timeout makes even the immediate check idle.
- NavigationTracking.FormatScreenName: its contract states only the root case. The other paths are stated by `ScreenNameWords` and `FormatSegment`.

## Findings

| source | as written | input that shows it | evidently intended | confidence | as-written member | corrected member |
|---|---|---|---|---|---|---|
| src/hooks/useReanimatedHeartbeat.ts:228-244 | `startHeartbeat` restamps the session start and activity but not the last-heartbeat time, then runs a check at once | start at 0, background at 1 s, foreground at 3601 s: the first heartbeat after foregrounding reports 3601 engaged seconds | the backgrounded time is not counted; the first heartbeat of a start reports 0 s | not executed | ReanimatedHeartbeat.RestartCountsBackgroundTime | ReanimatedHeartbeat.StartHeartbeatFixed |
| src/hooks/useReanimatedHeartbeat.ts:200 | each check stores its timer in the one handle without clearing a pending one, and `startHeartbeat` schedules a check without looking at the handle | `startHeartbeat` twice, then `stopHeartbeat`: one check is still scheduled and, with video playing, counts a heartbeat for the stopped session and keeps looping | a start clears the held check first, so a single check loop exists | not executed | ReanimatedHeartbeat.DoubleStartOrphansCheck | ReanimatedHeartbeat.FixedStartKeepsSingleCheck |
| src/hooks/useNavigationTracking.tsx:82 | `trackPageView(url, undefined, metadata)`; the wrapper takes two parameters (src/ExpoParselyModule.ts:80-83), so the metadata is ignored | any navigation with no common parameters stored: the page view's metadata is empty and carries no title | `trackPageView(url, { metadata })` | not executed | NavigationTracking.NavigationMetadataDropped | NavigationTracking.PageViewIntended |
| scripts/bump-version.ts:62 | any non-empty argument is taken as the release type, and the `switch` has no default | argument "majr": the version is written back unchanged | refuse anything but major, minor and patch | not executed | BumpVersion.MistypedReleaseTypeKeepsVersion | BumpVersion.AcceptedReleaseTypeIncreases |
| src/components/HeartbeatTouchBoundary.tsx:8-9 | `export const isCurrentlyScrolling = isGloballyScrolling` copies the value once, at module load | a vertical drag of 20 px: the module flag is up and the export still reads false | export a getter that reads the live flag | not executed | TouchBoundary.ExportedFlagGoesStale | TouchBoundary.CurrentlyScrollingFollowsGesture |
| src/hooks/useHeartbeatDebug.ts:31-32 | each poll stores what the `async` `getHeartbeatStatus()` returns, without awaiting it | native activity one second before any poll: the flag reads `undefined > 0` (false), the label `!undefined` ("Never"), and the counters are `undefined` | `setStatus(await ExpoParsely.getHeartbeatStatus())`, so the stats show the resolved status | not executed | HeartbeatDebug.PolledStatsShowNoActivity | HeartbeatDebug.DebugStats |
