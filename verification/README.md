# service-router: verified model

A Dafny model of the logic of service-router, an HTTP gateway written in Rust:
how it picks a rule for a request, where it sends the request, how it protects
upstreams, how it reloads and compares configurations, and what it counts.
`dafny verify dfyconfig.toml` checks everything.

Code that updates state is modelled as methods and classes (a breaker, a health
table, counters, a configuration slot) and proved against specification
functions; the laws are lemmas about those functions and about every reachable
state of those classes. Code that only computes is modelled as functions.

| module | models |
|---|---|
| `StableOrder` | `sort_by_key`, which the router, the strict checks and the registry resolver share |
| `ConfigModel`, `Matcher`, `Router` | rules, local overrides, matching, snapshots, first-match resolution |
| `StrictCheck` | the RULE_SHADOWED findings |
| `RouteExplain` | `route-explain` and its remediation outline |
| `Json`, `JsonDiff`, `ConfigDiff` | the structural and the route-level configuration diff |
| `EnvResolver`, `EnvExactness` | `${NAME}` expansion, and exactly where it is the intended substitution |
| `HotReload` | watcher, polling task and router slot as a step system |
| `CircuitBreaker`, `ProxyRetry` | the breaker, the retry loop and their composition |
| `HealthChecker`, `InstanceSelection` | probe hysteresis, instance choice and weighted rotation |
| `Instances`, `RegistryResolver`, `K8sFlatten` | discovery: priority and merge, Kubernetes flattening |
| `Metrics`, `Prometheus`, `ProxyHandler` | counters, their text rendering, the request handler as a step |
| `Text`, `Seqs`, `Machine`, `Errors`, `Wrappers` | string operations, fixed-width arithmetic, error types |

## Where the code and its documentation differ

The model follows the code. Each point is a lemma below.

- The circuit breaker's comment promises one probe after the recovery time. The
  code admits every caller until a failure is recorded (`AllowLeavesNoMark`).
- The breaker counts in 32 bits that wrap around. `RefusesAsDocumentedExactly` says
  for which histories it refuses all that it should (`CounterWrapCloses` the rest),
  and `ExactlyCeilingCallsAdmitted` for which thresholds and retries the documented
  number of failing calls gets through.
- RULE_SHADOWED is documented as "fully covers". The header test looks for the
  right rule's headers in the left rule. Soundness needs the opposite inclusion.
  `ShadowingExact` gives the exact condition for every pair that passes the method
  and path tests, reported or not; from it follow when a report is false
  (`ReportIsFalseExactly`, example `FalseShadowFinding`) and when a shadow is
  missed (`ShadowIsMissedExactly`, example `MissedShadow`).
- Placeholder expansion replaces text it has just inserted. Two conditions decide
  when it is the documented substitution all the same. On templates: a stray dollar
  sign may stand anywhere, such as at the end of a regex, but not directly before a
  placeholder that is followed by another one or whose name occurs before
  (`TemplateExpandsExactly`, for environments without dollar signs). On
  environments: no value may begin the placeholder of another variable
  (`ExpansionExactlyWhenSafe`, for such templates).
- A diff that reports no difference ignores the schema version, the order of
  routes and all but the last route of an id (`DiffAppConfigs`). If one side lists
  no id twice, equal routing needs exactly two things more: that the other side
  does not either, and that routes of equal priority keep their order
  (`IdenticalMeansSameRouting`; `HiddenDuplicateLooksIdentical` and
  `SwappedTiesLookIdentical` are examples). `SnapshotsEqualExactly` is the condition
  for any two configurations.
- The rotation of weighted instances jumps when its 64-bit counter wraps around. It
  is fair in every window if and only if there is one instance or the total weight
  divides 2^64 (`FairEverywhereExactly`).
- `route-explain` and the router differ on an empty expected value against an
  unreadable header (`HeadersAgreeExactly`) and on rule methods that have only a
  non-ASCII spelling (`MethodsAgreeExactly`, `LongSDisagrees`).
- The polling task recognises a new configuration by its address. An allocator
  that reuses an address can hide a reload (`ReusedAddressIsMissed`);
  `PollSeesReloadExactly` says at which polls it does.
- Local overrides are applied once, at the start. The first reload that takes
  effect drops them (`ReloadDropsOverrides`).

## Model

| member | source | states |
|---|---|---|
| `StableOrder.SortedIndicesStable` | src/routing/router.rs:28-29 | the sort lists every position once, by key, ties by position |
| `StableOrder.StableOrderUnique` | src/config/strict_check.rs:145-149 | any two stable sorts of the same keys agree, so the checks see the router's order |
| `ConfigModel.FindById` | src/config/model.rs:37 | the first route of an id, or none |
| `ConfigModel.AppConfig.ApplyLocalOverrides` | src/config/model.rs:35-43 | the routes become the fold of all entries, nothing else changes |
| `ConfigModel.OverridesAreLastWins` | src/config/model.rs:33-43 | only the first route of an id is retargeted: its URL becomes that of the last entry for the id and its service is dropped; every other field and route is unchanged |
| `Matcher.CompileKeeps` | src/routing/matcher.rs:43-85 | a compiled rule keeps id, priority, methods, headers, service, URL and prefix, and its path accepts what the exact, prefix, glob or regex pattern means |
| `Matcher.CompileFailsExactly` | src/routing/matcher.rs:31-85 | a rule fails to compile exactly when its glob, regex or response headers are invalid, a bad pattern being reported first |
| `Router.CompileAll` | src/routing/router.rs:22-26 | success yields exactly the compiled routes, in order |
| `Router.FirstErrorStays` | src/routing/router.rs:22-26 | compilation stops at the first error, whatever follows |
| `Router.CompilationFailsExactly` | src/routing/router.rs:21-32 | a configuration fails to compile exactly when some rule does, with the error of the first |
| `Router.FromConfig` | src/routing/router.rs:21-32 | the loop and sort build the specified snapshot or return the first error |
| `Router.SnapshotsEqualExactly` | src/routing/router.rs:21-32 | any two configurations have equal snapshots if and only if at each priority they declare the same compiled rules in the same order |
| `Router.FirstMatch` | src/routing/router.rs:44-50 | the position is the first whose rule matches |
| `Router.Resolve` | src/routing/router.rs:38-51 | the loop returns the first matching rule of the snapshot, or none |
| `Router.SnapshotRule` | src/routing/matcher.rs:45-85 | a compiled rule admits exactly the requests its source rule admits |
| `Router.SnapshotKeeps` | src/routing/router.rs:21-32 | the k-th rule of the snapshot is the k-th route by evaluation order in all fields that matter to matching and forwarding |
| `Router.ResolveIsLeast` | src/routing/router.rs:34-51 | the result is the admitting rule with the least (priority, declared position), or none if no rule admits the request |
| `Router.WinnerUnique` | src/routing/router.rs:34-51 | there is only one such rule |
| `Router.OverridesKeepWinner` | src/config/model.rs:33-43 | overrides never change which declared rule wins a request |
| `Router.OverriddenResolution` | src/config/model.rs:33-43 | the overridden router sends each request to the same rule, retargeted to the last override of its id |
| `StrictCheck.RunShadowChecks` | src/config/strict_check.rs:81-104 | the nested loop emits one finding per shadow pair, in order, naming the covering and the shadowed rule |
| `StrictCheck.ShadowPairsExact` | src/config/strict_check.rs:81-90 | a pair is reported if and only if the left rule is evaluated first and passes the coded coverage tests |
| `StrictCheck.ShadowPairsDistinct` | src/config/strict_check.rs:81-104 | no pair is reported twice |
| `StrictCheck.PathCoverSound` | src/config/strict_check.rs:155-166 | a covered path matcher accepts no path the covering one rejects |
| `StrictCheck.MethodCoverSound` | src/config/strict_check.rs:168-176 | ASCII-case coverage of methods is sound for the router's Unicode upper-case comparison |
| `StrictCheck.MethodTestExact` | src/config/strict_check.rs:168-176 | on ASCII methods the coverage test accepts exactly the pairs where each method that meets the right rule meets the left one |
| `StrictCheck.HeaderTestMeans` | src/config/strict_check.rs:178-187 | the header test passes exactly when there are no left headers, or whatever meets the left ones meets the right ones |
| `StrictCheck.ServableExactly` | src/routing/matcher.rs:98-123 | a rule with a literal path matches some request if and only if its method list is not empty and its header demands have valid names and printable values and do not conflict |
| `StrictCheck.ShadowingExact` | src/config/strict_check.rs:155-187 | every pair that passes the method and path tests, reported or not, is truly shadowed if and only if the left headers are demanded by the right rule, or the right rule matches nothing |
| `StrictCheck.ReportIsFalseExactly` | src/config/strict_check.rs:92-101 | a report is false exactly when the right rule can match and some left header is not demanded by it |
| `StrictCheck.ShadowIsMissedExactly` | src/config/strict_check.rs:178-187 | a shadow goes unreported exactly when the headers shadow and the right rule has a header that the left lacks |
| `StrictCheck.ShadowIsReported` | src/config/strict_check.rs:81-104 | with literal paths and ASCII methods a shadowed servable rule is reported if and only if the header test passes |
| `StrictCheck.DominationExact` | src/config/strict_check.rs:151-187 | for literal paths, one rule admits all the other admits if and only if the other matches nothing or its path, methods (in Unicode upper case) and headers are all covered |
| `StrictCheck.DropHeader` | src/config/strict_check.rs:185 | otherwise dropping one header gives a request that only the right rule admits |
| `StrictCheck.ShadowedNeverResolved` | src/config/strict_check.rs:92-101 | with no left headers, equal headers or implied headers the router never resolves a request to the reported rule |
| `StrictCheck.FalseShadowFinding` | src/config/strict_check.rs:185 | a reported rule that wins a request |
| `StrictCheck.MissedShadow` | src/config/strict_check.rs:185 | an unreachable rule that is not reported |
| `RouteExplain.ExplainRuleMismatch` | src/main.rs:1662-1779 | the three flags, the list of reasons (path, method, then each failing header once), each with its suggestion, and no reason if and only if all flags hold |
| `RouteExplain.CodesExplain` | src/main.rs:1662-1779 | which failure leads to which suggestion code: path, method, invalid header name, unreadable or absent header, other value |
| `RouteExplain.ExplainIsSound` | src/main.rs:1662-1779 | whatever explain accepts the router matches, for every rule and request |
| `RouteExplain.HeadersAgreeExactly` | src/main.rs:1724-1776 | the header tests differ exactly when an empty value is demanded of an unreadable header |
| `RouteExplain.MethodsAgreeExactly` | src/main.rs:1689-1693 | the method tests agree on all ASCII methods if and only if each rule method with an ASCII upper-case form has an ASCII spelling in the rule |
| `RouteExplain.ExplainAgrees` | src/routing/matcher.rs:88-126 | under these conditions all flags hold if and only if the rule matches |
| `RouteExplain.LongSDisagrees` | src/routing/matcher.rs:100-105 | a rule method that the router and explain judge differently |
| `RouteExplain.MergeRemediationOutline` | src/main.rs:1593-1611 | the outline is the ordered subsequence of first suggestions of each code, and no code is lost |
| `RouteExplain.OutlineCodesDistinct` | src/main.rs:1592-1611 | each code occurs once |
| `RouteExplain.ExplainUnmatched` | src/main.rs:1500-1515 | if nothing resolves, every inspected rule is given a reason; five rules are inspected, all of them when verbose |
| `JsonDiff.DiffJsonLeaf` | src/config/diff.rs:113-161 | the changes are exactly the outermost differences of the two trees, each once, with path, kind and both sides |
| `JsonDiff.DiffFields` | src/config/diff.rs:118-143 | the loop over the key union covers all differences below the two objects |
| `JsonDiff.KindsTellSides` | src/config/diff.rs:126-141 | a change is added exactly when the place is missing on the left, removed when on the right; both sides are reported and differ |
| `JsonDiff.PutRemovesDifference` | src/config/diff.rs:113-161 | applying one change removes that difference and no other |
| `JsonDiff.ChangesArePatch` | src/config/diff.rs:113-161 | applying the reported changes to the left tree, in whatever order they are reported, yields the right tree |
| `JsonDiff.EmptyDiffIffEqual` | src/config/diff.rs:114-116 | nothing is reported if and only if the trees are equal |
| `JsonDiff.DifferenceExists` | src/config/diff.rs:113-161 | different trees have an outermost difference |
| `JsonDiff.SwapMirrorsDiff` | src/config/diff.rs:126-141 | swapping the arguments swaps added with removed and left with right |
| `JsonDiff.SwappedIsUndo` | src/config/diff.rs:113-161 | the swapped changes are a report of the swapped trees and lead back to the left tree |
| `JsonDiff.PlacesAreApart` | src/config/diff.rs:113-161 | no changed place is a prefix of another |
| `JsonDiff.PrintedPathsAreApart` | src/config/diff.rs:121-125 | nor is its printed path, for keys without dots |
| `JsonDiff.DotsCollide` | src/config/diff.rs:121-125 | for every key with a dot there are two trees whose report prints one path twice |
| `ConfigDiff.RuleJsonInjective` | src/config/diff.rs:100-102 | comparing rules as JSON compares the rules |
| `ConfigDiff.RuleRoundTrip` | src/config/diff.rs:100-101 | a rule can be read back from the JSON that is reported |
| `ConfigDiff.DiffRoutesById` | src/config/diff.rs:72-111 | one change for each id whose last routes differ: added if it is missing on the left, removed if on the right, with both sides readable; removed before added before modified; none if and only if the id maps are equal |
| `ConfigDiff.DiffAppConfigs` | src/config/diff.rs:29-70 | the report joins the four parts and is identical if and only if all compared settings agree |
| `ConfigDiff.IdenticalMeansSameRouting` | src/config/diff.rs:62 | with unique ids on one side, no route difference means equal router snapshots if and only if the other side has unique ids too and equal-priority routes keep their order |
| `ConfigDiff.SwappedTiesLookIdentical` | src/config/diff.rs:77-81 | two routes that trade places look identical and win each other's requests |
| `ConfigDiff.HiddenDuplicateLooksIdentical` | src/config/diff.rs:77-78 | a removed winner behind a duplicate id looks identical |
| `EnvResolver.MatchHead` | src/config/env_resolver.rs:5-6 | a match is a whole placeholder with a non-empty name without closing brace |
| `EnvResolver.ResolveEnvVars` | src/config/env_resolver.rs:13-23 | the loop computes the specified fold, or the error that names the first captured name that is unset |
| `EnvResolver.FirstUnsetIsFirst` | src/config/env_resolver.rs:15-19 | the call fails exactly when a captured name is unset and names the first one |
| `EnvResolver.ReplaceIsExpand` | src/config/env_resolver.rs:20 | one whole-text replacement is one more name substituted in a pass over the template |
| `EnvResolver.LiteralStays` | src/config/env_resolver.rs:6 | a literal dollar sign never begins a placeholder, whatever is substituted after it, unless a placeholder stands directly after it |
| `EnvResolver.SafeEnvIsSimultaneous` | src/config/env_resolver.rs:8-23 | in a safe environment the loop is the simultaneous substitution, errors included, on all expandable templates |
| `EnvResolver.DollarFreeExpansion` | src/config/env_resolver.rs:8-23 | without dollar signs in the environment the two agree on all expandable templates |
| `EnvExactness.TemplateExpandsExactly` | src/config/env_resolver.rs:8-23 | a template is expandable if and only if the two agree on it in all environments without dollar signs |
| `EnvExactness.StrayDollarBreaks` | src/config/env_resolver.rs:20 | every stray dollar sign directly before a placeholder that is not the last has an environment in which the code expands text it inserted |
| `EnvExactness.ExpansionExactlyWhenSafe` | src/config/env_resolver.rs:8-23 | an environment is safe if and only if the two agree on all expandable templates over plain names |
| `EnvExactness.NothingLeftExactly` | src/config/env_resolver.rs:25-27 | in environments without dollar signs no placeholder is left if and only if no stray dollar sign stands directly before one |
| `HotReload.Reloader.HandleEvent` | src/config/watcher.rs:40-63 | a relevant event with a loadable file stores it in the slot; everything else changes nothing |
| `HotReload.Reloader.RebuildRouter` | src/routing/router.rs:58-65 | the router is swapped on success and kept on error |
| `HotReload.Reloader.PollOnce` | src/main.rs:218-231 | one turn of the polling loop is the specified step |
| `HotReload.RouterFollowsConfig` | src/main.rs:213-232 | over every run the slot holds the newest stored configuration and the router is the compilation of the latest polled one that compiles |
| `HotReload.SourceIsLatestGood` | src/main.rs:220-228 | that configuration is the newest compiling one that some poll found |
| `HotReload.SourceMonotone` | src/main.rs:213-232 | the router never goes back to an older configuration |
| `HotReload.SettledAfterPoll` | src/main.rs:220-228 | after a poll without a later reload the router is the current configuration if it compiles, else what it was |
| `HotReload.FreshIsDistinguishable` | src/main.rs:217-222 | addresses that are never reused make the comparison reliable |
| `HotReload.PollSeesReloadExactly` | src/main.rs:220-228 | a poll after sound ones leaves the router right if and only if the address changed, or the configuration does not compile, or it compiles to the router in place |
| `HotReload.ReloadedRouterIsLoaded` | src/config/watcher.rs:54-57 | once a reload took effect the router is the compilation of what a load returned |
| `HotReload.ReloadDropsOverrides` | src/main.rs:154 | after reloading the same file each request goes to the same rule, with that rule's own target instead of the override |
| `HotReload.ReusedAddressIsMissed` | src/main.rs:217-222 | a reused address leaves the old router in place |
| `CircuitBreaker.CircuitBreakerMap.Allow` | src/server/circuit_breaker.rs:45-62 | the verdict is a function of the upstream's own history, which grows by the question; the table keeps reflecting the history |
| `CircuitBreaker.CircuitBreakerMap.RecordSuccess` | src/server/circuit_breaker.rs:65-73 | the table reflects the history with the success appended |
| `CircuitBreaker.CircuitBreakerMap.RecordFailure` | src/server/circuit_breaker.rs:76-92 | the table reflects the history with the failure appended, with 32-bit wrap-around |
| `CircuitBreaker.EntryIsHistory` | src/server/circuit_breaker.rs:45-92 | after any interleaving an entry is the number of failures since the last success as 32 bits, and the time of the latest that left it at the threshold or above |
| `CircuitBreaker.RefusesExactly` | src/server/circuit_breaker.rs:45-62 | it refuses if and only if the 32-bit count of those failures reaches the non-zero threshold and `now` is before the latest plus the recovery time |
| `CircuitBreaker.RefusesAsDocumentedExactly` | src/server/circuit_breaker.rs:10-18 | it refuses what it is documented to refuse, at all times, if and only if the breaker is off, too few failures were recorded, or their count has not wrapped to below the threshold |
| `CircuitBreaker.AllowLeavesNoMark` | src/server/circuit_breaker.rs:14-17 | asking never changes a later verdict, so all callers are probes |
| `CircuitBreaker.CounterWrapCloses` | src/server/circuit_breaker.rs:86 | a count that wrapped to below the threshold admits everything, even in the second of the latest failure |
| `ProxyRetry.ProxyWithRetry` | src/server/handlers.rs:244-322 | what is returned and what is reported to the breaker, for every list of attempt outcomes; the last error always exists |
| `ProxyRetry.FailedCall` | src/server/handlers.rs:279-321 | a call whose attempts all fail returns the last error and adds one failure per attempt |
| `ProxyRetry.AnsweredCall` | src/server/handlers.rs:302-305 | a call that returns a response leaves no failures |
| `ProxyRetry.AdmittedAfterCalls` | src/server/handlers.rs:244-322 | from a closed breaker, after failing calls the next is admitted if and only if their failures as a 32-bit count are below the threshold or the recovery time is over |
| `ProxyRetry.ExactlyCeilingCallsAdmitted` | src/server/handlers.rs:244-322 | exactly ceil(T / (r + 1)) failing calls get through within the recovery time, however many are made, if and only if their failures fit into 32 bits |
| `ProxyRetry.CallUntilRefused` | src/server/circuit_breaker.rs:45-92 | asking and calling the live breaker until it refuses lets exactly that many failing calls through, each with its last error and r + 1 recorded failures |
| `HealthChecker.HealthStatus.RecordSuccess` | src/server/health_checker.rs:38-48 | the three maps reflect each key's history with the success appended |
| `HealthChecker.HealthStatus.RecordFailure` | src/server/health_checker.rs:50-62 | the three maps reflect each key's history with the failure appended |
| `HealthChecker.CountersExclusive` | src/server/health_checker.rs:38-62 | no key is in both counter maps |
| `HealthChecker.HysteresisIsHistory` | src/server/health_checker.rs:34-62 | unhealthy if and only if a block of enough failures is followed by no block of enough successes; 0 acts as 1 and counter overflow does not matter |
| `HealthChecker.HealthIsHistory` | src/server/health_checker.rs:34-36 | the reported health of a key in any reachable state, independent of other keys |
| `InstanceSelection.Selector.FetchAdd` | src/server/handlers.rs:340-343 | the counter of one service steps with 64-bit wrap-around |
| `InstanceSelection.WeightMeans` | src/server/handlers.rs:408-417 | the weight is 1 without a metadata entry or with one that is no 64-bit number, else that number but at least 1 |
| `InstanceSelection.Selector.WeightedRoundRobinPick` | src/server/handlers.rs:402-431 | the scan picks the first position whose running sum, in 64 bits, exceeds the counter's remainder and never falls through |
| `InstanceSelection.ScanFindsOwner` | src/server/handlers.rs:420-431 | unless the sum of the weights overflows, that is the position whose share of the cycle holds the remainder |
| `InstanceSelection.WeightedIndex` | src/server/handlers.rs:360-366 | the loop over the running sums finds the position of the specified scan |
| `InstanceSelection.Selector.PickHealthyIndex` | src/server/handlers.rs:336-370 | the branch for partly healthy services is the simple picker on the healthy instances |
| `InstanceSelection.HealthyPosition` | src/server/handlers.rs:332-335 | the healthy instances keep the given order: the j-th has j healthy ones before it |
| `InstanceSelection.Selector.SelectServiceInstance` | src/server/handlers.rs:324-389 | both branches are one strategy on one pool, and only that service's counter steps |
| `InstanceSelection.ChosenPosition` | src/server/handlers.rs:324-389 | which position of the given list each strategy chooses, counted among the healthy instances or, if there is none, among all |
| `InstanceSelection.UnhealthyOnlyAsLastResort` | src/server/handlers.rs:332-336 | an unhealthy instance is chosen only if all are unhealthy |
| `InstanceSelection.HitsOneCycle` | src/server/handlers.rs:400-431 | any window of one cycle picks each instance exactly its weight |
| `InstanceSelection.WeightedRoundRobinIsFair` | src/server/handlers.rs:400-431 | over k * T + rest calls an instance of weight w is picked between k * w and k * w + min(w, rest) times |
| `InstanceSelection.FairEverywhereExactly` | src/server/handlers.rs:400-431 | every window of calls is fair to every position, wherever the counter stands, if and only if there is one position or the total weight divides 2^64 |
| `InstanceSelection.PickInTurn` | src/server/handlers.rs:324-389 | over any sequence of selections, a weighted service's own ones pick each healthy position its fair share, whatever is selected for other services in between |
| `Instances.DedupKeepsFirst` | src/registry/resolver.rs:103-115 | deduplication is the ordered subsequence of first occurrences |
| `Instances.FirstPositionsExact` | src/registry/resolver.rs:107-116 | a position is kept exactly when no earlier one has its host and port |
| `Instances.DedupDistinct` | src/registry/resolver.rs:103-115 | no endpoint is kept twice |
| `RegistryResolver.MultiRegistryResolver.ResolvePriority` | src/registry/resolver.rs:51-84 | the first non-empty answer, or the combined error |
| `RegistryResolver.MultiRegistryResolver.ResolveMerge` | src/registry/resolver.rs:87-128 | the deduplicated concatenation of all answers, or the combined error |
| `RegistryResolver.MultiRegistryResolver.Resolve` | src/registry/resolver.rs:28-33 | dispatch on the query mode |
| `RegistryResolver.MergeExtendsPriority` | src/registry/resolver.rs:51-128 | both modes fail together with the same error, never return an empty list, and the merged list starts with the priority result |
| `RegistryResolver.MergedFromEarliest` | src/registry/resolver.rs:107-116 | on a conflict the instance of the registry asked first is kept |
| `RegistryResolver.MergedCoversAll` | src/registry/resolver.rs:103-116 | no answered endpoint is lost |
| `RegistryResolver.AskedInStableOrder` | src/registry/resolver.rs:18-21 | registries are asked by ascending priority number, ties as configured |
| `K8sFlatten.FromServicePorts` | src/registry/k8s.rs:440-481 | the filter holds exactly the 16-bit numbers and non-empty names of the proxied service ports, and a port passes if and only if none restricts or some restricting one has its number or name |
| `K8sFlatten.ExcludedExactly` | src/registry/k8s.rs:484-489 | exactly UDP and SCTP are excluded, in any mixture of cases |
| `K8sFlatten.EndpointsToInstances` | src/registry/k8s.rs:621-647 | the nested loops return the deduplicated passing pairs in document order |
| `K8sFlatten.EndpointSlicesToInstances` | src/registry/k8s.rs:584-619 | the same for slices, without endpoints that are not ready or not serving |
| `K8sFlatten.FlattenersAgree` | src/registry/k8s.rs:584-647 | subsets turned into slices of ready endpoints give the same sequence |
| `K8sFlatten.OutputExact` | src/registry/k8s.rs:584-619 | the output has no repeated endpoint and holds exactly those offered on a passing port |
| `K8sFlatten.SubsetOutputExact` | src/registry/k8s.rs:621-647 | the same of the first flattener, in the terms of its subsets |
| `Text.HostPortInjective` | src/registry/k8s.rs:606 | the formatted key identifies host and port, even for hosts with colons |
| `Text.FoldIsLetterwise` | src/routing/matcher.rs:100-105 | equality without ASCII case is letter by letter, up to the two cases of one letter |
| `Metrics.ProxyMetrics.RecordRouteHit` | src/server/metrics.rs:17-22 | the counter of the rule grows by one, the others stay |
| `Metrics.ProxyMetrics.RecordFailure` | src/server/metrics.rs:25-30 | the counter of the code grows by one, the others stay |
| `Metrics.CodesTellKinds` | src/server/metrics.rs:50-70 | the code of each kind of error; two errors share a code if and only if they are of the same kind |
| `Prometheus.EscapeIsOnePass` | src/server/metrics.rs:79-84 | the three sequential replacements are one per-character escape |
| `Prometheus.ReadInvertsEscape` | src/server/metrics.rs:79-84 | reading inverts escaping and stops at the closing quote (Prometheus text format 0.0.4, section "Text format details") |
| `Prometheus.EscapedHasNoNewline` | src/server/metrics.rs:79-84 | an escaped label holds no raw newline |
| `Prometheus.RenderPrometheus` | src/server/metrics.rs:87-117 | the output is the rendering of the snapshot with ascending keys |
| `Prometheus.RenderingShowsCounters` | src/server/metrics.rs:87-117 | every counter has its line, under the metric it belongs to, with its label and value |
| `Prometheus.AscendingMeans` | src/server/metrics.rs:91-106 | keys are rendered in lexicographic order |
| `Prometheus.RenderingDeterminesSnapshot` | src/server/metrics.rs:87-117 | two snapshots with the same text are equal |
| `Prometheus.RenderingIsDeterministic` | src/server/metrics.rs:91-106 | a snapshot has one text, whatever order its maps are walked in |
| `ProxyHandler.Gateway.FindUpstream` | src/server/handlers.rs:80-108 | the destination, one counted failure if there is none, and the step of the service's rotation |
| `ProxyHandler.Gateway.Contact` | src/server/handlers.rs:120-165 | the breaker is asked, the upstream contacted only if admitted, and an error counted once, under its own code or as an open breaker |
| `ProxyHandler.Gateway.Handle` | src/server/handlers.rs:30-180 | the reply and the counted code for every combination of outcomes, what the breaker is told, which rotation steps, and the counters as counts of the request log |
| `ProxyHandler.CountersConserve` | src/server/handlers.rs:72-78 | requests past the plugins are route hits plus unmatched ones; failure counters add up to the error replies not caused by plugins |
| `ProxyHandler.GatewayConserves` | src/server/metrics.rs:17-30 | the same of the live counters in every reachable state |

## Left out

- InstanceSelection.Selector.SelectServiceInstance: requires that the sum of the weights does not wrap around to 0, where the original divides by zero and panics.
- InstanceSelection.PickInTurn: speaks of pools whose weights add up to less than 2^64, and of a health table that stays the same.
- StrictCheck.ServableExactly: it and the theorems on shadowing range over all path and method texts that the matcher accepts, also those that no HTTP request carries; header values are those that a request can carry.
- ProxyHandler.Gateway.Handle: request headers, path rewriting, the request id and the choice of plugins are not modelled; plugins, forwarding and registry answers are inputs, and one request is one step.
- Metrics.ProxyMetrics.RecordRouteHit: counters are unbounded numbers, not 64-bit ones.
- RouteExplain.ExplainRuleMismatch: the wording of reasons and suggestions is reduced to what they are about.
- HotReload.RouterFollowsConfig: assumes that an unchanged address means an unchanged configuration; watcher events and load results are inputs, and the debounce and sleep times are not modelled.
- EnvResolver.SafeEnvIsSimultaneous: does not cover set variables whose name itself holds a dollar sign, which no shell can set; templates that capture such a name which is not set are covered.
- EnvExactness.ExpansionExactlyWhenSafe: speaks of the same templates.
- JsonDiff.DiffJsonLeaf: JSON numbers are opaque tokens, so two spellings of the same float count as different.
- Glob and regex engines, header-name parsing, Unicode case tables and the compilation of response headers are parameters.
- Integer overflow in builds with overflow checks, where health and breaker counters and sums of weights panic instead of wrapping.
- HTTP and WebSocket forwarding, the Nacos, Eureka and Kubernetes clients, TLS and kubeconfig loading: input and output.
- Random selection beyond an index in range: the index comes from a hash seed.
- Strict findings other than RULE_SHADOWED, path rewriting and configuration validation: they would only add easy members.
- Plugins, `doctor`, `init`, `replay`, configuration snapshots and report formatting.
