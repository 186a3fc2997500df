# Verified model of the sing-box decision and state logic

This project models, in Dafny, the parts of the proxy that decide things and
keep state, and proves what they guarantee over all inputs and all runs:

- the **start loop** that brings outbounds, endpoints and DNS transports up in
  dependency order, with its diagnosis of a stuck start (`StartOrder.dfy`), and
  the **outbound registry** around it (`OutboundManager.dfy`);
- the **DNS rule modes**: the static analysis of rule trees and the validator
  (`DnsRules.dfy`), the gate in front of rule-set updates (`DnsModeGate.dfy`),
  the interpreter of the new mode (`DnsInterpreter.dfy`) and the retrying
  interpreter of the legacy mode (`DnsLegacy.dfy`);
- the **DNS client**: the answer cache with heap messages and TTLs
  (`DnsCache.dfy`) and the per-key lock as an interleaving (`CacheLock.dfy`);
- the **daemon**: the service status as an interleaving (`ServiceStatus.dfy`)
  and the connection-event stream with the client that replays it
  (`ConnectionEvents.dfy`);
- the **route matcher** in full and pre-match mode (`RouteMatch.dfy`), and how
  a single rule is matched, with rule-sets and in the ways of both DNS modes
  (`RuleMatching.dfy`);
- the **rule-set file codec** (`SavedBinary.dfy`).

`Wrappers.dfy` holds the optional-value datatype they share.

Outcomes of single rule items, sniffing, DNS transports, starting and closing
of items and the clock are parameters: functions, flags or step outcomes about
which nothing is assumed. The interpreters take the match of a whole rule as a
parameter; `ModesAgree` puts the modelled matching in its place. A query to a
DNS server is answered by a function of the number of queries made before, the
transport and the options, so two equal queries may be answered differently.

## What the code does that one might not expect

Each of these is a concrete run or input, with the condition under which the
expected property does hold.

- A "dependency not found" report may name an endpoint that exists, because
  endpoints are started by the loop but are not in the tag map
  (`EndpointReportedMissing`). The loop reports from the first unstarted item,
  and does so wrongly if and only if the walk along first unstarted
  dependencies leads from that item to one that waits for a listed tag outside
  the map (`MisreportExactly`, `StartAll`); endpoints without dependencies are
  never misreported (`StartAll`).
- With no outbound configured, an endpoint tagged like the fallback outbound
  makes the start list ambiguous (`StartListDistinct`). Such a list never
  starts successfully, and when all its tags do start the loop panics: it looks
  for an unstarted item and there is none (`StartAll`).
- Removing an outbound that names a dependency twice can drop other dependents
  from the record, so a dependency that is still in use can be removed
  (`DoubledDependencyIsForgotten`); the exact condition is
  `RemoveKeepsRecord`, and without doubled names it never happens
  (`RunKeepsRecord`).
- Re-creating an outbound without a dependency it had, or a refused removal of
  one that depends on something, leaves a dependent on record that is gone, and
  removals are refused for it (`StaleRecordBlocksRemoval`); nothing else does
  (`RecordIsRealExactly`).
- Two rule-set updates that are checked before either is stored can leave a
  router of the new mode with rules that need the legacy mode (`NewModeRace`).
  An update that is checked before the router starts and stored after it can
  bring query types into a router of the legacy mode, which cannot run them
  (`StartRace`). A run is free of both when every update is checked by the
  started router and stored before another rule-set changes (`RunKeepsMode`).
  In the legacy mode it is free of them if and only if no update that read the
  flags before the mode was published and is stored after the build is harmful
  (`LegacySurvivesRaces`).
- A retry in the legacy mode starts over with the caller's options and can lose
  what route-options rules before the rejected rule had set
  (`RetryDropsEarlierOptions`); it loses nothing if and only if each option is
  as the caller set it or is set again behind the rejected rule
  (`RetryKeepsOptionsExactly`).
- The legacy mode leaves the addresses of a rule-set that is matched against
  the source aside and never checks them, because such a rule has no address
  limit (`SourceSetIgnored`); the exact conditions under which each mode takes
  such a rule are in `SourceSetDecides`. Rules without addresses are matched
  alike (`ModesMatchAlike`).
- The legacy mode passes over a rule that the response would match when its
  domains do not match but its addresses do, and an inverted rule when only its
  addresses fail; these are the only cases for rules without rule-sets
  (`PassedOverExactly`), and the first one, with the domains of the set's rules
  added, for rules with one (`SetPassedOverExactly`).
- A connection that closes between the two reads of the initial state is
  announced open and then closed, while the daemon still holds a snapshot of
  it; these stale connections are exactly the ids in both lists
  (`BuildInitialConnectionState`).
- Overlapping starts can report Started for an instance that has not started
  (`OverlappingStarts`), exactly when a start that succeeded finds the status
  Starting while the instance in place is one that has not started
  (`StartedIsRealExactly`).
- Overlapping reloads can lose an instance that nobody closes
  (`OverlappingReloadsLeak`), exactly when one puts its instance over another
  that is open and in nobody's hands (`NoLeakExactly`). Starts that do not
  overlap do neither (`SerialStartsAreSound`).

The comment on `applyDNSRouteOptions` in `dns/router.go` says that skipping the
strategy is harmless; `NewModeNeedsNoStrategy` proves it.

## Model

| member | source | states |
|---|---|---|
| `StartOrder.StartAll` | adapter/outbound/manager.go:96-166 | The start loop (the DNS transport manager has the same one) ends; no tag starts twice and every item starts after all its dependencies; without a failing start it succeeds exactly when tags are distinct, every dependency is listed and no dependency cycle exists; a failed start is the last one; otherwise nothing more could have been started, the report is the diagnosis of the first unstarted item and true, a not-found report is right when items outside the tag map have no dependencies, and the loop panics exactly when all tags start but some are listed twice |
| `StartOrder.LintIsTrue` | adapter/outbound/manager.go:144-163 | On a stuck loop the diagnostic recursion ends within the registered items; a circular report is a chain of real dependencies of unstarted items, distinct but for the last tag, which repeats; a not-found report names the first unstarted dependency of an unstarted item, absent from the tag map |
| `StartOrder.StuckMeansUnstartable` | dns/transport_manager.go:118-143 | A pass that starts nothing while something is unstarted proves that a dependency is missing or circular |
| `StartOrder.OrderMeansAcyclic` | dns/transport_manager.go:96-120 | A list that was started in order has no dependency cycle and no missing dependency |
| `StartOrder.EndpointReportedMissing` | adapter/outbound/manager.go:79-159 | An input on which a listed endpoint is reported as not found |
| `StartOrder.MisreportExactly` | adapter/outbound/manager.go:144-163 | The diagnosis from an item denies a listed one if and only if a walk along first unstarted dependencies, through registered items with distinct tags, leads from it to an item that waits first for a listed tag outside the map, other than the first item's own |
| `OutboundManager.Manager.constructor` | adapter/outbound/manager.go:36-45 | A new manager is empty and consistent |
| `OutboundManager.Manager.Create` | adapter/outbound/manager.go:261-310 | The errors in their order; the registry after a creation or replacement; list, map and default stay consistent, so the index is always found |
| `OutboundManager.Manager.Remove` | adapter/outbound/manager.go:217-259 | The errors in their order; a removal refused for its dependents has already taken the entry out; list and map stay consistent |
| `OutboundManager.Manager.SettleDefault` | adapter/outbound/manager.go:58-76 | Which of the two errors comes when; the configured endpoint becomes the default, or the fallback enters a list that is empty, so it never displaces an entry |
| `OutboundManager.Manager.Start` | adapter/outbound/manager.go:51-94 | A stage that is not later than the last one panics and changes nothing; at the start stage the default is settled before the loop and the registry changes only by that, with both errors, the start order and the exact success condition for outbounds and endpoints together; the other stages tell the outbounds in list order until one fails |
| `OutboundManager.RunKeeps` | adapter/outbound/manager.go:217-310 | In every run of creations, removals and fallbacks the list has one item per tag and the map sends each tag to it; without a configured default only an empty list lacks one |
| `OutboundManager.CreatedMeans` | adapter/outbound/manager.go:282-308 | A creation puts the outbound last, in place of exactly the one that had its tag, and changes no other entry; it becomes the default if it is the configured one, or if none is configured and none was there |
| `OutboundManager.RemovedMeans` | adapter/outbound/manager.go:217-254 | A removal cuts exactly that outbound out and keeps the order of the rest; if it was the default the first of the rest becomes it, none if there is none; with dependents on record the record stays |
| `OutboundManager.RecordAppends` | adapter/outbound/manager.go:299-302 | A creation puts its tag at the end of each dependency's entry as often as it names that dependency, and changes no other entry |
| `OutboundManager.CreateDanglesDefault` | adapter/outbound/manager.go:282-308 | Re-creating a tag leaves a default outside the list exactly when it replaces the default under a tag that is not the configured one |
| `OutboundManager.ForgetLookup` | adapter/outbound/manager.go:245-254 | What the removal loop leaves under one dependency, by how often the removed outbound named it |
| `OutboundManager.RemoveKeepsRecord` | adapter/outbound/manager.go:241-254 | The record of dependents stays complete after a removal exactly unless a doubled dependency leaves a lone other dependent |
| `OutboundManager.RunKeepsRecord` | adapter/outbound/manager.go:241-302 | Without doubled dependencies every run keeps the record complete |
| `OutboundManager.DependentsBlockRemoval` | adapter/outbound/manager.go:241-244 | In every run without doubled dependencies an outbound is on record with what it depends on, so removing that is refused |
| `OutboundManager.DoubledDependencyIsForgotten` | adapter/outbound/manager.go:245-254 | A run after which a dependency still in use has no dependents on record |
| `OutboundManager.RecordIsRealExactly` | adapter/outbound/manager.go:217-310 | In every run all dependents on record are listed and still depend if and only if no creation replaces an outbound on record with something the new one does not need and no refused removal takes out one on record |
| `OutboundManager.StaleRecordBlocksRemoval` | adapter/outbound/manager.go:282-302 | A run after which an outbound that nothing depends on has a dependent on record |
| `OutboundManager.StartListDistinct` | adapter/outbound/manager.go:67-79 | The started list stays distinct exactly when the fallback's tag is no endpoint's tag |
| `DnsRules.RuleFlagsCollect` | dns/router.go:950-999 | The recursive flags of a rule are the disjunction over all its nodes, and fail exactly when some node names an unknown rule-set |
| `DnsRules.ModeIsDecidedByNodes` | dns/router.go:924-948 | Mode resolution fails exactly on an unknown rule-set or a strategy beside a disabling node; it is legacy exactly when some node needs it and none disables it; in the new mode no node carries a strategy |
| `DnsRules.ValidateTreeMeans` | dns/router.go:1052-1094 | A tree is accepted exactly when every node can run in the new mode, and needs a response exactly when some node does |
| `DnsRules.ValidateRules` | dns/router.go:1014-1029 | The validation loop computes the specified verdict |
| `DnsRules.AcceptedMeansEvaluateFirst` | dns/router.go:1014-1029 | A list is accepted exactly when every node can run and every response-dependent rule follows an evaluate |
| `DnsRules.RefusedFirst` | dns/router.go:1014-1029 | A refused list is refused for its first rule that cannot run or lacks an evaluate before it, with that rule's own error or its place |
| `DnsModeGate.OverrideIsStore` | dns/router.go:1001-1012 | Checking with an override decides as checking after the store |
| `DnsModeGate.GateInNewMode` | dns/router.go:256-273 | In the new mode the gate opens exactly when the stored update keeps the mode and the rules valid |
| `DnsModeGate.GateInLegacyMode` | dns/router.go:260-269 | In the legacy mode it opens exactly when no node disables that mode and all rule-sets are known |
| `DnsModeGate.GateBeforeStart` | dns/router.go:246-255 | Before the start it opens exactly when the router could be built on the stored update |
| `DnsModeGate.ClosedGateOpens` | dns/router.go:227-245 | Without rules, and once the router is closing, every update passes |
| `DnsModeGate.RefusalNames` | dns/router.go:256-273 | Why a started router refuses an update: the analysis error first, then what the new mode has against the rules where that mode applies, else that the mode would have to change |
| `DnsModeGate.RunKeepsMode` | dns/router.go:227-274 | The gate does its work: in every run of updates with the build, the publish and the close, in which each update reads the flags after the publish, passes the check and is stored before another rule-set changes, the metadata in force always suit the mode built for |
| `DnsModeGate.SoundIffStoresFit` | dns/router.go:129-274 | What racing stores do: over every interleaving (reading the flags, checking, storing) the metadata always suit the mode if and only if every store would pass a check at its own moment |
| `DnsModeGate.LegacyConditionIsLocal` | dns/router.go:950-999 | A store keeps a legacy router sound exactly when its own metadata are harmless, whatever the other rule-sets hold |
| `DnsModeGate.LegacySurvivesRaces` | route/rule/rule_set_local.go:140-149 | Over every interleaving that builds for the legacy mode, the router never holds disabling metadata if and only if no harmful update read its flags before the publish and is stored after the build; later updates need no condition |
| `DnsModeGate.StartRace` | dns/router.go:238-255 | A run in which an update passes before the start and lands after it in a legacy router that cannot run it |
| `DnsModeGate.NewModeRace` | route/rule/rule_set_remote.go:184-193 | A run of two updates, each accepted, after which the new mode's rules need the legacy mode |
| `DnsInterpreter.ExchangeWithRules` | dns/router.go:414-523 | The loop computes the result and the queries of the interpreter, whose every ending, query, option and answer the following rows fix |
| `DnsInterpreter.UnsetIsKept` | dns/router.go:352-371 | After any list of route options a switch is on exactly when the query or one of them turns it on, what none of them gives is the query's own, and strategies never change |
| `DnsInterpreter.LastSettingWins` | dns/router.go:352-371 | After any list of route options a TTL rewrite, timeout or client subnet is the last one given |
| `DnsInterpreter.NewModeNeedsNoStrategy` | dns/router.go:352-371 | When mode resolution picks the new mode, an interpreter that applied strategies would give the same result and send the same queries |
| `DnsInterpreter.SeesLatestAnswer` | dns/router.go:422-455 | Every rule is matched against the server's answer to the latest evaluate that fired before it, none if there is none, its server is unknown or it failed |
| `DnsInterpreter.RespondReturnsLatest` | dns/router.go:456-465 | A respond rule ends the run with exactly that answer and its transport, and fails exactly when there is none; no query is sent for it |
| `DnsInterpreter.OptionsDoNotLeak` | dns/router.go:431-475 | The options a rule starts from are the query's with the matching route-options rules before it, in order, and nothing else |
| `DnsInterpreter.OnlyEvaluatesAsk` | dns/router.go:433-455 | Before a rule decides, exactly the evaluates that fired on a known server have sent a query, in order, each with the accumulated options and its own |
| `DnsInterpreter.ReachedNext` | dns/router.go:422-511 | The rule behind a reached one is reached exactly unless that one fires and ends the query; a failed evaluate, an unknown server and a forbidden FakeIP server are passed over |
| `DnsInterpreter.ReachedExactly` | dns/router.go:422-511 | So a rule is reached exactly when no earlier one fires and ends the query |
| `DnsInterpreter.RejectEnds` | dns/router.go:486-505 | A firing reject rule refuses or drops the query by its method, after the queries of the evaluates before it |
| `DnsInterpreter.PredefinedEnds` | dns/router.go:506-509 | A firing predefined rule answers with its own response and sends no query |
| `DnsInterpreter.RouteDecides` | dns/router.go:466-485 | A firing route rule on a usable server ends the run with that server's answer to one last query, under the route options that fired and its own, uncached for a FakeIP server |
| `DnsInterpreter.DefaultDecides` | dns/router.go:512-522 | When no rule ends the run, the answer is the default server's to one last query under the route options that fired |
| `DnsInterpreter.RespondFollowsEvaluate` | dns/router.go:1014-1094 | In a validated list every response-dependent rule has an evaluate rule before it |
| `DnsInterpreter.ValidateEvaluateFakeIP` | dns/router.go:1031-1050 | Accepts exactly the lists in which no evaluate rule names a FakeIP server, and reports the first that does |
| `DnsInterpreter.LookupAvoidsFakeIP` | dns/router.go:597-619 | A new-mode lookup on such a list with another default never queries a FakeIP server |
| `DnsInterpreter.ResponsesAreReal` | dns/router.go:414-523 | A response that no rule rejects is a server's reply to one of the queries sent, or the answer of a predefined rule |
| `DnsInterpreter.LookupTypeMeans` | dns/router.go:597-619 | A lookup query is reported as rejected exactly when a reject rule fires, before any other error; what it finds are all addresses of the asked family, each as often, in a successful response that was asked for or configured |
| `DnsInterpreter.LookupOutcome` | dns/router.go:597-619 | Without a rejection a lookup query reports the error of the run, or its response code, and finds exactly when the run succeeds with code 0 |
| `DnsInterpreter.LookupWithRules` | dns/router.go:525-595 | The lookup is the combination of the family lookups under the strategy in force: the lookup's own, else the query's, else the router's |
| `DnsInterpreter.Combine` | dns/router.go:569-594 | A restriction to one family is never violated; otherwise both families are complete, the preferred one first, and one of them may fail; when nothing is found the errors of both are joined |
| `DnsInterpreter.SortAddresses` | dns/client.go:318-324 | All addresses of both families, none of the less preferred family before one of the preferred |
| `DnsInterpreter.BuiltAsRead` | route/rule/rule_action.go:126-181 | A rule action is built as the kind its options name, with the settings that the mode analysis reads |
| `DnsLegacy.MatchDNS` | dns/router.go:276-350 | Finds the first admissible rule behind the given one, or the default, with the transport named there and exactly the options of that search |
| `DnsLegacy.LegacyQuery` | dns/router.go:671-725 | The retry loop (that of the lookup too) ends; each attempt is the first admissible rule behind the one before; every attempt but the last was on an address-limited rule whose response was rejected, or for a lookup was not an answer; the last is the result, the server's reply or the decision of a reject or predefined rule |
| `DnsLegacy.NothingIsSkipped` | dns/router.go:276-350 | The rules attempted up to an attempt are exactly the admissible ones, so the kept attempt is the first admissible rule that does not trigger a retry |
| `DnsLegacy.LegacyQueryIsBounded` | dns/router.go:793-834 | At most one attempt per rule and one on the default; no rule twice; no address-limited rule for other queries; no FakeIP server for a lookup |
| `DnsLegacy.AttemptsAreDetermined` | dns/router.go:671-725 | There is only one sequence of attempts that the loop can make |
| `DnsLegacy.AttemptOptions` | dns/router.go:309-340 | An attempt has the caller's options with those of the matching route-options rules of its search and its own, in order; a FakeIP server also disables the cache |
| `DnsLegacy.LegacyUnsetIsKept` | dns/router.go:309-340 | After any list of them a switch is on exactly when the caller or one of them turns it on, and what none of them gives is the caller's own |
| `DnsLegacy.LegacyLastSettingWins` | dns/router.go:309-340 | After any list of them a strategy, TTL rewrite, timeout or client subnet is the last one given |
| `DnsLegacy.RetryKeepsOptionsExactly` | dns/router.go:676-679 | Every attempt of every run has the options of a search from the first rule if and only if each option is left as the caller set it by the rules given up, or is set by a matching route-options rule behind them or by the attempted rule itself |
| `DnsLegacy.RetryDropsEarlierOptions` | dns/router.go:676-679 | A run with a retry that loses a TTL rewrite |
| `DnsLegacy.ModesAgree` | dns/router.go:667-725 | Rules that need neither mode, each mode matching them in its own way, are decided by both at the same rule, with the same transport, options and result, unless a source rule-set holds addresses |
| `DnsLegacy.ModeSuitsMatchers` | dns/router.go:924-936 | Mode resolution never gives the legacy mode a rule on the response, and gives the new mode a rule with an address limit only beside one that rules the legacy mode out |
| `DnsCache.ComputeTimeToLive` | dns/client.go:124-142 | The smaller of TTL and minimum of the first SOA for an empty answer that has one, else the smallest positive TTL over all records but OPT, 0 if there is none |
| `DnsCache.ExtractNegativeTTL` | dns/client.go:110-122 | The smaller of TTL and minimum of the first SOA |
| `DnsCache.FirstSOAMeans` | dns/client.go:110-122 | The SOA taken is the one of the records that none precedes |
| `DnsCache.NormalizedIsFixed` | dns/client.go:124-153 | Computing the time to live again after resetting all TTLs to it gives the same value |
| `DnsCache.TimeToLiveUnique` | dns/client.go:124-142 | The description of the time to live fits one value only |
| `DnsCache.NormalizeTTL` | dns/client.go:144-153 | Every TTL becomes the given one, OPT records are untouched |
| `DnsCache.ApplyResponseOptions` | dns/client.go:475-480 | The answer gets one TTL, the computed or the rewritten one |
| `DnsCache.Client.constructor` | dns/client.go:63-84 | A new cache is empty |
| `DnsCache.CheckAndApply` | dns/client.go:226-242 | An answer is refused exactly when a checker rejects it or it cannot be cached under one; otherwise it gets its one TTL |
| `DnsCache.Client.StoreCache` | dns/client.go:326-347 | A positive TTL stores a copy with the same content, that lifetime and the matching expiry, and changes no other entry; a zero TTL stores nothing |
| `DnsCache.Client.SecondsLeft` | dns/client.go:426-428 | The TTL left never reaches past the expiry and never exceeds the stored lifetime once the clock is at or after the store |
| `DnsCache.Client.LoadResponse` | dns/client.go:397-430 | A hit is a private copy of the entry's content whose TTLs are the seconds left, or 1 strictly inside the optimistic window; an entry past the window is dropped; nothing else changes |
| `DnsCache.Client.QuestionCache` | dns/client.go:378-395 | The lookup path answers from the cache exactly when the entry is fresh, or stale inside the window and the query did not opt out |
| `DnsCache.Client.AcceptUpstream` | dns/client.go:499-519 | The transport's answer, for a query or a background refresh, is stored as a copy exactly when it is accepted, allowed, cacheable and has a positive TTL |
| `DnsCache.Client.ExchangeCached` | dns/client.go:195-207 | The exchange path answers from the cache under the same condition as the lookup path, with the query's id |
| `DnsCache.Client.ExchangeUpstream` | dns/client.go:222-246 | An accepted answer carries the query's id and one TTL and is kept with that TTL and content |
| `DnsCache.Client.Exchange` | dns/client.go:179-259 | The cache answers exactly when it may, with a private copy; otherwise the transport's answer or error is returned and nothing stale is served; the cache always holds cacheable codes with a positive lifetime equal to every TTL, and shares no object with anything handed out |
| `DnsCache.Client.CallerChangesRecord` | dns/client.go:343-410 | A caller that changes a record it was handed cannot break the cache |
| `DnsCache.Client.CallerChangesMessage` | dns/client.go:343-410 | Nor by changing a message |
| `CacheLock.RunKeepsInv` | dns/client.go:180-194 | In every interleaving each lock entry is the open channel of one running leader, no channel has two owners, and every waiter's channel is closed or still has its owner |
| `CacheLock.OneLeaderPerKey` | dns/client.go:181-189 | At most one exchange leads a key, on an open channel |
| `CacheLock.StepsAreSafe` | dns/client.go:183-194 | A leader deletes only its own entry, no channel is closed twice, and a released waiter finds its leader and the entry gone |
| `CacheLock.StepsFollowProtocol` | dns/client.go:180-194 | In every run a step moves its own exchange only, along the protocol: one that finds an entry waits for that channel and goes on once it is closed; the lock, the channels and the refresh marks change with it alone |
| `CacheLock.WaitersGetReleased` | dns/client.go:183-194 | A waiter whose channel is open has a leader that releases it in two steps |
| `CacheLock.LeadersMayOverlapAcrossClose` | dns/client.go:190-193 | A key can be led again while the previous leader has still to close its channel |
| `CacheLock.OneRefreshPerKey` | dns/client.go:483-490 | Whoever starts refreshes, an exchange or a lookup without the lock, a key is marked exactly while its one background refresh runs |
| `ServiceStatus.InstanceWhenLockFree` | daemon/started_service.go:182-262 | In every interleaving, whenever the lock is free, Starting or Started means there is an instance |
| `ServiceStatus.StatusAndLockDiscipline` | daemon/started_service.go:128-262 | Started is entered only from Starting; the lock passes only between nobody and the call whose step it is; no finished call holds it |
| `ServiceStatus.StepsFollowEdges` | daemon/started_service.go:128-262 | In every interleaving the status, the instance and what was closed or started change only by the step of a call that may change them; a start is refused while stopping and otherwise closes the instance it finds, a close is refused unless running, an error ends in Fatal |
| `ServiceStatus.FalseStartExactly` | daemon/started_service.go:209-221 | From every reachable state in which Started is not false, a step makes it false if and only if a succeeded start ends with the status Starting while the instance in place has not started |
| `ServiceStatus.StartedIsRealExactly` | daemon/started_service.go:182-262 | Over every interleaving, Started always means an instance that started and was not closed if and only if no such step is made |
| `ServiceStatus.NoLeakExactly` | daemon/started_service.go:190-203 | Over every interleaving, every instance built is closed, being closed or current if and only if no start puts its instance over an open one that nobody is closing |
| `ServiceStatus.OverlappingReloadsLeak` | daemon/started_service.go:190-203 | An interleaving of two reloads and an error after which an open instance is lost |
| `ServiceStatus.SerialStartsAreSound` | daemon/started_service.go:182-256 | When starts do not overlap, Started means that the current instance started and was not closed, and every instance built is closed, being closed or current |
| `ServiceStatus.OverlappingStarts` | daemon/started_service.go:209-221 | An interleaving of two starts and a close that reports Started for an instance that has not started |
| `ConnectionEvents.EveryRunIsBalanced` | daemon/started_service.go:823-987 | In every run the client's open connections are those with a snapshot but for the stale ones, its totals are the announced ones plus the counters' movement, deltas are never negative and no connection gets two zero updates in a row |
| `ConnectionEvents.TotalsFromSamples` | daemon/started_service.go:823-987 | In every run the client has a connection that is followed without a step back open, with the totals it was announced with plus what its counters moved from that sample to the latest |
| `ConnectionEvents.SpeedsAreLastMovement` | daemon/started_service.go:913-954 | In every run a tick leaves the client with the movement since the last reading as its speeds, up and down, so they fall to zero as soon as nothing moves |
| `ConnectionEvents.ConnectionStream.BuildInitialConnectionState` | daemon/started_service.go:823-849 | The client is left with each active connection open and each closed one closed, with its own totals and closing time, and with nothing else; snapshots exactly for the active ones; stale are exactly those in both lists |
| `ConnectionEvents.InitialShows` | daemon/started_service.go:823-849 | After the first message the client shows the last closed sample of a connection, else the last active one open, else nothing |
| `ConnectionEvents.AnnouncedShows` | daemon/started_service.go:989-1027 | A NEW shows the connection with its upload as uplink total and its download as downlink total, and changes no other |
| `ConnectionEvents.ConnectionStream.ApplyConnectionEvent` | daemon/started_service.go:851-889 | A repeated NEW is swallowed, a new one shows the connection open with its totals; a CLOSED is always sent with the best known closing time and shows the connection closed with its last totals; the exact new state; the stream stays balanced |
| `ConnectionEvents.EndedShows` | daemon/started_service.go:866-885 | A CLOSED shows the connection it carries, or ends the one the client has, at the closing time, and changes no other |
| `ConnectionEvents.ConnectionStream.UpdateActive` | daemon/started_service.go:896-955 | One active connection: announced with its totals, moved, gone quiet or rewound, each with its event and snapshot; the stream stays balanced |
| `ConnectionEvents.TickedShows` | daemon/started_service.go:913-954 | A tick of a known connection moves the client's totals by what each counter moved forward, sets its speeds to that, and changes no other connection |
| `ConnectionEvents.ConnectionStream.BuildTrafficUpdates` | daemon/started_service.go:891-987 | After a tick the snapshots are exactly the active connections with their current counters, and the client's open ones are the same but for the stale; behind the updates comes exactly one CLOSED for each connection that is gone, with its known or the current time; with counters that do not go backwards every account is kept |
| `ConnectionEvents.ConnectionStream.CloseGone` | daemon/started_service.go:968-983 | A connection that is gone is closed at the time the closed list knows, else now, with its last sample if listed |
| `ConnectionEvents.ClosingShows` | daemon/started_service.go:957-984 | What the CLOSED events of a tick leave with the client: the last closed sample at its closing time, else what it had, closed now; connections that are not among them are untouched |
| `ConnectionEvents.TickedAllMonotone` | daemon/started_service.go:913-929 | Counters that do not go backwards leave no new gap in the accounts |
| `RouteMatch.MatchRule` | route/route.go:462-593 | The loop computes the match in both modes, whose selection, errors, metadata and decision the following rows fix |
| `RouteMatch.SelectedExactly` | route/route.go:550-590 | In both modes a rule is selected if and only if it is reached, matches and its action decides |
| `RouteMatch.FatalExactly` | route/route.go:550-573 | The match ends with an error if and only if a reached rule that matches fails to sniff or resolve with it |
| `RouteMatch.LastWriterWins` | route/route.go:486-573 | In every match each aspect of the metadata (destination, addresses, network strategy, UDP and TLS options and the rest) is what the last matching rule that writes it has written, and as given when none does |
| `RouteMatch.ResultIsLastWritten` | route/route.go:462-593 | So is every aspect of the metadata that the match returns |
| `RouteMatch.DecisionExactly` | route/route.go:102-146 | A connection is rejected or hijacked by a rule if and only if that rule is reached, matches and is of that kind; a route or bypass rule that fires gives its outbound; no rule that decides leaves the default |
| `RouteMatch.DefaultExactly` | route/route.go:102-160 | The default outbound is taken if and only if no rule that is reached and matches decides or fails |
| `RouteMatch.PreDecisionExactly` | route/route.go:298-321 | Pre-match rejects or bypasses by a rule if and only if that rule is reached, matches and is of that kind |
| `RouteMatch.FullResumesPreMatch` | route/route.go:462-593 | For TCP and UDP the full match is the pre-match resumed where it stopped, whatever bypass support it had; it is the same result unless it stopped to sniff or at a bypass without outbound |
| `RouteMatch.PreMatchIsSound` | route/route.go:298-321 | What pre-match refuses the full match refuses by the same rule or error, and pre-match misses only refusals behind a sniff or bypass |
| `RouteMatch.OriginalDestinationIsKept` | route/route.go:499-501 | A valid original destination is never changed afterwards |
| `RouteMatch.OriginalIsBeforeFirstOverride` | route/route.go:497-516 | The recorded original destination is the one just before the first rule that overrides it |
| `RuleMatching.MatchStates` | route/rule/rule_abstract.go:74-273 | The recursive matcher, default and logical, computes the specified states |
| `RuleMatching.MatchStatesForMatch` | route/rule/rule_dns.go:390-462 | The new mode's matcher computes the specified states; a rule on the response is matched with the response at hand and has failed without one |
| `RuleMatching.OnResponseMatches` | route/rule/rule_dns.go:390-407 | The new mode matches a rule on the response exactly when the legacy mode's check of that response would, and takes it for failed when there is none |
| `RuleMatching.MatchesReading` | route/rule/rule_dns.go:377-400 | A rule without rule-sets matches in the new mode exactly when all its conditions hold, or inverted not all, its addresses those of the response if it asks for that |
| `RuleMatching.LogicalMatches` | route/rule/rule_dns.go:430-463 | A logical rule matches in the new mode exactly when all or some of its rules do with the same response, or inverted not so |
| `RuleMatching.BaseIsKept` | route/rule/rule_abstract.go:78-273 | Whatever is nested and inverted, no reached state loses a group of the inherited one |
| `RuleMatching.DefaultReading` | route/rule/rule_abstract.go:78-172 | A rule without rule-sets, with or without its addresses and on a response or not, matches exactly when all its conditions hold, or inverted not all, or it has none that count |
| `RuleMatching.LogicalReading` | route/rule/rule_abstract.go:236-273 | A logical rule matches exactly when all or some of its rules do, or inverted not so, and the switches of a rule-set do not reach them |
| `RuleMatching.ProductMember` | route/rule/rule_abstract.go:242-255 | A conjunction reaches exactly the states that put one state of each of its rules together |
| `RuleMatching.AddsNothing` | route/rule/rule_abstract.go:78-172 | Rules that are inverted or without conditions add nothing to the inherited state |
| `RuleMatching.PlainMatchIsBoolean` | route/rule/rule_abstract.go:78-273 | A tree without rule-sets matches exactly when its Boolean reading holds: one item per group, all other items, and, or, not |
| `RuleMatching.MergedGroups` | route/rule/rule_item_rule_set.go:62-72 | A rule with a rule-set matches exactly when one of the set's rules holds with it, conditions of the same group merged and all others joined |
| `RuleMatching.LimitMissesSourceSets` | route/rule/rule_dns.go:364-375 | A rule has addresses exactly when it has an address limit or a source rule-set that holds some |
| `RuleMatching.ModesMatchAlike` | route/rule/rule_dns.go:377-400 | Rules without an address limit, a source rule-set with addresses or a condition on the response are matched alike by both modes |
| `RuleMatching.SourceSetDecides` | route/rule/rule_dns.go:377-388 | For a rule with a source rule-set, the exact condition under which each mode takes it; the legacy one leaves the set's addresses out |
| `RuleMatching.SourceSetIgnored` | route/rule/rule_dns.go:381-388 | A rule without an address limit that the legacy mode takes and the new mode does not |
| `RuleMatching.PassedOverExactly` | route/rule/rule_dns.go:381-407 | A rule without rule-sets that the response would match is given up before the query exactly when the rest of it holds and its addresses are the only destination that matches beside others, or, inverted, the only condition that fails |
| `RuleMatching.SetPassedOverExactly` | route/rule/rule_dns.go:381-407 | With a rule-set it is given up exactly when the addresses complete the rule with one of the set's rules while, for every one that fits otherwise, it or the rule has domains and none of them matches |
| `SavedBinaryCodec.RoundTrip` | adapter/experimental.go:72-134 | Decoding an encoded entry, whatever follows it, gives the same content and etag and the time in whole seconds, and stops right behind it |
| `SavedBinaryCodec.TruncationIsDetected` | adapter/experimental.go:101-134 | No proper prefix of an encoding decodes |
| `SavedBinaryCodec.MarshalIsInjective` | adapter/experimental.go:72-99 | Equal encodings mean equal entries up to the fraction of a second, and back |
| `SavedBinaryCodec.UvarintRoundTrip` | adapter/experimental.go:78-108 | Every uint64 survives the varint encoding, ten bytes and overflow rule included |
| `SavedBinaryCodec.Layout` | adapter/experimental.go:72-99 | The bytes of an entry in order: version 1, the length of the content in base 128 and the content, the seconds as eight bytes with the most significant first and in two's complement, the length of the etag and the etag |
| `SavedBinaryCodec.UvarintDigits` | adapter/experimental.go:78-89 | A varint is the number in base 128, least significant digit first, the high bit on all bytes but the last, and no superfluous digit |
| `SavedBinaryCodec.ReadUvarintMeans` | adapter/experimental.go:108-123 | A varint that is read is the base-128 value of the bytes it takes, at most ten, and fits a uint64 |
| `SavedBinaryCodec.ReadUvarintFails` | adapter/experimental.go:108-123 | It fails when the data ends inside it, with the error of an empty or a cut input, and else only when it overflows |
| `SavedBinaryCodec.BigEndianDigits` | adapter/experimental.go:86-89 | A big-endian number has its most significant byte first |
| `SavedBinaryCodec.FromBigEndianDigits` | adapter/experimental.go:116-121 | And is read so |
| `SavedBinaryCodec.VersionIsIgnored` | adapter/experimental.go:101-107 | The version byte is read and never looked at |
| `SavedBinaryCodec.SavedBinary.MarshalBinary` | adapter/experimental.go:72-99 | Writes the specified bytes |
| `SavedBinaryCodec.SavedBinary.UnmarshalBinary` | adapter/experimental.go:101-134 | Fills the fields with the decoded entry; on failure reports the specified error and keeps the fields not reached |
| `SavedBinaryCodec.ReadUvarintBytes` | adapter/experimental.go:108-123 | The byte loop reads the specified varint |

## Left out

- The DNS transport manager's own registry (`dns/transport_manager.go`): its start loop is the one modelled; its registry repeats the outbound registry, and its FakeIP default rules add only easy members.
- Closing of managers and the state of a manager after `Close`.
- The persistent DNS cache, the rejected-response store and the EDNS and HTTPS-hint rewriting of answers.
- Least-recently-used order: eviction is an arbitrary removal (`DnsCache.Client.Evict`).
- The preparation of route metadata before the rule loop (process search, neighbours, FakeIP reverse lookup) and the buffers that sniffing returns; `RouteMatch` treats metadata as a value that the loop replaces, so aliasing of the inbound context is not captured.
- The choice of a direct-route outbound for ICMP in `PreMatch`.
- `CacheLock` and `ServiceStatus` are step functions over values, because what matters there is the order of steps of many calls; the methods' local variables appear as program points.
- RuleMatching.PassedOverExactly: rules without rule-sets; `SetPassedOverExactly` has those with one, not inverted and holding lists of conditions; logical rules are not covered.
- RuleMatching.ModesMatchAlike: one way for whole trees, because a sibling or an inversion can hide the difference; `SourceSetDecides` is exact for a single rule with a source rule-set.
- Rule items themselves (domains, ports, processes, addresses): `RuleMatching` takes their outcomes; the rule-sets of a rule are one list of rules, and the four group bits are a set.
- A check and a build in `DnsModeGate` each read the metadata of all rule-sets at one moment; the source reads them rule by rule, a build also at its validation and while it makes the rules.
- `DnsModeGate` and the flag analysis of `DnsRules` are functions over values; the accumulator loops are recursions with the accumulator as a parameter.
- The client's own eviction of connections closed long ago.
- Reverse mapping of addresses, logging, deprecation notices, gRPC and JSON plumbing, dialers and sniffers.
- Failures of the operating system and allocation of very long buffers: a length of 2^63 or more is an error outcome of `SavedBinaryCodec.ReadFull`, shorter lengths are assumed to fit.
- Integer widths: lengths, times and TTLs are bounded where the source's width matters (uint64 varints, int64 seconds, uint32 TTLs); traffic counters are unbounded integers.
