# Verified model of the yuha session daemon, wire protocol and fault handling

This Dafny project models the parts of the repository in which several maps, counters or tasks have to stay in step, and
proves what every run of them keeps. `dafny verify dfyconfig.toml` checks all of it.

**Session daemon.** `Session`, `IdIndex`, `Registry`, `Pool`, `Metrics`, `Manager` and `Handler` give each operation of
the source as a function from state to state; `ManagerRuns` and `Handler` prove invariants over all runs of manager
operations, daemon requests and cleanup ticks, `Gauges` and `SampleWindows` what such runs do to the status gauges, the
peak and the sample windows, `PoolLists` when the daemon's pool lists stay free of duplicates, `ClockRules` what the
clock decides, in explicit times, and `Counters` what each counter of the metrics counts. The modules named
`...Component` hold the objects the source builds: classes whose fields are updated in place, each method proved to move
its object from state to state as the function says. `Transport` proves what a connection key identifies. `Locks` is the
daemon's lock discipline as a step system, `Admission` the limits when checks and insertions of several tasks
interleave, `Reuse` the create requests whose look into the pool and whose use of what they found are separate steps,
`StatusRaces` two status changes of one session whose reads, writes and records interleave.

**Wire protocol and remote server.** `Framing` is the length-prefixed message channel over an arbitrarily fragmented
stream whose receives may be cancelled, `SshAdapter` the stream over SSH chunks, `RequestResponse` the callers of one
client and the server loop, `Forwarder` the event log of the port forwarder, `Delivery` that log on its way through the
message channel to the client.

**Fault handling and upload.** `Retry` has the backoff, the retry loop and the circuit breaker, `Upload` the chunked
base64 transfer, and `RemoteShell` what a shell makes of the command lines it sends, read from their characters.

Conventions. Each manager or handler operation is one atomic step (except in `Locks`, `Admission`, `Reuse` and
`StatusRaces`, whose subject is the interleaving) and reads the clock once; no assumption is made that the clock moves
forward, and every subtraction of times is clipped at zero as in the source. Clock readings, random draws, hash-map
iteration orders and the results of the retried operation are parameters, universally quantified. Session ids stand for
random UUIDs: a new session comes with an id that is neither registered, nor in the metrics history, nor in the client
table (`Proper`). Counters and connection ids are unbounded; the claims about connection ids are those for fewer than
2^32 connections, and the one about served clients is for fewer than 2^32 accepted connections.

## What the code does that its names or documentation do not suggest

Each point is a lemma, with the exact condition wherever a property can fail:

- the daemon's pool lists stay free of duplicates exactly if no disconnect that the pool accepts meets a session already
  pooled, which it lists twice (`PoolLists.PoolStaysDistinctIff`, `Pool.RepeatedAddDuplicates`);
- duplicate names are refused only while the name index is on (`Registry.DuplicateRefusedIffIndexed`), and names stay
  unique exactly if no metadata update gives a session the name of another one (`Registry.NamesStayUnique`);
- a session returned by a create request can execute commands exactly if it did not come out of the pool, and a session
  that was disconnected once never executes a command again (`Handler.CreatedExecutesIff`,
  `Handler.DisconnectedNeverExecutes`);
- with the daemon's configuration, a session is found right after a cleanup tick exactly if one was pooled exactly the
  limit ago (`Handler.DaemonReuseWindow`);
- two requests are handed the same pooled session exactly if, at each look and by that look's clock, it is the first of
  the best eligible entries, and then neither has used it before the later look (`Reuse.SharedIff`); two looks before
  any use need not agree, because a better entry may have become old enough in between (`Reuse.LooksCanDiffer`);
- a cleanup tick forgets expired sessions and keeps their clients, whose commands go on succeeding
  (`Handler.TickOrphansClientIff`);
- two status changes of one session that both read the old status can unbalance the gauges (`StatusRaces.BothReadIff`,
  `StatusRaces.OneAfterTheOtherIff`);
- a batch of events too large for one message has left the buffer when it is refused, and is lost
  (`Delivery.AllSentIffAllFit`);
- every session the reconnection rule would retry is one the next tick discards
  (`ManagerRuns.ReconnectCandidatesExpire`);
- the peak gauge is the peak of a run of manager operations exactly if no operation makes a session idle that was
  neither active nor idle while the load is at its peak (`Gauges.ManagerPeakIff`, `Gauges.ManagerRunMissesPeak`);
- `update_session_metadata` can unbalance gauges, pool and history (`Manager.MetadataUpdateIsSafeIff`);
- a request's key stands for its endpoint alone exactly if the user and the host, or the user and the distribution, hold
  no `@` (`Transport.UnambiguousIff`, `Transport.AtSignConfusesEndpoints`);
- the two registry listings take the locks in the opposite order: a set of operations can run free of deadlock exactly
  if none of them takes the listed index inside the primary map, or the name index is only read there and written by
  none (`Locks.DeadlockFreeIff`); registrations alone can deadlock with a listing by name
  (`Locks.RegistrationsCanDeadlock`);
- stopping one port forward closes the connections of all (`Forwarder.StopRemovesEveryPort`,
  `Forwarder.StopHitsOtherPort`), and a stopped connection is reported closed a second time by its relay task
  (`Forwarder.ConnectionStories`);
- abandoning a call between its send and its receive is harmless exactly if the server has stopped
  (`RequestResponse.AbandonmentIsHarmlessIff`, `RequestResponse.AbandonedCallerMisleadsTheNext`);
- an empty SSH chunk reads as end of stream (`SshAdapter.PrematureEndIff`), and over SSH a reported close means that all
  messages have arrived exactly if no bytes were lost in transit (`SshAdapter.ReceivedIsSentOverSsh`);
- the upload compares the encoded text, not the command, with the command limit, so a text sent whole that is less than
  64 characters and two path lengths below the limit makes a command beyond it (`Upload.AllFitIff`);
- the backoff of the default policy never shrinks exactly up to attempt 2^31, where the exponent wraps
  (`Retry.NeverShrinksIff`, `Retry.ModerateShrinksAfterWrap`), and a breaker with threshold zero is not in the state its
  trace prescribes (`Retry.BreakerRefinesTrace`).

## Model

| member | source | states |
|---|---|---|
| Transport.KeysEqualIff | crates/core/src/transport/mod.rs:276-316 | for all configurations: connection keys are equal exactly when the parts they spell out are, user and host (or user and distribution) being one part joined by `@` |
| Transport.KeyIdentifiesEndpoint | crates/core/src/transport/mod.rs:276-316 | two configurations have equal connection keys exactly when they name the same endpoint (type, user, host, port, path, TLS flag), if one of them is unambiguous or neither user name holds an `@` |
| Transport.UnambiguousIff | crates/core/src/transport/mod.rs:276-316 | the exact condition on one request: no configuration of another endpoint has its key exactly when user and host, or user and distribution, hold no `@` |
| Transport.SameEndpointIff | crates/core/src/transport/mod.rs:288-314 | what the endpoints compared are: TCP ones are the same exactly when host, port and the enabling of TLS are, WSL ones when user and distribution are, a missing name being `default` |
| Transport.AtSignConfusesEndpoints | crates/core/src/transport/mod.rs:280 | two SSH configurations with equal keys and different endpoints |
| IdIndex.Drop | crates/core/src/session/registry.rs:130 | `retain`: exactly the dead ids go and distinctness is kept |
| IdIndex.DropKeepsOrder | crates/core/src/session/registry.rs:130 | `retain` keeps order: the survivors are the entries at all positions of living ids, from left to right |
| IdIndex.PushAgrees | crates/core/src/session/registry.rs:97-100 | pushing an id under a key keeps an index equal to the inverse of its owner map |
| IdIndex.EraseAgrees | crates/core/src/session/registry.rs:129-134 | erasing an id, and its list when empty, keeps the agreement and the other lists |
| Registry.RunConsistent | crates/core/src/session/registry.rs:55-264 | after any register (fresh ids), unregister, update, status, use and clear operations each index list is non-empty, duplicate-free and holds exactly the ids with that name or key |
| Registry.ListByNameMatchesScan | crates/core/src/session/registry.rs:283-306 | the listing through the name index is the linear scan as a multiset, for every iteration order |
| Registry.ListByConnectionKeyMatchesScan | crates/core/src/session/registry.rs:309-320 | the listing through the connection index is the linear scan as a multiset |
| Registry.DuplicateRefusedIffIndexed | crates/core/src/session/registry.rs:69-78 | with room left and duplicates disallowed, a taken name is refused exactly when the name index is enabled |
| Registry.RegisterIff | crates/core/src/session/registry.rs:55-116 | for every configuration: a full registry refuses; with room left a registration is refused exactly when duplicates are disallowed, the index is on and a registered session has the name; otherwise the session is stored, Connecting in place of Creating, and no other session changes |
| Registry.FreeNameAccepted | crates/core/src/session/registry.rs:58-79 | a name nobody has is never refused as a duplicate |
| Registry.StepKeepsNamesUniqueIff | crates/core/src/session/registry.rs:166-227 | with the index on and duplicates disallowed one operation keeps names unique exactly when it is not an update that gives a registered session the name of another one |
| Registry.NamesStayUnique | crates/core/src/session/registry.rs:69-101 | over a run, names are unique in every state exactly when no operation is such an update |
| RegistryComponent.SessionRegistry.Register | crates/core/src/session/registry.rs:55-116 | the object checks the limit and the name, then updates its three maps to the specified state; indexes that agreed still agree if the id was new |
| RegistryComponent.SessionRegistry.Unregister | crates/core/src/session/registry.rs:119-158 | the object drops the session from its three maps and returns its metadata; indexes that agreed still agree |
| RegistryComponent.SessionRegistry.Update | crates/core/src/session/registry.rs:166-227 | the object moves the id between index lists when key or name change; id mismatch and unknown ids change nothing; indexes that agreed still agree |
| RegistryComponent.SessionRegistry.UpdateStatus | crates/core/src/session/registry.rs:230-246 | only the status (and the last use, for Active and Idle) of the one session changes; indexes that agreed still agree |
| RegistryComponent.SessionRegistry.MarkUsed | crates/core/src/session/registry.rs:249-264 | only the use count and last use of the one session change; indexes that agreed still agree |
| Pool.InsertKeepsMirrorIff | crates/core/src/session/pool.rs:104-122 | pooling keeps the two maps mirrored exactly when a session already pooled comes back under its old key |
| Pool.AddIff | crates/core/src/session/pool.rs:67-129 | a session is refused exactly when the pool is off, the status is neither Idle nor Active, or one of the two limits is really reached; otherwise it is filed under its key with this moment, its priority and its use count |
| Pool.AddKeepsLimits | crates/core/src/session/pool.rs:79-122 | serial adding keeps the total limit and the per-key limit, which acts as at least one |
| Pool.AddKeepsDistinctIff | crates/core/src/session/pool.rs:67-129 | adding keeps the lists free of duplicates exactly when the session is refused or not pooled yet |
| Pool.RepeatedAddDuplicates | crates/core/src/session/pool.rs:108-111 | adding a pooled session again lists its id twice |
| Pool.RemoveErases | crates/core/src/session/pool.rs:132-153 | removal erases every occurrence of the id from both maps and changes nothing else |
| Pool.CleanupIsExact | crates/core/src/session/pool.rs:264-294 | for every iteration order cleanup removes exactly the entries older than the limit; the other lists keep their order |
| Pool.Best | crates/core/src/session/pool.rs:166-185 | none exactly when no listed entry is eligible, otherwise the first listed entry of maximal score |
| Pool.FindSessionComplete | crates/core/src/session/pool.rs:156-197 | nothing is found exactly when reuse is off or no entry under the key has been idle long enough |
| Pool.FoundIffFirstOfBest | crates/core/src/session/pool.rs:166-185 | an id is found exactly when reuse is on and it is the first listed eligible entry of maximal score |
| Pool.TwoLevelsDecide | crates/core/src/session/pool.rs:200-227 | no eligible entry is two or more priority levels above the one found |
| Pool.OneLevelDoesNotDecide | crates/core/src/session/pool.rs:200-227 | a fresh Normal session is preferred to a worn High one |
| Pool.ScorePrefersFresh | crates/core/src/session/pool.rs:211-224 | within a priority less used and more recently pooled entries never score less |
| Pool.ScoreDifference | crates/core/src/session/pool.rs:200-227 | two scores differ by the priorities, by ten for each of the bounds 10 and 50 uses, by five for the first minute and by ten for the first five minutes in the pool |
| Pool.LevelsWeighAlike | crates/core/src/session/pool.rs:202-208 | each priority level weighs 25 more than the one below |
| PoolComponent.SessionPool.AddSession | crates/core/src/session/pool.rs:67-129 | the object accepts and stores a session as specified; the limits, and the mirror for a stable key, are kept |
| PoolComponent.SessionPool.RemoveSession | crates/core/src/session/pool.rs:132-153 | the object removes a session as specified and says whether it was pooled; from a mirrored pool every occurrence of the id goes and nothing else |
| PoolComponent.SessionPool.FindSession | crates/core/src/session/pool.rs:156-197 | the scanning loop finds the first listed id of maximal score |
| PoolComponent.SessionPool.CleanupExpired | crates/core/src/session/pool.rs:264-294 | the two loops remove and return exactly the expired ids in iteration order; a mirrored pool loses exactly the entries that are too old |
| Metrics.WindowKeepsLatest | crates/core/src/session/metrics.rs:318-323 | after any number of samples the window holds the most recent ones, oldest first |
| SampleWindows.WindowsHoldLatest | crates/core/src/session/metrics.rs:190-232 | in every manager run each session closed or expired is sampled once, the windows hold the latest samples, oldest first, and the averages are those of the windows |
| Metrics.CleanupSplitsUses | crates/core/src/session/metrics.rs:255-270 | the uses remembered before a history cleanup are those remembered after it plus those of the evicted entries |
| Metrics.AverageIsMean | crates/core/src/session/metrics.rs:300-315 | an average is the mean of its samples rounded down, and stays what it was while there are none |
| Counters.OutcomesAreCounted | crates/core/src/session/metrics.rs:112-125 | over every manager run the successful and the failed connections are the numbers of connecting or reconnecting sessions that became Active and Failed |
| Counters.UsageIsCounted | crates/core/src/session/metrics.rs:83-93 | over every manager run the usage of each transport is the number of sessions registered over it |
| Counters.HistoryIsTold | crates/core/src/session/metrics.rs:95-181 | after every manager run the history has the creation time and transport of each live session, and a session, live or closed, counts as reused exactly if it was used more than once |
| Counters.DiscardDates | crates/core/src/session/metrics.rs:210-224 | a removal dates the history entry of the session, notes its last idle time, and keeps every other entry |
| MetricsComponent.SessionMetricsCollector.RecordStatusChange | crates/core/src/session/metrics.rs:128-166 | gauges, peak and connection counters move as specified |
| MetricsComponent.SessionMetricsCollector.RecordSessionClosed | crates/core/src/session/metrics.rs:190-232 | closing counter, gauges, history entry, sample windows and averages move as specified |
| Manager.StatusKeepsInv | crates/core/src/session/manager.rs:78-148 | a status change keeps indexes, pool links, limits, gauges, conservation and history together |
| Manager.DiscardKeepsInv | crates/core/src/session/manager.rs:184-195 | removing a session from pool, registry and gauges keeps all of them consistent |
| Manager.StatusPoolEffect | crates/core/src/session/manager.rs:84-118 | a change to Idle offers the session to the pool, to Active, Failed or Closed erases it there, any other leaves the pool alone |
| Manager.StatusStamps | crates/core/src/session/registry.rs:230-246 | a status change sets the status of the one session, and its last use when it becomes Active or Idle |
| Counters.UseIsCounted | crates/core/src/session/manager.rs:151-173 | a use raises use count and usage total by one, stamps the session, activates it if it was Idle, and touches no other session |
| Manager.MetadataUpdateIsSafeIff | crates/core/src/session/manager.rs:341-347 | the metadata update keeps the gauges exact, the pool linked and the history fitting, each exactly under its condition on old and new metadata; the indexes agree in any case |
| StatusRaces.BothReadIff | crates/core/src/session/manager.rs:78-148 | two changes of one session that both read its status before either wrote: the exact condition on statuses, counts and record order under which the gauges are right afterwards |
| StatusRaces.OneAfterTheOtherIff | crates/core/src/session/manager.rs:78-148 | if the second reads what the first wrote, the gauges are right when the records come in that order, and when they are swapped exactly if the early decrement finds a gauge to lower |
| ManagerRuns.EveryRunIsSound | crates/core/src/session/manager.rs:50-317 | after any manager run: indexes agree, pool mirrored and within limits, pooled ids registered under their key and neither Active, Failed nor Closed; gauges equal counts by status; created minus closed is the registry count; transport usage sums to created; open history entries are the registered ids with their use counts |
| ManagerRuns.GaugesCoverSessions | crates/core/src/session/metrics.rs:137-146 | between operations a registered session in a tracked status is counted by a positive gauge |
| Gauges.NoDecrementClips | crates/core/src/session/metrics.rs:128-232 | in every manager run the gauges are what plain subtraction gives, step by step, so no saturating decrement ever clips |
| Gauges.StepMovesPeakIff | crates/core/src/session/metrics.rs:148-157 | one manager operation raises the peak gauge to the new load, and no further, exactly when it does not make a session idle that was neither active nor idle while the load is at its peak |
| Gauges.ManagerPeakIff | crates/core/src/session/metrics.rs:148-157 | over a manager run the peak gauge is at every moment the largest load so far exactly when no operation does that |
| Gauges.ManagerRunMissesPeak | crates/core/src/session/metrics.rs:157 | a manager run in which the peak gauge stays below the load |
| Gauges.PeakIsMaxLoad | crates/core/src/session/metrics.rs:148-156 | in handler runs the peak gauge is the maximum of active plus idle over all states |
| ManagerRuns.TickIsExact | crates/core/src/session/manager.rs:272-313 | a tick unregisters exactly the overdue sessions and unpools exactly those and the entries pooled too long |
| ClockRules.DisconnectedStaysIff | crates/core/src/session/lifecycle.rs:105-137 | a session disconnected at `t` survives a tick exactly when the tick is at most the idle limit after `t` and at most the lifetime limit after its creation; a clock that went back takes nothing |
| ClockRules.ConnectedStaysIff | crates/core/src/session/lifecycle.rs:105-137 | a session with a client survives a tick exactly when it is at most the lifetime limit old, however long unused |
| ClockRules.ReconnectIff | crates/core/src/session/lifecycle.rs:140-162 | the reconnection rule holds exactly for a Failed session with both limits unexceeded, if it is enabled |
| ClockRules.HistoryKeptIff | crates/core/src/session/manager.rs:301-312 | a tick forgets a history entry exactly when it was closed more than a day ago |
| ManagerRuns.UsesAreConserved | crates/core/src/session/metrics.rs:169-187 | the total usage count is the uses in the history, live sessions included, plus the evicted uses |
| ManagerRuns.ReconnectCandidatesExpire | crates/core/src/session/lifecycle.rs:105-162 | a session the reconnection rule would retry is unregistered by the next tick, whenever it comes |
| ManagerComponent.SessionManager.CreateSession | crates/core/src/session/manager.rs:50-70 | the object registers and counts a session, or changes nothing and returns the registry's error; the manager's invariant is kept |
| ManagerComponent.SessionManager.UpdateSessionStatus | crates/core/src/session/manager.rs:78-148 | the three components move together as specified; an unknown id changes nothing; the manager's invariant is kept |
| ManagerComponent.SessionManager.UseSession | crates/core/src/session/manager.rs:151-173 | use count, usage metrics and the activation of an Idle session as specified; the manager's invariant is kept |
| ManagerComponent.SessionManager.CloseSession | crates/core/src/session/manager.rs:176-198 | Closing, removal from pool and registry, and the closing record as specified; the manager's invariant is kept |
| ManagerComponent.SessionManager.ConnectOrCreateSession | crates/core/src/session/manager.rs:206-233 | reuse from the pool first, otherwise a new session; the manager's invariant is kept |
| ManagerComponent.SessionManager.Cleanup | crates/core/src/session/manager.rs:272-314 | the callback's loop reaches the specified state and returns exactly the overdue and the expired pooled ids; the manager's invariant is kept |
| Handler.PooledAreIdleAndClientsActive | crates/client/src/daemon/handler.rs:77-299 | after any run of requests and ticks every pooled id is registered, Idle, under its own key and without client, and every registered client id is Active |
| Handler.ReuseReachesSameEndpoint | crates/client/src/daemon/handler.rs:84-98 | a session the pool returns for an unambiguous request, whatever else is registered, targets the request's endpoint, becomes Active, leaves the pool, and refuses commands |
| Handler.CreatedExecutesIff | crates/client/src/daemon/handler.rs:77-132 | a session returned by a create request can execute commands exactly when it did not come out of the pool |
| Handler.TickOrphansClientIff | crates/client/src/daemon/handler.rs:237-271 | right after a tick a command of a connected client succeeds, without a session exactly when the session was gone before or is older than the maximum lifetime |
| Reuse.LookThenActIsCreate | crates/client/src/daemon/handler.rs:84-133 | with nothing in between, a look and what follows it are the whole create request |
| Reuse.HalvesAreTheWhole | crates/client/src/daemon/handler.rs:77-132 | from every state the two steps form a run, and end where the whole request does |
| Reuse.NotHandedOutTwice | crates/client/src/daemon/handler.rs:84-98 | however looks, uses, other requests and ticks interleave, a session out of the pool is not handed out by it again before its own disconnect |
| Reuse.SharedIff | crates/client/src/daemon/handler.rs:86-93 | two looks, with any steps but a disconnect of the session in between, are handed the same session exactly when it is the first of the best eligible entries of both pools, each at its own clock reading; and then nobody has used it in between |
| Reuse.OnlyEntryIsShared | crates/client/src/daemon/handler.rs:86-93 | if one session alone is listed under the key, a later look before its use is handed it too, and no look after |
| Reuse.ActGetsItIff | crates/client/src/daemon/handler.rs:92-98 | a request that was handed a session gets it exactly when it is still registered as the request acts, used by others or not |
| Reuse.LooksCanDiffer | crates/core/src/session/pool.rs:166-227 | a pool in which looks at 5 and 8 seconds, with no use in between, find different sessions |
| PoolLists.PoolStaysDistinctIff | crates/client/src/daemon/handler.rs:160-182 | in a run of requests and ticks the pool lists are free of duplicates in every state exactly when no disconnect that the pool accepts meets a session already pooled |
| Handler.DisconnectedIsReusable | crates/client/src/daemon/handler.rs:160-182 | disconnect while the pool has room, then create for the same key after the minimum idle time, is served from the pool, by the same session if it is alone |
| ClockRules.DisconnectFiles | crates/core/src/session/pool.rs:104-122 | a disconnect that the pool has room for files the session under its key with this moment, its priority and its use count, behind those already listed |
| ClockRules.DisconnectedServesIff | crates/core/src/session/pool.rs:156-197 | a session disconnected at `now` and alone under its key serves a create request for the key exactly from `now` plus the minimum idle time on |
| ClockRules.PooledStaysIff | crates/core/src/session/pool.rs:264-294 | a pool cleanup drops it exactly when it comes later than `now` plus the given time |
| Handler.ConnectReusesActive | crates/client/src/daemon/handler.rs:135-157 | connecting to the name of an Active session reuses such a session and registers nothing |
| Handler.DisconnectedNeverExecutes | crates/client/src/daemon/handler.rs:242-252 | after a disconnect every later command on the session is refused, over every run that does not reissue the id |
| Handler.ConnectClientSucceeds | crates/client/src/daemon/handler.rs:274-299 | connecting a registered session never fails and changes only its status and the client table |
| Handler.DaemonReuseWindow | crates/client/src/daemon/server.rs:33-46 | with equal minimum and maximum idle time, a session is found right after a tick exactly when one of the key has been pooled for exactly that time, and it is such a one |
| HandlerComponent.RequestHandler.CreateSession | crates/client/src/daemon/handler.rs:77-132 | reuse, creation, connection and the failure branches as specified; the handler's invariant is kept |
| HandlerComponent.RequestHandler.ConnectSession | crates/client/src/daemon/handler.rs:135-157 | the listing loop takes the first Active session of that name, otherwise creates; the handler's invariant is kept |
| HandlerComponent.RequestHandler.DisconnectSession | crates/client/src/daemon/handler.rs:160-182 | the client goes first, then the session becomes Idle and is offered to the pool; the handler's invariant is kept |
| HandlerComponent.RequestHandler.ExecuteCommand | crates/client/src/daemon/handler.rs:237-271 | refused without a client; otherwise the session is used; the handler's invariant is kept |
| Counters.ExecuteUsesOnce | crates/client/src/daemon/handler.rs:237-271 | a command of a connected client raises the use count of its session and the usage total by one, stamps the last use, and changes no client |
| Counters.ConnectUsesOnce | crates/client/src/daemon/handler.rs:139-151 | so does a connect that finds an Active session of the name |
| Locks.DeadlockFreeIff | crates/core/src/session/registry.rs:55-361 | under first-come-first-served locks any number of tasks made of a set of sections are never all stuck exactly when the set is safe: with a listing by name no section writes the name index inside the primary map, nor one reads it there while one writes it alone; with a listing by key none writes the connection index inside the primary map |
| Locks.NoDeadlock | crates/core/src/session/registry.rs:55-264 | a safe set: however many operations are started and however they interleave, while one is unfinished a task can move |
| Locks.OperationsAreOrdered | crates/core/src/session/pool.rs:80-143 | every sequence of sections of a safe set takes locks in the order of that set and ends holding none |
| Locks.ScriptsAreOrdered | crates/core/src/session/metrics.rs:83-252 | each section takes and releases its locks in that order |
| Locks.ScriptsTakeWhatTheyTouch | crates/core/src/session/registry.rs:55-361 | each section takes exactly the locks, in the modes, that its code touches |
| Locks.NobodyWritesBesideAnother | crates/core/src/session/registry.rs:55-361 | in every run nobody holds a lock beside a task that holds it for writing |
| Locks.ListingCanDeadlock | crates/core/src/session/registry.rs:283-320 | each section that writes an index inside the primary map (metadata update, clear) and a listing by that index can end in a deadlock |
| Locks.RegistrationsCanDeadlock | crates/core/src/session/registry.rs:60-110 | registrations alone and a listing by name can end in a deadlock |
| Admission.LimitsUnderRaces | crates/core/src/session/registry.rs:59-92 | with at most k tasks in flight the session, pool and per-key limits are exceeded by at most k - 1 |
| Admission.RemovalsMakeRoom | crates/core/src/session/registry.rs:119-158 | a removal between the steps takes exactly that session out of the registry, or out of the pool |
| Admission.RegistryBoundAttained | crates/core/src/session/registry.rs:59-92 | from one free place k tasks can all register, so the bound is tight |
| Admission.PoolBoundsAttained | crates/core/src/session/pool.rs:79-122 | from one free place, in total or for one key, k tasks can all pool, so both bounds are tight, also for a per-key limit of zero, which acts as one |
| Admission.AcceptLoop | crates/client/src/daemon/server.rs:96-145 | the daemon serves the first max_clients connections of its lifetime and no more |
| Framing.ReceivedIsSent | crates/core/src/message_channel.rs:136-163 | for any payloads, fragmentation and cancelled receives the received list is a prefix of the accepted one, and equals it when the close is reported |
| Framing.NextPayloadIsDelivered | crates/core/src/message_channel.rs:136-163 | a receive that is woken often enough returns the next payload sent |
| Framing.UniqueDecoding | crates/core/src/message_channel.rs:18-20 | a stream of frames can be cut into payloads in only one way |
| Framing.FrameOnTheWire | crates/core/src/message_channel.rs:59-72 | a frame is the payload behind its length in two bytes, the high one first |
| Framing.AcceptedIff | crates/core/src/message_channel.rs:50-57 | a payload is accepted exactly when it has at most 65535 bytes and the link is open |
| Framing.CloseIsReported | crates/core/src/message_channel.rs:157-161 | once all messages are received and the peer closes, the next receive reports it |
| Framing.ReceiveConserves | crates/remote/src/main.rs:123-147 | no receive, cancelled or not, changes the buffered and unread bytes other than by one whole frame |
| Framing.MessageChannel.Send | crates/core/src/message_channel.rs:46-82 | an oversize payload writes nothing, any other exactly its frame |
| Framing.MessageChannel.ReceiveBinary | crates/core/src/message_channel.rs:136-163 | the loop behaves as the specified receive |
| SshAdapter.DeliversTheChunks | crates/client/src/transport/ssh.rs:91-121 | bytes polled followed by the undelivered ones are the chunks concatenated, for all arrivals and read sizes |
| SshAdapter.EndOfStreamIff | crates/client/src/transport/ssh.rs:118 | without empty chunks end of stream is reported exactly when all is delivered and the sender is gone |
| SshAdapter.PrematureEndIff | crates/client/src/transport/ssh.rs:106-117 | it is reported too early exactly when an empty chunk stands in front of further bytes |
| SshAdapter.RefinesByteStream | crates/client/src/transport/ssh.rs:91-121 | one receive through the adapter is one from the byte stream under some fragmentation |
| SshAdapter.ReceivedIsSentOverSsh | crates/client/src/transport/ssh.rs:91-121 | in every run of sends, deliveries of any cuts of the bytes as chunks, receives and a hang-up the messages received are a prefix of those sent; when a receive reports the close they are all of them exactly when no bytes were lost in transit |
| SshAdapter.SentOverSshIff | crates/client/src/transport/ssh.rs:91-121 | over SSH too a message is accepted exactly when it has at most 65535 bytes and nobody has hung up |
| SshAdapter.CloseIsReportedOverSsh | crates/client/src/transport/ssh.rs:118 | once all messages are received and the sender hangs up, the next receive reports the close |
| SshAdapter.SshChannelAdapter.PollRead | crates/client/src/transport/ssh.rs:92-121 | the object hands out the next bytes and keeps the rest |
| RequestResponse.EveryCallGetsItsOwnResponse | crates/client/src/client_transport.rs:113-135 | with any number of callers every response received is that of the caller's own request, and nothing is outstanding while the lock is free |
| RequestResponse.CallersMakeProgress | crates/client/src/client_transport.rs:122-134 | while a call is unfinished some step is possible |
| RequestResponse.AbandonKeepsMatchedIff | crates/client/src/client_transport.rs:122-134 | one abandonment between send and receive leaves callers and outstanding items matched exactly when the server has stopped |
| RequestResponse.AbandonmentIsHarmlessIff | crates/client/src/client_transport.rs:122-134 | every later call gets its own response in every continuation exactly when the server has stopped; with a running server, whatever it was doing, a later caller can be handed the response of the abandoned call |
| RequestResponse.AbandonedCallerMisleadsTheNext | crates/client/src/client_transport.rs:122-134 | a run with an abandoned caller in which another caller gets its response |
| RequestResponse.FailureReachesTheCaller | crates/client/src/client_transport.rs:129-132 | a server that fails while a call waits leaves nothing to receive, and the call gets an error |
| Forwarder.NothingLostOrReordered | crates/remote/src/main.rs:155-167 | for every interleaving the drained batches followed by the buffer are everything ever added, in order |
| Forwarder.AddAppends | crates/core/src/protocol/buffer.rs:27-81 | an event goes to the end of the buffer; opening and closing ones change the pending and closed connections as they say |
| Forwarder.AcceptsAreNumbered | crates/remote/src/main.rs:237-242 | the next connection id is the number of connections accepted |
| Delivery.AllSentIffAllFit | crates/remote/src/main.rs:123-167 | over every run of polls, relay tasks and client receives, what the client has received is a beginning of the batches taken; all were sent exactly when each fits a message of 65535 bytes, and otherwise exactly the last one is lost |
| Delivery.NextBatchIsReceived | crates/remote/src/main.rs:123-167 | while a batch sent is unreceived, a receive woken often enough returns the oldest such batch |
| Forwarder.ConnectionStories | crates/remote/src/main.rs:254-287 | a connection's events begin with its only NewConnection and hold one CloseConnection for every stop that removed it, of which there is at most one, and one more, the last event, once its task has finished |
| Forwarder.ActiveIsPending | crates/core/src/protocol/buffer.rs:37-49 | active connections are pending; pending and closed connections are what the log says |
| Forwarder.StopRemovesEveryPort | crates/remote/src/main.rs:306-323 | however other tasks interleave with it, a stop ends with an empty connection table and has removed every connection active at its start exactly once and no other; so it spares other ports exactly when they have no connection |
| Forwarder.StopHitsOtherPort | crates/remote/src/main.rs:309-320 | a run in which stopping port 81 removes a connection of port 80 |
| Forwarder.ResponseBuffer.AddCloseConnection | crates/core/src/protocol/buffer.rs:45-49 | the item, the pending map and the closed list change together |
| Forwarder.ResponseBuffer.TakeItems | crates/core/src/protocol/buffer.rs:84-86 | all items are handed over and none is left; the bookkeeping stays |
| Upload.DecodeInvertsEncode | crates/client/src/transport/ssh.rs:209-211 | decoding the base64 text of any bytes gives the bytes |
| Upload.ChunkedRoundTripIff | crates/client/src/transport/ssh.rs:240-245 | chunk-wise decoding gives the original exactly when the chunk size is a multiple of four or there is at most one chunk |
| Upload.EncodesByGroups | crates/client/src/transport/ssh.rs:209-211 | the base64 text is that of the groups of three bytes, one after the other |
| Upload.GroupIsBase64 | crates/client/src/transport/ssh.rs:209-211 | a group is written as the four six-bit digits of its 24-bit number, padded, in the alphabet of section 4 of RFC 4648 |
| Upload.CommandsArrive | crates/client/src/transport/ssh.rs:209-282 | the effects of all commands of a transfer leave the binary, executable, in whatever was the remote file |
| Upload.AllFitIff | crates/client/src/transport/ssh.rs:214-267 | all commands, words and path included, are within the limit exactly when the text is chunked or leaves room for 64 characters and two paths |
| RemoteShell.WordsOfLine | crates/client/src/transport/ssh.rs:217-289 | reading a line of quoted and unquoted words gives back the words it was written from |
| RemoteShell.ExecuteHasEffect | crates/client/src/transport/ssh.rs:216-289 | for every path without quotes and blanks the line of each command, read from its characters alone, does to the file at the path what the command is meant to do and nothing to other files |
| RemoteShell.TransferArrives | crates/client/src/transport/ssh.rs:209-282 | executing the lines of a transfer, read from their characters alone, leaves the binary at the path, executable, whatever was there before, and all other files as they were |
| RemoteShell.Shell.Transfer | crates/client/src/transport/ssh.rs:209-282 | the branches and the loop send exactly these lines, and the shell that runs them ends with the binary at the path, executable, and its other files unchanged |
| Retry.RetryAsync | crates/core/src/error/retry.rs:99-141 | between 1 and max_attempts + 1 calls; the result is that of the last call, all earlier ones failed retriably, a retriable last failure means the attempts are used up; the sleep is bounded by 11/10 of max_attempts * max_delay; the point after the loop is unreachable |
| Retry.FirstDelay | crates/core/src/error/retry.rs:69-86 | the first delay is the initial delay in whole milliseconds, capped |
| Retry.WholeMultiplierIsExact | crates/core/src/error/retry.rs:74-76 | for a whole multiplier k and up to attempt 2^31 each delay is k times the one before, capped by the maximum delay and the largest number of milliseconds |
| Retry.MultiplierWithinRounding | crates/core/src/error/retry.rs:74-76 | for any positive multiplier and below the caps each delay is the multiple of the one before up to rounding: less than one millisecond short, less than the multiplier in milliseconds beyond |
| Retry.StaysCapped | crates/core/src/error/retry.rs:76 | with a multiplier of at least one, a delay once capped stays capped up to attempt 2^31 |
| Retry.ZeroMultiplier | crates/core/src/error/retry.rs:74-76 | with multiplier zero every delay after the first is nothing, until the exponent wraps and it is the largest allowed |
| Retry.JitterIff | crates/core/src/error/retry.rs:78-86 | jitter can add a number of milliseconds exactly when it is at most a tenth of the plain delay, rounded down |
| Retry.SleptIsGeometric | crates/core/src/error/retry.rs:106-114 | with a whole multiplier k and no cap reached, k - 1 times the time slept in all is the delay that would come next less the first one |
| Retry.RetriableErrors | crates/core/src/error/mod.rs:377-386 | exactly five kinds of errors are retried |
| Retry.NeverShrinksIff | crates/core/src/error/retry.rs:69-86 | without jitter and with a multiplier of at least one, delays up to attempt n never shrink exactly when n is at most 2^31 or the step across the wrap of the exponent does not shrink |
| Retry.ModerateShrinksAfterWrap | crates/core/src/error/retry.rs:69-86 | for a first delay of at most 2^31 ms per unit of the multiplier above one: exactly when n is at most 2^31 or there is nothing to wait for |
| Retry.DelayCollapsesAfterWrap | crates/core/src/error/retry.rs:74-75 | with such a first delay the delay at attempt 2^31 + 1 is zero |
| Retry.BreakerRefinesTrace | crates/core/src/error/retry.rs:173-227 | the breaker's state is the one computed from the trace of calls alone, exactly when the threshold is at least one |
| Retry.RefusedIff | crates/core/src/error/retry.rs:186-203 | the exact condition, on the trace, under which a call is refused |
| Retry.StaysOpen | crates/core/src/error/retry.rs:189-198 | once open every call before the timeout after the latest failure is refused, whatever successes and failures are recorded |
| Retry.FailureReopens | crates/core/src/error/retry.rs:220-227 | a failure while half open opens the breaker again for a full timeout |
| Retry.CircuitBreaker.CanExecute | crates/core/src/error/retry.rs:186-203 | the object answers and moves to half open as specified |
| Retry.CircuitBreaker.RecordFailure | crates/core/src/error/retry.rs:220-227 | the object counts the failure, dates it and opens at the threshold |

## Left out

- Sockets, processes, SSH authentication, the file system, environment variables, logging, the CLI and the GUI: input and output.
- JSON encoding of requests and responses: payloads are opaque bytes in `Framing` and opaque values in `RequestResponse`.
- `poll_write` of the SSH adapter, and the order in which the remote shell runs upload commands: commands are assumed to run in issue order.
- RemoteShell.ExecuteHasEffect: reads blanks, quotes, `echo`, `base64 -d`, `>`, `>>`, `chmod +x` and `&&`, no other shell language; files can be written and have no other state.
- Bodies of daemon commands, clipboard storage and URL validation: placeholders or library calls in the source.
- MetricsComponent.SessionMetricsCollector.RecordSessionClosed: does not model the reuse rate, a floating-point number; nor is the success rate modelled.
- Transport.UnambiguousIff: a local path is a string here; the source prints it lossily, so two paths that are not valid UTF-8 can share a key.
- Delivery.AllSentIffAllFit: the answers that carry no events, and the other requests, are not on the link.
- Rounding of the backoff multiplier, which is a real number here.
- `forward_data` and the bytes relayed between the two sockets: they add nothing to the event log; the drop of a sender by a stop appears only as the freedom of the relay task to end.
- Forwarder.ConnectionStories: the removal of a connection by a stop and its report are one step, because the connection table stays locked in between.
- Locks.DeadlockFreeIff: covers the locks of registry, pool, metrics and client table; the flag of the cleanup task and the shutdown flag are single locks never held across another.
- `SessionReconnectionManager`, tags, session priorities after creation, counting by tag, `list_pool` and pool statistics: they would add only easy members.
- Builders, configuration validation, error categories, `crates/core/src/metrics.rs` and the duplicate protocol type definitions: they would add only easy members.
