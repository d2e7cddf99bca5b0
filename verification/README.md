# Forager, modelled and verified in Dafny

Forager is an on-premises agent. It holds one connection to a cloud relay, verifies the signed
messages that arrive there, and forwards requests to local datasources: MCP servers, databases,
SSH hosts, metric stores and network sweeps. This project models the parts of it that keep state
under concurrency, transform data, or translate text, and proves what they promise.

Concurrent components come in two files. One holds the class whose methods are the critical
sections of the source, each proved to compute a function on the guarded fields. The other builds a
step machine from those functions, in which steps of any number of requests, workers and timers
interleave freely, and proves its theorems over every run. Network replies, dial results, health
check outcomes and clock readings are inputs of the steps.

| file | models |
|---|---|
| McpSessions, McpRuns, McpRequests | the upstream MCP session table; every interleaving of handshakes, posts, 404 drops, sweeps and Close; what each step of a request does, on the server's answers and the times of use |
| ReplayTable | the nonce table of the message verifier and every interleaving of Verify calls |
| Registry, RegistryRuns | the datasource registry; every interleaving of its operations with requests in flight and health workers |
| SshPool, SshPoolRuns | the SSH connection pool and every run of its operations |
| ConfigSync, ConfigSyncTheorems | applying a configuration push to the registry, with the gated SSH access siblings; what is registered afterwards |
| VmDestinations | hosts, services and the destination resolver of the service map |
| VmServiceMap, VmServiceMapTheorems, VmServiceMapSamples, VmServiceMapOrder | the service map built from metric samples, what it promises, which samples make up an edge and a row, and what the order of the samples can change |
| Sweep | scope checks and host expansion of a network sweep |
| PackSigning | the bytes of a command pack that are signed |
| WhenGuards, WhenGrammar | the `when` guard language: parser, printer, three-valued evaluation; the grammar it reads |
| ShellQuote | taking SQL text out of a shell command line |
| Backoff | the reconnect wait |
| GoStrings, Powers, Collections | shared text functions, powers of two, common predicates |

Eight promises hold only under a condition. The theorem states the exact condition, and for the
state machines a run shows the failing case:

- An MCP session id can be lost without termination. This happens exactly in the runs that store
  over an entry that went idle during the handshake (`LostExactlyByOverwriting`). The HTTP client's
  timeout is far below the idle TTL, and handshakes shorter than the TTL lose nothing
  (`PromptHandshakesLoseNothing`); `SlowHandshakeLosesSession` is a run that does.
- A request can post in a session that was already terminated, but only on a closed proxy or when a
  whole idle TTL has passed since its lookup (`NoUseAfterTermination`); `PostAfterClose` and
  `LatePostAfterSweep` are runs of either kind.
- A signed message can be accepted twice when Verify calls overlap. A nonce is remembered exactly
  until an eviction pass runs more than ten minutes after its latest acceptance
  (`RememberedExactly`). So a message is accepted twice exactly in the runs in which a call looks up
  a nonce after such a pass (`AcceptedTwiceExactly`); `OverlapAcceptsTwice` is one. Calls that do not
  overlap never do (`NoReplay`).
- The request error shown with a passing health check can stem from the proxy that was replaced. A
  registration is free of that in every continuation exactly when no request to the id is in flight
  when it is made (`OwnResultsExactly`); `OldProxyErrorReported` is a run that is not.
- A registered proxy can already have been closed, exactly when a Remove of it failed
  (`CloseCallsCounted`); in `ClosedTwice` it is closed again later.
- A last success can belong to no registered id, exactly when some CloseAll left it behind and the
  id was not registered again since (`LastSuccessLeftBehind`, `CloseAllLeavesLastSuccess`).
- The latency of a service map edge can depend on the order of the samples. It does not exactly when
  no duration was recorded for it or all its counted samples carry the same value (`LatencyOrder`);
  nothing else of an edge depends on it (`OrderDoesNotMatter`).
- A printed guard reads back exactly when its literals hold no quote, no `&&`, no `||`, and no `==`
  in a `!=` comparison (`GuardRoundTrip`). The parser returns only such guards (`ParserRange`).

## Model

| member | source | states |
|---|---|---|
| `McpSessions.Proxy.constructor` | pkg/proxy/mcp/proxy.go:52-60 | a new proxy has no session, no sweeper and is open |
| `McpSessions.Proxy.StartSweeper` | pkg/proxy/mcp/proxy.go:86-91 | at most one sweeper is started, and none on a closed proxy |
| `McpSessions.Proxy.EnsureLookup` | pkg/proxy/mcp/session.go:96-114 | first locked section of ensureSession: closed, sessionless, live entry touched, expired entry removed and handed out, or missing |
| `McpSessions.Proxy.RememberSessionless` | pkg/proxy/mcp/session.go:118-123 | a server without sessions is remembered for the idle TTL |
| `McpSessions.Proxy.EnsureStore` | pkg/proxy/mcp/session.go:128-144 | second locked section: too late on a closed proxy, lost race against a live entry, or stored |
| `McpSessions.Proxy.DropSession` | pkg/proxy/mcp/session.go:149-155 | the key is forgotten only while it still maps to the refused id |
| `McpSessions.Proxy.TakeSessions` | pkg/proxy/mcp/session.go:239-250 | exactly the matching entries are removed and their ids returned, one per key, in some iteration order |
| `McpSessions.Proxy.MarkClosed` | pkg/proxy/mcp/proxy.go:349-356 | closing marks the proxy and stops the sweeper, leaving the table for the take that follows |
| `McpRuns.StepEvolves` | pkg/proxy/mcp/session.go:95-155 | across any step an entry keeps its id and only gains use time, unless it was refused with 404, the proxy is closed, or it sat idle for the whole TTL |
| `McpRuns.StepKeepsInv` | pkg/proxy/mcp/session.go:48-155 | every step keeps the table, the calls and the history consistent |
| `McpRuns.StepSettles` | pkg/proxy/mcp/session.go:95-250 | every step leaves every opened id in exactly one place |
| `McpRuns.ExactlyOnePlace` | pkg/proxy/mcp/session.go:95-250 | over every interleaving each id initialize returned is held by one request, stored under one key, handed out once for termination, forgotten after a 404, or overwritten; the counts add up to one |
| `McpRuns.LostExactlyByOverwriting` | pkg/proxy/mcp/session.go:134-142 | every id ever opened is held, stored, handed out or forgotten, exactly once, if and only if the run never stores over an idle entry |
| `McpRuns.PromptHandshakesLoseNothing` | pkg/proxy/mcp/session.go:116-144 | with handshakes shorter than the idle TTL every id is accounted for in every interleaving |
| `McpRuns.SlowHandshakeLosesSession` | pkg/proxy/mcp/session.go:134-142 | a run with a handshake longer than the TTL that loses one |
| `McpRuns.KeysAreIsolated` | pkg/proxy/mcp/session.go:44-84 | different keys never share a session, and every message was posted in a session opened for its own key |
| `McpRuns.OnlyRefusedForgotten` | pkg/proxy/mcp/session.go:86-91 | only sessions the server answered 404 to are forgotten without termination |
| `McpRuns.NoUseAfterTermination` | pkg/proxy/mcp/session.go:93-145 | a request that posts within the TTL of its lookup, on an open proxy, never uses a session that was terminated or overwritten |
| `McpRuns.LatePostAfterSweep` | pkg/proxy/mcp/session.go:221-236 | a run in which a sweep terminates the session of a request that posts only after the TTL |
| `McpRuns.PostAfterClose` | pkg/proxy/mcp/proxy.go:349-366 | a run in which Close terminates the session of a request that is about to post |
| `McpRuns.ClosedStaysClosed` | pkg/proxy/mcp/session.go:128-133 | after Close no key is ever stored again and a late handshake hands out its own id |
| `McpRuns.NothingLeaks` | pkg/proxy/mcp/proxy.go:349-372 | once Close has drained the table and the handshakes in flight are over, every id ever opened was terminated exactly once or had been refused |
| `McpRuns.LiveSessionSurvives` | pkg/proxy/mcp/session.go:17-20 | an entry in use keeps its session through every step unless refused or closed |
| `McpRequests.AnswerSaysWhy` | pkg/proxy/mcp/session.go:157-193 | initialize brings a session exactly on a status below 400 with an id; otherwise the request knows whether the server answered without a session (a 4xx, or success without an id) and whether the handshake failed |
| `McpRequests.LookUpExactly` | pkg/proxy/mcp/session.go:95-123 | in every interleaving a lookup on an open proxy starts a handshake if and only if no initialize was answered without a session in the last idle TTL and no session is stored for the key that a request was given within it; inside that window the request goes on without a session, with such a session it goes on in it, and an older one is retired |
| `McpRequests.StoreExactly` | pkg/proxy/mcp/session.go:128-144 | in every interleaving a new session is stored if and only if the proxy is open and no session for the key was given to a request within the idle TTL; otherwise its id is handed out, and on an open proxy the request goes on in the other session |
| `McpRequests.RequestGoesOn` | pkg/proxy/mcp/session.go:48-91 | a request without a session goes on unless its second handshake failed; only a 404 to a session on the first pass sends it round again, and then the key is forgotten exactly while it maps to the refused session |
| `McpRequests.SweepExactly` | pkg/proxy/mcp/session.go:221-250 | a sweep takes exactly the sessions no request was given within the idle TTL, Close takes all, and what is taken is handed out |
| `ReplayTable.Verifier.CheckAndRecordNonce` | pkg/signing/verify.go:250-270 | reports whether the nonce was known; if not, records it and, at the eviction sizes, drops exactly the entries older than ten minutes |
| `ReplayTable.Verifier.Verify` | pkg/signing/verify.go:170-201 | accepts exactly signed messages no more than five minutes off the clock with an unknown nonce; a rejected message records nothing |
| `ReplayTable.ReplayNeedsPassInBetween` | pkg/signing/verify.go:170-201 | in every interleaving a second acceptance of a message comes with an eviction pass between its window check and its nonce check |
| `ReplayTable.RememberedExactly` | pkg/signing/verify.go:250-270 | in every interleaving a nonce is in the table, and a call carrying it is turned away, if and only if it was accepted and no pass ran more than ten minutes after its latest acceptance |
| `ReplayTable.PassesExactly` | pkg/signing/verify.go:258-268 | in every interleaving an eviction pass runs if and only if a nonce is added that brings the table to a multiple of 100 above 10,000 entries |
| `ReplayTable.AcceptedTwiceExactly` | pkg/signing/verify.go:170-201 | a run accepts some message twice if and only if some call looks up the nonce of an accepted message after such a pass |
| `ReplayTable.OverlapAcceptsTwice` | pkg/signing/verify.go:170-201 | a run of overlapping calls that accepts a message twice |
| `ReplayTable.NoReplay` | pkg/signing/verify.go:140-201 | the corollary for calls that do not overlap: no message is accepted twice, in any such run with a non-decreasing clock |
| `ReplayTable.TableHoldsRecentNonces` | pkg/signing/verify.go:258-268 | at 10,100 entries or more, all but at most 99 were recorded in the ten minutes up to the latest eviction pass, and none before them |
| `Registry.Registry.constructor` | pkg/proxy/registry.go:177-184 | an empty registry |
| `Registry.Registry.Register` | pkg/proxy/registry.go:195-211 | replaces proxy and entry, clears last success and request error of the id, closes the proxy it replaces |
| `Registry.Registry.Remove` | pkg/proxy/registry.go:214-228 | calls Close on the registered proxy; forgets the id everywhere when that succeeds, changes nothing when it does not |
| `Registry.Registry.CloseAll` | pkg/proxy/registry.go:473-483 | calls Close once on every registered proxy and forgets all proxies with their entries and request errors; last successes stay |
| `Registry.Registry.RecordRequestResult` | pkg/proxy/registry.go:115-142 | for a registered id a failure is stored with its time, a success clears it, the caller's own fault changes nothing |
| `Registry.Registry.RecentRequestError` | pkg/proxy/registry.go:152-164 | the stored error if not older than the TTL, otherwise dropped |
| `Registry.Registry.RecordCheck` | pkg/proxy/registry.go:362-387 | the result of a check is recorded and reported only if the proxy is still the registered one |
| `RegistryRuns.TablesStayConsistent` | pkg/proxy/registry.go:195-228 | in every interleaving proxies and entries have the same ids, each entry is the one its proxy was registered with, request errors belong to registered ids, and an id has a last success if and only if a passing check of its proxy was recorded, with the stamp of the latest |
| `RegistryRuns.LastSuccessLeftBehind` | pkg/proxy/registry.go:473-483 | over every run a last success belongs to no registered id if and only if some CloseAll found it and the id was not registered since |
| `RegistryRuns.CloseAllLeavesLastSuccess` | pkg/proxy/registry.go:473-483 | a run that ends with a last success and no registered id |
| `RegistryRuns.LateChecksAreDropped` | pkg/proxy/registry.go:362-405 | a check gets a report line if and only if its registration has not ended by the time it is recorded |
| `RegistryRuns.FinishedReport` | pkg/proxy/registry.go:362-405 | over every run a finished report has a line for each target except those whose registration ended, and each line is that of its own check: its failure with the stamp of the latest passing check of that proxy before it, or reachable with the stamp of the report |
| `RegistryRuns.FailingCheckReported` | pkg/proxy/registry.go:362-387 | over every run a failing check of a proxy that still stands puts its own failure on the line, with the stamp of the latest passing check recorded of that proxy, or none; it changes no table |
| `RegistryRuns.LastRecordedIsReported` | pkg/proxy/registry.go:103-164 | a passing check reports an error if and only if the last result recorded under the id since its proxy was registered is a failure within the TTL, whichever proxy was called |
| `RegistryRuns.OwnResultsExactly` | pkg/ws/handler.go:174-185 | no result of another proxy is ever recorded under a newly registered proxy if and only if no request to the id is in flight when it is registered |
| `RegistryRuns.LatestFailureIsReported` | pkg/proxy/registry.go:103-164 | under that condition a passing check reports an error if and only if the latest request to that very proxy failed within the TTL, and then that error |
| `RegistryRuns.OldProxyErrorReported` | pkg/ws/handler.go:174-185 | a run in which the replaced proxy fails late and the new proxy reports its error |
| `RegistryRuns.CloseCallsCounted` | pkg/proxy/registry.go:195-228 | over every run Close is called on a proxy once per Remove that failed on it and once more when it left; it is under one id at most |
| `RegistryRuns.ClosedTwice` | pkg/proxy/registry.go:214-228 | a run in which a proxy is closed, stays registered and is closed again |
| `RegistryRuns.CollectReport` | pkg/proxy/registry.go:396-405 | the report holds exactly the lines of the finished report: one per target that was not superseded, with its own result |
| `SshPool.Proxy.EvictOldest` | pkg/proxy/ssh/proxy.go:358-378 | removes and closes an entry with the least last-used time |
| `SshPool.Proxy.GetPooledClient` | pkg/proxy/ssh/proxy.go:307-355 | a live pooled client is touched and reused; a dead one is closed; a full pool gives up its longest idle entry before the dial |
| `SshPool.Proxy.CleanupExpired` | pkg/proxy/ssh/proxy.go:400-419 | closes and removes exactly the entries idle beyond the pool TTL |
| `SshPool.Proxy.Close` | pkg/proxy/ssh/proxy.go:742-784 | closes every pooled client once and leaves nothing to dial with |
| `SshPool.Proxy.Configure` | pkg/proxy/ssh/proxy.go:119-199 | closes everything before the new settings apply |
| `SshPoolRuns.PoolStaysWithinLimit` | pkg/proxy/ssh/proxy.go:307-378 | over every run the pool never exceeds its limit and holds nothing while closed |
| `SshPoolRuns.EveryClientPooledOrClosed` | pkg/proxy/ssh/proxy.go:307-419 | every client ever dialled is pooled under exactly one address or was closed exactly once |
| `SshPoolRuns.LeavesForAReason` | pkg/proxy/ssh/proxy.go:307-419 | a pooled client leaves only dead, as the longest idle of a full pool, expired, or with the whole pool; otherwise it stays under its address |
| `SshPoolRuns.PoolIsTheOpenClients` | pkg/proxy/ssh/proxy.go:307-419 | over every run the pool holds exactly the clients dialled and not closed, each under the address it was last returned for with the time of that use |
| `SshPoolRuns.GetExactly` | pkg/proxy/ssh/proxy.go:307-378 | over every run a live client to the address is returned and nothing is closed; otherwise that client is closed, the longest unused of the others when they fill the pool, and the dialled client is returned, or none without a configuration or a dial |
| `SshPoolRuns.ClosesExactly` | pkg/proxy/ssh/proxy.go:400-419 | over every run the cleanup closes exactly the clients unused for longer than the pool TTL; closing and configuring close exactly the open ones |
| `ConfigSync.NormalizeConfigValues` | pkg/ws/handler.go:286-303 | the same keys; texts that spell a boolean or an integer become one, everything else stays |
| `ConfigSync.StringSlice` | pkg/proxy/discovery/ssh_access.go:89-110 | exactly the non-empty strings of a list value, in order |
| `ConfigSync.StringsListed` | pkg/proxy/discovery/ssh_access.go:89-110 | a string is taken if and only if the value lists it, in either form, and it is not empty |
| `ConfigSync.TextsInOrder` | pkg/proxy/discovery/ssh_access.go:89-110 | strings are taken in the order of the list, empty ones left out |
| `ConfigSync.ItemsInOrder` | pkg/proxy/discovery/ssh_access.go:89-110 | the same for a decoded list, entries of other types left out |
| `ConfigSync.SSHAccessConfig` | pkg/proxy/discovery/ssh_access.go:31-58 | derived if and only if signing, host keys and an explicit scope are all present; confined to that scope and pinned to that file |
| `ConfigSync.SyncDatasource` | pkg/ws/handler.go:373-442 | one pushed datasource: registered when it configures, with its sibling when the gates pass |
| `ConfigSync.RemoveUnlisted` | pkg/ws/handler.go:446-451 | removes exactly the unlisted ids that are not local and whose proxy closes |
| `ConfigSync.HandleConfigSync` | pkg/ws/handler.go:345-464 | the whole sync computes Synced on the registry's tables |
| `ConfigSyncTheorems.ConfigurationGiven` | pkg/ws/handler.go:286-343 | Configure gets the pushed values, each coerced by itself, with exactly the datasource type, the allowed hosts or the allowed networks added that the proxy type calls for |
| `ConfigSyncTheorems.RegisteredExactly` | pkg/ws/handler.go:373-442 | a datasource is registered if and only if its credentials are there, its type is known and it configures; its sibling if and only if, besides, SSH access is on, signing, host keys and scope are given and the sibling configures |
| `ConfigSyncTheorems.SyncedTables` | pkg/ws/handler.go:371-451 | after a sync an id has the proxy and entry of the last pushed datasource that registers it, with last success and request error cleared; without one everything about it is as before, or it is gone from every table |
| `ConfigSyncTheorems.KeptMeaning` | pkg/ws/handler.go:371-442 | the keep set is exactly the ids named by the push and the siblings opened in it |
| `ConfigSyncTheorems.SyncedIds` | pkg/ws/handler.go:371-451 | exactly which ids are registered after a sync |
| `ConfigSyncTheorems.OnlyPushedIdsRemain` | pkg/ws/handler.go:444-451 | when every Close succeeds only local ids, named ids and opened siblings remain |
| `ConfigSyncTheorems.LocalIdsRemain` | pkg/ws/handler.go:446-451 | local ids are never removed |
| `ConfigSyncTheorems.FailedPushKeepsProxy` | pkg/ws/handler.go:373-442 | a pushed id that nothing in the push registers keeps its earlier proxy, entry, last success and request error |
| `ConfigSyncTheorems.SshSiblingsAreGated` | pkg/proxy/discovery/ssh_access.go:31-85 | no non-local sibling survives unless this sync passed every gate for its datasource |
| `ConfigSyncTheorems.SyncKeepsKeys` | pkg/ws/handler.go:345-464 | a sync keeps the registry's maps aligned |
| `VmDestinations.CollectHosts` | pkg/proxy/http/vmservicemap.go:707-763 | one host per mentioned instance, with exactly the addresses listed for it, each once, its last reported instance id, and its last reported name or else the instance |
| `VmDestinations.LastMentioned` | pkg/proxy/http/vmservicemap.go:707-763 | the id and name of a host are those of its last sample |
| `VmDestinations.ServiceNameMeaning` | pkg/proxy/http/vmservicemap.go:501-507 | the name of a service is the last element of its container path, closing slashes aside |
| `VmDestinations.CollectServices` | pkg/proxy/http/vmservicemap.go:522-585 | exactly the active service containers, with exactly their parsed listeners in address order, named by their container and described by their host |
| `VmDestinations.NewDestinationResolver` | pkg/proxy/http/vmservicemap.go:616-631 | the index maps each address to exactly the instances listing it and each instance to its services |
| `VmDestinations.UniqueByContainer` | pkg/proxy/http/vmservicemap.go:691-701 | computes Unique, which names the same containers, each once |
| `VmDestinations.Unique` | pkg/proxy/http/vmservicemap.go:691-701 | the same container names, pairwise different |
| `VmDestinations.ClassOf` | pkg/proxy/http/vmservicemap.go:663-680 | the class of a service is that of its first matching listener |
| `VmDestinations.Resolve` | pkg/proxy/http/vmservicemap.go:641-689 | computes ResolveIn on the index |
| `VmDestinations.BuildResolver` | pkg/proxy/http/vmservicemap.go:304-345 | the resolver used by the service map is built from the four series as stated above |
| `VmDestinations.ClassifyTakesFirst` | pkg/proxy/http/vmservicemap.go:663-680 | the reaching listener with the least address decides: bound to the destination host, or to an unspecified address |
| `VmDestinations.PickMeaning` | pkg/proxy/http/vmservicemap.go:681-687 | a container is picked if and only if it is the only exact one, or the only wildcard one with none exact |
| `VmDestinations.OwnerMeaning` | pkg/proxy/http/vmservicemap.go:652-659 | an owner is found if and only if one instance alone lists the address |
| `VmDestinations.ResolveMeaning` | pkg/proxy/http/vmservicemap.go:641-689 | an owner is named if and only if one instance alone lists the address; a container if and only if it alone there is bound to the destination host and port, or alone to an unspecified address with none bound to the host; stated on the input samples |
| `VmDestinations.ResolveNames` | pkg/proxy/http/vmservicemap.go:661-687 | a resolved destination carries the reported id and name of its owner and the name of its container |
| `VmDestinations.ResolveIgnoresOrder` | pkg/proxy/http/vmservicemap.go:522-763 | the order of the samples changes neither owner nor container |
| `VmServiceMap.Absorb` | pkg/proxy/http/vmservicemap.go:346-380 | a loop over one series applies each counted sample to its own edge and nothing else |
| `VmServiceMap.FoldedTotals` | pkg/proxy/http/vmservicemap.go:346-437 | an edge gains exactly the sum of the samples that name it |
| `VmServiceMap.FoldedLatency` | pkg/proxy/http/vmservicemap.go:401-409 | the last counted sample of a series decides the latency of its edge |
| `VmServiceMap.IndexByEdge` | pkg/proxy/http/vmservicemap.go:798-804 | for every identity the sum of all samples that carry it |
| `VmServiceMap.AddProtocol` | pkg/proxy/http/vmservicemap.go:383-409 | one application protocol: the edges carry the totals and the latency of all passes so far, and the covered pairs are those with a counted request |
| `VmServiceMap.BuildEdges` | pkg/proxy/http/vmservicemap.go:383-437 | all edges come from the passes over application, gRPC and tcp samples, with their request totals, error totals and latency; the covered pairs are exactly those with a counted application request |
| `VmServiceMap.SumByContainerPair` | pkg/proxy/http/vmservicemap.go:783-789 | byte totals per pair |
| `VmServiceMap.PlaceBytes` | pkg/proxy/http/vmservicemap.go:441-451 | the bytes of a pair go to one edge of it with the most requests |
| `VmServiceMap.Emit` | pkg/proxy/http/vmservicemap.go:453-462 | one row per edge that has requests or errors, with rounded counts |
| `VmServiceMap.SortRows` | pkg/proxy/http/vmservicemap.go:463-471 | a permutation in the order of the comparison |
| `GoStrings.LessMeaning` | pkg/proxy/http/vmservicemap.go:463-471 | one string is less than another if and only if it is a proper prefix of it or smaller where they first differ |
| `VmServiceMap.WholeCount` | pkg/proxy/http/vmservicemap.go:834-842 | rounds to a whole number but never a positive count to nothing |
| `VmServiceMap.MapTraffic` | pkg/proxy/http/vmservicemap.go:383-471 | the rows before the cut, with the witnesses the theorems speak about |
| `VmServiceMap.BuildServiceMap` | pkg/proxy/http/vmservicemap.go:304-484 | resolver, edges, bytes, order and the cut at 5000 rows, which leaves out no row with more requests than one it sends |
| `VmServiceMapTheorems.TcpEdgeUncovered` | pkg/proxy/http/vmservicemap.go:420-437 | a tcp edge exists only for a pair without application requests |
| `VmServiceMapTheorems.ApplicationEdgeRequests` | pkg/proxy/http/vmservicemap.go:383-409 | an application edge counts exactly the requests of its protocol that name it |
| `VmServiceMapTheorems.TcpEdgeRequests` | pkg/proxy/http/vmservicemap.go:420-437 | a tcp edge counts exactly the uncovered connects that name it |
| `VmServiceMapTheorems.ApplicationEdgeErrors` | pkg/proxy/http/vmservicemap.go:395-419 | an application edge has exactly the failures of its protocol that name it and, for http, the gRPC failures |
| `VmServiceMapTheorems.TcpEdgeErrors` | pkg/proxy/http/vmservicemap.go:430-437 | a tcp edge has exactly the uncovered failed connects that name it |
| `VmServiceMapTheorems.ApplicationEdgeLatency` | pkg/proxy/http/vmservicemap.go:400-409 | an application edge and its row have the summed durations of their identity over the last counted duration count, in milliseconds |
| `VmServiceMapTheorems.TcpEdgeLatency` | pkg/proxy/http/vmservicemap.go:420-429 | the same for a tcp edge over the uncovered connects |
| `VmServiceMapTheorems.NoTcpBesideApplication` | pkg/proxy/http/vmservicemap.go:383-437 | no pair has both a tcp edge and an application edge with requests |
| `VmServiceMapTheorems.BytesOncePerPair` | pkg/proxy/http/vmservicemap.go:439-462 | if a pair has requests, exactly one emitted row of it carries its byte totals and no row of it has more requests |
| `VmServiceMapTheorems.ApplicationSampleCounted` | pkg/proxy/http/vmservicemap.go:383-462 | every positive application sample that draws an edge is summed into exactly its edge, which is emitted with at least one request |
| `VmServiceMapTheorems.ConnectSampleCounted` | pkg/proxy/http/vmservicemap.go:420-462 | the same for a connect of an uncovered pair |
| `VmServiceMapTheorems.RequestsConserved` | pkg/proxy/http/vmservicemap.go:383-437 | the requests of all edges together equal the counted samples together |
| `VmServiceMapTheorems.ErrorsConserved` | pkg/proxy/http/vmservicemap.go:395-437 | the errors of all edges together equal the counted failures together: application, gRPC and uncovered connects |
| `VmServiceMapTheorems.CutKeepsHeaviest` | pkg/proxy/http/vmservicemap.go:463-475 | no dropped row has more requests than a kept one |
| `VmServiceMapTheorems.WholeCountMonotone` | pkg/proxy/http/vmservicemap.go:834-842 | rounding keeps the order of counts |
| `VmServiceMapSamples.DrawsMeaning` | pkg/proxy/http/vmservicemap.go:346-380 | a sample draws an edge if and only if its container is a service, no scope or slice, and it is not the container that alone serves the destination on the instance that alone owns its address |
| `VmServiceMapSamples.EdgesOfSamples` | pkg/proxy/http/vmservicemap.go:346-437 | an edge exists if and only if some sample with its labels is counted: a positive request, a failure or a positive duration count of its protocol, a gRPC failure for http, or for tcp a positive connect or failed connect of a pair without application requests |
| `VmServiceMapSamples.RequestGetsEdge` | pkg/proxy/http/vmservicemap.go:346-394 | a positive application request gets an edge if and only if its container is a service that does not call itself there |
| `VmServiceMapSamples.ApplicationTotals` | pkg/proxy/http/vmservicemap.go:383-419 | an application edge adds up the samples of its protocol with its labels: requests, errors and mean duration |
| `VmServiceMapSamples.TcpTotals` | pkg/proxy/http/vmservicemap.go:420-437 | a tcp edge adds up the positive connects and failed connects with its labels |
| `VmServiceMapSamples.RowOfEdge` | pkg/proxy/http/vmservicemap.go:453-462 | an edge is sent if and only if it has a request or an error, in one row with its rounded counts, latency and destination |
| `VmServiceMapSamples.RowsInOrder` | pkg/proxy/http/vmservicemap.go:463-471 | rows come by requests down, then source service, then destination |
| `VmServiceMapSamples.RoundNearest` | pkg/proxy/http/vmservicemap.go:458 | the nearest whole number, halves away from zero |
| `VmServiceMapSamples.WholeCountShown` | pkg/proxy/http/vmservicemap.go:834-842 | the nearest whole number, but at least one for a positive count and none otherwise |
| `VmServiceMapOrder.OrderDoesNotMatter` | pkg/proxy/http/vmservicemap.go:383-451 | the order of the samples changes neither which edges there are, nor their requests, errors and destinations, nor the byte totals of a pair |
| `VmServiceMapOrder.IdentitySumPermuted` | pkg/proxy/http/vmservicemap.go:798-804 | the summed durations of an identity do not depend on the order |
| `VmServiceMapOrder.LatencyOrder` | pkg/proxy/http/vmservicemap.go:400-429 | a latency is the same in every order of its series if and only if no duration was recorded for it or all its counted samples carry the same value |
| `Sweep.PrefixWithinAny` | pkg/proxy/discovery/proxy.go:486-499 | true if and only if the IPv4 block is a subset of one configured block |
| `Sweep.WithinTest` | pkg/proxy/discovery/proxy.go:486-499 | testing one address and the prefix lengths decides containment of the blocks |
| `Sweep.BlockFits` | pkg/proxy/discovery/sweep.go:193-225 | a block never runs past the end of the address space |
| `Sweep.IsExcluded` | pkg/proxy/discovery/sweep.go:227-234 | an address is excluded if and only if some exclusion contains it |
| `Sweep.ExpandOne` | pkg/proxy/discovery/sweep.go:208-222 | walking a block lists its host addresses and counts the excluded ones; the cursor is never used beyond the last address |
| `Sweep.ExpandCIDRs` | pkg/proxy/discovery/sweep.go:193-225 | computes Expand, with its IPv6 and size errors |
| `Sweep.Expand` | pkg/proxy/discovery/sweep.go:193-225 | never more than 65536 addresses |
| `Sweep.ExpandOutcome` | pkg/proxy/discovery/sweep.go:197-207 | expansion succeeds if and only if every CIDR is IPv4 and fits on top of the addresses kept before it; otherwise the first that does not decides between the two errors |
| `Sweep.ListedOncePerCidr` | pkg/proxy/discovery/sweep.go:193-234 | an address is listed once per CIDR of which it is a host address and never if excluded |
| `Sweep.ProbedAscending` | pkg/proxy/discovery/sweep.go:208-222 | the addresses of a block come in ascending order |
| `Sweep.KeptPlusExcluded` | pkg/proxy/discovery/sweep.go:193-234 | kept and excluded addresses together are all host addresses |
| `Sweep.MaskKeepsBlock` | pkg/proxy/discovery/sweep.go:335-341 | masking a prefix keeps its block |
| `Sweep.HandleSweep` | pkg/proxy/discovery/proxy.go:350-356 | refused if and only if some requested block leaves the configured networks; every address handed to a prober is in scope |
| `PackSigning.SplitSignatureLine` | pkg/proxy/discovery/pack.go:114-129 | the signed bytes and the number of signature lines |
| `PackSigning.SignedBytesMeaning` | pkg/proxy/discovery/pack.go:106-129 | the signed bytes are the lines that do not begin with signature, blanks and a colon, in order, less the blanks and newlines at the end; the other lines are counted |
| `PackSigning.JoinLines` | pkg/proxy/discovery/pack.go:114-129 | joining the lines of a text gives the text back |
| `PackSigning.LinesJoin` | pkg/proxy/discovery/pack.go:114-129 | splitting joined lines gives the lines back |
| `PackSigning.SignedBytesShape` | pkg/proxy/discovery/pack.go:101-104 | signed bytes have only \n endings, no signature line and no trailing white space |
| `PackSigning.SignedBytesIdempotent` | pkg/proxy/discovery/pack.go:101-104 | taking signed bytes twice is taking them once |
| `PackSigning.SignedDocumentSplits` | cmd/pack.go:133-137 | the document written by pack sign has one signature line and splits into exactly the bytes that were signed |
| `PackSigning.ResigningReplaces` | cmd/pack.go:133-137 | signing again replaces the signature |
| `PackSigning.LineEndingsDoNotMatter` | pkg/proxy/discovery/pack.go:114-129 | rewriting all line endings to \r\n or \r leaves the signed bytes and signature lines as they were |
| `WhenGuards.ParseParts` | pkg/proxy/discovery/when.go:46-53 | the inner loop parses each comparison or fails |
| `WhenGuards.ParseOrs` | pkg/proxy/discovery/when.go:45-55 | the outer loop parses each conjunction or fails |
| `WhenGuards.ParseWhen` | pkg/proxy/discovery/when.go:38-57 | the parser computes Parse |
| `WhenGuards.ReadComparison` | pkg/proxy/discovery/when.go:59-101 | a printed comparison, padded or not, reads back as itself or is refused, by the characters of its literal |
| `WhenGuards.TermRoundTrip` | pkg/proxy/discovery/when.go:46-101 | a printed conjunction reads back if and only if each literal holds no quote, no && and, after !=, no == |
| `WhenGuards.GuardRoundTrip` | pkg/proxy/discovery/when.go:38-101 | a printed guard reads back if and only if all its literals are printable |
| `WhenGuards.ParsedIsPrintable` | pkg/proxy/discovery/when.go:38-101 | every guard the parser returns is well formed and has printable literals only |
| `WhenGuards.ParserRange` | pkg/proxy/discovery/when.go:38-101 | a guard is the result of some text if and only if it is well formed and printable, and then parsing its printed form gives it again |
| `WhenGuards.Eval` | pkg/proxy/discovery/when.go:107-132 | the loop computes EvalGuard |
| `WhenGuards.AnswerStays` | pkg/proxy/discovery/when.go:107-132 | a definite answer never changes when more facts become known |
| `WhenGuards.KnownFactsDecide` | pkg/proxy/discovery/when.go:107-132 | with every fact known the answer is the plain OR of ANDs of equal and not equal |
| `WhenGuards.EvalMeaning` | pkg/proxy/discovery/when.go:107-132 | for any facts: unknown if and only if reading left to right meets an unknown fact before an answer; true if and only if a term holds after terms that fail on known facts; false if and only if every term fails on known facts |
| `GoStrings.TrimMeaning` | pkg/proxy/discovery/when.go:39 | trimming leaves the text without white space at its ends that the rest surrounds |
| `WhenGrammar.SplitMeaning` | pkg/proxy/discovery/when.go:45-47 | splitting gives the one list of pieces without a separator that glue back to the text, each cut as early as can be |
| `WhenGrammar.ComparisonMeaning` | pkg/proxy/discovery/when.go:59-101 | a text is read as a comparison if and only if it is a known fact, the operator and a literal in matching quotes, with white space around each; the literal has no quote and, after !=, no == |
| `WhenGrammar.ParseMeaning` | pkg/proxy/discovery/when.go:38-57 | a text is read as a guard if and only if it is such comparisons joined by the and sign, and these by the or sign, and then as the guard it spells; every other text is refused |
| `ShellQuote.IndexIsFirst` | pkg/proxy/db/proxy.go:386-391 | the flag is taken at its first occurrence |
| `ShellQuote.ReadQuoted` | pkg/proxy/db/proxy.go:404-427 | the loop over a single-quoted argument ends and computes Unquoted |
| `ShellQuote.ReadArgument` | pkg/proxy/db/proxy.go:392-435 | the argument that begins the text, quoted either way or plain |
| `ShellQuote.ExtractFlagArg` | pkg/proxy/db/proxy.go:386-435 | the argument after the flag, empty when there is none |
| `ShellQuote.UnquotedEscaped` | pkg/proxy/db/proxy.go:404-427 | unquoting undoes shell quoting of any text, and what it reads when the tail continues the word |
| `ShellQuote.DoubleQuotedArgument` | pkg/proxy/db/proxy.go:396-403 | a double-quoted argument ends at its first double quote |
| `ShellQuote.PlainArgument` | pkg/proxy/db/proxy.go:429-435 | a plain word after the flag is taken as it is, up to white space |
| `ShellQuote.ArgumentRecovered` | pkg/proxy/db/proxy.go:386-435 | a quoted argument is recovered; non-empty text if and only if the quoting is intact: nothing continues a single-quoted word and a double-quoted one holds no double quote |
| `ShellQuote.WrappedQuery` | pkg/proxy/db/proxy.go:312-353 | mariadb, mysql, sqlcmd and psql command lines give their query back, in either quoting, under the same exact condition |
| `ShellQuote.WrappedCopy` | pkg/proxy/db/proxy.go:318-331 | psql's copy command gives the SQL between its outer parentheses, whatever parentheses the SQL holds |
| `ShellQuote.WrappedForSqlplus` | pkg/proxy/db/proxy.go:368-373 | sqlplus with the flag gives the query without its closing semicolons and blanks |
| `ShellQuote.HereString` | pkg/proxy/db/proxy.go:374-377 | sqlplus with a here-string gives the quoted query, whatever quotes it holds |
| `ShellQuote.EchoPiped` | pkg/proxy/db/proxy.go:355-363 | echo piped into sqlplus gives the quoted query, whatever quotes it holds |
| `ShellQuote.WithoutFlag` | pkg/proxy/db/proxy.go:312-353 | a client command without its flag stays as it is, trimmed |
| `ShellQuote.SqlplusWithoutQuery` | pkg/proxy/db/proxy.go:367-378 | so does sqlplus without flag and here-string |
| `ShellQuote.WithoutClient` | pkg/proxy/db/proxy.go:307-381 | so does any text that names no client |
| `Backoff.FindCeiling` | pkg/ws/client.go:155-162 | the doubling loop computes min(limit, base * 2^attempt) with no overflow, for every 64-bit limit and non-negative base |
| `Backoff.ReconnectWait` | pkg/ws/client.go:151-170 | the wait is drawn from 0 up to that ceiling |
| `Backoff.CeilingMonotone` | pkg/ws/client.go:151-162 | more attempts never shorten the longest wait |
| `Backoff.Client.SessionEnded` | pkg/ws/client.go:135-140 | the counter starts over after a session that held and grows by one otherwise; the wait is bounded by its ceiling |
| `Backoff.RestartsAfterHolding` | pkg/ws/client.go:120-140 | after a history in which some session held, the counter is the number of sessions since the last one that did, that one included |
| `Backoff.GrowsWithoutHolding` | pkg/ws/client.go:120-140 | after a history in which none held, the counter is the number of sessions |

## Left out

- Assumed of the surroundings: the MCP server never assigns a session id twice, each Register brings a proxy that was not registered before, and each dial makes a new client. These are the enabling conditions of the steps.
- The clock is read once in each locked section; the source reads it up to twice there, nanoseconds apart.
- MCP: message bodies, SSE framing, stdio transport and authentication. A session the server opened although its reply was lost or unreadable is not known to the agent and not in the model.
- Verify: the signature, base64, the JSON envelope and the comparison of signed fields are one input, `signed`; the disabled mode accepts everything and has no state.
- The table in the verifier is bounded only by eviction passes; the bound is stated in TableHoldsRecentNonces, and not as a fixed maximum, since many nonces may fall into ten minutes.
- Registry: the number of health workers, latency, error redaction and classification, and metadata collection. Whether an error is the caller's own is an input.
- SSH: command execution, output limits, static mode and the keepalive exchange. Each pool operation is one step; the order in which it takes the two locks is not modelled.
- GetPooledClient: the address is host:port and never empty, because its callers join the two; an empty key would escape eviction.
- ConfigSync: overlapping syncs, secret providers and credential stores. Whether a configuration is accepted is an input, as a function of the configuration, and so is the integer parser. The database type a db proxy is built with is not modelled.
- Service map: queries and presentation fields such as images, application types and display names. Floating point is modelled on reals with rounding half away from zero.
- CollectHosts: the order of a host's addresses and its own listeners, which nothing here reads.
- CollectServices: the order of the service list, and the image and application types of a service.
- BuildServiceMap: the order of the host and service lists in the answer.
- IndexByEdge: the identity is the tuple of labels; the source joins them with a NUL byte, and labels are taken to hold none.
- SortRows: the order of rows that compare equal is not promised, as with sort.Slice.
- Address parsing is the parameter `net` of the resolver, so the theorems hold for every parser.
- Sweep: probing, DNS, ARP and rate limits. An IPv6 prefix is one value, because sweeps refuse it and it matches nothing.
- PackSigning: key handling and the YAML of packs. A signature is any text without line breaks, as base64 is.
- SanitizeQuery: only ASCII text, because lowering other text can move positions. Its comment says that other queries are returned unchanged; the code trims them, and so does the model.
- FindCeiling: a negative base is computed with wrap-around but only its range is stated.
- Kafka, Mongo, Redis and LDAP handlers, database metadata queries, command line, installation and logging.
