# Verified model of the submcp gateway core

submcp puts many upstream MCP servers behind one endpoint. This project models the parts of it whose
correctness is not visible in any one function, and proves what they promise: over every
interleaving of the concurrent parts, every history of the stateful ones, and every input of the
string algorithms. `dafny verify dfyconfig.toml` checks all of it with Dafny 4.11.

Where the program changes state, the model does: the connection pool, the rate limiter, the circuit
breaker, the tool cache, the usage table and the header store are classes whose methods are the
program's critical sections or statements, and loops are loops. Each method is proved against a
specification, mostly a step of a state machine or a function of the old state, and the lemmas are
about that specification.

| files | what they model |
|---|---|
| `PoolProtocol`, `PoolInvariants`, `PoolTheorems`, `PoolService`, `Pool` | the upstream connection pool: a state machine in which every critical section is one step and in-flight calls own what they took, its inductive invariant, its promises, whom it serves and whom it refuses, and the stacks, counters and semaphores that refine it |
| `ToolNames`, `RoutingModel`, `Routing` | tool names `server__tool`, overrides, the route map and the target of a call |
| `ToolValues`, `ToolListing` | the list of a namespace: what it has to show, and how it is made in place from cached tools that all namespaces share |
| `FetchProtocol`, `ToolCache`, `ForgottenServer` | single-flight fetches of a server's tools, and what is cached after a server was forgotten |
| `Pagination` | following an upstream's pages of tools |
| `LimiterModel`, `LimiterService`, `RateLimiter` | the token-bucket limiter with its bounded table |
| `BreakerModel`, `Breaker`, `ServerHealth` | the circuit breaker, and what interleaved listings, calls and refreshes of one server do to it together with the tool cache |
| `UsageCap` | the daily cap, two statements per caller |
| `RedactionModel`, `RedactionTrials`, `Redaction`, `Text` | removing credentials from text by repeated replacement |
| `EventStreamModel`, `EventStreamAnswers`, `EventStream` | reading a message from an event stream (WHATWG HTML Living Standard, section 9.2.6) |
| `Secrets`, `Reseal`, `IdealBox` | sealed tenant credentials, their boot-time migration, and a box that meets the laws assumed of the AEAD |
| `Counting`, `Results` | sizes of sets, sums over maps, Option and Result |

Clocks, nonces, cursors, fetch results and the acts of other writers are inputs. JSON escaping, the
JSON-RPC id test and the AEAD are function parameters; the AEAD is assumed ideal (`Secrets.Ideal`):
it opens what it sealed, for the same associated data only, and a sealed text contains no colon
(`IdealBox.IdealBoxExists` gives one). JSON escaping is taken never to shorten a text.
Tokens and times are real numbers.

## What the proofs found

Where the code does not do what its comments or a natural reading promise, the model follows the
code, a lemma names an input, and another lemma says exactly when the promise holds.

- Idle reuse checks no cap, so under any limits some run takes `activeTotal` above `maxTotal`
  (`ReuseCanExceedGlobalCap`); a run keeps the cap exactly if each of its reuses starts below it
  (`GlobalCapHoldsExactlyIf`). The per-server cap survives because parked and in-use connections are
  bounded together (`ServerCapIsGlobal`), so the "pool full, close the connection" branches of
  `Release` and `ReleaseSession` are never taken (`ReleaseNeverCloses`).
- The breaker's comment promises one probe after the cooldown; the code grants two, since the move to
  half-open does not count as a probe. If neither is reported back, the circuit refuses everything
  for ever (`GrantedIsQuota`, `SpentExactlyIf`, `SpentUntilReported`).
- That happens to a healthy upstream. A listing asks the breaker before it looks at its cache and never
  reports back on that; only its fetch, if there is one, asks again and reports. So two listings after
  the cooldown spend both probes, if both answer from a cache entry less than 60 seconds old (the
  cooldown is 30 seconds), or if both have recent routes and ask before either fetches
  (`HealthyServerGetsStuck`, `OverlappingListingsLose`). From then on the server is left out of every
  list and every call to it is refused (`StuckForGood`, `LostForGood`). Over every interleaving this
  happens exactly when a listing takes the last probe, or a client goes away, with no request left to
  report (`LostExactlyIf`). A tenant's server comes back when its owner updates it
  (internal/mcp/tenant_api.go:514); an operator's server is never forgotten, so it stays refused until
  the process restarts.
- A fetch that is under way when its server is forgotten stores the tools of the old settings
  afterwards, and they answer later calls (`FetchOutlivesForget`, `OldAfterForgetExactlyIf`).
- Two first calls of a day at once can refuse a caller who is under the daily cap, and so can midnight
  between the two statements of a call (`FirstCallRace`, `RefusedExactlyIf`). On their own the two
  statements would grant one call a day under a cap below one (`CapHoldsIffPositive`); the only caller
  does not get there with such a cap (internal/mcp/tenant.go:78).
- Redaction can rebuild a credential: after a mask, the rest of an overlapping echo completes it
  (`OverlappingEcho`). What `redactSecrets` returns is free of credentials for every message exactly if it
  is for finitely many trial messages, chains of such echoes that can be computed from the credentials
  (`TrialsDecide`, `RedactionCompleteExactlyIf`). For a credential with one spelling, and for a token
  after a scheme, that means that the four shown characters do not overlap the beginning of the
  credential or token (`CompleteExactlyIf`, `SchemeCompleteExactlyIf`). For all headers together it is
  enough that no spelling without another spelling in it begins with the rest of a tail shown by one
  that is not longer (`RedactSecrets`). `CleanExactlyIfNeverRecreated` is the stricter condition that no
  pass brings anything back even for a while.
- A second run of the migration rewrites no row that the program wrote (`SecondRunRewritesNothing`),
  since header names are validated (internal/mcp/tenant_api.go:687) and sealed bodies are base64url. The
  listing query alone would list a row again for the text `enc:v1:` in a name or inside a value of the
  second format (`SecondRunIsIdle`).
- The compare-and-set of the migration does not look at the owner of a row. It keeps the meaning of
  the row exactly if the owner is still the one that was read or nothing was sealed anew
  (`WriteKeepsMeaning`); no statement of the program changes the owner of a tenant's server.
- A server whose sanitized name is empty lists tools that can never be called
  (`EmptyPrefixIsUncallable`). A name that contains `__` or ends in `_` loses its own tools, overridden or
  not, and takes calls meant for other servers: `a_` with a tool `x` and `a` with a tool `_x` both list
  `a___x` (`NeighbourTakesCall`, `UnderscoreTakesCall`; an operator's server name is only checked for not
  being blank, internal/ui/ui.go:615). `AlwaysResolvesExactlyIf` says exactly which listed names are
  called back under every sound route map, `BuiltRoutesResolveExactlyIf` under the one that was built.
- A comment says that an inactive tool must be refused on the call path. On an operator's server it
  is refused only under the name that its mapping gives it (`InactiveExactlyIf`,
  `InactiveOverrideIsRefused`); under its raw name the call goes through (`HiddenIsRefusedExactlyIf`).
- A payload that is read from an event stream loses the carriage returns at the ends of its lines
  (`ArrivesExactlyIf`). The reader's error for an event begun but not completed cannot occur.

## Model

| member | source | states |
|---|---|---|
| `PoolInvariants.RunKeepsInv` | internal/mcp/pool.go:188-375 | the invariant (counts equal owners, caps, one place per client) holds at every moment of every interleaving |
| `PoolInvariants.StepKeepsInv` | internal/mcp/pool.go:134-375 | every critical section, and every semaphore operation outside the lock, keeps the invariant |
| `PoolTheorems.TenantTokensAreOwned` | internal/mcp/pool.go:134-172 | a tenant's semaphore count is its attached clients plus its in-flight calls with a token, within the per-tenant cap; the tenant count is attached tenant clients plus calls with a budget unit, within the budget |
| `PoolTheorems.ReceiveUnderLockNeverBlocks` | internal/mcp/pool.go:279-286 | at every moment inside a release, whatever other calls send to and receive from the semaphores meanwhile, the token of a client still held is there |
| `PoolTheorems.InnerKeepsInv` | internal/mcp/pool.go:134-172 | the invariant also holds between two receives of one section, with semaphore operations of other calls in between |
| `PoolTheorems.ReservationsAreConserved` | internal/mcp/pool.go:208-267 | per-server in-use counts are attached clients plus reservations whose factory runs; the total is their sum; the map has no zero entries |
| `PoolTheorems.ClampNeverFires` | internal/mcp/pool.go:253-267 | a rollback and a release return exactly one connection each, a session's release exactly as many as it holds |
| `PoolTheorems.ServerCapIsGlobal` | internal/mcp/pool.go:191-218 | parked plus in-use connections of a server never exceed the per-server cap, over all sessions |
| `PoolTheorems.ReleaseNeverCloses` | internal/mcp/pool.go:329-342 | every released client is parked; the branches that close it are never taken |
| `PoolTheorems.ReleaseEachParks` | internal/mcp/pool.go:346-368 | releasing a session parks exactly its clients and leaves every other checkout as it was |
| `PoolTheorems.OperatorHeadroom` | internal/mcp/pool.go:119-126 | an acquire finds the pool full exactly if nothing can be reused and operator and tenant use reach the cap; below the cap minus the tenant budget operators never do |
| `PoolTheorems.FirstCheckoutsAreBounded` | internal/mcp/pool.go:204-218 | connections in their first checkout plus running reservations never exceed the global cap |
| `PoolTheorems.GlobalCapHoldsExactlyIf` | internal/mcp/pool.go:191-218 | a run keeps the total within the global cap at every moment exactly if each idle reuse in it starts below the cap |
| `PoolTheorems.ReuseCanExceedGlobalCap` | internal/mcp/pool.go:191-202 | for any limits, a run in which idle reuse takes the total above the global cap |
| `PoolTheorems.ClientInOnePlace` | internal/mcp/pool.go:288-293 | a client that is checked out is not parked and is not handed out again |
| `PoolTheorems.ReusedOnlyForItsServer` | internal/mcp/pool.go:191-202 | a client created for one server is only handed to acquires for that server |
| `PoolTheorems.MadeIsForGood` | internal/mcp/pool.go:231-241 | what a client was created for never changes |
| `PoolTheorems.QuiescentPoolHoldsNothing` | internal/mcp/pool.go:245-286 | with no call in flight and nothing checked out every counter and semaphore is at zero |
| `PoolService.VerdictExactlyIf` | internal/mcp/pool.go:191-218 | in every state an acquire reuses exactly if something is parked for its server, finds the pool full exactly if all use reaches the global cap, finds the server full exactly if its use is at its cap, and reserves in every other case |
| `PoolService.AcquireStepOnlyIf` | internal/mcp/pool.go:204-218 | every run reserves or refuses only then |
| `PoolService.OperatorNeverWaits` | internal/mcp/pool.go:119-126 | an operator's acquire never waits for a token or a budget unit |
| `PoolService.BeginsLikeThis` | internal/mcp/pool.go:177-186 | a call begins without any effect on what others hold |
| `PoolService.TokenExactlyIf` | internal/mcp/pool.go:134-140 | a tenant call can have a token exactly while its tenant's connections and calls are below the per-tenant cap |
| `PoolService.BudgetExactlyIf` | internal/mcp/pool.go:151-157 | it gets a budget unit exactly while all tenants together are below the budget |
| `PoolService.ParkedSinceRelease` | internal/mcp/pool.go:331-336 | a parked client has been parked since some release, at the time it carries |
| `PoolService.SweptExactlyIf` | internal/mcp/pool.go:378-404 | a sweep drops exactly the clients released more than the TTL ago, and touches nothing else |
| `PoolService.StartupLimitsAre` | internal/mcp/pool.go:64-118 | configured limits count where they make sense; otherwise 100, 5, 3 and a 30 percent share |
| `Pool.SwapRemoveKeepsRest` | internal/mcp/pool.go:317-326 | removal by swap-with-last loses and duplicates nothing |
| `Pool.Pool.constructor` | internal/mcp/pool.go:74-118 | the empty pool with the startup limits |
| `Pool.Pool.Begin` | internal/mcp/pool.go:177-186 | a tenant call looks its semaphore up, creating it on first use |
| `Pool.Pool.TryToken` | internal/mcp/pool.go:135-140 | a token is taken exactly while the semaphore has room |
| `Pool.Pool.TryBudget` | internal/mcp/pool.go:151-157 | a budget unit is taken, or the call goes on its way out when the budget is spent |
| `Pool.Pool.ReturnBudgetUnit` | internal/mcp/pool.go:158-164 | a call that hands nothing out returns its budget unit |
| `Pool.Pool.ReceiveToken` | internal/mcp/pool.go:285 | the receive takes one token, which is there |
| `Pool.Pool.ReturnSlot` | internal/mcp/pool.go:144-149 | a call that hands nothing out returns its token |
| `Pool.Pool.IncActiveLocked` | internal/mcp/pool.go:245-248 | both counters go up by one |
| `Pool.Pool.DecActiveLocked` | internal/mcp/pool.go:253-267 | the counters go down by the clamped number and an entry at zero goes |
| `Pool.Pool.AttachLocked` | internal/mcp/pool.go:269-274 | the client goes on top of the session's stack for its server |
| `Pool.Pool.TakeOverIdle` | internal/mcp/pool.go:192-198 | the top idle client moves to the session's stack with the flags of the call |
| `Pool.Pool.ReuseIdleLocked` | internal/mcp/pool.go:191-202 | the top idle client is taken over by the call: the reuse step of the machine |
| `Pool.Pool.ReserveLocked` | internal/mcp/pool.go:204-218 | full pool, full server, or a reservation, decided as the machine decides |
| `Pool.Pool.AcquireLocked` | internal/mcp/pool.go:188-219 | the first critical section of an acquire is one step of the machine |
| `Pool.Pool.AttachNew` | internal/mcp/pool.go:231-241 | a client from the factory is attached with what its call owns |
| `Pool.Pool.RollBackReservation` | internal/mcp/pool.go:221-230 | an error or panic in the factory returns the reservation |
| `Pool.Pool.ReleaseTenantLocked` | internal/mcp/pool.go:279-286 | a tenant client gives back its budget unit and its token, and loses its flag |
| `Pool.Pool.ParkLocked` | internal/mcp/pool.go:331-336 | the client is parked if its server has room |
| `Pool.Pool.IndexOf` | internal/mcp/pool.go:302-308 | the position of a client in a stack, found by identity |
| `Pool.Pool.DetachLocked` | internal/mcp/pool.go:315-327 | the client leaves its stack; empty stacks and sessions go |
| `Pool.Pool.Release` | internal/mcp/pool.go:294-343 | a release is one step of the machine and never closes; a client not held by the session and server changes nothing |
| `Pool.Pool.ReleaseSession` | internal/mcp/pool.go:346-375 | all clients of the session are released, one after the other in the order walked, and none is closed |
| `Pool.Pool.SplitExpired` | internal/mcp/pool.go:382-389 | a stack splits into what is kept, in order, and what expired |
| `Pool.Pool.SweepServer` | internal/mcp/pool.go:381-395 | the stack of one server keeps what is not expired; an empty stack goes |
| `Pool.Pool.SweepExpired` | internal/mcp/pool.go:378-404 | exactly the idle clients past the TTL are dropped, and they are the ones to close |
| `ToolNames.SplitsAtPrefix` | internal/mcp/aggregator.go:145-151 | a name splits at its server prefix exactly if the prefix is empty or neither holds nor begins a separator |
| `ToolNames.ParseUndoesName` | internal/mcp/aggregator.go:139-151 | parsing undoes naming exactly for such server names, whatever the tool name |
| `ToolNames.SanitizedCharacters` | internal/mcp/aggregator.go:132-137 | only allowed characters of the name are left, and a name made of them is unchanged |
| `ToolNames.SanitizeAppends` | internal/mcp/aggregator.go:132-137 | sanitizing works on every part by itself and keeps or drops a single character |
| `ToolNames.ParsedParts` | internal/mcp/aggregator.go:145-151 | a name is what it was parsed into, cut at its first separator, or it has none |
| `ToolNames.SeparatorIndex` | internal/mcp/aggregator.go:146 | the first separator |
| `RoutingModel.AlwaysResolvesExactlyIf` | internal/mcp/aggregator.go:299-390 | a listed tool, overridden or not, is called back by every sound route map exactly if its server's name parses, the listed name prevails among the overrides, and it is an override or no other server's prefix begins it |
| `RoutingModel.ResolvesExactlyIf` | internal/mcp/aggregator.go:340-374 | by one route map, for a server whose name parses: exactly if the name prevails and is an override or leads to the server |
| `RoutingModel.ListedResolvesExactlyIf` | internal/mcp/aggregator.go:223-283 | among servers whose names all parse: exactly if the name prevails, for any sound route map |
| `RoutingModel.MisparsedIsLost` | internal/mcp/aggregator.go:145-151 | a server whose name does not parse is not called back under any listed name without routes |
| `RoutingModel.NeighbourTakesCall` | internal/mcp/aggregator.go:358-374 | another server whose prefix begins the name takes the call by some sound routes, and its own name does not parse |
| `RoutingModel.EveryListedNameResolves` | internal/mcp/aggregator.go:299-390 | with distinct, parsing server names and overrides apart, every listed name goes to the server and raw tool it came from |
| `RoutingModel.EmptyPrefixIsUncallable` | internal/mcp/aggregator.go:300-303 | under an empty sanitized server name no listed name can be called |
| `RoutingModel.InactiveExactlyIf` | internal/mcp/aggregator.go:340-356 | under any routes a name is refused as inactive exactly if the last mapping that shows it is inactive; if that one is active the call is for its tool |
| `RoutingModel.InactiveOverrideIsRefused` | internal/mcp/aggregator.go:340-350 | so an inactive tool is refused under the name its mapping gives it, on any server |
| `RoutingModel.MissingPrefixExactlyIf` | internal/mcp/aggregator.go:300-303 | only an empty name or one that begins with the separator has no server part |
| `RoutingModel.EveryTargetIsJustified` | internal/mcp/aggregator.go:376-407 | whatever name, mappings and routes: a call is dispatched only to a server of the namespace with a URL, and on a tenant's server never to a disabled tool |
| `RoutingModel.VisibleExactly` | internal/mcp/aggregator.go:230-244 | a tool is hidden exactly if its mapping is inactive, and else shown under the override or its own name |
| `RoutingModel.HiddenIsRefusedExactlyIf` | internal/mcp/aggregator.go:398-407 | a hidden tool called by its raw name, which no other server's prefix begins, is refused on a tenant's server and dispatched on an operator's |
| `RoutingModel.RoutesBack` | internal/mcp/aggregator.go:358-374 | route map and prefix fallback agree on the server of a name that parses and that no other prefix begins |
| `Routing.BuildRouteMap` | internal/mcp/aggregator.go:679-734 | each offered name leads to the first server that answered with it; cacheable exactly if no server failed; fails only if nothing was found and one did |
| `Routing.AddRoutes` | internal/mcp/aggregator.go:709-716 | a server adds exactly the names that no earlier one has |
| `Routing.BuiltRoutesAreSound` | internal/mcp/aggregator.go:709-716 | such a route map leads from a name only to a server with its prefix |
| `Routing.BuiltRoutesResolveExactlyIf` | internal/mcp/aggregator.go:689-716 | by the routes that were built: exactly if the name prevails and is an override or no other server offered it first |
| `Routing.UnderscoreTakesCall` | internal/mcp/aggregator.go:709-716 | two servers for which a listed name goes to the other one |
| `Routing.ReverseOverrides` | internal/mcp/aggregator.go:319-338 | the table holds for each server prefix and shown name the last mapping that shows it |
| `Routing.CallTarget` | internal/mcp/aggregator.go:299-407 | the loops of a call find exactly the target of the model, with or without routes |
| `Routing.IsDisabled` | internal/mcp/aggregator.go:1017-1028 | some inactive mapping names the tool of the server |
| `ToolListing.PrefixTools` | internal/mcp/aggregator.go:660-674 | copies with prefixed names; their annotations are new, equal and shared with nothing |
| `ToolListing.ApplyAnnotationOverrides` | internal/mcp/aggregator.go:642-657 | a present hint replaces the old one in place, the title stays |
| `ToolListing.EditTool` | internal/mcp/aggregator.go:237-281 | the value after the in-place edits is the setting applied to the value before |
| `ToolListing.ShowTool` | internal/mcp/aggregator.go:225-283 | a tool is dropped, passed through or edited as its mapping says |
| `ToolListing.ListServerTools` | internal/mcp/aggregator.go:223-284 | the list is what the settings make of the cached tools; the cache keeps its value and shares nothing with the list |
| `ToolListing.ListForMany` | internal/mcp/aggregator.go:660-674 | over any sequence of listings by any namespaces each list depends on its own settings only, and neither the cache nor an earlier list changes |
| `ToolListing.ListTools` | internal/mcp/aggregator.go:154-296 | the whole list before sorting: one entry for each visible tool of each server that was asked and answered, in order, with its visible name and what is set for it, and nothing else; it fails exactly without routes, or if there is nothing to show and a server that was asked failed |
| `ToolValues.ShownByServersLists` | internal/mcp/aggregator.go:282 | no tool is lost, repeated or taken from a server with an open circuit |
| `ToolValues.EditedFits` | internal/mcp/aggregator.go:245-279 | what a setting changes and what it leaves: title, description, each hint, and no empty hints |
| `ToolListing.BuildTable` | internal/mcp/aggregator.go:178-188 | the lookup of settings by server and tool |
| `ToolValues.TableHoldsLast` | internal/mcp/aggregator.go:185-188 | of several mappings for a tool the last one counts |
| `ToolValues.ShownIsVisible` | internal/mcp/aggregator.go:230-244 | what is shown of a tool carries its visible name, and a hidden tool is not shown |
| `ToolValues.ListedNamesCallBack` | internal/mcp/aggregator.go:223-390 | list and call agree: each entry of a server's list is called back on that server as the tool it shows |
| `FetchProtocol.RunKeepsInv` | internal/mcp/aggregator.go:478-535 | the single-flight invariant holds after every run of any number of calls |
| `FetchProtocol.InFlightExactlyWhileFetching` | internal/mcp/aggregator.go:488-516 | a server is in flight exactly while one call is its fetcher, and there is no second one |
| `FetchProtocol.NoWaiterIsForgotten` | internal/mcp/aggregator.go:498-516 | a group is completed at most once; a waiter can go on, or the owner of its group can |
| `FetchProtocol.QuiescentAfterAll` | internal/mcp/aggregator.go:511-516 | once all calls have finished nothing is in flight and each group was completed exactly once |
| `FetchProtocol.AnswersWereFetched` | internal/mcp/aggregator.go:518-534 | every cached entry and every answer was returned by a successful fetch or refresh for that server |
| `FetchProtocol.FailuresKeepTheCache` | internal/mcp/aggregator.go:518-529 | however many fetches and refreshes fail, the cached tools stay as they are |
| `ForgottenServer.OldAfterForgetExactlyIf` | internal/mcp/aggregator.go:531-533 | after a server was forgotten, tools of its old settings are cached exactly if the last write of its entry was by a call that fetched them with the old settings |
| `ForgottenServer.LaterAnswersAreNew` | internal/mcp/aggregator.go:478-535 | while no such call stores, no later call is answered with tools of the old settings |
| `ForgottenServer.FetchOutlivesForget` | internal/mcp/aggregator.go:993-996 | a run in which one does |
| `ToolCache.Cache.LookFresh` | internal/mcp/aggregator.go:479-486 | a recent entry is the answer |
| `ToolCache.Cache.JoinFlight` | internal/mcp/aggregator.go:488-496 | the call waits for the fetch under way or becomes the fetcher |
| `ToolCache.Cache.ReadAfterWait` | internal/mcp/aggregator.go:498-508 | a waiter answers from the cache once its group is completed |
| `ToolCache.Cache.Settle` | internal/mcp/aggregator.go:519-533 | a fetched list is stored, a failed fetch falls back to the stale one |
| `ToolCache.Cache.LeaveFlight` | internal/mcp/aggregator.go:511-514 | the fetcher takes its in-flight entry away |
| `ToolCache.Cache.CompleteGroup` | internal/mcp/aggregator.go:515 | and completes its group |
| `ToolCache.Cache.FetchAlone` | internal/mcp/aggregator.go:510-534 | undisturbed, a fetcher leaves nothing in flight, a completed group, and the cache changed by a success only |
| `ToolCache.Cache.RefreshServer` | internal/mcp/aggregator.go:980-989 | a refresh replaces the entry or, failing, changes nothing |
| `ToolCache.Cache.ForgetServer` | internal/mcp/aggregator.go:993-996 | the cached tools of the server go |
| `Pagination.ListTools` | internal/mcp/upstream.go:177-257 | all pages in order or an error: it succeeds exactly if the list ends within the caps on pages, bytes and tools |
| `Pagination.PagesComeBack` | internal/mcp/upstream.go:177-257 | a list that the upstream serves in pages comes back whole, exactly if pages, bytes and tools are within the caps |
| `LimiterModel.TableIsRecentKeys` | internal/mcp/ratelimit.go:53-70 | the table lists exactly the maxKeys most recently used keys of the whole run in that order; index and list hold the same keys |
| `LimiterModel.RecentIsRecency` | internal/mcp/ratelimit.go:59-64 | in front of a key stand exactly the keys requested since its last use |
| `LimiterModel.Survival` | internal/mcp/ratelimit.go:65-69 | a key survives exactly while fewer than maxKeys other keys were requested since its last use, and that number is its position |
| `LimiterModel.SameBucket` | internal/mcp/ratelimit.go:53-84 | a surviving key that was never forgotten has the bucket it would have without a bound |
| `LimiterModel.AnswersAsUnbounded` | internal/mcp/ratelimit.go:53-84 | such a key is answered exactly as with one bucket per key for ever |
| `LimiterModel.FewKeysNeverForgotten` | internal/mcp/ratelimit.go:10-13 | while a run uses no more than maxKeys keys none is forgotten |
| `LimiterModel.TokensBounded` | internal/mcp/ratelimit.go:71-82 | a bucket holds between nothing and the burst |
| `LimiterModel.TokenBound` | internal/mcp/ratelimit.go:71-83 | between any two requests a key is granted at most burst plus rate times time, and one more burst per eviction in between |
| `LimiterService.AllowedExactlyIf` | internal/mcp/ratelimit.go:53-84 | over every history: a request is let through exactly if the burst holds a whole token and every window from a use of its key since the table last took it in can pay for one more |
| `LimiterService.BucketIsLeast` | internal/mcp/ratelimit.go:71-82 | a bucket holds at any time the least of the burst and of what these windows leave |
| `LimiterService.FirstIsAllowed` | internal/mcp/ratelimit.go:62-64 | the first request of a key is let through, if the burst holds a whole token |
| `LimiterService.RestedIsAllowed` | internal/mcp/ratelimit.go:71-83 | so is one whose key was last used long enough ago for the rate to yield a token |
| `RateLimiters.LimiterEntry.Draw` | internal/mcp/ratelimit.go:71-83 | refill, cap and draw of one bucket |
| `RateLimiters.RateLimiter.constructor` | internal/mcp/ratelimit.go:39-50 | the empty table, of at least one key |
| `RateLimiters.RateLimiter.MoveToFront` | internal/mcp/ratelimit.go:60 | the entry comes to the front, the others keep their order |
| `RateLimiters.RateLimiter.EvictBack` | internal/mcp/ratelimit.go:66-68 | the last entry goes from list and index |
| `RateLimiters.RateLimiter.Insert` | internal/mcp/ratelimit.go:63-69 | the new entry in front, and the list cut at the cap |
| `RateLimiters.RateLimiter.Lookup` | internal/mcp/ratelimit.go:58-70 | the entry of a key, found or full |
| `RateLimiters.RateLimiter.Allow` | internal/mcp/ratelimit.go:53-84 | table and answer are those of the model |
| `BreakerModel.ClosedMeansFewFailures` | internal/mcp/breaker.go:38-89 | over every run the circuit is closed exactly while fewer than five failures follow the last success |
| `BreakerModel.OpensExactlyOnTheMove` | internal/mcp/breaker.go:70-89 | a failure opens the circuit exactly if it is half-open or this is the fifth failure since a success |
| `BreakerModel.OpenedByAFailure` | internal/mcp/breaker.go:77-87 | only a failure opens the circuit, and its time starts the cooldown |
| `BreakerModel.OpenGrantsExactlyIf` | internal/mcp/breaker.go:41-48 | an open circuit lets a request through exactly if it comes more than 30 seconds after the failure that opened it |
| `BreakerModel.GrantedIsQuota` | internal/mcp/breaker.go:38-58 | between two reports exactly all, the remaining probes, or one probe more than the cap of the requests past the cooldown get through |
| `BreakerModel.SpentUntilReported` | internal/mcp/breaker.go:49-54 | with its probes spent a half-open circuit refuses every request, however late |
| `BreakerModel.SpentExactlyIf` | internal/mcp/breaker.go:38-58 | requests that nobody reports spend the probes exactly if one more of them than the cap comes after the cooldown, or the remaining ones come while half-open |
| `ServerHealth.LostExactlyIf` | internal/mcp/aggregator.go:207-214 | over every interleaving of listings, fetches, calls, reports and clients going away: a server is refused with nobody left to report exactly if some listing took the last probe, or some client went away, at a moment with no other request pending |
| `ServerHealth.LostForGood` | internal/mcp/breaker.go:49-54 | and then nothing gets through any more, whatever comes |
| `ServerHealth.OverlappingListingsLose` | internal/mcp/aggregator.go:209-214 | two listings after the cooldown that both ask before either fetches are enough, whatever the cache holds |
| `ServerHealth.ActIsMoments` | internal/mcp/aggregator.go:478-535 | an undisturbed listing, call or refresh is a run of such moments |
| `ServerHealth.StuckForGood` | internal/mcp/aggregator.go:207-214 | one after the other: a server whose probes are spent is in no list, no call to it goes out, and no listing, call or refresh changes that |
| `ServerHealth.GetsStuckExactlyIf` | internal/mcp/aggregator.go:207-219 | one after the other and all reported: a server gets stuck exactly by a listing that finds it half-open with tools or routes too recent to be fetched |
| `ServerHealth.TwoListingsSpendTheProbes` | internal/mcp/aggregator.go:478-486 | two listings after the cooldown with a recent cache entry are enough |
| `ServerHealth.HealthyServerGetsStuck` | internal/mcp/aggregator.go:478-486 | a run of eight steps that does it |
| `Breakers.Breaker.Allow` | internal/mcp/breaker.go:38-58 | state and answer are those of the model |
| `Breakers.Breaker.Success` | internal/mcp/breaker.go:61-68 | a success closes the circuit and forgets the failures |
| `Breakers.Breaker.Failure` | internal/mcp/breaker.go:73-89 | the answer is true exactly on a move into open |
| `UsageCap.StoredIsGranted` | internal/db/tenants.go:185-210 | on every interleaving the stored count is the number of granted calls, and within a cap of at least one |
| `UsageCap.CapHoldsIffPositive` | internal/db/tenants.go:198-206 | no run grants more than the cap exactly if the cap is at least one |
| `UsageCap.RefusedExactlyIf` | internal/db/tenants.go:187-209 | a call is refused exactly if the cap was reached at its first statement or another first call was inserted before its second; across midnight, exactly if the new day has a call by then |
| `UsageCap.FirstCallRace` | internal/db/tenants.go:197-209 | a run that refuses a caller under the cap |
| `UsageCap.UsageTable.TryBumpUsage` | internal/db/tenants.go:185-210 | undisturbed within a day, a call is granted exactly below the cap and then counted once |
| `RedactionModel.Origin` | internal/mcp/tenant_policy.go:466-468 | a spelling in the output of a pass was in its input, clear of what was replaced, or a mask supplied its beginning |
| `RedactionModel.CleanExactlyIfNeverRecreated` | internal/mcp/tenant_policy.go:460-470 | over every message no pass brings back a spelling removed so far, exactly if no mask lines up with the beginning of a spelling before a rest that the passes let through |
| `RedactionTrials.TrialsDecide` | internal/mcp/tenant_policy.go:465-469 | no message keeps a spelling after all passes, exactly if none of finitely many trial messages does |
| `RedactionTrials.LeftInATrial` | internal/mcp/tenant_policy.go:466-468 | a text left after the passes over some message is left after those over one of its trials |
| `RedactionModel.InnermostApartSuffices` | internal/mcp/tenant_policy.go:453-459 | it is enough that no spelling without another one in it begins with the rest of a tail shown later, and those within a tail are replaced later |
| `RedactionModel.InnermostStaysAway` | internal/mcp/tenant_policy.go:466-468 | such a spelling is gone for good once it was looked for |
| `RedactionModel.SchemeCompleteExactlyIf` | internal/mcp/tenant_policy.go:477-484 | a token after a scheme always disappears, exactly if nothing is shown or the shown tail does not overlap the beginning of the token, however the scheme begins |
| `Redaction.TailIsShorterThanSpellings` | internal/mcp/tenant_policy.go:477-498 | what lies within the shown tail of a value has fewer bytes than any spelling of the value |
| `Redaction.InnerFormComesLater` | internal/mcp/tenant_policy.go:465 | so, longest first, it is replaced after that tail has appeared |
| `RedactionModel.CompleteExactlyIf` | internal/mcp/tenant_policy.go:466-468 | a credential with one spelling always disappears, exactly if nothing of it is shown or the shown tail does not overlap its beginning |
| `RedactionModel.OverlappingEcho` | internal/mcp/tenant_policy.go:466-468 | otherwise an overlapping echo survives redaction |
| `RedactionModel.EchoOfRepeatedWord` | internal/mcp/tenant_policy.go:466-468 | a message with such an echo |
| `RedactionModel.ReplacesLeftmost` | internal/mcp/tenant_policy.go:467 | a pass replaces the leftmost occurrence and goes on after it |
| `RedactionModel.PassesDoNothing` | internal/mcp/tenant_policy.go:466-468 | a message without a spelling is left as it is |
| `Redaction.SpellingsExactly` | internal/mcp/tenant_policy.go:477-498 | looked for are exactly the value and what follows "Bearer ", "Basic " or "Token " in it, each as it is and JSON-escaped, from four bytes on |
| `Redaction.BytesOfText` | internal/mcp/tenant_policy.go:488 | one to four bytes a character, and one exactly for ASCII |
| `Redaction.SecretFormsOf` | internal/mcp/tenant_policy.go:477-498 | exactly the spellings of four bytes or more, each once, with the mask of the value |
| `Redaction.SortIsSorted` | internal/mcp/tenant_policy.go:465 | longer spellings come first |
| `Redaction.InnerSpellingComesLater` | internal/mcp/tenant_policy.go:457-459 | a spelling inside another one is replaced after it |
| `Redaction.CollectForms` | internal/mcp/tenant_policy.go:461-464 | the forms are those of all header values |
| `Redaction.SchemeSpellings` | internal/mcp/tenant_policy.go:479-497 | the spellings of a value with a scheme are the value and its token |
| `Redaction.RedactionCompleteExactlyIf` | internal/mcp/tenant_policy.go:460-470 | for the forms of any headers: no message keeps a spelling of any header, exactly if no trial does |
| `Redaction.RedactSecrets` | internal/mcp/tenant_policy.go:460-470 | the passes over all forms, longest first; if no innermost spelling begins with the rest of a tail shown by one that is not longer, neither a header value nor what follows a scheme in it is left, plain or JSON-escaped; a message without any comes back unchanged |
| `Redaction.ShortValuesAreSeparate` | internal/mcp/tenant_secrets.go:135-141 | values of fewer than sixteen characters meet that condition |
| `Redaction.SchemeValueIsSeparate` | internal/mcp/tenant_policy.go:477-484 | so does a token after a scheme that does not begin with the end of itself |
| `EventStreamModel.ReadsUnique` | internal/mcp/upstream.go:372-445 | a body has one meaning |
| `EventStreamModel.RoundTrip` | internal/mcp/upstream.go:372-445 | after any lines without an accepted or begun event, an event, written with or without a space after the colon, reads back as its payload, up to carriage returns at the ends of lines |
| `EventStreamModel.ArrivesExactlyIf` | internal/mcp/upstream.go:416-421 | the payload arrives as written exactly if no line of it ends in a carriage return |
| `EventStreamModel.SkippedBlocksLeaveNoTrace` | internal/mcp/upstream.go:401-414 | events that are not accepted do not change the answer |
| `EventStreamModel.PrintedReadsBack` | internal/mcp/server.go:788-791 | what the server prints its reader reads back |
| `EventStreamAnswers.WrongIdIsSkipped` | internal/mcp/upstream.go:401-414 | an event with another id is skipped, and the one that is waited for is read |
| `EventStreamAnswers.LastEventNeedsNoEnd` | internal/mcp/upstream.go:432-440 | an event at the end of the input needs no empty line after it |
| `EventStreamAnswers.PlainIsItself` | internal/mcp/upstream.go:372-386 | a body that begins with a brace is its own answer, up to 16 MiB |
| `EventStreamAnswers.NothingAccepted` | internal/mcp/upstream.go:432-444 | without an accepted event the error tells whether one was begun at the end |
| `EventStreamAnswers.TooLongIsRefused` | internal/mcp/upstream.go:387-389 | a line of 16 MiB ends the stream, unless an event was accepted before it |
| `EventStream.Scanner.LineEnd` | internal/mcp/upstream.go:387-389 | the end of the current line |
| `EventStream.Scanner.Scan` | internal/mcp/upstream.go:387-389 | one line at a time, up to the end or to a line too long for the buffer |
| `EventStream.ReadFirstSSEMessage` | internal/mcp/upstream.go:372-445 | the answer is the first accepted event, plain JSON, or the right error; the error for an incomplete event never occurs |
| `Secrets.AADIsInjective` | internal/mcp/tenant_secrets.go:79-83 | the associated data names one owner, one server and one header |
| `Secrets.SealedOpensInPlaceOnly` | internal/mcp/tenant_secrets.go:19-24 | a sealed value opens exactly under its own owner, server and header name |
| `Secrets.LegacyBindsNameOnly` | internal/mcp/tenant_secrets.go:143-163 | a value of the first format opens exactly under its header name, whatever owner and server |
| `Secrets.RefusalFits` | internal/mcp/tenant_secrets.go:165-188 | what a value is refused for |
| `Secrets.OpenSealedHeaders` | internal/mcp/tenant_secrets.go:165-188 | all values or none: it succeeds exactly if there is a key and every value is sealed and opens |
| `Secrets.SealHeaders` | internal/mcp/tenant_secrets.go:193-206 | every value is sealed for its place, or an error |
| `Secrets.SealThenOpen` | internal/mcp/tenant_secrets.go:165-206 | sealed headers open to what they were; under another owner or server nothing opens |
| `Secrets.MaskReveals` | internal/mcp/tenant_secrets.go:135-141 | masks tell credentials apart only by the threshold and the last four characters |
| `Secrets.MaskShows` | internal/mcp/tenant_secrets.go:135-141 | a mask is eight bullets and, from sixteen characters on, the last four |
| `Secrets.DisplayOfSealed` | internal/mcp/tenant_secrets.go:211-235 | of a sealed value no more than that is displayed, in its own place and with a key, and bullets anywhere else |
| `Secrets.DisplayOfPlain` | internal/mcp/tenant_secrets.go:211-235 | and of a plain one the same |
| `Secrets.MaskHeaders` | internal/mcp/tenant_secrets.go:211-235 | each value is shown as the mask of what it opens to, or the bare mask |
| `Secrets.MergeMaskedHeaders` | internal/mcp/tenant_secrets.go:252-273 | it succeeds exactly if every masked value matches the plaintext stored there, and keeps that |
| `Secrets.MaskAcceptedExactlyIf` | internal/mcp/tenant_secrets.go:252-273 | a mask is taken for a stored credential exactly if that is plain and both are short, or both long and alike in the last four characters |
| `Secrets.OtherValuesAccepted` | internal/mcp/tenant_secrets.go:252-273 | what does not look like a mask is always taken, and what does only if it is the stored one's |
| `Secrets.MaskThenMerge` | internal/mcp/tenant_secrets.go:211-273 | submitting the display unchanged keeps everything, exactly if nothing stored is sealed |
| `IdealBox.IdealBoxExists` | internal/mcp/tenant_secrets.go:85-124 | the laws assumed of the AEAD can be met |
| `Reseal.ResealValue` | internal/mcp/tenant_reseal.go:46-62 | a value stays, is sealed anew, or is refused for the right reason |
| `Reseal.ResealRow` | internal/mcp/tenant_reseal.go:40-63 | a row is carried over exactly if it is an object of current or opening legacy values; otherwise the error fits |
| `Reseal.HeaderStore.SetTenantHeaders` | internal/db/tenant_servers.go:239-263 | the row changes only while it holds what was read |
| `Reseal.ResealLegacyTenantHeaders` | internal/mcp/tenant_reseal.go:27-76 | exactly the first rows are rewritten, in order, each where it still held what was read, up to the first error, whatever others write |
| `Reseal.ListedRows` | internal/db/tenant_servers.go:210-230 | each listed row was read from a tenant row that mentions the first format |
| `Reseal.EveryLegacyRowIsListed` | internal/db/tenant_servers.go:211-216 | and every such row is listed |
| `Reseal.ListedInOrder` | internal/db/tenant_servers.go:216 | in the order of creation |
| `Reseal.UnreadableRowIsReported` | internal/mcp/tenant_reseal.go:40-45 | a row that mentions the first format but is no object keeps the migration from succeeding |
| `Reseal.NoConflict` | internal/mcp/tenant_reseal.go:68-72 | undisturbed, no compare-and-set fails |
| `Reseal.SucceedsExactlyIf` | internal/mcp/tenant_reseal.go:27-76 | undisturbed, it succeeds exactly if nothing is listed or there is a key and every listed row can be carried over |
| `Reseal.CarriedOpensTheSame` | internal/mcp/tenant_reseal.go:46-59 | a carried-over value opens as before and is of the second format |
| `Reseal.WriteKeepsMeaning` | internal/mcp/tenant_reseal.go:68-72 | a write that lands keeps the meaning of the row, whatever others wrote before, exactly if the owner is the one that was read or every value was current already |
| `Reseal.MeaningIsPreserved` | internal/mcp/tenant_reseal.go:23-26 | undisturbed and whatever the outcome, every row opens to the same credentials, and only the first rows were rewritten |
| `Reseal.NoLegacyValueLeft` | internal/mcp/tenant_reseal.go:12-15 | after success no tenant row holds a value of the first format, and a rewritten row only values of the second |
| `Reseal.SecondRunIsIdle` | internal/mcp/tenant_reseal.go:14-15 | a second run rewrites nothing exactly if no name, and no value of the second format, of a listed row contains the text of the first |
| `Reseal.SecondRunRewritesNothing` | internal/mcp/tenant_reseal.go:14-15 | over rows with no colon in names and sealed bodies, as the program writes them, a second run rewrites nothing |
| `Reseal.CarriedIsWellWritten` | internal/mcp/tenant_reseal.go:55-59 | and what the migration writes is such a row |

## Left out

- Network, listeners, HTTP handlers, CORS, heartbeats, logging, metrics, the UI and deployment: I/O and plumbing.
- SQL beyond the two statements of the daily cap and the listing and compare-and-set of the migration; the upsert that counts without a cap is not called on the capped path.
- `SetTenantLimits` after traffic has started: limits are constants of a run.
- A factory that hands out a client it handed out before: clients from the factory are taken to be new.
- Closing a client and the contents of a connection: a client is its identity, and closing it changes nothing the pool keeps.
- Goroutine scheduling and fairness: safety is proved over all interleavings; that a waiting call is eventually served is not.
- A panic that ends the process during a fetch of tools: a fetch returns tools or an error.
- Sorting the list of a namespace by name, output schemas and the other fields that pass through a tool unchanged.
- What a call does after its target is found (SSRF check, breaker, acquire, dispatch), and servers of the STDIO type, which are never asked.
- Persisting tools, quarantining servers and recording checks: they do not affect the lists and routes modelled here.
- Aging of the route map and of the server list: a call may use any sound route map for the current servers, so an old map is covered as long as the names of its servers still stand.
- Bytes that are not valid UTF-8: credentials, names and messages are sequences of Unicode characters, with their UTF-8 length where redaction counts bytes; an event stream is a sequence of bytes.
- JSON parsing, base64, AES-GCM and JSON-RPC id matching: function parameters with the laws stated above.
- Clock steps backwards: the token bound takes times in order, as a monotonic clock gives them; rounding of floating-point tokens is not modelled.
- Entitlement rules, client addresses, SSRF checks, sessions, authentication and configuration: branch-by-branch rules.
- LimiterModel.TokenBound: for a rate or burst below zero nothing is claimed.
- Reseal.ListedRows: the match on the column's text is modelled on header names and values; an escape of a control character that happens to end in the letter e before the rest of the mark is not.
- RedactionModel.CleanExactlyIfNeverRecreated: for credentials that contain the mask character itself nothing is claimed.
- Redaction.RedactionCompleteExactlyIf: for spellings of two or three multi-byte characters only the sufficient condition of RedactSecrets is claimed, since one can lie strictly inside a shown tail.
- RedactionModel.SchemeCompleteExactlyIf: for a token that contains its own scheme, so that the value occurs in the token's echo, the exact condition is that of TrialsDecide.
- ServerHealth.GetsStuckExactlyIf: acts come one after the other and are reported; interleaved moments and clients that go away are those of LostExactlyIf. Forgetting a server starts it anew.
- ForgottenServer.OldAfterForgetExactlyIf: which calls have the old settings is an input; the time to live of a cache entry is not modelled there.
- UsageCap.StoredIsGranted: a statement that reports an error is taken not to have counted.
