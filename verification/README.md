# The gateway's decision core

This project models what happens between a request reaching the gateway and the outcome of its
proxying being accounted for, and proves what that code guarantees over all inputs, all runs and
all interleavings. The modules follow the program:

| module | what it models |
|---|---|
| `Hosts`, `Paths` | host normalisation and matching, path prefixes, stripping and joining |
| `Table`, `Router` | the ordered routing table, pool building, registration and lookup |
| `Balancing`, `Pool` | the four selectors and the pool and backend objects they work on |
| `DDoS`, `Admission` | the windowed request counters with blocking and cleanup, and the two-check gate in front of the gateway |
| `Limiter` | the per-address token buckets and their eviction |
| `Breaker` | the circuit breaker |
| `Recorder`, `Dispatcher` | the response recorder and the retry loop of one request |
| `Interleaving` | any number of dispatches and health checks running concurrently |
| `Discovery` | decoding `ROUTE_<NAME>_<SUFFIX>` variables into routes |
| `Options`, `Text`, `Config` | optional values, string functions, the configured route |

Objects whose methods update fields are classes here, with the maps and slices they mutate as
fields; each method is proved against a function of the old state, and the theorems are about
runs of those functions. `dafny verify dfyconfig.toml` checks everything.

Results worth knowing, because they differ from what the comments or the documentation say:

- The sliding-window bound is sharper than twice the threshold. Any closed minute admits at most
  `2 * max(1, threshold) - 1` requests of one address (`SlidingBound`), and for every threshold a
  run reaches exactly that number (`SlidingBoundReached`).
- `normalizeHost` is idempotent on well-formed hosts, but not on all. `NormalizeFixedPoints` says
  for every text exactly when a pass changes nothing. A bracketed literal free of white space and
  inner brackets loses more on the second pass exactly when it holds a single colon, or ends in two
  or more dots and is not just two of them (`BracketedIdempotence`). The IPvFuture form of section
  3.2.2 of RFC 3986 allows both: `[v1.a:b]` becomes `v1.a:b` and then `v1.a`, `[v1.a..]` becomes
  `v1.a.` and then `v1.a`. A name does so exactly with such dots (`TrailingDots`). The cost is a
  route that its own host does not reach, since matching normalises the stored pattern a second
  time (`SelfMatch`).
- The routing order has three keys: host class, host length, prefix length. The comment at
  routing.go:536-539 names two. A star with no dot after it is ranked as exact but matches as a
  wildcard, so `*oo` and `foo` tie on the host `foo` (`StarClashes`). `BareStarTies` shows that
  this is the only way for distinct normalised patterns to tie, and that the three documented forms
  of config.go:16-20 exclude it. `OrderMatters` gives the exact condition for one request,
  `PairOrder` and `RegistrationOrder` the one an operator can check for two routes, and
  `TableOrder` the one for a whole table of documented routes: the order is visible exactly if some
  host and prefix is registered twice.
- When backends go down, ip-hash moves exactly the clients of those backends, and out of every n
  consecutive hash values as many as those backends had (`Disruption`). A client also moves when a
  backend on the way to its own comes up; `MovesExactly` names the clients that move over any run
  of liveness changes.
- `Committed` and `Status` are what the client saw throughout a run exactly when the first operation
  that does anything is none of three: a flush, an interim status, a takeover that fails
  (`FaithfulFromOperations`). After a flush the report can still end right, if 200 is what follows
  (`FlushFixesStatus`). After an interim status it cannot, and the client loses the final status:
  it is dropped, and the client gets 200, with the first body byte or when the handler returns
  (`InterimSwallowsFinal`). After a failed takeover 101 is reported and the client gets 200 in the
  same way (`FailedTakeoverReported`). `ReportedIsClients` says, from the operations alone, exactly
  when the status the client ends up with is the reported one, and `CountedIsClients` and
  `MeteredIsClients` carry that over to the request metric.
- An attempt that sends an interim status and then fails is neither retried nor answered with 503:
  the interim code is counted and the client gets a 200 (`InterimHidesFailure`). A dispatch
  that gives up shows the client its 503 exactly when no attempt flushed
  (`ExhaustedReachesClient`).
- The weighted selector can answer nil with a backend up if liveness changes between its passes:
  exactly for the targets beyond the weight left, so out of totalWeight selections for as many as
  the weight lost (`WeightLost`).
- A panic out of the reverse proxy restores the connection counts and releases the breaker without
  being counted by it, ends the dispatch, and is missed by the request metric (`DispatchSafe`,
  `DispatchRefinesRetry`).
- The rate limiter refuses nothing that its bound allows (`GrantedExactly`), and the breaker lets
  the first use after the reset timeout through (`OutcomeExactly`).
- A failed half-open probe does not reopen the breaker by itself: that takes the full number of
  failures again (`HalfOpenPhase`).
- `RecordFailure` does not take a backend out of rotation, unlike the comment at main.go:326-327
  suggests; nothing here claims that a retry reaches another backend.
- A variable such as `ROUTE_X_STRIP_PREFIX` is read as the strip flag of `X`, never as the prefix
  of `X_STRIP`; `DecodeExact` lists the two families of names for which this happens.

Modelling decisions: time is an input that never goes back; a method that holds its mutex is one
step, and `IsBlocked` is taken as one step as well although it deletes from a map under a read
lock (middleware.go:123, 138); liveness does not change during one selection, except in
`WeightLost`; maps are walked in any order.

## Model

| member | source | states |
|---|---|---|
| Hosts.NormalizeSpelling | routing.go:351-367 | every well-formed spelling of a host, in any case, with port, trailing dot, brackets or white space around it, normalises to its lower-case body |
| Hosts.SpellingsAgree | routing.go:345-350 | two spellings that differ only in case, port, trailing dot, brackets or padding normalise alike |
| Hosts.CaseBlind | routing.go:352-352 | any two texts that differ only in capital against small letters normalise alike |
| Hosts.NormalizeNoCapitals | routing.go:352-352 | no capital letter is left, whatever the text |
| Hosts.ExampleHost | routing.go:351-367 | `Example.COM.:8080` with all six kinds of white space around it becomes `example.com` |
| Hosts.SplitHostPortExactly | routing.go:356-358 | a port is split off exactly where a name without colon, or a bracketed literal, is followed by a colon and a port free of colons and brackets |
| Hosts.NormalizeIdempotent | routing.go:351-367 | normalising a well-formed host twice is normalising it once |
| Hosts.NormalizeFixedPoints | routing.go:351-367 | for every text: normalising leaves it alone exactly when it is lower case, has no white space or bracket at either end, is not a name with a lone colon, and ends in no dot unless it is one |
| Hosts.BracketedIdempotence | routing.go:356-365 | a bracketed literal in any case, with any port, loses one final dot; normalising it is idempotent exactly when it holds no colon or at least two, and at most one final dot or just two dots |
| Hosts.FutureLiteralShrinks | routing.go:356-361 | `[v1.a:b]` becomes `v1.a:b`, which becomes `v1.a` |
| Hosts.DottedLiteralShrinks | routing.go:356-365 | `[v1.a..]` becomes `v1.a.`, which becomes `v1.a` |
| Hosts.TrailingDots | routing.go:362-365 | a name in any case and with any port loses one final dot; normalising it is idempotent exactly when it has at most one, or is just two dots |
| Hosts.SelfMatch | routing.go:351-388 | a route stored under a normalised host without a star matches requests for that host exactly when a second pass leaves the host alone |
| Hosts.RegisteredPatternDocumented | routing.go:529-529 | what registration stores for a documented pattern is a fixed point of normalisation in a documented form |
| Hosts.WildcardCovers | routing.go:369-388 | `*.d` covers exactly the hosts with at least one label before `.d`, and not the apex |
| Hosts.DocumentedMatches | routing.go:369-388 | the empty pattern matches every host, a host itself only, a wildcard exactly what is below its domain |
| Hosts.CommonHost | routing.go:375-388 | two patterns cover a common host exactly when one covers the other |
| Hosts.EqualLengthOverlap | routing.go:375-388 | distinct patterns of one length cover a common host exactly when they differ only in a leading star |
| Hosts.BareStarTies | routing.go:334-388 | distinct normalised patterns rank alike and match a common host exactly when they differ in a leading star with no dot after it |
| Hosts.StarClashes | routing.go:334-388 | `*oo` and `foo` rank alike and both match `foo` |
| Hosts.DocumentedNoClash | config.go:16-20 | patterns in the documented forms never do |
| Hosts.OwnHostBelongs | routing.go:334-388 | every documented pattern has a host it matches and on which none of any finite number of documented patterns is more specific |
| Paths.PathMatchesSegments | routing.go:666-678 | a prefix with no trailing slash matches exactly the paths whose segment list extends its own |
| Paths.PathMatchesDirectory | routing.go:666-678 | a prefix ending in a slash matches exactly the paths strictly below its directory |
| Paths.MatchesBelow | routing.go:666-678 | no prefix and `/` match every path, any other prefix exactly the paths at or below it by segments |
| Paths.Unstripped | routing.go:642-648 | stripping leaves what follows the prefix with a slash in front; without it, and for `/`, the path is unchanged |
| Paths.PathMatchesTransitive | routing.go:666-678 | prefix matching is transitive |
| Paths.MatchingPrefixesFormChain | routing.go:666-678 | all prefixes that match one path are comparable under matching |
| Paths.StripJoin | routing.go:642-648 | the stripped path starts with a slash and joining the prefix back rebuilds the path, except exactly in the case that gains a slash and the case that loses one |
| Table.StableSortSorts | routing.go:540-549 | the table is ordered by rank, and within every rank it is the registrations in their order |
| Table.StableSortUnique | routing.go:540-549 | those two properties determine the table, whatever stable algorithm sorts it |
| Table.IncrementalSort | routing.go:526-550 | re-sorting after each append gives the stable sort of all registrations |
| Table.FirstMatchIsBest | routing.go:629-658 | the first match in the sorted table is the earliest registration of maximal rank among all that match, none exactly when none matches |
| Table.TiesConflict | routing.go:540-549 | two registrations that match one request with equal rank conflict: same rank, same prefix, overlapping hosts |
| Table.NormalizedConflicts | routing.go:540-549 | normalised registrations conflict exactly on one prefix with one host or two that clash |
| Table.DocumentedConflicts | routing.go:540-549 | documented registrations conflict exactly when host and prefix are the same |
| Table.TiesShareKey | routing.go:540-549 | two documented registrations that match one request with equal rank have the same host and prefix |
| Table.OrderIrrelevant | routing.go:536-549 | where no two registrations conflict, every order of registration routes every request alike |
| Table.TopCanWin | routing.go:540-549 | registered first, any top-ranked match wins |
| Table.OrderMatters | routing.go:540-549 | all orders of registration answer a request alike exactly when it has a single top-ranked match; otherwise two orders that differ are given |
| Table.PairOrder | routing.go:540-549 | some request sees the order of two registrations exactly when they conflict |
| Table.TableOrder | routing.go:536-549 | some request sees the order in a table of documented registrations exactly when two distinct ones share host and prefix |
| Table.HostTierWins | routing.go:326-343 | an exact host beats a wildcard, a wildcard a catch-all, a longer wildcard a shorter one |
| Table.DeepestPrefixWins | routing.go:536-549 | among matching routes of one host pattern every other prefix covers the winner's |
| Router.UpstreamsDeduplicated | routing.go:451-508 | a pool holds exactly the first occurrences of the usable upstreams, in order, each with the weight of its own position |
| Router.PoolFromConfig | routing.go:451-508 | from the configuration alone: the pool holds every upstream that is named, once, with the positive weight given at the position that names it first, else the route's, else 1 |
| Router.BuildPool | routing.go:448-508 | the new pool holds those upstreams, all up, idle and of positive weight |
| Router.ServiceRouter.AddRoute | routing.go:510-550 | a route with a usable upstream is registered from its configuration and the table stays the stable sort; any other route changes nothing |
| Router.ServiceRouter.Route | routing.go:629-658 | the answer is the best match over everything registered, answered as its configuration says, or nil exactly when nothing matches |
| Router.EntryAnswers | routing.go:516-533 | a registered route matches the paths below its configured prefix, and is answered with the configured name, authentication flag, timeout or one hour, and path |
| Router.EntryAddressed | routing.go:529-529 | and it matches exactly the hosts its configured pattern addresses |
| Router.SingleRoute | routing.go:444-658 | end to end: a router with one route answers exactly when the route has a usable upstream, the host is addressed and the path is below the prefix, and then as configured with a pool of the named upstreams |
| Router.EntryRegistrable | routing.go:521-535 | what is registered for a documented host is in a documented form with a non-empty prefix |
| Router.RegistrationOrder | routing.go:521-549 | some request sees in which order two configured routes were added exactly when their entries conflict |
| Router.RegistrationConflicts | routing.go:521-535 | for well-formed hosts that is: one prefix, and lower-cased hosts that are equal or clash |
| Router.SpellingsRouteAlike | routing.go:629-640 | all spellings of a host reach the same route |
| Router.CaseRoutesAlike | routing.go:529-640 | so do all ways of writing it in capital and small letters, in the configuration and in the request |
| Balancing.FirstLiveFinds | routing.go:141-150 | the cyclic scan finds a backend exactly when it is live and no live one lies on the way |
| Balancing.FirstLiveNone | routing.go:141-150 | the cyclic scan fails exactly when nothing is live |
| Balancing.RoundRobinShare | routing.go:141-150 | over any n selections a live backend is chosen once plus once for each dead backend in the run before it |
| Balancing.RoundRobinFair | routing.go:141-150 | with all n backends up each is chosen exactly once in any n selections |
| Balancing.DeadNeverChosen | routing.go:141-150 | a dead backend is never chosen |
| Balancing.MinimalDisruption | routing.go:168-179 | when any set of backends goes down, only their own clients move |
| Balancing.Disruption | routing.go:168-179 | when any set of backends goes down or comes back, the clients that move number, out of any n consecutive hash values, exactly the shares of those backends |
| Balancing.DisruptionOfOne | routing.go:168-179 | one backend going down moves one client hash plus one for each dead backend in the run before it |
| Balancing.AfterFlipsExactly | routing.go:168-179 | after any run of verdicts a backend is up exactly if its last verdict says so, or it had none and was up |
| Balancing.MovesExactly | routing.go:168-179 | over any run of verdicts a client moves exactly when its backend ends down or a backend on the way to it ends up |
| Balancing.WeightedShare | routing.go:181-206 | over any totalWeight selections a live backend is chosen exactly its weight many times |
| Balancing.WeightedNone | routing.go:181-206 | with positive weights the weighted selector fails exactly when nothing is live |
| Balancing.WeightLost | routing.go:181-206 | with liveness changing between or during the two passes, nil is answered exactly for targets beyond the live weight of the second, as often per totalWeight selections as weight was lost |
| Balancing.LeastLoadedUnique | routing.go:152-166 | the least-connections answer is fully determined |
| Pool.Backend.RecordFailure | routing.go:70-76 | one more failure and its time, liveness untouched |
| Pool.ServicePool.RoundRobin | routing.go:141-150 | bumps the counter and returns the first live backend from it on around the pool |
| Pool.ServicePool.LeastConnections | routing.go:152-166 | the earliest live backend with the fewest connections |
| Pool.ServicePool.IpHash | routing.go:168-179 | the first live backend from the client hash on around the pool |
| Pool.ServicePool.Weighted | routing.go:181-206 | the live backend whose slice of the cumulative weights holds the target; the counter moves unless nothing is live |
| Pool.ServicePool.NextPeer | routing.go:119-139 | under every algorithm a live member or nil exactly when none is live, chosen as that algorithm chooses, and the counter moves only for round-robin and weighted |
| DDoS.DDoSProtection.IsBlocked | middleware.go:122-141 | the answer and the new maps, including the removal of an elapsed block |
| DDoS.DDoSProtection.RecordRequest | middleware.go:145-181 | the answer and the new maps: open, reset or extend the window, and block past the threshold |
| DDoS.DDoSProtection.Cleanup | middleware.go:183-203 | exactly the expired counters and elapsed blocks are removed |
| DDoS.CleanupUnobservable | middleware.go:183-203 | with cleanups anywhere in a run every answer equals that of the run without them |
| DDoS.BlockHolds | middleware.go:171-178 | from the request that trips it an address is denied for the whole duration, whatever else happens |
| DDoS.DeniedExactly | middleware.go:122-141 | from events alone: an address is denied exactly when it was never exempted and was banned, or tripped the guard less than the block duration ago |
| DDoS.TripsExactly | middleware.go:145-181 | from events alone: a request trips exactly when its address was never exempted and it is one more than the threshold within a minute of the opening of a window |
| Admission.AdmittedPerWindow | middleware.go:145-181 | in every interleaving each admission lies in a counter window that its first admission opened, windows open more than a minute apart, none admits more than the threshold, and the newest is the one the guard's counter holds |
| Admission.AdmittedExactly | main.go:110-130 | in every interleaving exactly those requests are admitted that passed the first check and do not trip at the second |
| Admission.ClearedExactly | main.go:110-130 | a request waits for the second check exactly if the first has let it through and nothing has happened to it since |
| Admission.GuardRuns | main.go:110-130 | the guard behind the gate is the guard after the events of the interleaving |
| Admission.SlidingBound | main.go:110-130 | in every interleaving any closed minute admits at most twice the threshold less one |
| Admission.SlidingBoundReached | main.go:110-130 | for every threshold some run admits exactly that many |
| Limiter.IPRateLimiter.GetLimiter | middleware.go:45-56 | the existing bucket, or a new full one that is stored |
| Limiter.IPRateLimiter.Request | main.go:133-134 | grants exactly when a whole token is there, and takes it |
| Limiter.IPRateLimiter.Cleanup | middleware.go:58-69 | exactly the full buckets are removed |
| Limiter.EvictionTransparent | middleware.go:58-69 | with evictions anywhere in a run every request is answered as without them |
| Limiter.GrantBound | middleware.go:45-69 | in any interval an address is granted at most the burst plus rate times length, across evictions |
| Limiter.GrantedExactly | middleware.go:45-69 | a request is granted exactly when with it no interval that ends there holds more grants than the burst plus rate times length, evictions or not |
| Limiter.KeptExactly | middleware.go:58-69 | an eviction keeps exactly the addresses that in some interval up to it were granted more than the rate times its length |
| Breaker.CircuitBreaker.Call | middleware.go:230-263 | state and outcome follow the run of all uses so far; a panic releases the mutex and counts as neither success nor failure |
| Breaker.OpenAtLimit | middleware.go:244-254 | after every run the breaker is open exactly when it has counted its limit of failures |
| Breaker.TripsBound | middleware.go:245-254 | limit times trips never exceeds the failed executions |
| Breaker.QuietAfterTrip | middleware.go:234-242 | nothing runs within the reset timeout after a trip |
| Breaker.TripsApart | middleware.go:234-254 | trips are more than the reset timeout apart |
| Breaker.StateFromHistory | middleware.go:234-262 | counter and mode are functions of the observed history |
| Breaker.OutcomeExactly | middleware.go:234-262 | every outcome from the history before it: rejected exactly when the limit of failures is counted and the use starts no later than the reset timeout after the last of them, otherwise run, as a probe in the first case |
| Breaker.HalfOpenPhase | middleware.go:234-262 | a half-open phase survives limit minus one failed probes, reopens on the next and closes on the first success |
| Recorder.ResponseRecorder.WriteHeader | recorder.go:44-51 | first status wins, later ones are dropped |
| Recorder.ResponseRecorder.Write | recorder.go:53-61 | implies 200 before the first byte and counts bytes |
| Recorder.ResponseRecorder.Flush | recorder.go:78-83 | passed on without a commit if the wrapped writer can flush, nothing otherwise |
| Recorder.ResponseRecorder.Hijack | recorder.go:87-99 | commits with 101 if nothing was sent, also when the takeover then fails; nothing where it is not supported |
| Recorder.ResponseRecorder.CurrentStatus | recorder.go:63-70 | the one status that was forwarded, 101 after a takeover attempt, 200 before any commit |
| Recorder.OpsCommitOnce | recorder.go:44-73 | after any operations at most one status was forwarded, it is the reported one, and a commit is final |
| Recorder.BytesCounted | recorder.go:53-61 | the byte count is the sum over all writes |
| Recorder.ReportFaithful | recorder.go:44-99 | throughout a run the report is what the client saw exactly when every operation is tracked |
| Recorder.FaithfulFromOperations | recorder.go:44-99 | that is, exactly when the first operation that does anything is no flush, interim status or failed takeover |
| Recorder.InterimSwallowsFinal | recorder.go:44-51 | after an interim status, whatever follows, the interim code is reported and the client gets 200, with the first body byte or at the return, unless the connection is taken over before |
| Recorder.EarlyHintLosesNotFound | recorder.go:44-61 | 103 and 404, with a body byte or without: 103 is reported and the client sees 200 |
| Recorder.FlushFixesStatus | recorder.go:78-83 | after an early flush the client has 200, and the report ends right exactly if 200 is committed |
| Recorder.FailedTakeoverReported | recorder.go:87-99 | after a failed takeover 101 is reported and the client gets 200, unless a later takeover succeeds before any body, the one way for the report to end right |
| Recorder.StatusFromOperations | recorder.go:44-99 | the reported status is the one the first committing operation stands for, 200 if there is none |
| Recorder.ReportedIsClients | recorder.go:44-99 | after the return the client has the reported status exactly when nothing was done, a final status or a body came first, or a flush came first and the commit stands for 200 |
| Dispatcher.Gateway.Serve | main.go:266-310 | one attempt restores the connection count, also when it panics, and records a failure with its time |
| Dispatcher.Gateway.Dispatch | main.go:261-346 | the loop ends as the retry function says, counts the request once unless it panics, restores all connection counts and charges each failure, with its time, to the backend that was tried |
| Dispatcher.FailsOver | main.go:322-331 | every attempt runs on the last peer offered before it, on the first backend if there was none |
| Dispatcher.ChargedExactly | main.go:311-331 | a backend is charged for exactly the attempts that failed on it, at the time of the last |
| Dispatcher.StopsAtDecisive | main.go:263-332 | the loop stops at the first attempt that succeeds, commits or panics, or after three |
| Dispatcher.DispatchSafe | main.go:261-346 | one to three attempts, none after a commit, a success or a panic, at most one status forwarded, the counted status is the reported one and missed exactly on a panic, giving up forwards 503 |
| Dispatcher.ExhaustedReachesClient | main.go:334-339 | giving up shows the client 503 exactly when no attempt flushed |
| Dispatcher.CountedIsClients | main.go:261-346 | the counted status is the one the client ends up with exactly when the operations of all attempts, and the final answer, agree in the sense of the recorder |
| Dispatcher.InterimHidesFailure | main.go:296-332 | an attempt that begins with an interim status is the last, failed or not: no 503, the interim code is counted, the client gets 200 unless the connection is taken over |
| Interleaving.ConnectionsConserved | main.go:266-293 | in every interleaving, panics included, each backend's counter is the number of attempts in flight to it, the gauge their total, which is at most one, all are zero at rest, and the breaker's mutex is free exactly when nobody is inside |
| Interleaving.BreakerLinearised | middleware.go:230-263 | every interleaving is one sequential timed run for the breaker |
| Interleaving.UsesTimed | middleware.go:230-247 | a use starts at the time of its entry and ends when it leaves, or at once if it is refused |
| Interleaving.ConcurrentQuiet | middleware.go:230-242 | so no attempt of any dispatch starts within the reset timeout after a trip |
| Interleaving.AttemptsAreUses | main.go:266-310 | in every interleaving the attempts of each dispatch are exactly its uses of the breaker, in order and with the same endings |
| Interleaving.RefusedExactly | middleware.go:230-242 | so an attempt is refused exactly when the failures of all dispatches have reached the limit and it comes no later than the reset timeout after the last |
| Interleaving.FailsOver | main.go:322-331 | a dispatch begins on a backend whose last health verdict is up, and a retry goes to the peer offered, which is up as well |
| Interleaving.DispatchesDisciplined | main.go:263-346 | every dispatch follows the retry loop on its own attempts, and the request metric holds every finished one exactly once and no unwound one |
| Interleaving.DispatchRefinesRetry | main.go:263-346 | in every interleaving a dispatch finishes or unwinds with the result of the sequential loop |
| Interleaving.MeteredIsClients | main.go:296-346 | in every interleaving each counted status is the client's exactly when the operations of its dispatch agree |
| Discovery.SplitListLoop | config.go:169-180 | the trimmed non-empty fields in order |
| Discovery.SplitSpread | config.go:168-180 | splitting finds the entries of a list however it is written: commas, spaces, tabs and newlines, any number, between and around them |
| Discovery.SplitClean | config.go:168-180 | no entry is empty or has white space around it, whatever the text |
| Discovery.DecodeKey | config.go:214-223 | the first fitting suffix in the given order |
| Discovery.TieOrderIrrelevant | config.go:199-201 | the order of equally long suffixes does not change what is decoded |
| Discovery.DecodeExact | config.go:197-223 | a name and suffix are decoded as written except exactly for the two ambiguous families |
| Discovery.CollectLoop | config.go:203-224 | groups the environment by name and suffix |
| Discovery.CollectHolds | config.go:203-224 | with distinct variables the groups hold exactly the settings of the environment |
| Discovery.SettingDelivered | config.go:204-224 | an unambiguous exported setting arrives under its own name and suffix |
| Discovery.SettingExactly | config.go:204-223 | an entry of the environment sets a knob exactly when it is `ROUTE_`, the name, the suffix and the value as exported, unambiguous and not empty |
| Discovery.RouteCarries | config.go:232-259 | an exported variable ends up in the field of the route that its suffix names: text and lists unchanged, flags, numbers and each weight as their reader reads them, with the default where it cannot |
| Discovery.RouteDefaults | config.go:232-259 | what is not exported has its default |
| Discovery.CollectDeterministic | config.go:199-224 | the groups depend neither on the order of the environment nor on the ties of the sort |
| Discovery.SortedNames | config.go:226-230 | the names in ascending order, from a map walked in any order |
| Discovery.BeforeExactly | config.go:230-230 | the order of names is the lexicographic one |
| Discovery.LoadEnvNamedRoutes | config.go:196-278 | the routes of exactly the groups that describe one, in ascending order of their names |
| Discovery.LoadedExactly | config.go:226-278 | one route for every name with a URL or a target, no other, in ascending order, each as described |
| Discovery.UpstreamLoaded | config.go:232-278 | an exported URL, or list of targets that is not empty, makes a route with it |
| Discovery.UrlAlone | config.go:196-278 | one exported URL among variables of other names makes one route, with every default |
| Discovery.ExampleLoaded | config.go:196-278 | `HOME=/root` and `ROUTE_X_URL=http://a:1` make the one route `x` on `/` with all defaults |
| Discovery.DiscoveryDeterministic | config.go:196-278 | any two loads of one environment, in any order and with any ties, give the same routes |

## Left out

- Machine integers: selector counters are unbounded, so the sign change of `int(next + i)` beyond 2^63 and sums of weights that overflow are not modelled.
- Text is ASCII: letter case and white space beyond ASCII and the difference between bytes and characters are not modelled.
- Upstream parsing (`normalizeUpstream`), the client hash, `strconv` and the token bucket's floating point: parameters or real arithmetic.
- Limiter: `GetLimiter` and `Allow` are one step. All requests that looked a bucket up before its eviction and draw from it afterwards share it, so together they can get up to the burst, and what it refills, beyond the bound.
- Real sleeping, backoff and timeouts, and panics on a status code that net/http rejects.
- Interleaving: failure counts of backends are not part of the concurrent model; `Dispatcher.Gateway.Dispatch` accounts for them in one dispatch.
- Request headers, authentication, the response cache, tracing, security headers, request ids and client-address extraction.
- Health probing itself, and the pool walk of `HealthCheck`: probes are arbitrary liveness changes.
- JSON configuration, environment defaults, the built-in route list, dashboards, monitoring, logging and deployment files.
