# Umay's load balancer, modelled and proved in Dafny

Umay is a TLS proxy. For each upstream it keeps a snapshot of the backends that a discovery
source returns, refreshes it from a background task, and chooses a backend from it for every
connection. This project models that engine (`umay/src/balance/`) and the WebSocket relay
loop, and proves what they do on every input, every run and every interleaving.

| file | models |
|---|---|
| `BackendSets.dfy` | `Backend`, its derived order, `BTreeSet<Backend>` as its strictly increasing iteration sequence |
| `Selection.dfy` | the selectors as classes over their atomics, and the functions that specify them |
| `Fairness.dfy` | how evenly the two round robins spread a run of tickets |
| `LeastLoad.dfy` | what the least-connections choice means and when it is round robin |
| `Rcu.dfy`, `RcuWorstCase.dfy` | concurrent copy-on-write updates of one cell, step by step; the worst schedule |
| `ConnectionMap.dfy` | the shared count map: sequences of increments and decrements, and its concurrent use |
| `Skew.dfy` | many clients choosing by least connections at once |
| `Discovery.dfy` | DNS discovery; local discovery with one caller (a class) and with many (steps) |
| `Balance.dfy` | `Backends` and `LoadBalancer` as classes |
| `System.dfy` | discovery callers, refresh loops and requests, interleaved |
| `Relay.dfy` | `proxy_ws`: its loop as a method, its steps as a state machine |

`Division.dfy`, `Tallies.dfy` and `Wrappers.dfy` hold helpers. `dafny verify dfyconfig.toml` checks everything.

## How the model reads the code

- **`usize`.** Arithmetic wraps at `modulus`, a parameter (2^64 on the usual target), as it
  does in a release build; a debug build panics where the sum of the weights or a count
  wraps. Theorems that need no wrap say so: `TotalWeight(s) < modulus`, lengths below
  `modulus`, `ConnectionMap.NeverFull` and `Skew.Config.NoCountWraps` for the counts.
- **Schedules.** The step systems (`Rcu`, `Skew`, `System`, `Relay`) have a total step
  function and a run over any sequence of events. An event whose turn it is not leaves the
  state as it is, so "for every sequence of events" covers every interleaving.
- **`ArcSwap`.** Loads, stores and compare-and-swap are atomic and compare by identity. Each
  stored value gets the next version number; an update keeps the version of the value it
  holds. A failed swap continues from the value it found.
- **Atomics and libraries.** `fetch_add` is one atomic step; `BTreeSet` iterates in strict
  order; `min_by_key` keeps the first minimum; a `next()` that loses the select drops nothing.
- **Environment.** The resolver's answers, the random draw, the schedule, the frames of
  each stream and the outcome of the n-th send to it (`WebSocket.accepts`) are arbitrary
  inputs. `select` ignores its `key`, and so
  does the model. No code of the repository calls `increment` or `decrement`; `Skew` and
  `LeastLoad.AfterRounds` take the discipline "select, then increment what was chosen" as
  hypothesis, and `Skew` takes "at most `limit` clients between loading the map and
  committing" as the guard of its `Select` step.
- **Refresh loops.** The server starts one per balancer (`umay/src/app/server.rs:86-90`). The
  model has any number, `loops`; results that need at most one say so.

`System.Config.Sourced`, `System.Config.Fresh`, `System.Config.TicketsOk`, `Rcu.Linearized`,
`Relay.Conserved` and `Relay.Linked` are the predicates in which the corresponding theorems
are stated.

## Model

| member | source | states |
|---|---|---|
| BackendSets.Insert | umay/src/balance/discovery.rs:91 | inserting adds exactly one element to the ordered set and keeps it ordered |
| BackendSets.WithoutAddr | umay/src/balance/discovery.rs:99 | retaining by address keeps exactly the backends at other addresses, in order |
| BackendSets.FromAddrs | umay/src/balance/discovery.rs:79-82 | collecting a list of addresses gives one weight-1 backend for each, however often it is listed |
| BackendSets.SameElements | umay/src/balance/mod.rs:15-19 | two sets with the same elements iterate in the same sequence |
| BackendSets.InAddrOrder | umay/src/balance/mod.rs:15-19 | a set iterates by IP address, at one IP by port, at one port by zone, at one address by weight |
| BackendSets.Rank | umay/src/balance/selection.rs:35 | the backend at position `k` of the iteration is the one with `k` smaller ones |
| Selection.RoundRobin.constructor | umay/src/balance/selection.rs:20-26 | the counter starts at 0 |
| Selection.RoundRobin.Select | umay/src/balance/selection.rs:29-36 | answers the backend that has ticket modulo length smaller ones, takes one ticket if the set is non-empty and none otherwise |
| Selection.FirstTicketIsLowest | umay/src/balance/selection.rs:34-35 | ticket 0 goes to the lowest IP address of the set, and there to the lowest port |
| Selection.WeightedRoundRobin.constructor | umay/src/balance/selection.rs:42-48 | the counter starts at 0 |
| Selection.WeightedRoundRobin.SumWeights | umay/src/balance/selection.rs:53 | the wrapping sum is the exact sum modulo the word size |
| Selection.WeightedRoundRobin.Select | umay/src/balance/selection.rs:52-65 | for all weights, the subtracting scan lands on the backend in whose block of the expanded list the reduced ticket falls; it never underflows, never falls through, never returns weight 0; `None` exactly when the wrapped total is 0 |
| Selection.ExpandBlock | umay/src/balance/selection.rs:58-63 | each backend owns one contiguous block of the expanded list, as long as its weight |
| Selection.UnitWeightedIsRoundRobin | umay/src/balance/selection.rs:52-65 | on weight-1 sets the weighted choice is the round-robin choice |
| Selection.LeastIndex | umay/src/balance/selection.rs:104-110 | `min_by_key` settles on the first of the backends with the smallest count |
| Selection.LeastPickIff | umay/src/balance/selection.rs:104-110 | the choice is the unique least element by count, then set order |
| Selection.TieGoesToLowest | umay/src/balance/selection.rs:104-110 | among the backends with the smallest count the choice has the lowest IP address, and there the lowest port |
| Selection.LeastConnections.constructor | umay/src/balance/selection.rs:72-78 | the map starts empty |
| Selection.LeastConnections.Increment | umay/src/balance/selection.rs:81-87 | the entry of the address becomes its count plus one (wrapping), absent counting as 0; no other count changes |
| Selection.LeastConnections.Decrement | umay/src/balance/selection.rs:89-99 | takes one from a positive count, leaves a zero; adds no key and changes no other count |
| Selection.LeastConnections.Select | umay/src/balance/selection.rs:104-110 | answers the backend that is least by count and then set order, and `None` only on the empty set |
| Selection.Random.Select | umay/src/balance/selection.rs:118-125 | `None` exactly on the empty set; a draw below the length answers the element at that place, so any element may come out and nothing else |
| Fairness.RoundRobinEvenSpread | umay/src/balance/selection.rs:29-36 | over any run of tickets without a wrap each backend gets the rounded-down or rounded-up share; across `r` wraps of the counter two counts differ by at most `r + 1` |
| Fairness.WrapInvisibleIff | umay/src/balance/selection.rs:34 | every share of every run, wraps included, is rounded down or up exactly when the length divides the modulus |
| Fairness.WrapDifferenceAttained | umay/src/balance/selection.rs:34 | otherwise, for every `r`, a run with `r` wraps sets two backends `r + 1` apart |
| Fairness.WeightedProportionalShare | umay/src/balance/selection.rs:52-65 | over any `n` tickets the count of weight `w` out of `W` satisfies abs(W\*count - n\*w) <= (r+1)\*w\*(W-w) for `r` wraps, `r = 0` when `W` divides the modulus, with equality count = w\*(n/W) when `W` divides `n` |
| Fairness.ProportionalShareTight | umay/src/balance/selection.rs:52-65 | the deviation w\*(W-w) is attained, by every backend |
| Fairness.WeightedWrapAttained | umay/src/balance/selection.rs:52-65 | the deviation (r+1)\*w\*(W-w) is attained with `r` wraps, for every `r`, where the modulus leaves the remainder w over W for the first backend |
| Fairness.WeightedWrapInvisibleIff | umay/src/balance/selection.rs:52-65 | every share of every run, wraps included, is within w\*(W-w) exactly when W divides the modulus or one backend has all the weight |
| LeastLoad.ChoiceSurvivesSubset | umay/src/balance/selection.rs:104-110 | a choice stays the choice in every subset that contains it |
| LeastLoad.ChoiceOfUnion | umay/src/balance/selection.rs:104-110 | choosing from a union is choosing between the two choices, ties included |
| LeastLoad.RoundsFillInOrder | umay/src/balance/selection.rs:80-110 | after `n` rounds of select and increment the first `n % len` backends hold `n/len + 1` and the others `n/len`, and the next choice is element `n % len` |
| LeastLoad.LeastConnectionsIsRoundRobinIff | umay/src/balance/selection.rs:80-110 | driven by select and increment, least connections equals round robin on all tickets exactly when no two backends share an address |
| Rcu.Linearizable | umay/src/balance/selection.rs:81-98 | in every interleaving the value is the commits applied once each in commit order; finished updates and commits correspond one to one, each after its invocation |
| Rcu.UpdatesAreBegun | umay/src/balance/discovery.rs:88-114 | the i-th update carries the operation with which the i-th caller began it, and stores and their commits are equally many |
| Rcu.RealTimeOrder | umay/src/balance/discovery.rs:88-102 | an update finished before another begins precedes it in commit order |
| Rcu.RetryBound | umay/src/balance/discovery.rs:88-114 | with `n` updates and `s` stores at most n(n-1)/2 + n\*s swaps fail |
| Rcu.EveryUpdateFinishes | umay/src/balance/discovery.rs:88-114 | a run with `n` updates and `s` stores has at most s + n(n+2) + 2\*n\*s steps, and stops only when every update is finished |
| RcuWorstCase.RetryBoundAttained | umay/src/balance/discovery.rs:88-114 | a schedule in which exactly n(n-1)/2 + n\*s swaps fail |
| ConnectionMap.CountIsReflectedWalkIff | umay/src/balance/selection.rs:80-99 | from the empty map the count is S - min(0, least prefix sum of S), as long as and only as long as that stays below the modulus |
| ConnectionMap.OpensWrap | umay/src/balance/selection.rs:80-87 | with no decrement of an address its count is the number of increments modulo the modulus, past any number of wraps |
| ConnectionMap.GuardIdleIff | umay/src/balance/selection.rs:89-99 | while no count reaches the modulus, the `> 0` guard never drops a decrement exactly when no prefix closes more than it opens; then the count is the open connections |
| ConnectionMap.SharedCountsAreExact | umay/src/balance/selection.rs:80-99 | under every interleaving at most n(n-1)/2 swaps fail, each committed operation is the one its caller began, and each count that never reached the modulus is the reflected walk of the committed operations |
| Skew.Config.SkewFromAnyStart | umay/src/balance/selection.rs:80-110 | from any counts, with no decrements and no count incremented at modulus - 1, in every reachable state count(b) + pending(b) <= count(c) + max(limit, initial(b) - initial(c)) for all b, c |
| Skew.Config.SkewAtMostLimit | umay/src/balance/selection.rs:80-110 | with equal starting counts, at most `limit`: count(b) + pending(b) <= count(c) + limit |
| Skew.Config.SkewReachesLimit | umay/src/balance/selection.rs:80-110 | the bound on the skew is attained, in a run in which no count wraps, when all clients choose before any counts |
| Skew.Config.OneMoreClient | umay/src/balance/selection.rs:80-110 | below `limit`, one more client can always choose by the current counts, and undisturbed its increment commits with one swap |
| Discovery.DnsDiscover | umay/src/balance/discovery.rs:47-62 | succeeds exactly on a non-empty answer, with one weight-1 backend for each IP at the port |
| Discovery.LocalDiscovery.constructor | umay/src/balance/discovery.rs:69-75 | starts empty |
| Discovery.LocalDiscovery.WithBackends | umay/src/balance/discovery.rs:78-86 | starts with the listed addresses, each once, at weight 1 |
| Discovery.LocalDiscovery.AddBackend | umay/src/balance/discovery.rs:88-94 | inserts the address; an address already present changes nothing |
| Discovery.LocalDiscovery.RemoveBackend | umay/src/balance/discovery.rs:96-102 | deletes the address |
| Discovery.LocalDiscovery.SetBackends | umay/src/balance/discovery.rs:104-110 | replaces the addresses |
| Discovery.LocalDiscovery.ClearBackends | umay/src/balance/discovery.rs:112-114 | leaves no address |
| Discovery.LocalDiscovery.Discover | umay/src/balance/discovery.rs:119-121 | returns the current set and never fails |
| Discovery.LocalRefinesAddressSet | umay/src/balance/discovery.rs:78-114 | however callers interleave, the content is one weight-1 backend for each address of the plain set made by their requests: `set_backends` makes it the addresses given, `clear_backends` empties it, and an add or remove applies the address that its caller gave when it commits |
| Discovery.HistoriesAgree | umay/src/balance/discovery.rs:78-114 | two concurrent histories whose requests leave the same addresses end in the same ordered set, which is all a selector sees |
| Discovery.UpdatesCommuteIff | umay/src/balance/discovery.rs:88-102 | two updates commute exactly when they are not an add and a remove of one address |
| Discovery.StepUnit | umay/src/balance/discovery.rs:78-114 | every step of every caller keeps all sets, held ones included, at weight 1 |
| Balance.Backends.constructor | umay/src/balance/mod.rs:39-45 | the snapshot starts empty |
| Balance.Backends.Refresh | umay/src/balance/mod.rs:47-51 | local: stores the current list; DNS: succeeds exactly on a non-empty answer and stores one weight-1 backend for each IP at the port; an error leaves the snapshot |
| Balance.Backends.GetBackends | umay/src/balance/mod.rs:53-55 | returns the snapshot |
| Balance.LoadBalancer.Select | umay/src/balance/mod.rs:71-78 | one snapshot decides emptiness and choice; round robin: the backend with counter modulo length smaller ones, and the counter advances on every non-empty snapshot; weighted: the owner of the reduced ticket, and the counter advances whenever there is an answer; least connections: the least by count, then order; random: the element drawn; nothing else changes |
| Balance.LoadBalancer.RefreshTask | umay/src/balance/mod.rs:80-90 | over any ticks a local source leaves the current list, and a DNS source the backends of the last answer that had any, whatever failed before or after it, or what was there if none had |
| System.Config.ServerStartIsValid | umay/src/app/server.rs:233-239 | the start from a configured address list meets the hypothesis of the theorems below |
| System.Config.Provenance | umay/src/balance/mod.rs:47-78 | every answer is from a set a completed discovery returned, and so is everything else that is held, but for the initial empty snapshot |
| System.Config.FoundByDiscover | umay/src/balance/mod.rs:48 | each result is what one discovery of the schedule found at that moment: the local list, or one weight-1 backend for each IP of its answer at the port of the source |
| System.Config.RefreshCompletes | umay/src/balance/mod.rs:47-51 | from every reachable state a loop can complete a refresh: the snapshot becomes the current list, or the backends of the answer, and is the newest result; a failed lookup leaves it |
| System.Config.RequestCompletes | umay/src/balance/mod.rs:71-78 | whatever happens between its load and its choice, a request is answered from the snapshot that it loaded |
| System.Config.RequestsAreLoads | umay/src/balance/mod.rs:72 | there are as many requests as loads: none is lost and none made up |
| System.Config.AnsweredByItsChoose | umay/src/balance/selection.rs:104-126 | in every run a request without a ticket got, with least connections, the least backend of its snapshot under the counts loaded at its choice, and at random the element drawn then |
| System.Config.Freshness | umay/src/balance/mod.rs:80-90 | with one refresh loop the snapshot is the newest result or, while that is being stored, the one before, and loads never go back to an older result |
| System.Config.NeverGoesBackIff | umay/src/app/server.rs:86-90 | on all schedules loads never go back to an older result exactly if there is at most one refresh loop |
| System.Config.QuietSourceConverges | umay/src/balance/mod.rs:47-51 | once the local list is left alone, the snapshot equals it as soon as a result discovered since is stored, and with one refresh loop from then on |
| System.Config.SnapshotReflectsList | umay/src/balance/discovery.rs:78-121 | that snapshot is one weight-1 backend for each address that the requests of the concurrent callers leave, from the configured list on |
| System.Config.TicketsConserved | umay/src/balance/selection.rs:34 | turn `k` has the ticket `k` after the first and the answer of that ticket, turns and requests with tickets correspond one to one, and the counter advances once per request that takes a ticket: with round robin every request on a non-empty set, with weighted every one on a wrapped total other than 0, else none |
| System.Config.WeightedTakesTicketIff | umay/src/balance/selection.rs:53-57 | on discovered sets the weighted balancer takes a ticket exactly for a request on a non-empty set |
| System.Config.TicketsDistinct | umay/src/balance/selection.rs:34 | no two requests share a ticket until the counter has gone all the way round |
| System.Config.EvenSpread | umay/src/balance/mod.rs:71-78 | consecutive turns decided on equal sets are spread evenly, whatever refreshes happen in between |
| System.Config.NoAnswerIffEmpty | umay/src/balance/mod.rs:71-78 | with every selector, a request gets no backend exactly if the snapshot it loaded was empty |
| System.Config.DnsAvailability | umay/src/balance/discovery.rs:47-62 | after the first successful DNS refresh every later snapshot is non-empty and every later request gets a backend, whatever later lookups answer |
| System.WeightedBalancerIsRoundRobin | umay/src/balance/selection.rs:29-65 | on every schedule a balancer with weighted round robin goes through the same states as one with round robin |
| Relay.RelayConserves | umay/src/proxy/stream.rs:125-136 | in every reachable state what was sent to each side is an in-order prefix of what came from the other, equal at the loop head, with at most one message undelivered in all, and exactly one exactly after a failed send |
| Relay.Branch | umay/src/proxy/stream.rs:127-134 | one branch consumes the next frame of its stream and no other, and sends its message once, with the outcome that the stream has for that attempt, or says that the receive failed |
| Relay.ProxyWs | umay/src/proxy/stream.rs:125-136 | in each direction the loop consumes the frames of the stream in order and delivers their messages in order with one send each, all but the one of a failed send; both streams run dry, with everything delivered, if and only if no frame is broken and no outcome of a send within the length of the streams is a failure; it makes a run of the steps |

## Left out

- TLS, certificates, configuration, the accept loop, signals and timers: plumbing around the engine.
- `proxy_tcp`: the copying is `tokio::io::copy`, which is not part of this model.
- `ConsistentHashing`, IP hash, UDP and HTTP: `todo!()` in the source. `hash_key` depends on `DefaultHasher`.
- Memory ordering: every atomic step is taken to be sequentially consistent; the counter is the only `Relaxed` access.
- Balance.LoadBalancer.RefreshTask: the source's loop is endless; the method makes one tick for each answer, over a source that does not change meanwhile. `System` has the endless, interleaved form.
- Selection.LeastConnections.Increment: the uncontended call, with the update of the map as one assignment; `Rcu` and `ConnectionMap` have the retrying form. The same holds for `Decrement` and for `LocalDiscovery.AddBackend` and `RemoveBackend`.
- Relay.ProxyWs: every stream yields finitely many frames before it ends; when both have ended the method returns `BothEnded` where the source's select panics. `Relay.RelayConserves` has no such bound.
