# Verified models of the IPC agent

Dafny models of the two protocols at the heart of the IPC agent, and proofs about all their runs.

**The IPLD resolver.** Peers gossip timestamped snapshots of the subnets they provide. A bounded
cache turns them into a list of providers per subnet; the membership behaviour wraps the cache
with events, topic subscriptions and a publish timer; the service resolves content by walking
through batches of providers; a stack walk finds the blocks that are still missing.

**The checkpoint managers.** Agents poll a parent and a child chain and submit checkpoints in both
directions.

| file | what it holds |
|---|---|
| `Primitives.dfy` | identifiers, 64-bit timestamps with saturating arithmetic, small arithmetic facts |
| `ProviderCache.dfy` | the transitions of the provider cache, as a relation between values |
| `ProviderHistory.dfy` | the reference: what a peer provides according to the records delivered; every run agrees with it |
| `ProviderTheorems.dfy` | pinning, capacity, delivery of a list of records, expiry |
| `ProviderOrder.dfy` | when the order and number of deliveries is irrelevant |
| `ProviderReference.dfy` | the map that the repository's property tests compare the cache with |
| `ProviderCacheImpl.dfy` | the code of the cache |
| `MembershipEvents.dfy` | the event outbox and what a listener who replays it knows |
| `Topics.dfy` | topic names and subscriptions |
| `PublishTimer.dfy` | the publish timer |
| `Membership.dfy` | the code of the membership behaviour, each method tied to a step of the three machines above |
| `Service.dfy` | the query state machine, as a function and as code |
| `MissingBlocks.dfy` | the walk over a block store |
| `Discovery.dfy` | the bootstrap buffer |
| `Connections.dfy` | connection counting, address accounting and address normalisation |
| `TopDown.dfy` | top-down checkpointing by any number of agents: what is submitted and by whom |
| `TopDownRound.dfy` | what one agent of that machine submits in a round |
| `BottomUp.dfy` | bottom-up checkpointing by any number of agents: what is submitted and by whom, and one catch-up round as code |
| `BottomUpRound.dfy` | what one agent of that machine submits in a round |

`dafny verify dfyconfig.toml` checks the whole project.

## How the source is modelled

- Objects that change in place are classes whose methods are proved against a transition on values;
  whole runs are sequences of such transitions, and the theorems are about all of them.
- Peer IDs, CIDs, query IDs, channels, accounts and messages are opaque types with equality. A
  subnet is its printed path. Topic hashes are taken to be injective.
- Iteration over a hash map or hash set visits the elements in any order. The shuffled list of
  providers is an input. Bitswap query IDs are inputs that do not repeat.
- The answers of gossipsub (subscribe, unsubscribe, publish) are inputs, so every theorem covers
  refusals. There is one clock in whole seconds that does not run backwards; it is an input too. A
  tokio interval that fires late moves its deadline by one period, which is its default behaviour.
- Both chains are append-only with one tipset per height. The actors that execute checkpoints are
  not part of the repository. They are known by their contract alone: submitted checkpoints are
  executed in increasing order of epoch, and for the gateway the last executed epoch, the applied
  nonce and the applied messages change together.
- Whether a submission succeeds, and whether a failing one has been pushed, are inputs. The
  child's validators may differ from one tipset of the parent to the next.
- `usize` and `ChainEpoch` are unbounded, except that the connection counter records an underflow.

## Where the code does not do what one might expect

- A record with timestamp 0 marks its peer as seen but is never applied. The reference of the
  property tests would apply it. `CacheEqualsReferenceIff` says exactly when the two agree, and
  `ZeroTimestampDisagrees` gives the smallest input on which they do not.
- When a peer has several records with its highest timestamp and they name different subnets, the
  order of delivery shows. As long as the subnets named fit the bound, that is the only case; ties
  among older records, or at timestamp 0, do not matter (`OrderIsIrrelevantIff`). Beyond the bound the
  order may show in any case, because evictions depend on it (`OrderShowsBeyondBound`); for a pinned
  subnet the condition is exact whatever the bound (`PinnedOrderIsIrrelevantIff`).
- Before the clock has passed the minimum gap, subtraction saturates, and a service that has never
  published counts as not having published recently (`SaturationShowsIff`).
- Unpinning does not evict, so the bound may be exceeded until the next applied record
  (`UnpinKeepsBoundIff`, `UnpinBreaksBound`, `AppliedRecordRestoresBound`).
- Evictions are not announced, so a listener may know more than the cache (`ListenerLeftBehind`).
  The surplus is exactly the pairs that were listed when their subnet was evicted and have neither
  been announced as removed nor listed again since (`ListenersKeepUp`, `ListenersExactIff`).
- Topic names replace "/" by "_", so subnets whose paths differ only there share topics; the
  subscriptions then go wrong (`TopicsFollowSubnetsIff`, `ClashBreaksPins`, `ClashBreaksVotes`).
- A refused change of all provided subnets may leave voting topics behind (`RefusalLeavesTopic`);
  `FailedSetProvidedExactIff` says exactly when.
- With `max_peers_per_query` set to 0, a request that fails is retried with empty batches and never
  told so (`NeverGivesUpWithoutBatches`, `FailingAnswersIff`).
- The walk for missing blocks keeps no set of visited CIDs, so it reports a CID once for each path to
  it (`OneEntryPerPath`). It ends if and only if every circle of references lies behind an unreadable
  block in the order of the walk (`WalkEndsIff`, `OrderOfReferencesMatters`); where all blocks can be
  read, that means no circles at all (`ReadableWalkEndsIff`).
- The comment on the top-down nonce speaks of incrementing it; the code uses it as read, and so does
  the model. The nonce is the number of messages applied, so that is what exactness needs.
- After a failed submission the managers go on with the next account of the round, not with the
  next round, because the `continue` belongs to the loop over accounts (`EveryValidatorVotes`).
- The bottom-up catch-up loop submits the same epoch again and again until it is executed
  (`ServeAccount`).

## Model

| member | source | states |
|---|---|---|
| Primitives.SaturationShowsIff | ipld/resolver/src/timestamp.rs:28-42 | for each comparison with a saturated sum or difference, exactly when its answer is that of exact arithmetic: always for expiry and for a near publication, and for a recent one unless the difference is negative and compared with 0 |
| ProviderCache.AddSetsAssociations | ipld/resolver/src/provider_cache.rs:114-141 | an applied record's snapshot, less what was evicted, is what its peer is listed under afterwards; every other peer only loses evicted subnets |
| ProviderCache.DeltaAccountsForLosses | ipld/resolver/src/provider_cache.rs:108-143 | a peer's lost associations are exactly `removed` plus the named ones that were evicted; old, `removed`, `added` and evicted give the new ones |
| ProviderHistory.ProvidesAfter | ipld/resolver/src/provider_cache.rs:114-117 | one more record takes over if and only if it is strictly newer than all of its peer's |
| ProviderHistory.CacheFollowsHistory | ipld/resolver/src/provider_cache.rs:44-207 | in every run, for every peer: routable, heard, its timestamp, and the subnets it is listed under are exactly what the history of deliveries says, evictions included |
| ProviderTheorems.ListedOnlyIfAnnounced | ipld/resolver/src/provider_cache.rs:74-144 | listed peers have a timestamp, peers with a timestamp are routable, and a peer is listed only where its first record among the latest since it became routable says so |
| ProviderTheorems.ExactUnlessEvicted | ipld/resolver/src/provider_cache.rs:103-175 | for a subnet that was never evicted, listed if and only if so announced |
| ProviderTheorems.ExactWhilePinned | ipld/resolver/src/provider_cache.rs:31-34 | for a subnet pinned throughout a run, listed if and only if so announced, whatever floods the cache |
| ProviderTheorems.RoomMeansNoEviction | ipld/resolver/src/provider_cache.rs:149-175 | when the subnets ever named fit the bound, nothing is evicted in the whole run |
| ProviderTheorems.EvictionRestoresBound | ipld/resolver/src/provider_cache.rs:146-175 | after eviction the bound holds or only pinned subnets are left |
| ProviderTheorems.LeastProvidedGoFirst | ipld/resolver/src/provider_cache.rs:149-175 | in every run, a subnet is evicted only by a record, never while pinned, never below the bound, and never while an unpinned survivor has fewer providers |
| ProviderTheorems.BoundHolds | ipld/resolver/src/provider_cache.rs:26-30 | at every point of every run without unpinning, the bound holds or only pinned subnets are left |
| ProviderTheorems.AppliedRecordRestoresBound | ipld/resolver/src/provider_cache.rs:138-141 | whatever came before, one applied record restores the bound |
| ProviderTheorems.UnpinKeepsBoundIff | ipld/resolver/src/provider_cache.rs:59-62 | unpinning keeps the bound if and only if there was no excess or the subnet had no entry |
| ProviderOrder.UnpinBreaksBound | ipld/resolver/src/provider_cache.rs:59-62 | for any peer and subnet there is a run, with bound 0 and the subnet pinned, whose last call unpins it and breaks the bound |
| ProviderTheorems.DeliveryListsUnlessLost | ipld/resolver/src/provider_cache.rs:103-144 | whatever the bound, delivering a list of records lists exactly what the list announces, less what was evicted since the deciding record |
| ProviderTheorems.DeliveryLists | ipld/resolver/src/provider_cache.rs:353-366 | delivering a list of records that fits the bound lists exactly what the list announces |
| ProviderTheorems.KeptLists | ipld/resolver/src/provider_cache.rs:103-144 | for a subnet that is not evicted, delivery lists exactly the peers that announce it |
| ProviderTheorems.PinKeeps | ipld/resolver/src/provider_cache.rs:162-165 | a pinned subnet is not evicted, whatever the bound and the records |
| ProviderOrder.DeliveryExists | ipld/resolver/src/provider_cache.rs:353-366 | every list of records can be delivered, whatever the bound, and without eviction if the subnets named fit it |
| ProviderOrder.OrderIsIrrelevantIff | ipld/resolver/src/provider_cache.rs:103-144 | for records whose subnets fit the bound: all deliveries of the same set of records, reordered or repeated, list the same providers, if and only if each peer's records at its highest timestamp, unless that is 0, name the same subnets |
| ProviderOrder.PinnedOrderIsIrrelevantIff | ipld/resolver/src/provider_cache.rs:330-351 | for a pinned subnet and any bound: all deliveries of the same set of records list the same peers for it, if and only if each peer's latest records agree on it |
| ProviderOrder.OrderShowsBeyondBound | ipld/resolver/src/provider_cache.rs:146-175 | two peers with a subnet each and a bound of one: the two orders may leave different subnets, although no peer has two records |
| ProviderOrder.SettledListsTheSame | ipld/resolver/src/provider_cache.rs:103-144 | two caches that were delivered the same set of such records, within the bound, list the same providers for every subnet |
| ProviderOrder.OrderShows | ipld/resolver/src/provider_cache.rs:116 | where a peer's latest records differ on a subnet, moving one of them to the front changes whether the peer provides it |
| ProviderOrder.UnsettledListsDiffer | ipld/resolver/src/provider_cache.rs:114-117 | any such list that fits the bound has a delivery and a reordered delivery whose caches list different providers |
| ProviderTheorems.ExpiryCommutesWithDelivery | ipld/resolver/src/provider_cache.rs:369-387 | expiring after delivering all lists the same as delivering only what is not older than the cutoff, and expires exactly the peers whose highest timestamp is older |
| ProviderTheorems.PinnedExpiryCommutesWithDelivery | ipld/resolver/src/provider_cache.rs:177-198 | the same of a pinned subnet, whatever else is evicted in either delivery |
| ProviderReference.MaxTimestamps | ipld/resolver/src/provider_cache.rs:262-269 | the map holds the highest timestamp of exactly the peers with a record |
| ProviderReference.BuildProviders | ipld/resolver/src/provider_cache.rs:260-290 | the reference lists a peer under a subnet if and only if its first record among its latest names it |
| ProviderReference.CacheEqualsReferenceIff | ipld/resolver/src/provider_cache.rs:292-311 | cache and reference agree on all peers and subnets if and only if no peer's latest record has timestamp 0 and names a subnet |
| ProviderReference.PinnedEqualsReferenceIff | ipld/resolver/src/provider_cache.rs:325-351 | whatever the bound, cache and reference agree on a pinned subnet if and only if no peer's latest record has timestamp 0 and names it |
| ProviderReference.ZeroTimestampDisagrees | ipld/resolver/src/provider_cache.rs:114-117 | delivering one record with timestamp 0 gives a cache that does not list what the reference lists |
| ProviderCacheImpl.SubnetProviderCache.constructor | ipld/resolver/src/provider_cache.rs:44-52 | an empty cache with the static subnets pinned |
| ProviderCacheImpl.SubnetProviderCache.PinSubnet | ipld/resolver/src/provider_cache.rs:54-57 | only the pins change |
| ProviderCacheImpl.SubnetProviderCache.UnpinSubnet | ipld/resolver/src/provider_cache.rs:59-62 | only the pins change, nothing is evicted |
| ProviderCacheImpl.SubnetProviderCache.SetRoutable | ipld/resolver/src/provider_cache.rs:64-69 | only the routable peers change |
| ProviderCacheImpl.SubnetProviderCache.SetUnroutable | ipld/resolver/src/provider_cache.rs:71-80 | everything about the peer is forgotten, no subnet entry is dropped |
| ProviderCacheImpl.SubnetProviderCache.AddProvider | ipld/resolver/src/provider_cache.rs:97-144 | the new state is a transition of the cache; nothing is returned if and only if the peer is not routable; otherwise the delta is exact and free of duplicates |
| ProviderCacheImpl.SubnetProviderCache.RemoveFromOthers | ipld/resolver/src/provider_cache.rs:123-128 | the peer is removed from exactly the subnets its record does not name, and those it was listed under are returned once each |
| ProviderCacheImpl.SubnetProviderCache.AddToNamed | ipld/resolver/src/provider_cache.rs:130-136 | the peer is added to exactly the named subnets, and those that are new to it are returned once each, even if the record repeats them |
| ProviderCacheImpl.SubnetProviderCache.SubnetsByCount | ipld/resolver/src/provider_cache.rs:154-160 | every subnet once, fewest providers first |
| ProviderCacheImpl.SubnetProviderCache.PruneSubnets | ipld/resolver/src/provider_cache.rs:146-175 | as many subnets as the excess asks for and the pins allow, none pinned, none with more providers than an unpinned survivor |
| ProviderCacheImpl.SubnetProviderCache.PruneProviders | ipld/resolver/src/provider_cache.rs:177-198 | exactly the stale peers are returned, once each, and forgotten |
| ProviderCacheImpl.SubnetProviderCache.ProvidersOfSubnet | ipld/resolver/src/provider_cache.rs:200-206 | exactly the listed peers, once each; none for an unknown subnet |
| MembershipEvents.TracksAfter | ipld/resolver/src/behaviour/membership.rs:370-373 | each call keeps what a listener believes equal to the listed and the dangling pairs |
| MembershipEvents.ListenersKeepUp | ipld/resolver/src/behaviour/membership.rs:424-445 | in every run, replaying all events gives exactly the listed pairs and those left dangling by an eviction, and no pair is both |
| MembershipEvents.ListenersExactIff | ipld/resolver/src/behaviour/membership.rs:424-445 | in every run, a listener knows exactly the associations of the cache if and only if no pair dangles |
| MembershipEvents.ListenerLeftBehind | ipld/resolver/src/provider_cache.rs:138-143 | for any peer and two subnets there is a run, with a bound of one, after which the listener believes in an association that the cache has evicted |
| MembershipEvents.RecordsAreAnnounced | ipld/resolver/src/behaviour/membership.rs:424-438 | in every run, a delivered record is announced as skipped if and only if its peer's session is down; in a session it is announced with its delta, new if and only if it is the first, unless the peer was heard before and nothing changed |
| MembershipEvents.RemovalsAreAnnounced | ipld/resolver/src/behaviour/membership.rs:370-373 | in every run, a peer is announced as removed once by each call that makes it unroutable and by each expiry that finds all its records too old, and by nothing else |
| Topics.TopicsClashIff | ipld/resolver/src/behaviour/membership.rs:190-228 | two subnets share a topic of either kind if and only if their names agree after replacing "/" |
| Topics.NetworksClashIff | ipld/resolver/src/behaviour/membership.rs:188-228 | topics of two networks are equal if and only if both the networks and the subnets agree after replacing "/"; topics of different kinds never are |
| Topics.FlattenedEqualIff | ipld/resolver/src/behaviour/membership.rs:190-228 | two names agree after the replacement if and only if they differ at most in "/" against "_" |
| Topics.NoUnderscoresDistinguishes | ipld/resolver/src/behaviour/membership.rs:190-228 | topics tell apart all subnets whose names have no underscore |
| Topics.TopicsFollowSubnets | ipld/resolver/src/behaviour/membership.rs:202-302 | in every run, with refusals, the pre-emptive topics are exactly those of the pinned subnets, each mapped to its subnet, and every provided subnet has its voting topic; voting topics are exact if no change of all subnets was refused |
| Topics.TopicsFollowSubnetsIff | ipld/resolver/src/behaviour/membership.rs:202-302 | that holds in all runs over a set of subnets if and only if no two of their names clash |
| Topics.ProvidedIff | ipld/resolver/src/behaviour/membership.rs:246-283 | in every run, a subnet is provided if and only if some accepted call provided it and none has given it up since; a refused change of all subnets gives up all |
| Topics.PinnedIff | ipld/resolver/src/behaviour/membership.rs:285-302 | in every run, a subnet is pinned if and only if some accepted call pinned it and none has unpinned it since |
| Topics.ClashBreaksPins | ipld/resolver/src/behaviour/membership.rs:202-208 | pinning any two clashing subnets loses the topic of the first |
| Topics.ClashBreaksVotes | ipld/resolver/src/behaviour/membership.rs:265-283 | with any two clashing subnets, removing one unsubscribes the other |
| Topics.FailedSetProvidedExactIff | ipld/resolver/src/behaviour/membership.rs:246-263 | a refused change leaves no topic behind if and only if it got to unsubscribe from all and no further |
| Topics.RefusalLeavesTopic | ipld/resolver/src/behaviour/membership.rs:246-263 | a run that provides one subnet and then fails to give it up ends with nothing provided and its topic still subscribed |
| Topics.MessagesReachTheirSubnet | ipld/resolver/src/behaviour/membership.rs:382-418 | in every run, pre-emptive data reaches the handler with its own subnet if that is pinned and nobody otherwise, votes of provided subnets reach the vote handler, records the membership handler |
| PublishTimer.RescheduleBringsForward | ipld/resolver/src/behaviour/membership.rs:464-490 | the recorded next publication is never later than the timer, and a new peer never delays it; a reschedule brings it strictly forward |
| PublishTimer.OneReschedulePerPublication | ipld/resolver/src/behaviour/membership.rs:476-489 | between two reschedules a publication has succeeded |
| PublishTimer.PublicationsAreSpaced | ipld/resolver/src/behaviour/membership.rs:304-322 | after a success the timer leaves at least the period or twice the minimum gap, whichever is less, through failures and arrivals |
| PublishTimer.NewPeerMovesTimerIff | ipld/resolver/src/behaviour/membership.rs:464-490 | in every run, a new peer moves the timer if and only if we have subnets, no publication succeeded within the minimum gap, and the next is further away than that; it is then due after the gap |
| PublishTimer.NewPeerHearsSoon | ipld/resolver/src/behaviour/membership.rs:464-490 | after such a peer the next publication is no further away than the gap, and so is the timer if no tick has failed, short of the end of the 64-bit clock |
| PublishTimer.NewPeerHearsSoonAfterSuccess | ipld/resolver/src/behaviour/membership.rs:464-490 | the same if no tick has failed since a success |
| PublishTimer.DeadlineFollowsHistory | ipld/resolver/src/behaviour/membership.rs:304-322 | in every run the deadline is one period, or the gap after a new peer that moved it, from when the timer was last set, and one period later for each tick that failed since |
| PublishTimer.WithinAPeriod | ipld/resolver/src/behaviour/membership.rs:304-322 | in every run the timer is never more than one period away |
| Membership.Behaviour.constructor | ipld/resolver/src/behaviour/membership.rs:159-181 | empty cache, outbox and subscriptions; first publication one period away |
| Membership.Behaviour.PinSubnet | ipld/resolver/src/behaviour/membership.rs:285-295 | topic and pin change together, or neither does when gossipsub refuses |
| Membership.Behaviour.UnpinSubnet | ipld/resolver/src/behaviour/membership.rs:297-302 | topic and pin change together, or neither does when gossipsub refuses |
| Membership.Behaviour.UnsubscribeRemoved | ipld/resolver/src/behaviour/membership.rs:249-254 | the first accepted removals take effect, in order, and it is done if and only if all are accepted |
| Membership.Behaviour.SubscribeAdded | ipld/resolver/src/behaviour/membership.rs:255-260 | the first accepted additions take effect, in order, and it is done if and only if all are accepted |
| Membership.Behaviour.SetProvidedSubnets | ipld/resolver/src/behaviour/membership.rs:246-263 | subscriptions, provided list, timer and result for every point at which gossipsub may refuse |
| Membership.Behaviour.AddProvidedSubnet | ipld/resolver/src/behaviour/membership.rs:265-273 | subscriptions, provided list, timer and result, with refusals; nothing happens for a subnet already provided |
| Membership.Behaviour.RemoveProvidedSubnet | ipld/resolver/src/behaviour/membership.rs:275-283 | subscriptions, provided list, timer and result, with refusals; nothing happens for a subnet not provided |
| Membership.Behaviour.PublishMembership | ipld/resolver/src/behaviour/membership.rs:304-322 | a success resets the timer, a failure changes nothing |
| Membership.Behaviour.PublishForNewPeer | ipld/resolver/src/behaviour/membership.rs:464-490 | a step of the timer machine for a new peer |
| Membership.Behaviour.SetRoutable | ipld/resolver/src/behaviour/membership.rs:357-365 | a step of the cache without events, and a new peer for the timer |
| Membership.Behaviour.SetUnroutable | ipld/resolver/src/behaviour/membership.rs:367-373 | a step of the cache, announced by one removal |
| Membership.Behaviour.HandleProviderRecord | ipld/resolver/src/behaviour/membership.rs:420-445 | a step of the cache with its event: skipped, updated with the exact delta, or none; the timer hears of a peer's first record only |
| Membership.Behaviour.HandleSubscriber | ipld/resolver/src/behaviour/membership.rs:457-462 | only subscribers to the membership topic count as new peers |
| Membership.Behaviour.HandleMessage | ipld/resolver/src/behaviour/membership.rs:382-418 | messages are dispatched by topic; undecodable ones change nothing; only the first record of a routable peer reaches the timer |
| Membership.Behaviour.PruneMembership | ipld/resolver/src/behaviour/membership.rs:492-500 | peers older than the maximum age are forgotten and each announced once |
| Membership.Behaviour.Poll | ipld/resolver/src/behaviour/membership.rs:529-545 | events leave in order and first; otherwise a due interval publishes or fails, and prunes either way |
| Service.RequestsProceedIndependently | ipld/resolver/src/service.rs:376-524 | under any interleaving of requests and completions, unknown ones included, what the service holds, has sent and has attempted for a channel is what that request alone would lead to |
| Service.ChannelInOnePlace | ipld/resolver/src/service.rs:376-384 | a requested channel is held by exactly one pending query or was answered exactly once |
| Service.AnswersAreEarned | ipld/resolver/src/service.rs:488-524 | success only after an attempt succeeded; failure only with nobody left to try and all attempts failed |
| Service.OrderOfRequest | ipld/resolver/src/service.rs:462-473 | in every run, a request is tried for its own CID and in the prioritised order of its own providers |
| Service.FailureMeansAllFailed | ipld/resolver/src/service.rs:499-502 | in every run, when a request is told that it failed, each of its providers was in an attempt for its CID that failed |
| Service.SuccessMeansOneSucceeded | ipld/resolver/src/service.rs:494-498 | in every run, when a request is told that it succeeded, an attempt for its CID, made to its providers only, has succeeded |
| Service.BatchIs | ipld/resolver/src/service.rs:526-531 | the k-th batch is the k-th consecutive stretch of the order, no longer than the limit |
| Service.BatchesDisjoint | ipld/resolver/src/service.rs:513-519 | no provider is in two batches of an order without duplicates |
| Service.NoPeerTwice | ipld/resolver/src/service.rs:513-519 | in every run, no two attempts of a request go to the same peer, if its providers are listed once each |
| Service.BatchesCover | ipld/resolver/src/service.rs:513-519 | every provider is in a batch or still to be tried |
| Service.AnsweredAtOnceIff | ipld/resolver/src/service.rs:452-486 | in every run, a new request is answered at once, with a failure, if and only if it has no providers; otherwise an attempt for its CID is in flight |
| Service.SuccessAnswers | ipld/resolver/src/service.rs:494-498 | in every run, a successful completion of the attempt in flight sends exactly one success, and no query holds the channel any more |
| Service.FailingAnswersIff | ipld/resolver/src/service.rs:499-521 | a failing completion of the attempt in flight is answered if and only if the attempts made are the number of providers divided by the limit, rounded up; otherwise, and always with limit 0, one more attempt is made |
| Service.FailingTakesEveryBatch | ipld/resolver/src/service.rs:499-521 | in every run, no request takes more attempts than that, and a failed one has taken exactly as many |
| Service.NeverGivesUpWithoutBatches | ipld/resolver/src/service.rs:499-521 | with limit 0 no run ever tells a request with providers that it failed |
| Service.FallbackShrinksIff | ipld/resolver/src/service.rs:526-531 | each retry leaves fewer fallback peers, except with limit 0, where it leaves all |
| Service.PrioritisedKeepsAll | ipld/resolver/src/service.rs:462-473 | the order has the same providers, each as often as given |
| Service.PrioritisedIsStable | ipld/resolver/src/service.rs:462-473 | among the connected, and among the others, the given order decides |
| Service.ConnectedPeersFirst | ipld/resolver/src/service.rs:462-473 | no connected provider is in a later batch than an unconnected one |
| Service.ResolverService.constructor | ipld/resolver/src/service.rs:178-191 | no queries, no replies |
| Service.ResolverService.SplitPeersForQuery | ipld/resolver/src/service.rs:526-531 | the two groups make up the peers in order; the first is within the limit, and at the limit if anyone is left |
| Service.ResolverService.Partition | ipld/resolver/src/service.rs:465-468 | connected and other peers, each in the given order |
| Service.ResolverService.StartQuery | ipld/resolver/src/service.rs:452-486 | a step of the state machine for a request, answered at once if there are no providers |
| Service.ResolverService.HandleComplete | ipld/resolver/src/service.rs:375-384 | a step of the state machine for a completion, unknown query IDs changing nothing |
| Service.ResolverService.ResolveQuery | ipld/resolver/src/service.rs:488-524 | reply, or retry with the next batch under the new query ID, never both |
| MissingBlocks.FindMissing | ipld/resolver/src/missing_blocks.rs:15-33 | on every acyclic store it terminates; it fails if and only if an unreadable block can be reached, and otherwise returns the missing CIDs in the order of the walk |
| MissingBlocks.OneEntryPerPath | ipld/resolver/src/missing_blocks.rs:10-14 | the result has exactly one entry for each path from the root through stored blocks to an absent CID |
| MissingBlocks.NothingMissingIff | ipld/resolver/src/missing_blocks.rs:10-14 | the result is empty if and only if everything under the root is stored |
| MissingBlocks.WalkEndsIff | ipld/resolver/src/missing_blocks.rs:22-31 | on every store the loop ends if and only if each circle of references that it could enter lies behind an unreadable block; if it ends, it fails if and only if an unreadable block can be reached |
| MissingBlocks.ReadableWalkEndsIff | ipld/resolver/src/missing_blocks.rs:22-31 | where no unreadable block can be reached, the loop ends if and only if no reachable CID leads back to itself |
| MissingBlocks.CircularIff | ipld/resolver/src/missing_blocks.rs:22-31 | references run in a circle if and only if some path is longer than the number of stored blocks, which is so if and only if paths are unbounded |
| MissingBlocks.RankedIsNotCircular | ipld/resolver/src/missing_blocks.rs:22-31 | a store whose blocks can be ranked, as hashing makes them, has no circles |
| MissingBlocks.OrderOfReferencesMatters | ipld/resolver/src/missing_blocks.rs:25-27 | a block that refers to itself and to an unreadable block: with one order of the two the loop ends, with the other it does not |
| Discovery.NothingRoutedBeforeBootstrap | ipld/resolver/src/behaviour/discovery.rs:190-200 | before the last bootstrap step nothing reaches the routing table, and the buffer is exactly the first comers |
| Discovery.RoutedAfterBootstrap | ipld/resolver/src/behaviour/discovery.rs:312-324 | afterwards exactly those kept have been routed, in order and once, then whatever arrived since |
| Discovery.RoutedIff | ipld/resolver/src/behaviour/discovery.rs:190-206 | after the bootstrap an address of a peer is routed if and only if an info that was kept or arrived since is from that peer and lists it, and as many are routed as are listed |
| Discovery.KeptIsBounded | ipld/resolver/src/behaviour/discovery.rs:192-199 | at most the target number is kept, none twice, all speaking our protocol, and nobody is turned away while there is room |
| Discovery.Behaviour.constructor | ipld/resolver/src/behaviour/discovery.rs:120-145 | infos are buffered at first if and only if there are seeds to bootstrap from |
| Discovery.Behaviour.AddIdentified | ipld/resolver/src/behaviour/discovery.rs:185-206 | buffered while bootstrapping, if there is room and the peer is new; routed address by address otherwise |
| Discovery.Behaviour.OnBootstrapProgress | ipld/resolver/src/behaviour/discovery.rs:311-324 | only the last step empties the buffer, into the routing table |
| Connections.SelectNonEphemeral | ipld/resolver/src/behaviour/content.rs:296-321 | the last IP component alone if there is one, and otherwise the address without TCP, UDP and P2P parts, in order |
| Connections.NonEphemeralIs | ipld/resolver/src/behaviour/content.rs:296-321 | the result has no TCP, UDP or P2P part; with an IP component it is one such component, and without it has every other part of the address |
| Connections.EphemeralPartsDoNotMatter | ipld/resolver/src/behaviour/content.rs:296-298 | addresses that differ only in ephemeral parts give the same result, and applying it twice changes nothing |
| Connections.CountsConnectedPeers | ipld/resolver/src/behaviour/discovery.rs:237-252 | for every truthful sequence of connection events the counter never underflows and is the number of connected peers, which are those with an address |
| Connections.AccountedByFirstConnection | ipld/resolver/src/behaviour/content.rs:194-220 | a connected peer is accounted under the address of the first connection of its current session |
| Connections.DialledUnderItsAddress | ipld/resolver/src/behaviour/content.rs:199-203 | a peer whose session began with a connection that we dialled is accounted under the address dialled |
| Connections.InboundShareAnAccount | ipld/resolver/src/behaviour/content.rs:204-209 | peers whose sessions began with inbound connections that differ only in TCP, UDP and P2P parts are accounted under the same address, which has no such part |
| Connections.InboundUnderItsIp | ipld/resolver/src/behaviour/content.rs:204-209 | such a peer is accounted under the last IP component of its address, if there is one |
| Connections.ConnectionCounter.OnSwarmEvent | ipld/resolver/src/behaviour/discovery.rs:237-252 | a step of the counter, recording an underflow |
| Connections.AddressBook.OnSwarmEvent | ipld/resolver/src/behaviour/content.rs:194-220 | a step of the address map: set by a first connection, dropped with the last |
| TopDown.ViewsAreJustified | src/manager/topdown.rs:232-265 | a checkpoint built from any view an agent holds, however stale, carries the messages due at its epoch |
| TopDown.ExecutesNextEpoch | src/manager/topdown.rs:61-71 | whatever is executed next is for the epoch one period on and completes the child to the parent's log at that epoch |
| TopDown.InvAfterAgent | src/manager/topdown.rs:53-206 | every move of an agent, in the main loop and the catch-up loop, with failing submissions, keeps the protocol's invariant |
| TopDown.CheckpointsAreDeterministic | src/manager/topdown.rs:238-257 | all checkpoints ever submitted for one epoch, by any agents at any times, carry the same messages, and none is ahead of the parent |
| TopDown.DeliveryIsExact | src/manager/topdown.rs:215-265 | at every tipset of the child the applied messages are exactly the parent's log at the last executed epoch, a growing prefix, none lost or repeated |
| TopDown.EpochsAreConsecutive | src/manager/topdown.rs:68-71 | each executed epoch is one period after the one before |
| TopDown.SubmittersAreEntitled | src/manager/topdown.rs:73-135 | in every run, whoever submits is one of the managed accounts and a validator at the parent tipset that the agent's round began with, and the child was initialised at the child tipset it read |
| TopDownRound.RoundBeginsIff | src/manager/topdown.rs:53-75 | an agent with an up-to-date view begins a round if and only if the child is initialised and lags by at least one period |
| TopDownRound.RoundSubmits | src/manager/topdown.rs:98-198 | in every round of an agent that nothing disturbs and in which each submission is executed, exactly the lagging checkpoints are submitted for the first validator, as many as whole periods of lag, and the first of them for each further validator; the child ends up at the last of them |
| TopDownRound.NothingSubmittedWithoutValidators | src/manager/topdown.rs:98-100 | such a round submits nothing if no managed account is a validator, and nothing is executed if all that was submitted before was |
| TopDownRound.EveryValidatorVotes | src/manager/topdown.rs:98-143 | whatever fails after being pushed and whatever else happens, when an agent has finished a round, each managed validator has submitted for the round's epoch |
| BottomUp.InvAfterAgent | src/manager/bottomup.rs:61-200 | every move of an agent, in the main loop and the catch-up loop, keeps the protocol's invariant |
| BottomUp.ExecutesNext | src/manager/bottomup.rs:77-84 | whatever is executed next is the next epoch on the grid |
| BottomUp.SubmissionsAreOnTheGrid | src/manager/bottomup.rs:81-131 | every submitted epoch, for every account, is on the grid, at most one period past the last executed one and not past the child's head |
| BottomUp.ExecutedIsTheGrid | src/manager/bottomup.rs:81-131 | in every run, the executed epochs are the grid without gaps and not past the child's head |
| BottomUp.SubmittersAreEntitled | src/manager/bottomup.rs:86-131 | in every run, whoever submits is one of the managed accounts and was, at some point before, a validator of an initialised child |
| BottomUp.CaughtUpWhenNothingIsDue | src/manager/bottomup.rs:143-189 | in every run with any number of agents and failures, if the child's head has stood still and an agent finds nothing due, exactly as many checkpoints were executed as there were whole periods of lag |
| BottomUpRound.RoundBeginsIff | src/manager/bottomup.rs:61-88 | an agent with an up-to-date view begins a round if and only if it read the child as initialised and the child is ahead by at least one period |
| BottomUpRound.RoundSubmits | src/manager/bottomup.rs:84-189 | in every round of an agent that nothing disturbs and in which each submission is executed, exactly the lagging epochs are submitted for the first validator, as many as whole periods of lag, and the first of them for each further validator |
| BottomUpRound.NothingSubmittedWithoutValidators | src/manager/bottomup.rs:105-107 | such a round submits nothing if no managed account is a validator, and nothing is executed if all that was submitted before was |
| BottomUpRound.EveryValidatorVotes | src/manager/bottomup.rs:105-140 | whatever fails after being pushed and whatever else happens, when an agent has finished a round, each managed validator has submitted for the round's epoch |
| BottomUp.ServeAccount | src/manager/bottomup.rs:84-189 | the submissions of a round with a fixed head: each one period past what is executed by then, none past the head, none after a failure; the round ends by itself only with a failure or with nothing due |
| BottomUp.CatchUp | src/manager/bottomup.rs:143-189 | when each submission is executed, a round makes exactly as many as there are whole periods of lag, at consecutive epochs, and leaves less than a period |

## Left out

- Rate limiting: thin calls into libraries that are not part of this model.
- Signed envelopes, vote records and hashing: cryptography and serialisation in foreign crates; records are taken to be authentic.
- Gossipsub, Kademlia, Bitswap, ping, identify and the transports: reduced to events and to calls that may fail.
- The JSON-RPC client and server, the Lotus client, the command line, configuration and wallets: input and output, or conversions in one step.
- Membership.Behaviour.constructor: does not model the check for an empty network name or the pinning of static subnets, which is a series of `PinSubnet` calls.
- Discovery.Behaviour.constructor: does not model parsing of static addresses, a disabled Kademlia or the look-up timer.
- The content of bottom-up checkpoints: the template, the previous checkpoint and the proof are read from the chains and passed on.
- One vote per validator: the code does not check whether a validator has voted, so nothing of the kind is claimed.
- Stopping of the managers: whether all of them receive the stop notification is not decided by this code.
- Events about peers removed from the routing table: they are sent for static peers only, and nothing is built on them.
- Metrics: the gauges do not track the cache.
