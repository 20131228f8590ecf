# Subscription service: verified model

This project models the core of the WebSocket subscription service
(`apps/websocket-api`), the writer of the Redis index it reads
(`apps/blockchain-postgres-sync`), and three smaller parts of the same repository:
the load tester's transaction pool, the admin dashboard's rate limiter, and the
exchange's `_headers` rewriting. It proves properties of the model for all inputs,
all runs and all interleavings. `dafny verify dfyconfig.toml` checks everything.

## How it is organised

**The subscription protocol.** A client subscribes directly to topics. A
multi-topic also subscribes it indirectly to every concrete topic that the filter
matches. The registry and each connection's own object record this twice.
- `Registry` and `Subscribers` describe both sides as values: what each operation
  does to the three relations (direct subscriber, link, recorded subtopic).
- `Protocol` is the state machine. Each event is one critical section; events of
  different connections interleave freely, and a subscribe is split into check,
  unlocked resolution and commit.
- `ProtocolInvariant`, `ProtocolExpand`, `ProtocolRuns`, `ProtocolUndo` and
  `StaleCommit` prove the theorems about every reachable state. `ProtocolService` says
  what clients get, and `ProtocolKeys` follows keys, deliveries and refresh times through
  every event; both speak of the registry before and after, not of the checks in between.
- `TopicRegistry`, `Clients`, `Handlers` and `ExpandHandler` are the objects with the
  source's fields and loops. Every method is proved equal to the value-level
  operation, so the theorems apply to them.

**Matching and resolution.** `Glob` is the backtracking matcher, `Topics` the URI
parser. `BoundedSearch` is the early-stopping search over arbitrary members and
`SearchExactness` the walk that says exactly what it finds, `Resolution` its instance
with the source's parser and limits, `ResolutionProof` and `Publisher` the end-to-end
theorems. `ResolvedTopics` shows that what a resolution returns is what a commit may take.

**Per-connection machines.** `Pings`, `Deltas` (with `Clients`), `SlidingWindow`,
`Refreshing`.

**Separate parts.** `RateLimiting`, `LoadTester`, `HeaderRules`, `Headers`,
`HeaderLines`, `HeadersProof`. `Text`, `Numbers`, `Times` and `Wrappers` hold what
several modules share.

A text is a sequence of Unicode characters; percent-encoding goes through their UTF-8
bytes, so a parsed topic is ASCII and the matcher's characters are its bytes. A parsed
topic (`ParsedTopic`) carries what its URI says beside the URI; the source computes it
from the URI on demand. Time is an integer. Unordered iteration over a hash map or set
becomes an arbitrary order that the method returns or that the event carries.

## Results where the code does less than one may expect

- A commit overwrites the recorded subtopics (`client.rs:592`). When the resolution is
  older than an expansion of the same multi-topic, an indirect link is orphaned, and a
  departed client stays in the registry: `StaleCommit.StaleCommitLeaks` builds such a run
  for every multi-topic and matching key, and shows it for every continuation of the run.
  `ProtocolRuns.CommitOrphans` and `ProtocolRuns.ForgottenIffNoOrphan` say exactly when
  it does not happen.
- An unsubscribe leaves exactly the links to keys that are no longer recorded
  (`ProtocolUndo.UnsubscribeLeaves`), so it undoes a later subscribe only under the
  condition of `ProtocolUndo.UnsubscribeUndoesCommit`;
  `StaleCommit.UnsubscribeKeepsOrphan` reaches the other case.
- Such a link also keeps its key. When the client subscribes to the multi-topic again under
  another key, updates through the link carry the old one (`StaleCommit.StaleKeyIsReached`);
  `ProtocolKeys.SourceKeysKeptIff` says exactly when, and in runs without stale commits it
  never happens (`ProtocolKeys.FreshRunSourceKeys`).
- The comment of `resolve_multitopic` promises all existing topics. A Redis scan may
  deliver a member twice; then a successful resolution may omit a topic
  (`ResolutionProof.ResolutionMayOmitATopic`). `ResolutionProof.ResolutionIsCompleteIff`
  says for every delivery whether it does; within the limits, counted with
  repetitions, it never does (`ResolutionProof.WithinLimitsAllIsReturned`).
- The load tester sends a transaction twice in some run exactly when the worst case of
  its three phases exceeds the pool (`LoadTester.NeverSentTwiceIff`). The unclamped pool
  of a positive rate suffices (`LoadTester.DefaultPoolIsSafe`); a clamped pool may or may
  not (`LoadTester.ClampedPool`, `LoadTester.ClampedEitherWay`); and at rate zero, where
  the sustained phase still sends one transaction a second, it suffices up to 42 seconds
  (`LoadTester.ZeroRate`).
- The pool argument needs no upper limit on the rate: without the clamp the rate is
  at most 250,000 (`LoadTester.RateBound`).
- The dashboard's limiter lets through at most one less than twice its maximum in an
  interval as long as its window (`RateLimiting.LessThanTwiceMax`), and more than the
  maximum exactly when the maximum is at least two (`RateLimiting.ExceededIff`).
- A `_headers` file may detach the inserted header again, and then the insertion changes
  nothing; `HeadersProof.NoindexIsServed` says exactly when.

## Model

| member | source | states |
|---|---|---|
| Glob.MatchesIffDenotes | apps/websocket-api/src/topic.rs:162-189 | the recursive reading of a pattern holds exactly when the text splits into the literal pieces with any run at each star |
| Glob.GlobMatch | apps/websocket-api/src/topic.rs:163-189 | the greedy matcher that restarts only from the last star answers exactly the declarative meaning, within a polynomial number of steps |
| Glob.BudgetIsProduct | apps/websocket-api/src/topic.rs:163-189 | the step budget is (restarts + 1) times the width, so quadratic in pattern and text |
| Topics.PercentEncodeNonAscii | apps/websocket-api/src/topic.rs:192-203 | the loop over the UTF-8 bytes encodes character by character, for every Unicode text |
| Topics.EncodedIsAscii | apps/websocket-api/src/topic.rs:192-203 | every encoded text is ASCII |
| Topics.EncodingRoundTrip | apps/websocket-api/src/topic.rs:192-203 | decoding the escapes of an encoded text gives its UTF-8 bytes back, unless it held a percent sign itself |
| Topics.Utf8Decodes | apps/websocket-api/src/topic.rs:192-203 | the bytes of a character are its UTF-8 form: as few as needed, with the right lead and continuation bytes, and they decode to it |
| Topics.ParsesIff | apps/websocket-api/src/topic.rs:39-51 | a text is a topic iff the scheme is followed by a character that starts a type; the topic is then its encoding |
| Topics.ParsedIsCanonical | apps/websocket-api/src/topic.rs:39-51 | parsing its own output changes nothing: a topic has one canonical form |
| Topics.SingleRoundTrip | apps/websocket-api/src/topic.rs:89-105 | a URI reads as a concrete topic exactly when it is built from those two path segments |
| Topics.SingleIsNotMulti | apps/websocket-api/src/topic.rs:63-65 | a concrete topic is never a multi-topic |
| Topics.ParseStateMulti | apps/websocket-api/src/topic.rs:109-136 | the parsing loop computes the filter |
| Topics.FilterMeaning | apps/websocket-api/src/topic.rs:109-136 | a filter exists iff all pairs are well formed and an address and a pattern are listed; it holds exactly the listed values, sorted without repetition |
| Text.LessMeans | apps/websocket-api/src/topic.rs:127-130 | the order of the sorted lists: at the first difference one text ends or has the smaller character |
| Topics.Matches | apps/websocket-api/src/topic.rs:156-159 | true iff the address is listed and some pattern denotes the key |
| Registry.KindMeaning | apps/websocket-api/src/topic.rs:63-136 | which URIs are concrete, which are multi-topics, and which of those have which filter |
| BoundedSearch.ScanOutcome | apps/websocket-api/src/repo.rs:178-209 | a scan keeps the matching members of an initial part, at most one more than each bound, and leaves nothing unexamined unless a bound was exceeded |
| BoundedSearch.ExaminedAtMostOneMore | apps/websocket-api/src/websocket.rs:735-748 | over all indexes together at most one member beyond the total budget is examined |
| SearchExactness.SearchIsWalk | apps/websocket-api/src/websocket.rs:733-757 | the search succeeds iff, walking the indexes with what is left of both budgets, each either fits or is cut where its kept members repeat a topic; then it has found the topics of everything examined |
| SearchExactness.CompleteIff | apps/websocket-api/src/websocket.rs:733-757 | whatever is delivered, the search finds every matching topic iff every index passes so and every topic behind a cut also occurs in an examined part |
| SearchExactness.FirstFailureIsReported | apps/websocket-api/src/websocket.rs:733-757 | a failed search ends with the refusal of the first index that does not pass: for too many members if those read exceed that limit, else for too many keys |
| SearchExactness.WithinLimitsIsComplete | apps/websocket-api/src/websocket.rs:733-757 | within the limits, counted with repetitions, it succeeds and finds every matching topic |
| SearchExactness.SearchIsExact | apps/websocket-api/src/websocket.rs:733-757 | without repeated topics the search succeeds iff within the limits, and then finds all matching topics |
| BoundedSearch.FoundTopicsMatch | apps/websocket-api/src/websocket.rs:733-757 | whatever is delivered, only matching topics are found, none twice |
| BoundedSearch.RefusalIsJustified | apps/websocket-api/src/websocket.rs:745-756 | whatever is delivered, a refusal is for the reason it states |
| Resolution.Keep | apps/websocket-api/src/websocket.rs:727-732 | keeps a member iff it parses to a concrete topic that the filter matches |
| ResolutionProof.TableMeaning | apps/websocket-api/src/websocket.rs:727-732 | what is kept, in plain terms: a member whose topic is built from a listed address and a key that some pattern denotes |
| Resolution.ScanStateIndex | apps/websocket-api/src/repo.rs:178-209 | reading page by page, with a stop inside a page, equals the scan of the whole index |
| Resolution.ResolveMultitopic | apps/websocket-api/src/websocket.rs:710-758 | the loop over addresses returns the sorted result of the search, or its first error |
| ResolutionProof.ResolutionSucceedsIff | apps/websocket-api/src/websocket.rs:703-758 | for every delivery that is read to the end: success iff the filter is short and every address passes the walk, and then exactly the topics of everything examined |
| ResolutionProof.ResolutionIsCompleteIff | apps/websocket-api/src/websocket.rs:703-758 | for every such delivery: the promise of all existing topics is kept iff, besides, every topic behind a cut occurs in an examined part |
| ResolutionProof.WithinLimitsAllIsReturned | apps/websocket-api/src/websocket.rs:703-758 | within the limits, counted with repetitions, every matching topic of the listed addresses is returned |
| ResolutionProof.ResolutionIsExact | apps/websocket-api/src/websocket.rs:703-758 | when no topic is delivered twice: success iff within all four limits, and then every matching topic |
| ResolutionProof.ResolvedTopicsMatch | apps/websocket-api/src/websocket.rs:703-758 | every success has at most 1000 topics, all matching, none twice, and all addresses were read |
| ResolutionProof.RefusalHasItsReason | apps/websocket-api/src/websocket.rs:714-757 | a refusal happens only beyond the limit that it names |
| ResolutionProof.FailureHasItsReason | apps/websocket-api/src/websocket.rs:714-757 | also when Redis does not answer for some address: a failure names a limit that the answers before exceed, or that address |
| ResolutionProof.OmitsIff | apps/websocket-api/src/websocket.rs:733-757 | a topic is omitted from a success iff it occurs behind a cut only |
| ResolutionProof.RepetitionOmits | apps/websocket-api/src/websocket.rs:733-757 | one address, read in any pages, that keeps 1001 members and more: success iff the first 1001 repeat a topic, and then exactly the topics that occur only later are omitted |
| ResolutionProof.ResolutionMayOmitATopic | apps/websocket-api/src/websocket.rs:703-709 | such a delivery exists, so the documented completeness fails |
| Publisher.PublishBatch | apps/blockchain-postgres-sync/src/lib/publisher.rs:107-148 | the loop leaves the keyspace that the events describe, failed commands skipped |
| Publisher.KeyspaceIsExact | apps/blockchain-postgres-sync/src/lib/publisher.rs:107-148 | after any history of state events each published channel holds the value of its last event, each address with one has its index, and there is no other key |
| Publisher.LastValueIsRead | apps/blockchain-postgres-sync/src/lib/publisher.rs:99-106 | so a new subscriber of a published channel reads the value of its last event |
| Publisher.IndexIsExact | apps/blockchain-postgres-sync/src/lib/publisher.rs:32-39 | after any history the index of an address lists exactly the channels published for it |
| Publisher.ChannelOfTopic | apps/blockchain-postgres-sync/src/lib/publisher.rs:32-39 | a channel whose topic is concrete is indexed under the address that encodes to the topic's |
| Publisher.AsciiHistoryIsNormal | apps/blockchain-postgres-sync/src/lib/publisher.rs:5-15 | every history of ASCII state channels meets the hypotheses, and its topics are its channels |
| Publisher.RepeatedDeliveryIsResolved | apps/websocket-api/src/websocket.rs:703-758 | end to end, with every member delivered at least once: after any history a resolution returns only published topics that match, and within the limits, counted with repetitions, all of them |
| Publisher.PublishedTopicsAreResolved | apps/websocket-api/src/websocket.rs:703-758 | end to end, with every member delivered once: after any normal history a resolution succeeds iff within the limits and returns exactly the published topics that match |
| ResolvedTopics.ResolutionMayBeCommitted | apps/websocket-api/src/websocket.rs:333-362 | every successful resolution parses back to a list of matching concrete topics, at most 1000, none twice: what the commit takes |
| Registry.AddedInAnyOrder | apps/websocket-api/src/client.rs:616-622 | links added one by one in any order give one map |
| Registry.DroppedInAnyOrder | apps/websocket-api/src/client.rs:636-680 | links dropped one by one, with abandoned entries removed on the way, give one map in any order |
| Registry.AddSubscriptionEffect | apps/websocket-api/src/client.rs:544-563 | exactly one direct subscriber is added, nothing else changes |
| Registry.RemoveSubscriptionEffect | apps/websocket-api/src/client.rs:565-573 | exactly that direct subscriber goes, and no entry without subscribers stays |
| Registry.DropLinkSetEffect | apps/websocket-api/src/client.rs:636-680 | exactly the links of one client via one multi-topic go, and no entry without subscribers stays |
| Subscribers.AddIndirectEffect | apps/websocket-api/src/client.rs:201-224 | the source is added and the count stays the number of pairs held |
| Subscribers.RemoveIndirectEffect | apps/websocket-api/src/client.rs:243-255 | the source is removed, the flags follow, and the count drops by exactly one if it was held, so the saturating subtraction never saturates |
| Subscribers.RemoveDirectEffect | apps/websocket-api/src/client.rs:233-241 | the direct flag goes; the entry stays iff it is held indirectly |
| TopicRegistry.IndexIsUnique | apps/websocket-api/src/client.rs:443-449 | the topic map determines its address index |
| TopicRegistry.ClientIdsByTopics.EntryOrCreate | apps/websocket-api/src/client.rs:504-523 | looks up or creates the entry; keeps the address index exact and the counters accounting for the entries |
| TopicRegistry.ClientIdsByTopics.RemoveEntry | apps/websocket-api/src/client.rs:526-542 | removes the entry; the address index stays exact, with no empty sets |
| TopicRegistry.ClientIdsByTopics.AddSubscription | apps/websocket-api/src/client.rs:544-563 | the new topic map, with index, counters and size metric kept |
| TopicRegistry.ClientIdsByTopics.RemoveSubscription | apps/websocket-api/src/client.rs:565-573 | the new topic map, with index, counters and size metric kept |
| TopicRegistry.ClientIdsByTopics.UpdateMultitopicInfo | apps/websocket-api/src/client.rs:575-606 | records the subtopics and returns what is new and what is gone |
| TopicRegistry.ClientIdsByTopics.UpdateIndirectSubscriptions | apps/websocket-api/src/client.rs:608-632 | adds and drops one client's links, with the size metric kept |
| TopicRegistry.ClientIdsByTopics.RemoveIndirectSubscriptions | apps/websocket-api/src/client.rs:659-680 | drops one client's links to all recorded subtopics, which it returns |
| TopicRegistry.ClientIdsByTopics.MultitopicsGaining | apps/websocket-api/src/client.rs:705-736 | looking only at one address's index entry gives, once each, exactly the multi-topics that a scan of all topics gives |
| TopicRegistry.ClientIdsByTopics.AnyMultitopicGaining | apps/websocket-api/src/client.rs:741-758 | true iff that result is not empty |
| Clients.Client.AddIndirectSubscription | apps/websocket-api/src/client.rs:201-224 | the object's view becomes that of the value-level operation |
| Clients.Client.RemoveIndirectSubscription | apps/websocket-api/src/client.rs:243-255 | the object's view becomes that of the value-level operation |
| Handlers.CheckSubscribe | apps/websocket-api/src/websocket.rs:264-297 | the subscribe proceeds iff the limits allow it and the sliding window accepts it; each refusal leaves the state its branch leaves |
| Handlers.CommitSubscribe | apps/websocket-api/src/websocket.rs:373-431 | both objects change as the commit event says, or not at all when the repeated checks fail |
| Handlers.UnsubscribeTopic | apps/websocket-api/src/websocket.rs:437-457 | both objects change as the unsubscribe event says |
| Handlers.TakeSnapshot | apps/websocket-api/src/websocket.rs:492-502 | the snapshot of a disconnect, in any order |
| Handlers.CleanupClient | apps/websocket-api/src/websocket.rs:506-516 | the registry changes as the cleanup event says |
| ExpandHandler.ExpandMultitopics | apps/websocket-api/src/websocket.rs:767-823 | registry and connections change as the expand event says, for some order of the gaining multi-topics |
| ExpandHandler.ExpansionSameViews | apps/websocket-api/src/websocket.rs:767-823 | an expansion does not depend on what the connections' handlers are doing |
| ProtocolInvariant.CommitKeeps | apps/websocket-api/src/websocket.rs:373-431 | a commit keeps mirror, limits and registry invariants, though the direct limit is checked only before the unlocked phase |
| ProtocolInvariant.UnsubscribeKeeps | apps/websocket-api/src/websocket.rs:441-453 | so does an unsubscribe |
| ProtocolInvariant.CleanupKeeps | apps/websocket-api/src/websocket.rs:506-516 | so does a disconnect cleanup, and no entry names the client as a direct subscriber afterwards |
| ProtocolService.StartsIff | apps/websocket-api/src/websocket.rs:264-297 | a subscribe may start iff the registry holds the client for the topic in no way, it has fewer direct subscriptions than permitted, and, for a multi-topic, fewer links |
| ProtocolService.CommitGoesThroughIff | apps/websocket-api/src/websocket.rs:373-431 | a commit goes through iff the topic is still not held and the resolved keys fit the limit on links; then both sides hold the topic and every key, under the key of the subscribe, and else nothing has changed |
| ProtocolService.FailedSubscribeLeavesNoTrace | apps/websocket-api/src/websocket.rs:264-371 | a subscribe that fails between its two locked phases leaves the world as it was |
| ProtocolService.WaitingCanEnd | apps/websocket-api/src/websocket.rs:333-431 | a waiting subscribe can fail, and can be committed with exactly the lists that a resolution may deliver |
| ProtocolService.OrdersExist | apps/websocket-api/src/websocket.rs:437-457 | clients can always connect, an idle client can unsubscribe from anything, and every new key can be expanded |
| ProtocolService.EveryClientCanLeave | apps/websocket-api/src/websocket.rs:484-525 | in every reachable state a connected client can be disconnected, and then the registry names it as a subscriber of nothing, with exactly its orphan links |
| ProtocolRuns.EveryRunKeeps | apps/websocket-api/src/websocket.rs:228-525 | in every reachable state registry and connections mirror each other in both directions, no entry is without a subscriber, recorded sets have at most 1000 concrete topics, and counts and limits hold |
| ProtocolRuns.SubscribersAreConnected | apps/websocket-api/src/websocket.rs:790-798 | the branch for a missing client is never taken |
| ProtocolExpand.ExpansionIsExact | apps/websocket-api/src/websocket.rs:784-822 | for any order: who gains which link, which multi-topics record the key, each client's new count as the minimum of its cap and what it wanted, and nothing else changes |
| ProtocolExpand.GainedOrAtCap | apps/websocket-api/src/websocket.rs:790-810 | every subscriber of a gaining multi-topic gains the link on both sides, or is at its cap |
| ProtocolExpand.RecordedIffGained | apps/websocket-api/src/websocket.rs:811-822 | a gaining multi-topic records the key iff, at its turn, one of its subscribers is below the cap; if it does not, all its subscribers are at the cap; where no link is left from before, it is recorded iff somebody gains it |
| ProtocolExpand.OnlySubscribersGain | apps/websocket-api/src/websocket.rs:784-822 | nobody loses a link, and only direct subscribers of gaining multi-topics gain one |
| ProtocolService.GainsIff | apps/websocket-api/src/client.rs:705-736 | a multi-topic gains a key iff it has a subscriber, lists the address, has a pattern that denotes the key, does not record it, and records fewer than 1000 |
| ProtocolKeys.NewKeyReachesSubscribers | apps/websocket-api/src/websocket.rs:767-823 | then every subscriber has the link on both sides, under the key registered for it, or has as many links as permitted |
| ProtocolService.NewLinkHasItsReason | apps/websocket-api/src/websocket.rs:767-823 | conversely a new link means all of this, and that its client had fewer links than permitted |
| ProtocolKeys.RegisteredKeyOrigin | apps/websocket-api/src/client.rs:544-573 | a registered key is that of the commit that registered the client, and no event changes it |
| ProtocolKeys.SourceKeyOrigin | apps/websocket-api/src/client.rs:201-255 | the key of a link is that of the commit, or the one registered when it was gained, and no other event changes it |
| ProtocolKeys.DeliveryOrigin | apps/websocket-api/src/client.rs:189-255 | only an update changes what an entry remembers for its deliveries; a new entry starts as its commit says, or afresh |
| ProtocolKeys.RefreshTimeOrigin | apps/websocket-api/src/client.rs:457-523 | a new entry has the time of the event, and only a refresh moves it, forwards and at least to its own time |
| ProtocolKeys.OwnKeyIsRegistered | apps/websocket-api/src/websocket.rs:394-430 | in every run both sides agree on the key of a direct subscription |
| ProtocolKeys.SourceKeysKeptIff | apps/websocket-api/src/websocket.rs:394-430 | an event keeps all links under the keys of their subscriptions iff it does not re-register a client that still has a link of an earlier subscription under another key |
| ProtocolKeys.FreshRunSourceKeys | apps/websocket-api/src/websocket.rs:373-453 | in every run whose commits drop no recorded subtopic all links have the keys of their subscriptions |
| ProtocolRuns.CommitOrphans | apps/websocket-api/src/client.rs:575-606 | a commit leaves no orphans iff its resolution holds every subtopic still linked via that multi-topic |
| ProtocolRuns.FreshRunHasNoOrphans | apps/websocket-api/src/websocket.rs:373-453 | in every run whose commits drop no recorded subtopic, each link stands for a direct subscription and a recorded subtopic |
| ProtocolRuns.CleanupLeavesOrphans | apps/websocket-api/src/websocket.rs:492-516 | after a cleanup in any order, whatever happened since the snapshot, exactly the orphan links of the client remain, and other clients keep everything |
| ProtocolRuns.ForgottenIffNoOrphan | apps/websocket-api/src/websocket.rs:492-516 | the registry forgets the client iff it had no orphan link |
| ProtocolRuns.CleanDisconnect | apps/websocket-api/src/websocket.rs:484-516 | in every run without stale commits the registry does not mention a client after its cleanup |
| ProtocolUndo.UnsubscribeUndoesCommit | apps/websocket-api/src/websocket.rs:394-453 | a commit and an unsubscribe of it give the client its view back iff it received none of the resolved keys via the multi-topic before, and give the registry back iff, besides, the commit did not change the recorded set of a registered multi-topic |
| ProtocolUndo.UnsubscribeLeaves | apps/websocket-api/src/websocket.rs:441-453 | after an unsubscribe the client keeps, on both sides, exactly the links via the topic to keys that are not recorded with it |
| StaleCommit.StaleCommitLeaks | apps/websocket-api/src/client.rs:586-593 | for every multi-topic and matching key some run leaves a departed client in the registry, and every continuation of it does |
| StaleCommit.StaysForever | apps/websocket-api/src/websocket.rs:228-525 | once a departed client is linked, no event and no continuation of the run takes the link away |
| StaleCommit.UnsubscribeKeepsOrphan | apps/websocket-api/src/websocket.rs:441-453 | for every multi-topic and matching key some run leaves a connected client that does not hold the multi-topic linked via it |
| StaleCommit.StaleKeyIsReached | apps/websocket-api/src/websocket.rs:394-453 | for every multi-topic, matching key and two client keys some run ends with a link under the key of an earlier subscription |
| Pings.ClientSender.SendPing | apps/websocket-api/src/client.rs:383-389 | a ping takes the next number and becomes pending |
| Pings.ClientSender.HandlePong | apps/websocket-api/src/client.rs:371-381 | a pong for a pending ping clears it and all earlier ones; any other is refused and changes nothing |
| Pings.EveryRunIsOk | apps/websocket-api/src/websocket.rs:209-224 | in every run numbers have no gaps, pending are exactly the pings above the greatest accepted pong, and never more than the threshold |
| Pings.PongAccepted | apps/websocket-api/src/client.rs:370-381 | a pong is accepted iff it answers a ping above the greatest accepted one |
| Pings.EverythingIsSent | apps/websocket-api/src/client.rs:366-389 | an open session has sent exactly what was posted and a ping for each tick, in order and with consecutive numbers |
| Pings.EndsIff | apps/websocket-api/src/websocket.rs:209-224 | a session ends exactly at a tick with as many unanswered pings as the threshold and at a pong for nothing unanswered; then nothing more is sent |
| Deltas.StreamHoldsLatest | apps/websocket-api/src/client.rs:106-118 | merging the stream gives the latest balance, for every sequence of values |
| Deltas.AlwaysLatest | apps/websocket-api/src/client.rs:106-118 | and at every point of the stream |
| Deltas.LatestIs | apps/websocket-api/src/client.rs:291-298 | the remembered balance is that of the last value that is a balance |
| Deltas.DeltaIs | apps/websocket-api/src/client.rs:106-118 | after an earlier balance only the changed field is sent, if only one changed, and otherwise the whole balance; everything else is sent as it is |
| Clients.Client.SendSubscribed | apps/websocket-api/src/client.rs:274-289 | the first value goes out in full and is remembered if it is a balance |
| Clients.Client.SendUpdate | apps/websocket-api/src/client.rs:291-330 | one direct message and one for each parent multi-topic, with consecutive numbers; the balance is remembered |
| Clients.DirectMessagesAreStream | apps/websocket-api/src/client.rs:274-309 | however many updates follow, the direct messages are one `subscribed` message and then updates, and carry the delta stream of all values |
| Clients.LinkIsDelivered | apps/websocket-api/src/client.rs:311-317 | among the messages of an update exactly one is for each multi-topic that holds the topic, under the key of its link and in an array |
| Handlers.KeyIsUpdatedThroughMultitopic | apps/websocket-api/src/websocket.rs:394-430 | after a commit under a key, an update of each resolved topic is sent exactly once through the multi-topic, under that key |
| Clients.UpdateWithoutSubscription | apps/websocket-api/src/client.rs:291-309 | a topic held only through multi-topics has no direct message, and only its balance is remembered |
| Handlers.AnsweredOnce | apps/websocket-api/src/websocket.rs:396-430 | for any resolution and any list of updates, a subscribe to a topic not held is answered by exactly one `subscribed` message, which comes first: at once with a value, else with the first update; every other message is an update |
| Handlers.UpdateIsDelivery | apps/websocket-api/src/client.rs:291-330 | an update is a delivery event of the protocol: one entry of one client changes, and neither what is subscribed nor why nor under which key |
| Clients.SubscriberHoldsLatest | apps/websocket-api/src/client.rs:274-309 | a direct subscriber that merges its messages holds the server's latest balance at every point, whether the first value came at once or later |
| Clients.Client.TryRecordMultitopicSubscribe | apps/websocket-api/src/client.rs:144-161 | the loop over the queue computes the decision and the queue of the specification |
| SlidingWindow.AcceptedIff | apps/websocket-api/src/client.rs:142-161 | for any calls in time order, a call is accepted iff fewer than `max` acceptances lie less than the window before it |
| SlidingWindow.AtMostMaxInWindow | apps/websocket-api/src/client.rs:142-161 | every half-open interval as long as the window holds at most `max` acceptances |
| Refreshing.SplitBatches | apps/websocket-api/src/repo.rs:222-252 | the batches join to the topic list, none is empty or larger than the ceiling, and there are no more than the threads |
| Refreshing.CollectExpiring | apps/websocket-api/src/refresher.rs:36-51 | collects exactly the topics last refreshed before the threshold |
| Refreshing.ExpiringIff | apps/websocket-api/src/refresher.rs:36-51 | a topic is due iff it was not refreshed for more than half the TTL |
| Refreshing.PassRefreshesWhatIsDue | apps/websocket-api/src/refresher.rs:28-85 | a pass moves exactly the topics that were due when it began, to a time within the pass |
| Refreshing.StoreRefreshed | apps/websocket-api/src/refresher.rs:69-76 | the loop stores the refresh times in any order, with the registry's invariants kept |
| Refreshing.StoreAllEffect | apps/websocket-api/src/client.rs:477-485 | storing refresh times never moves one backwards, and changes only refreshed topics |
| Refreshing.TtlSafety | apps/websocket-api/src/refresher.rs:28-85 | with every pass ending less than half the TTL after the one before began, no registered topic's age ever reaches the TTL, however the registry changes in between |
| Refreshing.ProtocolEventIsChange | apps/websocket-api/src/refresher.rs:28-85 | every event of the subscription protocol other than a refresh is such a change of the registry |
| RateLimiting.RateLimiter.CheckRateLimit | apps/admin-dashboard/src/lib/rateLimiter.ts:25-42 | the decision, the wait and the new window of the key, other keys untouched |
| RateLimiting.RateLimiter.Cleanup | apps/admin-dashboard/src/lib/rateLimiter.ts:18-23 | removes exactly the expired windows |
| RateLimiting.CleanupIsInvisible | apps/admin-dashboard/src/lib/rateLimiter.ts:18-42 | running the cleanup at any moments changes no decision |
| RateLimiting.AcceptedIff | apps/admin-dashboard/src/lib/rateLimiter.ts:25-42 | a call is accepted iff the last window has ended, or fewer than the maximum were accepted since it began |
| RateLimiting.RetryIsLeast | apps/admin-dashboard/src/lib/rateLimiter.ts:37-40 | the wait is the least number of whole seconds until the window is no longer open |
| RateLimiting.LessThanTwiceMax | apps/admin-dashboard/src/lib/rateLimiter.ts:25-42 | every half-open interval as long as the window holds at most one less than twice the maximum |
| RateLimiting.BoundIsReached | apps/admin-dashboard/src/lib/rateLimiter.ts:25-42 | that bound is reached, for every maximum and window of at least two |
| RateLimiting.ExceededIff | apps/admin-dashboard/src/lib/rateLimiter.ts:25-42 | for every positive maximum: some run exceeds it in such an interval iff the maximum and the window are at least two |
| LoadTester.PresignBatch | apps/load-tester/src/tx.rs:177-185 | round-robin senders, each with its own consecutive timestamps, give a pool without equal transactions |
| LoadTester.RunPhase | apps/load-tester/src/worker.rs:69-99 | a phase takes one index for each tick before its deadline, and nothing from an empty pool |
| LoadTester.PlanIsTheSum | apps/load-tester/src/cli.rs:67-76 | the plan is the sum of rate times duration over the phases, and the pool is half as much again, rounded down, unless clamped |
| LoadTester.TicksBound | apps/load-tester/src/worker.rs:74-82 | a phase has at most one tick more than the rounded-up number of intervals |
| LoadTester.BoundIsReached | apps/load-tester/src/worker.rs:74-82 | that bound is reached |
| LoadTester.WorstCaseIsReached | apps/load-tester/src/worker.rs:69-99 | the sum over the three phases is reached by some run |
| LoadTester.NeverSentTwiceIff | apps/load-tester/src/worker.rs:77-95 | for every pool of different transactions: no run sends one twice iff that sum is at most the size of the pool |
| LoadTester.PoolSuffices | apps/load-tester/src/cli.rs:67-76 | for every positive rate and every duration, without the clamp, that sum is at most the size of the pool |
| LoadTester.DefaultPoolIsSafe | apps/load-tester/src/cli.rs:67-76 | so no run with the default pool sends a transaction twice |
| LoadTester.RunAll | apps/load-tester/src/worker.rs:77-95 | with one cursor over all phases, nothing is sent twice iff the clocks tick at most as often as the pool is large |
| LoadTester.ZeroRate | apps/load-tester/src/cli.rs:67-76 | at rate zero nothing is sent twice iff the duration is at most 42 seconds |
| LoadTester.ClampedPool | apps/load-tester/src/cli.rs:73-75 | with the pool clamped, nothing is sent twice in any run iff the worst case is at most the clamp |
| LoadTester.ClampedEitherWay | apps/load-tester/src/cli.rs:73-75 | both happen at 1000 transactions a second: 7000 seconds fit, 9990 do not |
| Headers.ParseHeadersFile | apps/exchange/scripts/verifyHeaders.js:27-52 | the loop computes the rules, or the first error |
| HeaderRules.ReadKeepsLines | apps/exchange/scripts/verifyHeaders.js:27-52 | the rules say what the lines say, in their order; only blank lines and comments are left out |
| HeaderRules.FailsIffWrong | apps/exchange/scripts/verifyHeaders.js:40-46 | parsing fails iff a line is malformed or belongs to no pattern, and reports the first one |
| HeaderLines.TrimMeaning | apps/exchange/scripts/verifyHeaders.js:31-36 | trimming leaves a text without white space at its ends, and takes away nothing else |
| HeaderLines.LowerMeaning | apps/exchange/scripts/verifyHeaders.js:43-48 | each capital letter becomes its small one, and everything else stays |
| HeaderLines.BlankLine | apps/exchange/scripts/verifyHeaders.js:31 | a blank line says nothing |
| HeaderLines.EntryLine | apps/exchange/scripts/verifyHeaders.js:30-42 | an indented line is the entry between its white space, and with or without a carriage return |
| HeaderLines.PatternLine | apps/exchange/scripts/verifyHeaders.js:30-39 | a line that is not indented and no comment is a pattern |
| HeaderLines.CommentLine | apps/exchange/scripts/verifyHeaders.js:31 | comments say nothing, wherever they begin |
| HeaderLines.ValueEntry | apps/exchange/scripts/verifyHeaders.js:45-50 | a name before the first colon, in small letters, and the value behind it |
| HeaderLines.DetachEntry | apps/exchange/scripts/verifyHeaders.js:42-44 | what follows an exclamation mark and a space, in small letters, is detached |
| HeaderLines.MalformedEntry | apps/exchange/scripts/verifyHeaders.js:45-46 | an entry without a colon, or with one in front, is malformed |
| HeaderLines.WrittenFileIsRead | apps/exchange/scripts/verifyHeaders.js:27-52 | a file written from any rules parses to the same rules |
| HeaderRules.HeadersForPattern | apps/exchange/scripts/verifyHeaders.js:58-71 | the loops compute the merge of all rules of the pattern |
| HeaderRules.MergedMeaning | apps/exchange/scripts/verifyHeaders.js:54-71 | a pattern serves a header iff it has values since it was last detached, and then all of them, comma-joined |
| Headers.WithNoindexHeader | apps/exchange/scripts/verifyHeaders.js:79-87 | the loops insert the line after the indented lines of the first catch-all pattern, or fail without one |
| HeaderLines.IndentedIff | apps/exchange/scripts/verifyHeaders.js:84 | a line is indented iff it begins with white space and has something else |
| HeadersProof.Parts | apps/exchange/scripts/verifyHeaders.js:79-87 | the new line stands behind all indented lines that follow the first catch-all line, and before the first line that is not indented |
| HeadersProof.InsertedIffRule | apps/exchange/scripts/verifyHeaders.js:79-87 | for every text that parses, the insertion succeeds iff some rule has the catch-all pattern |
| HeadersProof.InsertionKeepsRules | apps/exchange/scripts/verifyHeaders.js:79-87 | then the result parses to the same rules with one entry more in the first rule for the pattern |
| HeadersProof.OnlyNoindexChanges | apps/exchange/scripts/verifyHeaders.js:58-87 | every other pattern and every other header is served as before |
| HeadersProof.NoindexIsServed | apps/exchange/scripts/verifyHeaders.js:73-87 | the pattern serves the new value, alone or joined to what was there, iff no rule for it detaches that header behind the new entry; otherwise its headers stay as they were |

## Left out

- The `Update::Multi` branch of `updates_handler`: it changes the registry and the clients in separate critical sections, with a read between them that may fail, and the publisher documents no such channel.
- Redis, sockets, channels, tracing and timers: Redis is maps and sets, a lock is an atomic event, time is an integer, and sends to a live client succeed.
- Delivery of keys first written inside the window that the comment at websocket.rs:330-332 describes.
- The semaphore and timeouts of the unlocked phase: an event `Fail` may end it at any time.
- A multi-topic URI without a readable filter: its subscribe fails in the unlocked phase, so it is never registered.
- `get_subscribed_clients`, `shard.rs` and `limits.rs`: a lookup and counters that would only add easy members.
- Integer widths: counters and message numbers are unbounded, so the overflow of an `i64` after 2^63 messages is not modelled.
- Refused refresh passes and passes skipped for want of the lock: TTL safety is stated for passes that succeed in time. A thread count of zero, on which the source divides by zero, is excluded.
- The error messages for refused subscribes other than "already subscribed": the handler returns the refusal, and the session loop, which is left out, words it.
- Load rates above one transaction a microsecond: the interval is then zero, which the timer library refuses.
- LoadTester.RunPhase: does not model the spawned broadcasts, because only the index taken from the cursor decides which transaction is sent.
- Publisher.PublishBatch: does not model `PUBLISH` and the transaction channels, because they leave the keyspace as it is.
- Publisher.PublishedTopicsAreResolved: assumes ASCII addresses, that no two published channels have one normal form, because two such channels are one topic, and a scan without repetitions; every ASCII history meets the first two, and Publisher.RepeatedDeliveryIsResolved needs only the first.
- Headers.ParseHeadersFile: lower-cases ASCII letters only, because header names are ASCII; other letters keep their case in the model.
- Clients.Client.SendUpdate: balances are a datatype and other JSON texts are kept as they are, because the JSON library is not part of this model.
- Regular expressions, URL parsing and bundle scanning in `verifyHeaders.js`; hashing, signing and base58 in the load tester; all user interfaces and routes.
