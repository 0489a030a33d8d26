# Crabscale, verified

Crabscale is a Tailscale-compatible control server with a DERP relay. This project models the parts of it
whose behaviour is hardest to see from the code and proves what they are for. `dafny verify dfyconfig.toml`
checks all of it.

## What is proved

- **No lost update.** Over every run of registrations, logouts, route and tag changes, map requests, reaping,
  flushes, subscriptions, deliveries and lost batches, each stream's client holds exactly what the server believes
  it sent, and is current whenever it lost no batch and no rescan is pending for it (`Coherence.NoLostUpdate`). A
  batch sent between a stream's map and its subscription is lost; `Coherence.LateSubscriptionIff` says exactly when
  that leaves the client stale. Underneath: a peer delta reproduces
  the current peers if and only if it clears no optional field of a patched peer (`Delta.DeltaConverges`), event
  coalescing is a declarative summary of its window, and the change bus conserves what is published.
- **Policy meaning.** The compiled packet filter of a node admits a packet exactly when the policy allows it
  (`Compile.CompilationPreservesMeaning`), visibility is filter coverage in either direction, group expansion and
  tag ownership are graph reachability on cyclic policies too, and the SSH rule lists agree with a naive scan.
- **Safety over whole runs.** Addresses stay distinct and inside the prefixes, a single-use key authorizes once,
  tags on nodes are tags somebody may use, every admitted SSH connection is justified by the policy or by an
  approval of its own binding, and the session registry's events alternate and are never early.
- **Transport.** DERP frames survive any chunking; WebSocket messages survive any mask key, length form,
  fragmentation and interleaved control frames; DERP over WebSocket is both together, up to the first close frame.
  The relay's presence
  notices are exact for every connection that lost none, and every packet it hands out is genuine.
- **HUJSON.** The parser returns a value exactly on the texts that spell it in the grammar (`Hujson.ParseIff`),
  and reports errors at the line and column of the character it stopped at.

## How the model is built

State that the code updates in place is a class whose methods are proved equal to a function of the old state:
`ControlPlane`, `SessionRegistry`, `Accumulator`, `ChangeBus`, `SessionPeers`, `Ctx`, `TagWalk`, `FrameDecoder`,
`DerpCodec`, `WebSocketCodec`, `WebSocketByteStream`, `RelayServer`, `SshAuths` and `Parser`. The lemmas are
about those functions and about runs of them.

- The clock, random draws, generated ids and the visiting order of hash maps are parameters of each step.
- The SQLite store is a keyed table in id order; an upsert gives back the id of its row, and the id of a deleted
  last row may be used again.
- A stream subscribes in a step of its own, after its initial map. A broadcast receiver is a cursor into the log
  of batches; one that falls more than 256 batches behind loses some, as does one that subscribes after they were
  sent, and the next delivered rescan repairs both.
- Policy texts are classified principals (user, tag, group, autogroup, network, host alias). Address masks are
  integer arithmetic, text orders are one fixed order.

## Findings

Each of these has a lemma with the exact condition and one with an input.

- `send_stream` subscribes to changes only after the first frame is sent. A rescan batch broadcast in between
  reaches no receiver, so the client stays stale with nothing owed to it unless its visible peers are unchanged or
  another rescan is pending (`Coherence.LateSubscriptionIff`, `Coherence.LogoutInGapIsLost`).
- A patch cannot say that an optional field became absent: `Delta.DeltaConverges` fails exactly there
  (`Delta.ClearedLastSeenIsLost`). The peers the control plane builds never do this between two versions of one
  peer, which is why `Coherence.NoLostUpdate` holds without a condition on it.
- `auto_approved_routes` compares only a route's network address, so a route shorter than the approved prefix is
  approved although it is wider (`Routes.ApprovalCoversBlock`, `Routes.TenNetworkApproved`).
- A group name that itself begins with `group:`, and no other, means two things in sources and destinations
  (`Groups.GroupNameUnambiguousIff`, `Groups.BareTrims`).
- `principal_matches_user` follows groups without a guard, and nothing rejects a policy whose groups list each
  other: on two such groups it does not end (`Groups.TwoGroupsNeverEnd`). For a login in no group it ends exactly
  when the chains of groups are bounded (`Groups.RecursionEndsIff`).
- `FrameDecoder::feed` loses frames decoded in a call that ends in an error (`Frame.NothingLostIff`,
  `Frame.FailingFeedDropsFrames`).
- The WebSocket encoder writes pings and pongs over 125 bytes, which its own decoder refuses
  (`WebSocket.EncodeThenDecode`, `WebSocket.LongControlRefused`). A non-final fragment is reported like "need more
  bytes", so a reader that then waits for the socket leaves frames behind it unread (`Transport.PollCompleteIff`,
  `Transport.FragmentsInOneChunkWait`).
- `prune_ssh_auths` is described as deleting the oldest pending records; it deletes by age whatever the verdict,
  and drops accepted records after fifteen minutes, inside their check period (`SshAuth.ApprovalSurvivesIff`,
  `SshAuth.ApprovalForgotten`).
- The HUJSON parser refuses U+007F to U+009F in strings, which RFC 8259 allows (`HujsonRfc.DocumentReadIff`,
  `HujsonRfc.DeleteAndC1Refused`), and an escaped high surrogate swallows another one behind it
  (`HujsonRfc.DecodesAsUsualIff`, `HujsonRfc.HighSurrogateSwallowsPair`).

## Model

| member | source | states |
|---|---|---|
| Coherence.NoLostUpdate | crabscale-server/src/router.rs:675-757 | over every run of control-plane operations, flushes, subscriptions, deliveries and lost batches: the client of every stream holds exactly what the server tracks as sent to it, and a stream that lost no batch since its last rescan, by falling behind or by subscribing after the batch was sent, holds exactly the current visible peers unless a rescan is pending or undelivered |
| Coherence.LateSubscriptionIff | crabscale-server/src/router.rs:675-757 | over every run, a stream opened by one step and subscribed by a later one is up to date after it if and only if its visible peers are still those of its map or a rescan is pending at that moment |
| Coherence.LogoutInGapIsLost | crabscale-server/src/router.rs:675-757 | a peer that logs out, with the batch sent, after the map was built and before the stream subscribes stays with the client although the view has lost it, and nothing is owed to the stream |
| Coherence.EveryRunCoherent | crabscale-control/src/delta.rs:98-179 | the invariant behind it, by induction over runs: every live stream is current or is owed a rescan |
| Coherence.StepCoherent | crabscale-control/src/delta.rs:214-299 | one step of any kind (operation, flush, subscription, delivery, loss, new stream, dropped stream) keeps that invariant |
| Coherence.OpAdvances | crabscale-control/src/lib.rs:459-1502 | every control-plane operation either changes nothing a session could see or leaves a rescan owed to every session, and forgets no rescan owed before |
| Coherence.RegisterAdvances | crabscale-control/src/lib.rs:459-621 | the same for a whole registration, over all its branches |
| Coherence.MapAdvances | crabscale-control/src/lib.rs:1403-1502 | the same for a map request, including the tag change and the session it opens |
| Coherence.ReapAdvances | crabscale-control/src/lib.rs:411-431 | the same for the reaping of idle sessions and ephemeral nodes, in whatever order the registry visits its nodes |
| Coherence.ViewIsVisiblePeers | crabscale-control/src/lib.rs:1593-1622 | the peers of a view are exactly the other rows that are authorized and visible under the compiled policy, each in its wire form |
| Coherence.ViewKeyed | crabscale-control/src/delta.rs:229-253 | a view holds each peer under its own id |
| Delta.DeltaConverges | crabscale-control/src/delta.rs:214-299 | applying the added, removed, replaced and patched peers of a delta to the peers last sent gives exactly the current peers, if and only if no patched peer has an optional field go back to absent |
| Delta.DiffConverges | crabscale-control/src/delta.rs:369-437 | one peer diff reproduces the new snapshot exactly when it is a full replacement or clears no optional field, so the structural and the patched fields together are all fields |
| Delta.ClearedLastSeenIsLost | crabscale-control/src/delta.rs:369-437 | the failing family is inhabited: a last-seen time that disappears is never told to the client |
| Delta.InIdOrderAscends | crabscale-control/src/delta.rs:229-297 | a peer list is in ascending id order and holds each current peer once |
| Delta.BuildCoherent | crabscale-control/src/delta.rs:98-179 | building the response for one batch keeps the client equal to the tracking; after a rescan both are the current peers; a rescan that sends nothing finds the client current already |
| Delta.BuildDelta | crabscale-control/src/delta.rs:98-179 | the method computes the response and the new tracking of the specification, for every batch |
| Delta.DiffPeers | crabscale-control/src/delta.rs:369-437 | the field-by-field comparison with a flag computes the diff: nothing, a full peer or a patch |
| Delta.SessionPeers.FromPeers | crabscale-control/src/delta.rs:40-51 | tracking starts as the peers of the initial map with no key expiry known |
| Delta.SessionPeers.RemoveGone | crabscale-control/src/delta.rs:260-271 | forgets exactly the tracked peers that are no longer current and returns their ids in ascending order |
| Delta.SessionPeers.Track | crabscale-control/src/delta.rs:273-295 | returns the diff of one peer against its tracked snapshot, full when untracked, and tracks the new snapshot and key expiry |
| Delta.SessionPeers.ComputePeerDelta | crabscale-control/src/delta.rs:214-299 | returns the whole delta against the tracked peers and leaves exactly the current peers tracked |
| Events.CoalescingIsSummary | crabscale-control/src/events.rs:128-160 | folding any sequence of events one by one gives the same as reading the sequence once, declaratively |
| Events.BatchSummarizesWindow | crabscale-control/src/events.rs:177-210 | the batch for a window holds exactly the events the window still stands for, in batch order and once each |
| Events.CountIsDrainedLength | crabscale-control/src/events.rs:163-174 | the running count is the length of the batch a drain would emit now |
| Events.CountStep | crabscale-control/src/events.rs:128-174 | one event raises the count by at most one and leaves something pending |
| Events.BusConservation | crabscale-control/src/events.rs:253-270 | in every run the published events are the concatenation of the windows of the broadcast batches and the pending one: nothing is lost, repeated or moved |
| Events.BusBounds | crabscale-control/src/events.rs:253-270 | in every run fewer events than the limit are pending and no batch is empty or longer than the limit |
| Events.DrainKeepsRescan | crabscale-control/src/events.rs:81-90 | a drained batch asks for a peer rescan exactly when the accumulator did |
| Events.Accumulator.ApplyEvent | crabscale-control/src/events.rs:128-160 | the in-place update computes the fold step |
| Events.Accumulator.CountEvents | crabscale-control/src/events.rs:163-174 | the counting loop returns the count of the specification |
| Events.Accumulator.DrainBatch | crabscale-control/src/events.rs:177-210 | the draining loops return the batch of the specification and leave the accumulator empty |
| Events.PushNodeEvents | crabscale-control/src/events.rs:194-208 | appends the events one node stands for, in order |
| Events.ChangeBus.PublishEvent | crabscale-control/src/events.rs:253-261 | adds one event and broadcasts the batch exactly when the limit is reached |
| Events.ChangeBus.FlushPending | crabscale-control/src/events.rs:265-270 | broadcasts what is pending, and nothing when nothing is |
| Sessions.EveryRun | crabscale-control/src/session.rs:62-151 | in every run: live counts are open sessions, live nodes are online without a deadline, idle nodes are online exactly while a deadline stands, transitions alternate starting online, and offline and expiry events come only after the grace has passed with no session open |
| Sessions.LiveIsOpenSessions | crabscale-control/src/session.rs:62-118 | the live count of any node is the number of its open session ids |
| Sessions.SessionRegistry.OpenSession | crabscale-control/src/session.rs:62-99 | the in-place update computes the specification, hands out an unused id and adds exactly it to the node |
| Sessions.SessionRegistry.CloseSession | crabscale-control/src/session.rs:107-118 | the in-place update computes the specification; a second close of the same id does nothing |
| Sessions.SessionRegistry.Sweep | crabscale-control/src/session.rs:122-151 | the sweep visits every node once in some order, emits the events of that order and computes the new registry |
| Groups.ResolveIsReachability | crabscale-policy/src/compile.rs:446-496 | expansion of a principal with the in-progress guard says exactly the facts reachable through the group graph, on cyclic policies too |
| Groups.BareIsReachability | crabscale-policy/src/compile.rs:531-565 | the same for the destination form, which trims the group prefix first |
| Groups.BareAgrees | crabscale-policy/src/compile.rs:531-565 | the two forms agree on every target but a group name that itself starts with the prefix |
| Groups.BareTrims | crabscale-policy/src/compile.rs:531-565 | on every such name they differ: the destination form finds the group of the trimmed name, the source form does not |
| Groups.GroupNameUnambiguousIff | crabscale-policy/src/compile.rs:531-565 | a group name says the same facts in both forms under every policy if and only if it does not start with the prefix |
| Groups.LoginsAgree | crabscale-policy/src/tags.rs:45-60 | on acyclic groups, login membership and group expansion agree for every principal but a tag |
| Groups.RecursionEndsIff | crabscale-policy/src/tags.rs:45-60 | for a login that no group lists, the unguarded membership recursion answers within a number of nested calls if and only if no chain of groups from the principal is longer |
| Groups.ShortChainsEnd | crabscale-policy/src/tags.rs:45-60 | for any login the recursion answers within that number of calls when no chain is longer |
| Groups.TwoGroupsNeverEnd | crabscale-policy/src/tags.rs:45-60 | with two groups that list each other it answers within no number of calls |
| Groups.RankedEnds | crabscale-policy/src/tags.rs:45-60 | on acyclic groups it answers, and its answer is the membership used elsewhere in this model |
| Groups.Ctx.ResolveSingle | crabscale-policy/src/compile.rs:446-496 | the recursive expansion with a mutable set of groups in progress computes the specification, terminates and restores the set |
| Groups.Ctx.ResolveGroupMembers | crabscale-policy/src/compile.rs:465-472 | the member loop merges everything but the autogroup markers |
| Groups.Ctx.ResolveTargets | crabscale-policy/src/compile.rs:427-444 | the target loop computes the union over a target list |
| Groups.Ctx.ResolveDestination | crabscale-policy/src/compile.rs:531-565 | the destination expansion computes its specification |
| Tags.TagOwnedByTags | crabscale-policy/src/tags.rs:85-116 | the walk over owning tags terminates on every policy and answers yes exactly when the tag is held or a chain of owning tags ends at a held one |
| Tags.TagWalk.Walk | crabscale-policy/src/tags.rs:93-114 | one visit of the walk, with its mutable set of visited tags |
| Tags.NothingUnauthorized | crabscale-policy/src/tags.rs:123-136 | an empty list of refused tags means exactly that a user is present and may use every requested tag |
| Compile.CompilationPreservesMeaning | crabscale-policy/src/compile.rs:86-216 | for every policy, node set, node and packet, the compiled filter of the node admits the packet exactly when some access rule with some destination allows it |
| Compile.SourceMeaning | crabscale-policy/src/compile.rs:376-395 | the emitted source list covers an address exactly when one of the rule targets does |
| Compile.DestinationMeaning | crabscale-policy/src/compile.rs:498-565 | a compiled destination matches exactly the nodes its text selects |
| Compile.VisibilityIsFilterCover | crabscale-policy/src/compile.rs:193-213 | a node sees another exactly when a network rule of one covers an address of the other; the relation is symmetric and never reflexive |
| Compile.SourceMatchIsCover | crabscale-policy/src/compile.rs:334-395 | a source list covers an address of a node exactly when the source matches the node |
| Compile.SkippedSourceMatchesNothing | crabscale-policy/src/compile.rs:96-151 | a rule skipped for an empty source list matches no node, so no visibility is lost |
| Compile.FiltersInGlobal | crabscale-policy/src/compile.rs:112-140 | every network rule in a node filter is in the global filter |
| Compile.MatchByFacts | crabscale-policy/src/compile.rs:334-357 | matching a node by a resolved target is matching it by one of its facts or markers |
| Compile.CollectSrcIps | crabscale-policy/src/compile.rs:376-395 | the collecting loops compute the source list |
| Compile.PushDedup | crabscale-policy/src/compile.rs:768-772 | keeps a rule list free of duplicates and adds exactly the rule |
| Compile.CompileAcls | crabscale-policy/src/compile.rs:96-151 | the nested loops over rules, destinations and nodes compute the global filter, the node filters and the reach sets of the specification |
| Compile.CompileGrants | crabscale-policy/src/compile.rs:154-189 | the grant loops append exactly the capability rules of each node |
| Compile.CloseVisibility | crabscale-policy/src/compile.rs:193-213 | the closing loops give every node its visibility set |
| Compile.CompilePolicy | crabscale-policy/src/compile.rs:86-216 | the whole compilation: the global filter, and for every node its filter, grants and visibility as specified |
| Routes.EffectiveAreAdvertised | crabscale-control/src/lib.rs:1728-1745 | the effective routes of a node are exactly the routes it advertises now that an administrator or the policy approved |
| Routes.ClientRecoversRoutes | crabscale-control/src/lib.rs:1666-1682 | a client that reads an absent list as the addresses recovers exactly the addresses and effective routes, for every capability version |
| Routes.ApprovalCoversBlock | crabscale-policy/src/routes.rs:146-178 | a route whose network address lies in an approved prefix lies in it as a whole exactly when it is at least as long as the prefix |
| Routes.WiderRouteApproved | crabscale-policy/src/routes.rs:146-178 | a wider route with the network address of an approved prefix is approved too, and not covered by it |
| Routes.TenNetworkApproved | crabscale-policy/src/routes.rs:146-178 | an entry for 10.0.0.0/24 approves 10.0.0.0/8, which it does not cover |
| Routes.AutoApprovedRoutes | crabscale-policy/src/routes.rs:146-178 | the loops return exactly the auto-approved advertised routes, canonical, in order and once each |
| Routes.RouteList | crabscale-control/src/lib.rs:1297-1311 | the routes of a client: malformed ones dropped, the rest canonical, in order and once each |
| Routes.GatherEffectiveRoutes | crabscale-control/src/lib.rs:1728-1745 | the gathering loops compute the effective routes |
| Routes.OrderedUnique | crabscale-control/src/lib.rs:1303-1310 | two ordered lists with the same members are the same list |
| Net.MembershipIsBlock | crabscale-policy/src/routes.rs:35-53 | the masked comparison decides exactly membership in the address block, for every prefix length |
| Net.CanonicalValid | crabscale-policy/src/routes.rs:29-32 | making a prefix canonical keeps it valid and does nothing the second time |
| Allocator.Range4Sound | crabscale-control/src/ip_allocator.rs:100-118 | IPv4 host ranges for every prefix and length: no intermediate value leaves 32 bits, every draw is a host of the prefix, and neither the network nor the broadcast address |
| Allocator.Range6Sound | crabscale-control/src/ip_allocator.rs:121-139 | the same for IPv6, where the anycast address is excluded |
| Allocator.Allocate | crabscale-control/src/ip_allocator.rs:59-84 | returns a free host of the range, or nothing exactly when every draw hit a used address |
| Safety.EveryHistorySafe | crabscale-control/src/lib.rs:459-1502 | over every run: stored addresses are hosts of the configured prefixes and pairwise distinct, route lists are canonical, and every tag on a node, key or approved registration is one some user may use |
| Safety.SingleUse | crabscale-control/src/lib.rs:985-1015 | over every run, two registrations that gain authorization with the same pre-auth key mean that the key is reusable |
| Safety.GainSpendsKey | crabscale-control/src/lib.rs:459-621 | authorization gained without a followup comes from a key whose secret matches and that is not revoked, expired or spent at that moment, and that is reusable or spent after |
| Safety.SpentStaysSpent | crabscale-control/src/lib.rs:985-1015 | a spent key stays spent along every run |
| Safety.ReloginConsumesNothing | crabscale-control/src/lib.rs:459-621 | relogin of an authorized node consumes no key |
| Safety.ShownIffFiltersCover | crabscale-control/src/lib.rs:1593-1622 | in every safe state a client is shown a peer exactly when the peer is authorized and a compiled network rule of one of the two covers an address of the other |
| Safety.PeerRoutesRecovered | crabscale-control/src/lib.rs:1666-1756 | in every safe state the wire list of a peer, read by any client, is its addresses and its effective routes |
| Control.ControlPlane.RegisterNode | crabscale-control/src/lib.rs:459-621 | the whole registration updates the store, the keys, the pending requests and the bus as specified, over every branch and error |
| Control.ControlPlane.RegisterExisting | crabscale-control/src/lib.rs:473-554 | registration of a known node key: other machine, logout, expiry, relogin, key, interactive |
| Control.ControlPlane.RegisterFresh | crabscale-control/src/lib.rs:556-612 | registration of an unknown node key: expiry, interactive, tags, addresses |
| Control.ControlPlane.Poll | crabscale-control/src/lib.rs:659-725 | a followup: unknown, other machine, expired, undecided, rejected, approved |
| Control.ControlPlane.StartPending | crabscale-control/src/lib.rs:624-652 | an interactive registration is stored with its deadline |
| Control.ControlPlane.ApplyTags | crabscale-control/src/lib.rs:1119-1165 | a tag change keeps, clears or sets the tags with the owner, or is refused with the tags at fault |
| Control.ControlPlane.CreateNode | crabscale-control/src/lib.rs:898-979 | the node of a registration, or nothing when no address is free |
| Control.ControlPlane.LogoutStored | crabscale-control/src/lib.rs:1047-1081 | logout of a tagged, an ephemeral and an ordinary node |
| Control.ControlPlane.LogoutKey | crabscale-control/src/lib.rs:1047-1081 | logout by node key, refused for another machine |
| Control.ControlPlane.ApproveAuth | crabscale-control/src/lib.rs:728-764 | approval of a pending registration, with its tag check and its expiry |
| Control.ControlPlane.RejectAuth | crabscale-control/src/lib.rs:767-782 | rejection of a pending registration, or its removal when expired |
| Control.ControlPlane.CreateAuthKey | crabscale-control/src/lib.rs:1168-1216 | a new pre-auth key, refused for a bad prefix, tags its owner may not use or a prefix in use |
| Control.ControlPlane.RevokeAuthKey | crabscale-control/src/lib.rs:1233-1237 | revocation of a stored key |
| Control.ControlPlane.ApproveNodeRoute | crabscale-control/src/lib.rs:1246-1266 | route approval stores the canonical route once and publishes a change only then |
| Control.ControlPlane.DisapproveNodeRoute | crabscale-control/src/lib.rs:1270-1289 | route withdrawal, the counterpart |
| Control.ControlPlane.HandleMapRequest | crabscale-control/src/lib.rs:1403-1502 | a map request: version and endpoint checks, observed fields, tags, events, session and kind of answer |
| Control.ControlPlane.AdmitSession | crabscale-control/src/lib.rs:367-383 | opens a session and publishes the online change exactly when the registry reports one |
| Control.ControlPlane.ReapSessions | crabscale-control/src/lib.rs:411-431 | publishes offline changes and removes expired ephemeral nodes, in the order the registry visits |
| Control.ControlPlane.CurrentPeers | crabscale-control/src/delta.rs:214-253 | compiles the policy for the stored nodes and gathers exactly the peers of the view |
| Control.GatherPeers | crabscale-control/src/lib.rs:1593-1622 | the peer loop of the map builder |
| Frame.ChunkIndependence | crabscale-derp/src/frame.rs:256-270 | however the bytes are cut, the decoder fails exactly when the uncut bytes make it fail and with the same error; without a failure it returns the frames of the uncut bytes and keeps their remainder, with one a prefix of them |
| Frame.CutFramesRecovered | crabscale-derp/src/frame.rs:256-270 | whole frames and an unfinished one, cut anywhere, are returned in order with the unfinished one kept |
| Frame.FailingFeedDropsFrames | crabscale-derp/src/frame.rs:256-270 | a valid frame with a bad header behind it in the same chunk is dropped with the error; cut apart, it is returned |
| Frame.ReturnedThenLost | crabscale-derp/src/frame.rs:256-270 | the frames of the uncut bytes are those returned, followed by those the failing call had already decoded |
| Frame.NothingLostIff | crabscale-derp/src/frame.rs:256-270 | no frame is lost if and only if nothing fails or some chunk ends at or behind the last good frame and before the bad header is complete |
| Frame.DrainConserves | crabscale-derp/src/frame.rs:256-270 | the drained frames re-encoded, then the rest, are the buffer |
| Frame.DrainRecovers | crabscale-derp/src/frame.rs:228-270 | frames sent back to back come out as sent |
| Frame.FrameRoundTrip | crabscale-derp/src/frame.rs:214-235 | what is encoded decodes to itself, whatever follows it |
| Frame.FrameCanonical | crabscale-derp/src/frame.rs:214-235 | the bytes a decoded frame took are exactly its encoding |
| Frame.DecodeStable | crabscale-derp/src/frame.rs:228-235 | a verdict other than truncated is final |
| Frame.TruncatedIff | crabscale-derp/src/frame.rs:202-235 | a buffer is incomplete exactly when it is shorter than a header or begins a valid frame it does not finish |
| Frame.TypeOf | crabscale-derp/src/frame.rs:140-163 | the frame type of a byte is the one with that code; an unknown byte has none |
| Frame.HeaderRoundTrip | crabscale-derp/src/frame.rs:182-210 | headers within the limit survive encoding |
| Frame.FrameDecoder.Feed | crabscale-derp/src/frame.rs:256-270 | the draining loop returns the frames or the error of the specification and keeps its remainder |
| Frame.DerpCodec.Decode | crabscale-derp/src/codec.rs:132-154 | one call takes the first frame off the buffer, or leaves the buffer alone |
| Frame.DerpCodec.Encode | crabscale-derp/src/codec.rs:160-169 | appends exactly the encoding, or refuses a body over either limit and appends nothing |
| Frame.DerpCodec.DecodeAll | crabscale-derp/src/codec.rs:132-154 | repeated calls give the frames, the remainder and the error of the specification |
| Frame.CodecAgrees | crabscale-derp/src/codec.rs:132-154 | with its default ceiling the codec is the stream decoder |
| Frame.CodecCutsOff | crabscale-derp/src/codec.rs:132-154 | a lower ceiling never changes a frame: the codec stops at the first header above it |
| Frame.CodecConserves | crabscale-derp/src/codec.rs:132-154 | nothing is invented or lost by the codec |
| WebSocket.ParseWire | crabscale-derp/src/websocket.rs:160-249 | any legal frame, under any mask key and any length form that holds it, parses to its fields whatever follows it |
| WebSocket.StepWire | crabscale-derp/src/websocket.rs:160-301 | decoding a buffer that starts with a legal frame surfaces that frame and leaves what follows |
| WebSocket.EncodeThenDecode | crabscale-derp/src/websocket.rs:307-347 | a frame encoded by one role is decoded to itself by the other, in every length form, exactly when it is not a ping or pong of more than 125 bytes |
| WebSocket.LongControlRefused | crabscale-derp/src/websocket.rs:307-347 | every ping or pong over 125 bytes that the encoder writes is refused by the decoder |
| WebSocket.UnmaskMask | crabscale-derp/src/websocket.rs:239-249 | masking with any key is undone by masking again |
| WebSocket.Unmask | crabscale-derp/src/websocket.rs:239-249 | the in-place loop unmasks the whole payload |
| WebSocket.WebSocketCodec.TakeFrame | crabscale-derp/src/websocket.rs:160-249 | takes a complete frame off the buffer and leaves the buffer alone otherwise |
| WebSocket.WebSocketCodec.Decode | crabscale-derp/src/websocket.rs:160-301 | one decoder call computes the step of the specification on the open message and the buffer |
| WebSocket.WebSocketCodec.Encode | crabscale-derp/src/websocket.rs:307-347 | appends exactly the frame bytes for the role, or refuses a message over the limit |
| Transport.DerpOverWebSocket | crabscale-derp/src/websocket.rs:402-441 | DERP frames cut anywhere into messages, those into fragments, with control frames anywhere, the bytes arriving in any chunks and read with any buffers: what is decoded is a prefix of the frames sent and never an error, and all of them when no close frame comes before the last fragment and the reader goes on to the end |
| Transport.DerpUntilClose | crabscale-derp/src/websocket.rs:402-441 | a reader that goes on to the end decodes exactly the DERP frames that were complete before the first close frame |
| Transport.ReadOverWebSocket | crabscale-derp/src/websocket.rs:402-441 | any run of reads takes a prefix of the payload bytes before the first close frame, and all of them when it goes on to the end |
| Transport.ReadsConserve | crabscale-derp/src/websocket.rs:402-441 | the same for any frames already decoded and any bytes buffered |
| Transport.StreamDecodes | crabscale-derp/src/websocket.rs:160-301 | any legal stream of fragments and control frames is decoded into exactly the frames it stands for |
| Transport.MessageReassembled | crabscale-derp/src/websocket.rs:251-295 | one message in any fragments with any control frames between them gives the control frames in order and then one message equal to the fragments joined; a text message in fragments comes out as binary |
| Transport.ReassemblyConserves | crabscale-derp/src/websocket.rs:251-295 | no byte of a fragment is lost, reordered or repeated, and the control frames come out in order |
| Transport.CutsDoNotMatter | crabscale-derp/src/websocket.rs:160-301 | how the bytes are cut makes no difference to the frames, the open message, the remainder or the error |
| Transport.UnfinishedWaits | crabscale-derp/src/websocket.rs:161-223 | an unfinished frame makes the decoder wait and is never taken for an error |
| Transport.PollLosesNothing | crabscale-derp/src/websocket.rs:402-441 | a reader that goes back to the socket at the first call without a frame loses nothing |
| Transport.PollCompleteIff | crabscale-derp/src/websocket.rs:251-295 | such a reader consumes all frames that have arrived if and only if no unfinished fragment has a further frame behind it |
| Transport.FragmentsInOneChunkWait | crabscale-derp/src/websocket.rs:251-295 | a two-fragment message that arrives in one chunk surfaces nothing for that reader, though it is complete |
| Transport.WebSocketByteStream.PollRead | crabscale-derp/src/websocket.rs:402-441 | one read is the specified step; reads conserve the payload bytes and the queued pongs, end only at a close frame, and never take an empty message for the end |
| Relay.EveryRun | crabscale-derp/src/server.rs:274-411 | over every run: the two maps are inverse to each other with no empty key set, queues keep their bound, every packet a connection was told of was sent to its key by a connection registered under the claimed source, and relayed and dropped packets add up to those counted |
| Relay.PresenceIsExact | crabscale-derp/src/server.rs:274-351 | at any moment of any run, for a connection that lost no presence notice to a full queue, what it was told with its own key is exactly the set of registered keys |
| Relay.RouteDelivers | crabscale-derp/src/server.rs:357-411 | a routed packet is appended once to every connection of the destination key with room, under the registered key of the sender, and to nothing else; an unknown destination tells only the sender |
| Relay.RouteCounts | crabscale-derp/src/server.rs:357-411 | a packet is relayed exactly when some connection was handed it, and counts once in all unless its sender is not registered |
| Relay.RegisterKeeps | crabscale-derp/src/server.rs:274-310 | registration keeps the registry sound in whatever order it visits its keys |
| Relay.DeregisterKeeps | crabscale-derp/src/server.rs:317-351 | deregistration keeps the registry sound and removes the connection |
| Relay.Push | crabscale-derp/src/server.rs:283-298 | a send that never waits appends, or drops when the queue is full |
| Relay.RelayServer.RegisterClient | crabscale-derp/src/server.rs:274-310 | the broadcast and snapshot loops compute the specification under a fresh id |
| Relay.RelayServer.DeregisterClient | crabscale-derp/src/server.rs:317-351 | removal from both maps, with the departure broadcast only for the last connection of a key |
| Relay.RelayServer.DeliverTo | crabscale-derp/src/server.rs:396-403 | the delivery loop pushes to every target and reports whether any had room |
| Relay.RelayServer.RouteSendPacket | crabscale-derp/src/server.rs:357-411 | routing computes the specification, over the oversized, unregistered, unknown and delivered cases |
| SshPolicy.FirstMatchIsNaiveScan | crabscale-policy/src/ssh.rs:77-148 | the per-destination list and a naive scan of the whole policy choose the same rule for every connection |
| SshPolicy.CompileSsh | crabscale-policy/src/ssh.rs:77-129 | every node has an entry, holding in policy order exactly the compiled rules whose destination matches it |
| SshPolicy.FirstMatching | crabscale-policy/src/ssh.rs:134-148 | returns the first rule that permits the connection, or none |
| SshPolicy.ParseDuration | crabscale-policy/src/ssh.rs:258-285 | a duration is read exactly when the text spells one or more amounts that add up within 64 bits, and as their sum |
| SshPolicy.ReadingUnique | crabscale-policy/src/ssh.rs:258-285 | a text has at most one reading as amounts and unfinished digits |
| SshPolicy.CompileAction | crabscale-policy/src/ssh.rs:98-108 | accept, or check with the stated period and the default when it cannot be read |
| SshAuth.EveryAcceptJustified | crabscale-control/src/ssh.rs:204-317 | in every run, each admitted connection has the machine of its destination asking, and either the first applicable rule of the policy accepts it or a record of its own binding stands approved, within the period of that rule when nobody was asked |
| SshAuth.ChainMeaning | crabscale-control/src/ssh.rs:362-411 | an approval stands only on an approve of the administrator as the latest decision, followed by refreshes each within its period |
| SshAuth.RecentIff | crabscale-control/src/ssh.rs:362-411 | a connection is admitted without a new decision exactly when the store holds an approval of its binding within the period |
| SshAuth.ThresholdSound | crabscale-control/src/ssh.rs:398-401 | the 64-bit comparison never admits an approval older than the period, and is exact while the period fits |
| SshAuth.PruneBounds | crabscale-control/src/ssh.rs:415-443 | pruning keeps at most the limit, only unexpired records, all of them when they are few enough and else the youngest |
| SshAuth.PruneKeepsIff | crabscale-control/src/ssh.rs:415-443 | pruning keeps a record if and only if it is unexpired and fewer unexpired records than the limit stand behind it |
| SshAuth.HoldKeepsIff | crabscale-control/src/ssh.rs:236-252 | a held request keeps another record under the same condition, whatever the verdict of that record |
| SshAuth.ApprovalSurvivesIff | crabscale-control/src/ssh.rs:236-252 | after a held request a binding is admitted without a new decision if and only if a record of it that the hold keeps is approved within the period |
| SshAuth.ApprovalForgotten | crabscale-control/src/ssh.rs:236-252 | a binding approved at 10 for the default period is asked for again at 1001, because another binding was held at 1000 |
| SshAuth.SshAuths.DecideAuth | crabscale-control/src/ssh.rs:135-172 | approve and reject rewrite the verdict, or drop an expired record |
| SshAuth.SshAuths.RecentAcceptance | crabscale-control/src/ssh.rs:362-411 | the loop finds the latest accepted record of the binding and a hit slides its window |
| SshAuth.SshAuths.PruneAuths | crabscale-control/src/ssh.rs:415-443 | the pruning loops compute the specification within the limit |
| SshAuth.SshAuths.RespondInitial | crabscale-control/src/ssh.rs:204-270 | reject, accept, accept by a recent approval, or hold under a new record |
| SshAuth.SshAuths.RespondFollowup | crabscale-control/src/ssh.rs:276-317 | unknown, expired, other binding, or the verdict |
| Hujson.ParseIff | crabscale-policy/src/hujson.rs:34-44 | the parser returns a value exactly on the texts that spell it in the grammar of RFC 8259 with comments and trailing commas, unique keys, nesting of at most 128 and numbers in range |
| Hujson.GrammarUnambiguous | crabscale-policy/src/hujson.rs:34-44 | no text spells two values |
| Hujson.TriviaNeverMatter | crabscale-policy/src/hujson.rs:129-172 | documents that differ only in comments, white space and trailing commas parse to the same value |
| Hujson.DocumentComplete | crabscale-policy/src/hujson.rs:174-290 | every well-formed document parses to its meaning |
| Hujson.DocumentSound | crabscale-policy/src/hujson.rs:174-290 | whatever parses is a well-formed document and means the result |
| HujsonRfc.DocumentReadIff | crabscale-policy/src/hujson.rs:34-44 | a document of RFC 8259 with comments and trailing commas, keys unique and limits kept, is read if and only if none of its strings and keys holds a plain character from U+007F to U+009F |
| HujsonRfc.StringReadIff | crabscale-policy/src/hujson.rs:292-357 | the same for one string of RFC 8259, with its meaning when it is read |
| HujsonRfc.DeleteAndC1Refused | crabscale-policy/src/hujson.rs:306-308 | the document that is one such character between quotes is refused |
| HujsonRfc.DecodesAsUsualIff | crabscale-policy/src/hujson.rs:359-396 | a string decodes as usual, each high surrogate joining a low one right behind it and any other surrogate replaced alone, if and only if no two adjacent items are escaped high surrogates |
| HujsonRfc.HighSurrogateSwallowsPair | crabscale-policy/src/hujson.rs:359-396 | an escaped high surrogate swallows an escaped high surrogate behind it, and with it the pair the latter began |
| HujsonLex.TriviaSkips | crabscale-policy/src/hujson.rs:129-172 | white space and comments are skipped to the last character |
| HujsonLex.SkipSound | crabscale-policy/src/hujson.rs:129-172 | whatever was skipped is white space and comments |
| HujsonLex.CharsComplete | crabscale-policy/src/hujson.rs:292-396 | a well-formed string reads as what its characters and escapes stand for |
| HujsonLex.CharsSound | crabscale-policy/src/hujson.rs:292-396 | whatever was read as a string is well formed and stands for the result |
| HujsonLex.NumberComplete | crabscale-policy/src/hujson.rs:440-520 | a well-formed number in range reads as its value |
| HujsonLex.NumberSound | crabscale-policy/src/hujson.rs:440-520 | whatever was read as a number is a well-formed token and its value |
| HujsonParser.ParseDocument | crabscale-policy/src/hujson.rs:34-44 | the parser object returns a value exactly when the text spells it, and otherwise an error at the line and column of the specified character |
| HujsonParser.Parser.Bump | crabscale-policy/src/hujson.rs:97-107 | consumes one character and keeps line and column the function of the consumed prefix |
| HujsonParser.Parser.SkipTrivia | crabscale-policy/src/hujson.rs:129-172 | the nested loops skip what the specification skips; an unterminated comment is reported where it starts |
| HujsonParser.Parser.ReadValue | crabscale-policy/src/hujson.rs:174-187 | reads a value as specified and restores the depth |
| HujsonParser.Parser.ReadObject | crabscale-policy/src/hujson.rs:189-249 | reads an object within the depth limit |
| HujsonParser.Parser.ReadMembers | crabscale-policy/src/hujson.rs:204-248 | the member loop, with trailing comma |
| HujsonParser.Parser.ReadMember | crabscale-policy/src/hujson.rs:205-225 | a key not used before, its colon and its value |
| HujsonParser.Parser.ReadArray | crabscale-policy/src/hujson.rs:251-290 | reads an array within the depth limit |
| HujsonParser.Parser.ReadElems | crabscale-policy/src/hujson.rs:266-289 | the element loop, with trailing comma |
| HujsonParser.Parser.ReadString | crabscale-policy/src/hujson.rs:292-315 | the string loop |
| HujsonParser.Parser.ReadEscape | crabscale-policy/src/hujson.rs:317-357 | the escapes |
| HujsonParser.Parser.ReadUnicode | crabscale-policy/src/hujson.rs:359-396 | surrogate pairs and lone surrogates |
| HujsonParser.Parser.ReadHexQuad | crabscale-policy/src/hujson.rs:398-410 | four hexadecimal digits |
| HujsonParser.Parser.ReadLiteral | crabscale-policy/src/hujson.rs:412-438 | a word not glued to another |
| HujsonParser.Parser.ReadNumber | crabscale-policy/src/hujson.rs:440-502 | a number not glued to anything, in range |

## Left out

- Cryptography, the Noise transport, HTTP routing, serde encodings, DNS, OIDC, STUN, metrics and the command line: input and output around the logic.
- Cyclic groups in tag ownership and route approval: the unguarded recursion does not end on them (see Findings), so these members take a rank that shows the groups acyclic; the packet filter, whose expansion has a guard, is proved for cyclic groups.
- Policy text validation and the parsing of ports, protocols and principals: the compiler is modelled from classified principals on.
- Policy reload, `nodeAttrs`, `postures` and tests in the policy file: easy members beside the compiler.
- The wire form of the SSH policy (`build_wire_ssh_policy`) and of user profiles: projections.
- Coherence.NoLostUpdate: key expiry is not part of the compared peers, because the wire node does not carry it; it travels in patches only.
- Coherence.NoLostUpdate: `OnlineChange` and `PeerSeenChange` hints are left out of the client's view; the full peers and patches that carry the same facts are in it.
- Delta.BuildDelta: user profiles, DNS, DERP map and SSH policy of a response are not part of the compared state.
- Relay.EveryRun: keepalive timers, the login handshake and what is queued for a connection after it was deregistered are not modelled.
- Transport.DerpOverWebSocket: is about decoding until the decoder waits; a reader that stops at the first call without a frame is `Transport.PollCompleteIff`.
- SshAuth.EveryAcceptJustified: generated auth ids are taken to be fresh, and clock readings to fit 63 bits.
- Hujson.ParseIff: a number with a fraction or an exponent is its exact decimal value; rounding to double precision is not modelled, the range check is.
- HujsonParser.ParseDocument: error messages are not modelled, their positions are.
- Allocator.Allocate: the random source is the list of draws; that 1024 draws are likely to find a free address is not a statement of this model.
- Store: SQL, migrations and transactions; an operation is one atomic step.
