# Relay: a verified model

The relay lets the participants of a room exchange UDP datagrams. This project models its in-memory core and proves
what that core promises:

- **The store** (`internal/store`): rooms, grants, handshakes, bindings, three reverse indexes, two counters, the
  limiters of every owner, the bounded table of sources, the sweep. The modules from `StoreModel` to `StoreVerdicts` state
  the operations on values and prove the theorems over every state, step and run; `StoreObject` is the object itself, whose methods update
  its fields in place and are proved to be exactly those operations.
- **Lobbies and Quick Match** (`internal/lobby`): ownership maps, first-in first-out queues, a match that commits only
  after a fallible allocation, expiry of whole groups. `Lobbies` to `LobbyRecords` are the operations on
  values, `LobbyManager` is the object over a real store.
- **The UDP relay** (`internal/relay/udp.go`): one effect per datagram, one class of charges, balanced counters, and
  exactly the writes of the effect (`UdpRelay`); what a client gets for each datagram (`UdpService`).
- **The kernels**: the replay window, the transcripts under the tags, player tokens, token buckets, the codec's bounds.

The central theorems: `StoreRuns.StepKeepsInv` and `StoreFreshness.AllRuns` (every run of the store keeps the invariant
of the repository's own runtime checker), `StoreSweep.SweepIsTransparentToReaders` and `SweepIsComplete`,
`StoreHandshake.ClientGetsThrough` and `AuthenticationIsRepeated`, `StoreLifetimes.RoomLastsExactly` and
`CreationAnswersExactly`, `StoreAmounts.SpendingWithinBudget`, `UdpRelay.ServeChargesOneClass`,
`UdpService.DataIsRelayed`, `SourceEviction.EvictionIsUnobservable`, `LobbyManager.Manager.AllocateMatch`,
`LobbyRuns.ReachableStates` and `OneChangePerRevision`, `LobbyRecords.MatchQueueExactly`, `QuickMatch.EnqueueKeepsInv`, `Transcript.TranscribeInjective`, `PlayerToken.VerifyExactly` and
`Pagination.WalkFromStart`.

## Assumptions

- **Clock.** Every operation takes a reading of the wall and the monotonic clock; both are integers in nanoseconds, with
  the saturation and clamping of 64-bit durations written out. Readings may be arbitrary unless a theorem says that they
  do not go back.
- **Random stream.** Reads come from an arbitrary stream, any of which may fail. The invariant needs one hypothesis: a
  new grant draws an identifier that no resident grant carries, live or ended. The program checks live grants only
  (`internal/store/store.go:566-581`), but deletes an ended grant by its identifier a second time
  (`internal/store/store.go:651-685`). `StoreRepeats` proves that this is exactly what is needed, and gives a run in which
  a live grant would be lost. `StoreFreshness` discharges the hypothesis for a stream that never repeats a value.
- **HMAC** is an uninterpreted function of a key and a message (RFC 2104, section 2). `PlayerToken` also takes its values
  to be 32 bytes long.
- **Limiters** are exact token buckets over integers: tokens scaled by 10^9, time in nanoseconds.
- **Configuration.** Limits satisfy the bounds of `Admission.Limits.Valid`, as the constructor of the store requires.
- **One critical section, one step.** Every public method runs under one mutex and is one atomic step. The interleaving
  points that remain are modelled: any run may come between ingress and fan-out, between a sweep and an access, and
  between two calls of the lobby manager.

## Layout

Each module is one file. `Prelude`, `RateLimit`, `Admission`, `ReplayWindow`, `Transcript`, `Identifier`, `Base64` and
`Definitions` are the vocabulary. A record of the program is a value; a pointer to a grant is a number into the table
`heap`, and a pointer to a limiter is its name, so that aliasing is explicit.

## Model

| member | source | states |
|---|---|---|
| `StoreRuns.StepKeepsInv` | internal/store/relay.go:175-757 | Any operation on the store, in any state of the invariant: the invariant survives if and only if a created room draws identifiers that no resident grant carries; the operation ends nothing unexpired - no grant, secret, challenge, kept handshake, binding, room or reserved name - or completes one handshake, or ends one room; and nobody is told that a grant is revoked |
| `StoreRuns.ReachableStates` | internal/store/store_test.go:1573-1686 | After any run on a new store the session counter is the number of live resident grants, the room counter that of open rooms, both within their limits, the source table holds at most 4096 entries, and no next operation reports a revoked grant |
| `StoreRuns.Run` | internal/store/store_test.go:1573-1686 | The state after any run satisfies the whole invariant: exact reverse indexes, exact counters, limiters and secrets exactly for their live owners, nested deadlines, and a kept handshake that matches the current binding |
| `StoreRuns.EndRoomKeepsInv` | internal/store/store.go:441-460 | Ending a room keeps the invariant, succeeds exactly for a valid identifier, removes exactly the grants of that room and leaves a tombstone for the configured time; it changes nothing else |
| `StoreRuns.OnlyRebindingOrEndingEnds` | internal/store/relay.go:435-547 | An unexpired binding is ended only by a completed authentication of the same grant or by the end of its room |
| `StoreRuns.BindingSurvives` | internal/store/relay.go:731-757 | A binding outlives every run that stays before its deadline and neither completes another handshake of its grant nor ends its room; only its replay window moves, and only forward |
| `StoreRuns.HandshakesSurvive` | internal/store/relay.go:688-757 | A grant with its secret, and the challenge, kept handshake and binding of it that last until some instant, outlive every run before it that neither completes another handshake of the grant nor ends its room |
| `StoreRuns.GoneForGood` | internal/store/store.go:651-685 | A grant record that left the store is never resident again |
| `StoreRuns.GenerationCountsBindings` | internal/store/relay.go:505-543 | While a grant lives its generation counts the bindings it was given, modulo 2^64 |
| `StoreRuns.GenerationIncreasesUntilWrap` | internal/store/relay.go:505-543 | With at least one new binding in between, the generation of a live grant differs, and it is larger exactly if it did not wrap |
| `StoreRuns.IdentifierIsNotReused` | internal/store/relay.go:584-595 | A binding identifier that is not drawn again names the same binding of the same grant for the rest of the run, or none |
| `StoreRuns.StaleIsRefused` | internal/store/relay.go:226-241 | What ingress admitted under a binding that was since replaced or removed is refused by fan-out without effect, one whose binding has expired is refused as expired, and only a value of the binding still in place is served; this holds after any run between ingress and fan-out |
| `StoreRuns.AdmittedAtMostOnce` | internal/store/relay.go:353-364 | The sequence of a packet of the current binding is spent whether the packet was admitted, rate limited or a replay: no later packet with it is admitted under that binding after any run |
| `StoreFreshness.StepDraws` | internal/store/relay.go:571-595 | Over a random stream that never repeats a value every step is fresh, all identifiers in use were drawn, and only a new draw names a new binding |
| `StoreFreshness.RunsAreFresh` | internal/store/store.go:566-581 | Over such a stream every run of any operations meets the freshness hypothesis |
| `StoreFreshness.NeverRedrawn` | internal/store/relay.go:584-595 | Over such a stream no identifier in use is bound again |
| `StoreFreshness.AllRuns` | internal/store/relay.go:175-757 | All runs of a new store over such a stream: the invariant holds at the end, and a value admitted in the middle is served by fan-out only while its very binding is in place |
| `StoreFreshness.CreateIsSound` | internal/store/store.go:327-425 | Creating a room over such a stream draws fresh identifiers, which stay drawn |
| `StoreFreshness.EndIsSound` | internal/store/store.go:441-460 | Ending a room leaves every identifier in use drawn |
| `StoreNames.IdentitiesKept` | internal/store/relay.go:700-757 | An operation that creates nothing leaves each grant that stays resident its room, participant, session, identifier and deadlines |
| `StoreNames.RunKeepsNames` | internal/store/store.go:523-564 | In every state reached from one in which it holds, each resident grant is for a valid room, participant and session identifier |
| `StoreRepeats.DeletionsStayExactIffFresh` | internal/store/store.go:566-581 | Committing a room leaves all indexes exact whatever was drawn; deleting any ended grant by its identifier keeps them exact if and only if the new identifiers are carried by no resident grant |
| `StoreRepeats.RepeatedIdentifierLosesALiveGrant` | internal/store/store.go:678-685 | A run that shows it: create a room with a short and a long grant, sweep after the short one, create a room that draws the ended identifier; all indexes are exact, but deleting the ended grant by its identifier would lose the new live one |
| `StoreRepeats.RepeatedCommit` | internal/store/store.go:678-685 | Any commit that repeats the identifier of a resident grant endangers the new grant in this way |
| `StoreCreation.DeletionIsExactIffUnshared` | internal/store/store.go:678-685 | Deleting an ended grant by its identifier keeps the grant index exact if and only if no live grant shares the identifier |
| `StoreCreation.SharedIdentifierLosesALiveGrant` | internal/store/store.go:678-685 | The smallest index on which that deletion is wrong |
| `StoreCreation.AddRoomKeepsInvIffFresh` | internal/store/store.go:406-424 | The commit of a new room keeps the invariant if and only if its identifiers are fresh, and ends nothing unexpired |
| `StoreCreation.CreateRoomKeepsInv` | internal/store/store.go:327-425 | Creation keeps the invariant exactly when what it commits is fresh; every error leaves the store as it was but for an expired tombstone of that name and for the random stream, which only a failed draw has moved; a retry changes nothing |
| `StoreCreation.CreatedAllocates` | internal/store/store.go:327-425 | A success means the room is open for the canonical definition and the answer is its allocation; a new room answers with the drawn identifiers and secrets, all issued |
| `StoreCreation.RetryReturnsTheRoom` | internal/store/store.go:337-354 | A retry with the participants of an allocated room in any order draws nothing, changes nothing, and answers the same grants while the room is accessible; later it is a conflict |
| `StoreLifetimes.CanonicalExactly` | internal/store/store.go:523-564 | A request has a canonical form exactly if its identifiers are valid and distinct, its size is its capacity and within the limit, and no grant outlasts the room; otherwise the error is determined |
| `StoreLifetimes.DeadlineExactly` | internal/store/store.go:356-369 | A lifetime is granted exactly if it is positive, within its limit and on the monotonic clock, and then in full |
| `StoreLifetimes.CreationAnswersExactly` | internal/store/store.go:327-425 | What every creation answers: the error of a malformed request; a conflict under a taken name, but for the retry of an accessible room; and under a free name ErrInvalid exactly for a bad lifetime, ErrCapacity exactly for a missing place, ErrFatalRandom exactly for a lost stream, in this order |
| `StoreLifetimes.NewRoomLasts` | internal/store/store.go:406-424 | A new room and each of its grants last exactly as long as asked for, from the reading on, and start with full limiters of the configured rates; everything else is as it was |
| `StoreLifetimes.StoreStartsFull` | internal/store/store.go:291-325 | The limiters of the relay start full, at the configured rates, and no source is known |
| `StoreLifetimes.CanonicalOrder` | internal/store/store.go:557-563 | Canonical participants are in lexicographic order of their names |
| `StoreLifetimes.RoomLastsExactly` | internal/store/store.go:427-439 | A created room can be read exactly until its longest grant was asked to end, after any run that does not end it, and always as it was asked for |
| `StoreLifetimes.GrantStays` | internal/store/store.go:462-502 | A grant lives, and its room stays, in every run before its deadline that does not end its room |
| `StoreLifetimes.IdentityStays` | internal/store/store.go:389-401 | As long as a grant record is in the store it is for the same participant of the same room, with the same deadline |
| `StoreLifetimes.EndedNameIsReserved` | internal/store/store.go:338-343 | The name of an ended room is a conflict for exactly the configured time, after any run, and not from then on |
| `StoreLifetimes.SnapshotTells` | internal/store/store.go:609-649 | The states shown to a reader are those of the deadline, the binding and the pending challenge of the grant |
| `StoreLifetimes.AllocationTells` | internal/store/store.go:583-607 | A secret is handed out exactly while its grant lives |
| `Definitions.CanonicalUpToPermutation` | internal/store/store.go:523-564 | Any reordering of the same participants normalises to the identical definition, or to the identical error |
| `Definitions.CanonicalIsValid` | internal/store/store.go:523-564 | A canonical definition is sorted, within capacity, has valid and distinct identifiers, and the participants of the request |
| `Definitions.SortPermutes` | internal/store/store.go:555-563 | Sorting the participants keeps each of them |
| `Definitions.SortSorts` | internal/store/store.go:555-563 | Participants with distinct identifiers come out strictly ordered |
| `Definitions.SortedUnique` | internal/store/store.go:555-563 | There is only one strictly ordered sequence of the same participants |
| `Definitions.StringLessExactly` | internal/store/store.go:557-562 | Strings are compared by the first character in which they differ, and a proper prefix comes first |
| `StoreRooms.CredentialsAreFree` | internal/store/store.go:566-581 | Drawn grant identifiers are distinct and not among those taken |
| `StoreRooms.LastDeadlineIsMax` | internal/store/store.go:691-699 | The last grant deadline of a room is the largest one |
| `StoreSweep.SweepIsTransparentToReaders` | internal/store/store.go:427-439 | A reader gets the same answer for every room before and after a sweep at the same instant, in whatever order the sweep visits the rooms |
| `StoreSweep.SweepIsTransparentToRetries` | internal/store/store.go:337-354 | A creation under a taken name gets the same answer before and after a sweep, and leaves the swept store as it is |
| `StoreSweep.SweepIsTransparentToFanout` | internal/store/relay.go:240-262 | A packet relayed after the sweep reaches exactly whom it would have reached before |
| `StoreSweep.SweepIsComplete` | internal/store/store.go:462-502 | A sweep that visits every resident room leaves nothing expired: no room, tombstone, grant, handshake, binding or source |
| `StoreSweep.SweepIsExact` | internal/store/store.go:462-502 | What a sweep does, in whatever order: which rooms go, become a tombstone, are empty for the grace period, or stay; what becomes of each grant; and that exactly the sources last observed a minute ago are forgotten |
| `StoreSweep.SweepOrderIsIrrelevant` | internal/store/store.go:466-496 | Two sweeps at the same instant in different orders leave the same rooms and grants |
| `StoreSweep.SweptLooksTheSame` | internal/store/store.go:705-713 | A swept grant is reported as it was before |
| `StoreSweep.SweepKeepsOthers` | internal/store/store.go:462-502 | The sweep of one room touches no other room and no grant of another |
| `StoreRooms.ExpireStoreKeepsInv` | internal/store/store.go:462-502 | A sweep, in any order, keeps the invariant and ends nothing unexpired |
| `StoreInvariant.BeginChallengeKeepsInv` | internal/store/relay.go:367-433 | Issuing a challenge keeps the invariant; a success means that this challenge is pending on the addressed live grant, with time left |
| `StoreInvariant.AuthenticateKeepsInv` | internal/store/relay.go:435-547 | Authentication keeps the invariant; a success means that the grant had authority and either its binding was replaced under the next generation and an unused identifier, or a completed handshake was reported again with nothing changed but what was paid |
| `StoreInvariant.RecentMatchesBinding` | internal/store/relay.go:459-485 | The handshake kept for repeated requests always belongs to the current, unexpired binding |
| `StoreHandshake.RecallExactly` | internal/store/relay.go:459-485 | The kept result is given again exactly to the endpoint that completed the handshake, with its tag, before its own deadline: the checks that the binding might be gone, newer or expired never decide |
| `StoreHandshake.AuthorityExactly` | internal/store/relay.go:549-569 | A grant has authority exactly while it is live and before its own deadline; its room does not end earlier |
| `StoreHandshake.ChallengesExactly` | internal/store/relay.go:367-433 | A challenge is issued or repeated exactly for a request that passes admission, comes from an endpoint, addresses a grant with authority, and may be answered: its own challenge is pending, or its nonce did not just complete a handshake and the stream has values left |
| `StoreHandshake.ChallengeIsRepeated` | internal/store/relay.go:391-400 | While a challenge is pending, the same nonce from the same endpoint gets the same answer and draws nothing |
| `StoreHandshake.AuthenticatesExactly` | internal/store/relay.go:435-547 | An authentication succeeds exactly when it passes admission, comes from the endpoint that began the handshake, addresses a grant with authority, and proves the secret for a handshake that is pending or was just completed |
| `StoreHandshake.HonestClientIsBound` | internal/store/relay.go:486-546 | Whoever knows the secret completes a pending challenge from the same endpoint before its deadline; the new binding is for that endpoint, under the key both sides derive, and the answer carries its tag |
| `StoreHandshake.AuthenticationIsRepeated` | internal/store/relay.go:459-518 | A client that lost the answer and asks again, after any run short of another handshake of its grant or the end of its room, gets the same result until the challenge's time to live, the binding's or the grant is over, counted from the completion, and is told that it has expired from then on; nothing is drawn and nothing but the charge changes |
| `StoreHandshake.PacketsExactly` | internal/store/relay.go:282-365 | A ClientData or Ping is admitted exactly when it comes from the endpoint of a current binding under its key, the packet and byte limiters of its session, its room and the relay can pay one packet and its bytes, and its sequence is unspent; a packet of a current binding that is not admitted is told which failed, the limiters first |
| `StoreHandshake.HonestPacketIsCurrent` | internal/store/relay.go:301-351 | After a completion and any run short of another handshake of the grant or the end of its room, a packet under the derived key is from the current binding for the binding's time to live, counted from the completion, or until the grant ends |
| `StoreHandshake.ChallengeLasts` | internal/store/relay.go:413-432 | A challenge issued anew is pending for the challenge's time to live or until its grant ends, and the client is told that deadline in milliseconds, rounded up |
| `StoreHandshake.FirstCompletion` | internal/store/relay.go:502-546 | A first completion leaves the binding and the kept handshake, lasting exactly as configured, and tells the client how long the binding does |
| `StoreHandshake.KeptIsRepeated` | internal/store/relay.go:459-485 | A kept handshake is repeated until its deadline and expired from then on |
| `StoreHandshake.ChallengeStaysOpen` | internal/store/relay.go:486-546 | Whatever else the store serves before the deadline of a challenge, short of another handshake of the grant or the end of its room, its client completes it |
| `StoreHandshake.ClientAgrees` | internal/protocol/auth.go:12-36 | The proof and the key that a client computes from what it sent and received are those of the server |
| `StoreHandshake.ProofIsAccepted` | internal/store/relay.go:486-546 | The client that sends its proof in time is bound, can check the answer, and is heard under its key until the configured time is over |
| `StoreHandshake.ClientGetsThrough` | internal/store/relay.go:367-547 | Hello, proof and packets of a client that knows its secret get through, with any runs in between short of another handshake of the grant or the end of its room |
| `StoreVerdicts.HelloVerdict` | internal/store/relay.go:367-403 | The reason of every rejected hello, read off the state it met |
| `StoreVerdicts.AuthVerdict` | internal/store/relay.go:435-505 | The reason of every rejected authentication, read off the state it met |
| `StoreVerdicts.PacketVerdict` | internal/store/relay.go:292-351 | The reason of every packet that is not from a current binding, read off the state it met |
| `StoreVerdicts.FanoutAnswersExactly` | internal/store/relay.go:220-280 | What fan-out answers to every value: not bound, without effect, exactly when no binding in place has its identifier, generation and names; else expired, too large, limited, or planned for exactly the audience |
| `StoreVerdicts.FanoutSettlesTheRoom` | internal/store/relay.go:246-259 | Fan-out of a current value leaves nothing expired of the other grants in the room, paid for or not |
| `StoreVerdicts.ExpiredHelloIsForgotten` | internal/store/relay.go:549-569 | A grant that a hello is told has expired is not known afterwards |
| `StoreVerdicts.ExpiredAuthIsForgotten` | internal/store/relay.go:459-493 | A handshake that an authentication is told has expired is not known afterwards |
| `StoreVerdicts.ExpiredPacketIsForgotten` | internal/store/relay.go:315-345 | A binding that a packet is told has expired is not known afterwards |
| `StoreVerdicts.ExpiredFanoutIsForgotten` | internal/store/relay.go:233-241 | A binding that fan-out finds expired is not known afterwards |
| `StoreAdmission.LiveAuthorityKeepsInv` | internal/store/relay.go:549-569 | Losing authority keeps the invariant and ends nothing unexpired; a live grant is never reported revoked |
| `StoreAdmission.UniqueIDIsFree` | internal/store/relay.go:571-595 | A drawn identifier is not taken, and was the last value read |
| `StoreDraws.UniqueIDExactly` | internal/store/relay.go:571-595 | An identifier is the first of at most nine reads that is not taken; there is none exactly if a read fails before it or all nine are taken |
| `StoreDraws.ChallengeIsRead` | internal/store/relay.go:405-412 | A challenge issued anew carries two reads of its own, its identifier and its nonce; a repeated one reads nothing |
| `StoreDraws.BindingIsRead` | internal/store/relay.go:502-505 | A first completion names its binding by a read of its own; a repeated one reads nothing |
| `StoreDraws.CredentialsAreReads` | internal/store/store.go:379-403 | Every credential is two reads in a row, and no two share a read |
| `StoreDraws.GrantsAreReads` | internal/store/store.go:379-403 | The identifier and the secret of every grant of a new room are reads of their own, which were used for nothing before |
| `StoreAdmission.ProjectWireExpiryUnixMS` | internal/store/relay.go:679-686 | The expiry on the wire is never earlier than the deadline, and later by less than a millisecond |
| `StoreInvariant.InspectMeans` | internal/store/relay.go:298-351 | The inspection lets through exactly the packets of a current binding, never finds a revoked grant, and cleans up only what has expired |
| `StoreInvariant.IngressKeepsInv` | internal/store/relay.go:282-365 | Authenticated ingress keeps the invariant; a packet of a current binding spends its sequence and attempts exactly the six ingress charges; any other datagram pays in the pre-authentication class and in no other |
| `StoreInvariant.RecipientsAreAudience` | internal/store/relay.go:245-262 | The recipients collected while expired grants are ended are, in room order, exactly the endpoints of the other grants that are live with an unexpired binding |
| `StoreInvariant.FanoutKeepsInv` | internal/store/relay.go:220-280 | Fan-out keeps the invariant; it refuses a sender that is no longer current with no effect and an expired one as expired, and otherwise plans exactly the audience and charges exactly its size in writes and bytes, or nothing |
| `StoreModel.InitOK` | internal/store/store.go:291-325 | A new store satisfies the invariant |
| `StoreModel.PutKeepsInv` | internal/store/store_test.go:1573-1686 | Replacing one grant record by another of the same identity that forgets identifiers keeps all indexes, counters and limiters exact |
| `StoreModel.ActiveSessionsIsLiveGrants` | internal/store/store_test.go:1573-1686 | The session counter is the number of live grants resident in rooms |
| `StoreDeletion.ExpireKeepsInv` | internal/store/relay.go:688-698 | Forgetting what has expired of a grant keeps the invariant and loses nothing unexpired |
| `StoreDeletion.TerminateKeepsInv` | internal/store/store.go:667-685 | Ending a grant keeps the invariant, and ends nothing unexpired if the grant had expired |
| `StoreDeletion.TombstoneKeepsInv` | internal/store/store.go:651-665 | Ending a room keeps the invariant, and ends nothing unexpired if its grants had expired |
| `StoreDeletion.TombstoneFrame` | internal/store/store.go:651-665 | Ending a room removes exactly its grants and replaces exactly its record |
| `StoreObject.Store.AllowAtomic` | internal/store/relay.go:645-662 | Check every limiter, then take from every limiter: the gate afterwards is that of an all-or-nothing charge, and the panic is unreachable |
| `StoreObject.Store.AdmitPreauth` | internal/store/relay.go:597-643 | The in-place admission is the one proved on values: lazy eviction, bounded table, all four limiters or none |
| `StoreObject.Store.AdmitKnownSource` | internal/store/relay.go:625-642 | A known source is charged, and observed even when refused |
| `StoreObject.Store.AdmitNewSource` | internal/store/relay.go:612-642 | The limiters of a new source enter the table only once it has paid |
| `StoreObject.Store.ClearPending` | internal/store/relay.go:700-715 | Clears the pending handshake of one grant and its index entry, and nothing else |
| `StoreObject.Store.ClearRecent` | internal/store/relay.go:717-729 | Clears the kept handshake of one grant and its index entry, and nothing else |
| `StoreObject.Store.ClearBinding` | internal/store/relay.go:731-750 | Clears the binding of one grant, its index entry, and the kept handshake of the same generation |
| `StoreObject.Store.ClearRelay` | internal/store/relay.go:752-757 | Clears all relay state of one grant and resets its generation |
| `StoreObject.Store.ExpireRelay` | internal/store/relay.go:688-698 | Forgets exactly what has expired of one grant |
| `StoreObject.Store.TerminalGrant` | internal/store/store.go:667-685 | Ends one grant: no secret, no limiters, no index entry, one session fewer if it was live; run again it changes nothing more |
| `StoreObject.Store.TombstoneRoom` | internal/store/store.go:651-665 | Ends every grant of a room and leaves only a tombstone |
| `StoreObject.Store.LiveAuthority` | internal/store/relay.go:549-569 | Finds the room of a grant with authority, or ends what has expired and says why there is none |
| `StoreObject.Store.UniqueID` | internal/store/relay.go:571-595 | Draws up to nine times for an identifier that is not taken |
| `StoreObject.Store.BeginChallenge` | internal/store/relay.go:367-433 | The in-place operation is the one the handshake theorems are about, and keeps the object valid |
| `StoreObject.Store.Authenticate` | internal/store/relay.go:435-547 | The in-place operation is the one the handshake theorems are about, and keeps the object valid |
| `StoreObject.Store.Recall` | internal/store/relay.go:459-485 | Reports a completed handshake again, or ends what stands in its way |
| `StoreObject.Store.CompletePending` | internal/store/relay.go:486-546 | Completes the pending handshake, or refuses and ends what has expired |
| `StoreObject.Store.AdmitAuthenticated` | internal/store/relay.go:282-365 | The in-place ingress is the one proved exact: inspection, replay window, six limiters |
| `StoreObject.Store.AdmitBound` | internal/store/relay.go:353-364 | The sequence is spent before the limiters are asked |
| `StoreObject.Store.CollectRecipients` | internal/store/relay.go:245-262 | Walks the room, ends what has expired, and collects the endpoints of the others that are bound |
| `StoreObject.Store.AdmitFanout` | internal/store/relay.go:220-280 | The in-place fan-out is the one proved exact |
| `StoreObject.Store.CanonicalDefinition` | internal/store/store.go:523-564 | Computes the canonical definition of a request, or the error of the first check that fails |
| `StoreObject.Store.LastGrantDeadline` | internal/store/store.go:691-699 | Computes the largest deadline by a scan |
| `StoreObject.Store.RoomAccessTerminal` | internal/store/store.go:687-689 | Tells whether a room can still be read |
| `StoreObject.Store.GetRoom` | internal/store/store.go:427-439 | Answers a snapshot of an accessible room, and changes nothing |
| `StoreObject.Store.EndRoom` | internal/store/store.go:441-460 | Ends a room for the operator |
| `StoreObject.Store.SweepOneRoom` | internal/store/store.go:466-496 | Sweeps one room: expired tombstones, handshakes, grants, empty and overdue rooms |
| `StoreObject.Store.Expire` | internal/store/store.go:462-502 | The in-place sweep visits every resident room once, in some order, and then the sources |
| `StoreObject.Store.DrawCredentials` | internal/store/store.go:376-404 | Draws one identifier and one secret per participant, or stops at the first failure |
| `StoreObject.Store.AllocateRoom` | internal/store/store.go:356-425 | Checks deadlines, then capacity, then draws, and only then commits |
| `StoreObject.Store.SameDefinitionAs` | internal/store/store.go:715-727 | Tells whether a room was made for a definition |
| `StoreObject.Store.CreateRoom` | internal/store/store.go:327-425 | The in-place creation is the one proved atomic and idempotent |
| `Admission.PreauthExactly` | internal/store/relay.go:597-643 | One admission passes exactly when its source has a place in the table and all four limiters can pay, and then all four are charged; a refusal charges nothing, except that a newcomer to a full table is charged to the global limiters alone; no other limiter is touched |
| `Admission.PreauthKeepsGate` | internal/store/relay.go:597-643 | The table never exceeds 4096 sources, each with exactly its two limiters, and no limiter of a session, room or fan-out is touched |
| `Admission.SweepKeepsGate` | internal/store/store.go:496-501 | Sweeping idle sources keeps the table in order and touches no other limiter |
| `SourceEviction.IdleLimiterIsFull` | internal/store/relay.go:597-643 | A limiter is full again after the idle time, however much was taken, exactly for budgets that refill a burst in 60 seconds |
| `SourceEviction.EvictionIsUnobservable` | internal/store/relay.go:597-643 | Along every run that never fills the table, lazy and swept eviction of idle sources give the answers of an unbounded table that never forgets |
| `SourceEviction.ForgetKeepsAgreement` | internal/store/store.go:496-501 | Forgetting one idle source keeps the agreement of the two tables |
| `RateLimit.AtomicCharging` | internal/store/relay.go:645-662 | For distinct limiters every named bucket loses exactly its cost or no bucket changes, and the panic is unreachable |
| `RateLimit.PanicsIffAliased` | internal/store/relay.go:645-662 | The panic happens exactly when each charge passes alone but the charges on one limiter do not pass together |
| `RateLimit.AliasedChargesPanic` | internal/store/relay.go:645-662 | An input that panics: one limiter charged twice |
| `RateLimit.AdmittedInWindow` | internal/store/relay.go:645-662 | Whatever happened before, the cost a bucket admits in [s, t] is at most burst + rate * (t - s) |
| `StoreCharging.StepPays` | internal/store/relay.go:282-365 | Every operation leaves a limiter of the whole relay alone, or charges it exactly what the operation asks of it |
| `StoreCharging.HelloChargesPreauth` | internal/store/relay.go:367-373 | A hello pays one admission of the pre-authentication class and nothing else, and is rate limited exactly if it cannot |
| `StoreCharging.AuthChargesPreauth` | internal/store/relay.go:435-441 | An authentication pays one admission of the pre-authentication class and nothing else, and is rate limited exactly if it cannot |
| `StoreCharging.FanoutChargesFanout` | internal/store/relay.go:263-279 | Fan-out charges limiters of fan-out only |
| `StoreAmounts.IngressAmounts` | internal/store/relay.go:353-360 | A packet of a current binding takes one packet and its bytes from the limiters of its session, its room and the relay, each named, or nothing, and is limited exactly if one of the six cannot pay; no other limiter changes |
| `StoreAmounts.FanoutAmounts` | internal/store/relay.go:264-278 | Fan-out takes one write and the bytes for each recipient from the limiters of the room and the relay, each named, or nothing, and is limited exactly if one of the four cannot pay |
| `StoreAmounts.PreauthAmounts` | internal/store/relay.go:597-643 | One admission takes one packet and the bytes from the limiters of the source and the relay, each named, or nothing; a source not observed for a minute starts over; a newcomer to a full table is charged to the relay alone |
| `StoreAmounts.SameSourceExactly` | internal/store/relay.go:664-673 | Two endpoints are one source exactly for the same IPv4 address, mapped or not, or the same upper half of an IPv6 address |
| `StoreAmounts.StepTakes` | internal/store/relay.go:353-360 | Every operation leaves a limiter of the relay, of a session or of a room alone, or takes from it exactly what it asks |
| `StoreAmounts.SpendingWithinBudget` | internal/store/relay.go:645-662 | Along every run of the store, each limiter of the relay, of a session or of a room gives at most burst + rate * (to - from) between two instants: packets, bytes and fan-out writes |
| `ReplayWindow.AcceptRefinesSet` | internal/store/relay.go:114-141 | A sequence is accepted exactly if it was never accepted and is not 64 or more behind the highest; the new bitmap holds exactly the old history plus an accepted sequence |
| `ReplayWindow.AcceptKeepsWord` | internal/store/relay.go:114-141 | The bitmap never leaves 64 bits |
| `ReplayWindow.AcceptNeverForgets` | internal/store/relay.go:114-141 | Whatever a window refuses, it refuses after any further acceptance, and it refuses what it has just seen |
| `ReplayWindow.RefusalPersists` | internal/store/relay.go:114-141 | A refused or just accepted sequence is refused after one more acceptance |
| `ReplayWindow.ReplayWindow.AcceptSequence` | internal/store/relay.go:114-141 | The window in place answers by the set of sequences accepted so far |
| `Transcript.WriteTranscript` | internal/protocol/auth.go:114-130 | The loop over fields writes the length-prefixed frame |
| `Transcript.ParseRecovers` | internal/protocol/auth.go:114-130 | A parser recovers domain and fields from the frame, for domains under 2^16 and fields under 2^32 bytes |
| `Transcript.FrameInjective` | internal/protocol/auth.go:114-130 | Equal frames have the same domain and the same fields |
| `Transcript.OverlongDomainCollides` | internal/protocol/auth.go:114-130 | At 2^16 bytes the length of a domain wraps, and two different transcripts have equal frames |
| `Transcript.TranscribeInjective` | internal/protocol/auth.go:12-91 | Equal transcripts authenticate equal things: the five kinds never coincide, and revision, room, session, identifiers, sequence and payload are recovered |
| `Transcript.TagBindsMessage` | internal/protocol/auth.go:12-91 | Unless the hash collides on the two transcripts, a matching tag was made for exactly this message |
| `Identifier.CheckID` | internal/protocol/codec.go:161-176 | The loop accepts exactly the identifiers of 1 to 64 letters, digits and inner punctuation |
| `Base64.DecodeEncode` | internal/playerauth/auth.go:91-105 | Decoding an encoded text gives the bytes back |
| `Base64.EncodeDecode` | internal/playerauth/auth.go:104-107 | Re-encoding what the strict decoder accepts gives the text back exactly if it holds no line break |
| `Base64.EncodeInjective` | internal/playerauth/auth.go:92-92 | Different bytes have different texts |
| `Base64.EncodedLength` | internal/playerauth/auth.go:99-103 | The length of an unpadded text |
| `PlayerToken.IssueToken` | internal/playerauth/auth.go:74-93 | The buffer filled at fixed offsets, with its tag appended, is the token of the claims |
| `PlayerToken.VerifyExactly` | internal/playerauth/auth.go:95-128 | A token is accepted for claims exactly if it is the one text of those claims under the key, the claims can be issued, and they have not expired; from expiry on the answer is that they have |
| `PlayerToken.AcceptedIsCanonical` | internal/playerauth/auth.go:95-128 | Every accepted token is the text of its claims |
| `PlayerToken.IssuedVerifies` | internal/playerauth/auth.go:74-128 | An issued token verifies to the issued claims at every time before expiry, and is expired from then on |
| `PlayerToken.TokensDiffer` | internal/playerauth/auth.go:74-93 | Two tokens are the same only for the same claims |
| `Codec.DecodedIsClient` | internal/protocol/codec.go:43-62 | Only what a client may send is decoded, with valid identifiers and a payload that may be relayed |
| `Codec.DecodesExactly` | internal/protocol/codec.go:43-129 | A datagram is decoded exactly if it is of 1 to 1200 bytes that parse to what a client may send; it is too large, or of another version, exactly by the stated conditions |
| `Codec.BoundFits` | internal/protocol/codec.go:140-145 | An encoded bound takes at most 198 bytes |
| `Codec.ChallengeIsSmaller` | internal/protocol/codec.go:131-143 | An encoded challenge takes at most 198 bytes, fewer than any accepted hello |
| `Codec.ServerDataFits` | internal/protocol/codec.go:147-154 | Data relayed for an accepted ClientData is encoded, in at most 1117 bytes |
| `Codec.LargestServerData` | internal/protocol/codec.go:147-154 | The bound of 1117 bytes is met |
| `Codec.LargestAnswers` | internal/protocol/codec.go:131-145 | The bounds of 198 bytes of a challenge and of a bound are met |
| `UdpRelay.ServeChargesOneClass` | internal/relay/udp.go:163-265 | Every datagram attempts exactly one class of charges: its class pays as one admission of that class and is dropped as rate limited exactly if it cannot, and the other class is left alone |
| `UdpRelay.ServeIsARun` | internal/relay/udp.go:163-265 | Serving a datagram is a run of at most two operations of the store, none of which creates |
| `UdpRelay.ServeKeepsInv` | internal/relay/udp.go:163-265 | Serving keeps the store in order, never drops as revoked, answers a hello with fewer bytes than it had, and relays to fewer endpoints than a room has places |
| `UdpRelay.FatalExactly` | internal/relay/udp.go:288-294 | What was decoded stops the relay exactly if the store lost its random source over it |
| `UdpRelay.ChallengedIsReplied` | internal/relay/udp.go:179-198 | Whoever is challenged is answered, in at most 198 bytes, exactly when the reads behind the challenge had the sizes asked for and its expiry fits the wire: the size guard never decides |
| `UdpRelay.AdmittedDataIsRelayed` | internal/relay/udp.go:217-262 | Admitted ClientData is relayed, in at most 1117 bytes, unless its sender lost its binding on the way or fan-out cannot be paid for: never dropped for size or form |
| `UdpRelay.Relay.Dispatch` | internal/relay/udp.go:163-265 | The dispatched datagram has the effect proved on values; its one effect is counted, and exactly what it has to send is handed to the socket, in order, until a write fails; the counters stay balanced; it is fatal exactly if the random source is lost |
| `UdpRelay.Relay.DispatchDecoded` | internal/relay/udp.go:163-265 | One decoded datagram: the store, the counters and the socket follow its effect |
| `UdpRelay.Relay.DispatchPacket` | internal/relay/udp.go:205-262 | One ClientData or Ping: ingress, then fan-out, with their effect counted and written |
| `UdpRelay.Relay.WriteFanout` | internal/relay/udp.go:303-321 | With recipients the deadline is set first, and nothing is written if it cannot be; then the envelope goes to one recipient after the other, in order, up to and including the first write that fails; attempts, successes and errors count exactly that |
| `UdpRelay.Successes` | internal/relay/udp.go:307-320 | The number of writes before the first that fails |
| `UdpRelay.Attempts` | internal/relay/udp.go:303-320 | The number of writes that are attempted: none without recipients or deadline, else up to the first that fails |
| `UdpRelay.Tallied` | internal/relay/udp.go:303-321 | Attempts are successes and errors, and there is one error exactly if the last attempt failed |
| `UdpRelay.Relay.WriteOne` | internal/relay/udp.go:296-301 | An answer is handed to the socket once, to the endpoint it is for, if the deadline can be set |
| `UdpRelay.Relay.DispatchHello` | internal/relay/udp.go:180-199 | A hello: challenge, encoding and one write, or a drop |
| `UdpRelay.Relay.DispatchAuth` | internal/relay/udp.go:201-220 | An authentication: completion, encoding and one write, or a drop |
| `UdpRelay.Relay.DispatchFanout` | internal/relay/udp.go:231-250 | Fan-out: encoding, charging, and the writes to the recipients |
| `UdpRelay.Relay.RecordDrop` | internal/relay/udp.go:323-362 | The total and exactly one reason go up by one |
| `UdpRelay.Relay.Reject` | internal/relay/udp.go:288-294 | A rejection is counted once, or is fatal and not counted |
| `UdpService.EndpointsHaveOneName` | internal/relay/udp.go:140-145 | An IPv4 address mapped into IPv6 is the IPv4 address, every other endpoint itself, and normalising again changes nothing |
| `UdpService.UndecodedIsDropped` | internal/relay/udp.go:169-177 | A datagram that is not decoded is dropped as too large, of another version, or malformed, by conditions on the datagram alone, or as rate limited if it cannot be paid for |
| `UdpService.HelloIsServed` | internal/relay/udp.go:180-199 | A hello is answered with the challenge now pending on the grant it names, for its room, session, nonce and endpoint, in an envelope given field by field; or dropped for the store's reason, or as rate limited; or it ends the relay if the random source is lost |
| `UdpService.AuthIsServed` | internal/relay/udp.go:201-220 | An authentication is answered with the result its grant now keeps for the handshake it names, in an envelope given field by field; or dropped for the store's reason, or as rate limited; or it ends the relay |
| `UdpService.PacketIsServed` | internal/relay/udp.go:222-261 | A packet is dropped for the reason it is not from a current binding, as rate limited, or as a replay; a ping that is none of these is over without an answer |
| `UdpService.DataIsRelayed` | internal/relay/udp.go:231-250 | What is relayed carries the participant of the sending binding, the payload and the sequence received, in its room and session, to exactly the others in the room who are bound when fan-out looks |
| `LobbyRuns.StepKeepsInv` | internal/lobby/lobby.go:164-402 | Every call on the manager keeps its invariant, and no revision of a lobby goes back |
| `LobbyRuns.Run` | internal/lobby/lobby.go:164-402 | The state after any run of calls satisfies the invariant |
| `LobbyRuns.ReachableStates` | internal/lobby/lobby.go:164-402 | In every reachable state a player is in one lobby or one queue, the index of players is the inverse of membership, each lobby of 1 to capacity members belongs to its first member, nobody queued was there before anybody matched from the same queue, and a match of tickets is a whole group |
| `LobbyRuns.OneChangePerRevision` | internal/lobby/lobby.go:263-396 | Once a call has moved a lobby past a revision, no later call that presents it changes the lobby: it is told of a conflict |
| `LobbyRuns.RunGrows` | internal/lobby/lobby.go:263-396 | Over a run the revision of a lobby never goes back |
| `LobbyRecords.ExpireExactly` | internal/lobby/lobby.go:526-542 | A lobby or ticket is there exactly before its deadline, and as it was |
| `LobbyRecords.CreateExactly` | internal/lobby/lobby.go:164-211 | Which creations succeed and why others fail; a new lobby is as asked for, with its owner alone in it, for half an hour |
| `LobbyRecords.JoinExactly` | internal/lobby/lobby.go:263-295 | Which joins succeed and why others fail; the player is last in order, nobody is ready any more, and the rest of the lobby and of the manager is as it was |
| `LobbyRecords.LeaveExactly` | internal/lobby/lobby.go:297-332 | Which departures succeed and why others fail; nobody left is ready any more, the first of them owns the lobby if the owner left, and the last one closes it |
| `LobbyRecords.ReadyExactly` | internal/lobby/lobby.go:334-361 | Which calls succeed and why others fail; only the readiness of the caller changes |
| `LobbyRecords.StartExactly` | internal/lobby/lobby.go:363-396 | Which starts succeed and why others fail; the lobby lasts as long as the match then, and has its assignments |
| `LobbyRecords.SnapshotTells` | internal/lobby/lobby.go:584-601 | A snapshot shows the lobby as it is, its members in join order, and of the assignments the caller's own alone |
| `LobbyRecords.SummaryTells` | internal/lobby/lobby.go:603-609 | An entry of the list shows the lobby as it is and how many are in it |
| `LobbyInvariant.CreateKeepsInv` | internal/lobby/lobby.go:164-211 | Creating a lobby keeps the invariant |
| `LobbyInvariant.JoinKeepsInv` | internal/lobby/lobby.go:263-295 | Joining keeps the invariant |
| `LobbyInvariant.LeaveKeepsInv` | internal/lobby/lobby.go:297-332 | Leaving keeps the invariant: the owner is again the first member, or the lobby is gone |
| `LobbyInvariant.SetReadyKeepsInv` | internal/lobby/lobby.go:334-361 | Setting ready keeps the invariant |
| `LobbyInvariant.StartKeepsInv` | internal/lobby/lobby.go:363-396 | Starting keeps the invariant: the new match covers exactly the members |
| `LobbyInvariant.JoinChangesOne` | internal/lobby/lobby.go:263-295 | Joining raises the revision of this lobby by exactly one and touches no other; a stale revision is a conflict and changes nothing |
| `LobbyInvariant.LeaveChangesOne` | internal/lobby/lobby.go:297-332 | Leaving raises the revision of this lobby by exactly one and touches no other; a stale revision is a conflict and changes nothing |
| `LobbyInvariant.SetReadyChangesOne` | internal/lobby/lobby.go:334-361 | Setting ready raises the revision by exactly one, or changes nothing when it was set; a stale revision is a conflict |
| `LobbyInvariant.StartChangesOne` | internal/lobby/lobby.go:363-396 | Starting raises the revision by exactly one; a failed allocation leaves the manager as it was |
| `Lobbies.ExpireKeepsInv` | internal/lobby/lobby.go:526-542 | Expiry keeps the invariant: whole lobbies and whole groups go |
| `Lobbies.GroupsExpireWhole` | internal/lobby/match.go:199-213 | The tickets of a match expire together, and an ended match has no holder left |
| `LobbyOps.FirstMember` | internal/lobby/lobby.go:566-569 | The first member joined no later than any other |
| `LobbyOps.JoinOrder` | internal/lobby/lobby.go:571-582 | The order of members holds each once, by join sequence |
| `LobbyOps.JoinOrderUnique` | internal/lobby/lobby.go:571-582 | There is only one such order |
| `QuickMatch.EnqueueKeepsInv` | internal/lobby/match.go:54-98 | Enqueueing keeps the invariant; a success leaves the player a ticket and fewer tickets queued than a match needs; a failed allocation leaves the ticket queued |
| `QuickMatch.MatchQueueKeepsInv` | internal/lobby/match.go:140-167 | Matching keeps the invariant whether or not an allocation fails, and leaves the queue short exactly if none failed |
| `QuickMatch.FormMatchKeepsInv` | internal/lobby/match.go:150-165 | A match of the first tickets of a queue keeps order, ownership and whole groups |
| `QuickMatch.CancelKeepsInv` | internal/lobby/match.go:114-134 | Cancelling keeps the invariant: the queue loses exactly this ticket |
| `LobbyRecords.MatchQueueExactly` | internal/lobby/match.go:140-167 | The queue is matched from the front in groups of the capacity, one match per group in order, each ticket with its assignment and the deadlines of its match, and nobody else; unless an allocation fails every full group is served |
| `LobbyRecords.EnqueueExactly` | internal/lobby/match.go:54-98 | Which players are refused and why; another is last in the queue with a ticket for two minutes before the queue is matched |
| `LobbyRecords.CancelExactly` | internal/lobby/match.go:114-134 | Which tickets can be given up and why not others; the queue is as it was but for that player, and nothing else changes |
| `QuickMatch.CompactionIsIdle` | internal/lobby/match.go:169-183 | In every state of the invariant compaction has nothing to remove |
| `LobbyManager.Manager.DefineParticipants` | internal/lobby/lobby.go:465-485 | One definition per player, in order, with exactly the session identifiers that the stream yields, and none exactly if it is lost |
| `LobbyManager.Manager.Assign` | internal/lobby/lobby.go:495-510 | The assignments cover exactly the grants, each for its player; the rollback that would end the room is not reached |
| `LobbyManager.Manager.TryAllocate` | internal/lobby/lobby.go:454-511 | One try at a room, asked for under exactly the names that the stream yields: a match that the store backs with exactly its grants; another try exactly if the name was taken; else an error, which only tells a lost random source apart; no grant is left behind, and every other grant is kept |
| `LobbyManager.Manager.TryAgain` | internal/lobby/lobby.go:453-511 | One more try extends a chain of tries whose names were taken, or decides |
| `LobbyManager.Manager.TryUntilFree` | internal/lobby/lobby.go:453-512 | Tries follow one another while names are taken, nine at most |
| `LobbyManager.SessionsAreFree` | internal/lobby/lobby.go:468-485 | The session identifiers of one try are distinct |
| `LobbyManager.UniqueNameExactly` | internal/lobby/lobby.go:426-437 | A name is the first drawn that is not taken, and there is none exactly if a read fails before it or all are taken |
| `LobbyManager.Manager.AllocateMatch` | internal/lobby/lobby.go:447-513 | A match for exactly these players: its room is open until it expires and nobody had a grant for it, and each player has exactly one live grant there, with the session, identifier, secret and expiry it is told; a failure leaves no grant behind, and every other grant is kept. At most nine tries are made, each only because the name before was taken, and the last one decides |
| `LobbyManager.Manager.ExpireLocked` | internal/lobby/lobby.go:526-542 | Whole lobbies and groups go, whatever the order of the scan, and exactly the rooms of their matches are ended |
| `LobbyManager.Manager.ExpireLobbies` | internal/lobby/lobby.go:526-542 | Exactly the expired lobbies go |
| `LobbyManager.Manager.ExpireTickets` | internal/lobby/match.go:199-213 | Exactly the expired tickets go, each out of its queue |
| `LobbyManager.Manager.MembersInJoinOrder` | internal/lobby/lobby.go:571-582 | Computes the join order by sorting |
| `LobbyManager.Manager.Create` | internal/lobby/lobby.go:164-211 | The in-place operation is the one proved on values, over the real store |
| `LobbyManager.Manager.Join` | internal/lobby/lobby.go:263-295 | The in-place operation is the one proved on values |
| `LobbyManager.Manager.Leave` | internal/lobby/lobby.go:297-332 | The in-place operation is the one proved on values |
| `LobbyManager.Manager.SetReady` | internal/lobby/lobby.go:334-361 | The in-place operation is the one proved on values |
| `LobbyManager.Manager.Start` | internal/lobby/lobby.go:363-396 | The lobby is matched only after the store has allocated the match, and every member is told a live grant of its open room |
| `LobbyManager.Manager.CompactQueue` | internal/lobby/match.go:169-183 | Removes in place what is no longer queued |
| `LobbyManager.Manager.RemoveQueuedPlayer` | internal/lobby/match.go:185-197 | Removes one player from a queue in place |
| `LobbyManager.Manager.MatchQueueLocked` | internal/lobby/match.go:140-167 | Matches from the front until the queue is short or an allocation fails; the store backs every match that was made |
| `LobbyManager.Manager.Enqueue` | internal/lobby/match.go:54-98 | The in-place operation is the one proved on values, over the real store, which backs every match that was made |
| `LobbyManager.Manager.CancelTicket` | internal/lobby/match.go:114-134 | The in-place operation is the one proved on values |
| `LobbyManager.Manager.GetTicket` | internal/lobby/match.go:100-112 | Answers the ticket of the player after expiry |
| `LobbyManager.Manager.Get` | internal/lobby/lobby.go:245-261 | A private or matched lobby is shown to its members only, any other to everybody |
| `LobbyManager.Manager.List` | internal/lobby/lobby.go:213-243 | Answers one page of the open public lobbies of a queue |
| `LobbyManager.Manager.OthersMayCall` | internal/lobby/lobby.go:447-513 | Whatever the store serves to others between two calls of the manager leaves the manager in order |
| `LobbyManager.CreatedCovers` | internal/lobby/lobby.go:495-509 | A created room grants exactly the requested players, each once and with its secret, so the rollback after the allocation is unreachable |
| `LobbyManager.Manager.CreateMatchRoom` | internal/lobby/lobby.go:486-494 | A created room is open with exactly the grants of the answer, and nobody had a grant for it; a refusal leaves every grant as it was |
| `LobbyManager.CreatedRoom` | internal/lobby/lobby.go:486-505 | The grants of a created room are live, for different players, and as the answer says |
| `LobbyManager.AssignedIsGranted` | internal/lobby/lobby.go:495-510 | Assignments made from the answer are backed by the room that was created |
| `LobbyManager.CreationKeepsGrants` | internal/lobby/lobby.go:486-494 | Whatever a creation answers, every grant that was there is still there, in the same room |
| `LobbyManager.AssignedIsKnown` | internal/lobby/lobby.go:501-504 | A player who says hello with what it was assigned is known to the store and in the right room, with the secret the store expects |
| `LobbyManager.DrawnNamesAreValid` | internal/lobby/lobby.go:439-445 | A name made of 16 bytes is a valid identifier of 24 characters, and different bytes make different names |
| `Pagination.CursorExactly` | internal/lobby/lobby.go:409-418 | A cursor stands for a position exactly if it is empty for the start or the decimal form of a positive 64-bit number |
| `Pagination.WalkShowsAll` | internal/lobby/lobby.go:213-243 | While nothing changes, following the cursors from a position ends, and the pages are the whole list after it |
| `Pagination.WalkFromStart` | internal/lobby/lobby.go:213-243 | From the empty cursor the pages show exactly the open public lobbies of the queue, each once, in order of creation |
| `Pagination.ListingGoesOn` | internal/lobby/lobby.go:224-242 | After the last lobby of a page the list goes on where the page stopped |
| `Pagination.ListExactly` | internal/lobby/lobby.go:213-243 | A list is refused exactly for an invalid queue, a page size out of 1 to 50 or an invalid cursor, and is one page of the listing otherwise |

## Left out

- HTTP handlers, routing, JSON and bearer parsing (`internal/control`, `internal/playerapi`): plumbing over the standard library.
- Process composition, listeners, signals, flags and the read loop with `Close` (`internal/server`, `cmd/relay`, `internal/relay/udp.go:105-156`): I/O and goroutine lifecycle.
- Protocol Buffers on the wire: the parser is an arbitrary partial function, which is taken to yield sequences of 64 bits; of the encoder only the sizes are modelled.
- The strength of HMAC and of the random generator, constant-time comparison, zeroing of secrets, log redaction and write deadlines: not functional properties.
- Rounding inside `golang.org/x/time/rate`, and calendars and time zones.
- The list of bounds in `validLimits` (`internal/store/store.go:743-786`): taken as the precondition `Limits.Valid`.
- The check that an admitted value belongs to this store (`internal/store/relay.go:221-224`): there is one store in the model.
- The wrap-around of the 64-bit counters of the UDP relay, which the model counts without bound.
- The time at which a lobby was created, which nothing but a log reads.
- The room of a match that an operator ends in the middle of the match: it is an ordinary end of a room, and that room identifiers stay unique across it is not claimed.
- The clauses of the repository's own invariant checker (`internal/store/store_test.go:1573-1686`) that identifiers and deadlines are not zero: drawn values are arbitrary bytes and the clock is arbitrary.
- LobbyManager.Manager.AllocateMatch: one reading of the store's clock serves all calls of an operation on the store, and no other user of the store comes between those calls; between two operations any run may (`LobbyManager.Manager.OthersMayCall`).
- StoreSweep.SweepIsTransparentToRetries: asks for a clock before 2^63 - 1 nanoseconds, at which a new tombstone would already have expired.
- SourceEviction.EvictionIsUnobservable: is about runs that never fill the table, and budgets that refill a burst in 60 seconds, as the default ones do; with a full table a forgotten source makes room, which is what eviction is for.
- UdpRelay.ChallengedIsReplied: a read of the random stream is not tied to the size it was asked for, so the sizes of the candidate identifier and the nonce are part of the condition.
- UdpRelay.Relay.Dispatch: a write is of an envelope to an endpoint, recorded in a ghost field; of its bytes only the number is modelled.
- ReplayWindow.ReplayWindow.AcceptSequence: the set of accepted sequences it answers by is a ghost field.
