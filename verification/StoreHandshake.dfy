/** The handshake and the packets after it, seen from a client that knows the secret of its
    grant: exactly which requests succeed, and what a success establishes. */
module StoreHandshake {
  import opened Prelude
  import opened RateLimit
  import opened Admission
  import opened Transcript
  import opened StoreModel
  import opened StoreDeletion
  import opened StoreAdmission
  import opened StoreInvariant
  import opened StoreRooms
  import opened StoreRuns
  import opened StoreAmounts
  import ReplayWindow

  // ---------------------------------------------------------------- authority

  /** A live grant has authority until its own deadline, which its room does not end before. */
  lemma AuthorityExactly(s: State, limits: Limits, r: Ref, now: int)
    requires Inv(s, limits) && r in s.heap
    ensures LiveAuthority(s, limits, r, now).1.None? <==> Live(s.heap[r]) && now < s.heap[r].monoDeadline
  {
    hide Inv, TombstoneRoom, TerminateGrant;
    GrantFacts(s, limits, r);
  }

  /** The request knows the room and session of grant `r`, which has authority. */
  ghost predicate Addresses(s: State, r: Ref, roomID: string, sessionID: string, now: int) {
    && r in s.heap && Live(s.heap[r]) && now < s.heap[r].monoDeadline
    && s.heap[r].roomID == roomID && s.heap[r].sessionID == sessionID
  }

  // ---------------------------------------------------------------- challenges

  ghost predicate Draws(random: Random, at: nat, taken: set<Bytes>) {
    UniqueID(random, at, taken, ID_DRAWS).0.Some?
  }

  /** The challenge of `request` may be answered: its own pending challenge is repeated, and a
      new one needs a nonce that did not just complete a handshake. */
  ghost predicate Challengeable(s: State, random: Random, g: Grant, request: ChallengeRequest, now: int) {
    if g.pending.Some? && now < g.pending.value.deadline then
      g.pending.value.endpoint == request.endpoint && g.pending.value.clientNonce == request.clientNonce
    else
      && !(g.recent.Some? && now < g.recent.value.deadline && g.recent.value.clientNonce == request.clientNonce)
      && Drawable(s, random, g, now)
  }

  /** The random stream still holds a free candidate identifier and a server nonce. */
  ghost predicate Drawable(s: State, random: Random, g: Grant, now: int) {
    var taken := s.candidatesByID.Keys - CandidateIDs(g) + CandidateIDs(ExpiredRelay(g, now));
    Draws(random, s.drawn, taken) && random(UniqueID(random, s.drawn, taken, ID_DRAWS).1).Some?
  }

  lemma ReindexKeys(index: map<Bytes, Ref>, before: set<Bytes>, after: set<Bytes>, r: Ref)
    ensures Reindex(index, before, after, r).Keys == index.Keys - before + after
  {
  }

  /** What expiry leaves of the handshakes of a grant. */
  lemma ExpiredRelayHandshakes(g: Grant, room: Room, now: int)
    requires GrantOK(g, room)
    ensures var e := ExpiredRelay(g, now);
      && SameIdentity(g, e)
      && e.pending == (if g.pending.Some? && now < g.pending.value.deadline then g.pending else None)
      && e.recent == (if g.recent.Some? && now < g.recent.value.deadline then g.recent else None)
  {
  }

  lemma Challenge0Answers(s: State, limits: Limits, random: Random, r: Ref, request: ChallengeRequest,
      reading: ClockReading)
    requires r in s.heap && s.heap[r].roomID in s.rooms
    ensures Challenge0(s, limits, random, r, request, reading).1.Admit? <==>
      var g := s.heap[r];
      if g.pending.Some? then
        g.pending.value.endpoint == request.endpoint && g.pending.value.clientNonce == request.clientNonce
      else
        && !(g.recent.Some? && g.recent.value.clientNonce == request.clientNonce)
        && Draws(random, s.drawn, s.candidatesByID.Keys)
           && random(UniqueID(random, s.drawn, s.candidatesByID.Keys, ID_DRAWS).1).Some?
  {
    hide UniqueID, Put, ProjectWireExpiryUnixMS;
  }

  lemma ExpireRelayState(s: State, r: Ref, now: int)
    requires r in s.heap
    ensures var s1 := ExpireRelay(s, r, now);
      && s1.heap == s.heap[r := ExpiredRelay(s.heap[r], now)] && s1.rooms == s.rooms && s1.drawn == s.drawn
      && s1.candidatesByID.Keys ==
         s.candidatesByID.Keys - CandidateIDs(s.heap[r]) + CandidateIDs(ExpiredRelay(s.heap[r], now))
  {
    hide ExpiredRelay, CandidateIDs, BindingIDs, LiveIDs;
    ReindexKeys(s.candidatesByID, CandidateIDs(s.heap[r]), CandidateIDs(ExpiredRelay(s.heap[r], now)), r);
    hide Reindex;
  }

  lemma Challenge0Exactly(s: State, s1: State, limits: Limits, random: Random, r: Ref, request: ChallengeRequest,
      reading: ClockReading)
    requires Inv(s, limits) && r in s.heap && s1 == ExpireRelay(s, r, reading.mono)
    requires r in s1.heap && s1.heap[r].roomID in s1.rooms
    ensures Challenge0(s1, limits, random, r, request, reading).1.Admit? <==>
      Challengeable(s, random, s.heap[r], request, reading.mono)
  {
    hide Inv, ExpireRelay, ExpiredRelay, GrantOK, Reindex, UniqueID, CandidateIDs, Challenge0;
    GrantHolds(s, limits, r);
    ExpiredRelayHandshakes(s.heap[r], s.rooms[s.heap[r].roomID], reading.mono);
    ExpireRelayState(s, r, reading.mono);
    Challenge0Answers(s1, limits, random, r, request, reading);
  }

  /** A challenge is issued, or repeated, exactly for a request that passes admission, comes
      from an endpoint, addresses a grant with authority, and may be answered. */
  lemma ChallengesExactly(s: State, limits: Limits, random: Random, request: ChallengeRequest, reading: ClockReading)
    requires Inv(s, limits)
    ensures BeginChallenge(s, limits, random, request, reading).1.Admit? <==>
      && ChargePreauth(s, limits, request.endpoint, request.inputBytes, reading.mono).1
      && request.endpoint.IsValid() && request.grantID in s.grantsByID
      && Addresses(s, s.grantsByID[request.grantID], request.roomID, request.sessionID, reading.mono)
      && Challengeable(s, random, s.heap[s.grantsByID[request.grantID]], request, reading.mono)
  {
    hide Inv, ChargePreauth, LiveAuthority, Challenge0, Challengeable, Evolves, SameElsewhere, ExpireRelay;
    var now := reading.mono;
    ChargePreauthKeepsInv(s, limits, request.endpoint, request.inputBytes, now);
    var s1 := ChargePreauth(s, limits, request.endpoint, request.inputBytes, now).0;
    if request.grantID in s.grantsByID {
      var r := s.grantsByID[request.grantID];
      GrantsIndexed(s, limits, request.grantID);
      AuthorityExactly(s1, limits, r, now);
      LiveAuthorityKeepsInv(s1, limits, r, now);
      GrantFacts(s1, limits, r);
      ExpireKeepsLive(s1, r, now);
      ExpireRelayState(s1, r, now);
      Challenge0Exactly(s1, ExpireRelay(s1, r, now), limits, random, r, request, reading);
      ChallengeableAlike(s, s1, random, s.heap[r], request, now);
    }
  }

  lemma ChallengeableAlike(s: State, s1: State, random: Random, g: Grant, request: ChallengeRequest, now: int)
    requires SameButGate(s, s1)
    ensures Challengeable(s1, random, g, request, now) <==> Challengeable(s, random, g, request, now)
  {
  }

  /** While a challenge is pending, asking again with the same nonce from the same endpoint
      gets the same answer and draws nothing. */
  lemma ChallengeIsRepeated(s: State, limits: Limits, random: Random, r: Ref, request: ChallengeRequest,
      result: ChallengeResult, reading: ClockReading)
    requires Inv(s, limits) && limits.Valid() && Challenged(s, r, request, result, reading.mono)
      && request.endpoint.IsValid()
    requires ChargePreauth(s, limits, request.endpoint, request.inputBytes, reading.mono).1
    ensures var (s', answer) := BeginChallenge(s, limits, random, request, reading);
      answer == Admit(result) && s'.drawn == s.drawn && Challenged(s', r, request, result, reading.mono)
  {
    hide Inv, ChargePreauth, Evolves, SameElsewhere, ExpiredRelay, GrantOK, Reindex, TombstoneRoom, TerminateGrant,
         IssueChallenge,
         CandidateIDs, BindingIDs, LiveIDs, DropSession;
    var now := reading.mono;
    LiveOwner(s, limits, r);
    ChargePreauthKeepsInv(s, limits, request.endpoint, request.inputBytes, now);
    var s1 := ChargePreauth(s, limits, request.endpoint, request.inputBytes, now).0;
    GrantFacts(s1, limits, r);
    GrantHolds(s1, limits, r);
    PendingEndsFirst(s1.heap[r], s1.rooms[s1.heap[r].roomID]);
    ExpiredRelayHandshakes(s1.heap[r], s1.rooms[s1.heap[r].roomID], now);
    ExpireKeepsLive(s1, r, now);
  }

  lemma PendingEndsFirst(g: Grant, room: Room)
    requires GrantOK(g, room)
    ensures g.pending.Some? ==> g.pending.value.deadline <= g.monoDeadline <= room.monoDeadline
    ensures g.recent.Some? ==> g.recent.value.deadline <= g.monoDeadline && (g.pending.Some? ==>
      g.pending.value.candidateID != g.recent.value.candidateID)
  {
  }

  lemma LiveOwner(s: State, limits: Limits, r: Ref)
    requires Inv(s, limits) && r in s.heap && Live(s.heap[r])
    ensures s.heap[r].id in s.grantsByID && s.grantsByID[s.heap[r].id] == r
    ensures forall c | c in CandidateIDs(s.heap[r]) :: c in s.candidatesByID && s.candidatesByID[c] == r
  {
    IndexesHold(s, limits);
    hide Inv;
    OwnKeys(s.grantsByID, s.heap, LiveIDs, r, s.heap[r]);
    OwnKeys(s.candidatesByID, s.heap, CandidateIDs, r, s.heap[r]);
    assert s.heap[r].id in LiveIDs(s.heap[r]);
  }

  // ---------------------------------------------------------------- authentication

  /** The request repeats a completed handshake, with proof of the secret. */
  ghost predicate Repeats(hmac: Hmac, g: Grant, request: AuthenticateRequest, now: int)
    requires g.secret.Some?
  {
    && g.recent.Some? && g.recent.value.candidateID == request.candidateID
    && now < g.recent.value.deadline && g.recent.value.endpoint == request.endpoint
    && request.authTag == AuthTagOf(hmac, g, request.candidateID, g.recent.value.clientNonce,
       g.recent.value.serverNonce)
  }

  /** The request completes the pending handshake, with proof of the secret. */
  ghost predicate Completes(hmac: Hmac, g: Grant, request: AuthenticateRequest, now: int)
    requires g.secret.Some?
  {
    && g.pending.Some? && g.pending.value.candidateID == request.candidateID
    && now < g.pending.value.deadline && g.pending.value.endpoint == request.endpoint
    && request.authTag == AuthTagOf(hmac, g, request.candidateID, g.pending.value.clientNonce,
       g.pending.value.serverNonce)
  }

  /** The kept result is refused for no other reason: that the binding might be gone, newer or
      expired before it never happens. */
  lemma RecallExactly(hmac: Hmac, g: Grant, room: Room, request: AuthenticateRequest, now: int)
    requires GrantOK(g, room) && g.secret.Some? && g.recent.Some? && g.recent.value.candidateID == request.candidateID
    ensures RecallRefusal(hmac, g, request, now).None? <==> Repeats(hmac, g, request, now)
    ensures !Completes(hmac, g, request, now)
  {
    hide AuthTagOf;
  }

  lemma PendingExactly(hmac: Hmac, g: Grant, request: AuthenticateRequest, now: int)
    requires g.secret.Some?
    ensures PendingRefusal(hmac, g, request, now).None? <==> Completes(hmac, g, request, now)
  {
    hide AuthTagOf;
  }

  lemma CompletesDraws(s: State, limits: Limits, hmac: Hmac, random: Random, r: Ref, request: AuthenticateRequest,
      reading: ClockReading)
    requires r in s.heap && s.heap[r].secret.Some? && s.heap[r].roomID in s.rooms
    ensures CompletePending(s, limits, hmac, random, r, request, reading).1.Admit? <==>
      Completes(hmac, s.heap[r], request, reading.mono) && Draws(random, s.drawn, s.bindingsByID.Keys)
  {
    hide UniqueID, ProjectWireExpiryUnixMS, Tag, BindingKeyOf, PendingRefusal, Completes, Put;
    PendingExactly(hmac, s.heap[r], request, reading.mono);
    PendingVerdict(hmac, s.heap[r], request, reading.mono);
  }

  /** An authentication succeeds exactly when it passes admission, comes from an endpoint,
      addresses a grant with authority, and proves the secret for a handshake that is pending
      or was completed a moment ago, from the endpoint that began it. */
  lemma AuthenticatesExactly(s: State, limits: Limits, hmac: Hmac, random: Random, request: AuthenticateRequest,
      reading: ClockReading)
    requires Inv(s, limits)
    ensures Authenticate(s, limits, hmac, random, request, reading).1.Admit? <==>
      && ChargePreauth(s, limits, request.endpoint, request.inputBytes, reading.mono).1
      && request.endpoint.IsValid() && request.candidateID in s.candidatesByID
      && var r := s.candidatesByID[request.candidateID];
      && Addresses(s, r, request.roomID, request.sessionID, reading.mono) && s.heap[r].secret.Some?
      && (|| Repeats(hmac, s.heap[r], request, reading.mono)
          || (Completes(hmac, s.heap[r], request, reading.mono) && Draws(random, s.drawn, s.bindingsByID.Keys)))
  {
    hide Inv, ChargePreauth, LiveAuthority, RecallRefusal, CompletePending, Put, Evolves, SameElsewhere, CandidateIDs,
         Completes, Draws;
    var now := reading.mono;
    ChargePreauthKeepsInv(s, limits, request.endpoint, request.inputBytes, now);
    var s1 := ChargePreauth(s, limits, request.endpoint, request.inputBytes, now).0;
    if request.candidateID in s.candidatesByID {
      var r := s.candidatesByID[request.candidateID];
      CandidateIndexed(s, limits, request.candidateID);
      AuthorityExactly(s1, limits, r, now);
      LiveAuthorityKeepsInv(s1, limits, r, now);
      GrantFacts(s1, limits, r);
      GrantHolds(s1, limits, r);
      CompletesDraws(s1, limits, hmac, random, r, request, reading);
      var g := s1.heap[r];
      if g.recent.Some? && g.recent.value.candidateID == request.candidateID {
        RecallExactly(hmac, g, s1.rooms[g.roomID], request, now);
      }
      hide GrantOK, AuthTagOf;
    }
  }

  /** What a first completion leaves behind: a binding for the endpoint of the handshake,
      under the key that both sides derive from the secret and the nonces, whose tag answers
      the request; and the handshake itself, kept for a repeated request. */
  ghost predicate Established(s: State, s': State, hmac: Hmac, r: Ref, request: AuthenticateRequest,
      result: BoundResult)
    requires r in s.heap && s.heap[r].pending.Some? && s.heap[r].secret.Some?
  {
    var g, pending := s.heap[r], s.heap[r].pending.value;
    && r in s'.heap && s'.heap[r].binding.Some? && s'.heap[r].recent.Some?
    && var binding, recent := s'.heap[r].binding.value, s'.heap[r].recent.value;
    && SameIdentity(g, s'.heap[r]) && s'.heap[r].secret == g.secret && s'.heap[r].pending.None?
    && binding.id == result.bindingID && binding.endpoint == request.endpoint
    && binding.key == BindingKeyOf(hmac, g, request.candidateID, pending.clientNonce, pending.serverNonce)
    && result.authTag == Tag(hmac, binding.key,
       BoundMessage(REVISION, g.roomID, g.sessionID, request.candidateID, binding.id, result.expiresUnixMS))
    && recent.result == result && recent.candidateID == request.candidateID && recent.endpoint == request.endpoint
    && recent.clientNonce == pending.clientNonce && recent.serverNonce == pending.serverNonce
  }

  lemma CompleteEstablishes(s: State, limits: Limits, hmac: Hmac, random: Random, r: Ref, request: AuthenticateRequest,
      reading: ClockReading)
    requires r in s.heap && s.heap[r].secret.Some? && s.heap[r].roomID in s.rooms
    requires CompletePending(s, limits, hmac, random, r, request, reading).1.Admit?
    ensures s.heap[r].pending.Some?
    ensures var (s', answer) := CompletePending(s, limits, hmac, random, r, request, reading);
      Established(s, s', hmac, r, request, answer.value)
  {
    hide UniqueID, ProjectWireExpiryUnixMS, Tag, BindingKeyOf, AuthTagOf, Reindex, DropSession, LiveIDs, CandidateIDs,
         BindingIDs;
  }

  /** A pending challenge is completed by whoever knows the secret, from the same endpoint and
      before its deadline, and the new binding is theirs. */
  lemma HonestClientIsBound(s: State, limits: Limits, hmac: Hmac, random: Random, r: Ref, hello: ChallengeRequest,
      challenge: ChallengeResult,
                            inputBytes: int, reading: ClockReading)
    requires Inv(s, limits) && limits.Valid() && Challenged(s, r, hello, challenge, reading.mono)
      && s.heap[r].secret.Some?
    requires ChargePreauth(s, limits, hello.endpoint, inputBytes, reading.mono).1
    requires Draws(random, s.drawn, s.bindingsByID.Keys)
    ensures var request := AuthenticateRequest(hello.roomID, hello.sessionID, challenge.candidateID, hello.endpoint,
        AuthTagOf(hmac, s.heap[r], challenge.candidateID, hello.clientNonce, challenge.serverNonce), inputBytes);
      var (s', answer) := Authenticate(s, limits, hmac, random, request, reading);
      answer.Admit? && Established(s, s', hmac, r, request, answer.value)
  {
    hide Inv, ChargePreauth, LiveAuthority, CompletePending, AuthTagOf, Evolves, SameElsewhere, Draws, GrantOK,
         Established, Recall;
    var now := reading.mono;
    var request := AuthenticateRequest(hello.roomID, hello.sessionID, challenge.candidateID, hello.endpoint,
      AuthTagOf(hmac, s.heap[r], challenge.candidateID, hello.clientNonce, challenge.serverNonce), inputBytes);
    LiveOwner(s, limits, r);
    GrantHolds(s, limits, r);
    PendingEndsFirst(s.heap[r], s.rooms[s.heap[r].roomID]);
    PendingIsValid(s.heap[r], s.rooms[s.heap[r].roomID]);
    AuthenticatesExactly(s, limits, hmac, random, request, reading);
    ChargePreauthKeepsInv(s, limits, request.endpoint, request.inputBytes, now);
    var s1 := ChargePreauth(s, limits, request.endpoint, request.inputBytes, now).0;
    LiveAuthorityKeepsInv(s1, limits, r, now);
    GrantFacts(s1, limits, r);
    CompleteEstablishes(s1, limits, hmac, random, r, request, reading);
    EstablishedAlike(s, s1, CompletePending(s1, limits, hmac, random, r, request, reading).0, hmac, r, request,
                     CompletePending(s1, limits, hmac, random, r, request, reading).1.value);
  }

  lemma PendingIsValid(g: Grant, room: Room)
    requires GrantOK(g, room) && g.pending.Some?
    ensures g.pending.value.endpoint.IsValid()
  {
  }

  lemma EstablishedAlike(s: State, s1: State, s': State, hmac: Hmac, r: Ref, request: AuthenticateRequest,
      result: BoundResult)
    requires SameButGate(s, s1) && r in s.heap && s.heap[r].pending.Some? && s.heap[r].secret.Some?
    requires Established(s1, s', hmac, r, request, result)
    ensures Established(s, s', hmac, r, request, result)
  {
  }

  // ---------------------------------------------------------------- how long a handshake lasts

  /** A challenge or a kept handshake of `now` lasts for the challenge's time to live, and no
      longer than its grant; a binding for its own, and no longer than its grant. */
  function ChallengedUntil(limits: Limits, g: Grant, now: int): int {
    Min(SaturatingAdd(now, limits.challengeTTL), g.monoDeadline)
  }

  function BoundUntil(limits: Limits, g: Grant, now: int): int {
    Min(SaturatingAdd(now, limits.bindingTTL), g.monoDeadline)
  }

  function KeptUntil(limits: Limits, g: Grant, now: int): int {
    Min(ChallengedUntil(limits, g, now), BoundUntil(limits, g, now))
  }

  /** The client is told the deadline in milliseconds of Unix time, rounded up. */
  ghost predicate TellsDeadline(ms: int, reading: ClockReading, deadline: int) {
    var unixNano := reading.wall + (deadline - reading.mono) - 62_135_596_800 * SECOND;
    0 <= ms * 1_000_000 - unixNano < 1_000_000
  }

  /** A challenge issued anew lasts as long as configured, and says so. */
  lemma IssuedLasts(s: State, limits: Limits, random: Random, r: Ref, request: ChallengeRequest, reading: ClockReading)
    requires Inv(s, limits) && r in s.heap && s.heap[r].roomID in s.rooms && s.heap[r].pending.None?
    requires Challenge0(s, limits, random, r, request, reading).1.Admit?
    ensures var (s', answer) := Challenge0(s, limits, random, r, request, reading);
      && r in s'.heap && s'.heap[r].pending.Some?
      && s'.heap[r].pending.value.deadline == ChallengedUntil(limits, s.heap[r], reading.mono)
      && TellsDeadline(answer.value.expiresUnixMS, reading, s'.heap[r].pending.value.deadline)
  {
    hide Inv, IssueChallenge, GrantOK;
    GrantFacts(s, limits, r);
    IssuedPending(s, limits, random, r, request, reading);
  }

  /** A hello that finds no challenge pending is answered with one that lasts as long as
      configured, and tells the client how long. */
  lemma ChallengeLasts(s: State, limits: Limits, random: Random, request: ChallengeRequest, reading: ClockReading)
    requires Inv(s, limits) && limits.Valid() && BeginChallenge(s, limits, random, request, reading).1.Admit?
    ensures request.grantID in s.grantsByID && s.grantsByID[request.grantID] in s.heap
    ensures var r := s.grantsByID[request.grantID];
      !PendingAlive(s.heap[r], reading.mono) ==>
        var (s', answer) := BeginChallenge(s, limits, random, request, reading);
        && r in s'.heap && s'.heap[r].pending.Some?
        && s'.heap[r].pending.value.deadline == ChallengedUntil(limits, s.heap[r], reading.mono)
        && TellsDeadline(answer.value.expiresUnixMS, reading, s'.heap[r].pending.value.deadline)
  {
    hide Inv, ChargePreauth, LiveAuthority, Challenge0, Evolves, SameElsewhere, ExpireRelay, ExpiredRelay, GrantOK;
    var now := reading.mono;
    ChargePreauthKeepsInv(s, limits, request.endpoint, request.inputBytes, now);
    var s1 := ChargePreauth(s, limits, request.endpoint, request.inputBytes, now).0;
    var r := s.grantsByID[request.grantID];
    GrantsIndexed(s, limits, request.grantID);
    LiveAuthorityKeepsInv(s1, limits, r, now);
    GrantHolds(s1, limits, r);
    ExpiredRelayHandshakes(s1.heap[r], s1.rooms[s1.heap[r].roomID], now);
    ExpireRelayState(s1, r, now);
    ExpireKeepsInv(s1, limits, r, now);
    var s2 := ExpireRelay(s1, r, now);
    if !PendingAlive(s.heap[r], now) { IssuedLasts(s2, limits, random, r, request, reading); }
  }

  /** The binding and the kept handshake of a completion last as long as configured, and the
      client is told how long the binding does. */
  ghost predicate LastsAsLong(limits: Limits, g: Grant, g': Grant, result: BoundResult, reading: ClockReading) {
    && g'.binding.Some? && g'.recent.Some?
    && g'.binding.value.deadline == BoundUntil(limits, g, reading.mono)
    && g'.recent.value.deadline == KeptUntil(limits, g, reading.mono)
    && TellsDeadline(result.expiresUnixMS, reading, g'.binding.value.deadline)
  }

  lemma CompleteLasts(s: State, limits: Limits, hmac: Hmac, random: Random, r: Ref, request: AuthenticateRequest,
      reading: ClockReading)
    requires Inv(s, limits) && r in s.heap && s.heap[r].secret.Some? && s.heap[r].roomID in s.rooms
    requires CompletePending(s, limits, hmac, random, r, request, reading).1.Admit?
    ensures var (s', answer) := CompletePending(s, limits, hmac, random, r, request, reading);
      r in s'.heap && LastsAsLong(limits, s.heap[r], s'.heap[r], answer.value, reading)
  {
    hide Inv, Complete, GrantOK, AuthTagOf, ClearedPending;
    GrantFacts(s, limits, r);
    PendingVerdict(hmac, s.heap[r], request, reading.mono);
    CompletedPut(s, limits, hmac, random, r, request.endpoint, reading);
  }

  /** What the first completion of a pending handshake leaves. */
  lemma FirstCompletion(s: State, limits: Limits, hmac: Hmac, random: Random, r: Ref, request: AuthenticateRequest,
      reading: ClockReading)
    requires Inv(s, limits) && limits.Valid() && r in s.heap && s.heap[r].secret.Some?
    requires Completes(hmac, s.heap[r], request, reading.mono)
    requires Authenticate(s, limits, hmac, random, request, reading).1.Admit?
    ensures var (s', answer) := Authenticate(s, limits, hmac, random, request, reading);
      && s.heap[r].pending.Some? && Inv(s', limits) && Established(s, s', hmac, r, request, answer.value)
      && LastsAsLong(limits, s.heap[r], s'.heap[r], answer.value, reading)
      && Live(s'.heap[r]) && Addresses(s, r, request.roomID, request.sessionID, reading.mono)
      && request.endpoint.IsValid()
  {
    hide Inv, ChargePreauth, LiveAuthority, CompletePending, Evolves, SameElsewhere, Draws, GrantOK, Established,
         Recall, Rebinds, LastsAsLong, AuthTagOf;
    var now := reading.mono;
    LiveIffSecret(s, limits, r);
    LiveOwner(s, limits, r);
    GrantHolds(s, limits, r);
    PendingEndsFirst(s.heap[r], s.rooms[s.heap[r].roomID]);
    PendingIsValid(s.heap[r], s.rooms[s.heap[r].roomID]);
    assert request.candidateID in CandidateIDs(s.heap[r]);
    AuthenticatesExactly(s, limits, hmac, random, request, reading);
    ChargePreauthKeepsInv(s, limits, request.endpoint, request.inputBytes, now);
    var s1 := ChargePreauth(s, limits, request.endpoint, request.inputBytes, now).0;
    LiveAuthorityKeepsInv(s1, limits, r, now);
    AuthorityExactly(s1, limits, r, now);
    GrantFacts(s1, limits, r);
    CompleteEstablishes(s1, limits, hmac, random, r, request, reading);
    CompleteLasts(s1, limits, hmac, random, r, request, reading);
    EstablishedAlike(s, s1, CompletePending(s1, limits, hmac, random, r, request, reading).0, hmac, r, request,
                     CompletePending(s1, limits, hmac, random, r, request, reading).1.value);
    AuthenticateKeepsInv(s, limits, hmac, random, request, reading);
    var (s', answer) := Authenticate(s, limits, hmac, random, request, reading);
    EstablishedLives(s, s', hmac, r, request, answer.value);
    LiveIffSecret(s', limits, r);
  }

  lemma EstablishedLives(s: State, s': State, hmac: Hmac, r: Ref, request: AuthenticateRequest, result: BoundResult)
    requires r in s.heap && s.heap[r].pending.Some? && s.heap[r].secret.Some?
    requires Established(s, s', hmac, r, request, result)
    ensures r in s'.heap && s'.heap[r].secret.Some?
  {
  }

  /** A grant keeps the handshake of `request`, completed with `result`. */
  ghost predicate Keeps(hmac: Hmac, g: Grant, request: AuthenticateRequest, result: BoundResult) {
    && Live(g) && g.secret.Some? && g.recent.Some? && g.roomID == request.roomID && g.sessionID == request.sessionID
    && g.recent.value.candidateID == request.candidateID && g.recent.value.endpoint == request.endpoint
    && g.recent.value.result == result
    && request.authTag == AuthTagOf(hmac, g, request.candidateID, g.recent.value.clientNonce,
       g.recent.value.serverNonce)
  }

  /** A request that passes admission and repeats a kept handshake is answered with the kept
      result until its deadline, which changes nothing but the charge, and from then on told
      that it has expired. */
  lemma KeptIsRepeated(s: State, limits: Limits, hmac: Hmac, random: Random, r: Ref, request: AuthenticateRequest,
      result: BoundResult, reading: ClockReading)
    requires Inv(s, limits) && r in s.heap && Keeps(hmac, s.heap[r], request, result) && request.endpoint.IsValid()
    requires ChargePreauth(s, limits, request.endpoint, request.inputBytes, reading.mono).1
    ensures var (s', answer) := Authenticate(s, limits, hmac, random, request, reading);
      if reading.mono < s.heap[r].recent.value.deadline then answer == Admit(result) && SameButGate(s, s')
      else answer == Reject(RejectExpired)
  {
    hide Inv, ChargePreauth, LiveAuthority, CompletePending, AuthTagOf, Evolves, SameElsewhere, GrantOK,
         RecallRefusal, Put;
    var now, g := reading.mono, s.heap[r];
    LiveOwner(s, limits, r);
    GrantHolds(s, limits, r);
    PendingEndsFirst(g, s.rooms[g.roomID]);
    RecallExactly(hmac, g, s.rooms[g.roomID], request, now);
    RecallExpires(hmac, g, s.rooms[g.roomID], request, now);
    ChargePreauthKeepsInv(s, limits, request.endpoint, request.inputBytes, now);
    var s1 := ChargePreauth(s, limits, request.endpoint, request.inputBytes, now).0;
    LiveAuthorityKeepsInv(s1, limits, r, now);
    LiveAuthorityExpires(s1, limits, r, now);
    GrantFacts(s1, limits, r);
  }

  lemma EstablishedIsKept(s: State, s': State, hmac: Hmac, r: Ref, request: AuthenticateRequest, result: BoundResult,
      now: int)
    requires r in s.heap && s.heap[r].pending.Some? && s.heap[r].secret.Some? && r in s'.heap && Live(s'.heap[r])
    requires Completes(hmac, s.heap[r], request, now) && Established(s, s', hmac, r, request, result)
    requires s.heap[r].roomID == request.roomID && s.heap[r].sessionID == request.sessionID
    ensures Keeps(hmac, s'.heap[r], request, result)
  {
    hide Tag, BindingKeyOf;
  }

  lemma CarriedIsKept(hmac: Hmac, g: Grant, g': Grant, request: AuthenticateRequest, result: BoundResult, deadline: int)
    requires Keeps(hmac, g, request, result) && Carries(g, g', deadline) && deadline <= g.recent.value.deadline
    ensures Keeps(hmac, g', request, result) && g'.recent == g.recent
  {
    hide Tag;
  }

  /** A client that lost the answer asks again. Whatever else the store has served since, short
      of another handshake of the same grant or the end of its room, the same request that
      passes admission is answered with the same result until the configured time is over;
      nothing is drawn and nothing but the charge changes. */
  lemma AuthenticationIsRepeated(s: State, env: Env, r: Ref, request: AuthenticateRequest, reading: ClockReading,
      steps: seq<Step>, later: ClockReading)
    requires Inv(s, env.limits) && env.limits.Valid() && r in s.heap && s.heap[r].secret.Some?
    requires Completes(env.hmac, s.heap[r], request, reading.mono)
    requires Authenticate(s, env.limits, env.hmac, env.random, request, reading).1.Admit?
    ensures var (s1, first) := Authenticate(s, env.limits, env.hmac, env.random, request, reading);
      var until := KeptUntil(env.limits, s.heap[r], reading.mono);
      && Inv(s1, env.limits)
      && (FreshRun(s1, env, steps) && LeavesAlone(s1, env, steps, r, until)
          && ChargePreauth(Run(s1, env, steps), env.limits, request.endpoint, request.inputBytes, later.mono).1 ==>
            var t := Run(s1, env, steps);
            var (t', answer) := Authenticate(t, env.limits, env.hmac, env.random, request, later);
            if later.mono < until then answer == Admit(first.value) && SameButGate(t, t')
            else answer == Reject(RejectExpired))
  {
    hide Inv, ChargePreauth, Authenticate, Completes, FreshRun, Run, LeavesAlone, Keeps, Carries, Established;
    FirstCompletion(s, env.limits, env.hmac, env.random, r, request, reading);
    var (s1, first) := Authenticate(s, env.limits, env.hmac, env.random, request, reading);
    var until := KeptUntil(env.limits, s.heap[r], reading.mono);
    EstablishedGrant(s, s1, env.hmac, r, request, first.value);
    EstablishedIsKept(s, s1, env.hmac, r, request, first.value, reading.mono);
    if FreshRun(s1, env, steps) && LeavesAlone(s1, env, steps, r, until) {
      var t := Run(s1, env, steps);
      HandshakesSurvive(s1, env, steps, r, until);
      CarriedIsKept(env.hmac, s1.heap[r], t.heap[r], request, first.value, until);
      if ChargePreauth(t, env.limits, request.endpoint, request.inputBytes, later.mono).1 {
        KeptIsRepeated(t, env.limits, env.hmac, env.random, r, request, first.value, later);
      }
    }
  }

  lemma EstablishedGrant(s: State, s': State, hmac: Hmac, r: Ref, request: AuthenticateRequest, result: BoundResult)
    requires r in s.heap && s.heap[r].pending.Some? && s.heap[r].secret.Some?
    requires Established(s, s', hmac, r, request, result)
    ensures r in s'.heap && SameIdentity(s.heap[r], s'.heap[r])
  {
  }

  /** A challenge stays open for its client: whatever else the store serves before its deadline,
      short of another handshake of the grant or the end of its room, whoever knows the secret
      completes it from the same endpoint. */
  lemma ChallengeStaysOpen(s: State, env: Env, steps: seq<Step>, r: Ref, hello: ChallengeRequest,
      challenge: ChallengeResult, inputBytes: int, now: int, later: ClockReading)
    requires Inv(s, env.limits) && env.limits.Valid() && FreshRun(s, env, steps) && r in s.heap
    requires Challenged(s, r, hello, challenge, now) && s.heap[r].secret.Some?
    requires LeavesAlone(s, env, steps, r, s.heap[r].pending.value.deadline)
      && later.mono < s.heap[r].pending.value.deadline
    ensures var t := Run(s, env, steps);
      var request := AuthenticateRequest(hello.roomID, hello.sessionID, challenge.candidateID, hello.endpoint,
        AuthTagOf(env.hmac, s.heap[r], challenge.candidateID, hello.clientNonce, challenge.serverNonce), inputBytes);
      ChargePreauth(t, env.limits, hello.endpoint, inputBytes, later.mono).1
      && Draws(env.random, t.drawn, t.bindingsByID.Keys) ==>
        var (t', answer) := Authenticate(t, env.limits, env.hmac, env.random, request, later);
        && r in t.heap && t.heap[r].pending.Some? && t.heap[r].secret.Some?
        && answer.Admit? && Established(t, t', env.hmac, r, request, answer.value)
  {
    hide Inv, ChargePreauth, Authenticate, FreshRun, Run, LeavesAlone, Carries, Established, AuthTagOf, Draws, GrantOK;
    var deadline := s.heap[r].pending.value.deadline;
    GrantHolds(s, env.limits, r);
    PendingEndsFirst(s.heap[r], s.rooms[s.heap[r].roomID]);
    HandshakesSurvive(s, env, steps, r, deadline);
    var t := Run(s, env, steps);
    CarriedChallenge(env.hmac, s, t, r, hello, challenge, now, later.mono, deadline);
    if ChargePreauth(t, env.limits, hello.endpoint, inputBytes, later.mono).1
       && Draws(env.random, t.drawn, t.bindingsByID.Keys) {
      HonestClientIsBound(t, env.limits, env.hmac, env.random, r, hello, challenge, inputBytes, later);
    }
  }

  lemma CarriedChallenge(hmac: Hmac, s: State, t: State, r: Ref, hello: ChallengeRequest, challenge: ChallengeResult,
      now: int, later: int, deadline: int)
    requires Challenged(s, r, hello, challenge, now) && s.heap[r].secret.Some?
    requires r in t.heap && Carries(s.heap[r], t.heap[r], deadline)
      && later < deadline == s.heap[r].pending.value.deadline
    ensures Challenged(t, r, hello, challenge, later) && t.heap[r].secret.Some?
    ensures AuthTagOf(hmac, t.heap[r], challenge.candidateID, hello.clientNonce, challenge.serverNonce) ==
      AuthTagOf(hmac, s.heap[r], challenge.candidateID, hello.clientNonce, challenge.serverNonce)
  {
    hide Tag;
  }

  // ---------------------------------------------------------------- packets

  /** The six limiters of authenticated ingress can pay for a packet on grant `r`. */
  ghost predicate CanPay(s: State, r: Ref, bytes: nat, now: int) {
    && r in s.heap
    && Known(s.gate.buckets, IngressCharges(r, s.heap[r].roomID, bytes))
    && AllAfford(s.gate.buckets, IngressCharges(r, s.heap[r].roomID, bytes), now)
  }

  lemma AdmitBoundExactly(s: State, limits: Limits, r: Ref, sequence: nat, bytes: nat, now: int)
    requires Inv(s, limits) && r in s.heap && s.heap[r].binding.Some?
    requires Known(Put(s, r, WithReplay(s.heap[r],
                   ReplayWindow.Accept(s.heap[r].binding.value.replay, sequence).0)).gate.buckets,
                   IngressCharges(r, s.heap[r].roomID, bytes))
    ensures AdmitBound(s, limits, r, sequence, bytes, now).1 ==
      if !CanPay(s, r, bytes, now) then Reject(RejectRateLimited)
      else if !ReplayWindow.Accept(s.heap[r].binding.value.replay, sequence).1 then Reject(RejectReplay)
      else Admit(r)
  {
    BoundIsLive(s, limits, r);
    IngressKnown(s, limits, r, bytes);
    BucketsHold(s, limits);
    hide Inv, AllAfford, AllowAtomic, Reindex, CandidateIDs, BindingIDs, LiveIDs, DropSession, ReplayWindow.Accept,
         IngressCharges;
    AtomicCharging(s.gate.buckets, IngressCharges(r, s.heap[r].roomID, bytes), now);
  }

  lemma BucketsHold(s: State, limits: Limits)
    requires Inv(s, limits)
    ensures forall n | n in s.gate.buckets :: s.gate.buckets[n].Valid()
  {
  }

  lemma BoundPacketsExactly(s: State, limits: Limits, hmac: Hmac, m: Message, endpoint: Endpoint, authTag: Bytes,
      inputBytes: nat, now: int)
    requires Inv(s, limits) && (m.ClientDataMessage? || m.PingMessage?)
    requires FromCurrentBinding(s, hmac, m, endpoint, authTag, now)
    ensures m.bindingID in s.bindingsByID
    ensures var answer := AdmitAuthenticated(s, limits, hmac, m, endpoint, authTag, inputBytes, now).1;
      var r := s.bindingsByID[m.bindingID];
      && r in s.heap && s.heap[r].binding.Some?
      && answer == if !CanPay(s, r, inputBytes, now) then Reject(RejectRateLimited)
                   else if !ReplayWindow.Accept(s.heap[r].binding.value.replay, m.sequence).1 then Reject(RejectReplay)
                   else Admit(r)
  {
    hide Inv, Inspect, ChargePreauth, CleanUp, AdmitBound, FromCurrentBinding, CanPay, ReplayWindow.Accept;
    InspectMeans(s, limits, hmac, m, endpoint, authTag, inputBytes, now);
    var r := s.bindingsByID[m.bindingID];
    BindingIndexed(s, limits, m.bindingID);
    BoundLimitersKnown(s, limits, r, m.sequence, inputBytes);
    AdmitBoundExactly(s, limits, r, m.sequence, inputBytes, now);
  }

  /** A ClientData or Ping is admitted exactly when it comes from the endpoint of a current
      binding under that binding's key, the limiters of its session, its room and the relay can
      pay for one packet and its bytes, and its sequence has not been spent; a packet of a
      current binding that is not admitted is told which of the two failed, the limiters first. */
  lemma PacketsExactly(s: State, limits: Limits, hmac: Hmac, m: Message, endpoint: Endpoint, authTag: Bytes,
      inputBytes: int, now: int)
    requires Inv(s, limits) && (m.ClientDataMessage? || m.PingMessage?)
    ensures var answer := AdmitAuthenticated(s, limits, hmac, m, endpoint, authTag, inputBytes, now).1;
      if !(FromCurrentBinding(s, hmac, m, endpoint, authTag, now) && inputBytes >= 0) then answer.Reject?
      else
        && m.bindingID in s.bindingsByID
        && var r := s.bindingsByID[m.bindingID];
        && r in s.heap && s.heap[r].binding.Some?
        && answer == if !IngressHas(s.gate, r, s.heap[r].roomID, inputBytes, now) then Reject(RejectRateLimited)
                     else if !ReplayWindow.Accept(s.heap[r].binding.value.replay, m.sequence).1 then
                       Reject(RejectReplay)
                     else Admit(r)
  {
    hide Inv, AdmitAuthenticated, FromCurrentBinding, CanPay, ReplayWindow.Accept, IngressHas, IngressOf, IngressLower,
         Evolves, Attempted, Drops;
    IngressKeepsInv(s, limits, hmac, m, endpoint, authTag, inputBytes, now);
    if FromCurrentBinding(s, hmac, m, endpoint, authTag, now) && inputBytes >= 0 {
      BoundPacketsExactly(s, limits, hmac, m, endpoint, authTag, inputBytes, now);
      IngressAmounts(s, limits, hmac, m, endpoint, authTag, inputBytes, now);
    }
  }

  /** The client that completed a handshake can speak: whatever else the store has served since,
      short of another handshake of its grant or the end of its room, a packet that it
      authenticates with the key it derived is from the current binding until the configured
      time is over. */
  lemma HonestPacketIsCurrent(s: State, env: Env, r: Ref, request: AuthenticateRequest, reading: ClockReading,
      steps: seq<Step>, m: Packet, now: int)
    requires Inv(s, env.limits) && env.limits.Valid() && r in s.heap && s.heap[r].secret.Some?
    requires Completes(env.hmac, s.heap[r], request, reading.mono)
    requires Authenticate(s, env.limits, env.hmac, env.random, request, reading).1.Admit?
    requires m.room == s.heap[r].roomID && m.session == s.heap[r].sessionID && m.sequence > 0
    ensures var (s1, first) := Authenticate(s, env.limits, env.hmac, env.random, request, reading);
      var until := BoundUntil(env.limits, s.heap[r], reading.mono);
      && Inv(s1, env.limits) && s.heap[r].pending.Some?
      && (FreshRun(s1, env, steps) && LeavesAlone(s1, env, steps, r, until) && now < until
          && m.bindingID == first.value.bindingID ==>
            var key := BindingKeyOf(env.hmac, s.heap[r], request.candidateID, s.heap[r].pending.value.clientNonce,
              s.heap[r].pending.value.serverNonce);
            FromCurrentBinding(Run(s1, env, steps), env.hmac, m, request.endpoint, Tag(env.hmac, key, m), now))
  {
    hide Inv, Authenticate, Completes, FreshRun, Run, LeavesAlone, Carries, Established, BindingKeyOf, Tag,
         FromCurrentBinding;
    FirstCompletion(s, env.limits, env.hmac, env.random, r, request, reading);
    var (s1, first) := Authenticate(s, env.limits, env.hmac, env.random, request, reading);
    var until := BoundUntil(env.limits, s.heap[r], reading.mono);
    EstablishedGrant(s, s1, env.hmac, r, request, first.value);
    if FreshRun(s1, env, steps) && LeavesAlone(s1, env, steps, r, until) && now < until
       && m.bindingID == first.value.bindingID {
      var t := Run(s1, env, steps);
      HandshakesSurvive(s1, env, steps, r, until);
      CarriedBinding(s, s1, t, env.hmac, r, request, first.value, until);
      BoundSpeaks(t, env.limits, env.hmac, r, m, now);
    }
  }

  lemma CarriedBinding(s: State, s1: State, t: State, hmac: Hmac, r: Ref, request: AuthenticateRequest,
      result: BoundResult, deadline: int)
    requires r in s.heap && s.heap[r].pending.Some? && s.heap[r].secret.Some? && r in s1.heap && r in t.heap
    requires Established(s, s1, hmac, r, request, result) && Carries(s1.heap[r], t.heap[r], deadline)
    requires s1.heap[r].binding.Some? && s1.heap[r].binding.value.deadline == deadline
    ensures SameIdentity(s.heap[r], t.heap[r]) && t.heap[r].binding.Some?
    ensures var binding := t.heap[r].binding.value;
      && binding.id == result.bindingID && binding.endpoint == request.endpoint && binding.deadline == deadline
      && binding.key == BindingKeyOf(hmac, s.heap[r], request.candidateID, s.heap[r].pending.value.clientNonce,
         s.heap[r].pending.value.serverNonce)
  {
    hide BindingKeyOf;
  }

  /** A packet under the key of an unexpired binding, from its endpoint, is from that binding. */
  lemma BoundSpeaks(s: State, limits: Limits, hmac: Hmac, r: Ref, m: Packet, now: int)
    requires Inv(s, limits) && r in s.heap && s.heap[r].binding.Some? && now < s.heap[r].binding.value.deadline
    requires m.bindingID == s.heap[r].binding.value.id && m.room == s.heap[r].roomID
      && m.session == s.heap[r].sessionID && m.sequence > 0
    ensures FromCurrentBinding(s, hmac, m, s.heap[r].binding.value.endpoint, Tag(hmac, s.heap[r].binding.value.key, m),
      now)
  {
    hide Inv, Tag, GrantOK;
    GrantFacts(s, limits, r);
    BindingOwner(s, limits, r);
    BindingIndexed(s, limits, m.bindingID);
    GrantHolds(s, limits, r);
    BoundIsValid(s.heap[r], s.rooms[s.heap[r].roomID]);
  }

  lemma BoundIsValid(g: Grant, room: Room)
    requires GrantOK(g, room) && g.binding.Some?
    ensures g.binding.value.endpoint.IsValid()
  {
  }

  // ---------------------------------------------------------------- the client's side

  /** What a client that holds the secret of a grant computes from what it has sent and received:
      the proof it sends, and the key it speaks under. */
  function ClientProof(hmac: Hmac, secret: Bytes, hello: ChallengeRequest, challenge: ChallengeResult): Bytes {
    Tag(hmac, secret, AuthMessage(1, hello.roomID, hello.sessionID, hello.grantID, challenge.candidateID,
      hello.clientNonce, challenge.serverNonce))
  }

  function ClientKey(hmac: Hmac, secret: Bytes, hello: ChallengeRequest, challenge: ChallengeResult): Bytes {
    Tag(hmac, secret, BindingKeyMessage(1, hello.roomID, hello.sessionID, hello.grantID, challenge.candidateID,
      hello.clientNonce, challenge.serverNonce))
  }

  /** The server computes the same. */
  lemma ClientAgrees(hmac: Hmac, s: State, r: Ref, hello: ChallengeRequest, challenge: ChallengeResult, now: int)
    requires Challenged(s, r, hello, challenge, now) && s.heap[r].secret.Some?
    ensures var g, secret := s.heap[r], s.heap[r].secret.value;
      && AuthTagOf(hmac, g, challenge.candidateID, hello.clientNonce, challenge.serverNonce) ==
           ClientProof(hmac, secret, hello, challenge)
      && BindingKeyOf(hmac, g, challenge.candidateID, hello.clientNonce, challenge.serverNonce) ==
           ClientKey(hmac, secret, hello, challenge)
  {
  }

  /** What the client can check of the answer to its proof. */
  ghost predicate Proven(hmac: Hmac, key: Bytes, hello: ChallengeRequest, challenge: ChallengeResult,
      result: BoundResult) {
    result.authTag == Tag(hmac, key, BoundMessage(1, hello.roomID, hello.sessionID, challenge.candidateID,
      result.bindingID, result.expiresUnixMS))
  }

  /** The client of a pending challenge that sends its proof in time is bound, can check the
      answer, and is heard under its key for as long as the binding lasts, whatever else the store
      serves, short of another handshake of the grant or the end of its room. */
  lemma ProofIsAccepted(s: State, env: Env, r: Ref, hello: ChallengeRequest, challenge: ChallengeResult,
      inputBytes: int, reading: ClockReading, steps: seq<Step>, m: Packet, now: int)
    requires Inv(s, env.limits) && env.limits.Valid() && Challenged(s, r, hello, challenge, reading.mono)
      && s.heap[r].secret.Some?
    requires ChargePreauth(s, env.limits, hello.endpoint, inputBytes, reading.mono).1
    requires Draws(env.random, s.drawn, s.bindingsByID.Keys)
    requires m.room == hello.roomID && m.session == hello.sessionID && m.sequence > 0
    ensures var secret := s.heap[r].secret.value;
      var key := ClientKey(env.hmac, secret, hello, challenge);
      var request := AuthenticateRequest(hello.roomID, hello.sessionID, challenge.candidateID, hello.endpoint,
        ClientProof(env.hmac, secret, hello, challenge), inputBytes);
      var (s', answer) := Authenticate(s, env.limits, env.hmac, env.random, request, reading);
      && answer.Admit? && Inv(s', env.limits) && Proven(env.hmac, key, hello, challenge, answer.value)
      && (FreshRun(s', env, steps) && LeavesAlone(s', env, steps, r, BoundUntil(env.limits, s.heap[r], reading.mono))
          && now < BoundUntil(env.limits, s.heap[r], reading.mono) && m.bindingID == answer.value.bindingID ==>
            FromCurrentBinding(Run(s', env, steps), env.hmac, m, hello.endpoint, Tag(env.hmac, key, m), now))
  {
    hide Inv, ChargePreauth, Authenticate, FreshRun, Run, LeavesAlone, Established, Tag, BindingKeyOf, AuthTagOf, Draws,
         FromCurrentBinding, ClientProof, ClientKey;
    ClientAgrees(env.hmac, s, r, hello, challenge, reading.mono);
    HonestClientIsBound(s, env.limits, env.hmac, env.random, r, hello, challenge, inputBytes, reading);
    var request := AuthenticateRequest(hello.roomID, hello.sessionID, challenge.candidateID, hello.endpoint,
      ClientProof(env.hmac, s.heap[r].secret.value, hello, challenge), inputBytes);
    var (s', answer) := Authenticate(s, env.limits, env.hmac, env.random, request, reading);
    EstablishedProves(s, s', env.hmac, r, hello, challenge, request, answer.value, reading.mono);
    FirstCompletion(s, env.limits, env.hmac, env.random, r, request, reading);
    HonestPacketIsCurrent(s, env, r, request, reading, steps, m, now);
  }

  lemma EstablishedProves(s: State, s': State, hmac: Hmac, r: Ref, hello: ChallengeRequest,
      challenge: ChallengeResult, request: AuthenticateRequest, result: BoundResult, now: int)
    requires Challenged(s, r, hello, challenge, now) && s.heap[r].secret.Some?
    requires request.candidateID == challenge.candidateID && Established(s, s', hmac, r, request, result)
    ensures Proven(hmac, BindingKeyOf(hmac, s.heap[r], challenge.candidateID, hello.clientNonce,
      challenge.serverNonce), hello, challenge, result)
  {
    hide Tag, BindingKeyOf;
  }

  /** A client that knows the secret of its grant gets through: it says hello, and is challenged;
      it proves the secret, and is bound, and can check that it is; and then it is heard under the
      key that only it and the relay can compute. In between the store may serve anything, short
      of another handshake of the grant or the end of its room. */
  lemma ClientGetsThrough(s: State, env: Env, hello: ChallengeRequest, greeted: ClockReading, first: seq<Step>,
      inputBytes: int, proved: ClockReading, second: seq<Step>, m: Packet, now: int)
    requires Inv(s, env.limits) && env.limits.Valid()
    requires BeginChallenge(s, env.limits, env.random, hello, greeted).1.Admit?
    requires m.room == hello.roomID && m.session == hello.sessionID && m.sequence > 0
    ensures var (s1, answer) := BeginChallenge(s, env.limits, env.random, hello, greeted);
      && hello.grantID in s.grantsByID && Inv(s1, env.limits)
      && var r, challenge := s.grantsByID[hello.grantID], answer.value;
      && r in s.heap && s.heap[r].secret.Some? && r in s1.heap && s1.heap[r].pending.Some?
      && var secret, deadline := s.heap[r].secret.value, s1.heap[r].pending.value.deadline;
      && (FreshRun(s1, env, first) && LeavesAlone(s1, env, first, r, deadline) && proved.mono < deadline
          && ChargePreauth(Run(s1, env, first), env.limits, hello.endpoint, inputBytes, proved.mono).1
          && Draws(env.random, Run(s1, env, first).drawn, Run(s1, env, first).bindingsByID.Keys) ==>
            var t := Run(s1, env, first);
            var key := ClientKey(env.hmac, secret, hello, challenge);
            var request := AuthenticateRequest(hello.roomID, hello.sessionID, challenge.candidateID, hello.endpoint,
              ClientProof(env.hmac, secret, hello, challenge), inputBytes);
            var (t', bound) := Authenticate(t, env.limits, env.hmac, env.random, request, proved);
            && bound.Admit? && Inv(t', env.limits) && Proven(env.hmac, key, hello, challenge, bound.value)
            && r in t.heap
            && (FreshRun(t', env, second)
                && LeavesAlone(t', env, second, r, BoundUntil(env.limits, t.heap[r], proved.mono))
                && now < BoundUntil(env.limits, t.heap[r], proved.mono) && m.bindingID == bound.value.bindingID ==>
                  FromCurrentBinding(Run(t', env, second), env.hmac, m, hello.endpoint, Tag(env.hmac, key, m), now)))
  {
    hide Inv, ChargePreauth, BeginChallenge, Authenticate, FreshRun, Run, LeavesAlone, Tag, Draws, FromCurrentBinding,
         ClientProof, ClientKey, Evolves, Carries, GrantOK;
    BeginChallengeKeepsInv(s, env.limits, env.random, hello, greeted);
    var (s1, answer) := BeginChallenge(s, env.limits, env.random, hello, greeted);
    var r, challenge := s.grantsByID[hello.grantID], answer.value;
    GrantsIndexed(s, env.limits, hello.grantID);
    LiveIffSecret(s, env.limits, r);
    SecretStays(s, s1, r, greeted.mono);
    GrantHolds(s1, env.limits, r);
    PendingEndsFirst(s1.heap[r], s1.rooms[s1.heap[r].roomID]);
    var deadline := s1.heap[r].pending.value.deadline;
    if FreshRun(s1, env, first) && LeavesAlone(s1, env, first, r, deadline) && proved.mono < deadline
       && ChargePreauth(Run(s1, env, first), env.limits, hello.endpoint, inputBytes, proved.mono).1
       && Draws(env.random, Run(s1, env, first).drawn, Run(s1, env, first).bindingsByID.Keys) {
      var t := Run(s1, env, first);
      HandshakesSurvive(s1, env, first, r, deadline);
      CarriedChallenge(env.hmac, s1, t, r, hello, challenge, greeted.mono, proved.mono, deadline);
      CarriedSecret(s1.heap[r], t.heap[r], deadline);
      ProofIsAccepted(t, env, r, hello, challenge, inputBytes, proved, second, m, now);
    }
  }

  lemma SecretStays(s: State, s': State, r: Ref, now: int)
    requires Evolves(s, s', now) && r in s.heap && r in s'.heap && Live(s'.heap[r])
    ensures s'.heap[r].secret == s.heap[r].secret
  {
  }

  lemma CarriedSecret(g: Grant, g': Grant, deadline: int)
    requires Carries(g, g', deadline)
    ensures g'.secret == g.secret
  {
  }
}
