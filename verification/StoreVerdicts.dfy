/** What a datagram is told: the reason of every rejection, read off the state that the datagram
    met, and that what is reported as expired is gone. */
module StoreVerdicts {
  import opened Prelude
  import opened Admission
  import opened Transcript
  import opened StoreModel
  import opened StoreDeletion
  import opened StoreAdmission
  import opened StoreInvariant
  import opened StoreRooms
  import opened StoreRuns
  import opened StoreHandshake
  import opened StoreAmounts
  import opened StoreSweep

  // ---------------------------------------------------------------- hello

  /** Why a hello that was paid for is not answered, if it is not: the grant is not known, has
      expired or is for something else; another client is at the handshake; the nonce was used
      for the last one; or the random stream is lost. */
  ghost function HelloRefusal(s: State, random: Random, request: ChallengeRequest, now: int): Option<Reason> {
    if !(request.grantID in s.grantsByID && s.grantsByID[request.grantID] in s.heap) then Some(RejectUnknownGrant)
    else
      var g := s.heap[s.grantsByID[request.grantID]];
      if now >= g.monoDeadline then Some(RejectExpired)
      else if request.roomID != g.roomID then Some(RejectWrongRoom)
      else if request.sessionID != g.sessionID then Some(RejectAuthFailed)
      else if PendingAlive(g, now) then
        if request.endpoint != g.pending.value.endpoint then Some(RejectWrongEndpoint)
        else if request.clientNonce != g.pending.value.clientNonce then Some(RejectAuthFailed)
        else None
      else if RecentAlive(g, now) && request.clientNonce == g.recent.value.clientNonce then Some(RejectAuthFailed)
      else if !Drawable(s, random, g, now) then Some(RejectFatalRandom)
      else None
  }

  lemma Challenge0Verdict(s: State, limits: Limits, random: Random, r: Ref, request: ChallengeRequest,
      reading: ClockReading)
    requires r in s.heap && s.heap[r].roomID in s.rooms
    ensures ReasonOf(Challenge0(s, limits, random, r, request, reading).1) ==
      var g := s.heap[r];
      if g.pending.Some? then
        if request.endpoint != g.pending.value.endpoint then Some(RejectWrongEndpoint)
        else if request.clientNonce != g.pending.value.clientNonce then Some(RejectAuthFailed)
        else None
      else if g.recent.Some? && request.clientNonce == g.recent.value.clientNonce then Some(RejectAuthFailed)
      else if !(&& Draws(random, s.drawn, s.candidatesByID.Keys)
                && random(UniqueID(random, s.drawn, s.candidatesByID.Keys, ID_DRAWS).1).Some?) then
        Some(RejectFatalRandom)
      else None
  {
    hide UniqueID, Put, ProjectWireExpiryUnixMS;
  }

  /** The reason a hello is rejected for; one that cannot be paid for is rate limited, and an
      endpoint that is none pays for nothing. */
  lemma HelloVerdict(s: State, limits: Limits, random: Random, request: ChallengeRequest, reading: ClockReading)
    requires Inv(s, limits)
    ensures ReasonOf(BeginChallenge(s, limits, random, request, reading).1) ==
      if !ChargePreauth(s, limits, request.endpoint, request.inputBytes, reading.mono).1 then Some(RejectRateLimited)
      else HelloRefusal(s, random, request, reading.mono)
  {
    hide Inv, ChargePreauth, LiveAuthority, Challenge0, Drawable, Evolves, SameElsewhere, ExpireRelay, ExpiredRelay,
         GrantOK;
    var now := reading.mono;
    ChargePreauthKeepsInv(s, limits, request.endpoint, request.inputBytes, now);
    NoEndpointPays(s, limits, request.endpoint, request.inputBytes, now);
    var s1 := ChargePreauth(s, limits, request.endpoint, request.inputBytes, now).0;
    if request.grantID in s.grantsByID {
      var r := s.grantsByID[request.grantID];
      GrantsIndexed(s, limits, request.grantID);
      LiveAuthorityKeepsInv(s1, limits, r, now);
      LiveAuthorityExpires(s1, limits, r, now);
      GrantFacts(s1, limits, r);
      GrantHolds(s1, limits, r);
      ExpireKeepsLive(s1, r, now);
      ExpireRelayState(s1, r, now);
      ExpiredRelayHandshakes(s1.heap[r], s1.rooms[s1.heap[r].roomID], now);
      Challenge0Verdict(ExpireRelay(s1, r, now), limits, random, r, request, reading);
      DrawableAfter(s, s1, random, r, now);
    }
  }

  lemma DrawableAfter(s: State, s1: State, random: Random, r: Ref, now: int)
    requires SameButGate(s, s1) && r in s.heap
    ensures var s2 := ExpireRelay(s1, r, now);
      Drawable(s, random, s.heap[r], now) <==>
        && Draws(random, s2.drawn, s2.candidatesByID.Keys)
        && random(UniqueID(random, s2.drawn, s2.candidatesByID.Keys, ID_DRAWS).1).Some?
  {
    hide UniqueID, ExpireRelay, ExpiredRelay, CandidateIDs;
    ExpireRelayState(s1, r, now);
  }

  lemma NoEndpointPays(s: State, limits: Limits, endpoint: Endpoint, inputBytes: int, now: int)
    requires Inv(s, limits)
    ensures ChargePreauth(s, limits, endpoint, inputBytes, now).1 ==> endpoint.IsValid()
  {
    hide Inv, GateOK;
    GateHolds(s, limits);
    PreauthExactly(s.gate, limits, endpoint, inputBytes, now);
    hide AdmitPreauth;
  }

  // ---------------------------------------------------------------- authentication

  /** Why an authentication that was paid for fails, if it does: there is no such handshake, its
      grant has expired or is for something else; it has expired, was begun by another endpoint,
      or is not proved; or the random stream is lost. */
  ghost function AuthRefusal(s: State, hmac: Hmac, random: Random, request: AuthenticateRequest,
      now: int): Option<Reason> {
    if !(request.candidateID in s.candidatesByID && s.candidatesByID[request.candidateID] in s.heap
         && s.heap[s.candidatesByID[request.candidateID]].secret.Some?) then Some(RejectAuthFailed)
    else
      var g := s.heap[s.candidatesByID[request.candidateID]];
      if now >= g.monoDeadline then Some(RejectExpired)
      else if request.roomID != g.roomID then Some(RejectWrongRoom)
      else if request.sessionID != g.sessionID then Some(RejectAuthFailed)
      else if g.recent.Some? && g.recent.value.candidateID == request.candidateID then
        if now >= g.recent.value.deadline then Some(RejectExpired)
        else if request.endpoint != g.recent.value.endpoint then Some(RejectWrongEndpoint)
        else if request.authTag != AuthTagOf(hmac, g, request.candidateID, g.recent.value.clientNonce,
             g.recent.value.serverNonce) then Some(RejectAuthFailed)
        else None
      else if g.pending.Some? && g.pending.value.candidateID == request.candidateID then
        if now >= g.pending.value.deadline then Some(RejectExpired)
        else if request.endpoint != g.pending.value.endpoint then Some(RejectWrongEndpoint)
        else if request.authTag != AuthTagOf(hmac, g, request.candidateID, g.pending.value.clientNonce,
             g.pending.value.serverNonce) then Some(RejectAuthFailed)
        else if !Draws(random, s.drawn, s.bindingsByID.Keys) then Some(RejectFatalRandom)
        else None
      else Some(RejectAuthFailed)
  }

  lemma RecallReason(hmac: Hmac, g: Grant, room: Room, request: AuthenticateRequest, now: int)
    requires GrantOK(g, room) && g.secret.Some? && g.recent.Some? && g.recent.value.candidateID == request.candidateID
    ensures RecallRefusal(hmac, g, request, now) ==
      if now >= g.recent.value.deadline then Some(RejectExpired)
      else if request.endpoint != g.recent.value.endpoint then Some(RejectWrongEndpoint)
      else if request.authTag != AuthTagOf(hmac, g, request.candidateID, g.recent.value.clientNonce,
           g.recent.value.serverNonce) then Some(RejectAuthFailed)
      else None
  {
    hide AuthTagOf;
  }

  lemma CompleteReason(s: State, limits: Limits, hmac: Hmac, random: Random, r: Ref, request: AuthenticateRequest,
      reading: ClockReading)
    requires r in s.heap && s.heap[r].secret.Some? && s.heap[r].roomID in s.rooms
    ensures ReasonOf(CompletePending(s, limits, hmac, random, r, request, reading).1) ==
      var g := s.heap[r];
      if g.pending.Some? && g.pending.value.candidateID == request.candidateID then
        if reading.mono >= g.pending.value.deadline then Some(RejectExpired)
        else if request.endpoint != g.pending.value.endpoint then Some(RejectWrongEndpoint)
        else if request.authTag != AuthTagOf(hmac, g, request.candidateID, g.pending.value.clientNonce,
             g.pending.value.serverNonce) then Some(RejectAuthFailed)
        else if !Draws(random, s.drawn, s.bindingsByID.Keys) then Some(RejectFatalRandom)
        else None
      else Some(RejectAuthFailed)
  {
    hide UniqueID, ProjectWireExpiryUnixMS, Tag, BindingKeyOf, AuthTagOf, Put;
  }

  /** The reason an authentication is rejected for. */
  lemma AuthVerdict(s: State, limits: Limits, hmac: Hmac, random: Random, request: AuthenticateRequest,
      reading: ClockReading)
    requires Inv(s, limits)
    ensures ReasonOf(Authenticate(s, limits, hmac, random, request, reading).1) ==
      if !ChargePreauth(s, limits, request.endpoint, request.inputBytes, reading.mono).1 then Some(RejectRateLimited)
      else AuthRefusal(s, hmac, random, request, reading.mono)
  {
    hide Inv, ChargePreauth, LiveAuthority, RecallRefusal, CompletePending, Put, Evolves, SameElsewhere, CandidateIDs,
         Draws, AuthTagOf, GrantOK;
    var now := reading.mono;
    ChargePreauthKeepsInv(s, limits, request.endpoint, request.inputBytes, now);
    NoEndpointPays(s, limits, request.endpoint, request.inputBytes, now);
    var s1 := ChargePreauth(s, limits, request.endpoint, request.inputBytes, now).0;
    if request.candidateID in s.candidatesByID {
      var r := s.candidatesByID[request.candidateID];
      CandidateIndexed(s, limits, request.candidateID);
      LiveIffSecret(s, limits, r);
      LiveAuthorityKeepsInv(s1, limits, r, now);
      LiveAuthorityExpires(s1, limits, r, now);
      GrantFacts(s1, limits, r);
      GrantHolds(s1, limits, r);
      CompleteReason(s1, limits, hmac, random, r, request, reading);
      var g := s1.heap[r];
      if g.recent.Some? && g.recent.value.candidateID == request.candidateID {
        RecallReason(hmac, g, s1.rooms[g.roomID], request, now);
      }
    }
  }

  // ---------------------------------------------------------------- packets

  /** Why a packet is not from a current binding, if it is not: it is malformed, its binding is
      not known, its grant has expired, it is for something else, the binding has expired, or it
      is from another endpoint or not proved. */
  ghost function PacketRefusal(s: State, hmac: Hmac, m: Packet, endpoint: Endpoint, authTag: Bytes, inputBytes: int,
      now: int): Option<Reason> {
    if m.sequence == 0 || inputBytes < 0 then Some(RejectMalformed)
    else if !(m.bindingID in s.bindingsByID && s.bindingsByID[m.bindingID] in s.heap
              && s.heap[s.bindingsByID[m.bindingID]].binding.Some?) then Some(RejectNotBound)
    else
      var g := s.heap[s.bindingsByID[m.bindingID]];
      if now >= g.monoDeadline then Some(RejectExpired)
      else if m.room != g.roomID then Some(RejectWrongRoom)
      else if m.session != g.sessionID then Some(RejectAuthFailed)
      else if now >= g.binding.value.deadline then Some(RejectExpired)
      else if endpoint != g.binding.value.endpoint then Some(RejectWrongEndpoint)
      else if authTag != Tag(hmac, g.binding.value.key, m) then Some(RejectAuthFailed)
      else None
  }

  lemma InspectReason(s: State, limits: Limits, hmac: Hmac, m: Packet, endpoint: Endpoint, authTag: Bytes,
      inputBytes: int, now: int)
    requires Inv(s, limits)
    ensures forall c | c in s.bindingsByID :: s.bindingsByID[c] in s.heap
    ensures var refusal := Inspect(s, hmac, m, endpoint, authTag, inputBytes, now);
      PacketRefusal(s, hmac, m, endpoint, authTag, inputBytes, now) ==
        if refusal.Some? then Some(refusal.value.reason) else None
  {
    hide Inv, Tag, GrantOK;
    BindingsResident(s, limits);
    if m.bindingID in s.bindingsByID {
      var r := s.bindingsByID[m.bindingID];
      BindingIndexed(s, limits, m.bindingID);
      GrantFacts(s, limits, r);
      GrantHolds(s, limits, r);
      BoundIsValid(s.heap[r], s.rooms[s.heap[r].roomID]);
    }
  }

  /** The reason a packet is rejected for, when it is not from a current binding; one that the
      pre-authentication class cannot pay for is rate limited. What is from a current binding is
      answered as `PacketsExactly` says. */
  lemma PacketVerdict(s: State, limits: Limits, hmac: Hmac, m: Packet, endpoint: Endpoint, authTag: Bytes,
      inputBytes: int, now: int)
    requires Inv(s, limits)
    ensures var refusal := PacketRefusal(s, hmac, m, endpoint, authTag, inputBytes, now);
      && (refusal.None? <==> FromCurrentBinding(s, hmac, m, endpoint, authTag, now) && inputBytes >= 0)
      && (refusal.Some? ==>
            AdmitAuthenticated(s, limits, hmac, m, endpoint, authTag, inputBytes, now).1 ==
              if ChargePreauth(s, limits, endpoint, inputBytes, now).1 then Reject(refusal.value)
              else Reject(RejectRateLimited))
  {
    hide Inv, Inspect, PacketRefusal, ChargePreauth, CleanUp, FromCurrentBinding, AdmitBound;
    InspectReason(s, limits, hmac, m, endpoint, authTag, inputBytes, now);
    InspectMeans(s, limits, hmac, m, endpoint, authTag, inputBytes, now);
  }

  // ---------------------------------------------------------------- fan-out

  /** The value was admitted on grant `r`, under the binding that it has now: the identifier, the
      generation and the names all agree. */
  ghost predicate AdmittedOn(s: State, admitted: AdmittedClientData, r: Ref) {
    && r in s.heap && s.heap[r].binding.Some?
    && s.heap[r].binding.value.id == admitted.bindingID
    && s.heap[r].binding.value.generation == admitted.bindingGeneration
    && s.heap[r].roomID == admitted.roomID && s.heap[r].sessionID == admitted.sessionID
    && s.heap[r].participantID == admitted.senderParticipantID
  }

  lemma MatchesExactly(s: State, limits: Limits, admitted: AdmittedClientData)
    requires Inv(s, limits)
    ensures SenderMatches(s, admitted) <==> exists r :: AdmittedOn(s, admitted, r)
    ensures forall r | AdmittedOn(s, admitted, r) ::
      admitted.bindingID in s.bindingsByID && s.bindingsByID[admitted.bindingID] == r
  {
    hide Inv;
    if SenderMatches(s, admitted) { assert AdmittedOn(s, admitted, s.bindingsByID[admitted.bindingID]); }
    forall r | AdmittedOn(s, admitted, r)
      ensures admitted.bindingID in s.bindingsByID && s.bindingsByID[admitted.bindingID] == r
    {
      BindingOwner(s, limits, r);
    }
  }

  /** What fan-out answers to every value: a value of no binding in place is not bound, and nothing
      happens; an expired one has expired; too large a datagram is refused; one that cannot be paid
      for is limited; and any other is planned for exactly the others in the room who are bound. */
  lemma FanoutAnswersExactly(s: State, limits: Limits, admitted: AdmittedClientData, outputBytes: int, now: int)
    requires Inv(s, limits) && limits.Valid()
    ensures var (s', answer) := AdmitFanout(s, limits, admitted, outputBytes, now);
      && ((forall r :: !AdmittedOn(s, admitted, r)) ==> answer == Reject(RejectNotBound) && s' == s)
      && forall r | AdmittedOn(s, admitted, r) ::
           && s.heap[r].roomID in s.rooms && Resident(s, s.rooms[s.heap[r].roomID].grants)
           && var g := s.heap[r];
           && var audience := Audience(s, s.rooms[g.roomID].grants, r, now);
           && answer ==
                if now >= g.binding.value.deadline then Reject(RejectExpired)
                else if !(0 <= outputBytes <= 1200) then Reject(RejectOversized)
                else if audience != [] && !FanoutHas(s.gate, g.roomID, |audience|, outputBytes, now) then
                  Reject(RejectFanoutLimited)
                else Admit(RelayPlan(g.roomID, g.sessionID, g.participantID, admitted.sequence, audience))
  {
    hide Inv, AdmitFanout, Evolves, Audience, Attempted, Drops, FanoutHas, FanoutOf, FanoutLower, SenderMatches;
    MatchesExactly(s, limits, admitted);
    FanoutKeepsInv(s, limits, admitted, outputBytes, now);
    forall r | AdmittedOn(s, admitted, r)
      ensures s.heap[r].roomID in s.rooms && Resident(s, s.rooms[s.heap[r].roomID].grants)
    {
      GrantFacts(s, limits, r);
      GrantsResident(s, limits, s.heap[r].roomID);
    }
    if r :| AdmittedOn(s, admitted, r) {
      if now < s.heap[r].binding.value.deadline && 0 <= outputBytes <= MAX_DATAGRAM_BYTES {
        FanoutAmounts(s, limits, admitted, outputBytes, now);
      }
    }
  }

  lemma VisitedIsSwept(s: State, q: Ref, sender: Ref, now: int)
    requires q in s.heap && (exists room :: GrantOK(s.heap[q], room))
    ensures q in Visited(s, q, sender, now).heap
    ensures Settled(Visited(s, q, sender, now).heap[q], now) || q == sender
  {
    hide Reindex, LiveIDs, CandidateIDs, BindingIDs;
    var room :| GrantOK(s.heap[q], room);
    var g := s.heap[q];
    if q != sender && Live(g) {
      ExpiredIsSettled(g, now);
      TerminatedIsSettled(g, now);
      ExpiredIdentity(g, now);
    } else if q != sender {
      DeadIsSettled(g, room, now);
    }
    hide ExpiredRelay, Terminated, GrantOK;
  }

  lemma DeadIsSettled(g: Grant, room: Room, now: int)
    requires GrantOK(g, room) && !Live(g)
    ensures Settled(g, now)
  {
  }

  lemma {:induction false} RecipientsSettle(s: State, refs: seq<Ref>, sender: Ref, now: int)
    requires forall i | 0 <= i < |refs| :: refs[i] in s.heap && exists room :: GrantOK(s.heap[refs[i]], room)
    requires forall i, j | 0 <= i < j < |refs| :: refs[i] != refs[j]
    ensures var s' := Recipients(s, refs, sender, now).0;
      forall q | q in refs && q != sender :: q in s'.heap && Settled(s'.heap[q], now)
    decreases |refs|
  {
    if refs != [] {
      var rest := refs[1..];
      assert forall i | 0 <= i < |rest| :: rest[i] == refs[i + 1];
      var s1 := Visited(s, refs[0], sender, now);
      VisitFrame(s, refs[0], sender, now);
      VisitFirst(s, refs, sender, now);
      VisitedIsSwept(s, refs[0], sender, now);
      hide Visited, Recipients, GrantOK, Settled, Drops;
      RecipientsSettle(s1, rest, sender, now);
      RecipientsAreAudience(s1, rest, sender, now);
      forall q | q in refs && q != sender ensures q in Recipients(s1, rest, sender, now).0.heap
        ensures Settled(Recipients(s1, rest, sender, now).0.heap[q], now)
      {
        if q != refs[0] { assert q in rest; }
      }
    }
  }

  /** Whether or not it is paid for, fan-out of a current value leaves nothing expired of the other
      grants in the room. */
  lemma FanoutSettlesTheRoom(s: State, limits: Limits, admitted: AdmittedClientData, outputBytes: int, now: int, r: Ref)
    requires Inv(s, limits) && limits.Valid() && AdmittedOn(s, admitted, r)
    requires now < s.heap[r].binding.value.deadline && 0 <= outputBytes <= MAX_DATAGRAM_BYTES
    ensures var s' := AdmitFanout(s, limits, admitted, outputBytes, now).0;
      && s.heap[r].roomID in s.rooms
      && forall q | q in s.rooms[s.heap[r].roomID].grants && q != r :: q in s'.heap && Settled(s'.heap[q], now)
  {
    hide Inv, Evolves, Recipients, ChargeFanout, Settled, GrantOK, Audience, Drops;
    MatchesExactly(s, limits, admitted);
    BindingIndexed(s, limits, admitted.bindingID);
    GrantHolds(s, limits, r);
    LiveAuthorityKeepsInv(s, limits, r, now);
    LiveAuthorityExpires(s, limits, r, now);
    GrantFacts(s, limits, r);
    BoundIsLive(s, limits, r);
    var id := s.heap[r].roomID;
    var refs := s.rooms[id].grants;
    GrantsResident(s, limits, id);
    RoomShape(s, limits, id);
    forall i | 0 <= i < |refs| ensures exists room :: GrantOK(s.heap[refs[i]], room) {
      GrantHolds(s, limits, refs[i]);
      assert GrantOK(s.heap[refs[i]], s.rooms[s.heap[refs[i]].roomID]);
    }
    RecipientsSettle(s, refs, r, now);
    RecipientsKeepInv(s, limits, refs, r, now);
    RecipientsAreAudience(s, refs, r, now);
    var (s2, recipients) := Recipients(s, refs, r, now);
    ChargeKeepsHeap(s2, limits, id, RelayPlan(id, s.heap[r].sessionID, s.heap[r].participantID, admitted.sequence,
      recipients), outputBytes, now);
  }

  lemma ChargeKeepsHeap(s: State, limits: Limits, room: string, plan: RelayPlan, outputBytes: nat, now: int)
    requires Inv(s, limits) && room in s.rooms && !s.rooms[room].state.Tombstone?
    ensures ChargeFanout(s, limits, room, plan, outputBytes, now).0.heap == s.heap
  {
    hide Inv, ChargeFanout, Evolves;
    ChargeFanoutKeepsInv(s, limits, room, plan, outputBytes, now);
  }

  // ---------------------------------------------------------------- what expired is gone

  /** The identifier leads to nothing any more. */
  lemma EndedIsUnknown(s: State, limits: Limits, s': State, r: Ref)
    requires Inv(s, limits) && Inv(s', limits) && r in s.heap && r in s'.heap && !Live(s'.heap[r])
    requires forall q | q in s'.heap && q != r :: q in s.heap && s'.heap[q] == s.heap[q]
    ensures forall c | c in LiveIDs(s.heap[r]) :: c !in s'.grantsByID
    ensures forall c | c in CandidateIDs(s.heap[r]) :: c !in s'.candidatesByID
    ensures forall c | c in BindingIDs(s.heap[r]) :: c !in s'.bindingsByID
  {
    IndexesHold(s, limits);
    IndexesHold(s', limits);
    GrantHolds(s', limits, r);
    DeadHasNone(s'.heap[r], s'.rooms[s'.heap[r].roomID]);
    hide Inv, GrantOK;
    NoneLeft(s.grantsByID, s'.grantsByID, s.heap, s'.heap, LiveIDs, r);
    NoneLeft(s.candidatesByID, s'.candidatesByID, s.heap, s'.heap, CandidateIDs, r);
    NoneLeft(s.bindingsByID, s'.bindingsByID, s.heap, s'.heap, BindingIDs, r);
  }

  lemma DeadHasNone(g: Grant, room: Room)
    requires GrantOK(g, room) && !Live(g)
    ensures LiveIDs(g) == {} && CandidateIDs(g) == {} && BindingIDs(g) == {}
  {
  }

  /** A key of a record that no longer has it has left an exact index, if the other records are
      as they were. */
  lemma NoneLeft(index: map<Bytes, Ref>, index': map<Bytes, Ref>, heap: map<Ref, Grant>, heap': map<Ref, Grant>,
      keys: Grant -> set<Bytes>, r: Ref)
    requires IndexExact(index, heap, keys) && IndexExact(index', heap', keys) && r in heap
    requires forall q | q in heap' && q != r :: q in heap && heap'[q] == heap[q]
    ensures forall c | c in keys(heap[r]) && (r in heap' ==> c !in keys(heap'[r])) :: c !in index'
  {
    forall c | c in keys(heap[r]) && (r in heap' ==> c !in keys(heap'[r])) ensures c !in index' {
      assert index[c] == r;
    }
  }

  /** The room of a grant was ended: its identifiers lead nowhere. */
  lemma GoneIsUnknown(s: State, limits: Limits, s': State, r: Ref)
    requires Inv(s, limits) && Inv(s', limits) && r in s.heap && r !in s'.heap
    requires forall q | q in s'.heap :: q in s.heap && s'.heap[q] == s.heap[q]
    ensures forall c | c in LiveIDs(s.heap[r]) :: c !in s'.grantsByID
    ensures forall c | c in CandidateIDs(s.heap[r]) :: c !in s'.candidatesByID
    ensures forall c | c in BindingIDs(s.heap[r]) :: c !in s'.bindingsByID
  {
    IndexesHold(s, limits);
    IndexesHold(s', limits);
    hide Inv;
    NoneLeft(s.grantsByID, s'.grantsByID, s.heap, s'.heap, LiveIDs, r);
    NoneLeft(s.candidatesByID, s'.candidatesByID, s.heap, s'.heap, CandidateIDs, r);
    NoneLeft(s.bindingsByID, s'.bindingsByID, s.heap, s'.heap, BindingIDs, r);
  }

  /** A live grant found without authority is ended, and all its identifiers are forgotten. */
  lemma ExpiredAuthorityIsUnknown(s: State, limits: Limits, r: Ref, now: int)
    requires Inv(s, limits) && r in s.heap && Live(s.heap[r]) && now >= s.heap[r].monoDeadline
    ensures var s' := LiveAuthority(s, limits, r, now).0;
      && (forall c | c in LiveIDs(s.heap[r]) :: c !in s'.grantsByID)
      && (forall c | c in CandidateIDs(s.heap[r]) :: c !in s'.candidatesByID)
      && (forall c | c in BindingIDs(s.heap[r]) :: c !in s'.bindingsByID)
  {
    hide Inv, TombstoneRoom, TerminateGrant, Evolves, RoomsOK, LiveIDs, CandidateIDs, BindingIDs;
    GrantFacts(s, limits, r);
    LiveAuthorityKeepsInv(s, limits, r, now);
    InvRooms(s, limits);
    var s' := LiveAuthority(s, limits, r, now).0;
    var id := s.heap[r].roomID;
    if now >= s.rooms[id].monoDeadline {
      TombstoneFrame(s, limits, id, now, Expired);
      GoneIsUnknown(s, limits, s', r);
    } else {
      TerminateFrame(s, r, Expired);
      EndedIsUnknown(s, limits, s', r);
    }
  }

  /** A grant that a hello is told has expired is not known from then on. */
  lemma ExpiredHelloIsForgotten(s: State, limits: Limits, random: Random, request: ChallengeRequest,
      reading: ClockReading)
    requires Inv(s, limits)
    ensures var (s', answer) := BeginChallenge(s, limits, random, request, reading);
      answer == Reject(RejectExpired) ==> request.grantID !in s'.grantsByID
  {
    hide Inv, ChargePreauth, LiveAuthority, Challenge0, HelloRefusal, Evolves, SameElsewhere, ExpireRelay, ExpiredRelay,
         CandidateIDs, BindingIDs, UniqueID, Drawable;
    var now := reading.mono;
    HelloVerdict(s, limits, random, request, reading);
    ChargePreauthKeepsInv(s, limits, request.endpoint, request.inputBytes, now);
    var s1 := ChargePreauth(s, limits, request.endpoint, request.inputBytes, now).0;
    if request.grantID in s1.grantsByID {
      var r := s1.grantsByID[request.grantID];
      GrantsIndexed(s1, limits, request.grantID);
      LiveAuthorityExpires(s1, limits, r, now);
      LiveAuthorityKeepsInv(s1, limits, r, now);
      GrantFacts(s1, limits, r);
      if now >= s1.heap[r].monoDeadline {
        ExpiredAuthorityIsUnknown(s1, limits, r, now);
      } else {
        ExpireRelayState(s1, r, now);
        ExpireKeepsLive(s1, r, now);
        Challenge0Verdict(ExpireRelay(s1, r, now), limits, random, r, request, reading);
      }
    }
  }

  lemma PutForgets(s: State, limits: Limits, r: Ref, g: Grant)
    requires Inv(s, limits) && r in s.heap && Inv(Put(s, r, g), limits)
    ensures forall c | c in CandidateIDs(s.heap[r]) && c !in CandidateIDs(g) :: c !in Put(s, r, g).candidatesByID
    ensures forall c | c in BindingIDs(s.heap[r]) && c !in BindingIDs(g) :: c !in Put(s, r, g).bindingsByID
  {
    IndexesHold(s, limits);
    IndexesHold(Put(s, r, g), limits);
    PutFrame(s, r, g);
    hide Inv, Put;
    NoneLeft(s.candidatesByID, Put(s, r, g).candidatesByID, s.heap, Put(s, r, g).heap, CandidateIDs, r);
    NoneLeft(s.bindingsByID, Put(s, r, g).bindingsByID, s.heap, Put(s, r, g).heap, BindingIDs, r);
  }

  lemma ClearedHave(g: Grant, room: Room)
    requires GrantOK(g, room)
    ensures g.pending.Some? ==> g.pending.value.candidateID !in CandidateIDs(ClearedPending(g))
    ensures g.recent.Some? ==> g.recent.value.candidateID !in CandidateIDs(ClearedRecent(g))
    ensures g.recent.Some? ==> g.recent.value.candidateID !in CandidateIDs(ClearedBinding(g))
    ensures BindingIDs(ClearedBinding(g)) == {}
  {
  }

  lemma ExpiredRecallIsForgotten(s: State, limits: Limits, hmac: Hmac, r: Ref, request: AuthenticateRequest, now: int)
    requires Inv(s, limits) && r in s.heap && s.heap[r].recent.Some? && s.heap[r].secret.Some?
      && s.heap[r].recent.value.candidateID == request.candidateID
    ensures var (s', answer) := Recall(s, hmac, r, request, now);
      answer == Reject(RejectExpired) ==> request.candidateID !in s'.candidatesByID
  {
    hide Inv, RecallRefusal, Put, GrantOK, ClearedBinding, ClearedRecent, Evolves;
    var g := s.heap[r];
    GrantHolds(s, limits, r);
    ClearedHave(g, s.rooms[g.roomID]);
    ForgetHandshakeKeepsInv(s, limits, r, now);
    PutForgets(s, limits, r, if g.binding.Some? && now >= g.binding.value.deadline then ClearedBinding(g)
      else ClearedRecent(g));
  }

  lemma ExpiredPendingIsForgotten(s: State, limits: Limits, hmac: Hmac, random: Random, r: Ref,
      request: AuthenticateRequest, reading: ClockReading)
    requires Inv(s, limits) && r in s.heap && s.heap[r].secret.Some? && s.heap[r].roomID in s.rooms
    ensures var (s', answer) := CompletePending(s, limits, hmac, random, r, request, reading);
      answer == Reject(RejectExpired) ==> request.candidateID !in s'.candidatesByID
  {
    hide Inv, Put, GrantOK, ClearedPending, Evolves, Complete, AuthTagOf;
    var g := s.heap[r];
    GrantHolds(s, limits, r);
    ClearedHave(g, s.rooms[g.roomID]);
    ForgetPendingKeepsInv(s, limits, r, reading.mono);
    PutForgets(s, limits, r, ClearedPending(g));
    if g.pending.Some? { CompleteNeverExpires(s, limits, hmac, random, r, request.endpoint, reading); }
  }

  lemma CompleteNeverExpires(s: State, limits: Limits, hmac: Hmac, random: Random, r: Ref, endpoint: Endpoint,
      reading: ClockReading)
    requires r in s.heap && s.heap[r].pending.Some? && s.heap[r].secret.Some? && s.heap[r].roomID in s.rooms
    ensures Complete(s, limits, hmac, random, r, endpoint, reading).1 != Reject(RejectExpired)
  {
    hide UniqueID, ProjectWireExpiryUnixMS, Tag, BindingKeyOf, Put;
  }

  /** A handshake that an authentication is told has expired is not known from then on. */
  lemma ExpiredAuthIsForgotten(s: State, limits: Limits, hmac: Hmac, random: Random, request: AuthenticateRequest,
      reading: ClockReading)
    requires Inv(s, limits)
    ensures var (s', answer) := Authenticate(s, limits, hmac, random, request, reading);
      answer == Reject(RejectExpired) ==> request.candidateID !in s'.candidatesByID
  {
    hide Inv, ChargePreauth, LiveAuthority, Recall, CompletePending, Evolves, SameElsewhere, LiveIDs, BindingIDs,
         CandidateIDs;
    var now := reading.mono;
    ChargePreauthKeepsInv(s, limits, request.endpoint, request.inputBytes, now);
    var s1 := ChargePreauth(s, limits, request.endpoint, request.inputBytes, now).0;
    if request.candidateID in s1.candidatesByID {
      var r := s1.candidatesByID[request.candidateID];
      CandidateIndexed(s1, limits, request.candidateID);
      LiveAuthorityExpires(s1, limits, r, now);
      LiveAuthorityKeepsInv(s1, limits, r, now);
      GrantFacts(s1, limits, r);
      if now >= s1.heap[r].monoDeadline {
        ExpiredAuthorityIsUnknown(s1, limits, r, now);
      } else {
        ExpiredPendingIsForgotten(s1, limits, hmac, random, r, request, reading);
        if s1.heap[r].recent.Some? && s1.heap[r].recent.value.candidateID == request.candidateID {
          ExpiredRecallIsForgotten(s1, limits, hmac, r, request, now);
        }
      }
    }
  }

  lemma CleanUpForgets(s: State, limits: Limits, bindingID: Bytes, cleanup: Cleanup, now: int)
    requires Inv(s, limits) && MayCleanUp(s, bindingID, cleanup, now) && !cleanup.Nothing?
    ensures bindingID !in CleanUp(s, limits, bindingID, cleanup, now).bindingsByID
  {
    hide Inv, TombstoneRoom, TerminateGrant, Put, ClearedBinding, GrantOK, Evolves, RoomsOK;
    var r := s.bindingsByID[bindingID];
    var s' := CleanUp(s, limits, bindingID, cleanup, now);
    BindingIndexed(s, limits, bindingID);
    GrantHolds(s, limits, r);
    ClearedHave(s.heap[r], s.rooms[s.heap[r].roomID]);
    CleanUpKeepsInv(s, limits, bindingID, cleanup, now);
    InvRooms(s, limits);
    match cleanup
    case TheRoom =>
      TombstoneFrame(s, limits, s.heap[r].roomID, now, Expired);
      GoneIsUnknown(s, limits, s', r);
    case TheGrant =>
      TerminateFrame(s, r, Expired);
      EndedIsUnknown(s, limits, s', r);
    case TheBinding =>
      PutForgets(s, limits, r, ClearedBinding(s.heap[r]));
  }

  lemma InspectCleansUp(s: State, hmac: Hmac, m: Message, endpoint: Endpoint, authTag: Bytes, inputBytes: int, now: int)
    requires m.ClientDataMessage? || m.PingMessage?
    requires forall c | c in s.bindingsByID :: s.bindingsByID[c] in s.heap && s.heap[s.bindingsByID[c]].state.Bound?
    ensures var refusal := Inspect(s, hmac, m, endpoint, authTag, inputBytes, now);
      refusal.Some? && refusal.value.reason.RejectExpired? ==> !refusal.value.cleanup.Nothing?
  {
    hide Tag;
  }

  /** A binding that a packet is told has expired is not known from then on. */
  lemma ExpiredPacketIsForgotten(s: State, limits: Limits, hmac: Hmac, m: Message, endpoint: Endpoint, authTag: Bytes,
      inputBytes: int, now: int)
    requires Inv(s, limits) && (m.ClientDataMessage? || m.PingMessage?)
    ensures var (s', answer) := AdmitAuthenticated(s, limits, hmac, m, endpoint, authTag, inputBytes, now);
      answer == Reject(RejectExpired) ==> m.bindingID !in s'.bindingsByID
  {
    hide Inv, Inspect, ChargePreauth, CleanUp, AdmitBound, Evolves, SameElsewhere, FromCurrentBinding,
         ConsumesSequence, SamePreauth, Attempted;
    BindingsResident(s, limits);
    forall c | c in s.bindingsByID ensures s.heap[s.bindingsByID[c]].state.Bound? { BindingIndexed(s, limits, c); }
    InspectCleansUp(s, hmac, m, endpoint, authTag, inputBytes, now);
    InspectMeans(s, limits, hmac, m, endpoint, authTag, inputBytes, now);
    match Inspect(s, hmac, m, endpoint, authTag, inputBytes, now)
    case Some(refusal) =>
      ChargePreauthKeepsInv(s, limits, endpoint, inputBytes, now);
      var s1 := ChargePreauth(s, limits, endpoint, inputBytes, now).0;
      if !refusal.cleanup.Nothing? { CleanUpForgets(s1, limits, m.bindingID, refusal.cleanup, now); }
    case None =>
      IngressKeepsInv(s, limits, hmac, m, endpoint, authTag, inputBytes, now);
  }

  /** A binding that fan-out finds expired is not known from then on. */
  lemma ExpiredFanoutIsForgotten(s: State, limits: Limits, admitted: AdmittedClientData, outputBytes: int, now: int)
    requires Inv(s, limits) && limits.Valid()
    ensures var (s', answer) := AdmitFanout(s, limits, admitted, outputBytes, now);
      answer == Reject(RejectExpired) ==> admitted.bindingID !in s'.bindingsByID
  {
    hide Inv, Evolves, LiveAuthority, FanoutFrom, Put, ClearedBinding, FanoutOutcome, Drops, GrantOK;
    FanoutKeepsInv(s, limits, admitted, outputBytes, now);
    if SenderMatches(s, admitted) {
      var r := s.bindingsByID[admitted.bindingID];
      BindingIndexed(s, limits, admitted.bindingID);
      LiveAuthorityKeepsInv(s, limits, r, now);
      LiveAuthorityExpires(s, limits, r, now);
      if now >= s.heap[r].monoDeadline {
        ExpiredAuthorityIsUnknown(s, limits, r, now);
      } else if now >= s.heap[r].binding.value.deadline {
        GrantHolds(s, limits, r);
        ClearedHave(s.heap[r], s.rooms[s.heap[r].roomID]);
        EndBindingKeepsInv(s, limits, r, now);
        PutForgets(s, limits, r, ClearedBinding(s.heap[r]));
      } else if 0 <= outputBytes <= MAX_DATAGRAM_BYTES {
        FanoutFromKeepsInv(s, limits, r, admitted.sequence, outputBytes, now);
        FanoutNotExpired(s, limits, r, admitted, outputBytes, now);
      }
    }
  }

  lemma FanoutNotExpired(s: State, limits: Limits, r: Ref, admitted: AdmittedClientData, outputBytes: nat, now: int)
    requires Inv(s, limits) && limits.Valid() && r in s.heap && Live(s.heap[r]) && outputBytes <= MAX_DATAGRAM_BYTES
    ensures FanoutFrom(s, limits, r, admitted.sequence, outputBytes, now).1 != Reject(RejectExpired)
  {
    hide Inv, FanoutFrom, Evolves, Audience, Attempted, Drops;
    FanoutFromKeepsInv(s, limits, r, admitted.sequence, outputBytes, now);
  }
}
