/** Each UDP-side operation keeps the invariant of the store, loses nothing unexpired, never
    reports a revoked grant, and succeeds only before every deadline it depends on. */
module StoreInvariant {
  import opened Prelude
  import opened RateLimit
  import opened Admission
  import opened StoreModel
  import opened StoreDeletion
  import opened StoreAdmission
  import opened Transcript
  import ReplayWindow

  lemma DrawnIrrelevant(s: State, limits: Limits, drawn: nat, now: int)
    requires Inv(s, limits)
    ensures Inv(s.(drawn := drawn), limits) && Evolves(s, s.(drawn := drawn), now)
  {
    hide RoomsOK, GrantsOK, IndexesOK, CountersOK, LimitersOK;
    GateIrrelevant(s, s.(drawn := drawn), limits);
    DrawnLimiters(s, limits, drawn);
  }

  lemma DrawnLimiters(s: State, limits: Limits, drawn: nat)
    requires LimitersOK(s, limits)
    ensures LimitersOK(s.(drawn := drawn), limits)
  {
    hide GateOK;
    forall n | !IsPreauth(n) ensures n in s.gate.buckets <==> Needed(s.(drawn := drawn), n) {
      assert n in s.gate.buckets <==> Needed(s, n);
    }
  }

  /** Replacing a record by one that keeps its relay identifiers or takes free ones. */
  lemma ReplaceKeepsInv(s: State, limits: Limits, r: Ref, g: Grant)
    requires Inv(s, limits) && r in s.heap && s.heap[r].roomID in s.rooms
    requires SameIdentity(s.heap[r], g) && GrantOK(g, s.rooms[g.roomID]) && (Live(g) ==> Live(s.heap[r]))
    requires forall c | c in CandidateIDs(g) :: c in CandidateIDs(s.heap[r]) || c !in s.candidatesByID
    requires forall c | c in BindingIDs(g) :: c in BindingIDs(s.heap[r]) || c !in s.bindingsByID
    ensures Inv(Put(s, r, g), limits)
  {
    assert MayPut(s, r, g) by {
      forall c | c in CandidateIDs(g) && c in s.candidatesByID ensures s.candidatesByID[c] == r {}
      forall c | c in BindingIDs(g) && c in s.bindingsByID ensures s.bindingsByID[c] == r {}
    }
    hide *;
    PutKeepsInv(s, limits, r, g);
  }

  lemma PutFrame(s: State, r: Ref, g: Grant)
    requires r in s.heap
    ensures var s' := Put(s, r, g);
      s'.heap == s.heap[r := g] && s'.rooms == s.rooms && s'.nextRef == s.nextRef && s'.drawn == s.drawn
  {
  }

  // ---------------------------------------------------------------- BeginChallenge

  /** The challenge that answers `request` is pending on grant `r`, with time left. */
  ghost predicate Challenged(s: State, r: Ref, request: ChallengeRequest, result: ChallengeResult, now: int) {
    && r in s.heap && s.heap[r].pending.Some?
    && var g, pending := s.heap[r], s.heap[r].pending.value;
    && Live(g) && g.roomID == request.roomID && g.sessionID == request.sessionID && g.id == request.grantID
    && pending.result == result && pending.candidateID == result.candidateID
       && pending.serverNonce == result.serverNonce
    && pending.endpoint == request.endpoint && pending.clientNonce == request.clientNonce
    && now < pending.deadline
  }

  lemma WithPendingOK(g: Grant, room: Room, pending: Challenge, now: int)
    requires GrantOK(g, room) && Live(g) && g.pending.None?
    requires pending.deadline <= g.monoDeadline && pending.endpoint.IsValid() && pending.candidateID !in CandidateIDs(g)
    requires pending.result.candidateID == pending.candidateID && pending.result.serverNonce == pending.serverNonce
    ensures GrantOK(WithPending(g, pending), room) && GrantEvolves(g, WithPending(g, pending), now)
  {
  }

  lemma IssueKeepsInv(s: State, limits: Limits, random: Random, r: Ref, request: ChallengeRequest,
      reading: ClockReading)
    requires Inv(s, limits) && r in s.heap && s.heap[r].roomID in s.rooms
    requires Live(s.heap[r]) && s.heap[r].pending.None? && request.endpoint.IsValid() && limits.Valid()
    requires Addressed(s.heap[r], request) && reading.mono < s.heap[r].monoDeadline
    ensures var (s', answer) := IssueChallenge(s, limits, random, r, request, reading);
      && Inv(s', limits) && Evolves(s, s', reading.mono) && answer != Reject(RejectRevoked)
      && (answer.Admit? ==> Challenged(s', r, request, answer.value, reading.mono))
  {
    hide Inv, Evolves, GrantOK, GrantEvolves, Put, ProjectWireExpiryUnixMS;
    var (candidate, next) := UniqueID(random, s.drawn, s.candidatesByID.Keys, ID_DRAWS);
    UniqueIDIsFree(random, s.drawn, s.candidatesByID.Keys, ID_DRAWS);
    DrawnIrrelevant(s, limits, next, reading.mono);
    DrawnIrrelevant(s, limits, next + 1, reading.mono);
    if candidate.Some? && random(next).Some? {
      var s2 := s.(drawn := next + 1);
      var g := s.heap[r];
      GrantHolds(s, limits, r);
      CandidatesIndexed(s, limits, r);
      IssuedPending(s, limits, random, r, request, reading);
      var pending := IssueChallenge(s, limits, random, r, request, reading).0.heap[r].pending.value;
      WithPendingOK(g, s.rooms[g.roomID], pending, reading.mono);
      ReplaceKeepsInv(s2, limits, r, WithPending(g, pending));
      PutEvolves(s2, r, WithPending(g, pending), reading.mono);
      RefsBelowNext(s, limits);
      EvolvesTransitive(s, s2, Put(s2, r, WithPending(g, pending)), reading.mono);
      GrantFacts(s, limits, r);
      PutFrame(s2, r, WithPending(g, pending));
    }
  }

  ghost predicate Addressed(g: Grant, request: ChallengeRequest) {
    g.roomID == request.roomID && g.sessionID == request.sessionID && g.id == request.grantID
  }

  lemma IssuedPending(s: State, limits: Limits, random: Random, r: Ref, request: ChallengeRequest,
      reading: ClockReading)
    requires r in s.heap && s.heap[r].roomID in s.rooms
    requires IssueChallenge(s, limits, random, r, request, reading).1.Admit?
    ensures var (s', answer) := IssueChallenge(s, limits, random, r, request, reading);
      && r in s'.heap && s'.heap[r].pending.Some?
      && var pending := s'.heap[r].pending.value;
      && pending.result == answer.value && pending.candidateID == answer.value.candidateID
         && pending.serverNonce == answer.value.serverNonce
      && pending.endpoint == request.endpoint && pending.clientNonce == request.clientNonce
      && pending.deadline == Min(Min(SaturatingAdd(reading.mono, limits.challengeTTL), s.heap[r].monoDeadline),
         s.rooms[s.heap[r].roomID].monoDeadline)
      && answer.value.expiresUnixMS == ProjectWireExpiryUnixMS(reading, pending.deadline)
      && UniqueID(random, s.drawn, s.candidatesByID.Keys, ID_DRAWS).0 == Some(pending.candidateID)
      && s' == Put(s.(drawn := s'.drawn), r, WithPending(s.heap[r], pending))
      && s'.drawn == UniqueID(random, s.drawn, s.candidatesByID.Keys, ID_DRAWS).1 + 1
  {
    hide ProjectWireExpiryUnixMS;
  }

  lemma CandidatesIndexed(s: State, limits: Limits, r: Ref)
    requires Inv(s, limits) && r in s.heap
    ensures CandidateIDs(s.heap[r]) <= s.candidatesByID.Keys && BindingIDs(s.heap[r]) <= s.bindingsByID.Keys
  {
    OwnKeys(s.candidatesByID, s.heap, CandidateIDs, r, s.heap[r]);
    OwnKeys(s.bindingsByID, s.heap, BindingIDs, r, s.heap[r]);
    hide Inv, IndexExact;
  }

  lemma ChallengeKeepsInv(s: State, limits: Limits, random: Random, r: Ref, request: ChallengeRequest,
      reading: ClockReading)
    requires Inv(s, limits) && r in s.heap && s.heap[r].roomID in s.rooms && Live(s.heap[r])
      && request.endpoint.IsValid() && limits.Valid()
    requires Addressed(s.heap[r], request) && reading.mono < s.heap[r].monoDeadline
    requires s.heap[r].pending.Some? ==> reading.mono < s.heap[r].pending.value.deadline
    ensures var (s', answer) := Challenge0(s, limits, random, r, request, reading);
      && Inv(s', limits) && Evolves(s, s', reading.mono) && answer != Reject(RejectRevoked)
      && (answer.Admit? ==> Challenged(s', r, request, answer.value, reading.mono))
  {
    hide Inv, Evolves, IssueChallenge;
    EvolvesReflexive(s, reading.mono);
    GrantHolds(s, limits, r);
    if s.heap[r].pending.None? { IssueKeepsInv(s, limits, random, r, request, reading); }
  }

  lemma GrantsIndexed(s: State, limits: Limits, id: Bytes)
    requires Inv(s, limits) && id in s.grantsByID
    ensures s.grantsByID[id] in s.heap && Live(s.heap[s.grantsByID[id]]) && s.heap[s.grantsByID[id]].id == id
  {
  }

  lemma ExpireKeepsLive(s: State, r: Ref, now: int)
    requires r in s.heap
    ensures var s' := ExpireRelay(s, r, now);
      && Live(s'.heap[r]) == Live(s.heap[r]) && SameIdentity(s.heap[r], s'.heap[r]) && s'.rooms == s.rooms
      && (s'.heap[r].pending.Some? ==> now < s'.heap[r].pending.value.deadline)
  {
    hide Reindex, DropSession, LiveIDs, CandidateIDs, BindingIDs;
  }

  lemma BeginChallengeKeepsInv(s: State, limits: Limits, random: Random, request: ChallengeRequest,
      reading: ClockReading)
    requires Inv(s, limits) && limits.Valid()
    ensures var (s', answer) := BeginChallenge(s, limits, random, request, reading);
      && Inv(s', limits) && Evolves(s, s', reading.mono) && answer != Reject(RejectRevoked)
      && (answer.Admit? ==>
            && request.grantID in s.grantsByID
            && Challenged(s', s.grantsByID[request.grantID], request, answer.value, reading.mono))
  {
    hide Inv, Evolves, ChargePreauth, LiveAuthority, ExpireRelay, Challenge0, SameElsewhere;
    var now := reading.mono;
    ChargePreauthKeepsInv(s, limits, request.endpoint, request.inputBytes, now);
    var (s1, ok) := ChargePreauth(s, limits, request.endpoint, request.inputBytes, now);
    RefsBelowNext(s, limits);
    if ok && request.endpoint.IsValid() && request.grantID in s1.grantsByID {
      var r := s1.grantsByID[request.grantID];
      GrantsIndexed(s1, limits, request.grantID);
      LiveAuthorityKeepsInv(s1, limits, r, now);
      var (s2, reason) := LiveAuthority(s1, limits, r, now);
      EvolvesTransitive(s, s1, s2, now);
      if reason.None? {
        ExpireKeepsInv(s1, limits, r, now);
        var s3 := ExpireRelay(s1, r, now);
        ExpireKeepsLive(s1, r, now);
        EvolvesTransitive(s, s1, s3, now);
        if request.roomID == s3.heap[r].roomID && request.sessionID == s3.heap[r].sessionID {
          ChallengeKeepsInv(s3, limits, random, r, request, reading);
          EvolvesTransitive(s, s3, Challenge0(s3, limits, random, r, request, reading).0, now);
        }
      }
    }
  }

  // ---------------------------------------------------------------- Authenticate

  /** The handshake kept for repeated requests always belongs to the current binding, so the
      checks that it might not are never true: only its own deadline can end it. */
  lemma RecentMatchesBinding(s: State, limits: Limits, r: Ref, now: int)
    requires Inv(s, limits) && r in s.heap && s.heap[r].recent.Some? && now < s.heap[r].recent.value.deadline
    ensures var g := s.heap[r];
      && g.binding.Some? && g.binding.value.generation == g.recent.value.generation
      && g.binding.value.id == g.recent.value.result.bindingID
      && now < g.binding.value.deadline
  {
    GrantHolds(s, limits, r);
  }

  lemma RecallVerdict(hmac: Hmac, g: Grant, request: AuthenticateRequest, now: int)
    requires g.recent.Some? && g.secret.Some?
    ensures RecallRefusal(hmac, g, request, now) !in {Some(RejectRevoked), Some(RejectRateLimited)}
    ensures RecallRefusal(hmac, g, request, now).None? ==> now < g.recent.value.deadline
  {
  }

  /** A kept handshake is reported as expired only when it has. */
  lemma RecallExpires(hmac: Hmac, g: Grant, room: Room, request: AuthenticateRequest, now: int)
    requires GrantOK(g, room) && g.recent.Some? && g.secret.Some?
    ensures RecallRefusal(hmac, g, request, now) == Some(RejectExpired) <==> now >= g.recent.value.deadline
  {
    hide AuthTagOf;
  }

  lemma ForgetHandshakeKeepsInv(s: State, limits: Limits, r: Ref, now: int)
    requires Inv(s, limits) && r in s.heap
    ensures var g := s.heap[r];
      var g' := if g.binding.Some? && now >= g.binding.value.deadline then ClearedBinding(g) else ClearedRecent(g);
      Inv(Put(s, r, g'), limits) && (!RecentAlive(g, now) ==> Evolves(s, Put(s, r, g'), now))
  {
    hide Inv, Evolves, GrantOK, Forgets, GrantEvolves, SameRooms, Put, ClearedBinding, ClearedRecent;
    var g := s.heap[r];
    GrantHolds(s, limits, r);
    ClearedGrantsOK(g, s.rooms[g.roomID], now, Expired);
    ForgetKeepsInv(s, limits, r, if g.binding.Some? && now >= g.binding.value.deadline then ClearedBinding(g)
      else ClearedRecent(g), now);
  }

  lemma RecallKeepsInv(s: State, limits: Limits, hmac: Hmac, r: Ref, request: AuthenticateRequest, now: int)
    requires Inv(s, limits) && r in s.heap && s.heap[r].recent.Some? && s.heap[r].secret.Some?
    ensures var (s', answer) := Recall(s, hmac, r, request, now);
      && Inv(s', limits) && Evolves(s, s', now) && answer != Reject(RejectRevoked)
      && (answer.Admit? ==> s' == s && now < s.heap[r].recent.value.deadline)
  {
    hide Inv, Evolves, Put, RecallRefusal, ClearedBinding, ClearedRecent;
    EvolvesReflexive(s, now);
    RecallVerdict(hmac, s.heap[r], request, now);
    GrantHolds(s, limits, r);
    RecallExpires(hmac, s.heap[r], s.rooms[s.heap[r].roomID], request, now);
    hide GrantOK;
    ForgetHandshakeKeepsInv(s, limits, r, now);
  }

  /** A completed handshake replaces the binding of `r` under the next generation and an
      unused identifier, and leaves every other grant alone. */
  ghost predicate Rebinds(s: State, s': State, r: Ref, now: int) {
    && r in s.heap && s'.heap.Keys == s.heap.Keys && s'.rooms == s.rooms && s'.nextRef == s.nextRef
    && (forall q | q in s.heap && q != r :: s'.heap[q] == s.heap[q])
    && var g, g' := s.heap[r], s'.heap[r];
       && SameIdentity(g, g') && g'.secret == g.secret && Live(g) && g'.state.Bound? && g'.binding.Some?
       && g'.generation == NextGeneration(g.generation)
       && g'.binding.value.id !in s.bindingsByID
       && g'.binding.value.replay == ReplayWindow.EMPTY
       && now < g'.binding.value.deadline
  }

  lemma CompletedPut(s: State, limits: Limits, hmac: Hmac, random: Random, r: Ref, endpoint: Endpoint,
      reading: ClockReading)
    requires r in s.heap && s.heap[r].pending.Some? && s.heap[r].secret.Some? && s.heap[r].roomID in s.rooms
    requires Complete(s, limits, hmac, random, r, endpoint, reading).1.Admit?
    ensures var (s', answer) := Complete(s, limits, hmac, random, r, endpoint, reading);
      && r in s'.heap && s'.heap[r].binding.Some? && s'.heap[r].recent.Some?
      && var g, g' := s.heap[r], s'.heap[r];
      && var binding, completed := g'.binding.value, g'.recent.value;
      && completed.candidateID == g.pending.value.candidateID && completed.result == answer.value
      && completed.result.bindingID == binding.id
         && completed.generation == binding.generation == NextGeneration(g.generation)
      && completed.deadline == Min(Min(Min(SaturatingAdd(reading.mono, limits.challengeTTL), binding.deadline),
         g.monoDeadline), s.rooms[g.roomID].monoDeadline)
      && answer.value.expiresUnixMS == ProjectWireExpiryUnixMS(reading, binding.deadline)
      && binding.endpoint == endpoint
      && binding.deadline == Min(Min(SaturatingAdd(reading.mono, limits.bindingTTL), g.monoDeadline),
         s.rooms[g.roomID].monoDeadline)
      && binding.replay == ReplayWindow.EMPTY
      && UniqueID(random, s.drawn, s.bindingsByID.Keys, ID_DRAWS).0 == Some(binding.id)
      && s' == Put(s.(drawn := s'.drawn), r, Rebound(g, completed, binding))
      && s'.drawn == UniqueID(random, s.drawn, s.bindingsByID.Keys, ID_DRAWS).1
  {
    hide ProjectWireExpiryUnixMS, Tag, BindingKeyOf;
  }

  lemma ReboundOK(g: Grant, room: Room, completed: Completed, binding: Binding)
    requires GrantOK(g, room) && Live(g)
    requires binding.deadline <= g.monoDeadline && binding.endpoint.IsValid() && binding.generation <= MAX_UINT64
    requires completed.deadline <= binding.deadline && completed.generation == binding.generation
      && completed.result.bindingID == binding.id
    ensures GrantOK(Rebound(g, completed, binding), room)
  {
  }

  lemma CompleteKeepsInv(s: State, limits: Limits, hmac: Hmac, random: Random, r: Ref, endpoint: Endpoint,
      reading: ClockReading)
    requires Inv(s, limits) && r in s.heap && s.heap[r].pending.Some? && s.heap[r].secret.Some?
      && s.heap[r].roomID in s.rooms
    requires endpoint.IsValid() && limits.Valid()
    requires reading.mono < s.heap[r].monoDeadline <= s.rooms[s.heap[r].roomID].monoDeadline
    ensures var (s', answer) := Complete(s, limits, hmac, random, r, endpoint, reading);
      && Inv(s', limits)
      && (answer.Admit? ==> Rebinds(s, s', r, reading.mono))
      && (answer.Reject? ==> Evolves(s, s', reading.mono) && answer.reason != RejectRevoked)
  {
    hide Inv, Evolves, GrantOK, GrantEvolves, Put, ProjectWireExpiryUnixMS, Tag, BindingKeyOf;
    UniqueIDIsFree(random, s.drawn, s.bindingsByID.Keys, ID_DRAWS);
    var (id, next) := UniqueID(random, s.drawn, s.bindingsByID.Keys, ID_DRAWS);
    DrawnIrrelevant(s, limits, next, reading.mono);
    if id.Some? {
      var g, s1 := s.heap[r], s.(drawn := next);
      CompletedPut(s, limits, hmac, random, r, endpoint, reading);
      GrantFacts(s, limits, r);
      var g' := Complete(s, limits, hmac, random, r, endpoint, reading).0.heap[r];
      GrantHolds(s, limits, r);
      LiveIffSecret(s, limits, r);
      ReboundOK(g, s.rooms[g.roomID], g'.recent.value, g'.binding.value);
      ReplaceKeepsInv(s1, limits, r, Rebound(g, g'.recent.value, g'.binding.value));
      PutFrame(s1, r, Rebound(g, g'.recent.value, g'.binding.value));
    }
  }

  lemma LiveIffSecret(s: State, limits: Limits, r: Ref)
    requires Inv(s, limits) && r in s.heap
    ensures Live(s.heap[r]) <==> s.heap[r].secret.Some?
  {
    GrantHolds(s, limits, r);
  }

  lemma ForgetPendingKeepsInv(s: State, limits: Limits, r: Ref, now: int)
    requires Inv(s, limits) && r in s.heap
    ensures Inv(Put(s, r, ClearedPending(s.heap[r])), limits)
    ensures !PendingAlive(s.heap[r], now) ==> Evolves(s, Put(s, r, ClearedPending(s.heap[r])), now)
  {
    hide Inv, Evolves, GrantOK, Forgets, GrantEvolves, SameRooms, Put, ClearedPending;
    GrantHolds(s, limits, r);
    ClearedGrantsOK(s.heap[r], s.rooms[s.heap[r].roomID], now, Expired);
    ForgetKeepsInv(s, limits, r, ClearedPending(s.heap[r]), now);
  }

  lemma PendingVerdict(hmac: Hmac, g: Grant, request: AuthenticateRequest, now: int)
    requires g.secret.Some?
    ensures PendingRefusal(hmac, g, request, now) !in {Some(RejectRevoked), Some(RejectRateLimited)}
    ensures PendingRefusal(hmac, g, request, now).None? ==>
      g.pending.Some? && g.pending.value.candidateID == request.candidateID && now < g.pending.value.deadline
    ensures PendingRefusal(hmac, g, request, now) == Some(RejectExpired) ==> !PendingAlive(g, now)
  {
  }

  lemma CompletePendingKeepsInv(s: State, limits: Limits, hmac: Hmac, random: Random, r: Ref,
      request: AuthenticateRequest, reading: ClockReading)
    requires Inv(s, limits) && r in s.heap && s.heap[r].secret.Some? && s.heap[r].roomID in s.rooms
    requires request.endpoint.IsValid() && limits.Valid()
    requires reading.mono < s.heap[r].monoDeadline <= s.rooms[s.heap[r].roomID].monoDeadline
    ensures var (s', answer) := CompletePending(s, limits, hmac, random, r, request, reading);
      && Inv(s', limits)
      && (answer.Admit? ==>
            && Rebinds(s, s', r, reading.mono)
            && s.heap[r].pending.Some? && s.heap[r].pending.value.candidateID == request.candidateID
            && reading.mono < s.heap[r].pending.value.deadline)
      && (answer.Reject? ==> Evolves(s, s', reading.mono) && answer.reason != RejectRevoked)
  {
    hide Inv, Evolves, Put, PendingRefusal, Complete, Rebinds, ClearedPending;
    EvolvesReflexive(s, reading.mono);
    PendingVerdict(hmac, s.heap[r], request, reading.mono);
    ForgetPendingKeepsInv(s, limits, r, reading.mono);
    if PendingRefusal(hmac, s.heap[r], request, reading.mono).None? {
      CompleteKeepsInv(s, limits, hmac, random, r, request.endpoint, reading);
    }
  }

  lemma CandidateIndexed(s: State, limits: Limits, c: Bytes)
    requires Inv(s, limits) && c in s.candidatesByID
    ensures s.candidatesByID[c] in s.heap && c in CandidateIDs(s.heap[s.candidatesByID[c]])
      && Live(s.heap[s.candidatesByID[c]])
  {
    GrantHolds(s, limits, s.candidatesByID[c]);
  }

  /** What a successful authentication of candidate `c` means: its grant had authority and the
      handshake was alive, and either its binding was replaced or an earlier completion of the
      same handshake is reported again. */
  ghost predicate AuthenticatesAt(s: State, s': State, request: AuthenticateRequest, now: int) {
    && request.candidateID in s.candidatesByID && s.candidatesByID[request.candidateID] in s.heap
    && var r := s.candidatesByID[request.candidateID];
    && var g := s.heap[r];
    && Live(g) && g.roomID == request.roomID && g.sessionID == request.sessionID
    && g.roomID in s.rooms && s.rooms[g.roomID].state.Open?
    && now < g.monoDeadline <= s.rooms[g.roomID].monoDeadline
    && if g.recent.Some? && g.recent.value.candidateID == request.candidateID
       then now < g.recent.value.deadline && SameButGate(s, s')
       else
         && g.pending.Some? && g.pending.value.candidateID == request.candidateID && now < g.pending.value.deadline
         && Rebinds(s, s', r, now)
  }

  lemma AuthenticateKeepsInv(s: State, limits: Limits, hmac: Hmac, random: Random, request: AuthenticateRequest,
      reading: ClockReading)
    requires Inv(s, limits) && limits.Valid()
    ensures var (s', answer) := Authenticate(s, limits, hmac, random, request, reading);
      && Inv(s', limits)
      && (answer.Admit? ==> AuthenticatesAt(s, s', request, reading.mono))
      && (answer.Reject? ==> Evolves(s, s', reading.mono) && answer.reason != RejectRevoked)
  {
    hide Inv, Evolves, ChargePreauth, LiveAuthority, Recall, CompletePending, SameElsewhere, Rebinds, CandidateIDs;
    var now := reading.mono;
    ChargePreauthKeepsInv(s, limits, request.endpoint, request.inputBytes, now);
    var (s1, ok) := ChargePreauth(s, limits, request.endpoint, request.inputBytes, now);
    RefsBelowNext(s, limits);
    if ok && request.endpoint.IsValid() && request.candidateID in s1.candidatesByID {
      var r := s1.candidatesByID[request.candidateID];
      CandidateIndexed(s1, limits, request.candidateID);
      LiveAuthorityKeepsInv(s1, limits, r, now);
      GrantFacts(s1, limits, r);
      var (s2, reason) := LiveAuthority(s1, limits, r, now);
      EvolvesTransitive(s, s1, s2, now);
      if reason.None? {
        var g := s1.heap[r];
        if g.recent.Some? && g.recent.value.candidateID == request.candidateID {
          RecallKeepsInv(s1, limits, hmac, r, request, now);
          EvolvesTransitive(s, s1, Recall(s1, hmac, r, request, now).0, now);
        } else {
          CompletePendingKeepsInv(s1, limits, hmac, random, r, request, reading);
          var (s3, answer) := CompletePending(s1, limits, hmac, random, r, request, reading);
          if answer.Reject? {
            EvolvesTransitive(s, s1, s3, now);
          } else {
            RebindsFrame(s, s1, s3, r, now);
          }
        }
      }
    }
  }

  lemma RebindsFrame(s: State, s1: State, s2: State, r: Ref, now: int)
    requires SameButGate(s, s1) && Rebinds(s1, s2, r, now)
    ensures Rebinds(s, s2, r, now)
  {
  }

  // ---------------------------------------------------------------- ingress

  lemma BindingIndexed(s: State, limits: Limits, id: Bytes)
    requires Inv(s, limits) && id in s.bindingsByID
    ensures var r := s.bindingsByID[id]; r in s.heap && s.heap[r].binding.Some? && s.heap[r].binding.value.id == id
    ensures var g := s.heap[s.bindingsByID[id]];
      g.state.Bound? && g.roomID in s.rooms && s.rooms[g.roomID].state.Open?
        && g.binding.value.deadline <= g.monoDeadline
  {
    var r := s.bindingsByID[id];
    assert id in BindingIDs(s.heap[r]);
    GrantHolds(s, limits, r);
  }

  /** What an accepted ClientData or Ping proves about the store it met. */
  ghost predicate FromCurrentBinding(s: State, hmac: Hmac, m: Message, endpoint: Endpoint, authTag: Bytes, now: int)
    requires m.ClientDataMessage? || m.PingMessage?
  {
    && m.bindingID in s.bindingsByID && s.bindingsByID[m.bindingID] in s.heap
    && var g := s.heap[s.bindingsByID[m.bindingID]];
    && g.binding.Some? && g.binding.value.id == m.bindingID && g.state.Bound?
    && m.room == g.roomID && m.session == g.sessionID && m.sequence > 0
    && g.roomID in s.rooms && s.rooms[g.roomID].state.Open?
    && now < g.binding.value.deadline <= g.monoDeadline <= s.rooms[g.roomID].monoDeadline
    && endpoint.IsValid() && endpoint == g.binding.value.endpoint
    && authTag == Tag(hmac, g.binding.value.key, m)
  }

  /** What is to be cleaned up has expired. */
  ghost predicate MayCleanUp(s: State, bindingID: Bytes, cleanup: Cleanup, now: int) {
    cleanup.Nothing? ||
    (&& bindingID in s.bindingsByID && s.bindingsByID[bindingID] in s.heap
     && var g := s.heap[s.bindingsByID[bindingID]];
     match cleanup
     case TheRoom => g.roomID in s.rooms && now >= s.rooms[g.roomID].monoDeadline
     case TheGrant => now >= g.monoDeadline
     case _ => !Unexpired(g, now))
  }

  /** The inspection of a datagram lets through exactly the packets of a current binding, and
      never finds a revoked grant. */
  lemma InspectMeans(s: State, limits: Limits, hmac: Hmac, m: Message, endpoint: Endpoint, authTag: Bytes,
      inputBytes: int, now: int)
    requires Inv(s, limits) && (m.ClientDataMessage? || m.PingMessage?)
    ensures forall c | c in s.bindingsByID :: s.bindingsByID[c] in s.heap
    ensures var refusal := Inspect(s, hmac, m, endpoint, authTag, inputBytes, now);
      && (refusal.None? <==> FromCurrentBinding(s, hmac, m, endpoint, authTag, now) && inputBytes >= 0)
      && (refusal.None? ==> m.bindingID in s.bindingsByID)
      && (refusal.Some? ==> refusal.value.reason !in {RejectRevoked, RejectRateLimited, RejectFatalRandom})
      && (refusal.Some? ==> MayCleanUp(s, m.bindingID, refusal.value.cleanup, now))
  {
    hide Inv, Tag;
    BindingsResident(s, limits);
    if m.bindingID in s.bindingsByID {
      BindingIndexed(s, limits, m.bindingID);
      GrantFacts(s, limits, s.bindingsByID[m.bindingID]);
    }
  }

  lemma CleanUpKeepsInv(s: State, limits: Limits, bindingID: Bytes, cleanup: Cleanup, now: int)
    requires Inv(s, limits)
    requires MayCleanUp(s, bindingID, cleanup, now)
    ensures Inv(CleanUp(s, limits, bindingID, cleanup, now), limits)
      && Evolves(s, CleanUp(s, limits, bindingID, cleanup, now), now)
  {
    hide Inv, Evolves, TombstoneRoom, TerminateGrant, Put, ClearedBinding, SameRooms, SameIdentity, GrantOK, Forgets,
         GrantEvolves;
    match cleanup
    case Nothing =>
      EvolvesReflexive(s, now);
    case TheRoom =>
      var id := s.heap[s.bindingsByID[bindingID]].roomID;
      DeadlinesNest(s, limits, id, now);
      TombstoneKeepsInv(s, limits, id, now, Expired);
    case TheGrant =>
      TerminateKeepsInv(s, limits, s.bindingsByID[bindingID], Expired, now);
    case TheBinding =>
      var r := s.bindingsByID[bindingID];
      GrantHolds(s, limits, r);
      ClearedGrantsOK(s.heap[r], s.rooms[s.heap[r].roomID], now, Expired);
      ForgetKeepsInv(s, limits, r, ClearedBinding(s.heap[r]), now);
  }

  /** An admitted packet consumes its sequence in the window of its binding. */
  ghost predicate ConsumesSequence(s: State, s': State, r: Ref, sequence: nat)
  {
    && r in s.heap && s.heap[r].binding.Some? && r in s'.heap && s'.heap[r].binding.Some?
    && s'.heap[r].binding.value.replay == ReplayWindow.Accept(s.heap[r].binding.value.replay, sequence).0
    && s'.heap == s.heap[r := WithReplay(s.heap[r], s'.heap[r].binding.value.replay)]
    && s'.rooms == s.rooms
  }

  /** `g'` is the gate `g` after some limiters were dropped. */
  ghost predicate Drops(g: Gate, g': Gate) {
    && g'.sources == g.sources
    && forall n | n in g'.buckets :: n in g.buckets && g'.buckets[n] == g.buckets[n]
  }

  /** Exactly these charges were taken at `now`. */
  ghost predicate ChargedExactly(g: Gate, g': Gate, charges: seq<Charge<LimiterName>>, now: int) {
    forall i | 0 <= i < |charges| :: var c := charges[i];
      && c.limiter in g.buckets && c.limiter in g'.buckets && Affords(g.buckets[c.limiter], c.cost, now)
      && g'.buckets[c.limiter] == g.buckets[c.limiter].(
           tokens := TokensAt(g.buckets[c.limiter], now) - c.cost * SCALE, last := now)
  }

  /** None of these charges was taken, and one of them was not affordable. */
  ghost predicate ChargedNothing(g: Gate, g': Gate, charges: seq<Charge<LimiterName>>, now: int) {
    && (forall i | 0 <= i < |charges| :: var n := charges[i].limiter;
       n in g.buckets && n in g'.buckets && g'.buckets[n] == g.buckets[n])
    && (exists i :: 0 <= i < |charges| && !Affords(g.buckets[charges[i].limiter], charges[i].cost, now))
  }

  /** No other limiter was charged; some may have gone with their owner. */
  ghost predicate NothingElse(g: Gate, g': Gate, charges: seq<Charge<LimiterName>>) {
    forall n | n in g'.buckets && !Named(charges, n) :: n in g.buckets && g'.buckets[n] == g.buckets[n]
  }

  /** The charges were taken together, or refused together, and nothing else was charged. */
  ghost predicate Attempted(g: Gate, g': Gate, charges: seq<Charge<LimiterName>>, taken: bool, now: int) {
    && g'.sources == g.sources && NothingElse(g, g', charges)
    && if taken then ChargedExactly(g, g', charges, now) else ChargedNothing(g, g', charges, now)
  }

  /** A packet on grant `r` attempted the six ingress charges, and no others. */
  ghost predicate AttemptsIngress(s: State, s': State, r: Ref, bytes: int, taken: bool, now: int) {
    r in s.heap && bytes >= 0 && Attempted(s.gate, s'.gate, IngressCharges(r, s.heap[r].roomID, bytes), taken, now)
  }

  /** A datagram paid in the pre-authentication class, or was refused there, and in no other;
      limiters may have gone with their owner after it had paid. */
  ghost predicate AttemptsPreauth(s: State, s': State, limits: Limits, endpoint: Endpoint, bytes: int, taken: bool,
      now: int)
    requires Inv(s, limits)
  {
    var (s1, ok) := ChargePreauth(s, limits, endpoint, bytes, now);
    Drops(s1.gate, s'.gate) && ok == taken && (!ok ==> s' == s1)
  }

  lemma ChargeStoreExactly(s: State, charges: seq<Charge<LimiterName>>, now: int)
    requires Known(s.gate.buckets, charges) && Distinct(charges)
    requires forall n | n in s.gate.buckets :: s.gate.buckets[n].Valid()
    ensures var (s', ok) := ChargeStore(s, charges, now);
      Attempted(s.gate, s'.gate, charges, ok, now)
  {
    AtomicCharging(s.gate.buckets, charges, now);
  }

  lemma BucketsValid(s: State, limits: Limits)
    requires Inv(s, limits)
    ensures forall n | n in s.gate.buckets :: s.gate.buckets[n].Valid()
  {
    hide RoomsOK, GrantsOK, IndexesOK, CountersOK;
    forall n | n in s.gate.buckets ensures s.gate.buckets[n].Valid() {
      assert Configured(s.gate.buckets[n], limits.BudgetOf(n));
    }
  }

  lemma AdmitBoundKeepsInv(s: State, limits: Limits, r: Ref, sequence: nat, bytes: nat, now: int)
    requires Inv(s, limits) && r in s.heap && s.heap[r].binding.Some?
    requires Known(Put(s, r, WithReplay(s.heap[r],
                   ReplayWindow.Accept(s.heap[r].binding.value.replay, sequence).0)).gate.buckets,
                   IngressCharges(r, s.heap[r].roomID, bytes))
    ensures var (s', answer) := AdmitBound(s, limits, r, sequence, bytes, now);
      && Inv(s', limits) && Evolves(s, s', now) && SamePreauth(s.gate, s'.gate) && ConsumesSequence(s, s', r, sequence)
      && (answer.Reject? ==> answer.reason == RejectRateLimited || answer.reason == RejectReplay)
      && AttemptsIngress(s, s', r, bytes, answer != Reject(RejectRateLimited), now)
      && (answer.Admit? ==> answer.value == r && ReplayWindow.Accept(s.heap[r].binding.value.replay, sequence).1)
  {
    hide Inv, Evolves, Put, ChargeStore, SameRooms, SamePreauth, Attempted, IngressCharges;
    var window := ReplayWindow.Accept(s.heap[r].binding.value.replay, sequence).0;
    var g := WithReplay(s.heap[r], window);
    var s1 := Put(s, r, g);
    ReplayWindow.AcceptNeverForgets(s.heap[r].binding.value.replay, sequence);
    ReplayKeepsInv(s, limits, r, window, now);
    PutFrame(s, r, g);
    BoundIsLive(s, limits, r);
    RefsBelowNext(s, limits);
    IngressKnown(s1, limits, r, bytes);
    ChargeStoreKeepsInv(s1, limits, IngressCharges(r, s.heap[r].roomID, bytes), now);
    BucketsValid(s1, limits);
    ChargeStoreExactly(s1, IngressCharges(r, s.heap[r].roomID, bytes), now);
    EvolvesTransitive(s, s1, ChargeStore(s1, IngressCharges(r, s.heap[r].roomID, bytes), now).0, now);
  }

  /** Authenticated ingress: a datagram of a current binding attempts the six ingress charges
      and no other, any other datagram pays in the pre-authentication class and in no other. */
  lemma IngressKeepsInv(s: State, limits: Limits, hmac: Hmac, m: Message, endpoint: Endpoint, authTag: Bytes,
      inputBytes: int, now: int)
    requires Inv(s, limits) && (m.ClientDataMessage? || m.PingMessage?)
    ensures var (s', answer) := AdmitAuthenticated(s, limits, hmac, m, endpoint, authTag, inputBytes, now);
      && Inv(s', limits) && Evolves(s, s', now) && answer != Reject(RejectRevoked)
         && answer != Reject(RejectFatalRandom)
      && (FromCurrentBinding(s, hmac, m, endpoint, authTag, now) && inputBytes >= 0 ==>
            && SamePreauth(s.gate, s'.gate)
            && ConsumesSequence(s, s', s.bindingsByID[m.bindingID], m.sequence)
            && AttemptsIngress(s, s', s.bindingsByID[m.bindingID], inputBytes, answer != Reject(RejectRateLimited), now)
            && (answer.Reject? ==> answer.reason == RejectRateLimited || answer.reason == RejectReplay))
      && (!FromCurrentBinding(s, hmac, m, endpoint, authTag, now) || inputBytes < 0 ==>
            && answer.Reject?
            && AttemptsPreauth(s, s', limits, endpoint, inputBytes, answer != Reject(RejectRateLimited), now))
      && (answer.Admit? ==>
            && FromCurrentBinding(s, hmac, m, endpoint, authTag, now)
            && answer.value == s.bindingsByID[m.bindingID] && answer.value in s.heap
               && s.heap[answer.value].binding.Some?
            && ReplayWindow.Accept(s.heap[answer.value].binding.value.replay, m.sequence).1)
  {
    hide Inv, Evolves, Inspect, ChargePreauth, CleanUp, AdmitBound, FromCurrentBinding, SamePreauth, ConsumesSequence,
         Attempted, Drops, SameElsewhere;
    InspectMeans(s, limits, hmac, m, endpoint, authTag, inputBytes, now);
    match Inspect(s, hmac, m, endpoint, authTag, inputBytes, now)
    case Some(refusal) =>
      ChargePreauthKeepsInv(s, limits, endpoint, inputBytes, now);
      var s1 := ChargePreauth(s, limits, endpoint, inputBytes, now).0;
      RefsBelowNext(s, limits);
      DropsReflexive(s1.gate);
      if !refusal.cleanup.Nothing? { BindingIndexed(s, limits, m.bindingID); }
      CleanUpKeepsInv(s1, limits, m.bindingID, refusal.cleanup, now);
      CleanUpFrame(s1, limits, m.bindingID, refusal.cleanup, now);
      EvolvesTransitive(s, s1, CleanUp(s1, limits, m.bindingID, refusal.cleanup, now), now);
    case None =>
      var r := s.bindingsByID[m.bindingID];
      BindingIndexed(s, limits, m.bindingID);
      BoundLimitersKnown(s, limits, r, m.sequence, inputBytes);
      AdmitBoundKeepsInv(s, limits, r, m.sequence, inputBytes, now);
  }

  lemma {:induction false} TerminateAllDrops(s: State, refs: seq<Ref>, terminal: GrantState)
    requires forall i | 0 <= i < |refs| :: refs[i] in s.heap
    ensures Drops(s.gate, TerminateAll(s, refs, terminal).gate)
    decreases |refs|
  {
    if refs != [] {
      var s1 := TerminateGrant(s, refs[0], terminal);
      assert Drops(s.gate, s1.gate) && s1.heap.Keys == s.heap.Keys;
      hide TerminateGrant;
      TerminateAllDrops(s1, refs[1..], terminal);
    }
  }

  lemma DropsReflexive(g: Gate)
    ensures Drops(g, g)
  {
  }

  lemma PutDrops(s: State, r: Ref, g: Grant)
    requires r in s.heap
    ensures Drops(s.gate, Put(s, r, g).gate)
  {
    hide Reindex;
  }

  lemma TombstoneDrops(s: State, limits: Limits, id: string, now: int, terminal: GrantState)
    requires Inv(s, limits) && id in s.rooms && (terminal.Expired? || terminal.Revoked?)
    ensures Drops(s.gate, TombstoneRoom(s, limits, id, now, terminal).gate)
  {
    hide Inv, TerminateAll;
    GrantsResident(s, limits, id);
    TerminateAllDrops(s, s.rooms[id].grants, terminal);
  }

  lemma AuthorityDrops(s: State, limits: Limits, r: Ref, now: int)
    requires Inv(s, limits) && r in s.heap
    ensures Drops(s.gate, LiveAuthority(s, limits, r, now).0.gate)
      && LiveAuthority(s, limits, r, now).1 != Some(RejectRateLimited)
  {
    hide Inv, TombstoneRoom;
    GrantFacts(s, limits, r);
    TombstoneDrops(s, limits, s.heap[r].roomID, now, Expired);
  }

  lemma CleanUpFrame(s: State, limits: Limits, bindingID: Bytes, cleanup: Cleanup, now: int)
    requires Inv(s, limits) && (!cleanup.Nothing? ==>
      bindingID in s.bindingsByID && s.bindingsByID[bindingID] in s.heap)
    ensures Drops(s.gate, CleanUp(s, limits, bindingID, cleanup, now).gate)
  {
    hide Inv, TombstoneRoom, ClearedBinding, Terminated, Put, Drops;
    match cleanup
    case Nothing => DropsReflexive(s.gate);
    case TheRoom =>
      GrantFacts(s, limits, s.bindingsByID[bindingID]);
      TombstoneDrops(s, limits, s.heap[s.bindingsByID[bindingID]].roomID, now, Expired);
    case TheGrant => PutDrops(s, s.bindingsByID[bindingID], Terminated(s.heap[s.bindingsByID[bindingID]], Expired));
    case TheBinding => PutDrops(s, s.bindingsByID[bindingID], ClearedBinding(s.heap[s.bindingsByID[bindingID]]));
  }

  // ---------------------------------------------------------------- fan-out

  lemma ChargeFanoutKeepsInv(s: State, limits: Limits, room: string, plan: RelayPlan, outputBytes: nat, now: int)
    requires Inv(s, limits) && room in s.rooms && !s.rooms[room].state.Tombstone?
    ensures var (s', answer) := ChargeFanout(s, limits, room, plan, outputBytes, now);
      && Inv(s', limits) && Evolves(s, s', now) && SameButGate(s, s') && SamePreauth(s.gate, s'.gate)
      && (answer.Admit? ==> answer.value == plan)
      && (answer.Reject? ==> answer.reason == RejectOversized || answer.reason == RejectFanoutLimited)
  {
    hide Inv, Evolves, ChargeStore, SamePreauth;
    EvolvesReflexive(s, now);
    SamePreauthReflexive(s.gate);
    var n := |plan.recipients|;
    if n > 0 && outputBytes <= MAX_INT64 / n {
      FanoutKnown(s, limits, room, n, PlannedBytes(outputBytes, n));
      ChargeStoreKeepsInv(s, limits, FanoutCharges(room, n, PlannedBytes(outputBytes, n)), now);
    }
  }

  lemma SamePreauthReflexive(g: Gate)
    ensures SamePreauth(g, g)
  {
  }

  /** The endpoint that a packet of `sender` must reach at grant `q`, if any. */
  ghost function Hearer(g: Grant, q: Ref, sender: Ref, now: int): seq<Endpoint> {
    if q != sender && Live(g) && now < g.monoDeadline && Unexpired(g, now) then [g.binding.value.endpoint] else []
  }

  /** The endpoints a packet of `sender` must reach, read off the state it met: in room order,
      those of the other grants that are live and have an unexpired binding. */
  ghost function Audience(s: State, refs: seq<Ref>, sender: Ref, now: int): seq<Endpoint>
    requires forall i | 0 <= i < |refs| :: refs[i] in s.heap
  {
    if refs == [] then [] else Hearer(s.heap[refs[0]], refs[0], sender, now) + Audience(s, refs[1..], sender, now)
  }

  lemma {:induction false} AudienceDepends(s: State, s': State, refs: seq<Ref>, sender: Ref, now: int)
    requires forall i | 0 <= i < |refs| ::
      refs[i] in s.heap && refs[i] in s'.heap && s'.heap[refs[i]] == s.heap[refs[i]]
    ensures Audience(s', refs, sender, now) == Audience(s, refs, sender, now)
    decreases |refs|
  {
    if refs != [] { AudienceDepends(s, s', refs[1..], sender, now); }
  }

  lemma ExpiredRelayBinding(g: Grant, now: int)
    ensures ExpiredRelay(g, now).binding.Some? <==> Unexpired(g, now)
    ensures Unexpired(g, now) ==> ExpiredRelay(g, now).binding == g.binding
  {
  }

  /** What visiting grant `q` leaves. */
  ghost function Visited(s: State, q: Ref, sender: Ref, now: int): State
    requires q in s.heap
  {
    if q == sender || !Live(s.heap[q]) then s
    else Put(s, q, if now >= s.heap[q].monoDeadline then Terminated(s.heap[q], Expired)
      else ExpiredRelay(s.heap[q], now))
  }

  lemma VisitFrame(s: State, q: Ref, sender: Ref, now: int)
    requires q in s.heap
    ensures var s' := Visited(s, q, sender, now);
      && s'.rooms == s.rooms && s'.heap.Keys == s.heap.Keys && Drops(s.gate, s'.gate)
      && forall r | r in s.heap && r != q :: s'.heap[r] == s.heap[r]
  {
    hide Reindex, LiveIDs, CandidateIDs, BindingIDs, Terminated, ExpiredRelay;
  }

  lemma VisitFirst(s: State, refs: seq<Ref>, sender: Ref, now: int)
    requires refs != [] && forall i | 0 <= i < |refs| :: refs[i] in s.heap
    ensures var s1 := Visited(s, refs[0], sender, now);
      && s1.heap.Keys == s.heap.Keys
      && Recipients(s, refs, sender, now) ==
           (Recipients(s1, refs[1..], sender, now).0,
             Hearer(s.heap[refs[0]], refs[0], sender, now) + Recipients(s1, refs[1..], sender, now).1)
  {
    ExpiredRelayBinding(s.heap[refs[0]], now);
    hide ExpiredRelay, Terminated, Reindex, LiveIDs, CandidateIDs, BindingIDs, DropSession;
    var s1 := Visited(s, refs[0], sender, now);
    assert [] + Recipients(s1, refs[1..], sender, now).1 == Recipients(s1, refs[1..], sender, now).1;
    assert s1.heap.Keys == s.heap.Keys;
  }

  lemma {:induction false} RecipientsAreAudience(s: State, refs: seq<Ref>, sender: Ref, now: int)
    requires forall i | 0 <= i < |refs| :: refs[i] in s.heap
    requires forall i, j | 0 <= i < j < |refs| :: refs[i] != refs[j]
    ensures var (s', recipients) := Recipients(s, refs, sender, now);
      && recipients == Audience(s, refs, sender, now)
      && s'.rooms == s.rooms && s'.heap.Keys == s.heap.Keys && Drops(s.gate, s'.gate)
      && (forall q | q in s.heap && q !in refs :: s'.heap[q] == s.heap[q])
    decreases |refs|
  {
    if refs != [] {
      var rest := refs[1..];
      assert forall i | 0 <= i < |rest| :: rest[i] == refs[i + 1];
      var s1 := Visited(s, refs[0], sender, now);
      VisitFrame(s, refs[0], sender, now);
      VisitFirst(s, refs, sender, now);
      hide Visited, Recipients, Hearer, Drops;
      RecipientsAreAudience(s1, rest, sender, now);
      AudienceDepends(s, s1, rest, sender, now);
      DropsTransitive(s.gate, s1.gate, Recipients(s1, rest, sender, now).0.gate);
    }
  }

  lemma DropsTransitive(g: Gate, g1: Gate, g2: Gate)
    requires Drops(g, g1) && Drops(g1, g2)
    ensures Drops(g, g2)
  {
  }

  lemma ChargeFanoutExactly(s: State, limits: Limits, g: Gate, room: string, plan: RelayPlan, outputBytes: nat,
      now: int)
    requires Inv(s, limits) && room in s.rooms && !s.rooms[room].state.Tombstone?
    requires outputBytes <= MAX_DATAGRAM_BYTES && Drops(g, s.gate) && |plan.recipients| <= 16
    ensures var (s', answer) := ChargeFanout(s, limits, room, plan, outputBytes, now);
      var charges := FanoutCharges(room, |plan.recipients|, PlannedBytes(outputBytes, |plan.recipients|));
      && (plan.recipients == [] ==> s' == s && answer == Admit(plan))
      && (plan.recipients != [] ==> Attempted(g, s'.gate, charges, answer.Admit?, now))
      && (answer.Reject? ==> answer.reason == RejectFanoutLimited && plan.recipients != [])
  {
    hide Inv, ChargeStore;
    var n := |plan.recipients|;
    BucketsValid(s, limits);
    if n > 0 {
      QuotientShrinks(n);
      FanoutKnown(s, limits, room, n, PlannedBytes(outputBytes, n));
      ChargeStoreExactly(s, FanoutCharges(room, n, PlannedBytes(outputBytes, n)), now);
    }
  }

  lemma QuotientShrinks(n: nat)
    requires 0 < n <= 16
    ensures MAX_INT64 / n >= MAX_INT64 / 16
  {
    assert n * (MAX_INT64 / 16) <= 16 * (MAX_INT64 / 16) <= MAX_INT64;
  }

  lemma {:induction false} AudienceSize(s: State, refs: seq<Ref>, sender: Ref, now: int)
    requires forall i | 0 <= i < |refs| :: refs[i] in s.heap
    ensures |Audience(s, refs, sender, now)| <= |refs| - (if sender in refs then 1 else 0)
    decreases |refs|
  {
    if refs != [] {
      assert sender in refs ==> sender == refs[0] || sender in refs[1..];
      AudienceSize(s, refs[1..], sender, now);
    }
  }

  /** What fan-out of a packet of grant `r` did: the plan reaches exactly the audience of `r`,
      and the four fan-out limiters are charged exactly its size, or nothing is charged. */
  ghost predicate FanoutOutcome(s: State, s': State, r: Ref, sequence: nat, outputBytes: nat, answer: Answer<RelayPlan>,
      now: int) {
    && r in s.heap && s.heap[r].roomID in s.rooms
    && var room := s.rooms[s.heap[r].roomID];
    && (forall i | 0 <= i < |room.grants| :: room.grants[i] in s.heap)
    && var audience := Audience(s, room.grants, r, now);
    && var charges := FanoutCharges(s.heap[r].roomID, |audience|, PlannedBytes(outputBytes, |audience|));
    && |audience| < room.capacity
    && (answer.Admit? ==> answer.value == RelayPlan(s.heap[r].roomID, s.heap[r].sessionID, s.heap[r].participantID,
       sequence, audience))
    && (if audience == [] then Drops(s.gate, s'.gate) else Attempted(s.gate, s'.gate, charges, answer.Admit?, now))
    && (answer.Reject? ==> answer.reason == RejectFanoutLimited && audience != [])
  }

  lemma FanoutFromKeepsInv(s: State, limits: Limits, r: Ref, sequence: nat, outputBytes: nat, now: int)
    requires Inv(s, limits) && limits.Valid() && r in s.heap && Live(s.heap[r]) && outputBytes <= MAX_DATAGRAM_BYTES
    ensures var (s', answer) := FanoutFrom(s, limits, r, sequence, outputBytes, now);
      Inv(s', limits) && Evolves(s, s', now) && FanoutOutcome(s, s', r, sequence, outputBytes, answer, now)
        && answer != Reject(RejectRevoked)
  {
    hide Inv, Evolves, Recipients, Audience, ChargeFanout, Attempted, SameRooms, Drops, SamePreauth, FanoutCharges;
    GrantFacts(s, limits, r);
    var g := s.heap[r];
    var grants := s.rooms[g.roomID].grants;
    GrantsResident(s, limits, g.roomID);
    RoomShape(s, limits, g.roomID);
    RecipientsAreAudience(s, grants, r, now);
    RecipientsKeepInv(s, limits, grants, r, now);
    AudienceSize(s, grants, r, now);
    RefsBelowNext(s, limits);
    var (s2, recipients) := Recipients(s, grants, r, now);
    var plan := RelayPlan(g.roomID, g.sessionID, g.participantID, sequence, recipients);
    ChargeFanoutExactly(s2, limits, s.gate, g.roomID, plan, outputBytes, now);
    ChargeFanoutKeepsInv(s2, limits, g.roomID, plan, outputBytes, now);
    EvolvesTransitive(s, s2, ChargeFanout(s2, limits, g.roomID, plan, outputBytes, now).0, now);
  }

  lemma LiveAuthorityExpires(s: State, limits: Limits, r: Ref, now: int)
    requires Inv(s, limits) && r in s.heap && Live(s.heap[r])
    ensures LiveAuthority(s, limits, r, now).1 in {None, Some(RejectExpired)}
    ensures LiveAuthority(s, limits, r, now).1.None? <==> now < s.heap[r].monoDeadline
  {
    hide Inv, TombstoneRoom, TerminateGrant;
    GrantFacts(s, limits, r);
  }

  lemma EndBindingKeepsInv(s: State, limits: Limits, r: Ref, now: int)
    requires Inv(s, limits) && r in s.heap && !Unexpired(s.heap[r], now)
    ensures Inv(Put(s, r, ClearedBinding(s.heap[r])), limits) && Evolves(s, Put(s, r, ClearedBinding(s.heap[r])), now)
  {
    hide Inv, Evolves, GrantOK, Put, ClearedBinding, Forgets, GrantEvolves, SameRooms;
    GrantHolds(s, limits, r);
    ClearedGrantsOK(s.heap[r], s.rooms[s.heap[r].roomID], now, Expired);
    ForgetKeepsInv(s, limits, r, ClearedBinding(s.heap[r]), now);
  }

  /** Fan-out of an admitted value: a sender that is no longer current is refused with no
      effect, an expired one is refused as expired, and any other is served as `FanoutOutcome`
      says. */
  lemma FanoutKeepsInv(s: State, limits: Limits, admitted: AdmittedClientData, outputBytes: int, now: int)
    requires Inv(s, limits) && limits.Valid()
    ensures var (s', answer) := AdmitFanout(s, limits, admitted, outputBytes, now);
      && Inv(s', limits) && Evolves(s, s', now) && answer != Reject(RejectRevoked)
      && (!SenderMatches(s, admitted) ==> answer == Reject(RejectNotBound) && s' == s)
      && (SenderMatches(s, admitted) ==>
            var r := s.bindingsByID[admitted.bindingID];
            if !Unexpired(s.heap[r], now) then answer == Reject(RejectExpired) && Drops(s.gate, s'.gate)
            else if outputBytes < 0 || outputBytes > MAX_DATAGRAM_BYTES then
              answer == Reject(RejectOversized) && s' == s
            else FanoutOutcome(s, s', r, admitted.sequence, outputBytes, answer, now))
  {
    hide Inv, Evolves, LiveAuthority, FanoutFrom, Put, ClearedBinding, FanoutOutcome, Drops;
    EvolvesReflexive(s, now);
    if SenderMatches(s, admitted) {
      var r := s.bindingsByID[admitted.bindingID];
      BindingIndexed(s, limits, admitted.bindingID);
      LiveAuthorityKeepsInv(s, limits, r, now);
      LiveAuthorityExpires(s, limits, r, now);
      AuthorityDrops(s, limits, r, now);
      if now >= s.heap[r].binding.value.deadline {
        EndBindingKeepsInv(s, limits, r, now);
        PutDrops(s, r, ClearedBinding(s.heap[r]));
      } else if 0 <= outputBytes <= MAX_DATAGRAM_BYTES {
        FanoutFromKeepsInv(s, limits, r, admitted.sequence, outputBytes, now);
      }
    }
  }
}
