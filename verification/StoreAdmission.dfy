/** What the UDP side asks of the store: challenges, authentication, authenticated ingress
    and fan-out. Each operation takes a state to a state and an answer. */
module StoreAdmission {
  import opened Prelude
  import opened RateLimit
  import opened Admission
  import opened StoreModel
  import opened StoreDeletion
  import opened Transcript
  import ReplayWindow

  datatype Reason =
    | RejectMalformed | RejectOversized | RejectUnsupportedVersion | RejectUnknownGrant | RejectAuthFailed
    | RejectReplay | RejectExpired | RejectRevoked | RejectWrongRoom | RejectWrongEndpoint | RejectNotBound
    | RejectRateLimited | RejectFanoutLimited | RejectDraining | RejectFatalRandom

  datatype Answer<+T> = Admit(value: T) | Reject(reason: Reason)

  /** A stream of random reads, any of which may fail. */
  type Random = nat -> Option<Bytes>

  /** Up to `tries` draws for an identifier that is not taken, and how far they went. */
  function UniqueID(random: Random, at: nat, taken: set<Bytes>, tries: nat): (Option<Bytes>, nat)
    decreases tries
  {
    if tries == 0 then (None, at)
    else match random(at)
      case None => (None, at + 1)
      case Some(id) => if id in taken then UniqueID(random, at + 1, taken, tries - 1) else (Some(id), at + 1)
  }

  lemma {:induction false} UniqueIDIsFree(random: Random, at: nat, taken: set<Bytes>, tries: nat)
    ensures var (id, next) := UniqueID(random, at, taken, tries);
      && at <= next <= at + tries
      && (id.Some? ==> id.value !in taken && at < next && random(next - 1) == id)
    decreases tries
  {
    if tries > 0 && random(at).Some? && random(at).value in taken {
      UniqueIDIsFree(random, at + 1, taken, tries - 1);
    }
  }

  const ID_DRAWS: nat := 9

  const UNIX_EPOCH: int := 62_135_596_800 * SECOND
  const MILLISECOND: int := 1_000_000

  /** The wall-clock expiry put on the wire is never earlier than the deadline, and later by
      less than a millisecond. */
  function ProjectWireExpiryUnixMS(reading: ClockReading, deadline: int): (ms: int)
    ensures 0 <= ms * MILLISECOND - (reading.wall + (deadline - reading.mono) - UNIX_EPOCH) < MILLISECOND
  {
    var expiry := reading.wall + (deadline - reading.mono) - UNIX_EPOCH;
    expiry / MILLISECOND + (if expiry % MILLISECOND != 0 then 1 else 0)
  }

  // ---------------------------------------------------------------- charging

  /** Pre-authentication charging of the store's gate. */
  ghost function ChargePreauth(s: State, limits: Limits, endpoint: Endpoint, inputBytes: int, now: int): (State, bool)
    requires Inv(s, limits)
  {
    var (gate, ok) := AdmitPreauth(s.gate, limits, endpoint, inputBytes, now);
    (s.(gate := gate), ok)
  }

  /** Nothing but the gate differs. */
  ghost predicate SameButGate(s: State, s': State) { s' == s.(gate := s'.gate) }

  lemma GateKeepsInv(s: State, limits: Limits, gate: Gate)
    requires Inv(s, limits) && GateOK(gate, limits)
    requires forall n | !IsPreauth(n) :: n in gate.buckets <==> n in s.gate.buckets
    ensures Inv(s.(gate := gate), limits)
  {
    GateKeepsLimiters(s, limits, gate);
    GateIrrelevant(s, s.(gate := gate), limits);
    hide RoomsOK, GrantsOK, IndexesOK, CountersOK, LimitersOK;
  }

  lemma GateKeepsLimiters(s: State, limits: Limits, gate: Gate)
    requires LimitersOK(s, limits) && GateOK(gate, limits)
    requires forall n | !IsPreauth(n) :: n in gate.buckets <==> n in s.gate.buckets
    ensures LimitersOK(s.(gate := gate), limits)
  {
    var s' := s.(gate := gate);
    hide GateOK;
    forall n | !IsPreauth(n) ensures n in gate.buckets <==> Needed(s', n) {
      assert n in s.gate.buckets <==> Needed(s, n);
    }
  }

  /** The rest of the invariant does not look at the gate or the random stream. */
  lemma GateIrrelevant(s: State, s': State, limits: Limits)
    requires s' == s.(gate := s'.gate, drawn := s'.drawn)
    requires RoomsOK(s, limits) && GrantsOK(s) && IndexesOK(s) && CountersOK(s, limits)
    ensures RoomsOK(s', limits) && GrantsOK(s') && IndexesOK(s') && CountersOK(s', limits)
  {
  }

  lemma GateEvolves(s: State, gate: Gate, now: int)
    ensures Evolves(s, s.(gate := gate), now)
  {
  }

  lemma ChargePreauthKeepsInv(s: State, limits: Limits, endpoint: Endpoint, inputBytes: int, now: int)
    requires Inv(s, limits)
    ensures var s' := ChargePreauth(s, limits, endpoint, inputBytes, now).0;
      Inv(s', limits) && SameButGate(s, s') && SameElsewhere(s.gate, s'.gate) && Evolves(s, s', now)
  {
    PreauthKeepsGate(s.gate, limits, endpoint, inputBytes, now);
    var gate := AdmitPreauth(s.gate, limits, endpoint, inputBytes, now).0;
    GateEvolves(s, gate, now);
    hide Inv, AdmitPreauth, Evolves;
    GateKeepsInv(s, limits, gate);
  }

  function IngressCharges(r: Ref, room: string, bytes: nat): seq<Charge<LimiterName>> {
    [Charge(SessionPackets(r), 1), Charge(SessionBytes(r), bytes),
     Charge(RoomIngressPackets(room), 1), Charge(RoomIngressBytes(room), bytes),
     Charge(IngressGlobalPackets, 1), Charge(IngressGlobalBytes, bytes)]
  }

  function FanoutCharges(room: string, writes: nat, bytes: nat): seq<Charge<LimiterName>> {
    [Charge(RoomFanoutWrites(room), writes), Charge(RoomFanoutBytes(room), bytes),
     Charge(FanoutGlobalWrites, writes), Charge(FanoutGlobalBytes, bytes)]
  }

  /** `allowAtomic` over limiters of the store. */
  ghost function ChargeStore(s: State, charges: seq<Charge<LimiterName>>, now: int): (State, bool)
    requires Known(s.gate.buckets, charges)
  {
    var (gate, ok) := ChargeGate(s.gate, charges, now);
    (s.(gate := gate), ok)
  }

  lemma ChargeStoreKeepsInv(s: State, limits: Limits, charges: seq<Charge<LimiterName>>, now: int)
    requires Inv(s, limits) && Known(s.gate.buckets, charges) && Distinct(charges) && Authenticated(charges)
    ensures !AllowAtomic(s.gate.buckets, charges, now).Panicked?
    ensures var s' := ChargeStore(s, charges, now).0;
      Inv(s', limits) && SameButGate(s, s') && SamePreauth(s.gate, s'.gate) && Evolves(s, s', now)
  {
    ChargeAuthenticatedOK(s.gate, limits, charges, now);
    var gate := ChargeGate(s.gate, charges, now).0;
    GateEvolves(s, gate, now);
    hide Inv, ChargeGate, Evolves, AllowAtomic, GateOK;
    GateKeepsInv(s, limits, gate);
  }

  // ---------------------------------------------------------------- authority

  /** The room of a grant that still has authority at `now`, or why it has none; what has
      expired is ended on the way. */
  function LiveAuthority(s: State, limits: Limits, r: Ref, now: int): (State, Option<Reason>)
    requires Inv(s, limits) && r in s.heap
  {
    var g := s.heap[r];
    if g.state.Revoked? then (s, Some(RejectRevoked))
    else if g.state.Expired? then (s, Some(RejectExpired))
    else if g.roomID !in s.rooms || s.rooms[g.roomID].state.Tombstone? then (s, Some(RejectRevoked))
    else if now >= s.rooms[g.roomID].monoDeadline then
      (TombstoneRoom(s, limits, g.roomID, now, Expired), Some(RejectExpired))
    else if now >= g.monoDeadline then (TerminateGrant(s, r, Expired), Some(RejectExpired))
    else (s, None)
  }

  /** All grants of a room past its deadline are past theirs. */
  lemma DeadlinesNest(s: State, limits: Limits, id: string, now: int)
    requires Inv(s, limits) && id in s.rooms && now >= s.rooms[id].monoDeadline
    ensures forall i | 0 <= i < |s.rooms[id].grants| ::
      s.rooms[id].grants[i] in s.heap && now >= s.heap[s.rooms[id].grants[i]].monoDeadline
  {
    GrantsResident(s, limits, id);
    forall i | 0 <= i < |s.rooms[id].grants| ensures now >= s.heap[s.rooms[id].grants[i]].monoDeadline {
      assert GrantOK(s.heap[s.rooms[id].grants[i]], s.rooms[id]);
    }
  }

  /** Losing authority keeps the invariant and loses nothing unexpired; a live grant is never
      reported revoked. */
  lemma LiveAuthorityKeepsInv(s: State, limits: Limits, r: Ref, now: int)
    requires Inv(s, limits) && r in s.heap
    ensures var (s', reason) := LiveAuthority(s, limits, r, now);
      && Inv(s', limits) && Evolves(s, s', now)
      && (Live(s.heap[r]) ==> reason != Some(RejectRevoked))
      && (reason.None? ==>
            && s' == s && Live(s.heap[r]) && s.heap[r].roomID in s.rooms && s.rooms[s.heap[r].roomID].state.Open?
            && now < s.heap[r].monoDeadline <= s.rooms[s.heap[r].roomID].monoDeadline)
  {
    hide Inv, Evolves, TombstoneRoom, TerminateGrant, SameRooms, SameIdentity;
    var g := s.heap[r];
    EvolvesReflexive(s, now);
    GrantFacts(s, limits, r);
    if Live(g) {
      if now >= s.rooms[g.roomID].monoDeadline {
        DeadlinesNest(s, limits, g.roomID, now);
        TombstoneKeepsInv(s, limits, g.roomID, now, Expired);
      } else if now >= g.monoDeadline {
        TerminateKeepsInv(s, limits, r, Expired, now);
      }
    }
  }

  lemma GrantFacts(s: State, limits: Limits, r: Ref)
    requires Inv(s, limits) && r in s.heap
    ensures var g := s.heap[r];
      && g.roomID in s.rooms && r in s.rooms[g.roomID].grants
      && g.monoDeadline <= s.rooms[g.roomID].monoDeadline <= MAX_INT64
      && (Live(g) ==> s.rooms[g.roomID].state.Open? && g.secret.Some?)
  {
    assert GrantOK(s.heap[r], s.rooms[s.heap[r].roomID]);
  }

  // ---------------------------------------------------------------- challenges

  datatype ChallengeRequest = ChallengeRequest(
    roomID: string, sessionID: string, grantID: Bytes, clientNonce: Bytes, endpoint: Endpoint, inputBytes: int)

  /** Issue a challenge on a grant with authority and no pending challenge. */
  function IssueChallenge(s: State, limits: Limits, random: Random, r: Ref, request: ChallengeRequest,
      reading: ClockReading)
    : (State, Answer<ChallengeResult>)
    requires r in s.heap && s.heap[r].roomID in s.rooms
  {
    var (candidate, next) := UniqueID(random, s.drawn, s.candidatesByID.Keys, ID_DRAWS);
    var s1 := s.(drawn := next);
    if candidate.None? then (s1, Reject(RejectFatalRandom))
    else
      var s2 := s1.(drawn := next + 1);
      match random(next)
      case None => (s2, Reject(RejectFatalRandom))
      case Some(serverNonce) =>
        var g := s.heap[r];
        var deadline := Min(Min(SaturatingAdd(reading.mono, limits.challengeTTL), g.monoDeadline),
          s.rooms[g.roomID].monoDeadline);
        var result := ChallengeResult(candidate.value, serverNonce, ProjectWireExpiryUnixMS(reading, deadline));
        var pending := Challenge(candidate.value, request.clientNonce, serverNonce, request.endpoint, deadline, result);
        (Put(s2, r, WithPending(g, pending)), Admit(result))
  }

  function WithPending(g: Grant, pending: Challenge): Grant {
    g.(pending := Some(pending), bindingState := if g.binding.Some? then RebindPending else g.bindingState)
  }

  /** A challenge on a grant whose room and session match, its expired state already gone. */
  function Challenge0(s: State, limits: Limits, random: Random, r: Ref, request: ChallengeRequest,
      reading: ClockReading)
    : (State, Answer<ChallengeResult>)
    requires r in s.heap && s.heap[r].roomID in s.rooms
  {
    var g := s.heap[r];
    if g.pending.Some? then
      if g.pending.value.endpoint != request.endpoint then (s, Reject(RejectWrongEndpoint))
      else if g.pending.value.clientNonce != request.clientNonce then (s, Reject(RejectAuthFailed))
      else (s, Admit(g.pending.value.result))
    else if g.recent.Some? && g.recent.value.clientNonce == request.clientNonce then (s, Reject(RejectAuthFailed))
    else IssueChallenge(s, limits, random, r, request, reading)
  }

  lemma GrantsResolve(s: State, limits: Limits)
    requires Inv(s, limits)
    ensures forall c | c in s.grantsByID :: s.grantsByID[c] in s.heap
    ensures forall c | c in s.candidatesByID :: s.candidatesByID[c] in s.heap
  {
  }

  lemma ExpireRelayRooms(s: State, r: Ref, now: int)
    requires r in s.heap
    ensures var s' := ExpireRelay(s, r, now);
      s'.rooms == s.rooms && s'.heap.Keys == s.heap.Keys && s'.heap[r].roomID == s.heap[r].roomID
  {
    hide Reindex, DropSession, LiveIDs, CandidateIDs, BindingIDs;
  }

  ghost function BeginChallenge(s: State, limits: Limits, random: Random, request: ChallengeRequest,
      reading: ClockReading)
    : (State, Answer<ChallengeResult>)
    requires Inv(s, limits)
  {
    hide Inv, ChargePreauth, Evolves, SameElsewhere, Put;
    var now := reading.mono;
    var (s1, ok) := ChargePreauth(s, limits, request.endpoint, request.inputBytes, now);
    ChargePreauthKeepsInv(s, limits, request.endpoint, request.inputBytes, now);
    if !ok then (s1, Reject(RejectRateLimited))
    else if !request.endpoint.IsValid() then (s1, Reject(RejectAuthFailed))
    else if request.grantID !in s1.grantsByID then (s1, Reject(RejectUnknownGrant))
    else
      GrantsResolve(s1, limits);
      var r := s1.grantsByID[request.grantID];
      var (s2, reason) := LiveAuthority(s1, limits, r, now);
      LiveAuthorityKeepsInv(s1, limits, r, now);
      GrantFacts(s1, limits, r);
      if reason.Some? then (s2, Reject(reason.value))
      else if request.roomID != s2.heap[r].roomID then (s2, Reject(RejectWrongRoom))
      else if request.sessionID != s2.heap[r].sessionID then (s2, Reject(RejectAuthFailed))
      else
        ExpireRelayRooms(s2, r, now);
        Challenge0(ExpireRelay(s2, r, now), limits, random, r, request, reading)
  }

  // ---------------------------------------------------------------- authentication

  datatype AuthenticateRequest = AuthenticateRequest(
    roomID: string, sessionID: string, candidateID: Bytes, endpoint: Endpoint, authTag: Bytes, inputBytes: int)

  function AuthTagOf(hmac: Hmac, g: Grant, candidateID: Bytes, clientNonce: Bytes, serverNonce: Bytes): Bytes
    requires g.secret.Some?
  {
    Tag(hmac, g.secret.value, AuthMessage(REVISION, g.roomID, g.sessionID, g.id, candidateID, clientNonce, serverNonce))
  }

  function BindingKeyOf(hmac: Hmac, g: Grant, candidateID: Bytes, clientNonce: Bytes, serverNonce: Bytes): Bytes
    requires g.secret.Some?
  {
    Tag(hmac, g.secret.value, BindingKeyMessage(REVISION, g.roomID, g.sessionID, g.id, candidateID, clientNonce,
      serverNonce))
  }

  /** Why the result of a completed handshake cannot be repeated, if it cannot. */
  function RecallRefusal(hmac: Hmac, g: Grant, request: AuthenticateRequest, now: int): Option<Reason>
    requires g.recent.Some? && g.secret.Some?
  {
    var recent := g.recent.value;
    if now >= recent.deadline then Some(RejectExpired)
    else if recent.endpoint != request.endpoint then Some(RejectWrongEndpoint)
    else if g.binding.None? || g.binding.value.generation != recent.generation
          || g.binding.value.id != recent.result.bindingID then
      Some(RejectExpired)
    else if now >= g.binding.value.deadline then Some(RejectExpired)
    else if AuthTagOf(hmac, g, recent.candidateID, recent.clientNonce, recent.serverNonce) != request.authTag then
      Some(RejectAuthFailed)
    else None
  }

  /** The completed handshake is asked for again. */
  function Recall(s: State, hmac: Hmac, r: Ref, request: AuthenticateRequest, now: int): (State, Answer<BoundResult>)
    requires r in s.heap && s.heap[r].recent.Some? && s.heap[r].secret.Some?
  {
    var g := s.heap[r];
    match RecallRefusal(hmac, g, request, now)
    case Some(reason) =>
      var g' := if g.binding.Some? && now >= g.binding.value.deadline then ClearedBinding(g) else ClearedRecent(g);
      (if reason.RejectExpired? then Put(s, r, g') else s, Reject(reason))
    case None => (s, Admit(g.recent.value.result))
  }

  function NextGeneration(generation: nat): nat { Wrap64(generation + 1) }

  /** The pending handshake completes: the new binding replaces the old one. */
  function Rebound(g: Grant, completed: Completed, binding: Binding): Grant {
    g.(pending := None, recent := Some(completed), binding := Some(binding), generation := binding.generation,
       state := Bound, bindingState := Current)
  }

  function Complete(s: State, limits: Limits, hmac: Hmac, random: Random, r: Ref, endpoint: Endpoint,
      reading: ClockReading)
    : (State, Answer<BoundResult>)
    requires r in s.heap && s.heap[r].pending.Some? && s.heap[r].secret.Some? && s.heap[r].roomID in s.rooms
  {
    var g := s.heap[r];
    var pending := g.pending.value;
    var (id, next) := UniqueID(random, s.drawn, s.bindingsByID.Keys, ID_DRAWS);
    var s1 := s.(drawn := next);
    if id.None? then (s1, Reject(RejectFatalRandom))
    else
      var room := s.rooms[g.roomID];
      var key := BindingKeyOf(hmac, g, pending.candidateID, pending.clientNonce, pending.serverNonce);
      var deadline := Min(Min(SaturatingAdd(reading.mono, limits.bindingTTL), g.monoDeadline), room.monoDeadline);
      var expires := ProjectWireExpiryUnixMS(reading, deadline);
      var tag := Tag(hmac, key, BoundMessage(REVISION, g.roomID, g.sessionID, pending.candidateID, id.value, expires));
      var result := BoundResult(id.value, expires, tag);
      var completedDeadline :=
        Min(Min(Min(SaturatingAdd(reading.mono, limits.challengeTTL), deadline), g.monoDeadline), room.monoDeadline);
      var generation := NextGeneration(g.generation);
      var completed := Completed(pending.candidateID, pending.clientNonce, pending.serverNonce, pending.endpoint,
                                 completedDeadline, generation, result);
      var binding := Binding(id.value, key, endpoint, deadline, generation, ReplayWindow.EMPTY);
      (Put(s1, r, Rebound(g, completed, binding)), Admit(result))
  }

  /** Why a pending handshake cannot be completed by this request, if it cannot. */
  function PendingRefusal(hmac: Hmac, g: Grant, request: AuthenticateRequest, now: int): Option<Reason>
    requires g.secret.Some?
  {
    if g.pending.None? || g.pending.value.candidateID != request.candidateID then Some(RejectAuthFailed)
    else
      var pending := g.pending.value;
      if now >= pending.deadline then Some(RejectExpired)
      else if pending.endpoint != request.endpoint then Some(RejectWrongEndpoint)
      else if AuthTagOf(hmac, g, pending.candidateID, pending.clientNonce, pending.serverNonce) != request.authTag then
        Some(RejectAuthFailed)
      else None
  }

  /** A handshake is completed for the first time, or not at all. */
  function CompletePending(s: State, limits: Limits, hmac: Hmac, random: Random, r: Ref, request: AuthenticateRequest,
      reading: ClockReading)
    : (State, Answer<BoundResult>)
    requires r in s.heap && s.heap[r].secret.Some? && s.heap[r].roomID in s.rooms
  {
    match PendingRefusal(hmac, s.heap[r], request, reading.mono)
    case Some(reason) => (if reason.RejectExpired? then Put(s, r, ClearedPending(s.heap[r])) else s, Reject(reason))
    case None => Complete(s, limits, hmac, random, r, request.endpoint, reading)
  }

  ghost function Authenticate(s: State, limits: Limits, hmac: Hmac, random: Random, request: AuthenticateRequest,
      reading: ClockReading)
    : (State, Answer<BoundResult>)
    requires Inv(s, limits)
  {
    hide Inv, ChargePreauth, Evolves, SameElsewhere;
    var now := reading.mono;
    var (s1, ok) := ChargePreauth(s, limits, request.endpoint, request.inputBytes, now);
    ChargePreauthKeepsInv(s, limits, request.endpoint, request.inputBytes, now);
    if !ok then (s1, Reject(RejectRateLimited))
    else if !request.endpoint.IsValid() then (s1, Reject(RejectAuthFailed))
    else if request.candidateID !in s1.candidatesByID then (s1, Reject(RejectAuthFailed))
    else
      GrantsResolve(s1, limits);
      var r := s1.candidatesByID[request.candidateID];
      var (s2, reason) := LiveAuthority(s1, limits, r, now);
      LiveAuthorityKeepsInv(s1, limits, r, now);
      GrantFacts(s1, limits, r);
      if reason.Some? then (s2, Reject(reason.value))
      else if request.roomID != s2.heap[r].roomID then (s2, Reject(RejectWrongRoom))
      else if request.sessionID != s2.heap[r].sessionID then (s2, Reject(RejectAuthFailed))
      else if s2.heap[r].recent.Some? && s2.heap[r].recent.value.candidateID == request.candidateID then
        Recall(s2, hmac, r, request, now)
      else CompletePending(s2, limits, hmac, random, r, request, reading)
  }

  // ---------------------------------------------------------------- authenticated ingress

  /** What is cleaned up when the rejection stands. */
  datatype Cleanup = Nothing | TheRoom | TheGrant | TheBinding

  datatype Refusal = Refusal(reason: Reason, cleanup: Cleanup)

  /** Why a ClientData or Ping is not from the current binding, if it is not. */
  function Inspect(s: State, hmac: Hmac, m: Message, endpoint: Endpoint, authTag: Bytes, inputBytes: int,
      now: int): Option<Refusal>
    requires m.ClientDataMessage? || m.PingMessage?
    requires forall c | c in s.bindingsByID :: s.bindingsByID[c] in s.heap
  {
    if m.sequence == 0 || inputBytes < 0 then Some(Refusal(RejectMalformed, Nothing))
    else if m.bindingID !in s.bindingsByID then Some(Refusal(RejectNotBound, Nothing))
    else
      var g := s.heap[s.bindingsByID[m.bindingID]];
      if g.binding.None? || g.binding.value.id != m.bindingID then Some(Refusal(RejectNotBound, Nothing))
      else if g.state.Revoked? then Some(Refusal(RejectRevoked, Nothing))
      else if g.state.Expired? then Some(Refusal(RejectExpired, Nothing))
      else if g.roomID !in s.rooms || !s.rooms[g.roomID].state.Open? then Some(Refusal(RejectRevoked, Nothing))
      else if now >= s.rooms[g.roomID].monoDeadline then Some(Refusal(RejectExpired, TheRoom))
      else if now >= g.monoDeadline then Some(Refusal(RejectExpired, TheGrant))
      else if m.room != g.roomID then Some(Refusal(RejectWrongRoom, Nothing))
      else if m.session != g.sessionID then Some(Refusal(RejectAuthFailed, Nothing))
      else if now >= g.binding.value.deadline then Some(Refusal(RejectExpired, TheBinding))
      else if !endpoint.IsValid() || g.binding.value.endpoint != endpoint then
        Some(Refusal(RejectWrongEndpoint, Nothing))
      else if Tag(hmac, g.binding.value.key, m) != authTag then Some(Refusal(RejectAuthFailed, Nothing))
      else None
  }

  function CleanUp(s: State, limits: Limits, bindingID: Bytes, cleanup: Cleanup, now: int): State
    requires Inv(s, limits) && (!cleanup.Nothing? ==> bindingID in s.bindingsByID)
  {
    if cleanup.Nothing? then s
    else
      var r := s.bindingsByID[bindingID];
      match cleanup
      case TheRoom => TombstoneRoom(s, limits, s.heap[r].roomID, now, Expired)
      case TheGrant => TerminateGrant(s, r, Expired)
      case TheBinding => Put(s, r, ClearedBinding(s.heap[r]))
  }

  function WithReplay(g: Grant, replay: ReplayWindow.Window): Grant
    requires g.binding.Some?
  {
    g.(binding := Some(g.binding.value.(replay := replay)))
  }

  /** A packet of the current binding: its sequence is consumed before it is charged. */
  ghost function AdmitBound(s: State, limits: Limits, r: Ref, sequence: nat, bytes: nat, now: int): (State, Answer<Ref>)
    requires r in s.heap && s.heap[r].binding.Some?
    requires Known(Put(s, r, WithReplay(s.heap[r],
                   ReplayWindow.Accept(s.heap[r].binding.value.replay, sequence).0)).gate.buckets,
                   IngressCharges(r, s.heap[r].roomID, bytes))
  {
    var (window, isNew) := ReplayWindow.Accept(s.heap[r].binding.value.replay, sequence);
    var s1 := Put(s, r, WithReplay(s.heap[r], window));
    var (s2, ok) := ChargeStore(s1, IngressCharges(r, s.heap[r].roomID, bytes), now);
    if !ok then (s2, Reject(RejectRateLimited))
    else if !isNew then (s2, Reject(RejectReplay))
    else (s2, Admit(r))
  }

  lemma BindingsResident(s: State, limits: Limits)
    requires Inv(s, limits)
    ensures forall c | c in s.bindingsByID :: s.bindingsByID[c] in s.heap
  {
  }

  lemma BindingsBound(s: State, limits: Limits)
    requires Inv(s, limits)
    ensures forall c | c in s.bindingsByID :: s.bindingsByID[c] in s.heap && s.heap[s.bindingsByID[c]].binding.Some?
  {
  }

  ghost function AdmitAuthenticated(
    s: State, limits: Limits, hmac: Hmac, m: Message, endpoint: Endpoint, authTag: Bytes, inputBytes: int, now: int)
    : (State, Answer<Ref>)
    requires Inv(s, limits) && (m.ClientDataMessage? || m.PingMessage?)
  {
    hide Inv;
    BindingsResident(s, limits);
    BindingsBound(s, limits);
    match Inspect(s, hmac, m, endpoint, authTag, inputBytes, now)
    case Some(refusal) =>
      var (s1, ok) := ChargePreauth(s, limits, endpoint, inputBytes, now);
      ChargePreauthKeepsInv(s, limits, endpoint, inputBytes, now);
      if !ok then (s1, Reject(RejectRateLimited))
      else (CleanUp(s1, limits, m.bindingID, refusal.cleanup, now), Reject(refusal.reason))
    case None =>
      var r := s.bindingsByID[m.bindingID];
      BoundLimitersKnown(s, limits, r, m.sequence, inputBytes);
      AdmitBound(s, limits, r, m.sequence, inputBytes, now)
  }

  /** Moving a replay window forward changes nothing else. */
  lemma ReplayKeepsInv(s: State, limits: Limits, r: Ref, window: ReplayWindow.Window, now: int)
    requires Inv(s, limits) && r in s.heap && s.heap[r].binding.Some?
    requires ReplayWindow.NeverForgets(s.heap[r].binding.value.replay, window)
    ensures var s' := Put(s, r, WithReplay(s.heap[r], window));
      && Inv(s', limits) && SameRooms(s, s') && Evolves(s, s', now) && s'.gate == s.gate
  {
    hide Inv, GrantOK, Forgets, GrantEvolves, Evolves, SameRooms;
    var g := WithReplay(s.heap[r], window);
    GrantHolds(s, limits, r);
    ReplayGrantOK(s.heap[r], s.rooms[g.roomID], window, now);
    ForgetKeepsInv(s, limits, r, g, now);
  }

  lemma ReplayGrantOK(g: Grant, room: Room, window: ReplayWindow.Window, now: int)
    requires g.binding.Some? && GrantOK(g, room) && ReplayWindow.NeverForgets(g.binding.value.replay, window)
    ensures Live(g) && Forgets(g, WithReplay(g, window), room) && GrantEvolves(g, WithReplay(g, window), now)
  {
  }

  lemma IngressKnown(s: State, limits: Limits, r: Ref, bytes: nat)
    requires Inv(s, limits) && r in s.heap && Live(s.heap[r])
    ensures var charges := IngressCharges(r, s.heap[r].roomID, bytes);
      Known(s.gate.buckets, charges) && Distinct(charges) && Authenticated(charges)
  {
    hide Inv, LimitersOK;
    GrantFacts(s, limits, r);
    LimitersHold(s, limits);
    LimitersKnown(s, limits, r, s.heap[r].roomID);
    IngressDistinct(r, s.heap[r].roomID, bytes);
  }

  lemma IngressDistinct(r: Ref, room: string, bytes: nat)
    ensures Distinct(IngressCharges(r, room, bytes)) && Authenticated(IngressCharges(r, room, bytes))
  {
  }

  lemma FanoutDistinct(room: string, writes: nat, bytes: nat)
    ensures Distinct(FanoutCharges(room, writes, bytes)) && Authenticated(FanoutCharges(room, writes, bytes))
  {
  }

  lemma LimitersHold(s: State, limits: Limits)
    requires Inv(s, limits)
    ensures LimitersOK(s, limits)
  {
  }

  lemma LimitersKnown(s: State, limits: Limits, r: Ref, id: string)
    requires LimitersOK(s, limits) && HasSessionLimiters(s, r) && HasRoomLimiters(s, id)
    ensures var b := s.gate.buckets;
      && SessionPackets(r) in b && SessionBytes(r) in b && RoomIngressPackets(id) in b && RoomIngressBytes(id) in b
      && RoomFanoutWrites(id) in b && RoomFanoutBytes(id) in b
      && IngressGlobalPackets in b && IngressGlobalBytes in b && FanoutGlobalWrites in b && FanoutGlobalBytes in b
  {
    hide GateOK;
    assert Needed(s, IngressGlobalPackets) && Needed(s, IngressGlobalBytes) && Needed(s, FanoutGlobalWrites)
      && Needed(s, FanoutGlobalBytes);
  }

  lemma BoundLimitersKnown(s: State, limits: Limits, r: Ref, sequence: nat, bytes: nat)
    requires Inv(s, limits) && r in s.heap && s.heap[r].binding.Some?
    ensures var g := WithReplay(s.heap[r], ReplayWindow.Accept(s.heap[r].binding.value.replay, sequence).0);
      && Known(Put(s, r, g).gate.buckets, IngressCharges(r, s.heap[r].roomID, bytes))
  {
    ReplayWindow.AcceptNeverForgets(s.heap[r].binding.value.replay, sequence);
    ReplayKeepsInv(s, limits, r, ReplayWindow.Accept(s.heap[r].binding.value.replay, sequence).0, 0);
    BoundIsLive(s, limits, r);
    hide Inv, Put;
    IngressKnown(s, limits, r, bytes);
  }

  lemma BoundIsLive(s: State, limits: Limits, r: Ref)
    requires Inv(s, limits) && r in s.heap && s.heap[r].binding.Some?
    ensures Live(s.heap[r]) && s.heap[r].state.Bound?
  {
    assert GrantOK(s.heap[r], s.rooms[s.heap[r].roomID]);
  }

  // ---------------------------------------------------------------- fan-out

  /** What ingress hands to fan-out: the sender by value, not by pointer. */
  datatype AdmittedClientData = AdmittedClientData(
    roomID: string, sessionID: string, senderParticipantID: string, bindingID: Bytes, bindingGeneration: nat,
      sequence: nat)

  datatype RelayPlan = RelayPlan(
    roomID: string, sessionID: string, senderParticipantID: string, sequence: nat, recipients: seq<Endpoint>)

  /** The value that ingress hands to fan-out for a packet admitted on grant `r`. */
  function AdmittedBy(s: State, r: Ref, sequence: nat): AdmittedClientData
    requires r in s.heap && s.heap[r].binding.Some?
  {
    var g := s.heap[r];
    AdmittedClientData(g.roomID, g.sessionID, g.participantID, g.binding.value.id, g.binding.value.generation, sequence)
  }

  /** Walk the grants of the sender's room, ending what has expired, and collect the
      endpoints of the others that are bound. */
  function Recipients(s: State, refs: seq<Ref>, sender: Ref, now: int): (State, seq<Endpoint>)
    requires forall i | 0 <= i < |refs| :: refs[i] in s.heap
    decreases |refs|
  {
    if refs == [] then (s, [])
    else
      var q := refs[0];
      if q == sender || !Live(s.heap[q]) then Recipients(s, refs[1..], sender, now)
      else if now >= s.heap[q].monoDeadline then Recipients(TerminateGrant(s, q, Expired), refs[1..], sender, now)
      else
        var s1 := ExpireRelay(s, q, now);
        var (s2, rest) := Recipients(s1, refs[1..], sender, now);
        (s2, if s1.heap[q].binding.Some? then [s1.heap[q].binding.value.endpoint] + rest else rest)
  }

  function PlannedBytes(outputBytes: nat, recipients: nat): nat { outputBytes * recipients }

  predicate SenderMatches(s: State, admitted: AdmittedClientData) {
    && admitted.bindingID in s.bindingsByID
    && s.bindingsByID[admitted.bindingID] in s.heap
    && var g := s.heap[s.bindingsByID[admitted.bindingID]];
       && g.binding.Some? && g.binding.value.id == admitted.bindingID
          && g.binding.value.generation == admitted.bindingGeneration
       && g.roomID == admitted.roomID && g.sessionID == admitted.sessionID
          && g.participantID == admitted.senderParticipantID
  }

  /** Charge the fan-out of one admitted packet to its recipients. */
  ghost function ChargeFanout(s: State, limits: Limits, room: string, plan: RelayPlan, outputBytes: nat,
      now: int): (State, Answer<RelayPlan>)
    requires Inv(s, limits) && room in s.rooms && !s.rooms[room].state.Tombstone?
  {
    var n := |plan.recipients|;
    if n == 0 then (s, Admit(plan))
    else if outputBytes > MAX_INT64 / n then (s, Reject(RejectOversized))
    else
      FanoutKnown(s, limits, room, n, PlannedBytes(outputBytes, n));
      var (s', ok) := ChargeStore(s, FanoutCharges(room, n, PlannedBytes(outputBytes, n)), now);
      if ok then (s', Admit(plan)) else (s', Reject(RejectFanoutLimited))
  }

  /** The fan-out of a sender with authority. */
  ghost function FanoutFrom(s: State, limits: Limits, r: Ref, sequence: nat, outputBytes: nat, now: int): (State,
      Answer<RelayPlan>)
    requires Inv(s, limits) && r in s.heap && Live(s.heap[r])
  {
    var g := s.heap[r];
    GrantFacts(s, limits, r);
    GrantsResident(s, limits, g.roomID);
    RecipientsKeepInv(s, limits, s.rooms[g.roomID].grants, r, now);
    var (s2, recipients) := Recipients(s, s.rooms[g.roomID].grants, r, now);
    ChargeFanout(s2, limits, g.roomID, RelayPlan(g.roomID, g.sessionID, g.participantID, sequence, recipients),
      outputBytes, now)
  }

  ghost function AdmitFanout(s: State, limits: Limits, admitted: AdmittedClientData, outputBytes: int,
      now: int): (State, Answer<RelayPlan>)
    requires Inv(s, limits)
  {
    if !SenderMatches(s, admitted) then (s, Reject(RejectNotBound))
    else
      var r := s.bindingsByID[admitted.bindingID];
      var (s1, reason) := LiveAuthority(s, limits, r, now);
      LiveAuthorityKeepsInv(s, limits, r, now);
      if reason.Some? then (s1, Reject(reason.value))
      else
        var g := s1.heap[r];
        if g.binding.None? || now >= g.binding.value.deadline then
          (Put(s1, r, ClearedBinding(g)), Reject(RejectExpired))
        else if outputBytes < 0 || outputBytes > MAX_DATAGRAM_BYTES then (s1, Reject(RejectOversized))
        else FanoutFrom(s1, limits, r, admitted.sequence, outputBytes, now)
  }

  /** Collecting recipients keeps the invariant, loses nothing unexpired, and leaves every
      grant outside the list alone. */
  lemma {:induction false} RecipientsKeepInv(s: State, limits: Limits, refs: seq<Ref>, sender: Ref, now: int)
    requires Inv(s, limits)
    requires forall i | 0 <= i < |refs| :: refs[i] in s.heap
    ensures var s' := Recipients(s, refs, sender, now).0; Inv(s', limits) && SameRooms(s, s') && Evolves(s, s', now)
    decreases |refs|
  {
    hide Inv, Evolves, TerminateGrant, ExpireRelay;
    EvolvesReflexive(s, now);
    if refs != [] {
      var q := refs[0];
      RefsBelowNext(s, limits);
      if q == sender || !Live(s.heap[q]) {
        RecipientsKeepInv(s, limits, refs[1..], sender, now);
      } else {
        var s1 := if now >= s.heap[q].monoDeadline then TerminateGrant(s, q, Expired) else ExpireRelay(s, q, now);
        TerminateKeepsInv(s, limits, q, Expired, now);
        ExpireKeepsInv(s, limits, q, now);
        RecipientsKeepInv(s1, limits, refs[1..], sender, now);
        EvolvesTransitive(s, s1, Recipients(s1, refs[1..], sender, now).0, now);
      }
    }
  }

  lemma FanoutKnown(s: State, limits: Limits, id: string, writes: nat, bytes: nat)
    requires Inv(s, limits) && id in s.rooms && !s.rooms[id].state.Tombstone?
    ensures Known(s.gate.buckets, FanoutCharges(id, writes, bytes))
    ensures Distinct(FanoutCharges(id, writes, bytes)) && Authenticated(FanoutCharges(id, writes, bytes))
  {
    hide Inv, GateOK;
    LimitersHold(s, limits);
    FanoutDistinct(id, writes, bytes);
    assert HasRoomLimiters(s, id);
    assert Needed(s, RoomFanoutWrites(id)) && Needed(s, RoomFanoutBytes(id)) && Needed(s, FanoutGlobalWrites)
      && Needed(s, FanoutGlobalBytes);
    hide LimitersOK, Needed;
  }
}
