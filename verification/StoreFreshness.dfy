/** Why freshness may be assumed of identifiers: a random stream that never repeats a value
    never gives a live or resident identifier twice. */
module StoreFreshness {
  import opened Prelude
  import opened RateLimit
  import opened Admission
  import opened Identifier
  import opened Definitions
  import opened Transcript
  import opened StoreModel
  import opened StoreDeletion
  import opened StoreAdmission
  import opened StoreInvariant
  import opened StoreRooms
  import opened StoreCreation
  import opened StoreRuns
  import ReplayWindow

  ghost predicate NonRepeating(random: Random) {
    forall i: nat, j: nat | i < j && random(i).Some? && random(j).Some? :: random(i) != random(j)
  }

  ghost predicate DrawnIn(random: Random, from: nat, to: nat, id: Bytes) {
    exists i: nat :: from <= i < to && random(i) == Some(id)
  }

  /** Every identifier of a resident grant, and of a binding, has been read from the stream. */
  ghost predicate IDsDrawn(s: State, random: Random) {
    && (forall r | r in s.heap :: DrawnIn(random, 0, s.drawn, s.heap[r].id))
    && (forall id | id in s.bindingsByID :: DrawnIn(random, 0, s.drawn, id))
  }

  lemma DrawnLater(random: Random, to: nat, to': nat, id: Bytes)
    requires DrawnIn(random, 0, to, id) && to <= to'
    ensures DrawnIn(random, 0, to', id)
  {
  }

  lemma NotDrawnAgain(random: Random, at: nat, to: nat, id: Bytes)
    requires NonRepeating(random) && DrawnIn(random, 0, at, id)
    ensures !DrawnIn(random, at, to, id)
  {
    var i: nat :| i < at && random(i) == Some(id);
    forall j: nat | at <= j < to ensures random(j) != Some(id) {
      assert random(j) == Some(id) ==> random(i) == random(j);
    }
  }

  // ---------------------------------------------------------------- the stream moves forward

  /** No record was allocated, and the stream did not go back. */
  ghost predicate Onward(s: State, s': State) { s'.nextRef == s.nextRef && s.drawn <= s'.drawn }

  lemma TombstoneOnward(s: State, limits: Limits, id: string, now: int, terminal: GrantState)
    requires Inv(s, limits) && id in s.rooms && (terminal.Expired? || terminal.Revoked?)
    ensures RoomGrantsResident(s, id)
    ensures Onward(s, TombstoneRoom(s, limits, id, now, terminal))
      && TombstoneRoom(s, limits, id, now, terminal).drawn == s.drawn
  {
    hide Inv, RoomsOK, TombstoneRoom;
    InvRooms(s, limits);
    GrantsResident(s, limits, id);
    TombstoneFrame(s, limits, id, now, terminal);
  }

  lemma AuthorityOnward(s: State, limits: Limits, r: Ref, now: int)
    requires Inv(s, limits) && r in s.heap
    ensures Onward(s, LiveAuthority(s, limits, r, now).0) && LiveAuthority(s, limits, r, now).0.drawn == s.drawn
  {
    hide Inv, TombstoneRoom, TerminateGrant;
    if s.heap[r].roomID in s.rooms { TombstoneOnward(s, limits, s.heap[r].roomID, now, Expired); }
    TerminateFrame(s, r, Expired);
  }

  lemma ChallengeOnward(s: State, limits: Limits, random: Random, request: ChallengeRequest, reading: ClockReading)
    requires Inv(s, limits)
    ensures Onward(s, BeginChallenge(s, limits, random, request, reading).0)
  {
    hide Inv, ChargePreauth, LiveAuthority, ExpireRelay, Challenge0, Evolves, SameElsewhere;
    var now := reading.mono;
    ChargePreauthKeepsInv(s, limits, request.endpoint, request.inputBytes, now);
    var (s1, ok) := ChargePreauth(s, limits, request.endpoint, request.inputBytes, now);
    if ok && request.endpoint.IsValid() && request.grantID in s1.grantsByID {
      var r := s1.grantsByID[request.grantID];
      GrantsIndexed(s1, limits, request.grantID);
      LiveAuthorityKeepsInv(s1, limits, r, now);
      AuthorityOnward(s1, limits, r, now);
      var (s2, reason) := LiveAuthority(s1, limits, r, now);
      if reason.None? {
        ExpireKeepsLive(s1, r, now);
        PutSameRooms(s1, r, ExpiredRelay(s1.heap[r], now));
        ExpireIsPut(s1, r, now);
        IssueOnward(ExpireRelay(s1, r, now), limits, random, r, request, reading);
      }
    }
  }

  lemma ExpireIsPut(s: State, r: Ref, now: int)
    requires r in s.heap
    ensures ExpireRelay(s, r, now) == Put(s, r, ExpiredRelay(s.heap[r], now))
  {
  }

  lemma IssueOnward(s: State, limits: Limits, random: Random, r: Ref, request: ChallengeRequest, reading: ClockReading)
    requires r in s.heap && s.heap[r].roomID in s.rooms
    ensures Onward(s, Challenge0(s, limits, random, r, request, reading).0)
  {
    hide ProjectWireExpiryUnixMS;
    UniqueIDIsFree(random, s.drawn, s.candidatesByID.Keys, ID_DRAWS);
  }

  /** A completed handshake takes its binding identifier from the stream. */
  lemma CompleteOnward(s: State, limits: Limits, hmac: Hmac, random: Random, r: Ref, request: AuthenticateRequest,
      reading: ClockReading)
    requires r in s.heap && s.heap[r].secret.Some? && s.heap[r].roomID in s.rooms
    ensures var (s', answer) := CompletePending(s, limits, hmac, random, r, request, reading);
      && Onward(s, s')
      && (answer.Admit? ==> r in s'.heap && s'.heap[r].binding.Some? && DrawnIn(random, s.drawn, s'.drawn,
         s'.heap[r].binding.value.id))
  {
    hide ProjectWireExpiryUnixMS, Tag, BindingKeyOf, AuthTagOf;
    UniqueIDIsFree(random, s.drawn, s.bindingsByID.Keys, ID_DRAWS);
    PutFrame(s, r, ClearedPending(s.heap[r]));
    if PendingRefusal(hmac, s.heap[r], request, reading.mono).None? {
      var (s', answer) := CompletePending(s, limits, hmac, random, r, request, reading);
      if answer.Admit? {
        CompletedPut(s, limits, hmac, random, r, request.endpoint, reading);
      }
    }
  }

  lemma RecallOnward(s: State, hmac: Hmac, r: Ref, request: AuthenticateRequest, now: int)
    requires r in s.heap && s.heap[r].recent.Some? && s.heap[r].secret.Some?
    ensures var (s', answer) := Recall(s, hmac, r, request, now);
      Onward(s, s') && s'.drawn == s.drawn && (answer.Admit? ==> s' == s)
  {
    hide RecallRefusal, ClearedBinding, ClearedRecent, Reindex;
  }

  lemma AuthenticateOnward(s: State, limits: Limits, hmac: Hmac, random: Random, request: AuthenticateRequest,
      reading: ClockReading)
    requires Inv(s, limits)
    ensures var (s', answer) := Authenticate(s, limits, hmac, random, request, reading);
      && Onward(s, s')
      && (answer.Admit? && request.candidateID in s.candidatesByID ==>
            var r := s.candidatesByID[request.candidateID];
            r in s'.heap && (s'.heap == s.heap
              || (s'.heap[r].binding.Some? && DrawnIn(random, s.drawn, s'.drawn, s'.heap[r].binding.value.id))))
  {
    hide Inv, ChargePreauth, LiveAuthority, Recall, CompletePending, Evolves, SameElsewhere, CandidateIDs, DrawnIn;
    var now := reading.mono;
    ChargePreauthKeepsInv(s, limits, request.endpoint, request.inputBytes, now);
    var (s1, ok) := ChargePreauth(s, limits, request.endpoint, request.inputBytes, now);
    if ok && request.endpoint.IsValid() && request.candidateID in s1.candidatesByID {
      var r := s1.candidatesByID[request.candidateID];
      CandidateIndexed(s1, limits, request.candidateID);
      LiveAuthorityKeepsInv(s1, limits, r, now);
      AuthorityOnward(s1, limits, r, now);
      GrantFacts(s1, limits, r);
      var reason := LiveAuthority(s1, limits, r, now).1;
      if reason.None? {
        if s1.heap[r].recent.Some? && s1.heap[r].recent.value.candidateID == request.candidateID {
          RecallOnward(s1, hmac, r, request, now);
        } else {
          CompleteOnward(s1, limits, hmac, random, r, request, reading);
        }
      }
    }
  }

  lemma CleanUpOnward(s: State, limits: Limits, bindingID: Bytes, cleanup: Cleanup, now: int)
    requires Inv(s, limits) && (!cleanup.Nothing? ==> bindingID in s.bindingsByID)
    ensures Onward(s, CleanUp(s, limits, bindingID, cleanup, now))
  {
    hide Inv, TombstoneRoom, TerminateGrant, Put, ClearedBinding;
    BindingsResident(s, limits);
    if !cleanup.Nothing? {
      var r := s.bindingsByID[bindingID];
      GrantFacts(s, limits, r);
      TombstoneOnward(s, limits, s.heap[r].roomID, now, Expired);
      TerminateFrame(s, r, Expired);
      PutFrame(s, r, ClearedBinding(s.heap[r]));
    }
  }

  lemma IngressOnward(s: State, limits: Limits, hmac: Hmac, m: Packet, endpoint: Endpoint, authTag: Bytes,
      inputBytes: int, now: int)
    requires Inv(s, limits)
    ensures Onward(s, AdmitAuthenticated(s, limits, hmac, m, endpoint, authTag, inputBytes, now).0)
  {
    hide Inv, Inspect, ChargePreauth, CleanUp, Evolves, SameElsewhere, FromCurrentBinding, Put, ChargeGate;
    InspectMeans(s, limits, hmac, m, endpoint, authTag, inputBytes, now);
    match Inspect(s, hmac, m, endpoint, authTag, inputBytes, now)
    case Some(refusal) =>
      ChargePreauthKeepsInv(s, limits, endpoint, inputBytes, now);
      CleanUpOnward(ChargePreauth(s, limits, endpoint, inputBytes, now).0, limits, m.bindingID, refusal.cleanup, now);
    case None =>
      var r := s.bindingsByID[m.bindingID];
      BindingIndexed(s, limits, m.bindingID);
      BoundLimitersKnown(s, limits, r, m.sequence, inputBytes);
      PutFrame(s, r, WithReplay(s.heap[r], ReplayWindow.Accept(s.heap[r].binding.value.replay, m.sequence).0));
  }

  lemma FanoutOnward(s: State, limits: Limits, admitted: AdmittedClientData, outputBytes: int, now: int)
    requires Inv(s, limits)
    ensures Onward(s, AdmitFanout(s, limits, admitted, outputBytes, now).0)
  {
    hide Inv, LiveAuthority, FanoutFrom, Put, ClearedBinding, Evolves;
    if SenderMatches(s, admitted) {
      var r := s.bindingsByID[admitted.bindingID];
      LiveAuthorityKeepsInv(s, limits, r, now);
      AuthorityOnward(s, limits, r, now);
      PutFrame(s, r, ClearedBinding(s.heap[r]));
      if Live(s.heap[r]) && 0 <= outputBytes { FanoutFromOnward(s, limits, r, admitted.sequence, outputBytes, now); }
    }
  }

  lemma FanoutFromOnward(s: State, limits: Limits, r: Ref, sequence: nat, outputBytes: nat, now: int)
    requires Inv(s, limits) && r in s.heap && Live(s.heap[r])
    ensures Onward(s, FanoutFrom(s, limits, r, sequence, outputBytes, now).0)
  {
    hide Inv, Recipients, ChargeFanout, Evolves, SamePreauth;
    var g := s.heap[r];
    GrantFacts(s, limits, r);
    GrantsResident(s, limits, g.roomID);
    RecipientsKeepInv(s, limits, s.rooms[g.roomID].grants, r, now);
    var (s2, recipients) := Recipients(s, s.rooms[g.roomID].grants, r, now);
    ChargeFanoutKeepsInv(s2, limits, g.roomID, RelayPlan(g.roomID, g.sessionID, g.participantID, sequence, recipients),
      outputBytes, now);
  }

  lemma EndOnward(s: State, limits: Limits, id: string, now: int)
    requires Inv(s, limits)
    ensures forall r | r in s.rooms :: Resident(s, s.rooms[r].grants)
    ensures Onward(s, EndRoom(s, limits, id, now).0)
  {
    hide Inv, TombstoneRoom;
    RoomsResident(s, limits);
    if id in s.rooms { TombstoneOnward(s, limits, id, now, Revoked); }
  }

  lemma SweepRoomOnward(s: State, limits: Limits, id: string, now: int)
    requires Inv(s, limits) && RoomGrantsResident(s, id)
    ensures Onward(s, SweepRoom(s, limits, id, now))
  {
    hide Inv, SweepGrants, TombstoneRoom, LastDeadline, Evolves, MarkEmpty;
    if !s.rooms[id].state.Tombstone? {
      SweptRoomFacts(s, limits, id, now);
      SweepGrantsFrame(s, s.rooms[id].grants, now);
      RetireOnward(SweepGrants(s, s.rooms[id].grants, now), limits, id, now);
    }
  }

  lemma RetireOnward(s: State, limits: Limits, id: string, now: int)
    requires Inv(s, limits) && RoomGrantsResident(s, id) && !s.rooms[id].state.Tombstone?
    requires forall i | 0 <= i < |s.rooms[id].grants| ::
      Live(s.heap[s.rooms[id].grants[i]]) ==> now < s.heap[s.rooms[id].grants[i]].monoDeadline
    ensures Onward(s, RetireIfDue(s, limits, id, now))
  {
    hide Inv, TombstoneRoom, LastDeadline, Evolves;
    TombstoneOnward(s, limits, id, now, GrantState.Expired);
    if now >= LastDeadline(s, s.rooms[id].grants) {
      RoomShape(s, limits, id);
      LastDeadlineIsMax(s, s.rooms[id].grants);
      MarkEmptyKeepsInv(s, limits, id, now);
      TombstoneOnward(MarkEmpty(s, id), limits, id, now, GrantState.Expired);
    }
  }

  lemma {:induction false} SweepOnward(s: State, limits: Limits, order: seq<string>, now: int)
    requires Inv(s, limits)
    ensures Onward(s, SweepRooms(s, limits, order, now))
    decreases |order|
  {
    hide Inv, SweepRoom, Evolves;
    if order != [] {
      RoomsResident(s, limits);
      if order[0] in s.rooms {
        SweepRoomKeepsInv(s, limits, order[0], now);
        SweepRoomOnward(s, limits, order[0], now);
        SweepOnward(SweepRoom(s, limits, order[0], now), limits, order[1..], now);
      } else {
        SweepOnward(s, limits, order[1..], now);
      }
    }
  }

  lemma StepOnward(s: State, env: Env, step: Step)
    requires Inv(s, env.limits) && !step.op.OnCreate?
    ensures Onward(s, Next(s, env, step))
  {
    hide Inv, ChargePreauth, BeginChallenge, Authenticate, AdmitAuthenticated, AdmitFanout, CreateRoom, EndRoom,
         SweepRooms, SweepSources,
         Evolves, SameElsewhere, DrawnIn;
    var now := step.reading.mono;
    match step.op {
      case OnPreauth(source, bytes) => ChargePreauthKeepsInv(s, env.limits, source, bytes, now);
      case OnHello(request) => ChallengeOnward(s, env.limits, env.random, request, step.reading);
      case OnAuthenticate(request) => AuthenticateOnward(s, env.limits, env.hmac, env.random, request, step.reading);
      case OnPacket(packet, endpoint, authTag, inputBytes) => IngressOnward(s, env.limits, env.hmac, packet, endpoint,
        authTag, inputBytes, now);
      case OnFanout(admitted, outputBytes) => FanoutOnward(s, env.limits, admitted, outputBytes, now);
      case OnEnd(id) => EndOnward(s, env.limits, id, now);
      case OnSweep(order) => SweepOnward(s, env.limits, order, now);
    }
  }

  // ---------------------------------------------------------------- what a step draws

  ghost predicate AllDrawn(random: Random, from: nat, to: nat, credentials: seq<Credential>) {
    forall i | 0 <= i < |credentials| :: DrawnIn(random, from, to, credentials[i].id)
  }

  lemma FirstDrawn(random: Random, at: nat, first: Credential, next: nat, rest: seq<Credential>, last: nat)
    requires at < next <= last && random(next - 1) == Some(first.id) && AllDrawn(random, next + 1, last, rest)
    ensures AllDrawn(random, at, last, [first] + rest)
  {
    assert DrawnIn(random, at, last, first.id);
    forall i | 0 <= i < |rest|
      ensures DrawnIn(random, at, last, rest[i].id)
    {
      DrawnWider(random, next + 1, at, last, rest[i].id);
    }
    hide DrawnIn;
  }

  lemma {:induction false} CredentialsDrawn(random: Random, at: nat, taken: set<Bytes>, n: nat)
    ensures var (credentials, next) := DrawCredentials(random, at, taken, n);
      at <= next && (credentials.Some? ==> AllDrawn(random, at, next, credentials.value))
    decreases n
  {
    hide AllDrawn, UniqueID;
    if n > 0 {
      var (id, next) := UniqueID(random, at, taken, ID_DRAWS);
      UniqueIDIsFree(random, at, taken, ID_DRAWS);
      if id.Some? && random(next).Some? {
        CredentialsDrawn(random, next + 1, taken + {id.value}, n - 1);
        var (rest, last) := DrawCredentials(random, next + 1, taken + {id.value}, n - 1);
        if rest.Some? { FirstDrawn(random, at, Credential(id.value, random(next).value), next, rest.value, last); }
      }
    } else {
      NoneDrawn(random, at);
    }
  }

  lemma NoneDrawn(random: Random, at: nat)
    ensures AllDrawn(random, at, at, [])
  {
  }

  lemma DrawnWider(random: Random, from: nat, from': nat, to: nat, id: Bytes)
    requires DrawnIn(random, from, to, id) && from' <= from
    ensures DrawnIn(random, from', to, id)
  {
  }

  /** A stream that never repeats a value draws fresh identifiers for every new room. */
  lemma DrawsAreFresh(s: State, random: Random, n: nat)
    requires NonRepeating(random) && IDsDrawn(s, random)
    ensures DrawsFresh(s, random, n)
  {
    hide DrawnIn, NonRepeating;
    CredentialsDrawn(random, s.drawn, s.grantsByID.Keys, n);
    var (credentials, next) := DrawCredentials(random, s.drawn, s.grantsByID.Keys, n);
    if credentials.Some? {
      forall i, r | 0 <= i < |credentials.value| && r in s.heap ensures s.heap[r].id != credentials.value[i].id {
        NotDrawnAgain(random, s.drawn, next, s.heap[r].id);
      }
    }
  }

  /** The new grants of a creation carry the identifiers that were drawn. */
  lemma CreatedIDs(s: State, limits: Limits, random: Random, id: string, d: Definition, reading: ClockReading)
    requires Inv(s, limits)
    ensures forall r | r in s.rooms :: Resident(s, s.rooms[r].grants)
    ensures var (s', result) := CreateRoom(s, limits, random, id, d, reading);
      && s'.bindingsByID == s.bindingsByID && s.drawn <= s'.drawn
      && (forall r | r in s'.heap ::
         (r in s.heap && s'.heap[r] == s.heap[r]) || DrawnIn(random, s.drawn, s'.drawn, s'.heap[r].id))
  {
    hide Inv, AllocateRoom, DropStale, Evolves, AccessTerminal, SameDefinition, AllocationAt, ValidParticipants, Sort,
         DrawnIn, DrawsFresh;
    RoomsResident(s, limits);
    if Canonical(id, d, limits).Ok? && !(id in s.rooms && !Stale(s.rooms[id], reading.mono)) {
      var c := Canonical(id, d, limits).value;
      var s1 := DropStale(s, id, reading.mono);
      CanonicalIsValid(id, d, limits);
      DropStaleFrame(s, id, reading.mono);
      DropStaleKeepsInv(s, limits, id, reading.mono);
      AllocatedIDs(s1, limits, random, id, c, reading);
    }
  }

  lemma AllocatedIDs(s: State, limits: Limits, random: Random, id: string, d: Definition, reading: ClockReading)
    requires Inv(s, limits) && id !in s.rooms && d.capacity == |d.participants|
      && 0 < d.capacity <= limits.maxRoomCapacity
    requires ValidParticipants(d.participants, d.expiresAt)
    ensures var s' := AllocateRoom(s, limits, random, id, d, reading).0;
      && s'.bindingsByID == s.bindingsByID && s.drawn <= s'.drawn
      && (forall r | r in s'.heap ::
         (r in s.heap && s'.heap[r] == s.heap[r]) || DrawnIn(random, s.drawn, s'.drawn, s'.heap[r].id))
  {
    hide Inv, AddRoom, Committable, DeadlinesFit, AllocationAt, DrawCredentials, ValidParticipants, DrawnIn, Evolves,
         DrawsFresh;
    var (s', result) := AllocateRoom(s, limits, random, id, d, reading);
    CredentialsDrawn(random, s.drawn, s.grantsByID.Keys, |d.participants|);
    if result.Ok? {
      var next := DrawCredentials(random, s.drawn, s.grantsByID.Keys, |d.participants|).1;
      var s1 := s.(drawn := next);
      var credentials := NextCredentials(s, random, |d.participants|).value;
      AllocateCommittable(s, limits, random, id, d, reading);
      CommittableParts(s1, limits, id, d, credentials, reading);
      RefsBelowNext(s, limits);
      AddRoomGrants(s1, limits, id, d, credentials, reading);
      AddRoomDrawn(s1, limits, id, d, credentials, reading);
      AddedIdentifiers(s1, s', id, credentials);
    }
  }

  lemma AddRoomDrawn(s: State, limits: Limits, id: string, d: Definition, credentials: seq<Credential>,
      reading: ClockReading)
    requires |credentials| == |d.participants| && DeadlinesFit(d, limits, reading)
    ensures AddRoom(s, limits, id, d, credentials, reading).drawn == s.drawn
  {
    hide NewHeap, NewRefs, NewIndex, NewLimiters, SessionNames, RoomNames;
  }

  lemma AddedIdentifiers(s: State, s': State, id: string, credentials: seq<Credential>)
    requires AddedGrants(s, s', id, credentials)
    ensures forall r | r in s'.heap ::
      (r in s.heap && s'.heap[r] == s.heap[r])
        || (s.nextRef <= r < s.nextRef + |credentials| && s'.heap[r].id == credentials[r - s.nextRef].id)
  {
    forall r: Ref | s.nextRef <= r < s'.nextRef ensures s'.heap[r].id == credentials[r - s.nextRef].id {
      assert Newcomer(s'.heap[r], s'.rooms[id], id, credentials[r - s.nextRef].id);
    }
    hide Newcomer;
  }

  // ---------------------------------------------------------------- one step

  /** Identifiers that are bound in `s'` but were not in `s` have just been drawn. */
  ghost predicate BindsDrawn(s: State, s': State, random: Random) {
    forall id | id in s'.bindingsByID && id !in s.bindingsByID :: DrawnIn(random, s.drawn, s'.drawn, id)
  }

  lemma CreateDraws(s: State, env: Env, step: Step)
    requires Inv(s, env.limits) && step.op.OnCreate? && IDsDrawn(s, env.random)
    ensures IDsDrawn(Next(s, env, step), env.random) && BindsDrawn(s, Next(s, env, step), env.random)
    ensures s.drawn <= Next(s, env, step).drawn
  {
    hide Inv, CreateRoom, DrawnIn;
    CreatedIDs(s, env.limits, env.random, step.op.roomID, step.op.definition, step.reading);
    var s' := Next(s, env, step);
    forall r | r in s'.heap ensures DrawnIn(env.random, 0, s'.drawn, s'.heap[r].id) {
      if r in s.heap && s'.heap[r] == s.heap[r] {
        DrawnLater(env.random, s.drawn, s'.drawn, s.heap[r].id);
      } else {
        DrawnWider(env.random, s.drawn, 0, s'.drawn, s'.heap[r].id);
      }
    }
    forall id | id in s'.bindingsByID
      ensures DrawnIn(env.random, 0, s'.drawn, id)
    {
      DrawnLater(env.random, s.drawn, s'.drawn, id);
    }
  }

  /** Where the identifiers of a state come from after a step that creates nothing. */
  ghost predicate SameSources(s: State, s': State, random: Random) {
    && (forall r | r in s'.heap :: r in s.heap && s'.heap[r].id == s.heap[r].id)
    && BindsDrawn(s, s', random)
  }

  lemma BindingBack(s: State, s': State, limits: Limits, id: Bytes, now: int)
    requires Inv(s, limits) && Inv(s', limits) && Evolves(s, s', now) && id in s'.bindingsByID
    ensures id in s.bindingsByID
  {
    hide Inv;
    BindingIndexed(s', limits, id);
    var r := s'.bindingsByID[id];
    if r in s.heap {
      assert GrantEvolves(s.heap[r], s'.heap[r], now);
      BindingOwner(s, limits, r);
    }
  }

  lemma EvolvedSources(s: State, s': State, limits: Limits, random: Random, now: int)
    requires Inv(s, limits) && Inv(s', limits) && Evolves(s, s', now) && s'.nextRef == s.nextRef
    ensures SameSources(s, s', random)
  {
    hide Inv, DrawnIn;
    RefsBelowNext(s', limits);
    forall id | id in s'.bindingsByID ensures id in s.bindingsByID { BindingBack(s, s', limits, id, now); }
  }

  lemma ReboundSources(s: State, s': State, limits: Limits, random: Random, r: Ref, now: int)
    requires Inv(s, limits) && Inv(s', limits) && Rebinds(s, s', r, now)
    requires r in s'.heap && s'.heap[r].binding.Some? && DrawnIn(random, s.drawn, s'.drawn, s'.heap[r].binding.value.id)
    ensures SameSources(s, s', random)
  {
    hide Inv, DrawnIn;
    forall id | id in s'.bindingsByID && id !in s.bindingsByID ensures DrawnIn(random, s.drawn, s'.drawn, id) {
      BindingIndexed(s', limits, id);
      var q := s'.bindingsByID[id];
      if q != r { BindingOwner(s, limits, q); }
    }
  }

  lemma EndedSources(s: State, s': State, limits: Limits, random: Random, id: string)
    requires Inv(s, limits) && Inv(s', limits) && Ends(s, s', id)
    ensures SameSources(s, s', random)
  {
    hide Inv, DrawnIn;
    forall c | c in s'.bindingsByID ensures c in s.bindingsByID {
      BindingIndexed(s', limits, c);
      BindingOwner(s, limits, s'.bindingsByID[c]);
    }
  }

  lemma AuthenticateSources(s: State, env: Env, step: Step)
    requires Inv(s, env.limits) && env.limits.Valid() && step.op.OnAuthenticate?
    ensures SameSources(s, Next(s, env, step), env.random)
  {
    hide Inv, Authenticate, Evolves, Rebinds, DrawnIn, SameSources;
    var request, now := step.op.authenticate, step.reading.mono;
    AuthenticateKeepsInv(s, env.limits, env.hmac, env.random, request, step.reading);
    AuthenticateOutcome(s, env, request, step.reading);
    AuthenticateOnward(s, env.limits, env.hmac, env.random, request, step.reading);
    var (s', answer) := Authenticate(s, env.limits, env.hmac, env.random, request, step.reading);
    if Evolves(s, s', now) {
      EvolvedSources(s, s', env.limits, env.random, now);
    } else {
      var r := s.candidatesByID[request.candidateID];
      RebindsChanges(s, s', r, now);
      ReboundSources(s, s', env.limits, env.random, r, now);
    }
  }

  lemma RebindsChanges(s: State, s': State, r: Ref, now: int)
    requires Rebinds(s, s', r, now)
    ensures r in s'.heap && s'.heap != s.heap
  {
    assert NextGeneration(s.heap[r].generation) != s.heap[r].generation;
  }

  lemma OtherSources(s: State, env: Env, step: Step)
    requires Inv(s, env.limits) && env.limits.Valid() && !step.op.OnCreate?
    ensures SameSources(s, Next(s, env, step), env.random)
  {
    hide Inv, Next, Evolves, Rebinds, Ends, SameSources;
    StepKeepsInv(s, env, step);
    StepOnward(s, env, step);
    var s' := Next(s, env, step);
    if step.op.OnAuthenticate? {
      AuthenticateSources(s, env, step);
    } else if Evolves(s, s', step.reading.mono) {
      EvolvedSources(s, s', env.limits, env.random, step.reading.mono);
    } else {
      EndedSources(s, s', env.limits, env.random, step.op.ended);
    }
  }

  /** With a stream that never repeats a value, every step is fresh, identifiers stay drawn,
      and only a new draw names a new binding. */
  lemma StepDraws(s: State, env: Env, step: Step)
    requires Inv(s, env.limits) && env.limits.Valid() && NonRepeating(env.random) && IDsDrawn(s, env.random)
    ensures FreshStep(s, env, step)
    ensures IDsDrawn(Next(s, env, step), env.random) && BindsDrawn(s, Next(s, env, step), env.random)
    ensures s.drawn <= Next(s, env, step).drawn
  {
    hide Inv, Next, DrawnIn, NonRepeating, Created, DrawsFresh;
    if step.op.OnCreate? {
      DrawsAreFresh(s, env.random, |step.op.definition.participants|);
      CreateDraws(s, env, step);
    } else {
      StepOnward(s, env, step);
      OtherSources(s, env, step);
      var s' := Next(s, env, step);
      forall r | r in s'.heap
        ensures DrawnIn(env.random, 0, s'.drawn, s'.heap[r].id)
      {
        DrawnLater(env.random, s.drawn, s'.drawn, s.heap[r].id);
      }
      forall id | id in s'.bindingsByID ensures DrawnIn(env.random, 0, s'.drawn, id) {
        if id in s.bindingsByID { DrawnLater(env.random, s.drawn, s'.drawn, id); } else {
          DrawnWider(env.random, s.drawn, 0, s'.drawn, id);
        }
      }
    }
  }

  // ---------------------------------------------------------------- runs

  /** Every run is fresh, and no binding identifier in use is ever bound again. */
  lemma {:induction false} RunsAreFresh(s: State, env: Env, steps: seq<Step>)
    requires Inv(s, env.limits) && env.limits.Valid() && NonRepeating(env.random) && IDsDrawn(s, env.random)
    ensures FreshRun(s, env, steps)
    ensures IDsDrawn(Run(s, env, steps), env.random)
    decreases |steps|
  {
    hide Inv, Next, NonRepeating, IDsDrawn, FreshStep;
    if steps != [] {
      StepDraws(s, env, steps[0]);
      StepKeepsInv(s, env, steps[0]);
      RunsAreFresh(Next(s, env, steps[0]), env, steps[1..]);
    }
  }

  lemma {:induction false} NeverRedrawn(s: State, env: Env, steps: seq<Step>, id: Bytes)
    requires Inv(s, env.limits) && env.limits.Valid() && NonRepeating(env.random) && IDsDrawn(s, env.random)
    requires DrawnIn(env.random, 0, s.drawn, id)
    ensures FreshRun(s, env, steps) && !Redraws(s, env, steps, id)
    decreases |steps|
  {
    RunsAreFresh(s, env, steps);
    hide Inv, Next, NonRepeating, IDsDrawn, FreshStep, DrawnIn;
    if steps != [] {
      StepDraws(s, env, steps[0]);
      StepKeepsInv(s, env, steps[0]);
      var s1 := Next(s, env, steps[0]);
      NotDrawnAgain(env.random, s.drawn, s1.drawn, id);
      DrawnLater(env.random, s.drawn, s1.drawn, id);
      NeverRedrawn(s1, env, steps[1..], id);
    }
  }

  lemma NothingDrawn(limits: Limits, random: Random)
    ensures IDsDrawn(Init(limits), random)
  {
  }

  /** All runs of a new store over a stream that never repeats a value: the invariant holds at
      the end, and what was admitted under a binding is served by fan-out only while that very
      binding is in place. */
  lemma AllRuns(env: Env, earlier: seq<Step>, later: seq<Step>, r: Ref, sequence: nat, outputBytes: int, now: int)
    requires env.limits.Valid() && NonRepeating(env.random)
    ensures Inv(Init(env.limits), env.limits) && FreshRun(Init(env.limits), env, earlier)
    ensures var s := Run(Init(env.limits), env, earlier);
      && FreshRun(s, env, later)
      && Inv(Run(s, env, later), env.limits)
      && (r in s.heap && s.heap[r].binding.Some? ==>
            var t := Run(s, env, later);
            var (t', answer) := AdmitFanout(t, env.limits, AdmittedBy(s, r, sequence), outputBytes, now);
            FanoutVerdict(s.heap[r].binding.value, t, t', r, sequence, outputBytes, answer, now))
  {
    hide Inv, Next, NonRepeating, FreshRun, Run, AdmitFanout, FanoutVerdict, FanoutOutcome, Redraws;
    InitOK(env.limits);
    NothingDrawn(env.limits, env.random);
    RunsAreFresh(Init(env.limits), env, earlier);
    var s := Run(Init(env.limits), env, earlier);
    RunsAreFresh(s, env, later);
    if r in s.heap && s.heap[r].binding.Some? {
      BindingOwner(s, env.limits, r);
      NeverRedrawn(s, env, later, s.heap[r].binding.value.id);
      StaleIsRefused(s, env, later, r, sequence, outputBytes, now);
    }
  }

  // ---------------------------------------------------------------- for other callers of the store

  /** Creating a room over such a stream keeps the invariant. */
  lemma CreateIsSound(s: State, limits: Limits, random: Random, id: string, d: Definition, reading: ClockReading)
    requires Inv(s, limits) && limits.Valid() && NonRepeating(random) && IDsDrawn(s, random)
    ensures forall r | r in s.rooms :: Resident(s, s.rooms[r].grants)
    ensures DrawsFresh(s, random, |d.participants|)
    ensures IDsDrawn(CreateRoom(s, limits, random, id, d, reading).0, random)
  {
    hide Inv, CreateRoom, DrawsFresh, NonRepeating, IDsDrawn;
    RoomsResident(s, limits);
    DrawsAreFresh(s, random, |d.participants|);
    CreateDraws(s, Env(limits, AnyHmac, random), Step(OnCreate(id, d), reading));
  }

  function AnyHmac(key: Bytes, message: Bytes): Bytes { [] }

  lemma EndIsSound(s: State, limits: Limits, random: Random, id: string, reading: ClockReading)
    requires Inv(s, limits) && limits.Valid() && NonRepeating(random) && IDsDrawn(s, random)
    ensures forall r | r in s.rooms :: Resident(s, s.rooms[r].grants)
    ensures IDsDrawn(EndRoom(s, limits, id, reading.mono).0, random)
  {
    hide Inv, EndRoom, NonRepeating, IDsDrawn, FreshStep;
    RoomsResident(s, limits);
    StepDraws(s, Env(limits, AnyHmac, random), Step(OnEnd(id), reading));
  }
}
