/** What the store reads from its random stream, and for what: every identifier, nonce and
    secret is a read of its own. */
module StoreDraws {
  import opened Prelude
  import opened Admission
  import opened Definitions
  import opened Transcript
  import opened StoreModel
  import opened StoreDeletion
  import opened StoreAdmission
  import opened StoreInvariant
  import opened StoreRooms
  import opened StoreCreation
  import opened StoreHandshake

  // ---------------------------------------------------------------- identifiers

  /** Of the reads from `at` on, number `k` is the first that is not taken, and none before it
      failed. */
  ghost predicate FirstFree(random: Random, at: nat, taken: set<Bytes>, k: nat) {
    && (forall read: nat | at <= read < at + k :: random(read).Some? && random(read).value in taken)
    && random(at + k).Some? && random(at + k).value !in taken
  }

  lemma {:induction false} UniqueIDReads(random: Random, at: nat, taken: set<Bytes>, tries: nat)
    ensures var (id, next) := UniqueID(random, at, taken, tries);
      && (id.Some? ==> at < next <= at + tries && FirstFree(random, at, taken, next - 1 - at) && id == random(next - 1))
      && (id.None? ==> forall k: nat | k < tries :: !FirstFree(random, at, taken, k))
    decreases tries
  {
    if tries > 0 && random(at).Some? && random(at).value in taken {
      UniqueIDReads(random, at + 1, taken, tries - 1);
      if UniqueID(random, at, taken, tries).0.None? {
        forall k: nat | k < tries ensures !FirstFree(random, at, taken, k) {
          assert k > 0 ==> !FirstFree(random, at + 1, taken, k - 1);
        }
      }
    }
  }

  /** An identifier is the first of at most nine reads that is not taken, and there is none
      exactly if a read fails before it or all nine are taken. */
  lemma UniqueIDExactly(random: Random, at: nat, taken: set<Bytes>)
    ensures Draws(random, at, taken) <==> exists k: nat :: k < 9 && FirstFree(random, at, taken, k)
    ensures var (id, next) := UniqueID(random, at, taken, 9);
      id.Some? ==> at < next <= at + 9 && FirstFree(random, at, taken, next - 1 - at) && id == random(next - 1)
  {
    UniqueIDReads(random, at, taken, 9);
    hide UniqueID, FirstFree;
    if Draws(random, at, taken) {
      var next := UniqueID(random, at, taken, 9).1;
      assert FirstFree(random, at, taken, next - 1 - at);
    }
  }

  // ---------------------------------------------------------------- challenges

  /** The last two reads of a step were this identifier and this nonce. */
  ghost predicate LastTwo(random: Random, before: nat, after: nat, first: Bytes, second: Bytes) {
    before + 2 <= after && random(after - 2) == Some(first) && random(after - 1) == Some(second)
  }

  lemma IssuedReads(s: State, limits: Limits, random: Random, r: Ref, request: ChallengeRequest, reading: ClockReading)
    requires r in s.heap && s.heap[r].roomID in s.rooms
    requires IssueChallenge(s, limits, random, r, request, reading).1.Admit?
    ensures var (s', answer) := IssueChallenge(s, limits, random, r, request, reading);
      LastTwo(random, s.drawn, s'.drawn, answer.value.candidateID, answer.value.serverNonce)
  {
    hide ProjectWireExpiryUnixMS, WithPending, Put, UniqueID;
    UniqueIDIsFree(random, s.drawn, s.candidatesByID.Keys, ID_DRAWS);
    IssuedPending(s, limits, random, r, request, reading);
  }

  /** A challenge issued anew carries two reads that were used for nothing before: its identifier
      and its nonce. */
  lemma ChallengeIsRead(s: State, limits: Limits, random: Random, request: ChallengeRequest, reading: ClockReading)
    requires Inv(s, limits) && limits.Valid() && BeginChallenge(s, limits, random, request, reading).1.Admit?
    ensures request.grantID in s.grantsByID && s.grantsByID[request.grantID] in s.heap
    ensures var (s', answer) := BeginChallenge(s, limits, random, request, reading);
      if PendingAlive(s.heap[s.grantsByID[request.grantID]], reading.mono) then s'.drawn == s.drawn
      else LastTwo(random, s.drawn, s'.drawn, answer.value.candidateID, answer.value.serverNonce)
  {
    hide Inv, ChargePreauth, LiveAuthority, IssueChallenge, Evolves, SameElsewhere, ExpireRelay, ExpiredRelay, GrantOK,
         LastTwo;
    var now := reading.mono;
    ChargePreauthKeepsInv(s, limits, request.endpoint, request.inputBytes, now);
    var s1 := ChargePreauth(s, limits, request.endpoint, request.inputBytes, now).0;
    var r := s.grantsByID[request.grantID];
    GrantsIndexed(s, limits, request.grantID);
    LiveAuthorityKeepsInv(s1, limits, r, now);
    GrantFacts(s1, limits, r);
    GrantHolds(s1, limits, r);
    ExpiredRelayHandshakes(s1.heap[r], s1.rooms[s1.heap[r].roomID], now);
    ExpireRelayState(s1, r, now);
    var s2 := ExpireRelay(s1, r, now);
    if !PendingAlive(s.heap[r], now) { IssuedReads(s2, limits, random, r, request, reading); }
  }

  // ---------------------------------------------------------------- bindings

  lemma CompletedReads(s: State, limits: Limits, hmac: Hmac, random: Random, r: Ref, request: AuthenticateRequest,
      reading: ClockReading)
    requires r in s.heap && s.heap[r].secret.Some? && s.heap[r].roomID in s.rooms
    requires CompletePending(s, limits, hmac, random, r, request, reading).1.Admit?
    ensures var (s', answer) := CompletePending(s, limits, hmac, random, r, request, reading);
      s.drawn < s'.drawn && random(s'.drawn - 1) == Some(answer.value.bindingID)
  {
    hide Complete, AuthTagOf, ClearedPending;
    PendingVerdict(hmac, s.heap[r], request, reading.mono);
    UniqueIDIsFree(random, s.drawn, s.bindingsByID.Keys, ID_DRAWS);
    CompletedPut(s, limits, hmac, random, r, request.endpoint, reading);
  }

  /** A first completion names its binding by a read that was used for nothing before; a repeated
      one reads nothing. */
  lemma BindingIsRead(s: State, limits: Limits, hmac: Hmac, random: Random, request: AuthenticateRequest,
      reading: ClockReading)
    requires Inv(s, limits) && limits.Valid() && Authenticate(s, limits, hmac, random, request, reading).1.Admit?
    ensures request.candidateID in s.candidatesByID && s.candidatesByID[request.candidateID] in s.heap
    ensures var (s', answer) := Authenticate(s, limits, hmac, random, request, reading);
      var g := s.heap[s.candidatesByID[request.candidateID]];
      if g.recent.Some? && g.recent.value.candidateID == request.candidateID then s'.drawn == s.drawn
      else s.drawn < s'.drawn && random(s'.drawn - 1) == Some(answer.value.bindingID)
  {
    hide Inv, ChargePreauth, LiveAuthority, RecallRefusal, CompletePending, Evolves, SameElsewhere, CandidateIDs;
    var now := reading.mono;
    ChargePreauthKeepsInv(s, limits, request.endpoint, request.inputBytes, now);
    var s1 := ChargePreauth(s, limits, request.endpoint, request.inputBytes, now).0;
    var r := s.candidatesByID[request.candidateID];
    CandidateIndexed(s, limits, request.candidateID);
    LiveAuthorityKeepsInv(s1, limits, r, now);
    GrantFacts(s1, limits, r);
    LiveIffSecret(s1, limits, r);
    if !(s1.heap[r].recent.Some? && s1.heap[r].recent.value.candidateID == request.candidateID) {
      CompletedReads(s1, limits, hmac, random, r, request, reading);
    }
  }

  // ---------------------------------------------------------------- grants

  /** Each credential is two reads in a row, an identifier and a secret, and no two credentials
      share a read. */
  ghost predicate AreReads(random: Random, credentials: seq<Credential>, places: seq<nat>, from: nat, to: nat) {
    && |places| == |credentials|
    && (forall i | 0 <= i < |places| :: from <= places[i] && places[i] + 2 <= to
          && random(places[i]) == Some(credentials[i].id) && random(places[i] + 1) == Some(credentials[i].secret))
    && (forall i, j | 0 <= i < j < |places| :: places[i] + 2 <= places[j])
  }

  lemma {:induction false} CredentialsAreReads(random: Random, at: nat, taken: set<Bytes>, n: nat)
    returns (places: seq<nat>)
    ensures var (credentials, next) := DrawCredentials(random, at, taken, n);
      at <= next && (credentials.Some? ==> AreReads(random, credentials.value, places, at, next))
    decreases n
  {
    hide UniqueID;
    places := [];
    if n > 0 {
      var (id, next) := UniqueID(random, at, taken, ID_DRAWS);
      UniqueIDIsFree(random, at, taken, ID_DRAWS);
      if id.Some? && random(next).Some? {
        var rest := CredentialsAreReads(random, next + 1, taken + {id.value}, n - 1);
        places := [next - 1] + rest;
      }
    }
  }

  /** The identifier and the secret of every grant of a new room are reads of their own, which were
      used for nothing before. */
  lemma GrantsAreReads(s: State, limits: Limits, random: Random, id: string, d: Definition, reading: ClockReading)
    returns (places: seq<nat>, credentials: seq<Credential>)
    requires Inv(s, limits)
    ensures forall r | r in s.rooms :: Resident(s, s.rooms[r].grants)
    ensures var (s', result) := CreateRoom(s, limits, random, id, d, reading);
      result.Ok? && result.value.1 ==>
        && AreReads(random, credentials, places, s.drawn, s'.drawn) && |result.value.0.grants| == |credentials|
        && forall i | 0 <= i < |credentials| ::
             && result.value.0.grants[i].grantID == credentials[i].id
             && result.value.0.grants[i].grantSecret == Some(credentials[i].secret)
  {
    hide Inv, CreateRoom, AreReads, DrawCredentials, Allocated, AllocationAt;
    RoomsResident(s, limits);
    CreatedAllocates(s, limits, random, id, d, reading);
    places := CredentialsAreReads(random, s.drawn, s.grantsByID.Keys, |d.participants|);
    var (s', result) := CreateRoom(s, limits, random, id, d, reading);
    credentials := [];
    if result.Ok? && result.value.1 {
      credentials := NextCredentials(s, random, |d.participants|).value;
      CreatedDraws(s, limits, random, id, d, reading);
    }
  }

  lemma CreatedDraws(s: State, limits: Limits, random: Random, id: string, d: Definition, reading: ClockReading)
    requires Inv(s, limits)
    ensures forall r | r in s.rooms :: Resident(s, s.rooms[r].grants)
    ensures var (s', result) := CreateRoom(s, limits, random, id, d, reading);
      result.Ok? && result.value.1 ==>
        s'.drawn == DrawCredentials(random, s.drawn, s.grantsByID.Keys, |d.participants|).1
  {
    hide Inv, ValidParticipants, Sort, AccessTerminal, SameDefinition, AllocationAt, AddRoom, DrawCredentials,
         DeadlinesFit, Full, DistinctCredentials, NextCredentials;
    RoomsResident(s, limits);
    if Canonical(id, d, limits).Ok? && !(id in s.rooms && !Stale(s.rooms[id], reading.mono)) {
      var c := Canonical(id, d, limits).value;
      var s1 := DropStale(s, id, reading.mono);
      CanonicalSize(id, d, limits);
      DropStaleFrame(s, id, reading.mono);
      CredentialsAreFree(random, s1.drawn, s1.grantsByID.Keys, |c.participants|);
      AllocateDraws(s1, limits, random, id, c, reading);
    }
  }

  lemma AllocateDraws(s: State, limits: Limits, random: Random, id: string, d: Definition, reading: ClockReading)
    ensures var (s', result) := AllocateRoom(s, limits, random, id, d, reading);
      result.Ok? ==> s'.drawn == DrawCredentials(random, s.drawn, s.grantsByID.Keys, |d.participants|).1
  {
    hide DrawCredentials, DeadlinesFit, Full, DistinctCredentials, NewHeap, NewIndex, NewLimiters, NewRefs,
         AllocationAt, SessionNames, RoomNames;
    CredentialsAreFree(random, s.drawn, s.grantsByID.Keys, |d.participants|);
  }
}
