/** What the control side asks of the store: creating, reading, ending and sweeping rooms. */
module StoreRooms {
  import opened Prelude
  import opened RateLimit
  import opened Admission
  import opened Identifier
  import opened Definitions
  import opened StoreModel
  import opened StoreDeletion
  import opened StoreAdmission

  // ---------------------------------------------------------------- reading

  datatype GrantAllocation = GrantAllocation(
    participantID: string, sessionID: string, grantID: Bytes, grantSecret: Option<Bytes>, grantExpiresAt: int,
      state: GrantState)

  datatype Allocation = Allocation(roomID: string, createdAt: int, expiresAt: int, capacity: nat,
      grants: seq<GrantAllocation>)

  datatype ParticipantSnapshot = ParticipantSnapshot(
    participantID: string, sessionID: string, grantExpiresAt: int, grantState: GrantState, bindingState: BindingState)

  datatype RoomSnapshot = RoomSnapshot(
    roomID: string, createdAt: int, expiresAt: int, capacity: nat, participants: seq<ParticipantSnapshot>)

  function GrantStateAt(g: Grant, now: int): GrantState {
    if Live(g) && now >= g.monoDeadline then GrantState.Expired
    else if g.state.Bound? && g.binding.Some? && now >= g.binding.value.deadline then Issued
    else g.state
  }

  function GrantAllocationAt(g: Grant, now: int): GrantAllocation {
    var state := GrantStateAt(g, now);
    GrantAllocation(g.participantID, g.sessionID, g.id, if state.Issued? || state.Bound? then g.secret
      else None, g.expiresAt, state)
  }

  function ParticipantAt(g: Grant, now: int): ParticipantSnapshot {
    var state := GrantStateAt(g, now);
    var (grantState, bindingState) :=
      if state.Expired? then (state, BindingExpired)
      else if state.Revoked? then (state, BindingRevoked)
      else if g.binding.None? then (state, g.bindingState)
      else if now >= g.binding.value.deadline then (Issued, BindingExpired)
      else if g.pending.Some? && now < g.pending.value.deadline then (state, RebindPending)
      else (state, Current);
    ParticipantSnapshot(g.participantID, g.sessionID, g.expiresAt, grantState, bindingState)
  }

  ghost predicate Resident(s: State, refs: seq<Ref>) { forall i | 0 <= i < |refs| :: refs[i] in s.heap }

  function AllocationAt(s: State, id: string, now: int): Allocation
    requires id in s.rooms && Resident(s, s.rooms[id].grants)
  {
    var room := s.rooms[id];
    Allocation(id, room.createdAt, room.expiresAt, room.capacity,
               seq(|room.grants|, i requires 0 <= i < |room.grants| => GrantAllocationAt(s.heap[room.grants[i]], now)))
  }

  function SnapshotAt(s: State, id: string, now: int): RoomSnapshot
    requires id in s.rooms && Resident(s, s.rooms[id].grants)
  {
    var room := s.rooms[id];
    RoomSnapshot(id, room.createdAt, room.expiresAt, room.capacity,
                 seq(|room.grants|, i requires 0 <= i < |room.grants| => ParticipantAt(s.heap[room.grants[i]], now)))
  }

  /** The latest deadline of the listed grants. */
  function LastDeadline(s: State, refs: seq<Ref>): int
    requires Resident(s, refs)
  {
    if refs == [] then 0
    else if |refs| == 1 then s.heap[refs[0]].monoDeadline
    else
      var rest := LastDeadline(s, refs[..|refs| - 1]);
      var last := s.heap[refs[|refs| - 1]].monoDeadline;
      if last > rest then last else rest
  }

  lemma {:induction false} LastDeadlineIsMax(s: State, refs: seq<Ref>)
    requires Resident(s, refs) && refs != []
    ensures forall i | 0 <= i < |refs| :: s.heap[refs[i]].monoDeadline <= LastDeadline(s, refs)
    ensures exists i :: 0 <= i < |refs| && s.heap[refs[i]].monoDeadline == LastDeadline(s, refs)
    decreases |refs|
  {
    if |refs| == 1 {
      assert s.heap[refs[0]].monoDeadline == LastDeadline(s, refs);
    } else {
      var front := refs[..|refs| - 1];
      LastDeadlineIsMax(s, front);
      var i :| 0 <= i < |front| && s.heap[front[i]].monoDeadline == LastDeadline(s, front);
      assert refs[i] == front[i];
      forall k | 0 <= k < |front|
        ensures s.heap[refs[k]].monoDeadline <= LastDeadline(s, front)
      {
        assert refs[k] == front[k];
      }
      if s.heap[refs[|front|]].monoDeadline > LastDeadline(s, front) {
        assert s.heap[refs[|front|]].monoDeadline == LastDeadline(s, refs);
      } else {
        assert s.heap[refs[i]].monoDeadline == LastDeadline(s, refs);
      }
    }
  }

  lemma {:induction false} LastDeadlineDepends(s: State, s': State, refs: seq<Ref>)
    requires Resident(s, refs) && Resident(s', refs)
    requires forall i | 0 <= i < |refs| :: s'.heap[refs[i]].monoDeadline == s.heap[refs[i]].monoDeadline
    ensures LastDeadline(s', refs) == LastDeadline(s, refs)
    decreases |refs|
  {
    if |refs| > 1 {
      assert forall i | 0 <= i < |refs| - 1 :: refs[..|refs| - 1][i] == refs[i];
      LastDeadlineDepends(s, s', refs[..|refs| - 1]);
    }
  }

  function AccessTerminal(s: State, id: string, now: int): bool
    requires id in s.rooms && Resident(s, s.rooms[id].grants)
  {
    !s.rooms[id].state.Open? || now >= s.rooms[id].monoDeadline || now >= LastDeadline(s, s.rooms[id].grants)
  }

  function GetRoom(s: State, id: string, now: int): Result<RoomSnapshot, StoreError>
    requires forall r | r in s.rooms :: Resident(s, s.rooms[r].grants)
  {
    if !ValidID(id) then Err(ErrInvalid)
    else if id !in s.rooms || AccessTerminal(s, id, now) then Err(ErrNotFound)
    else Ok(SnapshotAt(s, id, now))
  }

  // ---------------------------------------------------------------- creating

  datatype Credential = Credential(id: Bytes, secret: Bytes)

  /** Draw `n` grant identifiers, none taken, and their secrets. */
  function DrawCredentials(random: Random, at: nat, taken: set<Bytes>, n: nat): (Option<seq<Credential>>, nat)
    decreases n
  {
    if n == 0 then (Some([]), at)
    else
      var (id, next) := UniqueID(random, at, taken, ID_DRAWS);
      if id.None? then (None, next)
      else match random(next)
        case None => (None, next + 1)
        case Some(secret) =>
          var (rest, last) := DrawCredentials(random, next + 1, taken + {id.value}, n - 1);
          (if rest.Some? then Some([Credential(id.value, secret)] + rest.value) else None, last)
  }

  ghost predicate FreeCredentials(credentials: seq<Credential>, taken: set<Bytes>, n: nat) {
    |credentials| == n && (forall i | 0 <= i < n :: credentials[i].id !in taken) && DistinctCredentials(credentials)
  }

  lemma FirstIsFree(first: Credential, rest: seq<Credential>, taken: set<Bytes>, n: nat)
    requires first.id !in taken && FreeCredentials(rest, taken + {first.id}, n)
    ensures FreeCredentials([first] + rest, taken, n + 1)
  {
  }

  lemma {:induction false} CredentialsAreFree(random: Random, at: nat, taken: set<Bytes>, n: nat)
    ensures var (credentials, next) := DrawCredentials(random, at, taken, n);
      credentials.Some? ==> FreeCredentials(credentials.value, taken, n)
    decreases n
  {
    hide UniqueID, DistinctCredentials;
    if n > 0 {
      var (id, next) := UniqueID(random, at, taken, ID_DRAWS);
      UniqueIDIsFree(random, at, taken, ID_DRAWS);
      if id.Some? && random(next).Some? {
        CredentialsAreFree(random, next + 1, taken + {id.value}, n - 1);
        var rest := DrawCredentials(random, next + 1, taken + {id.value}, n - 1).0;
        if rest.Some? { FirstIsFree(Credential(id.value, random(next).value), rest.value, taken, n - 1); }
      }
      hide FreeCredentials;
    } else {
      NoneAreFree(taken);
    }
  }

  lemma NoneAreFree(taken: set<Bytes>)
    ensures FreeCredentials([], taken, 0)
  {
  }

  predicate SameDefinition(s: State, id: string, d: Definition)
    requires id in s.rooms
  {
    var room := s.rooms[id];
    && room.capacity == d.capacity && room.expiresAt == d.expiresAt && |room.grants| == |d.participants|
    && forall i | 0 <= i < |d.participants| ::
         && room.grants[i] in s.heap
         && var g := s.heap[room.grants[i]];
            g.participantID == d.participants[i].participantID && g.sessionID == d.participants[i].sessionID
            && g.expiresAt == d.participants[i].grantExpiresAt
  }

  /** The monotonic deadline of a wall-clock expiry, if it is in the future and near enough. */
  function DeadlineWithin(expiresAt: int, reading: ClockReading, maxTTL: nat): Option<int> {
    var ttl := SubTime(expiresAt, reading.wall);
    if ttl > maxTTL then None else DeadlineAfter(reading.mono, ttl)
  }

  predicate DeadlinesFit(d: Definition, limits: Limits, reading: ClockReading) {
    && DeadlineWithin(d.expiresAt, reading, limits.maxRoomTTL).Some?
    && forall i | 0 <= i < |d.participants| ::
       DeadlineWithin(d.participants[i].grantExpiresAt, reading, limits.maxGrantTTL).Some?
  }

  function NewGrant(id: string, p: Participant, c: Credential, deadline: int): Grant {
    Grant(id, p.participantID, p.sessionID, c.id, Some(c.secret), p.grantExpiresAt, deadline, Issued, Unbound, 0, None,
      None, None)
  }

  function NewLimiters(limits: Limits, names: set<LimiterName>): map<LimiterName, Bucket> {
    map n | n in names :: limits.New(n)
  }

  function SessionNames(refs: seq<Ref>): set<LimiterName> {
    (set r | r in refs :: SessionPackets(r)) + (set r | r in refs :: SessionBytes(r))
  }

  function RoomNames(id: string): set<LimiterName> {
    {RoomIngressPackets(id), RoomIngressBytes(id), RoomFanoutWrites(id), RoomFanoutBytes(id)}
  }

  function NewRefs(base: Ref, n: nat): seq<Ref> { seq(n, i requires 0 <= i < n => base + i) }

  function NewHeap(id: string, d: Definition, credentials: seq<Credential>, base: Ref, limits: Limits,
      reading: ClockReading): map<Ref, Grant>
    requires |credentials| == |d.participants| && DeadlinesFit(d, limits, reading)
  {
    var refs := NewRefs(base, |credentials|);
    map r | r in refs ::
      NewGrant(id, d.participants[r - base], credentials[r - base],
               DeadlineWithin(d.participants[r - base].grantExpiresAt, reading, limits.maxGrantTTL).value)
  }

  ghost predicate DistinctCredentials(credentials: seq<Credential>) {
    forall i, j | 0 <= i < j < |credentials| :: credentials[i].id != credentials[j].id
  }

  /** Each new grant, by its identifier. */
  function NewIndex(credentials: seq<Credential>, base: Ref): map<Bytes, Ref> {
    if credentials == [] then map[]
    else
      var last := |credentials| - 1;
      NewIndex(credentials[..last], base)[credentials[last].id := base + last]
  }

  /** The room record and its grants enter the store. */
  function AddRoom(s: State, limits: Limits, id: string, d: Definition, credentials: seq<Credential>,
      reading: ClockReading): State
    requires |credentials| == |d.participants| && DeadlinesFit(d, limits, reading)
  {
    var n := |credentials|;
    var base := s.nextRef;
    s.(rooms := s.rooms[id := Room(Open, d.capacity, reading.wall, d.expiresAt,
                                   DeadlineWithin(d.expiresAt, reading, limits.maxRoomTTL).value,
                                   NewRefs(base, n), 0)],
       heap := s.heap + NewHeap(id, d, credentials, base, limits, reading),
       grantsByID := s.grantsByID + NewIndex(credentials, base),
       openRooms := s.openRooms + 1,
       activeSessions := s.activeSessions + n,
       gate := s.gate.(buckets := s.gate.buckets + NewLimiters(limits, SessionNames(NewRefs(base, n)) + RoomNames(id))),
       nextRef := base + n)
  }

  predicate Full(s: State, limits: Limits, n: nat) {
    s.openRooms >= limits.maxOpenRooms || |s.rooms| >= limits.maxRoomRecords
      || s.activeSessions > limits.maxActiveSessions - n
  }

  /** Create the room of a canonical definition under an unused identifier. */
  function AllocateRoom(s: State, limits: Limits, random: Random, id: string, d: Definition, reading: ClockReading)
    : (State, Result<(Allocation, bool), StoreError>)
  {
    if !DeadlinesFit(d, limits, reading) then (s, Err(ErrInvalid))
    else if Full(s, limits, |d.participants|) then (s, Err(ErrCapacity))
    else
      var (credentials, next) := DrawCredentials(random, s.drawn, s.grantsByID.Keys, |d.participants|);
      CredentialsAreFree(random, s.drawn, s.grantsByID.Keys, |d.participants|);
      var s1 := s.(drawn := next);
      if credentials.None? then (s1, Err(ErrFatalRandom))
      else
        var s2 := AddRoom(s1, limits, id, d, credentials.value, reading);
        (s2, Ok((AllocationAt(s2, id, reading.mono), true)))
  }

  /** A tombstone whose deadline has passed is as good as absent. */
  predicate Stale(room: Room, now: int) { room.state.Tombstone? && now >= room.tombstoneDeadline }

  function DropStale(s: State, id: string, now: int): State {
    if id in s.rooms && Stale(s.rooms[id], now) then s.(rooms := s.rooms - {id}) else s
  }

  ghost function CreateRoom(s: State, limits: Limits, random: Random, id: string, d: Definition, reading: ClockReading)
    : (State, Result<(Allocation, bool), StoreError>)
    requires forall r | r in s.rooms :: Resident(s, s.rooms[r].grants)
  {
    match Canonical(id, d, limits)
    case Err(error) => (s, Err(error))
    case Ok(c) =>
      if id in s.rooms && !Stale(s.rooms[id], reading.mono) then
        if s.rooms[id].state.Open? && !AccessTerminal(s, id, reading.mono) && SameDefinition(s, id, c)
        then (s, Ok((AllocationAt(s, id, reading.mono), false)))
        else (s, Err(ErrConflict))
      else AllocateRoom(DropStale(s, id, reading.mono), limits, random, id, c, reading)
  }

  // ---------------------------------------------------------------- ending and sweeping

  function EndRoom(s: State, limits: Limits, id: string, now: int): (State, bool)
    requires forall r | r in s.rooms :: Resident(s, s.rooms[r].grants)
  {
    if !ValidID(id) then (s, false)
    else if id !in s.rooms then (s, true)
    else if s.rooms[id].state.Tombstone? then (DropStale(s, id, now), true)
    else
      assert Resident(s, s.rooms[id].grants);
      (TombstoneRoom(s, limits, id, now, Revoked), true)
  }

  /** One grant of a swept room. */
  function SweepGrant(s: State, r: Ref, now: int): State
    requires r in s.heap
  {
    var s1 := ExpireRelay(s, r, now);
    if Live(s1.heap[r]) && now >= s1.heap[r].monoDeadline then TerminateGrant(s1, r, GrantState.Expired) else s1
  }

  function SweepGrants(s: State, refs: seq<Ref>, now: int): State
    requires Resident(s, refs)
    decreases |refs|
  {
    if refs == [] then s
    else
      assert forall i | 0 <= i < |refs[1..]| :: refs[1..][i] == refs[i + 1];
      SweepGrants(SweepGrant(s, refs[0], now), refs[1..], now)
  }

  function MarkEmpty(s: State, id: string): State
    requires id in s.rooms
  {
    if s.rooms[id].state.Open? then
      s.(rooms := s.rooms[id := s.rooms[id].(state := Empty)], openRooms := s.openRooms - 1) else s
  }

  ghost predicate RoomGrantsResident(s: State, id: string) { id in s.rooms && Resident(s, s.rooms[id].grants) }

  /** One resident room in the sweep. */
  function SweepRoom(s: State, limits: Limits, id: string, now: int): State
    requires RoomGrantsResident(s, id)
  {
    var room := s.rooms[id];
    if room.state.Tombstone? then DropStale(s, id, now)
    else
      SweepGrantsFrame(s, room.grants, now);
      RetireIfDue(SweepGrants(s, room.grants, now), limits, id, now)
  }

  /** What the sweep makes of one grant record. */
  function Swept(g: Grant, now: int): Grant {
    if Live(g) && now >= g.monoDeadline then Terminated(ExpiredRelay(g, now), GrantState.Expired)
      else ExpiredRelay(g, now)
  }

  lemma ExpiredIdentity(g: Grant, now: int)
    ensures SameIdentity(g, ExpiredRelay(g, now)) && (Live(ExpiredRelay(g, now)) <==> Live(g))
    ensures SameIdentity(g, Swept(g, now)) && (Live(Swept(g, now)) <==> Live(g) && now < g.monoDeadline)
  {
    assert SameIdentity(g, ExpiredRelay(g, now)) && (Live(ExpiredRelay(g, now)) <==> Live(g));
    hide ExpiredRelay, ClearedRelay;
    TerminatedIdentity(ExpiredRelay(g, now));
    hide Terminated;
  }

  lemma TerminatedIdentity(g: Grant)
    ensures SameIdentity(g, Terminated(g, GrantState.Expired)) && !Live(Terminated(g, GrantState.Expired))
  {
  }

  lemma SweepGrantFrame(s: State, r: Ref, now: int)
    requires r in s.heap
    ensures var s' := SweepGrant(s, r, now); SameRooms(s, s') && s'.heap == s.heap[r := Swept(s.heap[r], now)]
  {
    ExpiredIdentity(s.heap[r], now);
    PutSameRooms(s, r, ExpiredRelay(s.heap[r], now));
    var s1 := ExpireRelay(s, r, now);
    PutSameRooms(s1, r, Terminated(s1.heap[r], GrantState.Expired));
    hide Reindex, DropSession, LiveIDs, CandidateIDs, BindingIDs, ExpiredRelay, Terminated;
  }

  lemma {:induction false} SweepGrantsElsewhere(s: State, refs: seq<Ref>, now: int)
    requires Resident(s, refs)
    ensures SameRooms(s, SweepGrants(s, refs, now))
    ensures forall q | q in s.heap && q !in refs :: SweepGrants(s, refs, now).heap[q] == s.heap[q]
    decreases |refs|
  {
    if refs != [] {
      SweepGrantFrame(s, refs[0], now);
      hide SweepGrant, Swept;
      SweepGrantsElsewhere(SweepGrant(s, refs[0], now), refs[1..], now);
    }
  }

  lemma {:induction false} SweepGrantsSwept(s: State, refs: seq<Ref>, now: int, i: nat)
    requires Resident(s, refs) && i < |refs|
    requires forall i, j | 0 <= i < j < |refs| :: refs[i] != refs[j]
    ensures refs[i] in SweepGrants(s, refs, now).heap
      && SweepGrants(s, refs, now).heap[refs[i]] == Swept(s.heap[refs[i]], now)
    decreases |refs|
  {
    var rest := refs[1..];
    var s1 := SweepGrant(s, refs[0], now);
    SweepGrantFrame(s, refs[0], now);
    FirstSwept(s, refs, now);
    hide SweepGrant, SweepGrants, Swept;
    SweepGrantsElsewhere(s1, rest, now);
    if i > 0 {
      assert forall j | 0 <= j < |rest| :: rest[j] == refs[j + 1];
      SweepGrantsSwept(s1, rest, now, i - 1);
      assert refs[i] == rest[i - 1];
    } else {
      assert forall j | 0 <= j < |rest| :: rest[j] != refs[0];
    }
  }

  lemma FirstSwept(s: State, refs: seq<Ref>, now: int)
    requires Resident(s, refs) && refs != []
    ensures var s1 := SweepGrant(s, refs[0], now);
      Resident(s1, refs[1..]) && SweepGrants(s, refs, now) == SweepGrants(s1, refs[1..], now)
  {
    hide ExpireRelay, TerminateGrant;
    SweepGrantFrame(s, refs[0], now);
  }

  lemma SweepGrantsFrame(s: State, refs: seq<Ref>, now: int)
    requires Resident(s, refs)
    ensures SameRooms(s, SweepGrants(s, refs, now))
    ensures forall q | q in s.heap && q !in refs :: SweepGrants(s, refs, now).heap[q] == s.heap[q]
    ensures (forall i, j | 0 <= i < j < |refs| :: refs[i] != refs[j]) ==>
      forall i | 0 <= i < |refs| :: SweepGrants(s, refs, now).heap[refs[i]] == Swept(s.heap[refs[i]], now)
  {
    hide SweepGrants, Swept;
    SweepGrantsElsewhere(s, refs, now);
    if forall i, j | 0 <= i < j < |refs| :: refs[i] != refs[j] {
      forall i | 0 <= i < |refs| ensures SweepGrants(s, refs, now).heap[refs[i]] == Swept(s.heap[refs[i]], now) {
        SweepGrantsSwept(s, refs, now, i);
      }
    }
  }

  lemma SweepGrantKeepsInv(s: State, limits: Limits, r: Ref, now: int)
    requires Inv(s, limits) && r in s.heap
    ensures Inv(SweepGrant(s, r, now), limits) && Evolves(s, SweepGrant(s, r, now), now)
  {
    hide Inv, Evolves, ExpireRelay, TerminateGrant, SameRooms, SameIdentity;
    ExpireKeepsInv(s, limits, r, now);
    var s1 := ExpireRelay(s, r, now);
    ExpireFrame(s, r, now);
    TerminateKeepsInv(s1, limits, r, GrantState.Expired, now);
    RefsBelowNext(s, limits);
    if Live(s1.heap[r]) && now >= s1.heap[r].monoDeadline {
      EvolvesTransitive(s, s1, TerminateGrant(s1, r, GrantState.Expired), now);
    }
  }

  lemma ExpireFrame(s: State, r: Ref, now: int)
    requires r in s.heap
    ensures ExpireRelay(s, r, now).heap == s.heap[r := ExpiredRelay(s.heap[r], now)]
  {
  }

  lemma {:induction false} SweepGrantsKeepsInv(s: State, limits: Limits, refs: seq<Ref>, now: int)
    requires Inv(s, limits) && Resident(s, refs)
    ensures Inv(SweepGrants(s, refs, now), limits) && Evolves(s, SweepGrants(s, refs, now), now)
    decreases |refs|
  {
    hide Inv, Evolves, SweepGrant;
    EvolvesReflexive(s, now);
    if refs != [] {
      var s1 := SweepGrant(s, refs[0], now);
      SweepGrantKeepsInv(s, limits, refs[0], now);
      SweepGrantFrame(s, refs[0], now);
      SweepGrantsKeepsInv(s1, limits, refs[1..], now);
      RefsBelowNext(s, limits);
      EvolvesTransitive(s, s1, SweepGrants(s1, refs[1..], now), now);
    }
  }

  // ---------------------------------------------------------------- room records

  lemma DropStaleKeepsInv(s: State, limits: Limits, id: string, now: int)
    requires Inv(s, limits)
    ensures Inv(DropStale(s, id, now), limits) && Evolves(s, DropStale(s, id, now), now)
  {
    hide RoomsOK, GrantsOK, IndexExact, CountersOK, LimitersOK, Evolves;
    DropStaleRooms(s, limits, id, now);
    DropStaleCounters(s, limits, id, now);
    DropStaleLimiters(s, limits, id, now);
    DropStaleEvolves(s, limits, id, now);
    SameHeapEvolves(s, DropStale(s, id, now), now);
  }

  lemma DropStaleEvolves(s: State, limits: Limits, id: string, now: int)
    requires RoomsOK(s, limits)
    ensures RoomsEvolve(s, DropStale(s, id, now), now)
  {
    if id in s.rooms && Stale(s.rooms[id], now) { DeadRoomEvolves(s, DropStale(s, id, now), limits, id, now); }
  }

  lemma SameHeapEvolves(s: State, s': State, now: int)
    requires s'.heap == s.heap && s'.nextRef == s.nextRef && RoomsEvolve(s, s', now)
    ensures Evolves(s, s', now)
  {
  }

  lemma DropStaleRooms(s: State, limits: Limits, id: string, now: int)
    requires RoomsOK(s, limits) && GrantsOK(s)
    ensures RoomsOK(DropStale(s, id, now), limits) && GrantsOK(DropStale(s, id, now))
  {
  }

  lemma DropStaleLimiters(s: State, limits: Limits, id: string, now: int)
    requires LimitersOK(s, limits)
    ensures LimitersOK(DropStale(s, id, now), limits)
  {
    hide GateOK;
    var s' := DropStale(s, id, now);
    forall n | !IsPreauth(n) ensures n in s'.gate.buckets <==> Needed(s', n) {
      assert n in s.gate.buckets <==> Needed(s, n);
    }
  }

  lemma MarkEmptyKeepsInv(s: State, limits: Limits, id: string, now: int)
    requires Inv(s, limits) && id in s.rooms && AllDead(s, s.rooms[id].grants)
    ensures Inv(MarkEmpty(s, id), limits) && Evolves(s, MarkEmpty(s, id), now)
  {
    hide RoomsOK, GrantsOK, IndexExact, CountersOK, LimitersOK, Evolves, AllDead;
    MarkEmptyRooms(s, limits, id);
    MarkEmptyCounters(s, limits, id);
    MarkEmptyLimiters(s, limits, id);
    MarkEmptyEvolves(s, limits, id, now);
    SameHeapEvolves(s, MarkEmpty(s, id), now);
  }

  lemma MarkEmptyEvolves(s: State, limits: Limits, id: string, now: int)
    requires RoomsOK(s, limits) && id in s.rooms && AllDead(s, s.rooms[id].grants)
    ensures RoomsEvolve(s, MarkEmpty(s, id), now)
  {
    if s.rooms[id].state.Open? { DeadRoomEvolves(s, MarkEmpty(s, id), limits, id, now); }
  }

  lemma MarkEmptyCounters(s: State, limits: Limits, id: string)
    requires CountersOK(s, limits) && id in s.rooms
    ensures CountersOK(MarkEmpty(s, id), limits)
  {
    hide OpenRooms;
    RoomCloses(s.rooms, id, s.rooms[id].(state := Empty));
  }

  lemma DropStaleCounters(s: State, limits: Limits, id: string, now: int)
    requires CountersOK(s, limits)
    ensures CountersOK(DropStale(s, id, now), limits)
  {
    if id in s.rooms && Stale(s.rooms[id], now) {
      var rooms' := DropStale(s, id, now).rooms;
      assert OpenRooms(rooms') == OpenRooms(s.rooms);
      assert rooms'.Keys == s.rooms.Keys - {id};
      assert |rooms'| == |rooms'.Keys| && |s.rooms| == |s.rooms.Keys|;
    }
  }

  lemma MarkEmptyRooms(s: State, limits: Limits, id: string)
    requires RoomsOK(s, limits) && GrantsOK(s) && id in s.rooms && AllDead(s, s.rooms[id].grants)
    ensures RoomsOK(MarkEmpty(s, id), limits) && GrantsOK(MarkEmpty(s, id))
  {
    MarkedRooms(s, limits, id);
    forall r | r in s.heap && s.heap[r].roomID == id ensures !Live(s.heap[r]) {}
    hide RoomsOK;
  }

  lemma MarkedRooms(s: State, limits: Limits, id: string)
    requires RoomsOK(s, limits) && id in s.rooms
    ensures RoomsOK(MarkEmpty(s, id), limits)
  {
  }

  lemma MarkEmptyLimiters(s: State, limits: Limits, id: string)
    requires LimitersOK(s, limits) && id in s.rooms
    ensures LimitersOK(MarkEmpty(s, id), limits)
  {
    hide GateOK;
    var s' := MarkEmpty(s, id);
    forall n | !IsPreauth(n) ensures n in s'.gate.buckets <==> Needed(s', n) {
      assert n in s.gate.buckets <==> Needed(s, n);
    }
  }

  lemma RoomsResident(s: State, limits: Limits)
    requires Inv(s, limits)
    ensures forall id | id in s.rooms :: Resident(s, s.rooms[id].grants)
    ensures forall id | id in s.rooms && !s.rooms[id].state.Tombstone? :: s.rooms[id].grants != []
  {
  }

  lemma SweptRoomFacts(s: State, limits: Limits, id: string, now: int)
    requires Inv(s, limits) && id in s.rooms && !s.rooms[id].state.Tombstone?
    ensures var s1 := SweepGrants(s, s.rooms[id].grants, now);
      && Inv(s1, limits) && Evolves(s, s1, now) && s1.rooms == s.rooms && Resident(s1, s.rooms[id].grants)
      && (forall i | 0 <= i < |s.rooms[id].grants| :: Live(s1.heap[s.rooms[id].grants[i]]) ==>
         now < s1.heap[s.rooms[id].grants[i]].monoDeadline)
      && (forall i | 0 <= i < |s.rooms[id].grants| ::
         s1.heap[s.rooms[id].grants[i]].monoDeadline == s.heap[s.rooms[id].grants[i]].monoDeadline)
  {
    hide Inv, Evolves, Swept;
    var refs := s.rooms[id].grants;
    RoomsResident(s, limits);
    assert Resident(s, refs);
    SweepGrantsKeepsInv(s, limits, refs, now);
    SweepGrantsFrame(s, refs, now);
    RoomShape(s, limits, id);
    forall i | 0 <= i < |refs| { ExpiredIdentity(s.heap[refs[i]], now); }
  }

  /** The room of `id` after its grants were swept. */
  function RetireIfDue(s: State, limits: Limits, id: string, now: int): State
    requires RoomGrantsResident(s, id)
  {
    if now >= s.rooms[id].monoDeadline then TombstoneRoom(s, limits, id, now, GrantState.Expired)
    else
      var final := LastDeadline(s, s.rooms[id].grants);
      if now < final then s
      else if now >= SaturatingAdd(final, limits.emptyGrace) then
        TombstoneRoom(MarkEmpty(s, id), limits, id, now, GrantState.Expired)
      else MarkEmpty(s, id)
  }

  lemma RetireIfDueKeepsInv(s: State, limits: Limits, id: string, now: int)
    requires Inv(s, limits) && RoomGrantsResident(s, id) && !s.rooms[id].state.Tombstone?
    requires forall i | 0 <= i < |s.rooms[id].grants| ::
      Live(s.heap[s.rooms[id].grants[i]]) ==> now < s.heap[s.rooms[id].grants[i]].monoDeadline
    ensures Inv(RetireIfDue(s, limits, id, now), limits) && Evolves(s, RetireIfDue(s, limits, id, now), now)
  {
    hide Inv, Evolves, TombstoneRoom, MarkEmpty;
    var refs := s.rooms[id].grants;
    RefsBelowNext(s, limits);
    RoomsResident(s, limits);
    EvolvesReflexive(s, now);
    if now >= s.rooms[id].monoDeadline {
      DeadlinesNest(s, limits, id, now);
      TombstoneKeepsInv(s, limits, id, now, GrantState.Expired);
    } else {
      LastDeadlineIsMax(s, refs);
      if now >= LastDeadline(s, refs) {
        var s2 := MarkEmpty(s, id);
        MarkEmptyKeepsInv(s, limits, id, now);
        MarkEmptyFrame(s, id);
        TombstoneKeepsInv(s2, limits, id, now, GrantState.Expired);
        EvolvesTransitive(s, s2, TombstoneRoom(s2, limits, id, now, GrantState.Expired), now);
      }
    }
  }

  lemma MarkEmptyFrame(s: State, id: string)
    requires id in s.rooms
    ensures var s' := MarkEmpty(s, id);
      s'.heap == s.heap && id in s'.rooms && s'.rooms[id].grants == s.rooms[id].grants && s'.nextRef == s.nextRef
  {
  }

  lemma SweepRoomKeepsInv(s: State, limits: Limits, id: string, now: int)
    requires Inv(s, limits) && RoomGrantsResident(s, id)
    ensures Inv(SweepRoom(s, limits, id, now), limits) && Evolves(s, SweepRoom(s, limits, id, now), now)
  {
    hide Inv, Evolves, SweepGrants, DropStale, RetireIfDue;
    if s.rooms[id].state.Tombstone? {
      DropStaleKeepsInv(s, limits, id, now);
    } else {
      var s1 := SweepGrants(s, s.rooms[id].grants, now);
      SweptRoomFacts(s, limits, id, now);
      RefsBelowNext(s, limits);
      RetireIfDueKeepsInv(s1, limits, id, now);
      EvolvesTransitive(s, s1, RetireIfDue(s1, limits, id, now), now);
    }
  }

  /** The sweep visits the rooms in some order, then the sources. */
  ghost function SweepRooms(s: State, limits: Limits, order: seq<string>, now: int): State
    requires Inv(s, limits)
    decreases |order|
  {
    if order == [] then s
    else if order[0] !in s.rooms then SweepRooms(s, limits, order[1..], now)
    else
      RoomsResident(s, limits);
      SweepRoomKeepsInv(s, limits, order[0], now);
      SweepRooms(SweepRoom(s, limits, order[0], now), limits, order[1..], now)
  }

  lemma {:induction false} SweepRoomsKeepsInv(s: State, limits: Limits, order: seq<string>, now: int)
    requires Inv(s, limits)
    ensures Inv(SweepRooms(s, limits, order, now), limits) && Evolves(s, SweepRooms(s, limits, order, now), now)
    decreases |order|
  {
    hide Inv, Evolves, SweepRoom;
    EvolvesReflexive(s, now);
    if order != [] {
      RoomsResident(s, limits);
      if order[0] in s.rooms {
        var s1 := SweepRoom(s, limits, order[0], now);
        SweepRoomKeepsInv(s, limits, order[0], now);
        SweepRoomsKeepsInv(s1, limits, order[1..], now);
        RefsBelowNext(s, limits);
        EvolvesTransitive(s, s1, SweepRooms(s1, limits, order[1..], now), now);
      } else {
        SweepRoomsKeepsInv(s, limits, order[1..], now);
      }
    }
  }

  ghost function Expire(s: State, limits: Limits, order: seq<string>, now: int): State
    requires Inv(s, limits)
  {
    var s1 := SweepRooms(s, limits, order, now);
    s1.(gate := SweepSources(s1.gate, now))
  }

  /** A sweep, in any order, keeps the invariant and ends nothing unexpired. */
  lemma ExpireStoreKeepsInv(s: State, limits: Limits, order: seq<string>, now: int)
    requires Inv(s, limits)
    ensures Inv(Expire(s, limits, order, now), limits) && Evolves(s, Expire(s, limits, order, now), now)
  {
    hide Inv, Evolves, SweepRooms, SweepSources, GateOK;
    var s1 := SweepRooms(s, limits, order, now);
    SweepRoomsKeepsInv(s, limits, order, now);
    LimitersHold(s1, limits);
    GateHolds(s1, limits);
    SweepKeepsGate(s1.gate, limits, now);
    GateKeepsInv(s1, limits, SweepSources(s1.gate, now));
    GateEvolves(s1, SweepSources(s1.gate, now), now);
    RefsBelowNext(s, limits);
    EvolvesTransitive(s, s1, Expire(s, limits, order, now), now);
  }

  lemma GateHolds(s: State, limits: Limits)
    requires Inv(s, limits)
    ensures GateOK(s.gate, limits)
  {
  }
}
