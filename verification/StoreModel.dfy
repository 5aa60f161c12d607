/** The state of the relay store, the invariant it keeps, and the one way its grant records
    change: `Put` replaces a record and leaves every reverse index exact. */
module StoreModel {
  import opened Prelude
  import opened RateLimit
  import opened Admission
  import ReplayWindow

  // ---------------------------------------------------------------- records

  datatype GrantState = Issued | Bound | Expired | Revoked
  datatype BindingState = Unbound | Current | RebindPending | BindingExpired | BindingRevoked
  datatype RoomState = Open | Empty | Tombstone

  datatype ChallengeResult = ChallengeResult(candidateID: Bytes, serverNonce: Bytes, expiresUnixMS: int)
  datatype BoundResult = BoundResult(bindingID: Bytes, expiresUnixMS: int, authTag: Bytes)

  datatype Challenge = Challenge(
    candidateID: Bytes, clientNonce: Bytes, serverNonce: Bytes, endpoint: Endpoint, deadline: int,
      result: ChallengeResult)

  datatype Completed = Completed(
    candidateID: Bytes, clientNonce: Bytes, serverNonce: Bytes, endpoint: Endpoint, deadline: int, generation: nat,
    result: BoundResult)

  datatype Binding = Binding(
    id: Bytes, key: Bytes, endpoint: Endpoint, deadline: int, generation: nat, replay: ReplayWindow.Window)

  datatype Grant = Grant(
    roomID: string, participantID: string, sessionID: string, id: Bytes, secret: Option<Bytes>,
    expiresAt: int, monoDeadline: int, state: GrantState, bindingState: BindingState, generation: nat,
    pending: Option<Challenge>, recent: Option<Completed>, binding: Option<Binding>)

  /** A pointer to a grant record. */
  type Ref = nat

  datatype Room = Room(
    state: RoomState, capacity: nat, createdAt: int, expiresAt: int, monoDeadline: int,
    grants: seq<Ref>, tombstoneDeadline: int)

  /** `grants` of a room are pointers into `heap`, which holds the records reachable from a
      room; the three reverse indexes hold pointers too. `drawn` counts the reads made from
      the random stream. */
  datatype State = State(
    rooms: map<string, Room>,
    heap: map<Ref, Grant>,
    grantsByID: map<Bytes, Ref>,
    candidatesByID: map<Bytes, Ref>,
    bindingsByID: map<Bytes, Ref>,
    openRooms: int,
    activeSessions: int,
    gate: Gate,
    nextRef: Ref,
    drawn: nat)

  predicate Live(g: Grant) { g.state.Issued? || g.state.Bound? }

  function LiveRefs(heap: map<Ref, Grant>): set<Ref> { set r | r in heap && Live(heap[r]) }

  function LiveIDs(g: Grant): set<Bytes> { if Live(g) then {g.id} else {} }

  function CandidateIDs(g: Grant): set<Bytes> {
    (if g.pending.Some? then {g.pending.value.candidateID} else {}) +
    (if g.recent.Some? then {g.recent.value.candidateID} else {})
  }

  function BindingIDs(g: Grant): set<Bytes> { if g.binding.Some? then {g.binding.value.id} else {} }

  // ---------------------------------------------------------------- the invariant

  /** An index maps exactly the keys of the records in the heap, each to its record. */
  ghost predicate IndexExact(index: map<Bytes, Ref>, heap: map<Ref, Grant>, keys: Grant -> set<Bytes>) {
    && (forall c | c in index :: index[c] in heap && c in keys(heap[index[c]]))
    && (forall r, c | r in heap && c in keys(heap[r]) :: c in index && index[c] == r)
  }

  /** A binding and the handshake that completed it agree, and deadlines are nested. */
  ghost predicate GrantOK(g: Grant, room: Room) {
    && g.monoDeadline <= room.monoDeadline <= MAX_INT64 && g.generation <= MAX_UINT64
    && (Live(g) ==> room.state.Open?)
    && (Live(g) <==> g.secret.Some?)
    && (!Live(g) ==> g.pending.None? && g.binding.None?)
    && (g.state.Bound? <==> g.binding.Some?)
    && (g.state.Issued? ==> g.bindingState.Unbound? || g.bindingState.BindingExpired?)
    && (g.binding.Some? ==>
          && g.bindingState == (if g.pending.Some? then RebindPending else Current)
          && g.binding.value.deadline <= g.monoDeadline
          && g.binding.value.generation == g.generation
          && g.binding.value.endpoint.IsValid())
    && (g.pending.Some? ==>
          && g.pending.value.deadline <= g.monoDeadline
          && g.pending.value.endpoint.IsValid()
          && g.pending.value.result.candidateID == g.pending.value.candidateID
          && g.pending.value.result.serverNonce == g.pending.value.serverNonce)
    && (g.recent.Some? ==>
          && g.binding.Some?
          && g.recent.value.deadline <= g.binding.value.deadline
          && g.recent.value.generation == g.binding.value.generation
          && g.recent.value.result.bindingID == g.binding.value.id)
    && (g.pending.Some? && g.recent.Some? ==> g.pending.value.candidateID != g.recent.value.candidateID)
  }

  ghost predicate RoomOK(room: Room, limits: Limits) {
    if room.state.Tombstone? then
      room.capacity == 0 && room.createdAt == 0 && room.expiresAt == 0 && room.monoDeadline == 0 && room.grants == []
    else
      0 < |room.grants| == room.capacity <= limits.maxRoomCapacity
  }

  ghost predicate RoomsOK(s: State, limits: Limits) {
    && (forall id | id in s.rooms :: RoomOK(s.rooms[id], limits))
    && (forall id, i | id in s.rooms && 0 <= i < |s.rooms[id].grants| ::
          s.rooms[id].grants[i] in s.heap && s.heap[s.rooms[id].grants[i]].roomID == id)
    && (forall id, i, j | id in s.rooms && 0 <= i < j < |s.rooms[id].grants| ::
       s.rooms[id].grants[i] != s.rooms[id].grants[j])
    && (forall r | r in s.heap :: s.heap[r].roomID in s.rooms && r in s.rooms[s.heap[r].roomID].grants)
  }

  ghost predicate GrantsOK(s: State)
    requires forall r | r in s.heap :: s.heap[r].roomID in s.rooms
  {
    && (forall r | r in s.heap :: r < s.nextRef && GrantOK(s.heap[r], s.rooms[s.heap[r].roomID]))
    && (forall r, r' | r in s.heap && r' in s.heap && s.heap[r].id == s.heap[r'].id :: r == r')
  }

  ghost predicate IndexesOK(s: State) {
    && IndexExact(s.grantsByID, s.heap, LiveIDs)
    && IndexExact(s.candidatesByID, s.heap, CandidateIDs)
    && IndexExact(s.bindingsByID, s.heap, BindingIDs)
  }

  function OpenRooms(rooms: map<string, Room>): set<string> {
    set id | id in rooms && rooms[id].state.Open?
  }

  ghost predicate CountersOK(s: State, limits: Limits) {
    && s.openRooms == |OpenRooms(s.rooms)| <= limits.maxOpenRooms
    && s.activeSessions == |s.grantsByID| <= limits.maxActiveSessions
    && |s.rooms| <= limits.maxRoomRecords
  }

  predicate HasRoomLimiters(s: State, id: string) { id in s.rooms && !s.rooms[id].state.Tombstone? }

  predicate HasSessionLimiters(s: State, r: Ref) { r in s.heap && Live(s.heap[r]) }

  /** Which limiters outside the pre-authentication class are non-nil. */
  predicate Needed(s: State, n: LimiterName) {
    match n
    case SessionPackets(r) => HasSessionLimiters(s, r)
    case SessionBytes(r) => HasSessionLimiters(s, r)
    case RoomIngressPackets(id) => HasRoomLimiters(s, id)
    case RoomIngressBytes(id) => HasRoomLimiters(s, id)
    case RoomFanoutWrites(id) => HasRoomLimiters(s, id)
    case RoomFanoutBytes(id) => HasRoomLimiters(s, id)
    case _ => true
  }

  /** A limiter exists exactly while its owner needs it. */
  ghost predicate LimitersOK(s: State, limits: Limits) {
    && GateOK(s.gate, limits)
    && (forall n | !IsPreauth(n) :: n in s.gate.buckets <==> Needed(s, n))
  }

  ghost predicate Inv(s: State, limits: Limits) {
    && RoomsOK(s, limits)
    && GrantsOK(s)
    && IndexesOK(s)
    && CountersOK(s, limits)
    && LimitersOK(s, limits)
  }

  function InitialGate(limits: Limits): Gate {
    Gate(map[], map[
      PreauthGlobalPackets := limits.New(PreauthGlobalPackets), PreauthGlobalBytes := limits.New(PreauthGlobalBytes),
      IngressGlobalPackets := limits.New(IngressGlobalPackets), IngressGlobalBytes := limits.New(IngressGlobalBytes),
      FanoutGlobalWrites := limits.New(FanoutGlobalWrites), FanoutGlobalBytes := limits.New(FanoutGlobalBytes)])
  }

  function Init(limits: Limits): State {
    State(map[], map[], map[], map[], map[], 0, 0, InitialGate(limits), 0, 0)
  }

  lemma InitOK(limits: Limits)
    ensures Inv(Init(limits), limits)
  {
    var s := Init(limits);
    assert OpenRooms(s.rooms) == {};
    assert LimitersOK(s, limits) by { InitLimitersOK(limits); }
    hide LimitersOK;
  }

  lemma InitLimitersOK(limits: Limits)
    ensures LimitersOK(Init(limits), limits)
  {
    InitialGateOK(limits);
    hide GateOK, InitialGate;
    assert Init(limits).gate == InitialGate(limits);
  }

  lemma InitialGateOK(limits: Limits)
    ensures GateOK(InitialGate(limits), limits)
    ensures InitialGate(limits).buckets.Keys == {PreauthGlobalPackets, PreauthGlobalBytes, IngressGlobalPackets,
      IngressGlobalBytes,
                                                 FanoutGlobalWrites, FanoutGlobalBytes}
  {
    var b := InitialGate(limits).buckets;
    assert b.Keys == {PreauthGlobalPackets, PreauthGlobalBytes, IngressGlobalPackets, IngressGlobalBytes,
                      FanoutGlobalWrites, FanoutGlobalBytes};
    forall n | n in b ensures b[n] == limits.New(n) {}
  }

  /** The session counter is the number of live grants resident in rooms. */
  lemma ActiveSessionsIsLiveGrants(s: State, limits: Limits)
    requires Inv(s, limits)
    ensures s.activeSessions == |LiveRefs(s.heap)|
  {
    IndexCountsLive(s.grantsByID, s.heap);
  }

  lemma IndexCountsLive(index: map<Bytes, Ref>, heap: map<Ref, Grant>)
    requires IndexExact(index, heap, LiveIDs)
    ensures |index| == |LiveRefs(heap)|
  {
    var live := LiveRefs(heap);
    var ids := map r | r in live :: heap[r].id;
    forall r | r in live ensures ids[r] in index && index[ids[r]] == r {
      assert ids[r] in LiveIDs(heap[r]);
    }
    SameSize(index.Keys, live, index, ids);
    assert |index.Keys| == |index|;
  }

  /** Two finite sets with mutually inverse maps between them have the same size. */
  lemma SameSize<A, B>(a: set<A>, b: set<B>, to: map<A, B>, from: map<B, A>)
    requires forall x | x in a :: x in to && to[x] in b && to[x] in from && from[to[x]] == x
    requires forall y | y in b :: y in from && from[y] in a && from[y] in to && to[from[y]] == y
    ensures |a| == |b|
  {
    assert forall y | y in b :: from[y] in a;
    if x :| x in a {
      SameSize(a - {x}, b - {to[x]}, to, from);
    }
  }

  // ---------------------------------------------------------------- replacing one record

  function Reindex(index: map<Bytes, Ref>, before: set<Bytes>, after: set<Bytes>, r: Ref): map<Bytes, Ref> {
    (index - before) + (map c | c in after :: r)
  }

  function DropSession(g: Gate, r: Ref): Gate {
    g.(buckets := g.buckets - {SessionPackets(r), SessionBytes(r)})
  }

  /** Replace one grant record; indexes, session count and session limiters follow. */
  function Put(s: State, r: Ref, g: Grant): State
    requires r in s.heap
  {
    s.(heap := s.heap[r := g],
       grantsByID := Reindex(s.grantsByID, LiveIDs(s.heap[r]), LiveIDs(g), r),
       candidatesByID := Reindex(s.candidatesByID, CandidateIDs(s.heap[r]), CandidateIDs(g), r),
       bindingsByID := Reindex(s.bindingsByID, BindingIDs(s.heap[r]), BindingIDs(g), r),
       activeSessions := s.activeSessions - |LiveIDs(s.heap[r])| + |LiveIDs(g)|,
       gate := if Live(g) then s.gate else DropSession(s.gate, r))
  }

  ghost predicate SameIdentity(g: Grant, g': Grant) {
    g'.roomID == g.roomID && g'.participantID == g.participantID && g'.sessionID == g.sessionID && g'.id == g.id
    && g'.expiresAt == g.expiresAt && g'.monoDeadline == g.monoDeadline
  }

  /** What a replacement must respect for the invariant to survive it. */
  ghost predicate MayPut(s: State, r: Ref, g: Grant) {
    && r in s.heap && s.heap[r].roomID in s.rooms
    && SameIdentity(s.heap[r], g)
    && GrantOK(g, s.rooms[g.roomID])
    && (Live(g) ==> Live(s.heap[r]))
    && (forall c | c in CandidateIDs(g) :: c in s.candidatesByID ==> s.candidatesByID[c] == r)
    && (forall c | c in BindingIDs(g) :: c in s.bindingsByID ==> s.bindingsByID[c] == r)
  }

  lemma ReindexExact(index: map<Bytes, Ref>, heap: map<Ref, Grant>, keys: Grant -> set<Bytes>, r: Ref, g: Grant)
    requires IndexExact(index, heap, keys) && r in heap
    requires forall c | c in keys(g) :: c in index ==> index[c] == r
    ensures IndexExact(Reindex(index, keys(heap[r]), keys(g), r), heap[r := g], keys)
  {
    var index', heap' := Reindex(index, keys(heap[r]), keys(g), r), heap[r := g];
    forall c | c in index' ensures index'[c] in heap' && c in keys(heap'[index'[c]]) {
      if c !in keys(g) { assert c in index && c !in keys(heap[r]); }
    }
    forall q, c | q in heap' && c in keys(heap'[q]) ensures c in index' && index'[c] == q {
      if q != r { assert index[c] == q && c !in keys(heap[r]); }
    }
  }

  lemma PutKeepsIndexes(s: State, limits: Limits, r: Ref, g: Grant)
    requires Inv(s, limits) && MayPut(s, r, g)
    ensures IndexesOK(Put(s, r, g))
  {
    ReindexExact(s.grantsByID, s.heap, LiveIDs, r, g);
    ReindexExact(s.candidatesByID, s.heap, CandidateIDs, r, g);
    ReindexExact(s.bindingsByID, s.heap, BindingIDs, r, g);
  }

  lemma PutKeepsCounters(s: State, limits: Limits, r: Ref, g: Grant)
    requires r in s.heap && IndexExact(s.grantsByID, s.heap, LiveIDs) && CountersOK(s, limits)
    requires SameIdentity(s.heap[r], g) && (Live(g) ==> Live(s.heap[r]))
    ensures CountersOK(Put(s, r, g), limits)
  {
    hide Reindex;
    OwnKeysIndexed(s.grantsByID, s.heap, LiveIDs, r);
    hide IndexExact;
    ReindexSize(s.grantsByID, LiveIDs(s.heap[r]), LiveIDs(g), r);
  }

  lemma OwnKeysIndexed(index: map<Bytes, Ref>, heap: map<Ref, Grant>, keys: Grant -> set<Bytes>, r: Ref)
    requires IndexExact(index, heap, keys) && r in heap
    ensures keys(heap[r]) <= index.Keys
  {
  }

  lemma ReindexSize(index: map<Bytes, Ref>, before: set<Bytes>, after: set<Bytes>, r: Ref)
    requires before <= index.Keys && after <= before
    ensures |Reindex(index, before, after, r)| == |index| - |before| + |after| <= |index|
  {
    var index' := Reindex(index, before, after, r);
    assert index'.Keys == index.Keys - (before - after);
  }

  lemma DropSessionOK(g: Gate, limits: Limits, r: Ref)
    requires GateOK(g, limits)
    ensures GateOK(DropSession(g, r), limits)
    ensures forall n :: n in DropSession(g, r).buckets <==>
      n in g.buckets && n != SessionPackets(r) && n != SessionBytes(r)
  {
  }

  lemma PutKeepsLimiters(s: State, limits: Limits, r: Ref, g: Grant)
    requires r in s.heap && LimitersOK(s, limits) && (Live(g) ==> Live(s.heap[r]))
    ensures LimitersOK(Put(s, r, g), limits)
  {
    hide GateOK, Needed, Put, DropSession;
    var s' := Put(s, r, g);
    PutGate(s, r, g);
    DropSessionOK(s.gate, limits, r);
    forall n | !IsPreauth(n) ensures n in s'.gate.buckets <==> Needed(s', n) {
      assert n in s.gate.buckets <==> Needed(s, n);
      NeededAfterPut(s, r, g, n);
    }
  }

  lemma PutGate(s: State, r: Ref, g: Grant)
    requires r in s.heap
    ensures Put(s, r, g).gate == if Live(g) then s.gate else DropSession(s.gate, r)
  {
    hide Reindex, DropSession;
  }

  lemma NeededAfterPut(s: State, r: Ref, g: Grant, n: LimiterName)
    requires r in s.heap && (Live(g) ==> Live(s.heap[r]))
    ensures Needed(Put(s, r, g), n) <==> Needed(s, n) && (Live(g) || (n != SessionPackets(r) && n != SessionBytes(r)))
  {
    hide Reindex, DropSession, Live;
  }

  lemma PutKeepsRooms(s: State, limits: Limits, r: Ref, g: Grant)
    requires RoomsOK(s, limits) && r in s.heap && SameIdentity(s.heap[r], g)
    ensures RoomsOK(Put(s, r, g), limits)
  {
  }

  lemma PutKeepsGrants(s: State, limits: Limits, r: Ref, g: Grant)
    requires RoomsOK(s, limits) && GrantsOK(s)
    requires MayPut(s, r, g) && RoomsOK(Put(s, r, g), limits)
    ensures GrantsOK(Put(s, r, g))
  {
  }

  /** Every change of one grant record keeps the whole invariant. */
  lemma PutKeepsInv(s: State, limits: Limits, r: Ref, g: Grant)
    requires Inv(s, limits) && MayPut(s, r, g)
    ensures Inv(Put(s, r, g), limits)
  {
    PutKeepsIndexes(s, limits, r, g);
    PutKeepsCounters(s, limits, r, g);
    PutKeepsLimiters(s, limits, r, g);
    PutKeepsRooms(s, limits, r, g);
    PutKeepsGrants(s, limits, r, g);
  }
}
