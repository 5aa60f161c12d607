/** Creating a room keeps the invariant exactly when its new grant identifiers are unused by
    every resident grant, and is otherwise atomic. */
module StoreCreation {
  import opened Prelude
  import opened RateLimit
  import opened Admission
  import opened Definitions
  import opened StoreModel
  import opened StoreDeletion
  import opened StoreAdmission
  import opened StoreInvariant
  import opened StoreRooms

  /** No resident grant, live or terminal, carries one of these identifiers. */
  ghost predicate FreshIDs(s: State, credentials: seq<Credential>) {
    forall i, r | 0 <= i < |credentials| && r in s.heap :: s.heap[r].id != credentials[i].id
  }

  /** A grant that has already ended is ended again when its room becomes a tombstone, and is
      deleted by its identifier again. The index stays exact if and only if no live grant
      carries that identifier: this is what freshness is needed for. */
  lemma DeletionIsExactIffUnshared(index: map<Bytes, Ref>, heap: map<Ref, Grant>, r: Ref)
    requires IndexExact(index, heap, LiveIDs) && r in heap && !Live(heap[r])
    ensures IndexExact(index - {heap[r].id}, heap, LiveIDs) <==> forall q | q in heap && Live(heap[q]) ::
      heap[q].id != heap[r].id
  {
    var index' := index - {heap[r].id};
    if IndexExact(index', heap, LiveIDs) {
      forall q | q in heap && Live(heap[q]) ensures heap[q].id != heap[r].id {
        assert heap[q].id in LiveIDs(heap[q]);
        assert heap[q].id in index';
      }
    }
  }

  /** An ended and a live grant under one identifier: the live one drops out of the index. */
  lemma SharedIdentifierLosesALiveGrant()
    ensures var dead := Grant("r-1", "p", "s", [7], None, 0, 0, GrantState.Expired, BindingExpired, 0, None, None,
      None);
      var live := Grant("r-2", "p", "s", [7], Some([1]), 0, 0, Issued, Unbound, 0, None, None, None);
      var heap: map<Ref, Grant> := map[0 := dead, 1 := live];
      IndexExact(map[[7] := 1], heap, LiveIDs) && !IndexExact(map[[7] := 1] - {dead.id}, heap, LiveIDs)
  {
    var dead := Grant("r-1", "p", "s", [7], None, 0, 0, GrantState.Expired, BindingExpired, 0, None, None, None);
    var live := Grant("r-2", "p", "s", [7], Some([1]), 0, 0, Issued, Unbound, 0, None, None, None);
    var heap: map<Ref, Grant> := map[0 := dead, 1 := live];
    var index: map<Bytes, Ref> := map[[7] := 1];
    assert LiveIDs(dead) == {} && LiveIDs(live) == {[7]};
    assert IndexExact(index, heap, LiveIDs);
    DeletionIsExactIffUnshared(index, heap, 0);
    assert heap[1].id == heap[0].id;
  }

  /** What `CreateRoom` knows when it commits. */
  ghost predicate Committable(s: State, limits: Limits, id: string, d: Definition, credentials: seq<Credential>,
      reading: ClockReading) {
    && id !in s.rooms && |credentials| == |d.participants| && DeadlinesFit(d, limits, reading)
    && d.capacity == |d.participants| && 0 < d.capacity <= limits.maxRoomCapacity
    && (forall i | 0 <= i < |d.participants| :: d.participants[i].grantExpiresAt <= d.expiresAt)
    && !Full(s, limits, |d.participants|)
    && Unindexed(s, credentials) && DistinctCredentials(credentials)
  }

  ghost predicate Unindexed(s: State, credentials: seq<Credential>) {
    forall i | 0 <= i < |credentials| :: credentials[i].id !in s.grantsByID
  }

  // ---------------------------------------------------------------- the commit, part by part

  /** A grant that has just been issued. */
  ghost predicate Newcomer(g: Grant, room: Room, roomID: string, id: Bytes) {
    && g.roomID == roomID && g.id == id && Live(g) && GrantOK(g, room)
    && g.binding.None? && CandidateIDs(g) == {} && BindingIDs(g) == {}
  }

  ghost predicate AddedRoom(s: State, s': State, id: string, n: nat) {
    && id !in s.rooms && id in s'.rooms && s'.rooms == s.rooms[id := s'.rooms[id]]
    && s'.rooms[id].state.Open? && s'.rooms[id].capacity == |s'.rooms[id].grants| == n
    && (forall i | 0 <= i < n :: s'.rooms[id].grants[i] == s.nextRef + i)
  }

  ghost predicate AddedGrants(s: State, s': State, id: string, credentials: seq<Credential>) {
    && id in s'.rooms && s'.nextRef == s.nextRef + |credentials|
    && (forall r | r in s.heap :: r < s.nextRef && r in s'.heap && s'.heap[r] == s.heap[r])
    && (forall r | r in s'.heap && r !in s.heap :: s.nextRef <= r < s'.nextRef)
    && (forall r: Ref | s.nextRef <= r < s'.nextRef ::
       r in s'.heap && Newcomer(s'.heap[r], s'.rooms[id], id, credentials[r - s.nextRef].id))
  }

  lemma SubTimeMonotone(a: int, b: int, wall: int)
    requires a <= b
    ensures SubTime(a, wall) <= SubTime(b, wall)
  {
  }

  lemma NewGrantOK(id: string, p: Participant, c: Credential, limits: Limits, d: Definition, reading: ClockReading,
      room: Room)
    requires p.grantExpiresAt <= d.expiresAt && room.state.Open?
    requires DeadlineWithin(p.grantExpiresAt, reading, limits.maxGrantTTL).Some?
    requires DeadlineWithin(d.expiresAt, reading, limits.maxRoomTTL) == Some(room.monoDeadline)
    ensures Newcomer(NewGrant(id, p, c, DeadlineWithin(p.grantExpiresAt, reading, limits.maxGrantTTL).value), room, id,
      c.id)
  {
    SubTimeMonotone(p.grantExpiresAt, d.expiresAt, reading.wall);
  }

  lemma NewRefsRange(base: Ref, n: nat)
    ensures |NewRefs(base, n)| == n
    ensures forall i | 0 <= i < n :: NewRefs(base, n)[i] == base + i
    ensures forall r :: r in NewRefs(base, n) <==> base <= r < base + n
  {
    forall r | base <= r < base + n ensures r in NewRefs(base, n) { assert NewRefs(base, n)[r - base] == r; }
  }

  lemma NewHeapMeans(id: string, d: Definition, credentials: seq<Credential>, base: Ref, limits: Limits,
      reading: ClockReading)
    requires |credentials| == |d.participants| && DeadlinesFit(d, limits, reading)
    ensures var heap := NewHeap(id, d, credentials, base, limits, reading);
      && (forall r: Ref :: r in heap <==> base <= r < base + |credentials|)
      && (forall r: Ref | base <= r < base + |credentials| :: heap[r] ==
            NewGrant(id, d.participants[r - base], credentials[r - base],
                     DeadlineWithin(d.participants[r - base].grantExpiresAt, reading, limits.maxGrantTTL).value))
  {
    NewRefsRange(base, |credentials|);
    hide NewRefs, NewGrant;
  }

  lemma AddRoomRoom(s: State, limits: Limits, id: string, d: Definition, credentials: seq<Credential>,
      reading: ClockReading)
    requires Committable(s, limits, id, d, credentials, reading)
    ensures AddedRoom(s, AddRoom(s, limits, id, d, credentials, reading), id, |credentials|)
  {
    NewRefsRange(s.nextRef, |credentials|);
    hide NewHeap, NewRefs, NewIndex, NewLimiters, Full, Unindexed;
  }

  lemma AddRoomHeap(s: State, limits: Limits, id: string, d: Definition, credentials: seq<Credential>,
      reading: ClockReading)
    requires |credentials| == |d.participants| && DeadlinesFit(d, limits, reading)
    ensures var s' := AddRoom(s, limits, id, d, credentials, reading);
      && s'.heap == s.heap + NewHeap(id, d, credentials, s.nextRef, limits, reading)
         && s'.nextRef == s.nextRef + |credentials|
      && id in s'.rooms && s'.rooms[id].state.Open?
      && DeadlineWithin(d.expiresAt, reading, limits.maxRoomTTL) == Some(s'.rooms[id].monoDeadline)
  {
    hide NewLimiters, NewHeap, NewRefs, NewIndex, SessionNames, RoomNames, DeadlineWithin;
  }

  lemma AddRoomGrants(s: State, limits: Limits, id: string, d: Definition, credentials: seq<Credential>,
      reading: ClockReading)
    requires GrantsBelow(s) && Committable(s, limits, id, d, credentials, reading)
    ensures AddedGrants(s, AddRoom(s, limits, id, d, credentials, reading), id, credentials)
  {
    hide AddRoom, Newcomer, NewGrant, NewHeap, Full, Unindexed, DistinctCredentials, DeadlineWithin;
    var s' := AddRoom(s, limits, id, d, credentials, reading);
    var base := s.nextRef;
    AddRoomHeap(s, limits, id, d, credentials, reading);
    NewHeapMeans(id, d, credentials, base, limits, reading);
    forall r: Ref | base <= r < s'.nextRef
      ensures r in s'.heap && Newcomer(s'.heap[r], s'.rooms[id], id, credentials[r - base].id)
    {
      NewGrantOK(id, d.participants[r - base], credentials[r - base], limits, d, reading, s'.rooms[id]);
    }
  }

  ghost predicate GrantsBelow(s: State) { forall r | r in s.heap :: r < s.nextRef }

  // ---------------------------------------------------------------- the invariant, part by part

  lemma AddedKeepsRooms(s: State, s': State, limits: Limits, id: string, credentials: seq<Credential>)
    requires RoomsOK(s, limits) && 0 < |credentials| <= limits.maxRoomCapacity
    requires AddedRoom(s, s', id, |credentials|) && AddedGrants(s, s', id, credentials)
    ensures RoomsOK(s', limits)
  {
    hide GrantOK, LiveIDs, CandidateIDs, BindingIDs;
    forall r | r in s'.heap ensures s'.heap[r].roomID in s'.rooms && r in s'.rooms[s'.heap[r].roomID].grants {
      if r !in s.heap { assert s'.rooms[id].grants[r - s.nextRef] == r; }
    }
  }

  /** Every record is in order afterwards, whatever its identifier. */
  ghost predicate EachGrantOK(s: State) {
    forall r | r in s.heap :: s.heap[r].roomID in s.rooms && r < s.nextRef && GrantOK(s.heap[r],
      s.rooms[s.heap[r].roomID])
  }

  ghost predicate UniqueGrantIDs(heap: map<Ref, Grant>) {
    forall r, q | r in heap && q in heap && heap[r].id == heap[q].id :: r == q
  }

  lemma AddedKeepsEach(s: State, s': State, id: string, credentials: seq<Credential>)
    requires EachGrantOK(s) && AddedRoom(s, s', id, |credentials|) && AddedGrants(s, s', id, credentials)
    ensures EachGrantOK(s')
  {
    hide GrantOK, LiveIDs, CandidateIDs, BindingIDs;
  }

  lemma AddedIDs(s: State, s': State, id: string, credentials: seq<Credential>)
    requires UniqueGrantIDs(s.heap) && DistinctCredentials(credentials) && AddedGrants(s, s', id, credentials)
    ensures UniqueGrantIDs(s'.heap) <==> FreshIDs(s, credentials)
  {
    var base := s.nextRef;
    forall r: Ref | base <= r < s'.nextRef ensures s'.heap[r].id == credentials[r - base].id {
      assert Newcomer(s'.heap[r], s'.rooms[id], id, credentials[r - base].id);
    }
    hide Newcomer;
    if !FreshIDs(s, credentials) {
      var i, r :| 0 <= i < |credentials| && r in s.heap && s.heap[r].id == credentials[i].id;
      var q: Ref := base + i;
      assert s'.heap[q].id == credentials[q - base].id && s'.heap[r].id == s'.heap[q].id && r != q;
    }
  }

  function IDs(credentials: seq<Credential>): set<Bytes> { set i | 0 <= i < |credentials| :: credentials[i].id }

  lemma {:induction false} DistinctCount(credentials: seq<Credential>)
    requires DistinctCredentials(credentials)
    ensures |IDs(credentials)| == |credentials|
  {
    if credentials != [] {
      var front, last := credentials[..|credentials| - 1], credentials[|credentials| - 1];
      DistinctCount(front);
      assert IDs(credentials) == IDs(front) + {last.id};
      assert last.id !in IDs(front);
    }
  }

  lemma {:induction false} NewIndexMeans(credentials: seq<Credential>, base: Ref)
    requires DistinctCredentials(credentials)
    ensures NewIndex(credentials, base).Keys == IDs(credentials)
    ensures forall i | 0 <= i < |credentials| ::
      credentials[i].id in NewIndex(credentials, base) && NewIndex(credentials, base)[credentials[i].id] == base + i
  {
    if credentials != [] {
      var last := |credentials| - 1;
      var front := credentials[..last];
      NewIndexMeans(front, base);
      forall i | 0 <= i < last
        ensures credentials[i].id in NewIndex(credentials, base)
          && NewIndex(credentials, base)[credentials[i].id] == base + i
      {
        assert front[i] == credentials[i] && credentials[i].id != credentials[last].id;
      }
      assert IDs(credentials) == IDs(front) + {credentials[last].id};
    }
  }

  lemma NewcomerKeys(s: State, s': State, id: string, credentials: seq<Credential>, i: nat)
    requires i < |credentials| && AddedGrants(s, s', id, credentials)
    ensures var r := s.nextRef + i;
      && r in s'.heap && r !in s.heap
      && LiveIDs(s'.heap[r]) == {credentials[i].id} && CandidateIDs(s'.heap[r]) == {} && BindingIDs(s'.heap[r]) == {}
  {
    var r: Ref := s.nextRef + i;
    assert Newcomer(s'.heap[r], s'.rooms[id], id, credentials[r - s.nextRef].id);
  }

  lemma NewcomersRange(s: State, s': State, id: string, credentials: seq<Credential>)
    requires AddedGrants(s, s', id, credentials)
    ensures forall r | r in s'.heap && r !in s.heap :: s.nextRef <= r < s.nextRef + |credentials|
  {
  }

  /** The index of the newcomers alone. */
  lemma NewcomersIndexed(s: State, s': State, id: string, credentials: seq<Credential>)
    requires DistinctCredentials(credentials) && AddedGrants(s, s', id, credentials)
    ensures IndexExact(NewIndex(credentials, s.nextRef), s'.heap - s.heap.Keys, LiveIDs)
  {
    hide AddedGrants, LiveIDs, NewIndex, DistinctCredentials;
    var base, added, index := s.nextRef, s'.heap - s.heap.Keys, NewIndex(credentials, s.nextRef);
    NewIndexMeans(credentials, base);
    NewcomersRange(s, s', id, credentials);
    forall c | c in index ensures index[c] in added && c in LiveIDs(added[index[c]]) {
      var i :| 0 <= i < |credentials| && credentials[i].id == c;
      NewcomerKeys(s, s', id, credentials, i);
    }
    forall r, c | r in added && c in LiveIDs(added[r]) ensures c in index && index[c] == r {
      NewcomerKeys(s, s', id, credentials, r - base);
    }
  }

  lemma NewcomersKeyless(s: State, s': State, id: string, credentials: seq<Credential>)
    requires AddedGrants(s, s', id, credentials)
    ensures forall r | r in s'.heap && r !in s.heap :: CandidateIDs(s'.heap[r]) == {} && BindingIDs(s'.heap[r]) == {}
  {
    hide AddedGrants, CandidateIDs, BindingIDs;
    NewcomersRange(s, s', id, credentials);
    forall r | r in s'.heap && r !in s.heap ensures CandidateIDs(s'.heap[r]) == {} && BindingIDs(s'.heap[r]) == {} {
      NewcomerKeys(s, s', id, credentials, r - s.nextRef);
    }
  }

  lemma AddedKeyless(index: map<Bytes, Ref>, heap: map<Ref, Grant>, heap': map<Ref, Grant>, keys: Grant -> set<Bytes>)
    requires IndexExact(index, heap, keys)
    requires forall r | r in heap :: r in heap' && heap'[r] == heap[r]
    requires forall r | r in heap' && r !in heap :: keys(heap'[r]) == {}
    ensures IndexExact(index, heap', keys)
  {
  }

  /** Exact indexes of disjoint parts of the heap, with different keys, merge. */
  lemma MergedIndex(index: map<Bytes, Ref>, more: map<Bytes, Ref>, heap: map<Ref, Grant>, heap': map<Ref, Grant>,
      keys: Grant -> set<Bytes>)
    requires IndexExact(index, heap, keys) && IndexExact(more, heap' - heap.Keys, keys) && index.Keys !! more.Keys
    requires forall r | r in heap :: r in heap' && heap'[r] == heap[r]
    ensures IndexExact(index + more, heap', keys)
  {
    var index' := index + more;
    forall c | c in index' ensures index'[c] in heap' && c in keys(heap'[index'[c]]) {
      if c in more { assert index'[c] == more[c]; } else { assert index'[c] == index[c]; }
    }
    forall r, c | r in heap' && c in keys(heap'[r]) ensures c in index' && index'[c] == r {
      if r in heap {
        assert c in index && index[c] == r;
      } else {
        assert r in heap' - heap.Keys && c in more && more[c] == r;
      }
    }
  }

  lemma AddedKeepsIndexes(s: State, s': State, id: string, credentials: seq<Credential>)
    requires IndexesOK(s) && Unindexed(s, credentials) && DistinctCredentials(credentials)
      && AddedGrants(s, s', id, credentials)
    requires s'.grantsByID == s.grantsByID + NewIndex(credentials, s.nextRef)
    requires s'.candidatesByID == s.candidatesByID && s'.bindingsByID == s.bindingsByID
    ensures IndexesOK(s')
  {
    hide IndexExact, NewIndex, AddedGrants, LiveIDs, CandidateIDs, BindingIDs, DistinctCredentials;
    NewcomersIndexed(s, s', id, credentials);
    NewcomersKeyless(s, s', id, credentials);
    NewIndexMeans(credentials, s.nextRef);
    HeapKept(s, s', id, credentials);
    MergedIndex(s.grantsByID, NewIndex(credentials, s.nextRef), s.heap, s'.heap, LiveIDs);
    AddedKeyless(s.candidatesByID, s.heap, s'.heap, CandidateIDs);
    AddedKeyless(s.bindingsByID, s.heap, s'.heap, BindingIDs);
  }

  lemma HeapKept(s: State, s': State, id: string, credentials: seq<Credential>)
    requires AddedGrants(s, s', id, credentials)
    ensures forall r | r in s.heap :: r in s'.heap && s'.heap[r] == s.heap[r]
  {
  }

  lemma AddedIndexCount(s: State, credentials: seq<Credential>)
    requires DistinctCredentials(credentials) && Unindexed(s, credentials)
    ensures |s.grantsByID + NewIndex(credentials, s.nextRef)| == |s.grantsByID| + |credentials|
  {
    var index, index' := s.grantsByID, s.grantsByID + NewIndex(credentials, s.nextRef);
    DistinctCount(credentials);
    NewIndexMeans(credentials, s.nextRef);
    assert index'.Keys == index.Keys + IDs(credentials);
    assert index.Keys !! IDs(credentials);
    assert |index'| == |index'.Keys|;
  }

  lemma AddedRoomsCount(s: State, s': State, id: string, n: nat)
    requires AddedRoom(s, s', id, n)
    ensures |s'.rooms| == |s.rooms| + 1 && |OpenRooms(s'.rooms)| == |OpenRooms(s.rooms)| + 1
  {
    OneMoreOpen(s.rooms, id, s'.rooms[id]);
    OneMoreRoom(s.rooms, id, s'.rooms[id]);
    hide OpenRooms;
  }

  lemma OneMoreOpen(rooms: map<string, Room>, id: string, room: Room)
    requires id !in rooms && room.state.Open?
    ensures |OpenRooms(rooms[id := room])| == |OpenRooms(rooms)| + 1
  {
    assert OpenRooms(rooms[id := room]) == OpenRooms(rooms) + {id};
  }

  lemma OneMoreRoom(rooms: map<string, Room>, id: string, room: Room)
    requires id !in rooms
    ensures |rooms[id := room]| == |rooms| + 1
  {
    assert rooms[id := room].Keys == rooms.Keys + {id};
    assert |rooms[id := room]| == |rooms[id := room].Keys|;
  }

  lemma AddedKeepsCounters(s: State, s': State, limits: Limits, id: string, credentials: seq<Credential>)
    requires CountersOK(s, limits) && !Full(s, limits, |credentials|) && Unindexed(s, credentials)
      && DistinctCredentials(credentials)
    requires AddedRoom(s, s', id, |credentials|) && s'.grantsByID == s.grantsByID + NewIndex(credentials, s.nextRef)
    requires s'.openRooms == s.openRooms + 1 && s'.activeSessions == s.activeSessions + |credentials|
    ensures CountersOK(s', limits)
  {
    AddedRoomsCount(s, s', id, |credentials|);
    AddedIndexCount(s, credentials);
    hide OpenRooms, AddedRoom, NewIndex;
  }

  function NewNames(id: string, base: Ref, n: nat): set<LimiterName> { SessionNames(NewRefs(base, n)) + RoomNames(id) }

  lemma NewNamesMeans(id: string, base: Ref, n: nat)
    ensures forall m :: m in NewNames(id, base, n) <==>
      match m
      case SessionPackets(r) => base <= r < base + n
      case SessionBytes(r) => base <= r < base + n
      case RoomIngressPackets(q) => q == id
      case RoomIngressBytes(q) => q == id
      case RoomFanoutWrites(q) => q == id
      case RoomFanoutBytes(q) => q == id
      case _ => false
  {
    NewRefsRange(base, n);
    hide NewRefs;
  }

  lemma NewLimitersOK(g: Gate, limits: Limits, names: set<LimiterName>)
    requires GateOK(g, limits) && forall n | n in names :: !IsPreauth(n)
    ensures GateOK(g.(buckets := g.buckets + NewLimiters(limits, names)), limits)
  {
    var g' := g.(buckets := g.buckets + NewLimiters(limits, names));
    forall n | n in g'.buckets ensures Configured(g'.buckets[n], limits.BudgetOf(n)) {
      if n !in names { assert g'.buckets[n] == g.buckets[n]; }
    }
  }

  lemma AddedNeeds(s: State, s': State, id: string, credentials: seq<Credential>)
    requires AddedRoom(s, s', id, |credentials|) && AddedGrants(s, s', id, credentials)
    ensures forall n | !IsPreauth(n) :: Needed(s', n) <==> Needed(s, n) || n in NewNames(id, s.nextRef, |credentials|)
  {
    var base := s.nextRef;
    forall r: Ref ensures HasSessionLimiters(s', r) <==> HasSessionLimiters(s, r) || base <= r < s'.nextRef {
      if base <= r < s'.nextRef { assert Newcomer(s'.heap[r], s'.rooms[id], id, credentials[r - base].id); }
    }
    forall q ensures HasRoomLimiters(s', q) <==> HasRoomLimiters(s, q) || q == id {}
    NewNamesMeans(id, base, |credentials|);
    hide Newcomer, HasSessionLimiters, HasRoomLimiters, NewNames, AddedRoom;
  }

  lemma AddedKeepsLimiters(s: State, s': State, limits: Limits, id: string, credentials: seq<Credential>)
    requires LimitersOK(s, limits) && AddedRoom(s, s', id, |credentials|) && AddedGrants(s, s', id, credentials)
    requires s'.gate == s.gate.(buckets := s.gate.buckets + NewLimiters(limits, NewNames(id, s.nextRef, |credentials|)))
    ensures LimitersOK(s', limits)
  {
    var names := NewNames(id, s.nextRef, |credentials|);
    AddedNeeds(s, s', id, credentials);
    NewNamesMeans(id, s.nextRef, |credentials|);
    NewLimitersOK(s.gate, limits, names);
    hide GateOK, AddedRoom, AddedGrants, NewNames, Needed;
    forall n | !IsPreauth(n) ensures n in s'.gate.buckets <==> Needed(s', n) {
      assert n in s.gate.buckets <==> Needed(s, n);
    }
  }

  lemma AddedEvolves(s: State, s': State, id: string, credentials: seq<Credential>, now: int)
    requires AddedRoom(s, s', id, |credentials|) && AddedGrants(s, s', id, credentials)
    ensures Evolves(s, s', now)
  {
    hide GrantOK, LiveIDs, CandidateIDs, BindingIDs;
  }

  // ---------------------------------------------------------------- the commit

  lemma CommittableParts(s: State, limits: Limits, id: string, d: Definition, credentials: seq<Credential>,
      reading: ClockReading)
    requires Committable(s, limits, id, d, credentials, reading)
    ensures |credentials| == |d.participants| && DeadlinesFit(d, limits, reading) && DistinctCredentials(credentials)
    ensures 0 < |credentials| <= limits.maxRoomCapacity && !Full(s, limits, |credentials|) && Unindexed(s, credentials)
    ensures var s' := AddRoom(s, limits, id, d, credentials, reading);
      && s'.grantsByID == s.grantsByID + NewIndex(credentials, s.nextRef)
      && s'.candidatesByID == s.candidatesByID && s'.bindingsByID == s.bindingsByID
      && s'.openRooms == s.openRooms + 1 && s'.activeSessions == s.activeSessions + |credentials|
      && s'.gate == s.gate.(buckets := s.gate.buckets + NewLimiters(limits, NewNames(id, s.nextRef, |credentials|)))
  {
    hide NewHeap, NewRefs, NewIndex, NewLimiters, Full, Unindexed, DistinctCredentials, SessionNames, RoomNames;
  }

  lemma InvParts(s: State, limits: Limits)
    requires RoomsOK(s, limits)
    ensures GrantsOK(s) <==> EachGrantOK(s) && UniqueGrantIDs(s.heap)
    ensures EachGrantOK(s) ==> GrantsBelow(s)
  {
    hide GrantOK, RoomOK;
  }

  /** The invariant survives the commit of a new room if and only if its grant identifiers are
      fresh; the retry against live identifiers alone does not ensure that. */
  lemma AddRoomKeepsInvIffFresh(s: State, limits: Limits, id: string, d: Definition, credentials: seq<Credential>,
      reading: ClockReading, now: int)
    requires Inv(s, limits) && Committable(s, limits, id, d, credentials, reading)
    ensures |credentials| == |d.participants| && DeadlinesFit(d, limits, reading) && DistinctCredentials(credentials)
    ensures Inv(AddRoom(s, limits, id, d, credentials, reading), limits) <==> FreshIDs(s, credentials)
    ensures Evolves(s, AddRoom(s, limits, id, d, credentials, reading), now)
  {
    CommittableParts(s, limits, id, d, credentials, reading);
    hide RoomsOK, GrantsOK, IndexesOK, CountersOK, LimitersOK, Committable, FreshIDs, AddRoom, AddedRoom, AddedGrants,
         Evolves,
         EachGrantOK, UniqueGrantIDs, DeadlinesFit, DistinctCredentials, Unindexed, Full, NewIndex, NewLimiters,
           NewNames, GrantsBelow;
    InvParts(s, limits);
    var s' := AddRoom(s, limits, id, d, credentials, reading);
    AddRoomRoom(s, limits, id, d, credentials, reading);
    AddRoomGrants(s, limits, id, d, credentials, reading);
    AddedKeepsRooms(s, s', limits, id, credentials);
    InvParts(s', limits);
    AddedKeepsEach(s, s', id, credentials);
    AddedIDs(s, s', id, credentials);
    AddedKeepsIndexes(s, s', id, credentials);
    AddedKeepsCounters(s, s', limits, id, credentials);
    AddedKeepsLimiters(s, s', limits, id, credentials);
    AddedEvolves(s, s', id, credentials, now);
  }

  // ---------------------------------------------------------------- CreateRoom

  /** The credentials that a creation of `n` grants would draw next, if it succeeds. */
  function NextCredentials(s: State, random: Random, n: nat): Option<seq<Credential>> {
    DrawCredentials(random, s.drawn, s.grantsByID.Keys, n).0
  }

  ghost predicate DrawsFresh(s: State, random: Random, n: nat) {
    NextCredentials(s, random, n).Some? ==> FreshIDs(s, NextCredentials(s, random, n).value)
  }

  lemma AllocateCommittable(s: State, limits: Limits, random: Random, id: string, d: Definition, reading: ClockReading)
    requires id !in s.rooms && d.capacity == |d.participants| && 0 < d.capacity <= limits.maxRoomCapacity
    requires ValidParticipants(d.participants, d.expiresAt)
    requires AllocateRoom(s, limits, random, id, d, reading).1.Ok?
    ensures NextCredentials(s, random, |d.participants|).Some?
    ensures var credentials := NextCredentials(s, random, |d.participants|).value;
      var s1 := s.(drawn := DrawCredentials(random, s.drawn, s.grantsByID.Keys, |d.participants|).1);
      && Committable(s1, limits, id, d, credentials, reading)
      && AllocateRoom(s, limits, random, id, d, reading).0 == AddRoom(s1, limits, id, d, credentials, reading)
  {
    hide NewHeap, NewRefs, NewIndex, NewLimiters, SessionNames, RoomNames, DeadlinesFit, AddRoom, AllocationAt,
         DrawCredentials, DistinctCredentials;
    CredentialsAreFree(random, s.drawn, s.grantsByID.Keys, |d.participants|);
  }

  lemma AllocateKeepsInv(s: State, limits: Limits, random: Random, id: string, d: Definition, reading: ClockReading)
    requires Inv(s, limits) && id !in s.rooms && d.capacity == |d.participants|
      && 0 < d.capacity <= limits.maxRoomCapacity
    requires ValidParticipants(d.participants, d.expiresAt)
    ensures var (s', result) := AllocateRoom(s, limits, random, id, d, reading);
      && (Inv(s', limits) <==> (result.Ok? ==> DrawsFresh(s, random, |d.participants|)))
      && Evolves(s, s', reading.mono)
      && (result.Ok? ==> result.value.1)
      && (result.Err? ==> s' == s.(drawn := s'.drawn))
      && (result.Err? && s'.drawn != s.drawn ==> result.error == ErrFatalRandom)
  {
    hide Inv, Evolves, AddRoom, Committable, FreshIDs, DeadlinesFit, AllocationAt, DrawCredentials, ValidParticipants;
    var (s', result) := AllocateRoom(s, limits, random, id, d, reading);
    var next := DrawCredentials(random, s.drawn, s.grantsByID.Keys, |d.participants|).1;
    EvolvesReflexive(s, reading.mono);
    DrawnIrrelevant(s, limits, next, reading.mono);
    RefsBelowNext(s, limits);
    if result.Ok? {
      var s1 := s.(drawn := next);
      var credentials := NextCredentials(s, random, |d.participants|).value;
      AllocateCommittable(s, limits, random, id, d, reading);
      AddRoomKeepsInvIffFresh(s1, limits, id, d, credentials, reading, reading.mono);
      SameHeapFresh(s, s1, credentials);
      EvolvesTransitive(s, s1, s', reading.mono);
    }
  }

  lemma SameHeapFresh(s: State, s': State, credentials: seq<Credential>)
    requires s'.heap == s.heap
    ensures FreshIDs(s', credentials) <==> FreshIDs(s, credentials)
  {
  }

  lemma DropStaleFrame(s: State, id: string, now: int)
    ensures var s' := DropStale(s, id, now); s' == s.(rooms := s'.rooms)
    ensures id in s.rooms && Stale(s.rooms[id], now) ==> id !in DropStale(s, id, now).rooms
    ensures id !in s.rooms ==> DropStale(s, id, now) == s
  {
  }

  /** Creation keeps the invariant exactly when what it commits is fresh, ends nothing
      unexpired, and every error leaves the store as it was but for an expired tombstone and
      the random stream, which only a failed draw has moved. */
  lemma CreateRoomKeepsInv(s: State, limits: Limits, random: Random, id: string, d: Definition, reading: ClockReading)
    requires Inv(s, limits)
    ensures forall r | r in s.rooms :: Resident(s, s.rooms[r].grants)
    ensures var (s', result) := CreateRoom(s, limits, random, id, d, reading);
      && (Inv(s', limits) <==> (result.Ok? && result.value.1 ==> DrawsFresh(s, random, |d.participants|)))
      && Evolves(s, s', reading.mono)
      && (result.Err? ==>
            && (s' == s.(drawn := s'.drawn) || s' == DropStale(s, id, reading.mono).(drawn := s'.drawn))
            && (s'.drawn != s.drawn ==> result.error == ErrFatalRandom))
      && (result.Ok? && !result.value.1 ==> s' == s)
  {
    hide Inv, Evolves, AllocateRoom, DropStale, DrawsFresh, AccessTerminal, SameDefinition, AllocationAt,
         ValidParticipants, Sort;
    RoomsResident(s, limits);
    EvolvesReflexive(s, reading.mono);
    if Canonical(id, d, limits).Ok? && !(id in s.rooms && !Stale(s.rooms[id], reading.mono)) {
      var c := Canonical(id, d, limits).value;
      var s1 := DropStale(s, id, reading.mono);
      CanonicalIsValid(id, d, limits);
      CanonicalSize(id, d, limits);
      DropStaleFrame(s, id, reading.mono);
      DropStaleKeepsInv(s, limits, id, reading.mono);
      AllocateKeepsInv(s1, limits, random, id, c, reading);
      DrawsSame(s, s1, random, |d.participants|);
      RefsBelowNext(s, limits);
      EvolvesTransitive(s, s1, AllocateRoom(s1, limits, random, id, c, reading).0, reading.mono);
    }
  }

  lemma CanonicalSize(id: string, d: Definition, limits: Limits)
    requires Canonical(id, d, limits).Ok?
    ensures |Canonical(id, d, limits).value.participants| == |d.participants|
  {
    SortPermutes(d.participants);
  }

  lemma DrawsSame(s: State, s': State, random: Random, n: nat)
    requires s'.heap == s.heap && s'.drawn == s.drawn && s'.grantsByID == s.grantsByID
    ensures DrawsFresh(s', random, n) <==> DrawsFresh(s, random, n)
  {
  }

  // ---------------------------------------------------------------- retries

  /** Room `id` is open and was allocated for the canonical definition `d`. */
  ghost predicate Allocated(s: State, id: string, d: Definition) {
    && id in s.rooms && s.rooms[id].state.Open? && Resident(s, s.rooms[id].grants) && SameDefinition(s, id, d)
  }

  lemma AddRoomGrantAt(s: State, limits: Limits, id: string, d: Definition, credentials: seq<Credential>,
      reading: ClockReading, i: nat)
    requires Committable(s, limits, id, d, credentials, reading) && i < |credentials|
    ensures |credentials| == |d.participants|
      && DeadlineWithin(d.participants[i].grantExpiresAt, reading, limits.maxGrantTTL).Some?
    ensures var s' := AddRoom(s, limits, id, d, credentials, reading);
      && id in s'.rooms && |s'.rooms[id].grants| == |credentials|
      && s'.rooms[id].grants[i] in s'.heap
      && s'.heap[s'.rooms[id].grants[i]] == NewGrant(id, d.participants[i], credentials[i],
           DeadlineWithin(d.participants[i].grantExpiresAt, reading, limits.maxGrantTTL).value)
  {
    hide AddRoom, NewHeap, NewGrant, DeadlineWithin, Unindexed, DistinctCredentials, Full;
    AddRoomRoom(s, limits, id, d, credentials, reading);
    AddRoomHeap(s, limits, id, d, credentials, reading);
    NewHeapMeans(id, d, credentials, s.nextRef, limits, reading);
    var r: Ref := s.nextRef + i;
    assert AddRoom(s, limits, id, d, credentials, reading).rooms[id].grants[i] == r && r - s.nextRef == i;
  }

  lemma AddRoomAllocates(s: State, limits: Limits, id: string, d: Definition, credentials: seq<Credential>,
      reading: ClockReading)
    requires Committable(s, limits, id, d, credentials, reading)
    ensures var s' := AddRoom(s, limits, id, d, credentials, reading);
      && Allocated(s', id, d) && s'.rooms[id].createdAt == reading.wall
      && forall i | 0 <= i < |credentials| ::
           && s'.heap[s'.rooms[id].grants[i]].id == credentials[i].id
           && s'.heap[s'.rooms[id].grants[i]].secret == Some(credentials[i].secret)
           && s'.heap[s'.rooms[id].grants[i]].state.Issued?
           && DeadlineWithin(d.participants[i].grantExpiresAt, reading, limits.maxGrantTTL) ==
                Some(s'.heap[s'.rooms[id].grants[i]].monoDeadline)
  {
    hide AddRoom, DeadlineWithin, Unindexed, DistinctCredentials, Full;
    AddRoomRoom(s, limits, id, d, credentials, reading);
    AddRoomRecord(s, limits, id, d, credentials, reading);
    var s' := AddRoom(s, limits, id, d, credentials, reading);
    hide AddedRoom;
    AddedRoomOpen(s, s', id, |credentials|);
    forall i | 0 <= i < |credentials|
      ensures DeadlineWithin(d.participants[i].grantExpiresAt, reading, limits.maxGrantTTL).Some?
      ensures s'.rooms[id].grants[i] in s'.heap
      ensures s'.heap[s'.rooms[id].grants[i]] == NewGrant(id, d.participants[i], credentials[i],
                DeadlineWithin(d.participants[i].grantExpiresAt, reading, limits.maxGrantTTL).value)
    {
      AddRoomGrantAt(s, limits, id, d, credentials, reading, i);
    }
  }

  lemma AddedRoomOpen(s: State, s': State, id: string, n: nat)
    requires AddedRoom(s, s', id, n)
    ensures id in s'.rooms && s'.rooms[id].state.Open? && |s'.rooms[id].grants| == n
  {
  }

  lemma AddRoomRecord(s: State, limits: Limits, id: string, d: Definition, credentials: seq<Credential>,
      reading: ClockReading)
    requires |credentials| == |d.participants| && DeadlinesFit(d, limits, reading)
    ensures var s' := AddRoom(s, limits, id, d, credentials, reading);
      id in s'.rooms && s'.rooms[id].createdAt == reading.wall && s'.rooms[id].expiresAt == d.expiresAt
        && s'.rooms[id].capacity == d.capacity
  {
    hide NewLimiters, NewHeap, NewRefs, NewIndex, SessionNames, RoomNames, DeadlineWithin;
  }

  /** The allocation answers the definition participant by participant, in canonical order. */
  ghost predicate Answers(a: Allocation, id: string, d: Definition) {
    && a.roomID == id && a.capacity == d.capacity && a.expiresAt == d.expiresAt && |a.grants| == |d.participants|
    && forall i | 0 <= i < |a.grants| ::
         && a.grants[i].participantID == d.participants[i].participantID
            && a.grants[i].sessionID == d.participants[i].sessionID
         && a.grants[i].grantExpiresAt == d.participants[i].grantExpiresAt
  }

  /** The same grants, whatever has happened to them since. */
  ghost predicate SameGrants(a: Allocation, b: Allocation) {
    |a.grants| == |b.grants| && forall i | 0 <= i < |a.grants| :: a.grants[i].grantID == b.grants[i].grantID
  }

  lemma AllocatedAnswers(s: State, id: string, d: Definition, now: int)
    requires Allocated(s, id, d)
    ensures Answers(AllocationAt(s, id, now), id, d)
  {
    hide GrantStateAt;
  }

  lemma CreatedAllocates(s: State, limits: Limits, random: Random, id: string, d: Definition, reading: ClockReading)
    requires Inv(s, limits)
    ensures forall r | r in s.rooms :: Resident(s, s.rooms[r].grants)
    ensures var (s', result) := CreateRoom(s, limits, random, id, d, reading);
      && (result.Ok? ==>
            && Canonical(id, d, limits).Ok?
            && Allocated(s', id, Canonical(id, d, limits).value)
            && result.value.0 == AllocationAt(s', id, reading.mono))
      && (result.Ok? && result.value.1 ==>
            && NextCredentials(s, random, |d.participants|).Some?
            && var credentials := NextCredentials(s, random, |d.participants|).value;
            && |result.value.0.grants| == |credentials|
            && forall i | 0 <= i < |credentials| ::
                 && result.value.0.grants[i].grantID == credentials[i].id
                 && result.value.0.grants[i].grantSecret == Some(credentials[i].secret)
                 && result.value.0.grants[i].state.Issued?)
  {
    hide Inv, AllocateRoom, DropStale, AccessTerminal, SameDefinition, GrantStateAt, ValidParticipants, Sort, AddRoom,
         NextCredentials, Committable;
    RoomsResident(s, limits);
    if Canonical(id, d, limits).Ok? && !(id in s.rooms && !Stale(s.rooms[id], reading.mono)) {
      var c := Canonical(id, d, limits).value;
      var s1 := DropStale(s, id, reading.mono);
      CanonicalIsValid(id, d, limits);
      CanonicalSize(id, d, limits);
      DropStaleFrame(s, id, reading.mono);
      if AllocateRoom(s1, limits, random, id, c, reading).1.Ok? {
        AllocateCommittable(s1, limits, random, id, c, reading);
        NextSame(s, s1, random, |d.participants|);
        var s2 := s1.(drawn := DrawCredentials(random, s1.drawn, s1.grantsByID.Keys, |c.participants|).1);
        var credentials := NextCredentials(s, random, |d.participants|).value;
        CommittableParts(s2, limits, id, c, credentials, reading);
        AddRoomAllocates(s2, limits, id, c, credentials, reading);
        NewcomersIssued(s2, limits, id, c, credentials, reading);
        AllocateAnswer(s1, limits, random, id, c, reading);
      }
    }
  }

  lemma AllocateAnswer(s: State, limits: Limits, random: Random, id: string, d: Definition, reading: ClockReading)
    requires AllocateRoom(s, limits, random, id, d, reading).1.Ok?
    ensures var (s', result) := AllocateRoom(s, limits, random, id, d, reading);
      id in s'.rooms && Resident(s', s'.rooms[id].grants) && result == Ok((AllocationAt(s', id, reading.mono), true))
  {
    hide NewGrant, NewIndex, NewLimiters, SessionNames, RoomNames, DeadlinesFit, Full, AllocationAt, DrawCredentials,
         DistinctCredentials;
  }

  lemma DeadlineIsAhead(expiresAt: int, reading: ClockReading, maxTTL: nat)
    requires DeadlineWithin(expiresAt, reading, maxTTL).Some?
    ensures reading.mono < DeadlineWithin(expiresAt, reading, maxTTL).value
  {
  }

  lemma NewcomersIssued(s: State, limits: Limits, id: string, d: Definition, credentials: seq<Credential>,
      reading: ClockReading)
    requires Committable(s, limits, id, d, credentials, reading)
    ensures var s' := AddRoom(s, limits, id, d, credentials, reading);
      && id in s'.rooms && Resident(s', s'.rooms[id].grants)
      && var a := AllocationAt(s', id, reading.mono);
      && |a.grants| == |credentials|
      && forall i | 0 <= i < |credentials| ::
           a.grants[i].grantID == credentials[i].id && a.grants[i].grantSecret == Some(credentials[i].secret)
             && a.grants[i].state.Issued?
  {
    hide AddRoom, DeadlineWithin, Unindexed, DistinctCredentials, Full;
    AddRoomAllocates(s, limits, id, d, credentials, reading);
    var s' := AddRoom(s, limits, id, d, credentials, reading);
    forall i | 0 <= i < |credentials| ensures reading.mono < s'.heap[s'.rooms[id].grants[i]].monoDeadline {
      DeadlineIsAhead(d.participants[i].grantExpiresAt, reading, limits.maxGrantTTL);
    }
  }

  lemma NextSame(s: State, s': State, random: Random, n: nat)
    requires s'.drawn == s.drawn && s'.grantsByID == s.grantsByID
    ensures NextCredentials(s', random, n) == NextCredentials(s, random, n)
  {
  }

  /** A retry for any reordering of the participants of an allocated room draws nothing,
      changes nothing and answers with the same grants while the room is accessible; later it
      is a conflict. */
  lemma RetryReturnsTheRoom(s: State, limits: Limits, random: Random, id: string, d: Definition, d': Definition,
      now: int, reading: ClockReading)
    requires Inv(s, limits)
    requires Canonical(id, d, limits).Ok? && Allocated(s, id, Canonical(id, d, limits).value)
    requires d'.capacity == d.capacity && d'.expiresAt == d.expiresAt
      && multiset(d'.participants) == multiset(d.participants)
    ensures forall r | r in s.rooms :: Resident(s, s.rooms[r].grants)
    ensures var (s', result) := CreateRoom(s, limits, random, id, d', reading);
      && s' == s
      && (result.Ok? <==> !AccessTerminal(s, id, reading.mono))
      && (result.Ok? ==>
            && !result.value.1 && Answers(result.value.0, id, Canonical(id, d, limits).value)
            && SameGrants(AllocationAt(s, id, now), result.value.0))
      && (result.Err? ==> result.error == ErrConflict)
  {
    hide Inv, ValidParticipants, Sort, AccessTerminal, SameDefinition, GrantStateAt;
    RoomsResident(s, limits);
    CanonicalUpToPermutation(id, d, d', limits);
    AllocatedAnswers(s, id, Canonical(id, d, limits).value, reading.mono);
  }
}
