/** Why grant identifiers must be fresh: what a creation that draws the identifier of an ended
    grant leaves behind, in general and in a run of three operations on a new store. */
module StoreRepeats {
  import opened Prelude
  import opened RateLimit
  import opened Admission
  import opened Identifier
  import opened Definitions
  import opened Transcript
  import opened StoreModel
  import opened StoreDeletion
  import opened StoreAdmission
  import opened StoreInvariant
  import opened StoreRooms
  import opened StoreCreation
  import opened StoreRuns
  import opened StoreSweep

  // ---------------------------------------------------------------- any repeated draw

  /** All indexes of `t` are exact, but the ended grant `r` and the live grant `q` share an
      identifier, and deleting `r` by it once more would lose `q`. */
  ghost predicate Endangered(t: State, r: Ref, q: Ref) {
    && IndexesOK(t) && r in t.heap && q in t.heap && t.heap[r].id == t.heap[q].id && !Live(t.heap[r]) && Live(t.heap[q])
    && !IndexExact(t.grantsByID - {t.heap[r].id}, t.heap, LiveIDs)
  }

  /** The commit of a room whose grant `i` repeats the identifier of a resident grant `r`. */
  lemma RepeatedCommit(s: State, limits: Limits, id: string, d: Definition, credentials: seq<Credential>,
      reading: ClockReading, i: nat, r: Ref)
    requires |credentials| == |d.participants| && DeadlinesFit(d, limits, reading)
    requires Inv(s, limits) && Committable(s, limits, id, d, credentials, reading) && i < |credentials|
    requires r in s.heap && s.heap[r].id == credentials[i].id
    ensures Endangered(AddRoom(s, limits, id, d, credentials, reading), r, s.nextRef + i)
  {
    hide Inv, AddRoom, DeadlinesFit, IndexExact, AddedRoom, GrantOK, NewIndex, DistinctCredentials, Committable,
         LiveIDs, Newcomer, Unindexed, Full;
    CommittableParts(s, limits, id, d, credentials, reading);
    IndexesHold(s, limits);
    var t := AddRoom(s, limits, id, d, credentials, reading);
    RefsBelowNext(s, limits);
    AddRoomGrants(s, limits, id, d, credentials, reading);
    AddedKeepsIndexes(s, t, id, credentials);
    RepeatIsDead(s, limits, credentials, i, r);
    AddedAt(s, t, id, credentials, i);
    SharedIsExposed(t, r, s.nextRef + i);
  }

  lemma SharedIsExposed(t: State, r: Ref, q: Ref)
    requires IndexesOK(t) && r in t.heap && q in t.heap && t.heap[r].id == t.heap[q].id && !Live(t.heap[r])
      && Live(t.heap[q])
    ensures Endangered(t, r, q)
  {
    hide IndexExact, LiveIDs, CandidateIDs, BindingIDs;
    DeletionIsExactIffUnshared(t.grantsByID, t.heap, r);
  }

  /** The commit of a new room leaves all indexes exact whatever was drawn; that the deletion of
      an ended grant by its identifier keeps them exact holds if and only if the new identifiers
      were fresh. */
  lemma DeletionsStayExactIffFresh(s: State, limits: Limits, id: string, d: Definition, credentials: seq<Credential>,
      reading: ClockReading)
    requires |credentials| == |d.participants| && DeadlinesFit(d, limits, reading)
    requires Inv(s, limits) && Committable(s, limits, id, d, credentials, reading)
    ensures var t := AddRoom(s, limits, id, d, credentials, reading);
      && IndexesOK(t)
      && ((forall r | r in t.heap && !Live(t.heap[r]) ::
         IndexExact(t.grantsByID - {t.heap[r].id}, t.heap, LiveIDs)) <==> FreshIDs(s, credentials))
  {
    hide Inv, AddRoom, DeadlinesFit, IndexExact, AddedRoom, GrantOK, NewIndex, DistinctCredentials, Committable,
         LiveIDs, Newcomer, Unindexed, Full, Evolves;
    CommittableParts(s, limits, id, d, credentials, reading);
    IndexesHold(s, limits);
    var t := AddRoom(s, limits, id, d, credentials, reading);
    RefsBelowNext(s, limits);
    AddRoomGrants(s, limits, id, d, credentials, reading);
    AddedKeepsIndexes(s, t, id, credentials);
    if FreshIDs(s, credentials) {
      AddRoomKeepsInvIffFresh(s, limits, id, d, credentials, reading, 0);
      UniqueIDsHold(t, limits);
      forall r | r in t.heap && !Live(t.heap[r]) ensures IndexExact(t.grantsByID - {t.heap[r].id}, t.heap, LiveIDs) {
        DeletionIsExactIffUnshared(t.grantsByID, t.heap, r);
      }
    } else {
      var i, r :| 0 <= i < |credentials| && r in s.heap && s.heap[r].id == credentials[i].id;
      RepeatedCommit(s, limits, id, d, credentials, reading, i, r);
    }
  }

  lemma UniqueIDsHold(s: State, limits: Limits)
    requires Inv(s, limits)
    ensures forall r, q | r in s.heap && q in s.heap && s.heap[r].id == s.heap[q].id :: r == q
  {
  }

  lemma AddedAt(s: State, t: State, id: string, credentials: seq<Credential>, i: nat)
    requires AddedGrants(s, t, id, credentials) && i < |credentials|
    ensures s.nextRef + i in t.heap && t.heap[s.nextRef + i].id == credentials[i].id && Live(t.heap[s.nextRef + i])
  {
    var q: Ref := s.nextRef + i;
    assert q - s.nextRef == i;
    assert Newcomer(t.heap[q], t.rooms[id], id, credentials[q - s.nextRef].id);
  }

  /** An identifier that was drawn although a resident grant carries it is that of an ended one. */
  lemma RepeatIsDead(s: State, limits: Limits, credentials: seq<Credential>, i: nat, r: Ref)
    requires Inv(s, limits) && Unindexed(s, credentials) && i < |credentials| && r in s.heap
      && s.heap[r].id == credentials[i].id
    ensures !Live(s.heap[r])
  {
    IndexesHold(s, limits);
    hide Inv;
    OwnKeys(s.grantsByID, s.heap, LiveIDs, r, s.heap[r]);
  }

  // ---------------------------------------------------------------- a run

  const ONE := Budget(1, 1)

  const LIMITS := Limits(10, 10, 2, 10, 100, 100, 10, 10, 5, 5, ONE, ONE, ONE, ONE, ONE, ONE, ONE, ONE, ONE, ONE, ONE,
    ONE, ONE, ONE)

  const SHORT := Participant("a", "s", 10)
  const LONG := Participant("b", "t", 50)
  const LATE := Participant("c", "u", 60)

  const FIRST := Definition(2, 50, [SHORT, LONG])
  const SECOND := Definition(1, 60, [LATE])

  const START := ClockReading(0, 0)
  const LATER := ClockReading(20, 20)

  /** The fifth read repeats the first. */
  function Reads(at: nat): Option<Bytes> { Some(if at == 0 || at == 4 then [1] else if at == 2 then [2] else [9]) }

  function NoHmac(key: Bytes, message: Bytes): Bytes { [] }

  const ENV := Env(LIMITS, NoHmac, Reads)

  const BEFORE := [Step(OnCreate("r-1", FIRST), START), Step(OnSweep(["r-1"]), LATER)]
  const REPEAT := Step(OnCreate("r-2", SECOND), LATER)

  const DRAWN: seq<Credential> := [Credential([1], [9]), Credential([2], [9])]

  lemma FirstCanonical()
    ensures Canonical("r-1", FIRST, LIMITS) == Ok(FIRST)
  {
    FirstValid();
    assert Less(SHORT, LONG);
    assert [SHORT, LONG][1..] == [LONG] && [LONG][1..] == [];
    assert Sort([LONG]) == [LONG];
    assert Sort([SHORT, LONG]) == Insert(SHORT, [LONG]);
    assert [SHORT] + [LONG] == [SHORT, LONG];
    hide Sort, Insert, ValidParticipants;
  }

  lemma FirstValid()
    ensures ValidID("r-1") && ValidID("r-2") && ValidParticipants([SHORT, LONG], 50) && ValidParticipants([LATE], 60)
  {
    assert "a" != "b" && "s" != "t";
  }

  lemma FirstDrawn()
    ensures DrawCredentials(Reads, 0, {}, 2) == (Some(DRAWN), 4)
  {
    assert UniqueID(Reads, 0, {}, ID_DRAWS) == (Some([1]), 1);
    assert UniqueID(Reads, 2, {} + {[1]}, ID_DRAWS) == (Some([2]), 3);
    assert DrawCredentials(Reads, 4, {} + {[1]} + {[2]}, 0) == (Some([]), 4);
    assert [Credential([2], [9])] + [] == [Credential([2], [9])];
    assert DrawCredentials(Reads, 2, {} + {[1]}, 1) == (Some([Credential([2], [9])]), 4);
    assert [Credential([1], [9])] + [Credential([2], [9])] == DRAWN;
  }

  lemma SecondDrawn(taken: set<Bytes>)
    requires [1] !in taken
    ensures DrawCredentials(Reads, 4, taken, 1) == (Some([Credential([1], [9])]), 6)
  {
    assert UniqueID(Reads, 4, taken, ID_DRAWS) == (Some([1]), 5);
    assert DrawCredentials(Reads, 6, taken + {[1]}, 0) == (Some([]), 6);
    assert [Credential([1], [9])] + [] == [Credential([1], [9])];
  }

  /** The first room, its grants ending at 10 and at 50. */
  ghost predicate FirstRoom(s: State) {
    && "r-1" in s.rooms && s.rooms.Keys == {"r-1"} && s.rooms["r-1"].state.Open? && s.rooms["r-1"].monoDeadline == 50
    && s.rooms["r-1"].grants == [0, 1] && s.heap.Keys == {0, 1} && s.nextRef == 2 && s.drawn == 4
    && s.heap[0].id == [1] && s.heap[0].monoDeadline == 10 && s.heap[1].monoDeadline == 50 && Live(s.heap[0])
  }

  lemma FirstAdded()
    ensures DeadlinesFit(FIRST, LIMITS, START)
    ensures FirstRoom(AddRoom(Init(LIMITS).(drawn := 4), LIMITS, "r-1", FIRST, DRAWN, START))
  {
    hide AddRoom, NewHeap, InitialGate, Committable;
    var s0 := Init(LIMITS).(drawn := 4);
    FirstCommittable();
    FirstHeap();
    AddRoomRoom(s0, LIMITS, "r-1", FIRST, DRAWN, START);
    AddRoomHeap(s0, LIMITS, "r-1", FIRST, DRAWN, START);
    AddRoomDrawn(s0, LIMITS, "r-1", FIRST, DRAWN, START);
    var s := AddRoom(s0, LIMITS, "r-1", FIRST, DRAWN, START);
    var grants := s.rooms["r-1"].grants;
    assert grants[0] == 0 && grants[1] == 1 && grants == [0, 1];
    hide AddedRoom;
  }

  lemma FirstHeap()
    ensures DeadlinesFit(FIRST, LIMITS, START)
    ensures var heap := NewHeap("r-1", FIRST, DRAWN, 0, LIMITS, START);
      && heap.Keys == {0, 1} && heap[0].id == [1] && Live(heap[0]) && heap[0].monoDeadline == 10
         && heap[1].monoDeadline == 50
  {
    hide NewHeap;
    NewHeapMeans("r-1", FIRST, DRAWN, 0, LIMITS, START);
    assert FIRST.participants[0] == SHORT && FIRST.participants[1] == LONG;
    var r0: Ref, r1: Ref := 0, 1;
    assert r0 - 0 == 0 && r1 - 0 == 1;
  }

  lemma FirstCreated()
    ensures forall r | r in Init(LIMITS).rooms :: Resident(Init(LIMITS), Init(LIMITS).rooms[r].grants)
    ensures var (s, result) := CreateRoom(Init(LIMITS), LIMITS, Reads, "r-1", FIRST, START); result.Ok? && FirstRoom(s)
  {
    hide Inv, AddRoom, AllocationAt, DrawCredentials, UniqueID, Canonical, FirstRoom, InitialGate, DeadlinesFit;
    FirstCanonical();
    FirstDrawn();
    FirstAdded();
  }

  lemma AddRoomDrawn(s: State, limits: Limits, id: string, d: Definition, credentials: seq<Credential>,
      reading: ClockReading)
    requires |credentials| == |d.participants| && DeadlinesFit(d, limits, reading)
    ensures AddRoom(s, limits, id, d, credentials, reading).drawn == s.drawn
  {
    hide NewHeap, NewRefs, NewIndex, NewLimiters, SessionNames, RoomNames;
  }

  lemma FirstCommittable()
    ensures Committable(Init(LIMITS).(drawn := 4), LIMITS, "r-1", FIRST, DRAWN, START)
  {
  }

  lemma FirstSweep(s: State)
    requires Inv(s, LIMITS) && FirstRoom(s)
    ensures var t := Expire(s, LIMITS, ["r-1"], 20);
      && t.rooms == s.rooms && t.heap.Keys == {0, 1} && t.nextRef == 2 && t.drawn == 4 && t.heap[0].id == [1]
         && !Live(t.heap[0])
  {
    hide Inv, SweepGrants, Swept, TombstoneRoom, SweepSources, Evolves, LastDeadline;
    var refs: seq<Ref> := [0, 1];
    RoomsResident(s, LIMITS);
    SweptPair(s, 20);
    var t := SweepGrants(s, refs, 20);
    LastIsLong(t, refs);
    assert ["r-1"][1..] == [];
  }

  lemma SweptPair(s: State, now: int)
    requires s.heap.Keys == {0, 1} && s.heap[0].monoDeadline <= now < s.heap[1].monoDeadline
    ensures Resident(s, [0, 1])
    ensures var t := SweepGrants(s, [0, 1], now);
      && SameRooms(s, t) && t.heap.Keys == {0, 1} && t.heap[0].id == s.heap[0].id && !Live(t.heap[0])
      && t.heap[1].monoDeadline == s.heap[1].monoDeadline
  {
    hide SweepGrants, Swept;
    var refs: seq<Ref> := [0, 1];
    assert refs[0] == 0 && refs[1] == 1;
    SweepGrantsFrame(s, refs, now);
    ExpiredIdentity(s.heap[0], now);
    ExpiredIdentity(s.heap[1], now);
    var t := SweepGrants(s, refs, now);
    assert t.heap.Keys == s.heap.Keys && refs[0] in s.heap.Keys && refs[1] in s.heap.Keys;
    assert t.heap[refs[0]] == Swept(s.heap[refs[0]], now) && t.heap[refs[1]] == Swept(s.heap[refs[1]], now);
  }

  lemma LastIsLong(s: State, refs: seq<Ref>)
    requires Resident(s, refs) && refs == [0, 1] && 1 in s.heap && s.heap[1].monoDeadline == 50
    ensures LastDeadline(s, refs) >= 50
  {
    LastDeadlineIsMax(s, refs);
    assert s.heap[refs[1]].monoDeadline == 50;
    hide LastDeadline;
  }

  /** The second creation draws the identifier of the ended grant. */
  lemma SecondCommits(s: State)
    requires Inv(s, LIMITS) && s.rooms.Keys == {"r-1"} && s.heap.Keys == {0, 1} && s.nextRef == 2 && s.drawn == 4
    requires s.heap[0].id == [1] && !Live(s.heap[0])
    ensures forall r | r in s.rooms :: Resident(s, s.rooms[r].grants)
    ensures NextCredentials(s, Reads, 1) == Some([Credential([1], [9])])
    ensures Committable(s.(drawn := 6), LIMITS, "r-2", SECOND, [Credential([1], [9])], LATER)
      && DeadlinesFit(SECOND, LIMITS, LATER)
    ensures var (t, result) := CreateRoom(s, LIMITS, Reads, "r-2", SECOND, LATER);
      && result.Ok? && result.value.1
      && t == AddRoom(s.(drawn := 6), LIMITS, "r-2", SECOND, [Credential([1], [9])], LATER)
  {
    hide Inv, AddRoom, AllocationAt, DrawCredentials, UniqueID, Canonical;
    RoomsResident(s, LIMITS);
    SecondCanonical();
    EndedUnindexed(s, LIMITS, 0);
    SecondDrawn(s.grantsByID.Keys);
    RoomForSecond(s);
    assert DeadlineWithin(60, LATER, 100) == Some(60);
  }

  lemma SecondCanonical()
    ensures Canonical("r-2", SECOND, LIMITS) == Ok(SECOND)
  {
    FirstValid();
    assert [LATE][1..] == [] && Sort([LATE]) == [LATE];
    hide Sort, Insert, ValidParticipants;
  }

  lemma EndedUnindexed(s: State, limits: Limits, r: Ref)
    requires Inv(s, limits) && r in s.heap && !Live(s.heap[r])
    ensures s.heap[r].id !in s.grantsByID
  {
    if s.heap[r].id in s.grantsByID { GrantsIndexed(s, limits, s.heap[r].id); }
  }

  lemma RoomForSecond(s: State)
    requires Inv(s, LIMITS) && s.rooms.Keys == {"r-1"} && s.heap.Keys == {0, 1}
    ensures !Full(s, LIMITS, 1)
  {
    hide Inv;
    ActiveSessionsIsLiveGrants(s, LIMITS);
    CountersHold(s, LIMITS);
    SubsetSize(LiveRefs(s.heap), {0, 1});
    SubsetSize(OpenRooms(s.rooms), {"r-1"});
    assert |s.rooms| == |s.rooms.Keys|;
  }

  /** Two operations of a new store, and a third that repeats an identifier: all indexes are
      still exact, but the ended grant and the new one share it, and when the ended grant is
      deleted by it once more, the new one is lost although it lives. */
  lemma RepeatedIdentifierLosesALiveGrant()
    ensures LIMITS.Valid() && Inv(Init(LIMITS), LIMITS) && FreshRun(Init(LIMITS), ENV, BEFORE)
    ensures var s := Run(Init(LIMITS), ENV, BEFORE);
      && !FreshStep(s, ENV, REPEAT)
      && Endangered(Next(s, ENV, REPEAT), 0, 2)
  {
    hide Inv, CreateRoom, Expire, AddRoom, IndexExact, Outcome, Rejection, Committable, Endangered, DeadlinesFit;
    InitOK(LIMITS);
    FirstCreated();
    var s0 := Init(LIMITS);
    StepKeepsInv(s0, ENV, BEFORE[0]);
    var s1 := Next(s0, ENV, BEFORE[0]);
    FirstSweep(s1);
    TwoSteps(s0, ENV, BEFORE);
    var s := Next(s1, ENV, BEFORE[1]);
    SecondCommits(s);
    NotFresh(s);
    DrawnIrrelevant(s, LIMITS, 6, 0);
    RepeatedCommit(s.(drawn := 6), LIMITS, "r-2", SECOND, [Credential([1], [9])], LATER, 0, 0);
  }

  lemma NotFresh(s: State)
    requires NextCredentials(s, Reads, 1) == Some([Credential([1], [9])]) && 0 in s.heap && s.heap[0].id == [1]
    ensures !DrawsFresh(s, Reads, |SECOND.participants|)
  {
    hide NextCredentials;
    var credentials: seq<Credential> := [Credential([1], [9])];
    assert s.heap[0].id == credentials[0].id;
  }

  lemma TwoSteps(s: State, env: Env, steps: seq<Step>)
    requires Inv(s, env.limits) && env.limits.Valid() && |steps| == 2 && FreshStep(s, env, steps[0])
      && !steps[1].op.OnCreate?
    ensures Inv(Next(s, env, steps[0]), env.limits) && Inv(Next(Next(s, env, steps[0]), env, steps[1]), env.limits)
    ensures FreshRun(s, env, steps) && Run(s, env, steps) == Next(Next(s, env, steps[0]), env, steps[1])
  {
    hide Inv, Next, Outcome, Rejection, FreshStep;
    StepKeepsInv(s, env, steps[0]);
    assert steps[1..] == [steps[1]];
    OneStep(Next(s, env, steps[0]), env, steps[1]);
  }

  lemma OneStep(s: State, env: Env, step: Step)
    requires Inv(s, env.limits) && env.limits.Valid() && !step.op.OnCreate?
    ensures Inv(Next(s, env, step), env.limits)
    ensures FreshRun(s, env, [step]) && Run(s, env, [step]) == Next(s, env, step)
  {
    hide Inv, Next, Outcome, Rejection, Created, DrawsFresh;
    StepKeepsInv(s, env, step);
    assert [step][1..] == [];
    assert FreshRun(Next(s, env, step), env, []);
  }
}
