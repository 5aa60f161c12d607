/** The grants of a store keep who they are for: no operation changes the identity of a
    resident grant, and every name in it is a valid identifier. */
module StoreNames {
  import opened Prelude
  import opened Admission
  import opened Identifier
  import opened Definitions
  import opened StoreModel
  import opened StoreDeletion
  import opened StoreAdmission
  import opened StoreInvariant
  import opened StoreRooms
  import opened StoreCreation
  import opened StoreRuns
  import opened StoreFreshness

  ghost predicate NamesValid(s: State) {
    forall r | r in s.heap :: ValidNames(s.heap[r])
  }

  ghost predicate ValidNames(g: Grant) { ValidID(g.roomID) && ValidID(g.participantID) && ValidID(g.sessionID) }

  /** A step that creates nothing leaves every grant that is still resident its identity. */
  lemma IdentitiesKept(s: State, env: Env, step: Step)
    requires Inv(s, env.limits) && env.limits.Valid() && !step.op.OnCreate?
    ensures forall r | r in Next(s, env, step).heap ::
      r in s.heap && SameIdentity(s.heap[r], Next(s, env, step).heap[r])
  {
    hide Inv, Next, Outcome, SameIdentity;
    StepKeepsInv(s, env, step);
    StepOnward(s, env, step);
    RefsBelowNext(Next(s, env, step), env.limits);
    OutcomeIdentities(s, Next(s, env, step), step);
  }

  lemma OutcomeIdentities(s: State, s': State, step: Step)
    requires Outcome(s, s', step) && s'.nextRef == s.nextRef && forall r | r in s'.heap :: r < s'.nextRef
    ensures forall r | r in s'.heap :: r in s.heap && SameIdentity(s.heap[r], s'.heap[r])
  {
    hide Live, Unexpired, SameBinding, NextGeneration;
  }

  lemma AddRoomNames(s: State, limits: Limits, id: string, d: Definition, credentials: seq<Credential>,
      reading: ClockReading)
    requires |credentials| == |d.participants| && DeadlinesFit(d, limits, reading)
    requires NamesValid(s) && ValidID(id) && ValidParticipants(d.participants, d.expiresAt)
    ensures NamesValid(AddRoom(s, limits, id, d, credentials, reading))
  {
    hide AddRoom, NewHeap, DeadlineWithin, ValidID;
    AddRoomHeap(s, limits, id, d, credentials, reading);
    NewHeapMeans(id, d, credentials, s.nextRef, limits, reading);
  }

  lemma AllocatedNames(s: State, limits: Limits, random: Random, id: string, d: Definition, reading: ClockReading)
    requires Inv(s, limits) && id !in s.rooms && d.capacity == |d.participants|
      && 0 < d.capacity <= limits.maxRoomCapacity
    requires NamesValid(s) && ValidID(id) && ValidParticipants(d.participants, d.expiresAt)
    ensures NamesValid(AllocateRoom(s, limits, random, id, d, reading).0)
  {
    hide Inv, AddRoom, Committable, DeadlinesFit, AllocationAt, DrawCredentials, ValidParticipants, Evolves, DrawsFresh,
         ValidNames, NextCredentials;
    var (s', result) := AllocateRoom(s, limits, random, id, d, reading);
    AllocateKeepsInv(s, limits, random, id, d, reading);
    if result.Ok? {
      var s1 := s.(drawn := DrawCredentials(random, s.drawn, s.grantsByID.Keys, |d.participants|).1);
      AllocateCommittable(s, limits, random, id, d, reading);
      var credentials := NextCredentials(s, random, |d.participants|).value;
      CommittableParts(s1, limits, id, d, credentials, reading);
      AddRoomNames(s1, limits, id, d, credentials, reading);
    }
  }

  lemma CreatedNames(s: State, limits: Limits, random: Random, id: string, d: Definition, reading: ClockReading)
    requires Inv(s, limits) && NamesValid(s)
    ensures forall r | r in s.rooms :: Resident(s, s.rooms[r].grants)
    ensures NamesValid(CreateRoom(s, limits, random, id, d, reading).0)
  {
    hide Inv, AllocateRoom, DropStale, Evolves, AccessTerminal, SameDefinition, AllocationAt, ValidParticipants, Sort,
         ValidNames, ValidID;
    RoomsResident(s, limits);
    if Canonical(id, d, limits).Ok? && !(id in s.rooms && !Stale(s.rooms[id], reading.mono)) {
      var c := Canonical(id, d, limits).value;
      var s1 := DropStale(s, id, reading.mono);
      CanonicalIsValid(id, d, limits);
      DropStaleFrame(s, id, reading.mono);
      DropStaleKeepsInv(s, limits, id, reading.mono);
      AllocatedNames(s1, limits, random, id, c, reading);
    }
  }

  lemma StepKeepsNames(s: State, env: Env, step: Step)
    requires Inv(s, env.limits) && env.limits.Valid() && NamesValid(s)
    ensures NamesValid(Next(s, env, step))
  {
    hide Inv, ValidNames, SameIdentity;
    if step.op.OnCreate? {
      hide CreateRoom;
      CreatedNames(s, env.limits, env.random, step.op.roomID, step.op.definition, step.reading);
    } else {
      hide Next;
      IdentitiesKept(s, env, step);
      forall r | r in Next(s, env, step).heap ensures ValidNames(Next(s, env, step).heap[r]) {
        SameNames(s.heap[r], Next(s, env, step).heap[r]);
      }
    }
  }

  lemma SameNames(g: Grant, g': Grant)
    requires SameIdentity(g, g')
    ensures ValidNames(g') <==> ValidNames(g)
  {
    hide ValidID;
  }

  /** In every reachable state each grant is for a valid participant, session and room. */
  lemma {:induction false} RunKeepsNames(s: State, env: Env, steps: seq<Step>)
    requires Inv(s, env.limits) && env.limits.Valid() && FreshRun(s, env, steps) && NamesValid(s)
    ensures NamesValid(Run(s, env, steps))
    decreases |steps|
  {
    hide Inv, Next, FreshStep, NamesValid;
    if steps != [] {
      StepKeepsInv(s, env, steps[0]);
      StepKeepsNames(s, env, steps[0]);
      RunKeepsNames(Next(s, env, steps[0]), env, steps[1..]);
    }
  }

  lemma NoNames(limits: Limits)
    ensures NamesValid(Init(limits))
  {
  }
}
