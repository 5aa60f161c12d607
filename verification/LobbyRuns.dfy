/** Runs of the manager: the invariant after any calls, and revisions that never go back. */
module LobbyRuns {
  import opened Prelude
  import opened Identifier
  import opened Lobbies
  import opened LobbyOps
  import opened LobbyInvariant
  import opened QuickMatch

  /** One call, with what it drew and what the store answered. */
  datatype Call =
    | OnCreate(playerID: string, lobby: CreateRequest, lobbyDrawn: Option<string>)
    | OnJoin(playerID: string, lobbyID: string, revision: nat)
    | OnLeave(playerID: string, lobbyID: string, revision: nat)
    | OnReady(playerID: string, lobbyID: string, revision: nat, ready: bool)
    | OnStart(playerID: string, lobbyID: string, revision: nat, outcome: Result<Match, Error>)
    | OnEnqueue(playerID: string, request: EnqueueRequest, ticketDrawn: Option<string>, outcomes: seq<Result<Match,
      Error>>)
    | OnCancel(playerID: string, revision: nat)
    | OnRead

  datatype Step = Step(call: Call, reading: ClockReading)

  /** What the identifier source and the store promise. */
  ghost predicate Promised(s0: State, step: Step) {
    var s := Expire(s0, step.reading.mono);
    match step.call
    case OnCreate(_, _, drawn) => drawn.Some? ==> drawn.value !in s.lobbies
    case OnStart(playerID, lobbyID, revision, outcome) => StartAnswered(s, playerID, lobbyID, revision, outcome)
    case OnEnqueue(playerID, request, drawn, outcomes) =>
      ValidID(playerID) && ValidEnqueueRequest(request) ==>
        EnqueueAnswered(s, playerID, request, step.reading, drawn, outcomes)
    case _ => true
  }

  ghost function Next(s: State, step: Step): State
    requires Inv(s) && Promised(s, step)
  {
    hide Inv, Expire, StartAnswered, EnqueueAnswered, Starts;
    var now := step.reading.mono;
    match step.call
    case OnCreate(playerID, request, drawn) => Create(s, playerID, request, step.reading, drawn).0
    case OnJoin(playerID, lobbyID, revision) => Join(s, playerID, lobbyID, revision, now).0
    case OnLeave(playerID, lobbyID, revision) => Leave(s, playerID, lobbyID, revision, now).0
    case OnReady(playerID, lobbyID, revision, ready) => SetReady(s, playerID, lobbyID, revision, ready, now).0
    case OnStart(playerID, lobbyID, revision, outcome) =>
      StartKeepsInv(s, playerID, lobbyID, revision, now, outcome);
      Start(s, playerID, lobbyID, revision, now, outcome).0
    case OnEnqueue(playerID, request, drawn, outcomes) => Enqueue(s, playerID, request, step.reading, drawn, outcomes).0
    case OnCancel(playerID, revision) => Cancel(s, playerID, revision, now).0
    case OnRead => Expire(s, now)
  }

  /** Every lobby of `s'` is one of `s` with no lower revision, or was created since. */
  ghost predicate RevisionsGrow(s: State, s': State) {
    && s.nextSequence <= s'.nextSequence
    && forall l | l in s'.lobbies ::
         || s'.lobbies[l].sequence >= s.nextSequence
         || (l in s.lobbies && s.lobbies[l].sequence == s'.lobbies[l].sequence
            && s.lobbies[l].revision <= s'.lobbies[l].revision)
  }

  lemma GrowTransitive(s: State, s1: State, s2: State)
    requires RevisionsGrow(s, s1) && RevisionsGrow(s1, s2)
    requires forall l | l in s1.lobbies :: s1.lobbies[l].sequence < s1.nextSequence
    ensures RevisionsGrow(s, s2)
  {
  }

  lemma ExpireGrows(s: State, now: int)
    ensures RevisionsGrow(s, Expire(s, now))
  {
  }

  lemma ChangeGrows(s: State, s': State, lobbyID: string)
    requires ChangesOne(s, s', lobbyID) && s.nextSequence <= s'.nextSequence
      && (lobbyID in s'.lobbies ==> lobbyID in s.lobbies)
    ensures RevisionsGrow(s, s')
  {
  }

  lemma SequencesBelow(s: State)
    requires Inv(s)
    ensures forall l | l in s.lobbies :: s.lobbies[l].sequence < s.nextSequence
  {
    forall l | l in s.lobbies
      ensures s.lobbies[l].sequence < s.nextSequence
    {
      assert LobbyOK(s.lobbies[l], s.nextSequence);
    }
  }

  lemma CreateGrows(s0: State, playerID: string, request: CreateRequest, reading: ClockReading, id: Option<string>)
    ensures Create(s0, playerID, request, reading, id).0 == s0
      || RevisionsGrow(Expire(s0, reading.mono), Create(s0, playerID, request, reading, id).0)
  {
    hide Expire, ValidID;
  }

  lemma NoNewLobby(s0: State, playerID: string, lobbyID: string, revision: nat, ready: bool, now: int)
    ensures var s := Expire(s0, now);
      var joined := Join(s0, playerID, lobbyID, revision, now).0;
      var left := Leave(s0, playerID, lobbyID, revision, now).0;
      var marked := SetReady(s0, playerID, lobbyID, revision, ready, now).0;
      ValidCall(playerID, lobbyID, revision) && lobbyID !in s.lobbies ==> joined == left == marked == s
    ensures var s := Expire(s0, now);
      var joined := Join(s0, playerID, lobbyID, revision, now).0;
      var left := Leave(s0, playerID, lobbyID, revision, now).0;
      var marked := SetReady(s0, playerID, lobbyID, revision, ready, now).0;
      ValidCall(playerID, lobbyID, revision) ==>
        s.nextSequence <= joined.nextSequence && left.nextSequence == s.nextSequence == marked.nextSequence
    ensures !ValidCall(playerID, lobbyID, revision) ==>
      Join(s0, playerID, lobbyID, revision, now).0 == Leave(s0, playerID, lobbyID, revision, now).0
      == SetReady(s0, playerID, lobbyID, revision, ready, now).0 == s0
  {
    hide Expire, ValidID, Joined, Left, Marked;
  }

  lemma StartGrows(s0: State, playerID: string, lobbyID: string, revision: nat, now: int, outcome: Result<Match, Error>)
    requires Starts(Expire(s0, now), playerID, lobbyID, revision) && outcome.Ok? ==>
      playerID in outcome.value.assignments
    ensures var s' := Start(s0, playerID, lobbyID, revision, now, outcome).0;
      s' == s0 || RevisionsGrow(Expire(s0, now), s')
  {
    hide Expire, ValidID;
  }

  lemma {:induction false} MatchQueueLobbies(s: State, key: QueueKey, outcomes: seq<Result<Match, Error>>)
    requires Answered(s, key, outcomes)
    ensures var s' := MatchQueue(s, key, outcomes).0; s'.lobbies == s.lobbies && s'.nextSequence == s.nextSequence
    decreases |outcomes|
  {
    hide Formed, Filter;
    if |QueueAt(s, key)| >= key.capacity && outcomes[0].Ok? {
      MatchQueueLobbies(FormMatch(s, key, outcomes[0].value), key, outcomes[1..]);
    }
  }

  lemma EnqueueGrows(s0: State, playerID: string, request: EnqueueRequest, reading: ClockReading, id: Option<string>,
      outcomes: seq<Result<Match, Error>>)
    requires ValidID(playerID) && ValidEnqueueRequest(request) ==>
      EnqueueAnswered(Expire(s0, reading.mono), playerID, request, reading, id, outcomes)
    ensures var s' := Enqueue(s0, playerID, request, reading, id, outcomes).0;
      s' == s0 || (s'.lobbies == Expire(s0, reading.mono).lobbies
        && Expire(s0, reading.mono).nextSequence <= s'.nextSequence)
  {
    hide Expire, ValidID, MatchQueue, Answered, Filter;
    var s := Expire(s0, reading.mono);
    if ValidID(playerID) && ValidEnqueueRequest(request) && EnqueueRefusal(s, playerID, reading.mono, id).None? {
      MatchQueueLobbies(Ticketed(s, playerID, request, reading, id), QueueKey(request.queueKey, request.capacity),
        outcomes);
    }
  }

  lemma SameLobbiesGrow(s: State, s': State)
    requires s'.lobbies == s.lobbies && s.nextSequence <= s'.nextSequence
    ensures RevisionsGrow(s, s')
  {
  }

  /** Every call keeps the invariant, and no revision goes back. */
  lemma StepKeepsInv(s: State, step: Step)
    requires Inv(s) && Promised(s, step)
    ensures Inv(Next(s, step)) && RevisionsGrow(s, Next(s, step))
  {
    hide Inv, Expire, Create, Join, Leave, SetReady, Start, Enqueue, Cancel, RevisionsGrow, ChangesOne, Stale, Advanced,
         StartAnswered, EnqueueAnswered, Starts;
    var now := step.reading.mono;
    var s1, s' := Expire(s, now), Next(s, step);
    ExpireKeepsInv(s, now);
    ExpireGrows(s, now);
    SequencesBelow(s1);
    SameLobbiesGrow(s, s);
    SameLobbiesGrow(s1, s1);
    match step.call {
      case OnCreate(playerID, request, drawn) =>
        CreateKeepsInv(s, playerID, request, step.reading, drawn);
        CreateGrows(s, playerID, request, step.reading, drawn);
      case OnJoin(playerID, lobbyID, revision) =>
        JoinKeepsInv(s, playerID, lobbyID, revision, now);
        JoinChangesOne(s, playerID, lobbyID, revision, now);
        NoNewLobby(s, playerID, lobbyID, revision, false, now);
        if lobbyID in s1.lobbies && ValidCall(playerID, lobbyID, revision) { ChangeGrows(s1, s', lobbyID); }
      case OnLeave(playerID, lobbyID, revision) =>
        LeaveKeepsInv(s, playerID, lobbyID, revision, now);
        LeaveChangesOne(s, playerID, lobbyID, revision, now);
        NoNewLobby(s, playerID, lobbyID, revision, false, now);
        if lobbyID in s1.lobbies && ValidCall(playerID, lobbyID, revision) { ChangeGrows(s1, s', lobbyID); }
      case OnReady(playerID, lobbyID, revision, ready) =>
        SetReadyKeepsInv(s, playerID, lobbyID, revision, ready, now);
        SetReadyChangesOne(s, playerID, lobbyID, revision, ready, now);
        NoNewLobby(s, playerID, lobbyID, revision, ready, now);
        if lobbyID in s1.lobbies && ValidCall(playerID, lobbyID, revision) { ChangeGrows(s1, s', lobbyID); }
      case OnStart(playerID, lobbyID, revision, outcome) =>
        StartKeepsInv(s, playerID, lobbyID, revision, now, outcome);
        StartGrows(s, playerID, lobbyID, revision, now, outcome);
      case OnEnqueue(playerID, request, drawn, outcomes) =>
        EnqueueKeepsInv(s, playerID, request, step.reading, drawn, outcomes);
        EnqueueGrows(s, playerID, request, step.reading, drawn, outcomes);
        if s' != s { SameLobbiesGrow(s1, s'); }
      case OnCancel(playerID, revision) =>
        CancelKeepsInv(s, playerID, revision, now);
        CancelGrows(s, playerID, revision, now);
      case OnRead =>
    }
    if s' != s { GrowTransitive(s, s1, s'); }
  }

  lemma CancelGrows(s: State, playerID: string, revision: nat, now: int)
    ensures Cancel(s, playerID, revision, now).0 == s
      || RevisionsGrow(Expire(s, now), Cancel(s, playerID, revision, now).0)
  {
    hide Expire, ValidID, Without;
  }

  // ---------------------------------------------------------------- runs

  ghost predicate PromisedRun(s: State, steps: seq<Step>)
    requires Inv(s)
    decreases |steps|
  {
    hide Inv, Next;
    steps == [] || (Promised(s, steps[0]) && (StepKeepsInv(s, steps[0]); PromisedRun(Next(s, steps[0]), steps[1..])))
  }

  /** The state after any run of calls satisfies the invariant. */
  ghost function Run(s: State, steps: seq<Step>): (t: State)
    requires Inv(s) && PromisedRun(s, steps)
    ensures Inv(t)
    decreases |steps|
  {
    hide Inv, Next;
    if steps == [] then s else (StepKeepsInv(s, steps[0]); Run(Next(s, steps[0]), steps[1..]))
  }

  lemma {:induction false} RunGrows(s: State, steps: seq<Step>)
    requires Inv(s) && PromisedRun(s, steps)
    ensures RevisionsGrow(s, Run(s, steps))
    decreases |steps|
  {
    hide Inv, Next, RevisionsGrow;
    if steps == [] {
      SameLobbiesGrow(s, s);
    } else {
      StepKeepsInv(s, steps[0]);
      var s1 := Next(s, steps[0]);
      RunGrows(s1, steps[1..]);
      SequencesBelow(s1);
      GrowTransitive(s, s1, Run(s1, steps[1..]));
    }
  }

  /** Once a call has moved a lobby past revision `revision`, no later call that presents that
      revision changes this lobby: it finds the lobby gone, or is told of a conflict. */
  lemma OneChangePerRevision(s: State, steps: seq<Step>, lobbyID: string, revision: nat, playerID: string, ready: bool,
      now: int)
    requires Inv(s) && PromisedRun(s, steps)
    requires lobbyID in s.lobbies && s.lobbies[lobbyID].revision > revision && ValidCall(playerID, lobbyID, revision)
    ensures var t := Run(s, steps);
      var later := Expire(t, now);
      lobbyID in later.lobbies && later.lobbies[lobbyID].sequence == s.lobbies[lobbyID].sequence ==>
        && Join(t, playerID, lobbyID, revision, now) == (later, Err(ErrConflict))
        && Leave(t, playerID, lobbyID, revision, now) == (later, Err(ErrConflict))
        && SetReady(t, playerID, lobbyID, revision, ready, now) == (later, Err(ErrConflict))
        && Start(t, playerID, lobbyID, revision, now, Err(ErrUnavailable)) == (later, Err(ErrConflict))
  {
    hide Inv, Next, PromisedRun, Run, ValidID;
    var t := Run(s, steps);
    RunGrows(s, steps);
    ExpireGrows(t, now);
    SequencesBelow(s);
    SequencesBelow(t);
    hide Expire;
    GrowTransitive(s, t, Expire(t, now));
  }

  /** What the invariant says of who plays where: a player is in one lobby or in one queue, and
      the index of players is the inverse of membership; a lobby belongs to its first member;
      nobody overtakes in a queue; and a match of tickets is a whole group. */
  ghost predicate InOrderThroughout(t: State) {
    && (forall p :: !(p in t.lobbyByPlayer && p in t.tickets))
    && (forall p, l :: (p in t.lobbyByPlayer && t.lobbyByPlayer[p] == l) <==>
       (l in t.lobbies && p in t.lobbies[l].members))
    && (forall l | l in t.lobbies ::
          IsFirst(t.lobbies[l].members, t.lobbies[l].owner) && 1 <= |t.lobbies[l].members| <= t.lobbies[l].capacity)
    && (forall p, q | p in t.tickets && q in t.tickets && t.tickets[p].state.TicketMatched?
       && t.tickets[q].state.TicketQueued?
          && KeyOf(t.tickets[p]) == KeyOf(t.tickets[q]) :: t.tickets[p].sequence < t.tickets[q].sequence)
    && (forall p | p in t.tickets && t.tickets[p].assignment.Some? ::
          && t.tickets[p].assignment.value.matchID in t.matchIDs
          && |Group(t.tickets, t.tickets[p].assignment.value.matchID)| == t.tickets[p].capacity)
  }

  /** In every reachable state. */
  lemma ReachableStates(steps: seq<Step>)
    ensures Inv(INIT) && (PromisedRun(INIT, steps) ==> InOrderThroughout(Run(INIT, steps)))
  {
    hide Inv, Next, PromisedRun, Run, InOrderThroughout;
    InitOK();
    if PromisedRun(INIT, steps) { InvMeans(Run(INIT, steps)); }
  }

  lemma InvMeans(t: State)
    requires Inv(t)
    ensures InOrderThroughout(t)
  {
    hide PlayersOK, LobbiesOK, TicketsOK, QueuesOK, MatchesOK, IsFirst;
    PlayersHave(t);
    LobbiesHave(t);
    GroupsHave(t);
  }

  lemma PlayersHave(t: State)
    requires PlayersOK(t)
    ensures forall p :: !(p in t.lobbyByPlayer && p in t.tickets)
    ensures forall p, l :: (p in t.lobbyByPlayer && t.lobbyByPlayer[p] == l) <==>
      (l in t.lobbies && p in t.lobbies[l].members)
  {
  }

  lemma LobbiesHave(t: State)
    requires LobbiesOK(t)
    ensures forall l | l in t.lobbies ::
      IsFirst(t.lobbies[l].members, t.lobbies[l].owner) && 1 <= |t.lobbies[l].members| <= t.lobbies[l].capacity
  {
    forall l | l in t.lobbies ensures LobbyOK(t.lobbies[l], t.nextSequence) {}
    hide LobbiesOK, DistinctJoins, IsFirst;
  }

  lemma GroupsHave(t: State)
    requires MatchesOK(t)
    ensures forall p | p in t.tickets && t.tickets[p].assignment.Some? ::
      && t.tickets[p].assignment.value.matchID in t.matchIDs
      && |Group(t.tickets, t.tickets[p].assignment.value.matchID)| == t.tickets[p].capacity
  {
    forall p | p in t.tickets && t.tickets[p].assignment.Some?
      ensures t.tickets[p].assignment.value.matchID in t.matchIDs
        && WholeGroup(t.tickets, p, t.tickets[p].assignment.value.matchID)
    {
      HoldersAgree(t, p, t.tickets[p].assignment.value.matchID);
    }
    hide MatchesOK;
  }
}
