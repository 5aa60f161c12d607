/** Quick Match: tickets queue per key and capacity, and the oldest ones are matched first. */
module QuickMatch {
  import opened Prelude
  import opened Identifier
  import opened Lobbies
  import opened LobbyOps
  import opened LobbyInvariant

  datatype EnqueueRequest = EnqueueRequest(queueKey: string, capacity: nat)

  predicate ValidEnqueueRequest(request: EnqueueRequest) {
    ValidID(request.queueKey) && 2 <= request.capacity <= HARD_MAX_MEMBERS
  }

  function QueueAt(s: State, key: QueueKey): seq<string> { if key in s.queues then s.queues[key] else [] }

  /** An empty queue has no entry. */
  function WithQueue(queues: map<QueueKey, seq<string>>, key: QueueKey, q: seq<string>): map<QueueKey, seq<string>> {
    if q == [] then queues - {key} else queues[key := q]
  }

  /** The players with a queued ticket for `key`. */
  function QueuedFor(tickets: map<string, Ticket>, key: QueueKey): set<string> {
    set p | p in tickets && tickets[p].state.TicketQueued? && KeyOf(tickets[p]) == key
  }

  /** Drop whoever no longer queues for `key`. */
  function Compacted(s: State, key: QueueKey): State {
    s.(queues := WithQueue(s.queues, key, Filter(QueueAt(s, key), QueuedFor(s.tickets, key))))
  }

  /** The matched players' tickets carry their assignments and the deadline of the match. */
  function Formed(tickets: map<string, Ticket>, players: seq<string>, m: Match): map<string, Ticket> {
    map p | p in tickets ::
      if p in players && p in m.assignments then
        tickets[p].(state := TicketMatched, revision := tickets[p].revision + 1, expiresAt := m.expiresAt,
          monoDeadline := m.deadline,
                    assignment := Some(m.assignments[p]))
      else tickets[p]
  }

  /** The first `capacity` players of the queue leave it matched. */
  function FormMatch(s: State, key: QueueKey, m: Match): State
    requires |QueueAt(s, key)| >= key.capacity
  {
    s.(tickets := Formed(s.tickets, QueueAt(s, key)[..key.capacity], m), matchIDs := s.matchIDs + {m.matchID},
       queues := WithQueue(s.queues, key, QueueAt(s, key)[key.capacity..]))
  }

  /** There is exactly one answer for every allocation that is asked for, and each allocation
      that succeeds keeps its promise. */
  ghost predicate Answered(s: State, key: QueueKey, outcomes: seq<Result<Match, Error>>)
    decreases |outcomes|
  {
    if |QueueAt(s, key)| < key.capacity then outcomes == []
    else
      && outcomes != []
      && if outcomes[0].Err? then |outcomes| == 1
         else Allocated(s, QueueAt(s, key)[..key.capacity], outcomes[0].value)
              && Answered(FormMatch(s, key, outcomes[0].value), key, outcomes[1..])
  }

  /** Match from the front of a queue until it is short, or until an allocation fails. */
  function MatchQueue(s: State, key: QueueKey, outcomes: seq<Result<Match, Error>>): (State, Option<Error>)
    requires Answered(s, key, outcomes)
    decreases |outcomes|
  {
    if |QueueAt(s, key)| < key.capacity then (s, None)
    else if outcomes[0].Err? then (s, Some(outcomes[0].error))
    else MatchQueue(FormMatch(s, key, outcomes[0].value), key, outcomes[1..])
  }

  function WithTicket(s: State, playerID: string, request: EnqueueRequest, id: string, wall: int,
      deadline: int): State {
    var key := QueueKey(request.queueKey, request.capacity);
    s.(tickets := s.tickets[playerID := Ticket(id, request.queueKey, request.capacity, TicketQueued, 1, s.nextSequence,
      wall + TICKET_TTL, deadline, None)],
       queues := s.queues[key := QueueAt(s, key) + [playerID]], nextSequence := s.nextSequence + 1)
  }

  /** Why an enqueue is refused before it takes a ticket, if it is. */
  function EnqueueRefusal(s: State, playerID: string, now: int, id: Option<string>): Option<Error> {
    if Busy(s, playerID) then Some(ErrConflict)
    else if |s.tickets| >= HARD_MAX_TICKETS || s.nextSequence == MAX_UINT64 then Some(ErrCapacity)
    else if id.None? then Some(ErrFatalRandom)
    else if DeadlineAfter(now, TICKET_TTL).None? then Some(ErrInvalid)
    else None
  }

  /** The state in which the queue is matched. */
  function Ticketed(s: State, playerID: string, request: EnqueueRequest, reading: ClockReading,
      id: Option<string>): State
    requires EnqueueRefusal(s, playerID, reading.mono, id).None?
  {
    Compacted(WithTicket(s, playerID, request, id.value, reading.wall, DeadlineAfter(reading.mono, TICKET_TTL).value),
              QueueKey(request.queueKey, request.capacity))
  }

  ghost predicate EnqueueAnswered(s: State, playerID: string, request: EnqueueRequest, reading: ClockReading,
      id: Option<string>,
                                  outcomes: seq<Result<Match, Error>>) {
    EnqueueRefusal(s, playerID, reading.mono, id).None? ==>
      Answered(Ticketed(s, playerID, request, reading, id), QueueKey(request.queueKey, request.capacity), outcomes)
  }

  function Enqueue(s0: State, playerID: string, request: EnqueueRequest, reading: ClockReading, id: Option<string>,
                   outcomes: seq<Result<Match, Error>>): (State, Result<Ticket, Error>)
    requires ValidID(playerID) && ValidEnqueueRequest(request) ==>
      EnqueueAnswered(Expire(s0, reading.mono), playerID, request, reading, id, outcomes)
  {
    if !ValidID(playerID) || !ValidEnqueueRequest(request) then (s0, Err(ErrInvalid))
    else
      var s := Expire(s0, reading.mono);
      match EnqueueRefusal(s, playerID, reading.mono, id)
      case Some(error) => (s, Err(error))
      case None =>
        var (s', error) := MatchQueue(Ticketed(s, playerID, request, reading, id),
          QueueKey(request.queueKey, request.capacity), outcomes);
        if error.Some? then (s', Err(error.value))
        else if playerID in s'.tickets then (s', Ok(s'.tickets[playerID]))
        else (s', Err(ErrNotFound))
  }

  /** The queue without the first occurrence of a player. */
  function Without(q: seq<string>, playerID: string): seq<string> {
    if q == [] then [] else if q[0] == playerID then q[1..] else [q[0]] + Without(q[1..], playerID)
  }

  function Cancel(s0: State, playerID: string, revision: nat, now: int): (State, Result<Ticket, Error>) {
    if !ValidID(playerID) || revision == 0 then (s0, Err(ErrInvalid))
    else
      var s := Expire(s0, now);
      if playerID !in s.tickets then (s, Err(ErrNotFound))
      else
        var t := s.tickets[playerID];
        if !t.state.TicketQueued? || t.revision != revision || t.revision == MAX_UINT64 then (s, Err(ErrConflict))
        else
          (s.(tickets := s.tickets - {playerID},
            queues := WithQueue(s.queues, KeyOf(t), Without(QueueAt(s, KeyOf(t)), playerID))),
           Ok(t.(state := TicketCancelled, revision := t.revision + 1)))
  }

  // ---------------------------------------------------------------- queues

  /** Compaction finds nothing to drop. */
  lemma {:induction false} FilterAll(q: seq<string>, keep: set<string>)
    requires forall i | 0 <= i < |q| :: q[i] in keep
    ensures Filter(q, keep) == q
    decreases |q|
  {
    if q != [] {
      assert forall i | 0 <= i < |q[1..]| :: q[1..][i] == q[i + 1];
      FilterAll(q[1..], keep);
    }
  }

  lemma CompactionIsIdle(s: State, key: QueueKey)
    requires QueuesOK(s)
    ensures Compacted(s, key) == s
  {
    FilterAll(QueueAt(s, key), QueuedFor(s.tickets, key));
    assert key in s.queues ==> s.queues[key := s.queues[key]] == s.queues;
    assert key !in s.queues ==> s.queues - {key} == s.queues;
  }

  lemma {:induction false} WithoutInOrder(q: seq<string>, playerID: string, tickets: map<string, Ticket>, key: QueueKey)
    requires InOrder(q, tickets, key)
    ensures InOrder(Without(q, playerID), tickets, key)
    ensures forall p :: p in Without(q, playerID) <==> p in q && p != playerID
    decreases |q|
  {
    if q != [] {
      var rest := q[1..];
      HeadFirst(q, tickets, key);
      if q[0] != playerID {
        hide InOrder;
        WithoutInOrder(rest, playerID, tickets, key);
        AheadInOrder(q[0], Without(rest, playerID), tickets, key);
      }
    }
  }

  /** The head of a queue in order comes before all others, which are in order. */
  lemma HeadFirst(q: seq<string>, tickets: map<string, Ticket>, key: QueueKey)
    requires InOrder(q, tickets, key) && q != []
    ensures InOrder(q[1..], tickets, key) && q == [q[0]] + q[1..] && q[0] !in q[1..]
    ensures q[0] in tickets && tickets[q[0]].state.TicketQueued? && KeyOf(tickets[q[0]]) == key
    ensures forall p | p in q[1..] :: p in tickets && tickets[q[0]].sequence < tickets[p].sequence
  {
  }

  lemma AheadInOrder(p: string, q: seq<string>, tickets: map<string, Ticket>, key: QueueKey)
    requires InOrder(q, tickets, key) && p in tickets && tickets[p].state.TicketQueued? && KeyOf(tickets[p]) == key
    requires forall r | r in q :: r in tickets && tickets[p].sequence < tickets[r].sequence
    ensures InOrder([p] + q, tickets, key)
  {
  }

  /** The queues in terms of `QueueAt`. */
  ghost predicate QueueHolds(s: State, key: QueueKey) {
    && InOrder(QueueAt(s, key), s.tickets, key)
    && forall p | p in s.tickets && s.tickets[p].state.TicketQueued? && KeyOf(s.tickets[p]) == key ::
       p in QueueAt(s, key)
  }

  lemma QueuesMean(s: State)
    ensures QueuesOK(s) <==> (forall key | key in s.queues :: s.queues[key] != []) && forall key :: QueueHolds(s, key)
  {
    if QueuesOK(s) {
      forall key ensures QueueHolds(s, key) {}
    }
    if (forall key | key in s.queues :: s.queues[key] != []) && forall key :: QueueHolds(s, key) {
      forall key | key in s.queues ensures InOrder(s.queues[key], s.tickets, key) { assert QueueHolds(s, key); }
      forall p | p in s.tickets && s.tickets[p].state.TicketQueued?
        ensures KeyOf(s.tickets[p]) in s.queues && p in s.queues[KeyOf(s.tickets[p])]
      {
        assert QueueHolds(s, KeyOf(s.tickets[p]));
      }
    }
  }

  /** Tickets and queue of `key` change; other keys keep theirs. */
  lemma OneQueueChanges(s: State, s': State, key: QueueKey)
    requires QueuesOK(s) && QueueHolds(s', key) && s'.queues == WithQueue(s.queues, key, QueueAt(s', key))
    requires forall p | p in s.tickets && KeyOf(s.tickets[p]) != key :: p in s'.tickets && s'.tickets[p] == s.tickets[p]
    requires forall p | p in s'.tickets && KeyOf(s'.tickets[p]) != key ::
      p in s.tickets && s'.tickets[p] == s.tickets[p]
    ensures QueuesOK(s')
  {
    QueuesMean(s);
    QueuesMean(s');
    hide QueuesOK;
    forall k ensures QueueHolds(s', k) {
      assert QueueHolds(s, k);
      if k != key { assert QueueAt(s', k) == QueueAt(s, k); }
    }
    hide QueueHolds;
    assert forall k | k in s'.queues && k != key :: k in s.queues;
  }

  // ---------------------------------------------------------------- Cancel

  /** The same tickets carry the same assignments. */
  ghost predicate SameAssigned(s: State, s': State) {
    && (forall p | p in s.tickets && s.tickets[p].assignment.Some? :: p in s'.tickets && s'.tickets[p] == s.tickets[p])
    && (forall p | p in s'.tickets && s'.tickets[p].assignment.Some? :: p in s.tickets && s'.tickets[p] == s.tickets[p])
  }

  lemma SameGroups(s: State, s': State, m: string)
    requires SameAssigned(s, s')
    ensures Group(s'.tickets, m) == Group(s.tickets, m)
    ensures forall p | p in s.tickets && Holds(s.tickets[p], m) :: p in s'.tickets && s'.tickets[p] == s.tickets[p]
    ensures forall p | p in s'.tickets && Holds(s'.tickets[p], m) :: p in s.tickets && s'.tickets[p] == s.tickets[p]
  {
  }

  lemma AssignedKeepMatches(s: State, s': State)
    requires MatchesOK(s) && SameAssigned(s, s') && s'.lobbies == s.lobbies && s'.matchIDs == s.matchIDs
    ensures MatchesOK(s')
  {
    hide MatchesOf, SameAssigned;
    forall m ensures Group(s'.tickets, m) == Group(s.tickets, m) { SameGroups(s, s', m); }
    forall p, m | p in s'.tickets && Holds(s'.tickets[p], m) ensures m in s'.matchIDs && WholeGroup(s'.tickets, p, m) {
      SameGroups(s, s', m);
      HoldersAgree(s, p, m);
    }
    forall m | m in s'.matchIDs ensures HeldByLobby(s', m) || HeldByTicket(s', m) {
      SameGroups(s, s', m);
      if HeldByTicket(s, m) {
        var p :| p in s.tickets && Holds(s.tickets[p], m);
        assert p in s'.tickets;
      } else {
        var l :| l in s.lobbies && m in MatchesOf(s.lobbies[l]);
        assert l in s'.lobbies;
      }
    }
    forall l, p, m | l in s'.lobbies && p in s'.tickets && m in MatchesOf(s'.lobbies[l])
      ensures !Holds(s'.tickets[p], m)
    {
      SameGroups(s, s', m);
    }
  }

  lemma TicketRemoved(s: State, s': State, playerID: string)
    requires TicketsOK(s) && NoOvertaking(s) && playerID in s.tickets && s.tickets[playerID].state.TicketQueued?
    requires s' == s.(tickets := s.tickets - {playerID}, queues := s'.queues)
    ensures TicketsOK(s') && NoOvertaking(s') && SameAssigned(s, s')
  {
    SubmapSize(s.tickets, s'.tickets);
    assert TicketOK(playerID, s.tickets[playerID], s.nextSequence);
  }

  lemma LobbySideKept(s: State, s': State)
    requires PlayersOK(s) && LobbiesOK(s) && s'.lobbies == s.lobbies && s'.lobbyByPlayer == s.lobbyByPlayer
    requires s.nextSequence <= s'.nextSequence && forall p | p in s'.tickets :: p in s.tickets || p !in s.lobbyByPlayer
    ensures PlayersOK(s') && LobbiesOK(s')
  {
    hide PlayersOK, LobbiesOK;
    PlayersFollow(s, s');
    LobbiesFollow(s, s');
  }

  lemma PlayersFollow(s: State, s': State)
    requires PlayersOK(s) && s'.lobbies == s.lobbies && s'.lobbyByPlayer == s.lobbyByPlayer
    requires forall p | p in s'.tickets :: p in s.tickets || p !in s.lobbyByPlayer
    ensures PlayersOK(s')
  {
  }

  lemma LobbiesFollow(s: State, s': State)
    requires LobbiesOK(s) && s'.lobbies == s.lobbies && s.nextSequence <= s'.nextSequence
    ensures LobbiesOK(s')
  {
    LobbiesLater(s, s'.nextSequence);
    hide LobbyOK;
  }

  lemma CancelKeepsInv(s0: State, playerID: string, revision: nat, now: int)
    requires Inv(s0)
    ensures Inv(Cancel(s0, playerID, revision, now).0)
  {
    ExpireKeepsInv(s0, now);
    hide PlayersOK, LobbiesOK, TicketsOK, QueuesOK, NoOvertaking, MatchesOK, Expire;
    var s := Expire(s0, now);
    var (s', result) := Cancel(s0, playerID, revision, now);
    if result.Ok? {
      TicketRemoved(s, s', playerID);
      AssignedKeepMatches(s, s');
      LobbySideKept(s, s');
      var key := KeyOf(s.tickets[playerID]);
      RemovedQueue(s, s', playerID, key);
      OneQueueChanges(s, s', key);
    }
  }

  lemma RemovedQueue(s: State, s': State, playerID: string, key: QueueKey)
    requires QueuesOK(s) && playerID in s.tickets && KeyOf(s.tickets[playerID]) == key
      && s'.tickets == s.tickets - {playerID}
    requires s'.queues == WithQueue(s.queues, key, Without(QueueAt(s, key), playerID))
    ensures QueueAt(s', key) == Without(QueueAt(s, key), playerID) && QueueHolds(s', key)
  {
    hide QueuesOK, Without, InOrder;
    QueuesMean(s);
    assert QueueHolds(s, key);
    WithoutInOrder(QueueAt(s, key), playerID, s.tickets, key);
    InOrderWithout(Without(QueueAt(s, key), playerID), s.tickets, playerID, key);
    assert QueueAt(s', key) == Without(QueueAt(s, key), playerID);
  }

  lemma InOrderWithout(q: seq<string>, tickets: map<string, Ticket>, playerID: string, key: QueueKey)
    requires InOrder(q, tickets, key) && playerID !in q
    ensures InOrder(q, tickets - {playerID}, key)
  {
  }

  // ---------------------------------------------------------------- Enqueue

  lemma WithTicketKeepsInv(s: State, playerID: string, request: EnqueueRequest, id: string, wall: int, deadline: int)
    requires Inv(s) && !Busy(s, playerID) && |s.tickets| < HARD_MAX_TICKETS && s.nextSequence < MAX_UINT64
      && ValidEnqueueRequest(request)
    ensures Inv(WithTicket(s, playerID, request, id, wall, deadline))
  {
    hide PlayersOK, LobbiesOK, TicketsOK, QueuesOK, NoOvertaking, MatchesOK, ValidID;
    var s' := WithTicket(s, playerID, request, id, wall, deadline);
    AddedTickets(s, s', playerID);
    AddedQueue(s, s', playerID, QueueKey(request.queueKey, request.capacity));
    AddedAssigned(s, s', playerID);
    AssignedKeepMatches(s, s');
    LobbySideKept(s, s');
  }

  ghost predicate NewTicket(s: State, s': State, playerID: string) {
    && playerID !in s.tickets && playerID in s'.tickets && s'.tickets == s.tickets[playerID := s'.tickets[playerID]]
    && TicketOK(playerID, s'.tickets[playerID], s'.nextSequence) && s'.tickets[playerID].state.TicketQueued?
    && s'.tickets[playerID].sequence == s.nextSequence < s'.nextSequence
  }

  lemma AddedTickets(s: State, s': State, playerID: string)
    requires TicketsOK(s) && NoOvertaking(s) && NewTicket(s, s', playerID) && |s.tickets| < HARD_MAX_TICKETS
    ensures TicketsOK(s') && NoOvertaking(s')
  {
    UpdateSize(s.tickets, playerID, s'.tickets[playerID]);
  }

  lemma AddedQueue(s: State, s': State, playerID: string, key: QueueKey)
    requires TicketsOK(s) && QueuesOK(s) && NewTicket(s, s', playerID) && KeyOf(s'.tickets[playerID]) == key
    requires s'.queues == s.queues[key := QueueAt(s, key) + [playerID]]
    ensures QueuesOK(s')
  {
    var q := QueueAt(s, key);
    QueuesMean(s);
    assert QueueHolds(s, key);
    forall i | 0 <= i < |q|
      ensures s.tickets[q[i]].sequence < s.nextSequence
    {
      assert TicketOK(q[i], s.tickets[q[i]], s.nextSequence);
    }
    hide QueuesOK, TicketsOK, TicketOK;
    assert QueueAt(s', key) == q + [playerID];
    assert QueueHolds(s', key);
    hide QueueHolds;
    OneQueueChanges(s, s', key);
  }

  lemma AddedAssigned(s: State, s': State, playerID: string)
    requires NewTicket(s, s', playerID)
    ensures SameAssigned(s, s')
  {
  }

  // ---------------------------------------------------------------- forming a match

  /** The tickets after a match: the players' are matched, the others untouched. */
  ghost predicate FormedFrom(tickets: map<string, Ticket>, tickets': map<string, Ticket>, players: seq<string>,
      m: Match) {
    && tickets'.Keys == tickets.Keys
    && (forall p | p in tickets && p !in players :: tickets'[p] == tickets[p])
    && (forall p | p in players :: p in tickets && p in m.assignments && tickets'[p] == tickets[p].(
          state := TicketMatched, revision := tickets[p].revision + 1, expiresAt := m.expiresAt,
            monoDeadline := m.deadline,
          assignment := Some(m.assignments[p])))
  }

  /** The players about to be matched. */
  ghost predicate Selected(s: State, key: QueueKey, players: seq<string>, rest: seq<string>) {
    && players + rest == QueueAt(s, key) && |players| == key.capacity >= 2
    && QueueHolds(s, key)
  }

  lemma SelectedFacts(s: State, key: QueueKey, players: seq<string>, rest: seq<string>)
    requires Selected(s, key, players, rest)
    ensures forall p | p in players || p in rest ::
      p in s.tickets && s.tickets[p].state.TicketQueued? && KeyOf(s.tickets[p]) == key
    ensures forall p, q | p in players && q in rest :: s.tickets[p].sequence < s.tickets[q].sequence && p != q
    ensures forall p | p in s.tickets && s.tickets[p].state.TicketQueued? && KeyOf(s.tickets[p]) == key ::
      p in players || p in rest
    ensures InOrder(players, s.tickets, key) && InOrder(rest, s.tickets, key)
  {
    PartsInOrder(players, rest, s.tickets, key);
  }

  /** The parts of a queue in order are in order, and the first comes before the second. */
  lemma PartsInOrder(players: seq<string>, rest: seq<string>, tickets: map<string, Ticket>, key: QueueKey)
    requires InOrder(players + rest, tickets, key)
    ensures InOrder(players, tickets, key) && InOrder(rest, tickets, key)
    ensures forall p | p in players || p in rest ::
      p in tickets && tickets[p].state.TicketQueued? && KeyOf(tickets[p]) == key
    ensures forall p, q | p in players && q in rest :: tickets[p].sequence < tickets[q].sequence && p != q
  {
    var q := players + rest;
    assert forall i | 0 <= i < |players| :: q[i] == players[i];
    assert forall i | 0 <= i < |rest| :: q[|players| + i] == rest[i];
  }

  lemma {:induction false} InOrderCount(q: seq<string>, tickets: map<string, Ticket>, key: QueueKey)
    requires InOrder(q, tickets, key)
    ensures |set p | p in q| == |q|
    decreases |q|
  {
    if q != [] {
      var front, last := q[..|q| - 1], q[|q| - 1];
      assert forall i | 0 <= i < |front| :: front[i] == q[i];
      InOrderCount(front, tickets, key);
      assert (set p | p in q) == (set p | p in front) + {last} by { assert q == front + [last]; }
      assert last !in front;
    }
  }

  lemma FormedTickets(s: State, s': State, key: QueueKey, players: seq<string>, rest: seq<string>, m: Match)
    requires TicketsOK(s) && NoOvertaking(s) && Selected(s, key, players, rest)
    requires FormedFrom(s.tickets, s'.tickets, players, m) && s'.nextSequence == s.nextSequence
    requires forall p | p in players :: m.assignments[p].playerID == p
    ensures TicketsOK(s') && NoOvertaking(s')
  {
    SelectedFacts(s, key, players, rest);
    hide Selected, InOrder;
    assert |s'.tickets| == |s'.tickets.Keys| && |s.tickets| == |s.tickets.Keys|;
    forall p | p in s'.tickets
      ensures TicketOK(p, s'.tickets[p], s'.nextSequence) && s'.tickets[p].sequence == s.tickets[p].sequence
    {
      assert TicketOK(p, s.tickets[p], s.nextSequence);
    }
    hide TicketOK;
  }

  lemma FormedQueue(s: State, s': State, key: QueueKey, players: seq<string>, rest: seq<string>, m: Match)
    requires QueuesOK(s) && Selected(s, key, players, rest) && FormedFrom(s.tickets, s'.tickets, players, m)
    requires s'.queues == WithQueue(s.queues, key, rest)
    ensures QueuesOK(s')
  {
    SelectedFacts(s, key, players, rest);
    hide QueuesOK, Selected;
    assert QueueAt(s', key) == rest;
    FormedQueueHolds(s, s', key, players, rest, m);
    hide QueueHolds;
    OneQueueChanges(s, s', key);
  }

  lemma FormedQueueHolds(s: State, s': State, key: QueueKey, players: seq<string>, rest: seq<string>, m: Match)
    requires FormedFrom(s.tickets, s'.tickets, players, m) && QueueAt(s', key) == rest && InOrder(rest, s.tickets, key)
    requires forall p | p in rest :: p !in players
    requires forall p | p in s.tickets && s.tickets[p].state.TicketQueued? && KeyOf(s.tickets[p]) == key ::
      p in players || p in rest
    ensures QueueHolds(s', key)
  {
    assert forall i | 0 <= i < |rest| :: rest[i] in rest;
  }

  lemma PlayersUnassigned(s: State, key: QueueKey, players: seq<string>, rest: seq<string>)
    requires TicketsOK(s) && Selected(s, key, players, rest)
    ensures forall p | p in players :: p in s.tickets && s.tickets[p].assignment.None? && KeyOf(s.tickets[p]) == key
    ensures |set p | p in players| == key.capacity && players != []
  {
    SelectedFacts(s, key, players, rest);
    forall p | p in players ensures s.tickets[p].assignment.None? { assert TicketOK(p, s.tickets[p], s.nextSequence); }
    InOrderCount(players, s.tickets, key);
  }

  /** A new match of tickets enters a state in which nobody holds it. */
  lemma FormedMatches(s: State, s': State, key: QueueKey, players: seq<string>, rest: seq<string>, m: Match)
    requires TicketsOK(s) && MatchesOK(s) && Selected(s, key, players, rest)
      && FormedFrom(s.tickets, s'.tickets, players, m)
    requires Allocated(s, players, m) && s'.lobbies == s.lobbies && s'.matchIDs == s.matchIDs + {m.matchID}
    ensures MatchesOK(s')
  {
    hide Selected, InOrder, TicketsOK, MatchesOf, FormedFrom, HeldByLobby, HeldByTicket, WholeGroup;
    PlayersUnassigned(s, key, players, rest);
    NobodyHolds(s, m.matchID);
    FormedGroups(s, s', players, m);
    FormedWhole(s, s', key, players, m);
    FormedHeld(s, s', players, m);
    FormedApart(s, s', players, m);
  }

  lemma FormedGroups(s: State, s': State, players: seq<string>, m: Match)
    requires FormedFrom(s.tickets, s'.tickets, players, m) && Allocated(s, players, m)
    requires forall p | p in players :: p in s.tickets && s.tickets[p].assignment.None?
    requires forall p | p in s.tickets :: !Holds(s.tickets[p], m.matchID)
    ensures forall k :: Group(s'.tickets, k) == if k == m.matchID then (set p | p in players) else Group(s.tickets, k)
  {
  }

  lemma FormedWhole(s: State, s': State, key: QueueKey, players: seq<string>, m: Match)
    requires MatchesOK(s) && FormedFrom(s.tickets, s'.tickets, players, m) && Allocated(s, players, m)
    requires s'.matchIDs == s.matchIDs + {m.matchID}
    requires forall p | p in players :: p in s.tickets && s.tickets[p].assignment.None? && KeyOf(s.tickets[p]) == key
    requires |set q | q in players| == key.capacity
    requires forall k :: Group(s'.tickets, k) == if k == m.matchID then (set p | p in players) else Group(s.tickets, k)
    ensures forall p, k | p in s'.tickets && Holds(s'.tickets[p], k) :: k in s'.matchIDs && WholeGroup(s'.tickets, p, k)
  {
    hide MatchesOK;
    forall p, k | p in s'.tickets && Holds(s'.tickets[p], k) ensures k in s'.matchIDs && WholeGroup(s'.tickets, p, k) {
      if p in players {
        NewGroupIsWhole(s, s', key, players, m, p);
      } else {
        HoldersAgree(s, p, k);
        assert p in Group(s.tickets, k) && k != m.matchID;
        OldGroupIsWhole(s, s', players, m, p, k);
      }
    }
  }

  lemma FormedHeld(s: State, s': State, players: seq<string>, m: Match)
    requires MatchesOK(s) && FormedFrom(s.tickets, s'.tickets, players, m) && Allocated(s, players, m) && players != []
    requires s'.matchIDs == s.matchIDs + {m.matchID} && s'.lobbies == s.lobbies
    requires forall p | p in players :: p in s.tickets && s.tickets[p].assignment.None?
    ensures forall k | k in s'.matchIDs :: HeldByLobby(s', k) || HeldByTicket(s', k)
  {
    hide MatchesOf, WholeGroup;
    forall k | k in s'.matchIDs ensures HeldByLobby(s', k) || HeldByTicket(s', k) {
      if k == m.matchID {
        assert players[0] in players && Holds(s'.tickets[players[0]], k);
      } else if HeldByTicket(s, k) {
        var p :| p in s.tickets && Holds(s.tickets[p], k);
        assert p in s'.tickets && Holds(s'.tickets[p], k);
      } else {
        var l :| l in s.lobbies && k in MatchesOf(s.lobbies[l]);
        assert l in s'.lobbies;
      }
    }
  }

  lemma FormedApart(s: State, s': State, players: seq<string>, m: Match)
    requires MatchesOK(s) && FormedFrom(s.tickets, s'.tickets, players, m) && Allocated(s, players, m)
      && s'.lobbies == s.lobbies
    requires forall l | l in s.lobbies :: m.matchID !in MatchesOf(s.lobbies[l])
    ensures forall l, p, k | l in s'.lobbies && p in s'.tickets && k in MatchesOf(s'.lobbies[l]) ::
      !Holds(s'.tickets[p], k)
    ensures s'.matchIDs >= s.matchIDs ==> forall l, k | l in s'.lobbies && k in MatchesOf(s'.lobbies[l]) ::
      k in s'.matchIDs
    ensures forall l, j, k | l in s'.lobbies && j in s'.lobbies && k in MatchesOf(s'.lobbies[l])
      && k in MatchesOf(s'.lobbies[j]) :: l == j
  {
    hide MatchesOf, WholeGroup;
  }

  lemma NobodyHolds(s: State, m: string)
    requires MatchesOK(s) && m !in s.matchIDs
    ensures forall p | p in s.tickets :: !Holds(s.tickets[p], m)
    ensures forall l | l in s.lobbies :: m !in MatchesOf(s.lobbies[l])
  {
    hide MatchesOf;
  }

  lemma NewGroupIsWhole(s: State, s': State, key: QueueKey, players: seq<string>, m: Match, p: string)
    requires FormedFrom(s.tickets, s'.tickets, players, m) && Allocated(s, players, m) && p in players
    requires forall q | q in players :: q in s.tickets && KeyOf(s.tickets[q]) == key
    requires Group(s'.tickets, m.matchID) == (set q | q in players) && |set q | q in players| == key.capacity
    ensures WholeGroup(s'.tickets, p, m.matchID)
  {
  }

  lemma OldGroupIsWhole(s: State, s': State, players: seq<string>, m: Match, p: string, k: string)
    requires FormedFrom(s.tickets, s'.tickets, players, m) && WholeGroup(s.tickets, p, k)
      && Group(s'.tickets, k) == Group(s.tickets, k)
    requires forall q | q in players :: q in s.tickets && s.tickets[q].assignment.None?
    ensures WholeGroup(s'.tickets, p, k)
  {
    forall q | q in Group(s.tickets, k) ensures s'.tickets[q] == s.tickets[q] {}
    assert p in Group(s.tickets, k);
  }

  lemma SplitQueue(s: State, key: QueueKey, m: Match)
    requires QueuesOK(s) && |QueueAt(s, key)| >= key.capacity >= 2 && Allocated(s, QueueAt(s, key)[..key.capacity], m)
    ensures var players, rest := QueueAt(s, key)[..key.capacity], QueueAt(s, key)[key.capacity..];
      && Selected(s, key, players, rest)
      && FormedFrom(s.tickets, FormMatch(s, key, m).tickets, players, m)
      && FormMatch(s, key, m).queues == WithQueue(s.queues, key, rest)
  {
    hide QueuesOK, InOrder;
    QueuesMean(s);
    var q := QueueAt(s, key);
    assert q[..key.capacity] + q[key.capacity..] == q;
    assert QueueHolds(s, key);
    QueuedKnown(q, s.tickets, key);
    hide QueueHolds;
    assert forall p | p in q[..key.capacity] :: p in q;
  }

  lemma QueuedKnown(q: seq<string>, tickets: map<string, Ticket>, key: QueueKey)
    requires InOrder(q, tickets, key)
    ensures forall p | p in q :: p in tickets && tickets[p].state.TicketQueued? && KeyOf(tickets[p]) == key
  {
  }

  lemma FormMatchKeepsInv(s: State, key: QueueKey, m: Match)
    requires Inv(s) && |QueueAt(s, key)| >= key.capacity >= 2 && Allocated(s, QueueAt(s, key)[..key.capacity], m)
    ensures Inv(FormMatch(s, key, m))
  {
    hide PlayersOK, LobbiesOK, TicketsOK, QueuesOK, NoOvertaking, MatchesOK, Selected, FormedFrom, WithQueue, Formed;
    var players, rest, s' := QueueAt(s, key)[..key.capacity], QueueAt(s, key)[key.capacity..], FormMatch(s, key, m);
    SplitQueue(s, key, m);
    FormedTickets(s, s', key, players, rest, m);
    FormedQueue(s, s', key, players, rest, m);
    FormedMatches(s, s', key, players, rest, m);
    FormedKeys(s.tickets, s'.tickets, players, m);
    LobbySideKept(s, s');
  }

  lemma FormedKeys(tickets: map<string, Ticket>, tickets': map<string, Ticket>, players: seq<string>, m: Match)
    requires FormedFrom(tickets, tickets', players, m)
    ensures tickets'.Keys == tickets.Keys
  {
  }

  /** Matching a queue keeps the invariant whether or not an allocation fails; when none
      fails, fewer tickets than a match needs are left in it. */
  lemma {:induction false} MatchQueueKeepsInv(s: State, key: QueueKey, outcomes: seq<Result<Match, Error>>)
    requires Inv(s) && key.capacity >= 2 && Answered(s, key, outcomes)
    ensures var (s', error) := MatchQueue(s, key, outcomes);
      && Inv(s') && s'.tickets.Keys == s.tickets.Keys
      && (error.None? ==> |QueueAt(s', key)| < key.capacity)
      && (error.Some? ==> |QueueAt(s', key)| >= key.capacity)
    decreases |outcomes|
  {
    hide Inv, FormMatch;
    if |QueueAt(s, key)| >= key.capacity && outcomes[0].Ok? {
      FormMatchKeepsInv(s, key, outcomes[0].value);
      FormMatchKeys(s, key, outcomes[0].value);
      MatchQueueKeepsInv(FormMatch(s, key, outcomes[0].value), key, outcomes[1..]);
    }
  }

  lemma FormMatchKeys(s: State, key: QueueKey, m: Match)
    requires |QueueAt(s, key)| >= key.capacity
    ensures FormMatch(s, key, m).tickets.Keys == s.tickets.Keys
  {
  }

  /** Enqueueing keeps the invariant. A success leaves the player with a ticket and fewer than
      `capacity` tickets queued for the key; a failed allocation leaves the ticket queued. */
  lemma EnqueueKeepsInv(s0: State, playerID: string, request: EnqueueRequest, reading: ClockReading, id: Option<string>,
                        outcomes: seq<Result<Match, Error>>)
    requires Inv(s0)
    requires ValidID(playerID) && ValidEnqueueRequest(request) ==>
      EnqueueAnswered(Expire(s0, reading.mono), playerID, request, reading, id, outcomes)
    ensures var (s', result) := Enqueue(s0, playerID, request, reading, id, outcomes);
      && Inv(s')
      && (result.Ok? ==>
            && playerID in s'.tickets && result.value == s'.tickets[playerID]
            && |QueueAt(s', QueueKey(request.queueKey, request.capacity))| < request.capacity)
      && (result.Err? ==>
            || s' == s0 || s' == Expire(s0, reading.mono)
            || (playerID in s'.tickets
               && |QueueAt(s', QueueKey(request.queueKey, request.capacity))| >= request.capacity))
  {
    hide Inv, Expire, Ticketed, MatchQueue, QueueAt, ValidID, Answered;
    if ValidID(playerID) && ValidEnqueueRequest(request) {
      ExpireKeepsInv(s0, reading.mono);
      var s := Expire(s0, reading.mono);
      if EnqueueRefusal(s, playerID, reading.mono, id).None? {
        TicketedKeepsInv(s, playerID, request, reading, id);
        var key := QueueKey(request.queueKey, request.capacity);
        MatchQueueKeepsInv(Ticketed(s, playerID, request, reading, id), key, outcomes);
        var (s1, error) := MatchQueue(Ticketed(s, playerID, request, reading, id), key, outcomes);
        assert Enqueue(s0, playerID, request, reading, id, outcomes).0 == s1;
        assert error.None? ==> |QueueAt(s1, key)| < key.capacity;
        assert Enqueue(s0, playerID, request, reading, id, outcomes).1.Ok? ==> error.None?;
      }
    }
  }

  lemma TicketedKeepsInv(s: State, playerID: string, request: EnqueueRequest, reading: ClockReading, id: Option<string>)
    requires Inv(s) && EnqueueRefusal(s, playerID, reading.mono, id).None? && ValidEnqueueRequest(request)
    ensures Inv(Ticketed(s, playerID, request, reading, id))
      && playerID in Ticketed(s, playerID, request, reading, id).tickets
  {
    hide Inv, WithTicket, ValidID, Compacted;
    var key := QueueKey(request.queueKey, request.capacity);
    var deadline := DeadlineAfter(reading.mono, TICKET_TTL).value;
    SequenceBelow(s);
    WithTicketKeepsInv(s, playerID, request, id.value, reading.wall, deadline);
    var s1 := WithTicket(s, playerID, request, id.value, reading.wall, deadline);
    QueuesHold(s1);
    CompactionIsIdle(s1, key);
    TicketTaken(s, playerID, request, id.value, reading.wall, deadline);
  }

  lemma SequenceBelow(s: State)
    requires Inv(s)
    ensures s.nextSequence <= MAX_UINT64
  {
  }

  lemma QueuesHold(s: State)
    requires Inv(s)
    ensures QueuesOK(s)
  {
  }

  lemma TicketTaken(s: State, playerID: string, request: EnqueueRequest, id: string, wall: int, deadline: int)
    ensures playerID in WithTicket(s, playerID, request, id, wall, deadline).tickets
  {
  }
}
