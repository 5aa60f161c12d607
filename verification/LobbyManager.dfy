/** The manager as an object over a real store, updated in place. Every method is proved
    against the operation on values; the store's answers are not assumed but taken from it. */
module LobbyManager {
  import opened Prelude
  import opened Identifier
  import opened Base64
  import opened Lobbies
  import opened LobbyOps
  import opened LobbyInvariant
  import opened QuickMatch
  import opened Pagination
  import A = Admission
  import D = Definitions
  import SM = StoreModel
  import SA = StoreAdmission
  import SD = StoreDeletion
  import SR = StoreRooms
  import ST = StoreRuns
  import SC = StoreCreation
  import SF = StoreFreshness
  import SL = StoreLifetimes
  import SW = StoreSweep
  import SH = StoreHandshake
  import SV = StoreVerdicts
  import SO = StoreObject

  const ID_DRAWS: nat := 9

  // ---------------------------------------------------------------- drawn identifiers

  /** An identifier made of one read: a prefix and the text of the bytes. */
  function NameAt(random: SA.Random, at: nat, prefix: string): Option<string> {
    match random(at) case None => None case Some(raw) => Some(prefix + Encode(raw))
  }

  /** The first of up to `tries` drawn identifiers that is not taken. */
  function UniqueName(random: SA.Random, at: nat, prefix: string, taken: set<string>, tries: nat): (Option<string>, nat)
    decreases tries
  {
    if tries == 0 then (None, at)
    else match NameAt(random, at, prefix)
      case None => (None, at + 1)
      case Some(id) => if id in taken then UniqueName(random, at + 1, prefix, taken, tries - 1) else (Some(id), at + 1)
  }

  lemma {:induction false} UniqueNameIsFree(random: SA.Random, at: nat, prefix: string, taken: set<string>, tries: nat)
    ensures var (id, next) := UniqueName(random, at, prefix, taken, tries); id.Some? ==> id.value !in taken
    decreases tries
  {
    if tries > 0 { UniqueNameIsFree(random, at + 1, prefix, taken, tries - 1); }
  }

  /** Of the names from `at` on, number `k` is the first that is not taken, and no read before it
      failed. */
  ghost predicate FirstFreeName(random: SA.Random, at: nat, prefix: string, taken: set<string>, k: nat) {
    && (forall place: nat | at <= place < at + k ::
         NameAt(random, place, prefix).Some? && NameAt(random, place, prefix).value in taken)
    && NameAt(random, at + k, prefix).Some? && NameAt(random, at + k, prefix).value !in taken
  }

  /** A name is the first of so many drawn that is not taken, and there is none exactly if a read
      fails before it or all of them are taken. */
  lemma {:induction false} UniqueNameExactly(random: SA.Random, at: nat, prefix: string, taken: set<string>, tries: nat)
    ensures var (id, next) := UniqueName(random, at, prefix, taken, tries);
      && (id.Some? ==> at < next <= at + tries && id == NameAt(random, next - 1, prefix))
      && (id.Some? ==> FirstFreeName(random, at, prefix, taken, next - 1 - at))
      && (id.None? ==> forall k: nat | k < tries :: !FirstFreeName(random, at, prefix, taken, k))
    decreases tries
  {
    hide NameAt;
    if tries > 0 && NameAt(random, at, prefix).Some? && NameAt(random, at, prefix).value in taken {
      UniqueNameExactly(random, at + 1, prefix, taken, tries - 1);
      if UniqueName(random, at, prefix, taken, tries).0.None? {
        forall k: nat | k < tries ensures !FirstFreeName(random, at, prefix, taken, k) {
          assert k > 0 ==> !FirstFreeName(random, at + 1, prefix, taken, k - 1);
        }
      }
    }
  }

  /** A name made of 16 bytes is a valid identifier, and no other bytes make the same one: the
      store never refuses a match for its names. */
  lemma DrawnNamesAreValid(raw: Bytes, other: Bytes, prefix: string)
    requires |raw| == 16 && prefix in {"m-", "r-", "s-", "l-", "t-"}
    ensures ValidID(prefix + Encode(raw)) && |prefix + Encode(raw)| == 24
    ensures prefix + Encode(other) == prefix + Encode(raw) ==> other == raw
  {
    EncodedLength(raw);
    forall d: digit ensures Alphanumeric(CharOf(d)) || Punctuation(CharOf(d)) {}
    var name := prefix + Encode(raw);
    assert name[0] == prefix[0] && name[1] == prefix[1];
    forall i | 2 <= i < |name| ensures name[i] == Encode(raw)[i - 2] {}
    if prefix + Encode(other) == name {
      assert (prefix + Encode(other))[2..] == Encode(other) && name[2..] == Encode(raw);
      EncodeInjective(other, raw);
    }
  }

  // ---------------------------------------------------------------- what a creation promises

  function PlayersOf(participants: seq<D.Participant>): set<string> { set p | p in participants :: p.participantID }

  function GrantedTo(grants: seq<SR.GrantAllocation>): set<string> { set g | g in grants :: g.participantID }

  lemma PermutedPlayers(a: seq<D.Participant>, b: seq<D.Participant>)
    requires multiset(a) == multiset(b)
    ensures PlayersOf(a) == PlayersOf(b)
  {
    forall p ensures p in a <==> p in b { assert p in multiset(a) <==> p in multiset(b); }
  }

  lemma AnsweredPlayers(a: SR.Allocation, id: string, c: D.Definition)
    requires SC.Answers(a, id, c)
    ensures GrantedTo(a.grants) == PlayersOf(c.participants)
  {
    forall p | p in GrantedTo(a.grants) ensures p in PlayersOf(c.participants) {
      var i :| 0 <= i < |a.grants| && a.grants[i].participantID == p;
      assert c.participants[i] in c.participants;
    }
    forall p | p in PlayersOf(c.participants) ensures p in GrantedTo(a.grants) {
      var i :| 0 <= i < |c.participants| && c.participants[i].participantID == p;
      assert a.grants[i] in a.grants;
    }
  }

  /** The grants of a created room are for exactly the requested players, each once, each with
      its secret: what the manager checks again cannot fail. */
  lemma CreatedCovers(s: SM.State, limits: A.Limits, random: SA.Random, id: string, d: D.Definition,
      reading: ClockReading)
    requires SM.Inv(s, limits)
    ensures forall r | r in s.rooms :: SR.Resident(s, s.rooms[r].grants)
    ensures var result := SR.CreateRoom(s, limits, random, id, d, reading).1;
      result.Ok? && result.value.1 ==>
        && |result.value.0.grants| == |d.participants|
        && (forall i | 0 <= i < |result.value.0.grants| :: result.value.0.grants[i].grantSecret.Some?)
        && GrantedTo(result.value.0.grants) == PlayersOf(d.participants)
  {
    hide SM.Inv, SR.CreateRoom, SR.AllocationAt, SC.Allocated, D.Sort, D.ValidParticipant, SC.Answers, PlayersOf,
         GrantedTo;
    SR.RoomsResident(s, limits);
    SC.CreatedAllocates(s, limits, random, id, d, reading);
    var (s', result) := SR.CreateRoom(s, limits, random, id, d, reading);
    if result.Ok? && result.value.1 {
      var c := D.Canonical(id, d, limits).value;
      D.CanonicalIsValid(id, d, limits);
      SC.CanonicalSize(id, d, limits);
      SC.AllocatedAnswers(s', id, c, reading.mono);
      AnsweredPlayers(result.value.0, id, c);
      PermutedPlayers(c.participants, d.participants);
      AnswersSize(result.value.0, id, c);
    }
  }

  lemma AnswersSize(a: SR.Allocation, id: string, c: D.Definition)
    requires SC.Answers(a, id, c)
    ensures |a.grants| == |c.participants|
  {
  }

  lemma DefinedPlayers(players: seq<string>, participants: seq<D.Participant>)
    requires |participants| == |players| && forall i | 0 <= i < |players| :: participants[i].participantID == players[i]
    ensures PlayersOf(participants) == set p | p in players
  {
    forall p | p in players ensures p in PlayersOf(participants) {
      var i :| 0 <= i < |players| && players[i] == p;
      assert participants[i] in participants;
    }
  }

  lemma RefusalKeepsGrants(s: SM.State, limits: A.Limits, random: SA.Random, id: string, d: D.Definition,
      reading: ClockReading)
    requires SM.Inv(s, limits)
    ensures forall r | r in s.rooms :: SR.Resident(s, s.rooms[r].grants)
    ensures var (s', result) := SR.CreateRoom(s, limits, random, id, d, reading);
      result.Err? || !result.value.1 ==> s'.heap == s.heap
  {
    hide SM.Inv, SR.CreateRoom, SC.DrawsFresh;
    SC.CreateRoomKeepsInv(s, limits, random, id, d, reading);
    SC.DropStaleFrame(s, id, reading.mono);
    var (s', result) := SR.CreateRoom(s, limits, random, id, d, reading);
    assert result.Ok? && !result.value.1 ==> s'.heap == s.heap;
    assert SR.DropStale(s, id, reading.mono).heap == s.heap;
    assert result.Err? ==> s'.heap == s.heap;
  }

  // ---------------------------------------------------------------- matches and the store

  /** The grant is live, and is what an answer of the store says of it. */
  ghost predicate Told(g: SM.Grant, a: SR.GrantAllocation, roomID: string) {
    && SM.Live(g) && g.roomID == roomID && g.participantID == a.participantID && g.sessionID == a.sessionID
    && g.id == a.grantID && g.secret == a.grantSecret && g.expiresAt == a.grantExpiresAt
  }

  /** Room `id` is open with exactly these grants, for different players. */
  ghost predicate RoomOf(v: SM.State, id: string, grants: seq<SR.GrantAllocation>, expiresAt: int) {
    && id in v.rooms && v.rooms[id].state.Open? && v.rooms[id].expiresAt == expiresAt
    && |v.rooms[id].grants| == |grants| > 0
    && (forall i | 0 <= i < |grants| ::
         v.rooms[id].grants[i] in v.heap && Told(v.heap[v.rooms[id].grants[i]], grants[i], id))
    && (forall i, j | 0 <= i < j < |grants| :: grants[i].participantID != grants[j].participantID)
  }

  /** The grant is live, and is the one that the player is assigned. */
  ghost predicate Backs(g: SM.Grant, a: Assignment) {
    && SM.Live(g) && g.roomID == a.roomID && g.participantID == a.playerID && g.sessionID == a.sessionID
    && g.id == a.grantID && g.secret == Some(a.grantSecret) && g.expiresAt == a.grantExpiresAt
  }

  /** Grant `i` of the room, and no other grant of it, is for player `p`, and is as assigned. */
  ghost predicate GrantFor(v: SM.State, m: Match, p: string, i: nat)
    requires p in m.assignments && m.roomID in v.rooms
  {
    var grants := v.rooms[m.roomID].grants;
    && i < |grants| && grants[i] in v.heap && Backs(v.heap[grants[i]], m.assignments[p])
    && forall j | 0 <= j < |grants| && j != i && grants[j] in v.heap :: v.heap[grants[j]].participantID != p
  }

  /** The match is backed by the store: its room is open until the match expires, with one live
      grant for each of `n` players and no other, as each player is told. */
  ghost predicate Granted(v: SM.State, m: Match, n: nat) {
    && m.roomID in v.rooms && v.rooms[m.roomID].state.Open? && v.rooms[m.roomID].expiresAt == m.expiresAt
    && |v.rooms[m.roomID].grants| == n > 0
    && (forall i | 0 <= i < n :: v.rooms[m.roomID].grants[i] in v.heap
          && v.heap[v.rooms[m.roomID].grants[i]].roomID == m.roomID)
    && forall p | p in m.assignments :: exists i: nat :: GrantFor(v, m, p, i)
  }

  /** No grant was for room `id`. */
  ghost predicate Unused(heap: map<SM.Ref, SM.Grant>, id: string) { forall r | r in heap :: heap[r].roomID != id }

  /** Every grant of `v`, and the room of every grant, is in `v'` as it was. */
  ghost predicate KeepsGrants(v: SM.State, v': SM.State) {
    forall r | r in v.heap :: r in v'.heap && v'.heap[r] == v.heap[r] && SD.KeptRoom(v, v', v.heap[r].roomID)
  }

  lemma KeepsTransitive(v: SM.State, v1: SM.State, v2: SM.State)
    requires KeepsGrants(v, v1) && KeepsGrants(v1, v2)
    ensures KeepsGrants(v, v2)
  {
  }

  lemma KeepsReflexive(v: SM.State)
    ensures KeepsGrants(v, v)
  {
  }

  /** What was backed stays backed while grants are kept. */
  lemma GrantedStays(v: SM.State, v': SM.State, m: Match, n: nat)
    requires Granted(v, m, n) && KeepsGrants(v, v')
    ensures Granted(v', m, n)
  {
    var grants := v.rooms[m.roomID].grants;
    assert grants[0] in v.heap && SD.KeptRoom(v, v', v.heap[grants[0]].roomID);
    forall p | p in m.assignments ensures exists i: nat :: GrantFor(v', m, p, i) {
      var i: nat :| GrantFor(v, m, p, i);
      forall j | 0 <= j < |grants| ensures grants[j] in v'.heap && v'.heap[grants[j]] == v.heap[grants[j]] {
        assert grants[j] in v.heap;
      }
      hide Backs;
      assert GrantFor(v', m, p, i);
    }
  }

  /** A player who says hello with what it was assigned is known to the store, and in the right
      room; the secret it was assigned is the one the store expects a proof of. */
  lemma AssignedIsKnown(v: SM.State, limits: A.Limits, random: SA.Random, m: Match, n: nat, p: string, nonce: Bytes,
      endpoint: A.Endpoint, bytes: int, now: int)
    requires SM.Inv(v, limits) && Granted(v, m, n) && p in m.assignments
    ensures var a := m.assignments[p];
      var hello := SA.ChallengeRequest(a.roomID, a.sessionID, a.grantID, nonce, endpoint, bytes);
      && a.grantID in v.grantsByID && v.grantsByID[a.grantID] in v.heap
      && v.heap[v.grantsByID[a.grantID]].participantID == a.playerID
      && v.heap[v.grantsByID[a.grantID]].secret == Some(a.grantSecret)
      && SV.HelloRefusal(v, random, hello, now) !in {Some(SA.RejectUnknownGrant), Some(SA.RejectWrongRoom)}
  {
    hide SM.Inv, SH.Drawable;
    var i: nat :| GrantFor(v, m, p, i);
    SH.LiveOwner(v, limits, v.rooms[m.roomID].grants[i]);
  }

  // ---------------------------------------------------------------- how a match is asked for

  /** Session identifiers for `n` players, none taken and no two alike. */
  function SessionNames(random: SA.Random, at: nat, taken: set<string>, n: nat): (Option<seq<string>>, nat)
    decreases n
  {
    if n == 0 then (Some([]), at)
    else
      var (id, next) := UniqueName(random, at, "s-", taken, ID_DRAWS);
      if id.None? then (None, next)
      else
        var (rest, last) := SessionNames(random, next, taken + {id.value}, n - 1);
        (if rest.Some? then Some([id.value] + rest.value) else None, last)
  }

  lemma {:induction false} SessionsAreFree(random: SA.Random, at: nat, taken: set<string>, n: nat)
    ensures var sessions := SessionNames(random, at, taken, n).0;
      sessions.Some? ==>
        && |sessions.value| == n && (forall i | 0 <= i < n :: sessions.value[i] !in taken)
        && forall i, j | 0 <= i < j < n :: sessions.value[i] != sessions.value[j]
    decreases n
  {
    hide UniqueName;
    if n > 0 {
      var (id, next) := UniqueName(random, at, "s-", taken, ID_DRAWS);
      UniqueNameIsFree(random, at, "s-", taken, ID_DRAWS);
      if id.Some? { SessionsAreFree(random, next, taken + {id.value}, n - 1); }
    }
  }

  /** The names of one try. */
  datatype Plan = Plan(matchID: string, roomID: string, sessions: seq<string>)

  /** The names drawn for a match of `n` players, or nothing when the random source is lost. */
  function PlanMatch(random: SA.Random, at: nat, matchIDs: set<string>, n: nat): (Option<Plan>, nat) {
    var (matchID, second) := UniqueName(random, at, "m-", matchIDs, ID_DRAWS);
    if matchID.None? then (None, second)
    else
      var roomID := NameAt(random, second, "r-");
      if roomID.None? then (None, second + 1)
      else
        var (sessions, next) := SessionNames(random, second + 1, {}, n);
        (if sessions.Some? then Some(Plan(matchID.value, roomID.value, sessions.value)) else None, next)
  }

  /** The room for these players under these sessions, all grants to expire with it. */
  function Defined(players: seq<string>, sessions: seq<string>, expiresAt: int): D.Definition
    requires |sessions| == |players|
  {
    D.Definition(|players|, expiresAt,
      seq(|players|, i requires 0 <= i < |players| => D.Participant(players[i], sessions[i], expiresAt)))
  }

  /** One request of the manager for a room: where its names were drawn, the store it met, and
      what that answered. */
  datatype Try = Try(at: nat, plan: Plan, before: SM.State, answer: Result<(SR.Allocation, bool), D.StoreError>)

  /** What every try for one match has in common. */
  datatype Wanted = Wanted(env: ST.Env, random: SA.Random, matchIDs: set<string>, players: seq<string>,
    expiresAt: int, reading: ClockReading)

  /** The store was asked for the planned room, answered so, and was `after` then. */
  ghost predicate Asked(t: Try, w: Wanted, after: SM.State, next: nat) {
    && PlanMatch(w.random, t.at, w.matchIDs, |w.players|) == (Some(t.plan), next)
    && |t.plan.sessions| == |w.players| && SM.Inv(t.before, w.env.limits)
    && ST.Created(t.before, w.env, ST.Step(ST.OnCreate(t.plan.roomID, Defined(w.players, t.plan.sessions, w.expiresAt)),
         w.reading)) == (after, t.answer)
  }

  /** The name was taken: another try is made. */
  predicate Taken(t: Try) { t.answer == Err(D.ErrConflict) || (t.answer.Ok? && !t.answer.value.1) }

  /** The answer of a try that is not repeated: a room makes the match, and without one only the
      loss of the store's random source is told apart. */
  ghost predicate Decides(t: Try, result: Result<Match, Error>) {
    match t.answer
    case Ok((_, isNew)) =>
      isNew && result.Ok? && result.value.roomID == t.plan.roomID && result.value.matchID == t.plan.matchID
    case Err(error) =>
      error != D.ErrConflict && result == Err(if error == D.ErrFatalRandom then ErrFatalRandom else ErrUnavailable)
  }

  /** The tries follow one another, from one state of the store and of the stream to another. */
  ghost predicate Chain(tries: seq<Try>, w: Wanted, from: SM.State, at: nat, to: SM.State, next: nat)
    decreases |tries|
  {
    if tries == [] then to == from && next == at
    else
      var last := tries[|tries| - 1];
      Asked(last, w, to, next) && Chain(tries[..|tries| - 1], w, from, at, last.before, last.at)
  }

  /** At most nine tries were made, each after the name of the one before was taken. The last one
      decides; if its name was taken too, the random source is lost to a tenth, or before. */
  ghost predicate Tried(tries: seq<Try>, w: Wanted, from: SM.State, at: nat, to: SM.State, next: nat,
      result: Result<Match, Error>) {
    && Chain(tries, w, from, at, to, next) && |tries| <= 9
    && (forall k | 0 <= k < |tries| - 1 :: Taken(tries[k]))
    && if tries != [] && !Taken(tries[|tries| - 1]) then Decides(tries[|tries| - 1], result)
       else
         && result == Err(ErrFatalRandom)
         && (|tries| < 9 ==> PlanMatch(w.random, next, w.matchIDs, |w.players|).0.None?)
  }

  /** The names drawn so far, and those still to draw. */
  function Prefixed(names: seq<string>, rest: (Option<seq<string>>, nat)): (Option<seq<string>>, nat) {
    (if rest.0.Some? then Some(names + rest.0.value) else None, rest.1)
  }

  lemma NothingPrefixed(rest: (Option<seq<string>>, nat))
    ensures Prefixed([], rest) == rest
  {
    if rest.0.Some? { assert [] + rest.0.value == rest.0.value; }
  }

  /** One more session identifier, or the end of the draws. */
  lemma OneMoreSession(random: SA.Random, at: nat, taken: set<string>, n: nat, names: seq<string>)
    requires n > 0
    ensures var (id, next) := UniqueName(random, at, "s-", taken, ID_DRAWS);
      Prefixed(names, SessionNames(random, at, taken, n)) ==
        if id.None? then (None, next)
        else Prefixed(names + [id.value], SessionNames(random, next, taken + {id.value}, n - 1))
  {
    hide UniqueName;
    var (id, next) := UniqueName(random, at, "s-", taken, ID_DRAWS);
    if id.Some? {
      var rest := SessionNames(random, next, taken + {id.value}, n - 1).0;
      if rest.Some? { assert names + ([id.value] + rest.value) == (names + [id.value]) + rest.value; }
    }
  }

  lemma NoMoreSessions(random: SA.Random, at: nat, taken: set<string>, names: seq<string>)
    ensures Prefixed(names, SessionNames(random, at, taken, 0)) == (Some(names), at)
  {
    assert names + [] == names;
  }

  /** So far every name was taken. */
  ghost predicate AllTaken(tries: seq<Try>, w: Wanted, from: SM.State, at: nat, to: SM.State, next: nat) {
    Chain(tries, w, from, at, to, next) && forall k | 0 <= k < |tries| :: Taken(tries[k])
  }

  lemma OneMoreTaken(tries: seq<Try>, t: Try, w: Wanted, from: SM.State, at: nat, to: SM.State, next: nat)
    requires AllTaken(tries, w, from, at, t.before, t.at) && Asked(t, w, to, next) && Taken(t)
    ensures AllTaken(tries + [t], w, from, at, to, next) && |tries + [t]| == |tries| + 1
  {
    ChainGrows(tries, t, w, from, at, to, next);
    hide Chain, Asked, Taken;
  }

  lemma TriedInVain(tries: seq<Try>, w: Wanted, from: SM.State, at: nat, to: SM.State, next: nat)
    requires AllTaken(tries, w, from, at, to, next) && |tries| <= 9
    requires |tries| == 9 || PlanMatch(w.random, next, w.matchIDs, |w.players|).0.None?
    ensures Tried(tries, w, from, at, to, next, Err(ErrFatalRandom))
  {
    hide Chain, Taken, PlanMatch;
  }

  lemma TriedAndDecided(tries: seq<Try>, t: Try, w: Wanted, from: SM.State, at: nat, to: SM.State, next: nat,
      result: Result<Match, Error>)
    requires AllTaken(tries, w, from, at, t.before, t.at) && Asked(t, w, to, next) && |tries| < 9
    requires !Taken(t) && Decides(t, result)
    ensures Tried(tries + [t], w, from, at, to, next, result)
  {
    ChainGrows(tries, t, w, from, at, to, next);
    hide Chain, Asked, Taken, PlanMatch, Decides;
  }

  lemma NoTries(w: Wanted, from: SM.State, at: nat)
    ensures AllTaken([], w, from, at, from, at)
  {
  }

  lemma SessionsHaveNames(random: SA.Random, matchIDs: set<string>, at: nat, n: nat)
    ensures forall place: nat, taken :: var sessions := SessionNames(random, place, taken, n).0;
      sessions.Some? ==> |sessions.value| == n
  {
    forall place: nat, taken
      ensures SessionNames(random, place, taken, n).0.Some? ==> |SessionNames(random, place, taken, n).0.value| == n
    {
      SessionsAreFree(random, place, taken, n);
    }
  }

  lemma ChainGrows(tries: seq<Try>, t: Try, w: Wanted, from: SM.State, at: nat, to: SM.State, next: nat)
    requires Chain(tries, w, from, at, t.before, t.at) && Asked(t, w, to, next)
    ensures Chain(tries + [t], w, from, at, to, next)
  {
    hide Asked;
    assert (tries + [t])[..|tries + [t]| - 1] == tries;
  }

  /** Every match that was allocated is backed by the store. */
  ghost predicate AllGranted(v: SM.State, outcomes: seq<Result<Match, Error>>, n: nat) {
    forall k | 0 <= k < |outcomes| && outcomes[k].Ok? :: Granted(v, outcomes[k].value, n)
  }


  lemma NothingIsGranted(n: nat)
    ensures forall v :: AllGranted(v, [], n)
  {
  }

  lemma OneMoreGranted(v: SM.State, v': SM.State, outcomes: seq<Result<Match, Error>>, next: Result<Match, Error>,
      n: nat)
    requires AllGranted(v, outcomes, n) && KeepsGrants(v, v') && (next.Ok? ==> Granted(v', next.value, n))
    ensures AllGranted(v', outcomes + [next], n)
  {
    forall k | 0 <= k < |outcomes| && outcomes[k].Ok? ensures Granted(v', outcomes[k].value, n) {
      GrantedStays(v, v', outcomes[k].value, n);
    }
    hide Granted;
  }

  lemma OrderSize(members: map<string, Member>, order: seq<string>)
    requires InJoinOrder(members, order)
    ensures |order| == |members|
  {
    forall i, j | 0 <= i < j < |order| ensures order[i] != order[j] {
      assert order[i] in order && order[j] in order;
      assert members[order[i]].joinSequence < members[order[j]].joinSequence;
    }
    DistinctSize(order);
    assert (set p | p in order) == members.Keys;
    assert |members| == |members.Keys|;
  }

  lemma {:induction false} DistinctSize(q: seq<string>)
    requires forall i, j | 0 <= i < j < |q| :: q[i] != q[j]
    ensures |set p | p in q| == |q|
  {
    if q != [] {
      var front, last := q[..|q| - 1], q[|q| - 1];
      assert forall i | 0 <= i < |front| :: front[i] == q[i];
      DistinctSize(front);
      assert (set p | p in q) == (set p | p in front) + {last};
      assert last !in front;
    }
  }

  lemma GrantsOfLiving(s: SM.State, limits: A.Limits, r: SM.Ref)
    requires SM.Inv(s, limits) && r in s.heap
    ensures s.heap[r].roomID in s.rooms && !s.rooms[s.heap[r].roomID].state.Tombstone?
  {
    SA.GrantFacts(s, limits, r);
    if s.rooms[s.heap[r].roomID].state.Tombstone? { SW.TombstoneIsBare(s, limits, s.heap[r].roomID); }
  }

  /** Whatever a creation answers, every grant that was there is still there. */
  lemma CreationKeepsGrants(s: SM.State, limits: A.Limits, random: SA.Random, id: string, d: D.Definition,
      reading: ClockReading)
    requires SM.Inv(s, limits)
    ensures forall r | r in s.rooms :: SR.Resident(s, s.rooms[r].grants)
    ensures KeepsGrants(s, SR.CreateRoom(s, limits, random, id, d, reading).0)
    ensures var (s', result) := SR.CreateRoom(s, limits, random, id, d, reading);
      result.Ok? && result.value.1 ==> Unused(s.heap, id)
  {
    hide SM.Inv, SR.CreateRoom, SC.DrawsFresh, SD.Evolves, SL.CreationRefusal, SL.LastsAsAsked, SL.StartsFull,
         SC.Allocated;
    SC.CreateRoomKeepsInv(s, limits, random, id, d, reading);
    SL.NewRoomLasts(s, limits, random, id, d, reading);
    SL.CreationAnswersExactly(s, limits, random, id, d, reading);
    SC.DropStaleFrame(s, id, reading.mono);
    var (s', result) := SR.CreateRoom(s, limits, random, id, d, reading);
    forall r | r in s.heap
      ensures r in s'.heap && s'.heap[r] == s.heap[r] && SD.KeptRoom(s, s', s.heap[r].roomID)
      ensures result.Ok? && result.value.1 ==> s.heap[r].roomID != id
    {
      GrantsOfLiving(s, limits, r);
    }
  }

  /** The grants of a created room are live, and as the answer says. */
  lemma CreatedRoom(s: SM.State, limits: A.Limits, random: SA.Random, id: string, d: D.Definition,
      reading: ClockReading)
    requires SM.Inv(s, limits)
    ensures forall r | r in s.rooms :: SR.Resident(s, s.rooms[r].grants)
    ensures var (s', result) := SR.CreateRoom(s, limits, random, id, d, reading);
      result.Ok? && result.value.1 ==> RoomOf(s', id, result.value.0.grants, d.expiresAt)
  {
    hide SM.Inv, SR.CreateRoom, D.Sort, D.ValidParticipant, SC.NextCredentials, SL.StartsFull;
    SR.RoomsResident(s, limits);
    SC.CreatedAllocates(s, limits, random, id, d, reading);
    SL.NewRoomLasts(s, limits, random, id, d, reading);
    var (s', result) := SR.CreateRoom(s, limits, random, id, d, reading);
    if result.Ok? && result.value.1 {
      var c := D.Canonical(id, d, limits).value;
      D.CanonicalIsValid(id, d, limits);
      IssuedRoom(s', id, c, reading, result.value.0);
    }
  }

  lemma IssuedRoom(v: SM.State, id: string, c: D.Definition, reading: ClockReading, a: SR.Allocation)
    requires SL.LastsAsAsked(v, id, c, reading) && SR.Resident(v, v.rooms[id].grants)
      && a == SR.AllocationAt(v, id, reading.mono)
    requires D.DistinctIDs(c.participants) && |c.participants| > 0
    requires forall i | 0 <= i < |a.grants| :: a.grants[i].state.Issued?
    ensures RoomOf(v, id, a.grants, c.expiresAt)
  {
    hide SR.GrantStateAt;
    forall i | 0 <= i < |a.grants| ensures Told(v.heap[v.rooms[id].grants[i]], a.grants[i], id) {
      assert SL.JustIssued(v.heap[v.rooms[id].grants[i]], id, c.participants[i], reading);
      assert a.grants[i] == SR.GrantAllocationAt(v.heap[v.rooms[id].grants[i]], reading.mono);
    }
    forall i | 0 <= i < |a.grants| ensures a.grants[i].participantID == c.participants[i].participantID {
      assert SL.JustIssued(v.heap[v.rooms[id].grants[i]], id, c.participants[i], reading);
    }
  }

  /** A match whose assignments are for the grants of a room is backed by it. */
  lemma AssignedIsGranted(v: SM.State, m: Match, grants: seq<SR.GrantAllocation>)
    requires RoomOf(v, m.roomID, grants, m.expiresAt)
    requires forall p | p in m.assignments ::
      && m.assignments[p].playerID == p && m.assignments[p].roomID == m.roomID
      && exists i :: 0 <= i < |grants| && IsFor(grants[i], m.assignments[p])
    ensures Granted(v, m, |grants|)
  {
    forall p | p in m.assignments ensures exists i: nat :: GrantFor(v, m, p, i) {
      var i: nat :| i < |grants| && IsFor(grants[i], m.assignments[p]);
      assert Told(v.heap[v.rooms[m.roomID].grants[i]], grants[i], m.roomID);
      forall j | 0 <= j < |grants| && j != i ensures v.heap[v.rooms[m.roomID].grants[j]].participantID != p {
        assert Told(v.heap[v.rooms[m.roomID].grants[j]], grants[j], m.roomID);
      }
      assert GrantFor(v, m, p, i);
    }
  }

  // ---------------------------------------------------------------- expiry, one record at a time

  /** The queue without a player that has left it. */
  lemma {:induction false} FilterWithout(q: seq<string>, keep: set<string>, playerID: string)
    requires playerID in keep && forall i, j | 0 <= i < j < |q| :: q[i] != q[j]
    ensures Without(Filter(q, keep), playerID) == Filter(q, keep - {playerID})
    decreases |q|
  {
    if q != [] {
      var rest := q[1..];
      assert forall i | 0 <= i < |rest| :: rest[i] == q[i + 1];
      FilterWithout(rest, keep, playerID);
      if q[0] == playerID {
        FilterAgrees(rest, keep, keep - {playerID});
        assert Filter(q, keep) == [playerID] + Filter(rest, keep);
      } else if q[0] in keep {
        var kept := Filter(rest, keep);
        assert Filter(q, keep) == [q[0]] + kept && ([q[0]] + kept)[1..] == kept;
        assert Without([q[0]] + kept, playerID) == [q[0]] + Without(kept, playerID);
        assert Filter(q, keep - {playerID}) == [q[0]] + Filter(rest, keep - {playerID});
      } else {
        assert Filter(q, keep) == [] + Filter(rest, keep) == Filter(rest, keep);
        assert Filter(q, keep - {playerID}) == [] + Filter(rest, keep - {playerID});
      }
    }
  }

  lemma {:induction false} FilterAgrees(q: seq<string>, keep: set<string>, keep': set<string>)
    requires forall i | 0 <= i < |q| :: q[i] in keep <==> q[i] in keep'
    ensures Filter(q, keep) == Filter(q, keep')
    decreases |q|
  {
    if q != [] {
      assert forall i | 0 <= i < |q[1..]| :: q[1..][i] == q[i + 1];
      FilterAgrees(q[1..], keep, keep');
    }
  }

  /** The queues after the tickets of `gone` have left. */
  ghost function QueuesWithout(s: State, gone: set<string>): map<QueueKey, seq<string>> {
    map key | key in s.queues && Filter(s.queues[key], s.tickets.Keys - gone) != [] ::
      Filter(s.queues[key], s.tickets.Keys - gone)
  }

  lemma QueueWithout(s: State, gone: set<string>, key: QueueKey)
    ensures QueueAt(s.(queues := QueuesWithout(s, gone)), key) == Filter(QueueAt(s, key), s.tickets.Keys - gone)
  {
  }

  /** One more queued ticket leaves its queue. */
  lemma OneMoreLeaves(s: State, gone: set<string>, playerID: string)
    requires QueuesOK(s) && playerID in s.tickets && playerID !in gone && s.tickets[playerID].state.TicketQueued?
    ensures var key := KeyOf(s.tickets[playerID]);
      QueuesWithout(s, gone + {playerID}) ==
        WithQueue(QueuesWithout(s, gone), key, Without(QueueAt(s.(queues := QueuesWithout(s, gone)), key), playerID))
  {
    hide Filter, Without, QueuesOK;
    var key := KeyOf(s.tickets[playerID]);
    var keep, keep' := s.tickets.Keys - gone, s.tickets.Keys - (gone + {playerID});
    assert keep - {playerID} == keep';
    QueueWithout(s, gone, key);
    forall k | k in s.queues
      ensures Filter(s.queues[k], keep') == if k == key then Without(Filter(s.queues[k], keep), playerID)
        else Filter(s.queues[k], keep)
    {
      QueueDistinct(s, k);
      if k == key { FilterWithout(s.queues[k], keep, playerID); } else { FilterAgrees(s.queues[k], keep, keep'); }
    }
    HeldQueue(s, playerID);
    WithoutEmpty(playerID);
    var before, after := QueuesWithout(s, gone), QueuesWithout(s, gone + {playerID});
    var q := Without(QueueAt(s.(queues := before), key), playerID);
    forall k ensures k in after <==> k in WithQueue(before, key, q) {}
    forall k | k in after ensures after[k] == WithQueue(before, key, q)[k] {}
  }

  lemma HeldQueue(s: State, playerID: string)
    requires QueuesOK(s) && playerID in s.tickets && s.tickets[playerID].state.TicketQueued?
    ensures KeyOf(s.tickets[playerID]) in s.queues
  {
  }

  lemma WithoutEmpty(playerID: string)
    ensures Without([], playerID) == []
  {
  }

  lemma QueueDistinct(s: State, key: QueueKey)
    requires QueuesOK(s) && key in s.queues
    ensures forall i, j | 0 <= i < j < |s.queues[key]| :: s.queues[key][i] != s.queues[key][j]
    ensures forall i | 0 <= i < |s.queues[key]| ::
      s.queues[key][i] in s.tickets && KeyOf(s.tickets[s.queues[key][i]]) == key
  {
    var q := s.queues[key];
    assert InOrder(q, s.tickets, key);
  }

  /** A matched ticket was in no queue. */
  lemma MatchedLeavesNone(s: State, gone: set<string>, playerID: string)
    requires QueuesOK(s) && playerID in s.tickets && !s.tickets[playerID].state.TicketQueued?
    ensures QueuesWithout(s, gone + {playerID}) == QueuesWithout(s, gone)
  {
    var keep := s.tickets.Keys - gone;
    assert keep - {playerID} == s.tickets.Keys - (gone + {playerID});
    forall k | k in s.queues ensures Filter(s.queues[k], keep - {playerID}) == Filter(s.queues[k], keep) {
      assert InOrder(s.queues[k], s.tickets, k);
      FilterAgrees(s.queues[k], keep, keep - {playerID});
    }
    hide Filter, QueuesOK;
  }

  lemma NobodyLeaves(s: State)
    requires QueuesOK(s)
    ensures QueuesWithout(s, {}) == s.queues
  {
    assert s.tickets.Keys - {} == s.tickets.Keys;
    forall k | k in s.queues ensures Filter(s.queues[k], s.tickets.Keys) == s.queues[k] {
      QueueDistinct(s, k);
      FilterAll(s.queues[k], s.tickets.Keys);
    }
    hide Filter;
  }

  /** What the end of some lobbies leaves. */
  ghost function AfterLobbies(s: State, gone: set<string>): State {
    s.(lobbies := s.lobbies - gone,
       lobbyByPlayer := map p | p in s.lobbyByPlayer && s.lobbyByPlayer[p] !in gone :: s.lobbyByPlayer[p],
       matchIDs := s.matchIDs - (set l, p | l in gone && l in s.lobbies && p in s.lobbies[l].assignments ::
         s.lobbies[l].assignments[p].matchID))
  }

  /** What the end of some tickets leaves. */
  ghost function AfterTickets(s: State, gone: set<string>): State {
    s.(tickets := s.tickets - gone, queues := QueuesWithout(s, gone),
       matchIDs := s.matchIDs - (set p | p in gone && p in s.tickets && s.tickets[p].assignment.Some? ::
         s.tickets[p].assignment.value.matchID))
  }

  function ExpiredLobbies(s: State, now: int): set<string> {
    set l | l in s.lobbies && now >= s.lobbies[l].monoDeadline
  }

  function ExpiredTickets(s: State, now: int): set<string> {
    set p | p in s.tickets && now >= s.tickets[p].monoDeadline
  }

  /** The rooms of the matches that have expired. */
  function EndedRooms(s: State, now: int): set<string> {
    (set l, p | l in s.lobbies && now >= s.lobbies[l].monoDeadline && p in s.lobbies[l].assignments ::
      s.lobbies[l].assignments[p].roomID) +
    (set p | p in s.tickets && now >= s.tickets[p].monoDeadline && s.tickets[p].assignment.Some? ::
      s.tickets[p].assignment.value.roomID)
  }

  lemma ExpireInTwoSteps(s: State, now: int)
    requires PlayersOK(s)
    ensures Expire(s, now) == AfterTickets(AfterLobbies(s, ExpiredLobbies(s, now)), ExpiredTickets(s, now))
  {
    LiveAfterLobbies(s, now);
    LiveAfterTickets(s, now);
    EndedInBoth(s, now);
    hide LiveLobbies, LiveTickets, LiveQueues, QueuesWithout, EndedMatches, ExpiredLobbies, ExpiredTickets;
  }

  lemma LiveAfterLobbies(s: State, now: int)
    requires PlayersOK(s)
    ensures var s1 := AfterLobbies(s, ExpiredLobbies(s, now));
      s1.lobbies == LiveLobbies(s, now) && s1.lobbyByPlayer == Expire(s, now).lobbyByPlayer
  {
    hide LiveQueues, EndedMatches;
    assert AfterLobbies(s, ExpiredLobbies(s, now)).lobbies == LiveLobbies(s, now);
  }

  lemma LiveAfterTickets(s: State, now: int)
    ensures var s1 := AfterLobbies(s, ExpiredLobbies(s, now));
      s1.tickets - ExpiredTickets(s, now) == LiveTickets(s, now)
        && QueuesWithout(s1, ExpiredTickets(s, now)) == LiveQueues(s, now)
  {
    hide Filter, EndedMatches, LiveLobbies;
    assert s.tickets.Keys - ExpiredTickets(s, now) == LiveTickets(s, now).Keys;
  }

  lemma EndedInBoth(s: State, now: int)
    ensures var s1 := AfterLobbies(s, ExpiredLobbies(s, now));
      AfterTickets(s1, ExpiredTickets(s, now)).matchIDs == s.matchIDs - EndedMatches(s, now)
  {
    hide QueuesWithout, LiveQueues;
  }

  /** One more lobby ends, its match with it. */
  lemma OneMoreLobby(s: State, gone: set<string>, l: string)
    requires PlayersOK(s) && LobbiesOK(s) && l in s.lobbies && l !in gone
    ensures var s1, lobby := AfterLobbies(s, gone), s.lobbies[l];
      && AfterLobbies(s, gone + {l}) == s1.(
           lobbies := s1.lobbies - {l}, lobbyByPlayer := s1.lobbyByPlayer - lobby.members.Keys,
             matchIDs := s1.matchIDs - MatchesOf(lobby))
      && (lobby.state.Matched? && lobby.assignments != map[] <==> MatchesOf(lobby) != {})
  {
    hide PlayersOK, LobbiesOK, LobbyOK, AfterLobbies, MatchesOf;
    LobbyAt(s, l);
    LobbyMatchMeans(s.lobbies[l], s.nextSequence);
    OneMorePlayers(s, gone, l);
    OneMoreMatch(s, gone, l);
    AfterLobbiesFrame(s, gone);
    AfterLobbiesFrame(s, gone + {l});
    assert s.lobbies - (gone + {l}) == s.lobbies - gone - {l};
  }

  lemma LobbyAt(s: State, l: string)
    requires LobbiesOK(s) && l in s.lobbies
    ensures LobbyOK(s.lobbies[l], s.nextSequence)
  {
  }

  lemma DueAreLobbies(s: State, now: int)
    ensures ExpiredLobbies(s, now) <= s.lobbies.Keys
  {
  }

  lemma AfterLobbiesFrame(s: State, gone: set<string>)
    ensures var s' := AfterLobbies(s, gone);
      s' == s.(lobbies := s.lobbies - gone, lobbyByPlayer := s'.lobbyByPlayer, matchIDs := s'.matchIDs)
  {
  }

  /** A lobby that is still to visit is as it was. */
  lemma LobbyToVisit(s: State, gone: set<string>, l: string, now: int)
    requires LobbiesOK(s) && l in s.lobbies && l !in gone
    ensures var s' := AfterLobbies(s, gone);
      && s' == s.(lobbies := s'.lobbies, lobbyByPlayer := s'.lobbyByPlayer, matchIDs := s'.matchIDs)
      && l in s'.lobbies && s'.lobbies[l] == s.lobbies[l] && LobbyOK(s.lobbies[l], s.nextSequence)
    ensures l in ExpiredLobbies(s, now) <==> now >= s.lobbies[l].monoDeadline
  {
    LobbyAt(s, l);
    hide LobbiesOK, LobbyOK;
  }

  lemma OneMorePlayers(s: State, gone: set<string>, l: string)
    requires PlayersOK(s) && l in s.lobbies && l !in gone
    ensures AfterLobbies(s, gone + {l}).lobbyByPlayer == AfterLobbies(s, gone).lobbyByPlayer - s.lobbies[l].members.Keys
  {
    forall p | p in s.lobbyByPlayer ensures s.lobbyByPlayer[p] == l <==> p in s.lobbies[l].members {}
    hide PlayersOK;
  }

  lemma OneMoreMatch(s: State, gone: set<string>, l: string)
    requires l in s.lobbies
    ensures AfterLobbies(s, gone + {l}).matchIDs == AfterLobbies(s, gone).matchIDs - MatchesOf(s.lobbies[l])
  {
  }

  lemma LobbyMatchMeans(l: Lobby, next: nat)
    requires LobbyOK(l, next)
    ensures l.state.Matched? && l.assignments != map[] <==> MatchesOf(l) != {}
    ensures forall p | p in l.assignments :: MatchesOf(l) == {l.assignments[p].matchID}
    ensures forall p, q | p in l.assignments && q in l.assignments :: l.assignments[p].roomID == l.assignments[q].roomID
  {
    if l.assignments != map[] {
      var p :| p in l.assignments;
      assert l.assignments[p].matchID in MatchesOf(l);
    }
  }

  /** The rooms `ids` have ended, and no other room changed. */
  ghost predicate RoomsEnded(s: SM.State, s': SM.State, ids: set<string>) {
    && (forall id | id !in ids ::
       (id in s'.rooms <==> id in s.rooms) && (id in s.rooms ==> s'.rooms[id] == s.rooms[id]))
    && (forall id | id in ids && ValidID(id) && id in s'.rooms :: s'.rooms[id].state.Tombstone?)
  }

  lemma RoomsEndedTwice(s: SM.State, s1: SM.State, s2: SM.State, a: set<string>, b: set<string>)
    requires RoomsEnded(s, s1, a) && RoomsEnded(s1, s2, b)
    ensures RoomsEnded(s, s2, a + b)
  {
  }

  lemma EndedOne(s: SM.State, limits: A.Limits, id: string, now: int)
    requires SM.Inv(s, limits)
    ensures forall r | r in s.rooms :: SR.Resident(s, s.rooms[r].grants)
    ensures RoomsEnded(s, SR.EndRoom(s, limits, id, now).0, {id})
  {
    hide SM.Inv, ST.Ends, SR.EndRoom, SD.Evolves, SR.DropStale;
    SR.RoomsResident(s, limits);
    ST.EndRoomKeepsInv(s, limits, id, now);
    EndedElsewhere(s, limits, id, now);
  }

  lemma EndedElsewhere(s: SM.State, limits: A.Limits, id: string, now: int)
    requires SM.Inv(s, limits)
    ensures forall r | r in s.rooms :: SR.Resident(s, s.rooms[r].grants)
    ensures !(ValidID(id) && id in s.rooms && !s.rooms[id].state.Tombstone?) ==>
      SR.EndRoom(s, limits, id, now).0 == s || SR.EndRoom(s, limits, id, now).0.rooms == s.rooms - {id}
  {
    hide SM.Inv;
    SR.RoomsResident(s, limits);
  }

  /** The rooms of the matches of some lobbies. */
  function LobbyRooms(s: State, gone: set<string>): set<string> {
    set l, p | l in gone && l in s.lobbies && p in s.lobbies[l].assignments :: s.lobbies[l].assignments[p].roomID
  }

  function TicketRooms(s: State, gone: set<string>): set<string> {
    set p | p in gone && p in s.tickets && s.tickets[p].assignment.Some? :: s.tickets[p].assignment.value.roomID
  }

  function RoomsOf(l: Lobby): set<string> { set p | p in l.assignments :: l.assignments[p].roomID }

  lemma NoMatchNoRoom(l: Lobby)
    requires MatchesOf(l) == {}
    ensures RoomsOf(l) == {}
  {
    assert forall p | p in l.assignments :: l.assignments[p].matchID in MatchesOf(l);
  }

  lemma OneMoreRoom(s: State, gone: set<string>, l: string)
    requires l in s.lobbies
    ensures LobbyRooms(s, gone + {l}) == LobbyRooms(s, gone) + RoomsOf(s.lobbies[l])
  {
  }

  function MatchOfTicket(t: Ticket): set<string> { if t.assignment.Some? then {t.assignment.value.matchID} else {} }

  function RoomOfTicket(t: Ticket): set<string> { if t.assignment.Some? then {t.assignment.value.roomID} else {} }

  lemma OneMoreGone(s: State, gone: set<string>, playerID: string)
    requires playerID in s.tickets
    ensures var s1, s2, t := AfterTickets(s, gone), AfterTickets(s, gone + {playerID}), s.tickets[playerID];
      && s2.tickets == s1.tickets - {playerID} && s2.matchIDs == s1.matchIDs - MatchOfTicket(t)
      && TicketRooms(s, gone + {playerID}) == TicketRooms(s, gone) + RoomOfTicket(t)
  {
    hide QueuesWithout;
  }

  lemma OneMoreQueued(s: State, gone: set<string>, playerID: string)
    requires QueuesOK(s) && playerID in s.tickets && playerID !in gone && s.tickets[playerID].state.TicketQueued?
    ensures var s1, key := AfterTickets(s, gone), KeyOf(s.tickets[playerID]);
      && playerID in QueueAt(s1, key)
      && QueuesWithout(s, gone + {playerID}) == WithQueue(s1.queues, key, Without(QueueAt(s1, key), playerID))
  {
    hide QueuesWithout, WithQueue, Without, QueuesOK;
    var key := KeyOf(s.tickets[playerID]);
    SameQueueAt(s, AfterTickets(s, gone), gone, key);
    QueueWithout(s, gone, key);
    OneMoreLeaves(s, gone, playerID);
    InOwnQueue(s, playerID);
    FilterHas(QueueAt(s, key), s.tickets.Keys - gone);
  }

  /** One more ticket ends, seen from the state in which others have ended. */
  lemma OneMoreTicket(s: State, gone: set<string>, playerID: string)
    requires TicketsOK(s) && QueuesOK(s) && playerID in s.tickets && playerID !in gone
    ensures var s1, t := AfterTickets(s, gone), s.tickets[playerID];
      && s1.nextSequence == s.nextSequence && playerID in s1.tickets && s1.tickets[playerID] == t
         && TicketOK(playerID, t, s.nextSequence)
      && (t.state.TicketQueued? ==> playerID in QueueAt(s1, KeyOf(t)))
      && AfterTickets(s, gone + {playerID}) == s1.(
           tickets := s1.tickets - {playerID},
           queues := if t.state.TicketQueued? then
             WithQueue(s1.queues, KeyOf(t), Without(QueueAt(s1, KeyOf(t)), playerID)) else s1.queues,
           matchIDs := s1.matchIDs - MatchOfTicket(t))
      && TicketRooms(s, gone + {playerID}) == TicketRooms(s, gone) + RoomOfTicket(t)
  {
    hide QueuesWithout, WithQueue, Without, TicketOK, QueuesOK, QueueAt, MatchOfTicket, RoomOfTicket, TicketRooms;
    assert TicketOK(playerID, s.tickets[playerID], s.nextSequence);
    OneMoreGone(s, gone, playerID);
    if s.tickets[playerID].state.TicketQueued? {
      OneMoreQueued(s, gone, playerID);
    } else {
      MatchedLeavesNone(s, gone, playerID);
    }
  }

  lemma SameQueueAt(s: State, s1: State, gone: set<string>, key: QueueKey)
    requires s1.queues == QueuesWithout(s, gone)
    ensures QueueAt(s1, key) == QueueAt(s.(queues := QueuesWithout(s, gone)), key)
  {
    hide QueuesWithout;
  }

  lemma InOwnQueue(s: State, playerID: string)
    requires QueuesOK(s) && playerID in s.tickets && s.tickets[playerID].state.TicketQueued?
    ensures playerID in QueueAt(s, KeyOf(s.tickets[playerID]))
  {
  }

  lemma NoTicketEnded(s: State)
    requires QueuesOK(s)
    ensures AfterTickets(s, {}) == s && TicketRooms(s, {}) == {}
  {
    NobodyLeaves(s);
    hide QueuesWithout, QueuesOK;
    assert AfterTickets(s, {}).tickets == s.tickets;
  }

  lemma TicketSideSame(s: State, s': State)
    requires TicketsOK(s) && QueuesOK(s) && s'.tickets == s.tickets && s'.queues == s.queues
      && s'.nextSequence == s.nextSequence
    ensures TicketsOK(s') && QueuesOK(s')
  {
  }

  lemma EndedInTwoSteps(s: State, s1: State, now: int)
    requires s1.tickets == s.tickets
    ensures EndedRooms(s, now) == LobbyRooms(s, ExpiredLobbies(s, now)) + TicketRooms(s1, ExpiredTickets(s1, now))
    ensures ExpiredTickets(s1, now) == ExpiredTickets(s, now)
  {
  }

  lemma {:induction false} WithoutSplits(q: seq<string>, i: nat, playerID: string)
    requires i < |q| && q[i] == playerID && playerID !in q[..i]
    ensures Without(q, playerID) == q[..i] + q[i + 1..]
    decreases i
  {
    if i > 0 {
      assert q[0] in q[..i];
      assert q[1..][..i - 1] == q[..i][1..];
      WithoutSplits(q[1..], i - 1, playerID);
      assert q[..i] == [q[0]] + q[1..][..i - 1];
      assert q[1..][i..] == q[i + 1..];
    }
  }

  lemma InvParts(s: State)
    requires Inv(s)
    ensures PlayersOK(s) && LobbiesOK(s) && TicketsOK(s) && QueuesOK(s) && MatchesOK(s)
  {
  }

  lemma NobodyDue(due: set<string>, all: set<string>)
    requires due <= all
    ensures due - all == {}
  {
  }

  /** The scan visits one more. */
  lemma OneMoreDue(due: set<string>, remaining: set<string>, x: string)
    requires x in remaining
    ensures due - (remaining - {x}) == if x in due then (due - remaining) + {x} else due - remaining
    ensures x !in due - remaining
  {
  }

  lemma NobodyEnded(s: State, r: SM.State)
    ensures AfterLobbies(s, {}) == s && LobbyRooms(s, {}) == {} && RoomsEnded(r, r, {})
  {
    assert AfterLobbies(s, {}).lobbies == s.lobbies;
    assert AfterLobbies(s, {}).lobbyByPlayer == s.lobbyByPlayer;
  }

  // ---------------------------------------------------------------- Start and Quick Match

  lemma NotAnswered(s: State, playerID: string, lobbyID: string, revision: nat, error: Error)
    ensures StartAnswered(s, playerID, lobbyID, revision, Err(error))
  {
  }

  lemma StartIsAnswered(s: State, playerID: string, lobbyID: string, revision: nat, players: seq<string>,
      outcome: Result<Match, Error>)
    requires lobbyID in s.lobbies && DistinctJoins(s.lobbies[lobbyID].members)
      && players == JoinOrder(s.lobbies[lobbyID].members)
    requires outcome.Ok? ==> Allocated(s, players, outcome.value)
    ensures StartAnswered(s, playerID, lobbyID, revision, outcome)
  {
  }

  lemma {:induction false} FilterSnoc(q: seq<string>, p: string, keep: set<string>)
    ensures Filter(q + [p], keep) == Filter(q, keep) + (if p in keep then [p] else [])
    decreases |q|
  {
    if q == [] {
      assert q + [p] == [p] && [p][1..] == [];
    } else {
      assert (q + [p])[1..] == q[1..] + [p];
      FilterSnoc(q[1..], p, keep);
    }
  }

  /** The answers so far take the matching from `s` to `t`. */
  ghost predicate Leads(s: State, t: State, key: QueueKey, outcomes: seq<Result<Match, Error>>) {
    forall rest | Answered(t, key, rest) ::
      Answered(s, key, outcomes + rest) && MatchQueue(s, key, outcomes + rest) == MatchQueue(t, key, rest)
  }

  lemma LeadsNowhere(s: State, key: QueueKey)
    ensures Leads(s, s, key, [])
  {
    forall rest | Answered(s, key, rest)
      ensures Answered(s, key, [] + rest) && MatchQueue(s, key, [] + rest) == MatchQueue(s, key, rest)
    {
      assert [] + rest == rest;
    }
  }

  lemma LeadsOn(s: State, t: State, key: QueueKey, outcomes: seq<Result<Match, Error>>, m: Match)
    requires Leads(s, t, key, outcomes) && |QueueAt(t, key)| >= key.capacity
      && Allocated(t, QueueAt(t, key)[..key.capacity], m)
    ensures Leads(s, FormMatch(t, key, m), key, outcomes + [Ok(m)])
  {
    forall rest | Answered(FormMatch(t, key, m), key, rest)
      ensures Answered(s, key, outcomes + [Ok(m)] + rest)
        && MatchQueue(s, key, outcomes + [Ok(m)] + rest) == MatchQueue(FormMatch(t, key, m), key, rest)
    {
      var next: seq<Result<Match, Error>> := [Ok(m)] + rest;
      assert next[1..] == rest;
      assert Answered(t, key, next);
      assert outcomes + [Ok(m)] + rest == outcomes + next;
    }
  }

  lemma LeadsToEnd(s: State, t: State, key: QueueKey, outcomes: seq<Result<Match, Error>>, last: seq<Result<Match,
      Error>>)
    requires Leads(s, t, key, outcomes)
    requires if |QueueAt(t, key)| < key.capacity then last == [] else |last| == 1 && last[0].Err?
    ensures Answered(s, key, outcomes + last)
    ensures MatchQueue(s, key, outcomes + last) == (t, if last == [] then None else Some(last[0].error))
  {
    assert Answered(t, key, last);
  }

  lemma QueueIsDistinct(s: State, key: QueueKey)
    requires Inv(s) && key in s.queues
    ensures forall i, j | 0 <= i < j < |s.queues[key]| :: s.queues[key][i] != s.queues[key][j]
    ensures forall p | p in s.queues[key] :: p in s.tickets
  {
    QueueDistinct(s, key);
    hide Inv;
  }

  lemma FormMatchShortens(s: State, key: QueueKey, m: Match)
    requires |QueueAt(s, key)| >= key.capacity > 0
    ensures |QueueAt(FormMatch(s, key, m), key)| < |QueueAt(s, key)|
  {
  }

  lemma AllocatedCovers(s: State, players: seq<string>, m: Match)
    requires Allocated(s, players, m)
    ensures forall p | p in players :: p in m.assignments
  {
  }

  class Manager {
    const relay: SO.Store
    const random: SA.Random

    var drawn: nat
    var lobbies: map<string, Lobby>
    var lobbyByPlayer: map<string, string>
    var matchIDs: set<string>
    var tickets: map<string, Ticket>
    var queues: map<QueueKey, seq<string>>
    var nextSequence: nat

    function View(): State
      reads this
    {
      State(lobbies, lobbyByPlayer, matchIDs, tickets, queues, nextSequence)
    }

    /** The store is in order, and its random stream never repeats a value. */
    ghost predicate RelayOK()
      reads relay
    {
      relay.Valid() && SF.NonRepeating(relay.random) && SF.IDsDrawn(relay.View(), relay.random)
    }

    ghost predicate Valid()
      reads this, relay
    {
      RelayOK() && Inv(View())
    }

    constructor (relay: SO.Store, random: SA.Random)
      requires relay.Valid() && SF.NonRepeating(relay.random) && SF.IDsDrawn(relay.View(), relay.random)
      ensures this.relay == relay && this.random == random && Valid() && View() == INIT
    {
      hide SM.Inv;
      this.relay, this.random := relay, random;
      drawn, nextSequence := 0, 1;
      lobbies, lobbyByPlayer, matchIDs, tickets, queues := map[], map[], {}, map[], map[];
      InitOK();
    }

    /** Whatever the store serves to others between two calls of the manager, the manager is
        still in order. */
    twostate lemma OthersMayCall(env: ST.Env, steps: seq<ST.Step>)
      requires old(Valid()) && unchanged(this) && env == ST.Env(relay.limits, relay.hmac, relay.random)
      requires ST.FreshRun(old(relay.View()), env, steps) && relay.View() == ST.Run(old(relay.View()), env, steps)
      ensures Valid()
    {
      hide Inv, SM.Inv, ST.FreshRun, ST.Run, SF.NonRepeating, SF.IDsDrawn, SO.Store.View;
      SF.RunsAreFresh(old(relay.View()), env, steps);
    }

    // -------------------------------------------------------------- identifiers

    method DrawID(prefix: string) returns (id: Option<string>)
      modifies `drawn
      ensures id == NameAt(random, old(drawn), prefix) && drawn == old(drawn) + 1
    {
      var raw := random(drawn);
      drawn := drawn + 1;
      return match raw case None => None case Some(bytes) => Some(prefix + Encode(bytes));
    }

    method UniqueID(prefix: string, taken: set<string>) returns (id: Option<string>)
      modifies `drawn
      ensures (id, drawn) == UniqueName(random, old(drawn), prefix, taken, ID_DRAWS)
      ensures id.Some? ==> id.value !in taken
    {
      UniqueNameIsFree(random, drawn, prefix, taken, ID_DRAWS);
      for tries := 0 to ID_DRAWS
        invariant UniqueName(random, drawn, prefix, taken, ID_DRAWS - tries) == UniqueName(random, old(drawn), prefix,
          taken, ID_DRAWS)
      {
        id := DrawID(prefix);
        if id.None? || id.value !in taken {
          return;
        }
      }
      return None;
    }

    // -------------------------------------------------------------- allocating a match

    /** One participant definition per player, with session identifiers drawn for this try. */
    method DefineParticipants(players: seq<string>, expiresAt: int) returns (participants: Option<seq<D.Participant>>)
      modifies `drawn
      ensures var (sessions, next) := SessionNames(random, old(drawn), {}, |players|);
        && (participants.Some? <==> sessions.Some?) && drawn == next
        && (participants.Some? ==> |sessions.value| == |players|)
        && (participants.Some? ==> participants.value == Defined(players, sessions.value, expiresAt).participants)
    {
      hide UniqueName, SessionNames, Prefixed;
      SessionsAreFree(random, drawn, {}, |players|);
      var defined: seq<D.Participant> := [];
      var sessions: set<string> := {};
      ghost var names: seq<string> := [];
      ghost var wanted := SessionNames(random, drawn, {}, |players|);
      NothingPrefixed(wanted);
      for i := 0 to |players|
        invariant |defined| == |names| == i
        invariant forall k | 0 <= k < i :: defined[k] == D.Participant(players[k], names[k], expiresAt)
        invariant wanted == Prefixed(names, SessionNames(random, drawn, sessions, |players| - i))
      {
        OneMoreSession(random, drawn, sessions, |players| - i, names);
        var sessionID := UniqueID("s-", sessions);
        if sessionID.None? {
          return None;
        }
        sessions := sessions + {sessionID.value};
        defined := defined + [D.Participant(players[i], sessionID.value, expiresAt)];
        names := names + [sessionID.value];
      }
      NoMoreSessions(random, drawn, sessions, names);
      return Some(defined);
    }

    /** The assignments of a created room; that each grant has a secret and no player is
        missing is known, where the program would end the room again. */
    method Assign(matchID: string, roomID: string, grants: seq<SR.GrantAllocation>) returns (assignments: map<string,
        Assignment>)
      requires forall i | 0 <= i < |grants| :: grants[i].grantSecret.Some?
      ensures assignments.Keys == GrantedTo(grants)
      ensures forall p | p in assignments ::
        assignments[p].playerID == p && assignments[p].matchID == matchID && assignments[p].roomID == roomID
      ensures forall p | p in assignments :: exists i :: 0 <= i < |grants| && IsFor(grants[i], assignments[p])
    {
      assignments := map[];
      for i := 0 to |grants|
        invariant assignments.Keys == GrantedTo(grants[..i])
        invariant forall p | p in assignments ::
          assignments[p].playerID == p && assignments[p].matchID == matchID && assignments[p].roomID == roomID
        invariant forall p | p in assignments :: exists k :: 0 <= k < i && IsFor(grants[k], assignments[p])
      {
        var grant := grants[i];
        ghost var before := assignments;
        assignments := assignments[grant.participantID := Assignment(
          matchID, roomID, grant.participantID, grant.sessionID, grant.grantID, grant.grantSecret.value,
            grant.grantExpiresAt)];
        assert grants[..i + 1] == grants[..i] + [grant];
        assert IsFor(grant, assignments[grant.participantID]);
        forall p | p in assignments ensures exists k :: 0 <= k < i + 1 && IsFor(grants[k], assignments[p]) {
          if p != grant.participantID {
            var k :| 0 <= k < i && IsFor(grants[k], before[p]);
          }
        }
      }
      assert grants[..|grants|] == grants;
    }

    ghost function RelayEnv(): ST.Env { ST.Env(relay.limits, relay.hmac, relay.random) }

    /** Ask the store for a room. */
    method CreateMatchRoom(roomID: string, d: D.Definition,
        storeReading: ClockReading) returns (created: Result<(SR.Allocation, bool), D.StoreError>)
      requires RelayOK()
      modifies relay
      ensures RelayOK() && KeepsGrants(old(relay.View()), relay.View())
      ensures created.Ok? && created.value.1 ==>
        && RoomOf(relay.View(), roomID, created.value.0.grants, d.expiresAt)
        && Unused(old(relay.View()).heap, roomID)
        && |created.value.0.grants| == |d.participants|
        && (forall i | 0 <= i < |created.value.0.grants| :: created.value.0.grants[i].grantSecret.Some?)
        && GrantedTo(created.value.0.grants) == PlayersOf(d.participants)
      ensures created.Err? || !created.value.1 ==>
        relay.heap == old(relay.heap) && relay.View().heap == old(relay.View()).heap
      ensures SM.Inv(old(relay.View()), relay.limits)
        && ST.Created(old(relay.View()), RelayEnv(), ST.Step(ST.OnCreate(roomID, d), storeReading)) ==
             (relay.View(), created)
    {
      hide SM.Inv, SF.IDsDrawn, SF.NonRepeating, SR.CreateRoom, SC.DrawsFresh, PlayersOf, GrantedTo, SR.Resident,
           KeepsGrants, Unused, RoomOf;
      SF.CreateIsSound(relay.View(), relay.limits, relay.random, roomID, d, storeReading);
      CreatedCovers(relay.View(), relay.limits, relay.random, roomID, d, storeReading);
      RefusalKeepsGrants(relay.View(), relay.limits, relay.random, roomID, d, storeReading);
      CreationKeepsGrants(relay.View(), relay.limits, relay.random, roomID, d, storeReading);
      CreatedRoom(relay.View(), relay.limits, relay.random, roomID, d, storeReading);
      created := relay.CreateRoom(roomID, d, storeReading);
    }

    ghost function WantedBy(players: seq<string>, expiresAt: int, storeReading: ClockReading): Wanted
      reads `matchIDs
    {
      Wanted(RelayEnv(), random, matchIDs, players, expiresAt, storeReading)
    }

    /** One try: nothing when the room identifier is taken. */
    method TryAllocate(players: seq<string>, expiresAt: int, deadline: int,
        storeReading: ClockReading) returns (result: Result<Option<Match>, Error>, ghost asked: Option<Try>)
      requires RelayOK()
      modifies `drawn, relay
      ensures RelayOK() && KeepsGrants(old(relay.View()), relay.View())
      ensures result.Ok? && result.value.Some? ==>
        && Allocated(View(), players, result.value.value)
        && result.value.value.expiresAt == expiresAt && result.value.value.deadline == deadline
        && Granted(relay.View(), result.value.value, |players|)
        && Unused(old(relay.View()).heap, result.value.value.roomID)
      ensures result.Err? || result.value.None? ==>
        relay.heap == old(relay.heap) && relay.View().heap == old(relay.View()).heap
      ensures asked.None? ==>
        && result == Err(ErrFatalRandom) && PlanMatch(random, old(drawn), matchIDs, |players|).0.None?
        && relay.View() == old(relay.View())
      ensures asked.Some? ==>
        && asked.value.before == old(relay.View()) && asked.value.at == old(drawn)
        && Asked(asked.value, WantedBy(players, expiresAt, storeReading), relay.View(), drawn)
        && match result
           case Ok(None) => Taken(asked.value)
           case Ok(Some(m)) => !Taken(asked.value) && Decides(asked.value, Ok(m))
           case Err(error) => !Taken(asked.value) && Decides(asked.value, Err(error))
    {
      hide RelayOK, PlayersOf, GrantedTo, Granted, KeepsGrants, Unused, RoomOf, SO.Store.View, IsFor, UniqueName,
           SM.Inv, ST.Created, SessionNames;
      KeepsReflexive(relay.View());
      SessionsHaveNames(random, matchIDs, drawn, |players|);
      asked := None;
      ghost var before, at := relay.View(), drawn;
      var matchID := UniqueID("m-", matchIDs);
      if matchID.None? {
        return Err(ErrFatalRandom), None;
      }
      var roomID := DrawID("r-");
      if roomID.None? {
        return Err(ErrFatalRandom), None;
      }
      ghost var sessions := SessionNames(random, drawn, {}, |players|).0;
      var participants := DefineParticipants(players, expiresAt);
      if participants.None? {
        return Err(ErrFatalRandom), None;
      }
      var d := D.Definition(|players|, expiresAt, participants.value);
      var created := CreateMatchRoom(roomID.value, d, storeReading);
      asked := Some(Try(at, Plan(matchID.value, roomID.value, sessions.value), before, created));
      match created {
        case Err(error) =>
          if error == D.ErrConflict {
            return Ok(None), asked;
          }
          return Err(if error == D.ErrFatalRandom then ErrFatalRandom else ErrUnavailable), asked;
        case Ok((allocation, isNew)) =>
          if !isNew {
            return Ok(None), asked;
          }
          DefinedPlayers(players, participants.value);
          var assignments := Assign(matchID.value, roomID.value, allocation.grants);
          assert |allocation.grants| == |players|;
          var m := Match(matchID.value, roomID.value, assignments, expiresAt, deadline);
          AssignedIsGranted(relay.View(), m, allocation.grants);
          return Ok(Some(m)), asked;
      }
    }

    /** A match for these players; a failure leaves no grant behind in the store. */
    method AllocateMatch(players: seq<string>, reading: ClockReading,
        storeReading: ClockReading) returns (result: Result<Match, Error>, ghost tries: seq<Try>, ghost place: nat)
      requires RelayOK()
      modifies `drawn, relay
      ensures RelayOK()
      ensures result.Ok? ==>
        && Allocated(View(), players, result.value)
        && result.value.expiresAt == reading.wall + 120 * SECOND && result.value.deadline == reading.mono + 120 * SECOND
      ensures result.Err? ==> relay.heap == old(relay.heap)
      ensures KeepsGrants(old(relay.View()), relay.View())
      ensures result.Ok? ==>
        Granted(relay.View(), result.value, |players|) && Unused(old(relay.View()).heap, result.value.roomID)
      ensures if reading.mono > MAX_INT64 - 120 * SECOND then result == Err(ErrUnavailable)
              else Tried(tries, WantedBy(players, reading.wall + 120 * SECOND, storeReading), old(relay.View()),
                old(drawn), relay.View(), place, result)
    {
      KeepsReflexive(relay.View());
      var expiresAt := reading.wall + MATCH_TTL;
      var deadline := DeadlineAfter(reading.mono, MATCH_TTL);
      if deadline.None? {
        return Err(ErrUnavailable), [], drawn;
      }
      hide RelayOK, Allocated, SO.Store.View, Granted, KeepsGrants, Unused, Tried, WantedBy;
      result, tries, place := TryUntilFree(players, expiresAt, deadline.value, storeReading);
    }

    /** One more try, after some for which the name was taken. */
    method TryAgain(players: seq<string>, expiresAt: int, deadline: int, storeReading: ClockReading,
        ghost tries: seq<Try>, ghost from: SM.State, ghost at: nat)
      returns (result: Result<Option<Match>, Error>, ghost tries': seq<Try>, ghost place: nat)
      requires RelayOK() && |tries| < 9
      requires AllTaken(tries, WantedBy(players, expiresAt, storeReading), from, at, relay.View(), drawn)
      modifies `drawn, relay
      ensures RelayOK() && KeepsGrants(old(relay.View()), relay.View())
      ensures result.Ok? && result.value.Some? ==>
        && Allocated(View(), players, result.value.value)
        && result.value.value.expiresAt == expiresAt && result.value.value.deadline == deadline
        && Granted(relay.View(), result.value.value, |players|)
        && Unused(old(relay.View()).heap, result.value.value.roomID)
      ensures result.Err? || result.value.None? ==>
        relay.heap == old(relay.heap) && relay.View().heap == old(relay.View()).heap
      ensures var w := WantedBy(players, expiresAt, storeReading);
        match result
        case Ok(None) => AllTaken(tries', w, from, at, relay.View(), drawn) && |tries'| == |tries| + 1
        case Ok(Some(m)) => Tried(tries', w, from, at, relay.View(), place, Ok(m))
        case Err(error) => Tried(tries', w, from, at, relay.View(), place, Err(error))
    {
      ghost var w := WantedBy(players, expiresAt, storeReading);
      assert w.players == players && w.random == random && w.matchIDs == matchIDs;
      hide *;
      ghost var asked;
      place := drawn;
      result, asked := TryAllocate(players, expiresAt, deadline, storeReading);
      tries' := if asked.Some? then tries + [asked.value] else tries;
      if asked.None? {
        TriedInVain(tries, w, from, at, relay.View(), place);
      } else {
        place := drawn;
        match result {
          case Ok(None) => OneMoreTaken(tries, asked.value, w, from, at, relay.View(), drawn);
          case Ok(Some(m)) => TriedAndDecided(tries, asked.value, w, from, at, relay.View(), drawn, Ok(m));
          case Err(error) => TriedAndDecided(tries, asked.value, w, from, at, relay.View(), drawn, Err(error));
        }
      }
    }

    /** Try again while the name of the room is taken, nine times at most. */
    method TryUntilFree(players: seq<string>, expiresAt: int, deadline: int,
        storeReading: ClockReading) returns (result: Result<Match, Error>, ghost tries: seq<Try>, ghost place: nat)
      requires RelayOK()
      modifies `drawn, relay
      ensures RelayOK() && KeepsGrants(old(relay.View()), relay.View())
      ensures result.Ok? ==>
        && Allocated(View(), players, result.value)
        && result.value.expiresAt == expiresAt && result.value.deadline == deadline
        && Granted(relay.View(), result.value, |players|) && Unused(old(relay.View()).heap, result.value.roomID)
      ensures result.Err? ==> relay.heap == old(relay.heap)
      ensures Tried(tries, WantedBy(players, expiresAt, storeReading), old(relay.View()), old(drawn), relay.View(),
        place, result)
    {
      assert ID_DRAWS == 9;
      hide *;
      KeepsReflexive(relay.View());
      tries, place := [], drawn;
      ghost var v, at, w := relay.View(), drawn, WantedBy(players, expiresAt, storeReading);
      NoTries(w, v, at);
      for i := 0 to ID_DRAWS
        invariant RelayOK() && relay.heap == old(relay.heap)
        invariant relay.View().heap == v.heap && KeepsGrants(v, relay.View())
        invariant |tries| == i && AllTaken(tries, w, v, at, relay.View(), drawn)
      {
        ghost var v1 := relay.View();
        var attempt;
        attempt, tries, place := TryAgain(players, expiresAt, deadline, storeReading, tries, v, at);
        KeepsTransitive(v, v1, relay.View());
        if attempt.Err? {
          return Err(attempt.error), tries, place;
        }
        if attempt.value.Some? {
          return Ok(attempt.value.value), tries, place;
        }
      }
      TriedInVain(tries, w, v, at, relay.View(), drawn);
      return Err(ErrFatalRandom), tries, drawn;
    }

    // -------------------------------------------------------------- expiry

    method EndMatchRoom(roomID: string, storeReading: ClockReading)
      requires RelayOK()
      modifies relay
      ensures RelayOK()
      ensures RoomsEnded(old(relay.View()), relay.View(), {roomID})
    {
      hide SM.Inv, SF.IDsDrawn, SF.NonRepeating, SR.EndRoom, RoomsEnded, SR.Resident;
      SF.EndIsSound(relay.View(), relay.limits, relay.random, roomID, storeReading);
      EndedOne(relay.View(), relay.limits, roomID, storeReading.mono);
      var _ := relay.EndRoom(roomID, storeReading.mono);
    }

    /** One expired lobby, its match and its members' places go. */
    method EndLobby(l: string, storeReading: ClockReading)
      requires RelayOK() && l in lobbies && LobbyOK(lobbies[l], nextSequence)
      modifies `lobbies, `lobbyByPlayer, `matchIDs, relay
      ensures View() == old(View()).(lobbies := old(lobbies) - {l},
        lobbyByPlayer := old(lobbyByPlayer) - old(lobbies[l]).members.Keys,
                                     matchIDs := old(matchIDs) - MatchesOf(old(lobbies[l])))
      ensures RelayOK() && RoomsEnded(old(relay.View()), relay.View(), RoomsOf(old(lobbies[l])))
    {
      hide RelayOK, RoomsEnded, LobbyOK, SO.Store.View;
      var lobby := lobbies[l];
      LobbyMatchMeans(lobby, nextSequence);
      NobodyEnded(View(), relay.View());
      if lobby.state.Matched? && lobby.assignments != map[] {
        var p :| p in lobby.assignments;
        EndMatchRoom(lobby.assignments[p].roomID, storeReading);
        matchIDs := matchIDs - {lobby.assignments[p].matchID};
        assert RoomsOf(lobby) == {lobby.assignments[p].roomID};
      } else {
        NoMatchNoRoom(lobby);
      }
      lobbyByPlayer := lobbyByPlayer - lobby.members.Keys;
      lobbies := lobbies - {l};
    }

    method ExpireLobbies(reading: ClockReading, storeReading: ClockReading)
      requires Valid()
      modifies `lobbies, `lobbyByPlayer, `matchIDs, relay
      ensures View() == AfterLobbies(old(View()), ExpiredLobbies(old(View()), reading.mono))
      ensures RelayOK() && RoomsEnded(old(relay.View()), relay.View(),
        LobbyRooms(old(View()), ExpiredLobbies(old(View()), reading.mono)))
    {
      hide Inv, RelayOK, RoomsEnded, AfterLobbies, ExpiredLobbies, LobbyOK, PlayersOK, LobbiesOK, MatchesOf, LobbyRooms,
           RoomsOf, SO.Store.View;
      ghost var s, r, due := View(), relay.View(), ExpiredLobbies(View(), reading.mono);
      DueAreLobbies(s, reading.mono);
      InvParts(s);
      NobodyEnded(s, r);
      var remaining := lobbies.Keys;
      NobodyDue(due, remaining);
      while remaining != {}
        invariant RelayOK() && remaining <= s.lobbies.Keys
        invariant View() == AfterLobbies(s, due - remaining)
          && RoomsEnded(r, relay.View(), LobbyRooms(s, due - remaining))
        decreases |remaining|
      {
        var l :| l in remaining;
        ghost var gone := due - remaining;
        OneMoreDue(due, remaining, l);
        remaining := remaining - {l};
        LobbyToVisit(s, gone, l, reading.mono);
        if reading.mono >= lobbies[l].monoDeadline {
          OneMoreLobby(s, gone, l);
          OneMoreRoom(s, gone, l);
          ghost var r1 := relay.View();
          EndLobby(l, storeReading);
          RoomsEndedTwice(r, r1, relay.View(), LobbyRooms(s, gone), RoomsOf(s.lobbies[l]));
        }
      }
      assert due - {} == due;
    }

    /** Take one player out of a queue. */
    method RemoveQueuedPlayer(key: QueueKey, playerID: string)
      modifies `queues
      ensures queues == if playerID in old(QueueAt(View(), key)) then
        WithQueue(old(queues), key, Without(old(QueueAt(View(), key)), playerID)) else old(queues)
    {
      if key !in queues {
        return;
      }
      var queued := queues[key];
      for i := 0 to |queued|
        invariant playerID !in queued[..i]
      {
        if queued[i] == playerID {
          WithoutSplits(queued, i, playerID);
          queues := queues[key := queued[..i] + queued[i + 1..]];
          if |queues[key]| == 0 {
            queues := queues - {key};
          }
          return;
        }
        assert queued[..i + 1] == queued[..i] + [queued[i]];
      }
      assert queued[..|queued|] == queued;
    }

    method EndTicket(playerID: string, storeReading: ClockReading)
      requires RelayOK() && playerID in tickets && TicketOK(playerID, tickets[playerID], nextSequence)
      requires tickets[playerID].state.TicketQueued? ==> playerID in QueueAt(View(), KeyOf(tickets[playerID]))
      modifies `tickets, `queues, `matchIDs, relay
      ensures View() == old(View()).(
        tickets := old(tickets) - {playerID},
        queues := var t := old(tickets[playerID]);
          if t.state.TicketQueued?
          then WithQueue(old(queues), KeyOf(t), Without(old(QueueAt(View(), KeyOf(tickets[playerID]))), playerID))
          else old(queues),
        matchIDs := old(matchIDs) - MatchOfTicket(old(tickets[playerID])))
      ensures RelayOK() && RoomsEnded(old(relay.View()), relay.View(), RoomOfTicket(old(tickets[playerID])))
    {
      hide RelayOK, RoomsEnded, WithQueue, Without, SO.Store.View;
      var ticket := tickets[playerID];
      NobodyEnded(View(), relay.View());
      if ticket.state.TicketQueued? {
        RemoveQueuedPlayer(KeyOf(ticket), playerID);
      }
      if ticket.state.TicketMatched? && ticket.assignment.Some? {
        EndMatchRoom(ticket.assignment.value.roomID, storeReading);
        matchIDs := matchIDs - {ticket.assignment.value.matchID};
      }
      tickets := tickets - {playerID};
    }

    method ExpireTickets(reading: ClockReading, storeReading: ClockReading)
      requires RelayOK() && TicketsOK(View()) && QueuesOK(View())
      modifies `tickets, `queues, `matchIDs, relay
      ensures View() == AfterTickets(old(View()), ExpiredTickets(old(View()), reading.mono))
      ensures RelayOK() && RoomsEnded(old(relay.View()), relay.View(),
        TicketRooms(old(View()), ExpiredTickets(old(View()), reading.mono)))
    {
      hide RelayOK, RoomsEnded, AfterTickets, TicketOK, TicketsOK, QueuesOK, TicketRooms, MatchOfTicket, RoomOfTicket,
           WithQueue, Without, QueueAt, SO.Store.View;
      ghost var s, r := View(), relay.View();
      NobodyEnded(s, r);
      NoTicketEnded(s);
      ghost var due := ExpiredTickets(s, reading.mono);
      var remaining := tickets.Keys;
      NobodyDue(due, remaining);
      while remaining != {}
        invariant RelayOK() && remaining <= s.tickets.Keys
        invariant View() == AfterTickets(s, due - remaining)
          && RoomsEnded(r, relay.View(), TicketRooms(s, due - remaining))
        decreases |remaining|
      {
        var playerID :| playerID in remaining;
        ghost var gone := due - remaining;
        OneMoreDue(due, remaining, playerID);
        remaining := remaining - {playerID};
        OneMoreTicket(s, gone, playerID);
        if reading.mono >= tickets[playerID].monoDeadline {
          ghost var r1 := relay.View();
          EndTicket(playerID, storeReading);
          RoomsEndedTwice(r, r1, relay.View(), TicketRooms(s, gone), RoomOfTicket(s.tickets[playerID]));
        }
      }
      assert due - {} == due;
    }

    /** What every operation does first: whole lobbies and whole groups go, whatever the order
        of the scan, and exactly the rooms of their matches are ended. */
    method ExpireLocked(reading: ClockReading, storeReading: ClockReading)
      requires Valid()
      modifies `lobbies, `lobbyByPlayer, `tickets, `queues, `matchIDs, relay
      ensures Valid() && View() == Expire(old(View()), reading.mono)
      ensures RoomsEnded(old(relay.View()), relay.View(), EndedRooms(old(View()), reading.mono))
    {
      hide Inv, RelayOK, RoomsEnded, AfterLobbies, AfterTickets, LobbyRooms, TicketRooms, Expire, TicketsOK, QueuesOK,
           SO.Store.View;
      ghost var s, r := View(), relay.View();
      InvParts(s);
      ExpireKeepsInv(s, reading.mono);
      ExpireInTwoSteps(s, reading.mono);
      AfterLobbiesFrame(s, ExpiredLobbies(s, reading.mono));
      ExpireLobbies(reading, storeReading);
      ghost var s1, r1 := View(), relay.View();
      TicketSideSame(s, s1);
      ExpireTickets(reading, storeReading);
      RoomsEndedTwice(r, r1, relay.View(), LobbyRooms(s, ExpiredLobbies(s, reading.mono)),
        TicketRooms(s1, ExpiredTickets(s1, reading.mono)));
      EndedInTwoSteps(s, s1, reading.mono);
    }

    // -------------------------------------------------------------- lobbies

    method FirstOf(members: map<string, Member>) returns (first: string)
      requires members != map[] && DistinctJoins(members)
      ensures first == FirstMember(members)
    {
      first :| first in members;
      var remaining := members.Keys - {first};
      while remaining != {}
        invariant remaining <= members.Keys && first in members
        invariant forall q | q in members && q !in remaining :: members[first].joinSequence <= members[q].joinSequence
        decreases |remaining|
      {
        var q :| q in remaining;
        remaining := remaining - {q};
        if members[q].joinSequence < members[first].joinSequence {
          first := q;
        }
      }
      FirstUnique(members, first, FirstMember(members));
    }

    method MembersInJoinOrder(members: map<string, Member>) returns (order: seq<string>)
      requires DistinctJoins(members)
      ensures order == JoinOrder(members)
    {
      hide JoinOrder, DistinctJoins, InJoinOrder;
      order := [];
      var rest := members;
      while rest != map[]
        invariant DistinctJoins(rest) && order + JoinOrder(rest) == JoinOrder(members)
        decreases |rest|
      {
        JoinOrderUnfolds(rest);
        var first := FirstOf(rest);
        order := order + [first];
        rest := rest - {first};
      }
      JoinOrderUnfolds(rest);
    }

    method Snapshot(lobbyID: string, l: Lobby, playerID: string) returns (snapshot: LobbySnapshot)
      requires DistinctJoins(l.members)
      ensures snapshot == SnapshotFor(lobbyID, l, playerID)
    {
      var order := MembersInJoinOrder(l.members);
      var members: seq<MemberSnapshot> := [];
      for i := 0 to |order|
        invariant |members| == i
        invariant forall k | 0 <= k < i ::
          order[k] in l.members && members[k] == MemberSnapshot(order[k], l.members[order[k]].ready)
      {
        assert order[i] in order;
        members := members + [MemberSnapshot(order[i], l.members[order[i]].ready)];
      }
      assert members == SnapshotFor(lobbyID, l, playerID).members;
      return LobbySnapshot(lobbyID, l.owner, l.queueKey, l.visibility, l.capacity, l.revision, l.state, members,
        l.expiresAt,
                           if playerID in l.assignments then Some(l.assignments[playerID]) else None);
    }

    method Create(playerID: string, request: CreateRequest, reading: ClockReading, storeReading: ClockReading)
      returns (result: Result<LobbySnapshot, Error>, ghost id: Option<string>)
      requires Valid()
      modifies this, relay
      ensures id.Some? ==> id.value !in Expire(old(View()), reading.mono).lobbies
      ensures View() == LobbyOps.Create(old(View()), playerID, request, reading, id).0
      ensures Shows(result, if id.Some? then id.value
        else "", playerID, LobbyOps.Create(old(View()), playerID, request, reading, id).1)
      ensures Valid()
    {
      hide Inv, RelayOK, RoomsEnded, EndedRooms, Expire, ValidID, SnapshotFor, UniqueName, DistinctJoins, DeadlineAfter,
           SO.Store.View;
      id := None;
      ghost var s0 := View();
      var validPlayer := CheckID(playerID);
      var validKey := CheckID(request.queueKey);
      if !validPlayer || !validKey || request.capacity < 2 || request.capacity > HARD_MAX_MEMBERS {
        return Err(ErrInvalid), None;
      }
      ExpireLocked(reading, storeReading);
      ghost var s := View();
      if playerID in lobbyByPlayer || playerID in tickets {
        return Err(ErrConflict), None;
      }
      if |lobbies| >= HARD_MAX_OPEN_LOBBIES || nextSequence == MAX_UINT64 {
        return Err(ErrCapacity), None;
      }
      var lobbyID := UniqueID("l-", lobbies.Keys);
      id := lobbyID;
      CreateKeepsInv(s0, playerID, request, reading, id);
      if lobbyID.None? {
        return Err(ErrFatalRandom), None;
      }
      var deadline := DeadlineAfter(reading.mono, DEFAULT_LOBBY_TTL);
      if deadline.None? {
        return Err(ErrInvalid), id;
      }
      var sequence := nextSequence;
      nextSequence := nextSequence + 1;
      var lobby := Lobby(playerID, request.queueKey, request.visibility, request.capacity, Open, 1, sequence,
                         reading.wall + DEFAULT_LOBBY_TTL, deadline.value, map[playerID := Member(false, sequence)],
                           map[]);
      lobbies := lobbies[lobbyID.value := lobby];
      lobbyByPlayer := lobbyByPlayer[playerID := lobbyID.value];
      AloneIsDistinct(playerID, sequence);
      var snapshot := Snapshot(lobbyID.value, lobby, playerID);
      return Ok(snapshot), id;
    }

    /** The checks that open every call on a lobby. */
    method OpenLobby(playerID: string, lobbyID: string, revision: nat, reading: ClockReading,
        storeReading: ClockReading) returns (refused: Option<Error>)
      requires Valid()
      modifies `lobbies, `lobbyByPlayer, `tickets, `queues, `matchIDs, relay
      ensures Valid()
      ensures !ValidCall(playerID, lobbyID, revision) ==> View() == old(View()) && refused == Some(ErrInvalid)
      ensures ValidCall(playerID, lobbyID, revision) ==>
        View() == Expire(old(View()), reading.mono) && refused == Refused(View(), lobbyID, revision)
    {
      hide Inv, RelayOK, RoomsEnded, Expire, ValidID, SO.Store.View;
      var validPlayer := CheckID(playerID);
      var validLobby := CheckID(lobbyID);
      if !validPlayer || !validLobby || revision == 0 {
        return Some(ErrInvalid);
      }
      ExpireLocked(reading, storeReading);
      if lobbyID !in lobbies {
        return Some(ErrNotFound);
      }
      if !lobbies[lobbyID].state.Open? || lobbies[lobbyID].revision != revision {
        return Some(ErrConflict);
      }
      return None;
    }

    method Join(playerID: string, lobbyID: string, revision: nat, reading: ClockReading, storeReading: ClockReading)
      returns (result: Result<LobbySnapshot, Error>)
      requires Valid()
      modifies this, relay
      ensures View() == LobbyOps.Join(old(View()), playerID, lobbyID, revision, reading.mono).0
      ensures Shows(result, lobbyID, playerID, LobbyOps.Join(old(View()), playerID, lobbyID, revision, reading.mono).1)
      ensures Valid()
    {
      hide Inv, RelayOK, Expire, ValidID, SO.Store.View;
      JoinKeepsInv(View(), playerID, lobbyID, revision, reading.mono);
      var refused := OpenLobby(playerID, lobbyID, revision, reading, storeReading);
      if refused.Some? {
        return Err(refused.value);
      }
      var lobby := lobbies[lobbyID];
      if playerID in lobbyByPlayer || playerID in tickets {
        return Err(ErrConflict);
      }
      if |lobby.members| >= lobby.capacity {
        return Err(ErrCapacity);
      }
      if nextSequence == MAX_UINT64 || lobby.revision == MAX_UINT64 {
        return Err(ErrCapacity);
      }
      var joinSequence := nextSequence;
      nextSequence := nextSequence + 1;
      lobby := lobby.(members := lobby.members[playerID := Member(false, joinSequence)]);
      lobbyByPlayer := lobbyByPlayer[playerID := lobbyID];
      lobby := lobby.(members := ResetReady(lobby.members), revision := lobby.revision + 1);
      lobbies := lobbies[lobbyID := lobby];
      MembersDistinct(View(), lobbyID);
      var snapshot := Snapshot(lobbyID, lobby, playerID);
      return Ok(snapshot);
    }

    method Leave(playerID: string, lobbyID: string, revision: nat, reading: ClockReading, storeReading: ClockReading)
      returns (result: Result<LobbySnapshot, Error>)
      requires Valid()
      modifies this, relay
      ensures View() == LobbyOps.Leave(old(View()), playerID, lobbyID, revision, reading.mono).0
      ensures Shows(result, lobbyID, playerID, LobbyOps.Leave(old(View()), playerID, lobbyID, revision, reading.mono).1)
      ensures Valid()
    {
      hide Inv, RelayOK, Expire, ValidID, SO.Store.View;
      LeaveKeepsInv(View(), playerID, lobbyID, revision, reading.mono);
      var refused := OpenLobby(playerID, lobbyID, revision, reading, storeReading);
      if refused.Some? {
        return Err(refused.value);
      }
      var lobby := lobbies[lobbyID];
      MembersDistinct(View(), lobbyID);
      if playerID !in lobby.members {
        return Err(ErrNotFound);
      }
      if lobby.revision == MAX_UINT64 {
        return Err(ErrCapacity);
      }
      lobby := lobby.(members := lobby.members - {playerID});
      lobbyByPlayer := lobbyByPlayer - {playerID};
      lobby := lobby.(revision := lobby.revision + 1);
      if lobby.members == map[] {
        lobby := lobby.(state := Closed, owner := "");
        var closed := Snapshot(lobbyID, lobby, playerID);
        lobbies := lobbies - {lobbyID};
        return Ok(closed);
      }
      if lobby.owner == playerID {
        var first := FirstOf(lobby.members);
        lobby := lobby.(owner := first);
      }
      lobby := lobby.(members := ResetReady(lobby.members));
      lobbies := lobbies[lobbyID := lobby];
      ResetMembers(lobby.members);
      var snapshot := Snapshot(lobbyID, lobby, playerID);
      return Ok(snapshot);
    }

    method SetReady(playerID: string, lobbyID: string, revision: nat, ready: bool, reading: ClockReading,
        storeReading: ClockReading)
      returns (result: Result<LobbySnapshot, Error>)
      requires Valid()
      modifies this, relay
      ensures View() == LobbyOps.SetReady(old(View()), playerID, lobbyID, revision, ready, reading.mono).0
      ensures Shows(result, lobbyID, playerID,
        LobbyOps.SetReady(old(View()), playerID, lobbyID, revision, ready, reading.mono).1)
      ensures Valid()
    {
      hide Inv, RelayOK, Expire, ValidID, SO.Store.View;
      SetReadyKeepsInv(View(), playerID, lobbyID, revision, ready, reading.mono);
      var refused := OpenLobby(playerID, lobbyID, revision, reading, storeReading);
      if refused.Some? {
        return Err(refused.value);
      }
      var lobby := lobbies[lobbyID];
      MembersDistinct(View(), lobbyID);
      if playerID !in lobby.members {
        return Err(ErrNotFound);
      }
      if lobby.members[playerID].ready == ready {
        var same := Snapshot(lobbyID, lobby, playerID);
        return Ok(same);
      }
      if lobby.revision == MAX_UINT64 {
        return Err(ErrCapacity);
      }
      lobby := lobby.(members := lobby.members[playerID := lobby.members[playerID].(ready := ready)],
        revision := lobby.revision + 1);
      lobbies := lobbies[lobbyID := lobby];
      MembersDistinct(View(), lobbyID);
      var snapshot := Snapshot(lobbyID, lobby, playerID);
      return Ok(snapshot);
    }

    /** Start a full lobby. The match commits only after the store has allocated it. */
    method Start(playerID: string, lobbyID: string, revision: nat, reading: ClockReading, storeReading: ClockReading)
      returns (result: Result<Assignment, Error>, ghost outcome: Result<Match, Error>)
      requires Valid()
      modifies this, relay
      ensures StartAnswered(Expire(old(View()), reading.mono), playerID, lobbyID, revision, outcome)
      ensures Starts(Expire(old(View()), reading.mono), playerID, lobbyID, revision) && outcome.Ok? ==>
        playerID in outcome.value.assignments
      ensures (View(), result) == LobbyOps.Start(old(View()), playerID, lobbyID, revision, reading.mono, outcome)
      ensures Valid()
      ensures result.Ok? ==>
        && outcome.Ok? && lobbyID in lobbies && lobbies[lobbyID].assignments == outcome.value.assignments
        && Granted(relay.View(), outcome.value, |lobbies[lobbyID].members|)
    {
      hide Inv, RelayOK, Expire, ValidID, InJoinOrder, JoinOrder, StartAnswered, DistinctJoins, SO.Store.View, Granted,
           KeepsGrants, Unused, Tried, WantedBy;
      outcome := Err(ErrUnavailable);
      ghost var s0 := View();
      NotAnswered(Expire(s0, reading.mono), playerID, lobbyID, revision, ErrUnavailable);
      var refused := OpenLobby(playerID, lobbyID, revision, reading, storeReading);
      if refused.Some? {
        return Err(refused.value), outcome;
      }
      var lobby := lobbies[lobbyID];
      if lobby.owner != playerID {
        return Err(ErrForbidden), outcome;
      }
      if |lobby.members| != lobby.capacity || !AllReady(lobby.members) || lobby.revision == MAX_UINT64 {
        return Err(ErrConflict), outcome;
      }
      MembersDistinct(View(), lobbyID);
      var players := MembersInJoinOrder(lobby.members);
      OrderSize(lobby.members, players);
      var answer;
      ghost var tries, place;
      answer, tries, place := AllocateMatch(players, reading, storeReading);
      outcome := answer;
      StartIsAnswered(View(), playerID, lobbyID, revision, players, outcome);
      StartKeepsInv(s0, playerID, lobbyID, revision, reading.mono, outcome);
      if answer.Err? {
        return Err(answer.error), outcome;
      }
      var m := answer.value;
      lobby := lobby.(state := Matched, revision := lobby.revision + 1, expiresAt := m.expiresAt,
        monoDeadline := m.deadline, assignments := m.assignments);
      lobbies := lobbies[lobbyID := lobby];
      matchIDs := matchIDs + {m.matchID};
      return Ok(m.assignments[playerID]), outcome;
    }

    // -------------------------------------------------------------- Quick Match

    method CompactQueue(key: QueueKey)
      modifies `queues
      ensures View() == Compacted(old(View()), key)
    {
      var queued := if key in queues then queues[key] else [];
      var kept: seq<string> := [];
      for i := 0 to |queued|
        invariant kept == Filter(queued[..i], QueuedFor(tickets, key)) && queues == old(queues)
      {
        assert queued[..i + 1] == queued[..i] + [queued[i]];
        FilterSnoc(queued[..i], queued[i], QueuedFor(tickets, key));
        var playerID := queued[i];
        if playerID in tickets && tickets[playerID].state.TicketQueued? && tickets[playerID].queueKey == key.queueKey
          && tickets[playerID].capacity == key.capacity {
          kept := kept + [playerID];
        }
      }
      assert queued[..|queued|] == queued;
      assert kept == Filter(QueueAt(old(View()), key), QueuedFor(tickets, key));
      if |kept| == 0 {
        assert kept == [];
        queues := queues - {key};
        return;
      }
      queues := queues[key := kept];
    }

    /** The players at the front of a queue receive their match. */
    method CommitMatch(key: QueueKey, players: seq<string>, m: Match)
      requires key in queues && |queues[key]| >= key.capacity && players == queues[key][..key.capacity]
      requires forall p | p in players :: p in tickets && p in m.assignments
      requires forall i, j | 0 <= i < j < |players| :: players[i] != players[j]
      modifies `tickets, `matchIDs, `queues
      ensures View() == FormMatch(old(View()), key, m)
    {
      ghost var before := tickets;
      for i := 0 to |players|
        invariant tickets == Formed(before, players[..i], m) && queues == old(queues) && matchIDs == old(matchIDs)
      {
        var playerID := players[i];
        assert playerID in players && players[..i + 1] == players[..i] + [playerID];
        assert playerID !in players[..i];
        tickets := tickets[playerID := tickets[playerID].(
          state := TicketMatched, revision := tickets[playerID].revision + 1, expiresAt := m.expiresAt,
            monoDeadline := m.deadline,
          assignment := Some(m.assignments[playerID]))];
      }
      assert players[..|players|] == players;
      matchIDs := matchIDs + {m.matchID};
      var remaining := queues[key][key.capacity..];
      if |remaining| == 0 {
        queues := queues - {key};
      } else {
        queues := queues[key := remaining];
      }
    }

    /** Match from the front of the queue until it is short or an allocation fails. */
    method MatchQueueLocked(key: QueueKey, reading: ClockReading, storeReading: ClockReading)
      returns (error: Option<Error>, ghost outcomes: seq<Result<Match, Error>>)
      requires Valid() && key.capacity >= 2
      modifies this, relay
      ensures Answered(old(View()), key, outcomes)
      ensures (View(), error) == MatchQueue(old(View()), key, outcomes)
      ensures RelayOK() && AllGranted(relay.View(), outcomes, key.capacity)
    {
      hide Inv, RelayOK, Answered, MatchQueue, FormMatch, Leads, Allocated, SO.Store.View, AllGranted, Granted,
           KeepsGrants, Unused, Tried, WantedBy;
      NothingIsGranted(key.capacity);
      ghost var s := View();
      QueuesHold(s);
      CompactionIsIdle(s, key);
      CompactQueue(key);
      outcomes := [];
      LeadsNowhere(s, key);
      while key in queues && |queues[key]| >= key.capacity
        invariant Valid() && Leads(s, View(), key, outcomes) && AllGranted(relay.View(), outcomes, key.capacity)
        decreases |QueueAt(View(), key)|
      {
        var players := queues[key][..key.capacity];
        QueueIsDistinct(View(), key);
        ghost var v := relay.View();
        var answer;
        ghost var tries, place;
        answer, tries, place := AllocateMatch(players, reading, storeReading);
        OneMoreGranted(v, relay.View(), outcomes, answer, key.capacity);
        if answer.Err? {
          LeadsToEnd(s, View(), key, outcomes, [answer]);
          return Some(answer.error), outcomes + [answer];
        }
        ghost var s1 := View();
        FormMatchKeepsInv(s1, key, answer.value);
        LeadsOn(s, s1, key, outcomes, answer.value);
        FormMatchShortens(s1, key, answer.value);
        AllocatedCovers(s1, players, answer.value);
        CommitMatch(key, players, answer.value);
        outcomes := outcomes + [answer];
      }
      LeadsToEnd(s, View(), key, outcomes, []);
      assert outcomes + [] == outcomes;
      return None, outcomes;
    }

    method Enqueue(playerID: string, request: EnqueueRequest, reading: ClockReading, storeReading: ClockReading)
      returns (result: Result<Ticket, Error>, ghost id: Option<string>, ghost outcomes: seq<Result<Match, Error>>)
      requires Valid()
      modifies this, relay
      ensures ValidID(playerID) && ValidEnqueueRequest(request) ==>
        EnqueueAnswered(Expire(old(View()), reading.mono), playerID, request, reading, id, outcomes)
      ensures (View(), result) == QuickMatch.Enqueue(old(View()), playerID, request, reading, id, outcomes)
      ensures Valid() && AllGranted(relay.View(), outcomes, request.capacity)
    {
      hide Inv, RelayOK, Expire, ValidID, RoomsEnded, Answered, MatchQueue, Compacted, WithTicket, UniqueName,
           SO.Store.View, AllGranted, Granted, KeepsGrants, Unused;
      id, outcomes := None, [];
      NothingIsGranted(request.capacity);
      ghost var s0 := View();
      var validPlayer := CheckID(playerID);
      var validKey := CheckID(request.queueKey);
      if !validPlayer || !validKey || request.capacity < 2 || request.capacity > HARD_MAX_MEMBERS {
        return Err(ErrInvalid), None, [];
      }
      ExpireLocked(reading, storeReading);
      ghost var s := View();
      if playerID in lobbyByPlayer || playerID in tickets {
        return Err(ErrConflict), None, [];
      }
      if |tickets| >= HARD_MAX_TICKETS || nextSequence == MAX_UINT64 {
        return Err(ErrCapacity), None, [];
      }
      var ticketID := UniqueID("t-", set p | p in tickets :: tickets[p].id);
      if ticketID.None? {
        return Err(ErrFatalRandom), None, [];
      }
      var deadline := DeadlineAfter(reading.mono, TICKET_TTL);
      if deadline.None? {
        return Err(ErrInvalid), ticketID, [];
      }
      id := ticketID;
      var key := QueueKey(request.queueKey, request.capacity);
      TakeTicket(playerID, request, ticketID.value, reading.wall, deadline.value);
      SequenceBelow(s);
      WithTicketKeepsInv(s, playerID, request, ticketID.value, reading.wall, deadline.value);
      QueuesHold(View());
      CompactionIsIdle(View(), key);
      ghost var s1 := View();
      var error;
      error, outcomes := MatchQueueLocked(key, reading, storeReading);
      MatchQueueKeepsInv(s1, key, outcomes);
      TicketTaken(s, playerID, request, ticketID.value, reading.wall, deadline.value);
      assert Ticketed(s, playerID, request, reading, id) == s1;
      if error.Some? {
        return Err(error.value), id, outcomes;
      }
      return Ok(tickets[playerID]), id, outcomes;
    }

    method TakeTicket(playerID: string, request: EnqueueRequest, id: string, wall: int, deadline: int)
      modifies `tickets, `queues, `nextSequence
      ensures View() == WithTicket(old(View()), playerID, request, id, wall, deadline)
    {
      var sequence := nextSequence;
      nextSequence := nextSequence + 1;
      tickets := tickets[playerID := Ticket(id, request.queueKey, request.capacity, TicketQueued, 1, sequence,
        wall + TICKET_TTL, deadline, None)];
      var key := QueueKey(request.queueKey, request.capacity);
      queues := queues[key := (if key in queues then queues[key] else []) + [playerID]];
    }

    method CancelTicket(playerID: string, revision: nat, reading: ClockReading,
        storeReading: ClockReading) returns (result: Result<Ticket, Error>)
      requires Valid()
      modifies this, relay
      ensures (View(), result) == Cancel(old(View()), playerID, revision, reading.mono)
      ensures Valid()
    {
      hide Inv, RelayOK, Expire, ValidID, RoomsEnded, Without, WithQueue, SO.Store.View;
      CancelKeepsInv(View(), playerID, revision, reading.mono);
      var valid := CheckID(playerID);
      if !valid || revision == 0 {
        return Err(ErrInvalid);
      }
      ExpireLocked(reading, storeReading);
      if playerID !in tickets {
        return Err(ErrNotFound);
      }
      var ticket := tickets[playerID];
      if !ticket.state.TicketQueued? || ticket.revision != revision || ticket.revision == MAX_UINT64 {
        return Err(ErrConflict);
      }
      QueuesHold(View());
      InOwnQueue(View(), playerID);
      ticket := ticket.(state := TicketCancelled, revision := ticket.revision + 1);
      tickets := tickets - {playerID};
      RemoveQueuedPlayer(KeyOf(ticket), playerID);
      return Ok(ticket);
    }

    method GetTicket(playerID: string, reading: ClockReading,
        storeReading: ClockReading) returns (result: Result<Ticket, Error>)
      requires Valid()
      modifies this, relay
      ensures Valid()
      ensures View() == if ValidID(playerID) then Expire(old(View()), reading.mono) else old(View())
      ensures ValidID(playerID) ==> result == if playerID in tickets then Ok(tickets[playerID]) else Err(ErrNotFound)
      ensures !ValidID(playerID) ==> result == Err(ErrInvalid)
    {
      hide Inv, RelayOK, Expire, RoomsEnded, SO.Store.View;
      var valid := CheckID(playerID);
      if !valid {
        return Err(ErrInvalid);
      }
      ExpireLocked(reading, storeReading);
      if playerID !in tickets {
        return Err(ErrNotFound);
      }
      return Ok(tickets[playerID]);
    }

    /** A private or matched lobby is visible to its members only. */
    method Get(playerID: string, lobbyID: string, reading: ClockReading,
        storeReading: ClockReading) returns (result: Result<LobbySnapshot, Error>)
      requires Valid()
      modifies this, relay
      ensures Valid()
      ensures View() == if ValidID(playerID) && ValidID(lobbyID) then Expire(old(View()), reading.mono) else old(View())
      ensures result.Ok? <==>
        && ValidID(playerID) && ValidID(lobbyID) && lobbyID in lobbies
        && (playerID in lobbies[lobbyID].members
           || (lobbies[lobbyID].visibility.Public? && !lobbies[lobbyID].state.Matched?))
      ensures result.Ok? ==> Shows(result, lobbyID, playerID, Ok(lobbies[lobbyID]))
      ensures result.Err? ==> result.error == if ValidID(playerID) && ValidID(lobbyID) then ErrNotFound else ErrInvalid
    {
      hide Inv, RelayOK, Expire, RoomsEnded, ValidID, SO.Store.View;
      var validPlayer := CheckID(playerID);
      var validLobby := CheckID(lobbyID);
      if !validPlayer || !validLobby {
        return Err(ErrInvalid);
      }
      ExpireLocked(reading, storeReading);
      if lobbyID !in lobbies {
        return Err(ErrNotFound);
      }
      var lobby := lobbies[lobbyID];
      if (lobby.visibility.Private? || lobby.state.Matched?) && playerID !in lobby.members {
        return Err(ErrNotFound);
      }
      MembersDistinct(View(), lobbyID);
      var snapshot := Snapshot(lobbyID, lobby, playerID);
      return Ok(snapshot);
    }

    method List(queueKey: string, cursor: string, limit: int, reading: ClockReading,
        storeReading: ClockReading) returns (result: Result<Page, Error>)
      requires Valid()
      modifies this, relay
      ensures LobbiesOK(Expire(old(View()), reading.mono))
      ensures (View(), result) == Pagination.List(old(View()), queueKey, cursor, limit, reading.mono)
      ensures Valid()
    {
      hide Inv, RelayOK, Expire, RoomsEnded, ValidID, LobbiesOK, ParseCursor, PageAfter, SO.Store.View;
      ExpireKeepsInv(View(), reading.mono);
      InvParts(Expire(View(), reading.mono));
      var valid := CheckID(queueKey);
      if !valid || limit <= 0 || limit > HARD_MAX_LIST_PAGE {
        return Err(ErrInvalid);
      }
      var after := ParseCursor(cursor);
      if after.None? {
        return Err(ErrInvalid);
      }
      ExpireLocked(reading, storeReading);
      var page := ShowPage(queueKey, after.value, limit);
      return Ok(page);
    }

    method ShowPage(queueKey: string, after: nat, limit: nat) returns (page: Page)
      requires LobbiesOK(View()) && limit > 0
      ensures page == PageAfter(View(), queueKey, after, limit)
    {
      hide LobbiesOK, JoinOrder, Places, Format;
      PlacesDistinct(View(), queueKey, after);
      ListingResident(View(), queueKey, after);
      var records := MembersInJoinOrder(Places(View(), queueKey, after));
      assert records == Listing(View(), queueKey, after);
      hide Listing;
      var hasMore := |records| > limit;
      var shown := if hasMore then records[..limit] else records;
      var summaries: seq<Summary> := [];
      for i := 0 to |shown|
        invariant |summaries| == i && forall k | 0 <= k < i :: summaries[k] == SummaryFor(shown[k], lobbies[shown[k]])
      {
        summaries := summaries + [SummaryFor(shown[i], lobbies[shown[i]])];
      }
      assert summaries == Summaries(View(), shown);
      return Page(summaries, if hasMore then Format(lobbies[shown[|shown| - 1]].sequence) else "");
    }
  }

  lemma JoinOrderUnfolds(members: map<string, Member>)
    requires DistinctJoins(members)
    ensures members == map[] ==> JoinOrder(members) == []
    ensures members != map[] ==>
      var rest := members - {FirstMember(members)};
      DistinctJoins(rest) && |rest| < |members| && JoinOrder(members) == [FirstMember(members)] + JoinOrder(rest)
  {
    if members != map[] {
      var rest := members - {FirstMember(members)};
      assert rest.Keys == members.Keys - {FirstMember(members)};
      assert |rest| == |rest.Keys| < |members.Keys| == |members|;
    }
  }

  lemma AloneIsDistinct(playerID: string, sequence: nat)
    ensures DistinctJoins(map[playerID := Member(false, sequence)])
  {
  }

  /** The caller is shown what the operation on values answers. */
  ghost predicate Shows(result: Result<LobbySnapshot, Error>, lobbyID: string, playerID: string, answer: Result<Lobby,
      Error>) {
    match answer
    case Err(error) => result == Err(error)
    case Ok(l) => DistinctJoins(l.members) && result == Ok(SnapshotFor(lobbyID, l, playerID))
  }

  lemma MembersDistinct(s: State, lobbyID: string)
    requires Inv(s) && lobbyID in s.lobbies
    ensures DistinctJoins(s.lobbies[lobbyID].members)
  {
    assert LobbyOK(s.lobbies[lobbyID], s.nextSequence);
  }

  predicate IsFor(grant: SR.GrantAllocation, a: Assignment) {
    && a.playerID == grant.participantID && a.sessionID == grant.sessionID && a.grantID == grant.grantID
    && grant.grantSecret == Some(a.grantSecret) && a.grantExpiresAt == grant.grantExpiresAt
  }
}

