/** The public lobby list, page by page: following the cursors shows every open public lobby
    of a queue exactly once, oldest first. */
module Pagination {
  import opened Prelude
  import opened Identifier
  import opened Lobbies
  import opened LobbyOps

  const HARD_MAX_LIST_PAGE := 50

  // ---------------------------------------------------------------- cursors

  function Format(n: nat): string {
    (if n < 10 then "" else Format(n / 10)) + [DigitChar(n % 10)]
  }

  function DigitChar(d: nat): char
    requires d < 10
  {
    (d + '0' as int) as char
  }

  /** Decimal digits and nothing else. */
  function ParseDigits(text: string): Option<nat> {
    if text == [] then Some(0)
    else
      var last := text[|text| - 1];
      match ParseDigits(text[..|text| - 1])
      case None => None
      case Some(front) => if '0' <= last <= '9' then Some(front * 10 + (last as int - '0' as int)) else None
  }

  /** `strconv.ParseUint(text, 10, 64)`. */
  function ParseUint(text: string): Option<nat> {
    if text == [] then None
    else match ParseDigits(text)
      case None => None
      case Some(n) => if n <= MAX_UINT64 then Some(n) else None
  }

  function ParseCursor(cursor: string): Option<nat> {
    if cursor == [] then Some(0)
    else match ParseUint(cursor)
      case None => None
      case Some(n) => if n == 0 || Format(n) != cursor then None else Some(n)
  }

  lemma {:induction false} ParseFormat(n: nat)
    ensures Format(n) != [] && ParseDigits(Format(n)) == Some(n)
  {
    var text := Format(n);
    if n >= 10 {
      ParseFormat(n / 10);
      assert text[..|text| - 1] == Format(n / 10);
    } else {
      assert text == [DigitChar(n)] && text[..0] == [];
    }
  }

  /** Cursors and positions correspond: the empty cursor is the start, and a position has one
      cursor, its decimal form. */
  lemma CursorExactly(cursor: string, n: nat)
    ensures ParseCursor(cursor) == Some(n) <==> (cursor == [] && n == 0) || (0 < n <= MAX_UINT64 && cursor == Format(n))
  {
    ParseFormat(n);
  }

  // ---------------------------------------------------------------- pages

  datatype Summary = Summary(
    lobbyID: string, owner: string, queueKey: string, visibility: Visibility, capacity: nat, memberCount: nat,
      revision: nat, expiresAt: int)

  datatype Page = Page(lobbies: seq<Summary>, nextCursor: string)

  predicate Listed(l: Lobby, queueKey: string) { l.state.Open? && l.visibility.Public? && l.queueKey == queueKey }

  /** The lobbies of a list after a position, each with its sequence as the place in it. */
  function Places(s: State, queueKey: string, after: nat): map<string, Member> {
    map l | l in s.lobbies && Listed(s.lobbies[l], queueKey) && s.lobbies[l].sequence > after ::
      Member(false, s.lobbies[l].sequence)
  }

  lemma PlacesDistinct(s: State, queueKey: string, after: nat)
    requires LobbiesOK(s)
    ensures DistinctJoins(Places(s, queueKey, after))
  {
  }

  /** The list after a position, oldest first. */
  ghost function Listing(s: State, queueKey: string, after: nat): seq<string>
    requires LobbiesOK(s)
  {
    PlacesDistinct(s, queueKey, after);
    JoinOrder(Places(s, queueKey, after))
  }

  function SummaryFor(lobbyID: string, l: Lobby): Summary {
    Summary(lobbyID, l.owner, l.queueKey, l.visibility, l.capacity, |l.members|, l.revision, l.expiresAt)
  }

  function Summaries(s: State, ids: seq<string>): seq<Summary>
    requires forall i | 0 <= i < |ids| :: ids[i] in s.lobbies
  {
    seq(|ids|, i requires 0 <= i < |ids| => SummaryFor(ids[i], s.lobbies[ids[i]]))
  }

  lemma ListingResident(s: State, queueKey: string, after: nat)
    requires LobbiesOK(s)
    ensures forall i | 0 <= i < |Listing(s, queueKey, after)| :: Listing(s, queueKey, after)[i] in s.lobbies
    ensures forall p :: p in Listing(s, queueKey, after) <==>
      p in s.lobbies && Listed(s.lobbies[p], queueKey) && s.lobbies[p].sequence > after
    ensures forall i, j | 0 <= i < j < |Listing(s, queueKey, after)| ::
      s.lobbies[Listing(s, queueKey, after)[i]].sequence < s.lobbies[Listing(s, queueKey, after)[j]].sequence
  {
    hide LobbiesOK;
    var places, ids := Places(s, queueKey, after), Listing(s, queueKey, after);
    PlacesDistinct(s, queueKey, after);
    assert InJoinOrder(places, ids);
    forall i | 0 <= i < |ids| ensures ids[i] in places { assert ids[i] in ids; }
  }

  /** One page of the list. */
  ghost function PageAfter(s: State, queueKey: string, after: nat, limit: nat): Page
    requires LobbiesOK(s) && limit > 0
  {
    var ids := Listing(s, queueKey, after);
    ListingResident(s, queueKey, after);
    if |ids| > limit then Page(Summaries(s, ids[..limit]), Format(s.lobbies[ids[limit - 1]].sequence))
      else Page(Summaries(s, ids), "")
  }

  ghost function List(s: State, queueKey: string, cursor: string, limit: int, now: int): (State, Result<Page, Error>)
    requires LobbiesOK(Expire(s, now))
  {
    if !ValidID(queueKey) || limit <= 0 || limit > HARD_MAX_LIST_PAGE
      || ParseCursor(cursor).None? then (s, Err(ErrInvalid))
    else (Expire(s, now), Ok(PageAfter(Expire(s, now), queueKey, ParseCursor(cursor).value, limit)))
  }

  // ---------------------------------------------------------------- completeness

  /** After the last lobby of a page, the list goes on where the page stopped. */
  lemma ListingGoesOn(s: State, queueKey: string, after: nat, limit: nat)
    requires LobbiesOK(s) && 0 < limit <= |Listing(s, queueKey, after)|
    ensures Listing(s, queueKey, after)[limit - 1] in s.lobbies
    ensures Listing(s, queueKey, s.lobbies[Listing(s, queueKey, after)[limit - 1]].sequence) ==
      Listing(s, queueKey, after)[limit..]
  {
    ListingResident(s, queueKey, after);
    var ids := Listing(s, queueKey, after);
    var last := s.lobbies[ids[limit - 1]].sequence;
    hide LobbiesOK, Listing;
    var rest := ids[limit..];
    var places := Places(s, queueKey, last);
    RestIsListed(s, queueKey, after, ids, limit);
    PlacesDistinct(s, queueKey, last);
    ListingIsOrder(s, queueKey, last);
    JoinOrderUnique(places, Listing(s, queueKey, last), rest);
  }

  lemma ListingIsOrder(s: State, queueKey: string, after: nat)
    requires LobbiesOK(s)
    ensures InJoinOrder(Places(s, queueKey, after), Listing(s, queueKey, after))
  {
    PlacesDistinct(s, queueKey, after);
  }

  lemma RestIsListed(s: State, queueKey: string, after: nat, ids: seq<string>, limit: nat)
    requires 0 < limit <= |ids|
    requires forall i | 0 <= i < |ids| :: ids[i] in s.lobbies
    requires forall p :: p in ids <==> p in s.lobbies && Listed(s.lobbies[p], queueKey) && s.lobbies[p].sequence > after
    requires forall i, j | 0 <= i < j < |ids| :: s.lobbies[ids[i]].sequence < s.lobbies[ids[j]].sequence
    ensures InJoinOrder(Places(s, queueKey, s.lobbies[ids[limit - 1]].sequence), ids[limit..])
  {
    hide Listed;
    var rest, last := ids[limit..], s.lobbies[ids[limit - 1]].sequence;
    var places := Places(s, queueKey, last);
    forall p ensures p in rest <==> p in places {
      if p in rest {
        var i :| 0 <= i < |rest| && rest[i] == p;
        assert ids[limit + i] == p && p in ids;
      }
      if p in places {
        assert ids[limit - 1] in ids;
        assert p in ids;
        var i :| 0 <= i < |ids| && ids[i] == p;
        assert i >= limit;
        assert rest[i - limit] == p;
      }
    }
    assert forall i | 0 <= i < |rest| :: rest[i] == ids[limit + i] && rest[i] in rest;
  }

  /** Follow the cursors from one position to the end. */
  ghost function Walk(s: State, queueKey: string, cursor: string, limit: nat): seq<Summary>
    requires Inv(s) && 0 < limit && ParseCursor(cursor).Some?
    decreases |Listing(s, queueKey, ParseCursor(cursor).value)|
  {
    var after := ParseCursor(cursor).value;
    var page := PageAfter(s, queueKey, after, limit);
    if page.nextCursor == "" then page.lobbies
    else
      NextCursorIsNext(s, queueKey, after, limit);
      page.lobbies + Walk(s, queueKey, page.nextCursor, limit)
  }

  lemma NextCursorIsNext(s: State, queueKey: string, after: nat, limit: nat)
    requires Inv(s) && 0 < limit && PageAfter(s, queueKey, after, limit).nextCursor != ""
    ensures |Listing(s, queueKey, after)| > limit && Listing(s, queueKey, after)[limit - 1] in s.lobbies
    ensures ParseCursor(PageAfter(s, queueKey, after, limit).nextCursor) ==
      Some(s.lobbies[Listing(s, queueKey, after)[limit - 1]].sequence)
    ensures Listing(s, queueKey, s.lobbies[Listing(s, queueKey, after)[limit - 1]].sequence) ==
      Listing(s, queueKey, after)[limit..]
  {
    LobbiesHold(s);
    ListingResident(s, queueKey, after);
    ListingGoesOn(s, queueKey, after, limit);
    var ids := Listing(s, queueKey, after);
    assert ids[limit - 1] in ids;
    hide Inv, Listing;
    CursorExactly(PageAfter(s, queueKey, after, limit).nextCursor, s.lobbies[ids[limit - 1]].sequence);
  }

  lemma LobbiesHold(s: State)
    requires Inv(s)
    ensures LobbiesOK(s) && forall l | l in s.lobbies :: 0 < s.lobbies[l].sequence <= MAX_UINT64
  {
    forall l | l in s.lobbies
      ensures 0 < s.lobbies[l].sequence <= MAX_UINT64
    {
      assert LobbyOK(s.lobbies[l], s.nextSequence);
    }
  }

  /** While nothing changes, the concatenated pages are the whole list after the position. */
  lemma {:induction false} WalkShowsAll(s: State, queueKey: string, cursor: string, limit: nat)
    requires Inv(s) && 0 < limit && ParseCursor(cursor).Some?
    ensures var ids := Listing(s, queueKey, ParseCursor(cursor).value);
      && (forall i | 0 <= i < |ids| :: ids[i] in s.lobbies)
      && Walk(s, queueKey, cursor, limit) == Summaries(s, ids)
    decreases |Listing(s, queueKey, ParseCursor(cursor).value)|
  {
    LobbiesHold(s);
    hide Inv, LobbiesOK, Listing, Summaries, PageAfter, ParseCursor;
    var after := ParseCursor(cursor).value;
    var ids := Listing(s, queueKey, after);
    var page := PageAfter(s, queueKey, after, limit);
    PageShows(s, queueKey, after, limit);
    if page.nextCursor != "" {
      NextCursorIsNext(s, queueKey, after, limit);
      WalkShowsAll(s, queueKey, page.nextCursor, limit);
      SummariesSplit(s, ids, limit);
    }
  }

  /** The page shows the whole list, or its beginning and where to go on. */
  ghost predicate OnePage(s: State, page: Page, ids: seq<string>, limit: nat) {
    && (forall i | 0 <= i < |ids| :: ids[i] in s.lobbies)
    && if page.nextCursor == "" then page.lobbies == Summaries(s, ids)
       else |ids| > limit && page.lobbies == Summaries(s, ids[..limit])
  }

  lemma PageShows(s: State, queueKey: string, after: nat, limit: nat)
    requires LobbiesOK(s) && 0 < limit
    ensures OnePage(s, PageAfter(s, queueKey, after, limit), Listing(s, queueKey, after), limit)
  {
    ListingResident(s, queueKey, after);
    if PageAfter(s, queueKey, after, limit).nextCursor == "" { EmptyCursorEnds(s, queueKey, after, limit); }
    hide Listing, LobbiesOK;
  }

  lemma SummariesSplit(s: State, ids: seq<string>, limit: nat)
    requires limit <= |ids| && forall i | 0 <= i < |ids| :: ids[i] in s.lobbies
    ensures Summaries(s, ids[..limit]) + Summaries(s, ids[limit..]) == Summaries(s, ids)
  {
  }

  lemma EmptyCursorEnds(s: State, queueKey: string, after: nat, limit: nat)
    requires LobbiesOK(s) && 0 < limit && PageAfter(s, queueKey, after, limit).nextCursor == ""
    ensures |Listing(s, queueKey, after)| <= limit
  {
    ListingResident(s, queueKey, after);
  }

  /** These are the open public lobbies of the queue, each once, in the order of creation. */
  ghost predicate ListsExactly(s: State, queueKey: string, ids: seq<string>) {
    && (forall p :: p in ids <==>
         p in s.lobbies && s.lobbies[p].state.Open? && s.lobbies[p].visibility.Public?
           && s.lobbies[p].queueKey == queueKey)
    && (forall i | 0 <= i < |ids| :: ids[i] in s.lobbies)
    && (forall i, j | 0 <= i < j < |ids| :: s.lobbies[ids[i]].sequence < s.lobbies[ids[j]].sequence)
  }

  /** Why a page is refused, and what a page shows otherwise. */
  lemma ListExactly(s: State, queueKey: string, cursor: string, limit: int, now: int)
    requires LobbiesOK(Expire(s, now))
    ensures var (s', result) := List(s, queueKey, cursor, limit, now);
      if !(ValidID(queueKey) && 1 <= limit <= 50 && ParseCursor(cursor).Some?) then s' == s && result == Err(ErrInvalid)
      else
        && s' == Expire(s, now) && result.Ok?
        && OnePage(s', result.value, Listing(s', queueKey, ParseCursor(cursor).value), limit)
  {
    hide LobbiesOK, Listing, OnePage, PageAfter, ValidID, ParseCursor, Expire;
    if ParseCursor(cursor).Some? && limit > 0 { PageShows(Expire(s, now), queueKey, ParseCursor(cursor).value, limit); }
  }

  /** From the empty cursor, the walk shows exactly the list. */
  lemma WalkFromStart(s: State, queueKey: string, limit: nat) returns (ids: seq<string>)
    requires Inv(s) && 0 < limit
    ensures ListsExactly(s, queueKey, ids)
    ensures Walk(s, queueKey, "", limit) == Summaries(s, ids)
  {
    LobbiesHold(s);
    ids := Listing(s, queueKey, 0);
    ListingResident(s, queueKey, 0);
    WalkShowsAll(s, queueKey, "", limit);
  }
}
