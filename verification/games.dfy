/**
 * The list logic of `MainApp`: the joined-games toggle, the search filter
 * over the games list, and the chat room derived from the selected game.
 */
module Games {
  import opened Text
  import opened Lists
  import opened Records

  const GLOBAL_ROOM := "global_room"

  /** `g._id || g.id`: the key under which a game is recorded as joined. */
  function GameKey(g: Game): string {
    if g.dbId.Some? && g.dbId.value != "" then g.dbId.value else g.id
  }

  /** `joinedGames.includes(g._id || g.id)`: whether the game's button reads "Leave". */
  predicate IsJoined(joined: seq<string>, g: Game) {
    GameKey(g) in joined
  }

  /**
   * `handleJoinGame`: leave a joined game by filtering out every occurrence
   * of its id, keeping the others in order; join any other game by
   * appending its id at the end. No other id changes membership.
   */
  function ToggleJoined(joined: seq<string>, gameId: string): (r: seq<string>)
    ensures gameId in r <==> gameId !in joined
    ensures forall y :: y != gameId ==> (y in r <==> y in joined)
    ensures gameId in joined ==> IsSubsequence(r, joined) && multiset(r) == multiset(joined)[gameId := 0]
    ensures gameId !in joined ==> r == joined + [gameId]
  {
    if gameId in joined then
      var r := RemoveAll(joined, gameId);
      assert gameId !in r by { assert multiset(r)[gameId] == 0; }
      assert forall y :: y != gameId ==> (y in r <==> y in joined) by {
        forall y | y != gameId ensures y in r <==> y in joined {
          assert multiset(r)[y] == multiset(joined)[y];
        }
      }
      r
    else
      joined + [gameId]
  }

  /** Joining a game and leaving it again restores the list exactly. */
  lemma ToggleTwice(joined: seq<string>, gameId: string)
    requires gameId !in joined
    ensures ToggleJoined(ToggleJoined(joined, gameId), gameId) == joined
  {
    RemoveAllAppended(joined, gameId);
  }

  /** The joined list starts empty and only changes by toggles, so it never holds an id twice. */
  lemma TogglePreservesNoDuplicates(joined: seq<string>, gameId: string)
    requires NoDuplicates(joined)
    ensures NoDuplicates(ToggleJoined(joined, gameId))
  {
    var r := ToggleJoined(joined, gameId);
    if gameId in joined {
      SubsequenceNoDuplicates(r, joined);
    }
  }

  /** Clicking a game's Join/Leave button flips that game's button and no other id. */
  lemma ToggleFlipsButton(joined: seq<string>, g: Game, h: Game)
    ensures IsJoined(ToggleJoined(joined, GameKey(g)), g) == !IsJoined(joined, g)
    ensures GameKey(h) != GameKey(g) ==>
      IsJoined(ToggleJoined(joined, GameKey(g)), h) == IsJoined(joined, h)
  {
  }

  /** `query.trim().toLowerCase()`: empty exactly when the query is blank. */
  function SearchKey(query: string): (q: string)
    ensures q == "" <==> AllSpace(query)
    ensures |q| <= |query|
  {
    Lower(Trim(query))
  }

  /** Queries that differ only in letter case give the same search key. */
  lemma SearchKeyIgnoresCase(q1: string, q2: string)
    requires EqualIgnoringCase(q1, q2)
    ensures SearchKey(q1) == SearchKey(q2)
  {
    TrimIgnoresCase(q1, q2);
    LowerIgnoresCase(Trim(q1), Trim(q2));
  }

  /**
   * Whether a game matches a non-empty search key: the key is a substring of
   * the lower-cased title, sport, or location when the game has one.
   */
  predicate Matches(g: Game, q: string) {
    || Includes(Lower(g.title), q)
    || Includes(Lower(g.sport), q)
    || (g.location.Some? && g.location.value != "" && Includes(Lower(g.location.value), q))
  }

  /** The predicate of `filteredGames`: a blank query keeps every game. */
  predicate Keeps(query: string, g: Game) {
    var q := SearchKey(query);
    q == "" || Matches(g, q)
  }

  /**
   * `filteredGames`: the games the search keeps, as an order-preserving
   * selection of the list; a game is in the result exactly when it is in
   * the list and the search keeps it.
   */
  function FilterGames(games: seq<Game>, query: string): (r: seq<Game>)
    ensures |r| <= |games|
    ensures IsSubsequence(r, games)
    ensures forall g :: g in r <==> g in games && Keeps(query, g)
    ensures forall g :: multiset(r)[g] == (if Keeps(query, g) then multiset(games)[g] else 0)
  {
    if games == [] then []
    else
      assert games == [games[0]] + games[1..];
      if Keeps(query, games[0]) then [games[0]] + FilterGames(games[1..], query)
    else FilterGames(games[1..], query)
  }

  /** A query that is blank after trimming shows the whole list. */
  lemma {:induction false} FilterBlankQuery(games: seq<Game>, query: string)
    requires AllSpace(query)
    ensures FilterGames(games, query) == games
  {
    if games != [] {
      FilterBlankQuery(games[1..], query);
    }
  }

  /** Searching again with the same query changes nothing. */
  lemma {:induction false} FilterIdempotent(games: seq<Game>, query: string)
    ensures FilterGames(FilterGames(games, query), query) == FilterGames(games, query)
  {
    if games != [] {
      FilterIdempotent(games[1..], query);
    }
  }

  /** The search is case-insensitive: queries differing only in letter case keep the same games. */
  lemma {:induction false} FilterIgnoresCase(games: seq<Game>, q1: string, q2: string)
    requires EqualIgnoringCase(q1, q2)
    ensures FilterGames(games, q1) == FilterGames(games, q2)
  {
    if games != [] {
      SearchKeyIgnoresCase(q1, q2);
      FilterIgnoresCase(games[1..], q1, q2);
    }
  }

  /**
   * A game built by the create form is found by searching for its location
   * or its sport as typed: both appear in its title.
   */
  lemma CreatedGameFound(id: string, location: string, sport: string, time: string, players: string)
    requires !AllSpace(location) && !AllSpace(sport)
    ensures NewGame(id, location, sport, time, players).Some?
    ensures Keeps(location, NewGame(id, location, sport, time, players).value)
    ensures Keeps(sport, NewGame(id, location, sport, time, players).value)
  {
    var g := NewGame(id, location, sport, time, players).value;
    var title := sport + " at " + location;
    assert g.title == title;
    // the location is a suffix of the title
    IncludesSuffix(sport + " at ", location);
    FoundInTitle(g, location);
    // the sport is a prefix of the title
    assert title[..|sport|] == sport;
    IncludesAt(title, sport, 0);
    FoundInTitle(g, sport);
  }

  /** A game whose title contains the typed query is kept by the search. */
  lemma FoundInTitle(g: Game, query: string)
    requires Includes(g.title, query)
    ensures Keeps(query, g)
  {
    FoundThrough(g.title, query);
  }

  /** If the typed query occurs in `field`, its search key occurs in the lower-cased field. */
  lemma FoundThrough(field: string, query: string)
    requires Includes(field, query)
    ensures Includes(Lower(field), SearchKey(query))
  {
    IncludesTrim(query);
    IncludesTransitive(field, query, Trim(query));
    IncludesLower(field, Trim(query));
  }

  /**
   * The chat room for the selected game (`selectedGame._id`, which may be
   * undefined), or the global room when no game is selected.
   */
  function RoomFor(selected: Option<Game>): (r: Option<string>)
    ensures selected.None? ==> r == Some(GLOBAL_ROOM)
    ensures selected.Some? ==> r == selected.value.dbId
    ensures r.None? <==> selected.Some? && selected.value.dbId.None?
  {
    if selected.Some? then selected.value.dbId else Some(GLOBAL_ROOM)
  }
}
