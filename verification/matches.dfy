/**
 The football-match browser: a `matches` slice holding the fetch lifecycle
 flags, the fetched list and the favourite ids, and a `filter` slice holding
 the search query and an unused filter string. The thunk that fetches the
 list only contributes the actions it dispatches: FETCH_MATCHES_REQUEST before
 the network call, then FETCH_MATCHES_SUCCESS or FETCH_MATCHES_FAILURE.
 */
module Matches {
  import Seqs
  import Store
  import Text

  /**
   The fields of a fetched match the list items show. The other fields of the
   fetched JSON are dropped; in the app only the view's `JSON.stringify` shows them.
   */
  datatype Match = Match(fifaId: string, team1: string, team2: string, matchDate: string)

  datatype MatchesState = MatchesState(
    isLoading: bool,
    isError: bool,
    footballMatches: seq<Match>,
    favorites: seq<string>)

  datatype FilterState = FilterState(searchQuery: string, filter: string)

  /** The combined state `{ matches, filter }`. */
  datatype State = State(matches: MatchesState, filter: FilterState)

  /** Every action type the store can be handed; `Unrecognised(kind)` stands for
      any `type` other than those of the other constructors; `kind` is never one of their type strings. */
  datatype Action =
    | FetchMatchesRequest
    | FetchMatchesSuccess(payload: seq<Match>)
    | FetchMatchesFailure(error: string)
    | ToggleFavorite(id: string)
    | SetSearchQuery(query: string)
    | SetFilter(criteria: string)
    | Unrecognised(kind: string)
  {
    /** The action types `matchesReducer` has a case for. */
    predicate IsMatchesAction() {
      FetchMatchesRequest? || FetchMatchesSuccess? || FetchMatchesFailure? || ToggleFavorite?
    }
  }

  /** `initialMatchesState` and `initialFilterState` under their slice keys. */
  const Initial: State :=
    State(MatchesState(false, false, [], []), FilterState("", ""))

  /** The predicate the favourite removal filters with: keep the ids other than `id`. */
  function Except(id: string): string -> bool {
    (x: string) => x != id
  }

  /** The TOGGLE_FAVORITE update: remove `id` if it is a favourite, append it otherwise. */
  function FlipFavorite(favorites: seq<string>, id: string): (r: seq<string>)
    ensures id in r <==> id !in favorites
    ensures forall x :: x != id ==> (x in r <==> x in favorites)
    ensures id !in favorites ==> r == favorites + [id]
    ensures id in favorites ==> Seqs.IsSubsequence(r, favorites)
    ensures id in favorites ==> multiset(r) == multiset(favorites)[id := 0]
    ensures Seqs.Distinct(favorites) ==> Seqs.Distinct(r)
  {
    if id in favorites then
      var r := Seqs.Filter(favorites, Except(id));
      assert Seqs.Distinct(favorites) ==> Seqs.Distinct(r) by {
        if Seqs.Distinct(favorites) {
          Seqs.FilterDistinct(favorites, Except(id));
        }
      }
      assert forall x :: x != id && x in favorites ==> x in r by {
        forall x | x != id && x in favorites ensures x in r {
          var k :| 0 <= k < |favorites| && favorites[k] == x;
        }
      }
      assert multiset(r) == multiset(favorites)[id := 0] by {
        forall x ensures multiset(r)[x] == multiset(favorites)[id := 0][x] {
          if x != id && x in favorites {
            var k :| 0 <= k < |favorites| && favorites[k] == x;
          }
        }
      }
      r
    else
      assert Seqs.Distinct(favorites) ==> Seqs.Distinct(favorites + [id]) by {
        if Seqs.Distinct(favorites) {
          Seqs.AppendDistinct(favorites, id);
        }
      }
      favorites + [id]
  }

  /** `matchesReducer`. */
  function ReduceMatches(s: MatchesState, a: Action): (r: MatchesState)
    ensures a.FetchMatchesRequest? ==>
      && r.isLoading && !r.isError
      && r.footballMatches == s.footballMatches && r.favorites == s.favorites
    ensures a.FetchMatchesSuccess? ==>
      && !r.isLoading && r.footballMatches == a.payload
      && r.isError == s.isError && r.favorites == s.favorites
    ensures a.FetchMatchesFailure? ==>
      && !r.isLoading && r.isError
      && r.footballMatches == s.footballMatches && r.favorites == s.favorites
    ensures a.ToggleFavorite? ==>
      && r.favorites == FlipFavorite(s.favorites, a.id)
      && r.(favorites := s.favorites) == s
    ensures !a.IsMatchesAction() ==> r == s
  {
    match a
    case FetchMatchesRequest => s.(isLoading := true, isError := false)
    case FetchMatchesSuccess(ms) => s.(isLoading := false, footballMatches := ms)
    case FetchMatchesFailure(_) => s.(isLoading := false, isError := true)
    case ToggleFavorite(id) => s.(favorites := FlipFavorite(s.favorites, id))
    case _ => s
  }

  /** The `filterReducer` of the match app. */
  function ReduceFilter(s: FilterState, a: Action): (r: FilterState)
    ensures a.SetSearchQuery? ==> r.searchQuery == a.query && r.filter == s.filter
    ensures a.SetFilter? ==> r.filter == a.criteria && r.searchQuery == s.searchQuery
    ensures !a.SetSearchQuery? && !a.SetFilter? ==> r == s
  {
    match a
    case SetSearchQuery(q) => s.(searchQuery := q)
    case SetFilter(f) => s.(filter := f)
    case _ => s
  }

  /** `rootReducer`: each slice is reduced on its own, neither sees the other. */
  function Reduce(s: State, a: Action): (r: State)
    ensures r.matches == ReduceMatches(s.matches, a) && r.filter == ReduceFilter(s.filter, a)
    ensures a.IsMatchesAction() ==> r.filter == s.filter
    ensures a.SetSearchQuery? || a.SetFilter? ==> r.matches == s.matches
    ensures a.Unrecognised? ==> r == s
  {
    State(ReduceMatches(s.matches, a), ReduceFilter(s.filter, a))
  }

  /** Whether the search shows a match: either team name contains the query, ignoring ASCII case. */
  function Shown(query: string): (shown: Match -> bool)
    ensures forall m: Match :: shown(m) <==> Mentions(m.team1, query) || Mentions(m.team2, query)
  {
    (m: Match) =>
      || Text.Includes(Text.Lower(m.team1), Text.Lower(query))
      || Text.Includes(Text.Lower(m.team2), Text.Lower(query))
  }

  /** `team` contains `query` somewhere, ignoring ASCII case. */
  ghost predicate Mentions(team: string, query: string) {
    exists k: nat :: Text.OccursAt(Text.Lower(team), Text.Lower(query), k)
  }

  /** `filteredMatches`: the fetched matches the current search query shows, in fetched order. */
  function FilteredMatches(s: State): (r: seq<Match>)
    ensures Seqs.IsSubsequence(r, s.matches.footballMatches)
    ensures forall i :: 0 <= i < |r| ==>
      && r[i] in s.matches.footballMatches
      && (Mentions(r[i].team1, s.filter.searchQuery) || Mentions(r[i].team2, s.filter.searchQuery))
    ensures forall i :: 0 <= i < |s.matches.footballMatches| ==>
      var m := s.matches.footballMatches[i];
      Mentions(m.team1, s.filter.searchQuery) || Mentions(m.team2, s.filter.searchQuery) ==>
        multiset(r)[m] == multiset(s.matches.footballMatches)[m]
    ensures multiset(r) <= multiset(s.matches.footballMatches)
  {
    Seqs.Filter(s.matches.footballMatches, Shown(s.filter.searchQuery))
  }

  /** Toggling an id that is not a favourite twice restores the list exactly. */
  lemma FlipTwiceAbsent(favorites: seq<string>, id: string)
    requires id !in favorites
    ensures FlipFavorite(FlipFavorite(favorites, id), id) == favorites
  {
    Seqs.FilterAppend(favorites, id, Except(id));
    Seqs.FilterKeepsAll(favorites, Except(id));
  }

  /**
   Toggling a favourite twice keeps the same ids but moves `id` to the end, so
   the list is restored exactly only when `id` was already last and unique.
   */
  lemma FlipTwicePresent(favorites: seq<string>, id: string)
    requires id in favorites
    ensures var r := FlipFavorite(FlipFavorite(favorites, id), id);
      && (forall x :: x in r <==> x in favorites)
      && r == Seqs.Filter(favorites, Except(id)) + [id]
  {
  }

  /** Toggling the last favourite twice restores the list, provided it occurs nowhere else. */
  lemma FlipTwiceLastUnique(favorites: seq<string>, id: string)
    requires |favorites| > 0 && favorites[|favorites| - 1] == id
    requires id !in favorites[..|favorites| - 1]
    ensures FlipFavorite(FlipFavorite(favorites, id), id) == favorites
  {
    var front := favorites[..|favorites| - 1];
    assert favorites == front + [id];
    Seqs.FilterAppend(front, id, Except(id));
    Seqs.FilterKeepsAll(front, Except(id));
    assert FlipFavorite(favorites, id) == front;
    assert FlipFavorite(front, id) == front + [id];
  }

  /** From a state whose favourites are duplicate-free, every dispatch sequence keeps them so. */
  lemma {:induction false} RunKeepsFavoritesDistinct(s: State, actions: seq<Action>)
    requires Seqs.Distinct(s.matches.favorites)
    ensures Seqs.Distinct(Store.Run(Reduce, s, actions).matches.favorites)
    decreases |actions|
  {
    if |actions| > 0 {
      RunKeepsFavoritesDistinct(s, actions[..|actions| - 1]);
    }
  }

  /** Every state reachable from `initialState` has duplicate-free favourites. */
  lemma ReachableFavoritesDistinct(actions: seq<Action>)
    ensures Seqs.Distinct(Store.Run(Reduce, Initial, actions).matches.favorites)
  {
    RunKeepsFavoritesDistinct(Initial, actions);
  }

  /** A fetch that succeeds: the flags end cleared and the list is the payload. */
  lemma RequestThenSuccess(s: State, ms: seq<Match>)
    ensures var r := Reduce(Reduce(s, FetchMatchesRequest), FetchMatchesSuccess(ms));
      && !r.matches.isLoading && !r.matches.isError
      && r.matches.footballMatches == ms
      && r.matches.favorites == s.matches.favorites && r.filter == s.filter
  {
  }

  /** A fetch that fails: loading ends, the error flag is set, the old list stays. */
  lemma RequestThenFailure(s: State, message: string)
    ensures var r := Reduce(Reduce(s, FetchMatchesRequest), FetchMatchesFailure(message));
      && !r.matches.isLoading && r.matches.isError
      && r.matches.footballMatches == s.matches.footballMatches
      && r.matches.favorites == s.matches.favorites && r.filter == s.filter
  {
  }

  /**
   Two overlapping fetches where the first fails after the second has started
   and the second succeeds last: the fresh list is shown with the error flag
   still set, because FETCH_MATCHES_SUCCESS does not clear `isError`.
   */
  lemma OverlappingFetchesKeepError(s: State, message: string, ms: seq<Match>)
    ensures var r := Store.Run(Reduce, s,
        [FetchMatchesRequest, FetchMatchesRequest, FetchMatchesFailure(message), FetchMatchesSuccess(ms)]);
      && !r.matches.isLoading && r.matches.isError && r.matches.footballMatches == ms
  {
    var req, fail, ok := FetchMatchesRequest, FetchMatchesFailure(message), FetchMatchesSuccess(ms);
    assert [req, req, fail, ok][..3] == [req, req, fail];
    assert [req, req, fail][..2] == [req, req];
    assert [req, req][..1] == [req];
    assert [req][..0] == [];
  }

  /** Actions other than SET_SEARCH_QUERY never change the stored search query. */
  lemma {:induction false} RunKeepsSearchQuery(s: State, actions: seq<Action>)
    requires forall i :: 0 <= i < |actions| ==> !actions[i].SetSearchQuery?
    ensures Store.Run(Reduce, s, actions).filter.searchQuery == s.filter.searchQuery
    decreases |actions|
  {
    if |actions| > 0 {
      RunKeepsSearchQuery(s, actions[..|actions| - 1]);
    }
  }

  /** The stored search query is exactly the payload of the last SET_SEARCH_QUERY dispatched. */
  lemma LastSearchQueryWins(s: State, before: seq<Action>, query: string, after: seq<Action>)
    requires forall i :: 0 <= i < |after| ==> !after[i].SetSearchQuery?
    ensures Store.Run(Reduce, s, before + [SetSearchQuery(query)] + after).filter.searchQuery == query
  {
    var mid := Store.Run(Reduce, s, before + [SetSearchQuery(query)]);
    Store.RunAppend(Reduce, s, before + [SetSearchQuery(query)], after);
    Store.RunAppend(Reduce, s, before, [SetSearchQuery(query)]);
    assert [SetSearchQuery(query)][..0] == [];
    RunKeepsSearchQuery(mid, after);
  }

  /** An empty search query shows every fetched match, in fetched order. */
  lemma EmptyQueryShowsAll(s: State)
    requires s.filter.searchQuery == ""
    ensures FilteredMatches(s) == s.matches.footballMatches
  {
    var ms := s.matches.footballMatches;
    forall i | 0 <= i < |ms| ensures Shown("")(ms[i]) {
      Text.IncludesEmpty(Text.Lower(ms[i].team1));
    }
    Seqs.FilterKeepsAll(ms, Shown(""));
  }

  /** Searching for a query or for its lower-cased form shows the same matches. */
  lemma SearchIgnoresQueryCase(s: State)
    ensures FilteredMatches(s)
         == FilteredMatches(s.(filter := s.filter.(searchQuery := Text.Lower(s.filter.searchQuery))))
  {
    var q := s.filter.searchQuery;
    Text.LowerIdempotent(q);
    Seqs.FilterAgreeing(s.matches.footballMatches, Shown(q), Shown(Text.Lower(q)));
  }

  /** Favouriting "77" from `initialState` lists it; favouriting it again empties the list. */
  lemma FavoriteScenario()
    ensures Reduce(Initial, ToggleFavorite("77")).matches.favorites == ["77"]
    ensures Reduce(Reduce(Initial, ToggleFavorite("77")), ToggleFavorite("77")).matches.favorites == []
  {
    FlipTwiceAbsent([], "77");
  }
}
