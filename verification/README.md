# Redux demo reducers, modelled in Dafny

This project models the state-update core of four small redux demo apps:

- **counter** (`q8`): a `{ count }` state with INCREMENT and DECREMENT;
- **todo list** (`q9`): a `{ todos }` list with ADD_TODO, TOGGLE_TODO and DELETE_TODO;
- **book library** (`q10`): a `books` slice with ADD_BOOK, TOGGLE_READ_STATUS, DELETE_BOOK and
  EDIT_BOOK (a shallow merge of `updatedDetails`), and a `filter` slice with FILTER_BOOKS;
- **football-match browser** (`q11`): a `matches` slice with the fetch lifecycle
  (FETCH_MATCHES_REQUEST / SUCCESS / FAILURE) and TOGGLE_FAVORITE, a `filter` slice with
  SET_SEARCH_QUERY and SET_FILTER, and the derived, case-insensitive `filteredMatches` list.

Every reducer is a total pure function from a state and an action to a new state. Each app's
action `type` strings become one tagged datatype per app. `Unrecognised(kind)` stands for any
other type, which every reducer answers with its input state. The two-slice apps have an explicit
root state with one field per slice. Their root reducer hands every action to both slice reducers,
the way `combineReducers` does. Ids that the action creators draw from `uuidv4()` are parameters.
A dispatched sequence of actions is the fold `Store.Run`.

Files:

- `seqs.dfy` (`Seqs`): `Array.prototype.filter` as `Filter`, the order-preserving subsequence
  relation, duplicate-freedom, and lemmas about them.
- `store.dfy` (`Store`): dispatching a sequence of actions.
- `text.dfy` (`Text`): ASCII `toLowerCase` and `String.prototype.includes`, with `includes`
  proved equal to "occurs at some index".
- `counter.dfy`, `todos.dfy`, `books.dfy`, `matches.dfy`: one module per app.

Behaviour worth knowing, all proved:

- Toggling the same favourite id twice restores the list when the id was absent
  (`Matches.FlipTwiceAbsent`), or when it was the last entry and occurred only once
  (`Matches.FlipTwiceLastUnique`). Otherwise every copy of the id is removed and a single copy
  ends up at the end of the list (`Matches.FlipTwicePresent`).
- FETCH_MATCHES_SUCCESS does not clear `isError`. With two overlapping fetches, a failure followed
  by a later success shows the new list with the error flag still set
  (`Matches.OverlappingFetchesKeepError`).
- FETCH_MATCHES_FAILURE carries a message, but the reducer does not store it. Only `isError`
  records the failure (q11/src/App.jsx:48-49).
- An EDIT_BOOK whose details contain `id` renames the book. Repeating the edit is still a no-op
  (`Books.EditIdempotent`).

## Model

| member | source | states |
|---|---|---|
| Counter.Reduce | q8/src/App.jsx:18-26 | INCREMENT raises the count by one; DECREMENT lowers it by one, with no lower bound; any other action returns the state unchanged |
| Counter.IncrementDecrementCancel | q8/src/App.jsx:20-23 | INCREMENT then DECREMENT, and DECREMENT then INCREMENT, both return the original state |
| Counter.RunCount | q8/src/App.jsx:18-26 | after any dispatch sequence the count is the start count plus the number of INCREMENTs minus the number of DECREMENTs |
| Counter.CountFromInitial | q8/src/App.jsx:15-26 | starting from `initialState` (count 0) the count equals #INCREMENT − #DECREMENT, possibly negative |
| Counter.IncrementIncrementDecrement | q8/src/App.jsx:15-23 | INCREMENT, INCREMENT, DECREMENT from the initial state gives `{ count: 1 }` |
| Todos.NewTodo | q9/src/App.jsx:13 | `addTodo` builds an ADD_TODO whose record has the given id and title and `status == false` |
| Todos.Toggle | q9/src/App.jsx:25-31 | TOGGLE_TODO keeps length, order, ids and titles, and `status` changes exactly on the records with the given id |
| Todos.Remove | q9/src/App.jsx:32-33 | DELETE_TODO leaves an order-preserving subsequence with no record of that id that keeps every record of another id with all its copies |
| Todos.Reduce | q9/src/App.jsx:21-37 | ADD_TODO appends the payload after unchanged earlier records; TOGGLE_TODO and DELETE_TODO act as above; any other action returns the state unchanged |
| Todos.ToggleInvolution | q9/src/App.jsx:28-29 | toggling the same id twice restores the list |
| Todos.ToggleAbsent | q9/src/App.jsx:28-29 | toggling an id no record has leaves the list unchanged |
| Todos.RemoveAbsent | q9/src/App.jsx:33 | deleting an id no record has leaves the list unchanged |
| Todos.RemoveIdempotent | q9/src/App.jsx:33 | deleting the same id twice equals deleting it once |
| Todos.ToggleTwiceRestores | q9/src/App.jsx:25-31 | dispatching TOGGLE_TODO twice with the same id restores the whole state |
| Todos.AddThenFind | q9/src/App.jsx:13-24 | after adding a todo with an unused id, exactly one record has that id: the last one, with the given title and not completed |
| Todos.AddToggleDeleteScenario | q9/src/App.jsx:13-33 | add "Buy milk", toggle it, delete it: one open record, then completed, then an empty list |
| Books.NewBook | q10/src/App.jsx:15-18 | `addBook` builds an ADD_BOOK whose record has the given id, title, author and genre and `read == false` |
| Books.Merge | q10/src/App.jsx:46 | the shallow merge takes every key present in `updatedDetails` from it and every other key from the book |
| Books.MergeIdempotent | q10/src/App.jsx:46 | merging the same details twice equals merging them once |
| Books.MergeNothing | q10/src/App.jsx:46 | merging details with no keys leaves the book unchanged |
| Books.Toggle | q10/src/App.jsx:33-39 | TOGGLE_READ_STATUS keeps length and order and every field except `read`, and `read` changes exactly on books with the given id |
| Books.Edit | q10/src/App.jsx:42-48 | EDIT_BOOK keeps length and order, merges the details into books with the given id and leaves the other books unchanged |
| Books.Remove | q10/src/App.jsx:40-41 | DELETE_BOOK leaves an order-preserving subsequence with no book of that id that keeps every book of another id with all its copies |
| Books.ReduceBooks | q10/src/App.jsx:29-52 | ADD_BOOK appends the payload after unchanged earlier books; the other book actions act as above; every other action returns the slice unchanged |
| Books.ReduceFilter | q10/src/App.jsx:55-62 | FILTER_BOOKS replaces the filter string with the payload; every other action returns the slice unchanged |
| Books.Reduce | q10/src/App.jsx:29-65 | book actions never change the filter slice; FILTER_BOOKS never changes the books slice; an unrecognised action changes neither |
| Books.ToggleInvolution | q10/src/App.jsx:36-38 | toggling the same id twice restores the list |
| Books.RemoveIdempotent | q10/src/App.jsx:41 | deleting the same id twice equals deleting it once |
| Books.RemoveAbsent | q10/src/App.jsx:41 | deleting an id no book has leaves the list unchanged |
| Books.EditIdempotent | q10/src/App.jsx:42-48 | applying the same edit twice equals applying it once, even when the details rename the id |
| Books.EditTwiceIsOnce | q10/src/App.jsx:42-48 | dispatching the same EDIT_BOOK twice leaves the same state as dispatching it once |
| Books.RunKeepsFilter | q10/src/App.jsx:55-61 | no action other than FILTER_BOOKS changes the stored filter |
| Books.LastFilterWins | q10/src/App.jsx:57-58 | the stored filter is the payload of the last FILTER_BOOKS dispatched |
| Books.AddThenFind | q10/src/App.jsx:15-32 | after adding a book with an unused id, exactly one book has that id: the last one, unread; the filter slice is unchanged |
| Matches.FlipFavorite | q11/src/App.jsx:50-56 | TOGGLE_FAVORITE flips whether the id is a favourite: when absent it is appended at the end, when present every copy is removed and every other id keeps all its copies in order; duplicate-freedom is kept |
| Matches.ReduceMatches | q11/src/App.jsx:42-60 | REQUEST sets loading and clears the error; SUCCESS clears loading and stores the payload but leaves the error flag; FAILURE clears loading and sets the error, keeping the list; each leaves the favourites alone |
| Matches.ReduceFilter | q11/src/App.jsx:63-72 | SET_SEARCH_QUERY replaces only `searchQuery`; SET_FILTER replaces only `filter`; any other action returns the slice unchanged |
| Matches.Reduce | q11/src/App.jsx:42-75 | match actions never change the filter slice; filter actions never change the matches slice; an unrecognised action changes neither |
| Matches.Shown | q11/src/App.jsx:90-93 | a match passes the search exactly when team1 or team2 contains the query at some index, ignoring ASCII case |
| Matches.FilteredMatches | q11/src/App.jsx:90-93 | the shown list is an order-preserving subsequence of the fetched list holding only matches whose team1 or team2 mentions the query, and every such match with all its copies |
| Matches.FlipTwiceAbsent | q11/src/App.jsx:53-55 | toggling a non-favourite id twice restores the favourites exactly |
| Matches.FlipTwicePresent | q11/src/App.jsx:53-55 | toggling a favourite id twice keeps the same ids but moves that id to the end |
| Matches.FlipTwiceLastUnique | q11/src/App.jsx:53-55 | toggling the id that is the last favourite, and occurs nowhere else, twice restores the list exactly |
| Matches.RunKeepsFavoritesDistinct | q11/src/App.jsx:50-56 | from duplicate-free favourites, any dispatch sequence keeps them duplicate-free |
| Matches.ReachableFavoritesDistinct | q11/src/App.jsx:38-56 | every state reached from the initial state has duplicate-free favourites |
| Matches.RequestThenSuccess | q11/src/App.jsx:26-47 | REQUEST then SUCCESS ends not loading, without error, showing the payload |
| Matches.RequestThenFailure | q11/src/App.jsx:26-49 | REQUEST then FAILURE ends not loading, with the error set and the old list kept |
| Matches.OverlappingFetchesKeepError | q11/src/App.jsx:24-49 | REQUEST, REQUEST, FAILURE, SUCCESS ends showing the new list with `isError` still set |
| Matches.RunKeepsSearchQuery | q11/src/App.jsx:63-72 | no action other than SET_SEARCH_QUERY changes the search query |
| Matches.LastSearchQueryWins | q11/src/App.jsx:65-66 | the stored search query is the payload of the last SET_SEARCH_QUERY dispatched |
| Matches.EmptyQueryShowsAll | q11/src/App.jsx:90-93 | an empty search query shows every fetched match in fetched order |
| Matches.SearchIgnoresQueryCase | q11/src/App.jsx:90-93 | a query and its lower-cased form show the same matches |
| Matches.FavoriteScenario | q11/src/App.jsx:38-55 | from the initial state, toggling "77" gives `["77"]` and toggling it again gives `[]` |
| Text.LowerChar | q11/src/App.jsx:91-92 | an ASCII capital maps to the lower-case letter the same distance from 'a'; every other character is kept |
| Text.Lower | q11/src/App.jsx:91-92 | lower-casing keeps the length and lower-cases each character on its own |
| Store.RunOne | q8/src/App.jsx:30 | dispatching one action to the store replaces its state with the reducer applied to the current state and that action |
| Store.RunAppend | q11/src/App.jsx:78 | dispatching one sequence of actions and then another leaves the same state as dispatching the two as one sequence |
| Text.Includes | q11/src/App.jsx:91-92 | `includes` holds exactly when the substring occurs at some index; the empty string occurs everywhere |

## Left out

- React components, JSX, `Provider`, `useSelector`, `useDispatch` and the local `useState` input fields are UI only.
- The non-empty `trim()` checks in the add handlers (q9/src/App.jsx:49, q10/src/App.jsx:79) run in the view. The reducers insert whatever they are given.
- The redux `createStore`, `combineReducers` and `applyMiddleware(thunk)` internals are library code. Composition is written out as `Reduce` on a two-field state, and dispatching is the fold `Store.Run`. Subscribers, `getState` and reentrant dispatch are not modelled.
- The thunk's `fetch` and `response.json()` are network I/O. Only the actions it dispatches are modelled. A race between fetches is modelled as an interleaving of those actions.
- `uuidv4()` is a random generator. The id is a parameter of `Todos.NewTodo` and `Books.NewBook`.
- Matches.FilteredMatches: case folding covers ASCII letters only, not Unicode `toLowerCase`.
- Text.Lower: lower-casing (here, in `Text.LowerChar` and in `Matches.Shown`) maps ASCII capitals only, not Unicode `toLowerCase`; other characters are kept as they are.
- Payloads are untyped in JavaScript. The model types them: an ADD_TODO/ADD_BOOK payload is a full record, and criteria and queries are strings.
- Books.Merge: `updatedDetails` may hold only a book's own keys. Extra keys that would widen the record, and keys present with the value `undefined`, are not modelled.
- A match keeps only `fifa_id`, `team1`, `team2` and `match_date`. The other fields of the fetched JSON are dropped; in the app only the view's `JSON.stringify` (q11/src/App.jsx:122) shows them.
- Matches.FilteredMatches: two fetched matches that differ only in a dropped field are one value here but two objects in the app, so the model counts them as copies of one match.
- Redux's "same reference when nothing changed" is object identity. The model compares values only.
- Counter.Reduce: the count is an unbounded integer. JavaScript numbers lose integer precision beyond 2^53, which is not modelled.
- The `state = initialState` defaults are modelled by each module's `Initial` constant.
