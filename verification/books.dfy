/**
 The book-library app: a `books` slice `{ books }` changed by ADD_BOOK,
 TOGGLE_READ_STATUS, DELETE_BOOK and EDIT_BOOK, and a `filter` slice
 `{ filter }` changed by FILTER_BOOKS. The root reducer hands every action to
 both slice reducers and keeps each result under its own key.
 */
module Books {
  import Seqs
  import Store

  datatype Book = Book(id: string, title: string, author: string, genre: string, read: bool)

  /** Whether a key is present in an `updatedDetails` object, and with which value. */
  datatype Entry<T> = Absent | Present(value: T)
  {
    /** The value of a spread `{ ...{ key: current }, ...this }` at that key. */
    function Over(current: T): T {
      match this
      case Absent => current
      case Present(v) => v
    }
  }

  /** The `updatedDetails` of EDIT_BOOK: any subset of a book's keys, `id` included. */
  datatype Details = Details(
    id: Entry<string>,
    title: Entry<string>,
    author: Entry<string>,
    genre: Entry<string>,
    read: Entry<bool>)

  datatype BooksState = BooksState(books: seq<Book>)

  datatype FilterState = FilterState(filter: string)

  /** The combined state `{ books, filter }`. */
  datatype State = State(books: BooksState, filter: FilterState)

  /** Every action type the store can be handed; `Unrecognised(kind)` stands for
      any `type` other than those of the other constructors; `kind` is never one of their type strings. */
  datatype Action =
    | AddBook(payload: Book)
    | ToggleReadStatus(id: string)
    | DeleteBook(id: string)
    | EditBook(bookId: string, updatedDetails: Details)
    | FilterBooks(criteria: string)
    | Unrecognised(kind: string)
  {
    /** The action types `booksReducer` has a case for. */
    predicate IsBookAction() {
      AddBook? || ToggleReadStatus? || DeleteBook? || EditBook?
    }
  }

  /** `initialBooksState` and `initialFilterState` under their slice keys. */
  const Initial: State := State(BooksState([]), FilterState(""))

  /** The `addBook(title, author, genre)` action creator, with the generated `id` passed in. */
  function NewBook(id: string, title: string, author: string, genre: string): (a: Action)
    ensures a.AddBook? && !a.payload.read
    ensures a.payload.id == id && a.payload.title == title
    ensures a.payload.author == author && a.payload.genre == genre
  {
    AddBook(Book(id, title, author, genre, false))
  }

  /** `{ ...book, ...updatedDetails }`: keys present in `d` win, the others keep their value. */
  function Merge(b: Book, d: Details): (r: Book)
    ensures d.id.Present? ==> r.id == d.id.value
    ensures d.id.Absent? ==> r.id == b.id
    ensures d.title.Present? ==> r.title == d.title.value
    ensures d.title.Absent? ==> r.title == b.title
    ensures d.author.Present? ==> r.author == d.author.value
    ensures d.author.Absent? ==> r.author == b.author
    ensures d.genre.Present? ==> r.genre == d.genre.value
    ensures d.genre.Absent? ==> r.genre == b.genre
    ensures d.read.Present? ==> r.read == d.read.value
    ensures d.read.Absent? ==> r.read == b.read
  {
    Book(d.id.Over(b.id), d.title.Over(b.title), d.author.Over(b.author),
         d.genre.Over(b.genre), d.read.Over(b.read))
  }

  /** Merging the same details twice is merging them once. */
  lemma MergeIdempotent(b: Book, d: Details)
    ensures Merge(Merge(b, d), d) == Merge(b, d)
  {
  }

  /** Merging details with no key present leaves the book as it is. */
  lemma MergeNothing(b: Book)
    ensures Merge(b, Details(Absent, Absent, Absent, Absent, Absent)) == b
  {
  }

  /** The TOGGLE_READ_STATUS `map`: flip `read` on the books whose id is `id`. */
  function Toggle(books: seq<Book>, id: string): (r: seq<Book>)
    ensures |r| == |books|
    ensures forall i :: 0 <= i < |books| ==>
      && r[i].(read := books[i].read) == books[i]
      && (r[i].read != books[i].read <==> books[i].id == id)
  {
    seq(|books|, i requires 0 <= i < |books| =>
      if books[i].id == id then books[i].(read := !books[i].read) else books[i])
  }

  /** The EDIT_BOOK `map`: merge `d` into the books whose id is `id`. */
  function Edit(books: seq<Book>, id: string, d: Details): (r: seq<Book>)
    ensures |r| == |books|
    ensures forall i :: 0 <= i < |books| && books[i].id != id ==> r[i] == books[i]
    ensures forall i :: 0 <= i < |books| && books[i].id == id ==> r[i] == Merge(books[i], d)
  {
    seq(|books|, i requires 0 <= i < |books| =>
      if books[i].id == id then Merge(books[i], d) else books[i])
  }

  /** The predicate DELETE_BOOK filters with: keep the books whose id is not `id`. */
  function Keeps(id: string): Book -> bool {
    (b: Book) => b.id != id
  }

  /** The DELETE_BOOK `filter`: drop every book whose id is `id`. */
  function Remove(books: seq<Book>, id: string): (r: seq<Book>)
    ensures Seqs.IsSubsequence(r, books)
    ensures forall i :: 0 <= i < |r| ==> r[i].id != id && r[i] in books
    ensures forall i :: 0 <= i < |books| && books[i].id != id ==> books[i] in r
    ensures multiset(r) <= multiset(books)
    ensures forall i :: 0 <= i < |books| && books[i].id != id ==> multiset(r)[books[i]] == multiset(books)[books[i]]
  {
    Seqs.Filter(books, Keeps(id))
  }

  /** `booksReducer`. */
  function ReduceBooks(s: BooksState, a: Action): (r: BooksState)
    ensures a.AddBook? ==>
      && |r.books| == |s.books| + 1
      && r.books[..|s.books|] == s.books
      && r.books[|s.books|] == a.payload
    ensures a.ToggleReadStatus? ==> r.books == Toggle(s.books, a.id)
    ensures a.DeleteBook? ==> r.books == Remove(s.books, a.id)
    ensures a.EditBook? ==> r.books == Edit(s.books, a.bookId, a.updatedDetails)
    ensures !a.IsBookAction() ==> r == s
  {
    match a
    case AddBook(b) => s.(books := s.books + [b])
    case ToggleReadStatus(id) => s.(books := Toggle(s.books, id))
    case DeleteBook(id) => s.(books := Remove(s.books, id))
    case EditBook(id, d) => s.(books := Edit(s.books, id, d))
    case _ => s
  }

  /** The `filterReducer` of the book app. */
  function ReduceFilter(s: FilterState, a: Action): (r: FilterState)
    ensures a.FilterBooks? ==> r.filter == a.criteria
    ensures !a.FilterBooks? ==> r == s
  {
    match a
    case FilterBooks(criteria) => s.(filter := criteria)
    case _ => s
  }

  /** `rootReducer`: each slice is reduced on its own, neither sees the other. */
  function Reduce(s: State, a: Action): (r: State)
    ensures r.books == ReduceBooks(s.books, a) && r.filter == ReduceFilter(s.filter, a)
    ensures a.IsBookAction() ==> r.filter == s.filter
    ensures a.FilterBooks? ==> r.books == s.books && r.filter.filter == a.criteria
    ensures a.Unrecognised? ==> r == s
  {
    State(ReduceBooks(s.books, a), ReduceFilter(s.filter, a))
  }

  /** Toggling the same id twice restores the list. */
  lemma ToggleInvolution(books: seq<Book>, id: string)
    ensures Toggle(Toggle(books, id), id) == books
  {
    var r := Toggle(Toggle(books, id), id);
    assert forall i :: 0 <= i < |books| ==> r[i] == books[i];
  }

  /** DELETE_BOOK is idempotent. */
  lemma RemoveIdempotent(books: seq<Book>, id: string)
    ensures Remove(Remove(books, id), id) == Remove(books, id)
  {
    Seqs.FilterIdempotent(books, Keeps(id));
  }

  /** Deleting an id no book carries changes nothing. */
  lemma RemoveAbsent(books: seq<Book>, id: string)
    requires forall i :: 0 <= i < |books| ==> books[i].id != id
    ensures Remove(books, id) == books
  {
    Seqs.FilterKeepsAll(books, Keeps(id));
  }

  /**
   Applying the same EDIT_BOOK twice is applying it once, also when the details
   rename the id (then the second edit finds nothing to change).
   */
  lemma EditIdempotent(books: seq<Book>, id: string, d: Details)
    ensures Edit(Edit(books, id, d), id, d) == Edit(books, id, d)
  {
    var once := Edit(books, id, d);
    var twice := Edit(once, id, d);
    forall i | 0 <= i < |books| ensures twice[i] == once[i] {
      if books[i].id == id {
        MergeIdempotent(books[i], d);
      }
    }
  }

  /** Dispatching EDIT_BOOK twice leaves the same state as dispatching it once. */
  lemma EditTwiceIsOnce(s: State, id: string, d: Details)
    ensures Reduce(Reduce(s, EditBook(id, d)), EditBook(id, d)) == Reduce(s, EditBook(id, d))
  {
    EditIdempotent(s.books.books, id, d);
  }

  /**
   Adding a book with an id not yet in use: afterwards exactly one book carries
   that id, it is the last one and unread; the filter slice is untouched.
   */
  lemma AddThenFind(s: State, id: string, title: string, author: string, genre: string)
    requires forall i :: 0 <= i < |s.books.books| ==> s.books.books[i].id != id
    ensures var r := Reduce(s, NewBook(id, title, author, genre));
      && r.filter == s.filter
      && |r.books.books| == |s.books.books| + 1
      && r.books.books[|s.books.books|] == Book(id, title, author, genre, false)
      && forall i :: 0 <= i < |r.books.books| && r.books.books[i].id == id ==> i == |s.books.books|
  {
  }

  /** Actions other than FILTER_BOOKS never change the stored filter. */
  lemma {:induction false} RunKeepsFilter(s: State, actions: seq<Action>)
    requires forall i :: 0 <= i < |actions| ==> !actions[i].FilterBooks?
    ensures Store.Run(Reduce, s, actions).filter == s.filter
    decreases |actions|
  {
    if |actions| > 0 {
      RunKeepsFilter(s, actions[..|actions| - 1]);
    }
  }

  /** The stored filter is exactly the payload of the last FILTER_BOOKS dispatched. */
  lemma LastFilterWins(s: State, before: seq<Action>, criteria: string, after: seq<Action>)
    requires forall i :: 0 <= i < |after| ==> !after[i].FilterBooks?
    ensures Store.Run(Reduce, s, before + [FilterBooks(criteria)] + after).filter.filter == criteria
  {
    var mid := Store.Run(Reduce, s, before + [FilterBooks(criteria)]);
    Store.RunAppend(Reduce, s, before + [FilterBooks(criteria)], after);
    Store.RunAppend(Reduce, s, before, [FilterBooks(criteria)]);
    Store.RunOne(Reduce, Store.Run(Reduce, s, before), FilterBooks(criteria));
    RunKeepsFilter(mid, after);
  }
}
