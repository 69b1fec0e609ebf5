/**
 * The library's persistent state as a value, the read-only queries over it, and one pure
 * function per lifecycle handler giving the state and the response that handler produces.
 * The imperative handlers in BookRoutes are proved to compute exactly these.
 */
module Lifecycle {
  import opened Common
  import opened BorrowRequest

  type RequestId = nat

  /** A book document (only the fields the core reads or writes). */
  datatype Book = Book(title: string, available: bool)

  /** A user document (only the fields the core reads or writes). */
  datatype User = User(name: string, email: string, booksRead: nat, bookmarks: seq<BookId>)

  /** Books and users keyed by id; requests in insertion order, the id of a request being its position. */
  datatype Store = Store(books: map<BookId, Book>, users: map<UserId, User>, requests: seq<Request>)

  /** The JSON reply of a handler, with its HTTP status as the constructor. */
  datatype Response =
    | Ok(message: string)
    | ReturnOk(message: string, booksRead: nat)
    | BadRequest(message: string)
    | NotFound(message: string)
    | ServerError(message: string)

  // The `message` texts of the handlers' replies.
  const AlreadyBookmarkedMsg: string := "Book already bookmarked"
  const BookmarkedMsg: string := "Book bookmarked successfully!"
  const BookUnavailableMsg: string := "Book is not available"
  const BookmarkRemovedMsg: string := "Bookmark removed successfully!"
  const ApprovedMsg: string := "Borrow request approved and email sent!"
  const SubmittedMsg: string := "Borrow request submitted successfully"
  const ApprovalErrorMsg: string := "Error processing approval"
  const ReturnErrorMsg: string := "Error processing return approval"
  const ReturnNotFoundMsg: string := "Return request not found"
  const RequestNotFoundMsg: string := "Request not found"
  const ReturnedMsg: string := "Return request approved, book marked as available, and email sent!"
  const NotApprovedMsg: string := "This book has not been approved for return."
  const UserNotFoundMsg: string := "User not found"

  datatype Step = Step(store: Store, response: Response)

  // ---------------------------------------------------------------- queries

  predicate IsPending(r: Request) { r.status == Pending }

  /** The sweep's filter `{ dueDate: { $lt: now }, returned: false }`; it does not look at the status. */
  predicate IsOverdue(r: Request, now: int) { r.dueDate < now && !r.returned }

  /** The filter of `/overdue/:userId`. */
  predicate IsOverdueFor(r: Request, user: UserId, now: int) { r.user == user && r.dueDate < now && !r.returned }

  /** The filter of `/borrowed/:userId`. */
  predicate IsActiveLoanOf(r: Request, user: UserId) { r.user == user && r.status == Approved && !r.returned }

  /** `/borrowRequests`: the pending requests, in store order. */
  function PendingRequests(s: Store): (ids: seq<RequestId>)
    ensures forall k :: 0 <= k < |ids| ==> ids[k] < |s.requests| && s.requests[ids[k]].status == Pending
    ensures forall i :: 0 <= i < |s.requests| && s.requests[i].status == Pending ==> i in ids
    ensures forall k, l :: 0 <= k < l < |ids| ==> ids[k] < ids[l]
  {
    IndicesWhere(s.requests, IsPending)
  }

  /** The overdue sweep's query: every unreturned request whose due date has passed, in store order. */
  function OverdueRequests(s: Store, now: int): (ids: seq<RequestId>)
    ensures forall k :: 0 <= k < |ids| ==>
      ids[k] < |s.requests| && s.requests[ids[k]].dueDate < now && !s.requests[ids[k]].returned
    ensures forall i :: 0 <= i < |s.requests| && s.requests[i].dueDate < now && !s.requests[i].returned ==> i in ids
    ensures forall k, l :: 0 <= k < l < |ids| ==> ids[k] < ids[l]
  {
    IndicesWhere(s.requests, (r: Request) => IsOverdue(r, now))
  }

  /** `/overdue/:userId`: the user's unreturned requests whose due date has passed, in store order. */
  function OverdueFor(s: Store, user: UserId, now: int): (ids: seq<RequestId>)
    ensures forall k :: 0 <= k < |ids| ==>
      ids[k] < |s.requests| && s.requests[ids[k]].user == user &&
      s.requests[ids[k]].dueDate < now && !s.requests[ids[k]].returned
    ensures forall i :: 0 <= i < |s.requests| && IsOverdueFor(s.requests[i], user, now) ==> i in ids
    ensures forall k, l :: 0 <= k < l < |ids| ==> ids[k] < ids[l]
  {
    IndicesWhere(s.requests, (r: Request) => IsOverdueFor(r, user, now))
  }

  const NoOverdueBooksMsg: string := "No overdue books!"

  /** The reply of `/overdue/:userId`: a message instead of an empty list. */
  datatype OverdueReply = NoOverdueBooks(message: string) | OverdueList(ids: seq<RequestId>)

  function OverdueReplyFor(s: Store, user: UserId, now: int): (r: OverdueReply)
    ensures r.NoOverdueBooks? ==>
      r.message == NoOverdueBooksMsg &&
      forall i :: 0 <= i < |s.requests| ==> !IsOverdueFor(s.requests[i], user, now)
    ensures r.OverdueList? ==>
      r.ids != [] && r.ids == OverdueFor(s, user, now)
  {
    var ids := OverdueFor(s, user, now);
    if ids == [] then NoOverdueBooks(NoOverdueBooksMsg) else OverdueList(ids)
  }

  /** `/borrowed/:userId`: the user's approved, unreturned requests, in store order. */
  function ActiveLoans(s: Store, user: UserId): (ids: seq<RequestId>)
    ensures forall k :: 0 <= k < |ids| ==>
      ids[k] < |s.requests| && s.requests[ids[k]].user == user &&
      s.requests[ids[k]].status == Approved && !s.requests[ids[k]].returned
    ensures forall i :: 0 <= i < |s.requests| && IsActiveLoanOf(s.requests[i], user) ==> i in ids
    ensures forall k, l :: 0 <= k < l < |ids| ==> ids[k] < ids[l]
  {
    IndicesWhere(s.requests, (r: Request) => IsActiveLoanOf(r, user))
  }

  /** A user's overdue list is exactly the part of the sweep's list that belongs to that user. */
  lemma OverdueForIsSweepOfUser(s: Store, user: UserId, now: int, i: RequestId)
    ensures i in OverdueFor(s, user, now) <==>
      i in OverdueRequests(s, now) && s.requests[i].user == user
  {
    var all := OverdueRequests(s, now);
    var mine := OverdueFor(s, user, now);
    if i in mine {
      var k :| 0 <= k < |mine| && mine[k] == i;
      assert IsOverdue(s.requests[i], now);
    }
    if i in all {
      var k :| 0 <= k < |all| && all[k] == i;
      if s.requests[i].user == user {
        assert IsOverdueFor(s.requests[i], user, now);
      }
    }
  }

  // ---------------------------------------------------------------- handlers

  /** `POST /borrow/:bookId`: the book check comes first, then the user check; success appends a pending request. */
  function Borrow(s: Store, user: UserId, book: BookId, now: int): (r: Step)
    ensures (book !in s.books || !s.books[book].available) ==> r == Step(s, BadRequest(BookUnavailableMsg))
    ensures book in s.books && s.books[book].available && user !in s.users ==>
      r == Step(s, NotFound(UserNotFoundMsg))
    ensures book in s.books && s.books[book].available && user in s.users ==>
      && r.response == Ok(SubmittedMsg)
      && r.store.books == s.books && r.store.users == s.users
      && |r.store.requests| == |s.requests| + 1
      && r.store.requests[..|s.requests|] == s.requests
      && var q := r.store.requests[|s.requests|];
         q.user == user && q.book == book && q.status == Pending &&
         q.dueDate == ProvisionalDueDate(now) && !q.returned && q.returnedDate == None
  {
    if book !in s.books || !s.books[book].available then Step(s, BadRequest(BookUnavailableMsg))
    else if user !in s.users then Step(s, NotFound(UserNotFoundMsg))
    else
      assert (s.requests + [New(user, book, now)])[..|s.requests|] == s.requests;
      Step(s.(requests := s.requests + [New(user, book, now)]), Ok(SubmittedMsg))
  }

  /**
   * `POST /approveRequest/:requestId`. No status is checked: any request is approved, its due date
   * overwritten and its book (if it still exists) marked unavailable. The confirmation mail needs the
   * populated user and book; when either is gone the handler fails after the state change.
   */
  function Approve(s: Store, id: RequestId, now: int): (r: Step)
    ensures id >= |s.requests| ==> r == Step(s, NotFound(RequestNotFoundMsg))
    ensures id < |s.requests| ==>
      var q := s.requests[id];
      && |r.store.requests| == |s.requests|
      && r.store.requests[id] == q.(status := Approved, dueDate := ApprovedDueDate(now))
      && (forall j :: 0 <= j < |s.requests| && j != id ==> r.store.requests[j] == s.requests[j])
      && r.store.users == s.users
      && r.store.books.Keys == s.books.Keys
      && (q.book in s.books ==> !r.store.books[q.book].available && r.store.books[q.book].title == s.books[q.book].title)
      && (forall b :: b in s.books && b != q.book ==> r.store.books[b] == s.books[b])
      && (r.response.Ok? <==> q.user in s.users && q.book in s.books)
      && (r.response.Ok? ==> r.response == Ok(ApprovedMsg))
      && (!r.response.Ok? ==> r.response == ServerError(ApprovalErrorMsg))
  {
    if id >= |s.requests| then Step(s, NotFound(RequestNotFoundMsg))
    else
      var q := s.requests[id];
      var requests := s.requests[id := q.(status := Approved, dueDate := ApprovedDueDate(now))];
      var books := if q.book in s.books then s.books[q.book := s.books[q.book].(available := false)] else s.books;
      var after := Store(books, s.users, requests);
      if q.user in s.users && q.book in s.books then Step(after, Ok(ApprovedMsg))
      else Step(after, ServerError(ApprovalErrorMsg))
  }

  /**
   * `POST /approveReturn/:requestId`. Only an approved request is returned; the user's counter is
   * incremented by one. A missing user stops the handler before the increment, a missing book stops
   * it after the increment (both before the confirmation mail).
   */
  function ApproveReturn(s: Store, id: RequestId, now: int): (r: Step)
    ensures id >= |s.requests| ==> r == Step(s, NotFound(ReturnNotFoundMsg))
    ensures id < |s.requests| && s.requests[id].status != Approved ==>
      r == Step(s, BadRequest(NotApprovedMsg))
    ensures id < |s.requests| && s.requests[id].status == Approved ==>
      var q := s.requests[id];
      && |r.store.requests| == |s.requests|
      && r.store.requests[id] == q.(status := Returned, returned := true, returnedDate := Some(now))
      && (forall j :: 0 <= j < |s.requests| && j != id ==> r.store.requests[j] == s.requests[j])
      && r.store.books.Keys == s.books.Keys
      && (q.book in s.books ==> r.store.books[q.book] == s.books[q.book].(available := true))
      && (forall b :: b in s.books && b != q.book ==> r.store.books[b] == s.books[b])
      && r.store.users.Keys == s.users.Keys
      && (q.user in s.users ==> r.store.users[q.user] == s.users[q.user].(booksRead := s.users[q.user].booksRead + 1))
      && (forall u :: u in s.users && u != q.user ==> r.store.users[u] == s.users[u])
      && (r.response.ReturnOk? <==> q.user in s.users && q.book in s.books)
      && (r.response.ReturnOk? ==> r.response.message == ReturnedMsg)
      && (r.response.ReturnOk? ==> r.response.booksRead == s.users[q.user].booksRead + 1)
      && (!r.response.ReturnOk? ==> r.response == ServerError(ReturnErrorMsg))
  {
    if id >= |s.requests| then Step(s, NotFound(ReturnNotFoundMsg))
    else
      var q := s.requests[id];
      if q.status != Approved then Step(s, BadRequest(NotApprovedMsg))
      else
        var requests := s.requests[id := q.(status := Returned, returned := true, returnedDate := Some(now))];
        var books := if q.book in s.books then s.books[q.book := s.books[q.book].(available := true)] else s.books;
        if q.user !in s.users then Step(Store(books, s.users, requests), ServerError(ReturnErrorMsg))
        else
          var counted := s.users[q.user].booksRead + 1;
          var after := Store(books, s.users[q.user := s.users[q.user].(booksRead := counted)], requests);
          if q.book in s.books then Step(after, ReturnOk(ReturnedMsg, counted))
          else Step(after, ServerError(ReturnErrorMsg))
  }

  /** `POST /bookmark/:bookId`: refuses an id already present, otherwise appends it. */
  function AddBookmark(s: Store, user: UserId, book: BookId): (r: Step)
    ensures user !in s.users ==> r == Step(s, NotFound(UserNotFoundMsg))
    ensures user in s.users && book in s.users[user].bookmarks ==> r == Step(s, BadRequest(AlreadyBookmarkedMsg))
    ensures user in s.users && book !in s.users[user].bookmarks ==>
      && r.response == Ok(BookmarkedMsg)
      && r.store.books == s.books && r.store.requests == s.requests
      && r.store.users.Keys == s.users.Keys
      && r.store.users[user] == s.users[user].(bookmarks := s.users[user].bookmarks + [book])
      && (forall u :: u in s.users && u != user ==> r.store.users[u] == s.users[u])
  {
    if user !in s.users then Step(s, NotFound(UserNotFoundMsg))
    else if book in s.users[user].bookmarks then Step(s, BadRequest(AlreadyBookmarkedMsg))
    else
      var u := s.users[user];
      Step(s.(users := s.users[user := u.(bookmarks := u.bookmarks + [book])]), Ok(BookmarkedMsg))
  }

  /** The ids that survive `bookmarks.filter(id => id.toString() !== bookId)`. */
  function Unbookmarked(bookmarks: seq<BookId>, book: BookId): (kept: seq<BookId>)
    ensures book !in kept
    ensures forall b :: b in bookmarks && b != book ==> b in kept
    ensures forall b :: b in kept ==> b in bookmarks
  {
    Filter(bookmarks, (b: BookId) => b != book)
  }

  /** `DELETE /bookmark/:bookId`: drops every occurrence of the id, whether or not it was there. */
  function RemoveBookmark(s: Store, user: UserId, book: BookId): (r: Step)
    ensures user !in s.users ==> r == Step(s, NotFound(UserNotFoundMsg))
    ensures user in s.users ==>
      && r.response == Ok(BookmarkRemovedMsg)
      && r.store.books == s.books && r.store.requests == s.requests
      && r.store.users.Keys == s.users.Keys
      && r.store.users[user] == s.users[user].(bookmarks := Unbookmarked(s.users[user].bookmarks, book))
      && (forall u :: u in s.users && u != user ==> r.store.users[u] == s.users[u])
  {
    if user !in s.users then Step(s, NotFound(UserNotFoundMsg))
    else
      var u := s.users[user];
      Step(s.(users := s.users[user := u.(bookmarks := Unbookmarked(u.bookmarks, book))]), Ok(BookmarkRemovedMsg))
  }

  // ---------------------------------------------------------------- bookmark properties

  /** Adding a bookmark keeps a duplicate-free list duplicate-free. */
  lemma AddBookmarkKeepsNoDuplicates(s: Store, user: UserId, other: UserId, book: BookId)
    requires other in s.users && NoDuplicates(s.users[other].bookmarks)
    ensures other in AddBookmark(s, user, book).store.users
    ensures NoDuplicates(AddBookmark(s, user, book).store.users[other].bookmarks)
  {
    var after := AddBookmark(s, user, book).store;
    if user == other && user in s.users && book !in s.users[user].bookmarks {
      var old_ := s.users[user].bookmarks;
      var new_ := after.users[user].bookmarks;
      assert new_ == old_ + [book];
      forall i, j | 0 <= i < j < |new_| ensures new_[i] != new_[j] {
        if j == |old_| {
          assert new_[i] == old_[i];
        }
      }
    }
  }

  /** Removing a bookmark keeps the other ids in their order: the result is the list with that id filtered out. */
  lemma {:induction false} RemoveBookmarkKeepsOrder(bookmarks: seq<BookId>, book: BookId, prefix: seq<BookId>, suffix: seq<BookId>)
    requires bookmarks == prefix + [book] + suffix
    ensures Unbookmarked(bookmarks, book) == Unbookmarked(prefix, book) + Unbookmarked(suffix, book)
  {
    FilterAppend(prefix + [book], suffix, (b: BookId) => b != book);
    FilterAppend(prefix, [book], (b: BookId) => b != book);
  }

  /** Removing an id that is not bookmarked leaves the list exactly as it was. */
  lemma RemoveAbsentBookmarkChangesNothing(bookmarks: seq<BookId>, book: BookId)
    requires book !in bookmarks
    ensures Unbookmarked(bookmarks, book) == bookmarks
  {
    FilterAll(bookmarks, (b: BookId) => b != book);
  }

  /** Removing a bookmark leaves a list free of that id and keeps a duplicate-free list duplicate-free. */
  lemma RemoveBookmarkKeepsNoDuplicates(bookmarks: seq<BookId>, book: BookId)
    requires NoDuplicates(bookmarks)
    ensures NoDuplicates(Unbookmarked(bookmarks, book))
  {
    FilterKeepsNoDuplicates(bookmarks, (b: BookId) => b != book);
  }
}
