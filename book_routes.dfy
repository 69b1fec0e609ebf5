/**
 * The borrow lifecycle routes as imperative handlers over a library whose collections are fields.
 * Each handler is proved to leave exactly the state, and give exactly the reply, of its pure
 * counterpart in Lifecycle, and to hand the transport exactly the confirmation mails given here.
 */
module BookRoutes {
  import opened Common
  import opened BorrowRequest
  import opened Lifecycle
  import opened EmailService

  // The fixed texts of the two confirmation mails.
  const ApprovalSubject: string := "Borrow Request Approved"
  const ApprovalBookLabel: string := ",\n\nYour borrow request for \""
  const ApprovalDueLabel: string := "\" has been approved. Your due date is "
  const ApprovalTail: string := "."
  const ReturnSubject: string := "Book Returned Successfully"
  const ReturnBookLabel: string := ",\n\nYou have successfully returned \""
  const ReturnTail: string := "\". Thank you!\n\n- Library Team"

  function ApprovalMail(u: User, title: string, dueDate: int, cfg: Config): Message {
    Message(u.email, ApprovalSubject, "Dear " + u.name + ApprovalBookLabel + title + ApprovalDueLabel + cfg.dateString(dueDate) + ApprovalTail)
  }

  function ReturnMail(u: User, title: string): Message {
    Message(u.email, ReturnSubject, "Dear " + u.name + ReturnBookLabel + title + ReturnTail)
  }

  /**
   * The mail `/approveRequest` hands the transport: one, to the request's user, naming the book and
   * the new due date, exactly when the handler answers 200; none when it fails.
   */
  function ApprovalSends(s: Store, id: RequestId, now: int, cfg: Config): (ms: seq<Message>)
    ensures |ms| <= 1
    ensures ms != [] <==> Approve(s, id, now).response.Ok?
    ensures ms != [] ==>
      && id < |s.requests| && s.requests[id].user in s.users && s.requests[id].book in s.books
      && ms[0] == ApprovalMail(s.users[s.requests[id].user], s.books[s.requests[id].book].title, ApprovedDueDate(now), cfg)
  {
    if id < |s.requests| && s.requests[id].user in s.users && s.requests[id].book in s.books then
      var q := s.requests[id];
      [ApprovalMail(s.users[q.user], s.books[q.book].title, ApprovedDueDate(now), cfg)]
    else []
  }

  /**
   * The mail `/approveReturn` hands the transport: one, to the request's user, naming the book,
   * exactly when the handler answers 200; none when it refuses or fails.
   */
  function ReturnSends(s: Store, id: RequestId, now: int): (ms: seq<Message>)
    ensures |ms| <= 1
    ensures ms != [] <==> ApproveReturn(s, id, now).response.ReturnOk?
    ensures ms != [] ==>
      && id < |s.requests| && s.requests[id].status == Approved
      && s.requests[id].user in s.users && s.requests[id].book in s.books
      && ms[0] == ReturnMail(s.users[s.requests[id].user], s.books[s.requests[id].book].title)
  {
    if id < |s.requests| && s.requests[id].status == Approved && s.requests[id].user in s.users && s.requests[id].book in s.books then
      var q := s.requests[id];
      [ReturnMail(s.users[q.user], s.books[q.book].title)]
    else []
  }

  /** The Book, User and BorrowRequest collections, and the mail service the handlers call. */
  class Library {
    var books: map<BookId, Book>
    var users: map<UserId, User>
    var requests: seq<Request>
    const mailer: Mailer

    ghost predicate Valid()
      reads this, mailer
    {
      mailer.Valid()
    }

    /** The collections as one value. */
    function State(): Store
      reads this
    {
      Store(books, users, requests)
    }

    constructor (s: Store, mailer: Mailer)
      requires mailer.Valid()
      ensures Valid()
      ensures State() == s && this.mailer == mailer
    {
      books := s.books;
      users := s.users;
      requests := s.requests;
      this.mailer := mailer;
    }

    /** `POST /borrow/:bookId` by `user` at `now`. Sends no mail. */
    method Borrow(user: UserId, book: BookId, now: int) returns (resp: Response)
      modifies this
      ensures State() == Lifecycle.Borrow(old(State()), user, book, now).store
      ensures resp == Lifecycle.Borrow(old(State()), user, book, now).response
    {
      if book !in books || !books[book].available {
        return BadRequest(BookUnavailableMsg);
      }
      if user !in users {
        return NotFound(UserNotFoundMsg);
      }
      var request := New(user, book, now);
      requests := requests + [request];
      return Ok(SubmittedMsg);
    }

    /** `POST /approveRequest/:requestId` at `now`. */
    method ApproveRequest(id: RequestId, now: int) returns (resp: Response)
      requires Valid()
      modifies this, mailer
      ensures Valid()
      ensures State() == Approve(old(State()), id, now).store
      ensures resp == Approve(old(State()), id, now).response
      ensures mailer.attempts == old(mailer.attempts) + Stamp(ApprovalSends(old(State()), id, now, mailer.config), now)
    {
      if id >= |requests| {
        return NotFound(RequestNotFoundMsg);
      }
      // The request as populated: its user and book documents, if they still exist.
      var request := requests[id];
      var patron := if request.user in users then Some(users[request.user]) else None;
      var title := if request.book in books then Some(books[request.book].title) else None;
      request := request.(status := Approved, dueDate := ApprovedDueDate(now));
      if request.book in books {
        books := books[request.book := books[request.book].(available := false)];
      }
      requests := requests[id := request];
      if patron.None? || title.None? {
        // `request.user.email` or `request.book.title` throws before the mail is sent.
        return ServerError(ApprovalErrorMsg);
      }
      var m := ApprovalMail(patron.value, title.value, request.dueDate, mailer.config);
      mailer.SendEmail(m.to, m.subject, m.text, now);
      return Ok(ApprovedMsg);
    }

    /** `POST /approveReturn/:requestId` at `now`. */
    method ApproveReturn(id: RequestId, now: int) returns (resp: Response)
      requires Valid()
      modifies this, mailer
      ensures Valid()
      ensures State() == Lifecycle.ApproveReturn(old(State()), id, now).store
      ensures resp == Lifecycle.ApproveReturn(old(State()), id, now).response
      ensures mailer.attempts == old(mailer.attempts) + Stamp(ReturnSends(old(State()), id, now), now)
    {
      if id >= |requests| {
        return NotFound(ReturnNotFoundMsg);
      }
      var request := requests[id];
      if request.status != Approved {
        return BadRequest(NotApprovedMsg);
      }
      var patron := if request.user in users then Some(users[request.user]) else None;
      var title := if request.book in books then Some(books[request.book].title) else None;
      request := request.(status := Returned, returned := true, returnedDate := Some(now));
      if request.book in books {
        books := books[request.book := books[request.book].(available := true)];
      }
      requests := requests[id := request];
      if patron.None? {
        // `request.user._id` throws before the counter is touched.
        return ServerError(ReturnErrorMsg);
      }
      var counted := users[request.user].booksRead + 1;
      users := users[request.user := users[request.user].(booksRead := counted)];
      if title.None? {
        // `request.book.title` throws before the mail is sent.
        return ServerError(ReturnErrorMsg);
      }
      var m := ReturnMail(patron.value, title.value);
      mailer.SendEmail(m.to, m.subject, m.text, now);
      return ReturnOk(ReturnedMsg, counted);
    }

    /** `POST /bookmark/:bookId` by `user`. Sends no mail. */
    method AddBookmark(user: UserId, book: BookId) returns (resp: Response)
      modifies this
      ensures State() == Lifecycle.AddBookmark(old(State()), user, book).store
      ensures resp == Lifecycle.AddBookmark(old(State()), user, book).response
    {
      if user !in users {
        return NotFound(UserNotFoundMsg);
      }
      var u := users[user];
      if book in u.bookmarks {
        return BadRequest(AlreadyBookmarkedMsg);
      }
      u := u.(bookmarks := u.bookmarks + [book]);
      users := users[user := u];
      return Ok(BookmarkedMsg);
    }

    /** `DELETE /bookmark/:bookId` by `user`. Sends no mail. */
    method RemoveBookmark(user: UserId, book: BookId) returns (resp: Response)
      modifies this
      ensures State() == Lifecycle.RemoveBookmark(old(State()), user, book).store
      ensures resp == Lifecycle.RemoveBookmark(old(State()), user, book).response
    {
      if user !in users {
        return NotFound(UserNotFoundMsg);
      }
      var u := users[user];
      u := u.(bookmarks := Unbookmarked(u.bookmarks, book));
      users := users[user := u];
      return Ok(BookmarkRemovedMsg);
    }
  }
}
