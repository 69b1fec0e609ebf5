/**
 * Properties of sequences of lifecycle handler calls: the invariants the handlers keep, the
 * booksRead counter, the idempotence of a return, and the intended availability invariant the
 * handlers do not keep.
 */
module LifecycleProperties {
  import opened Common
  import opened BorrowRequest
  import opened Lifecycle

  /** One handler call with its arguments. */
  datatype Op =
    | BorrowOp(user: UserId, book: BookId)
    | ApproveOp(id: RequestId)
    | ReturnOp(id: RequestId)
    | BookmarkOp(user: UserId, book: BookId)
    | UnbookmarkOp(user: UserId, book: BookId)

  /** A handler call and the time at which it runs. */
  datatype Call = Call(op: Op, at: int)

  function Apply(s: Store, c: Call): Step {
    match c.op
    case BorrowOp(user, book) => Borrow(s, user, book, c.at)
    case ApproveOp(id) => Approve(s, id, c.at)
    case ReturnOp(id) => ApproveReturn(s, id, c.at)
    case BookmarkOp(user, book) => AddBookmark(s, user, book)
    case UnbookmarkOp(user, book) => RemoveBookmark(s, user, book)
  }

  datatype Trace = Trace(store: Store, responses: seq<Response>)

  /** The calls run one after the other from `s`: the final store and each call's response. */
  function Run(s: Store, calls: seq<Call>): (t: Trace)
    ensures |t.responses| == |calls|
    decreases |calls|
  {
    if calls == [] then Trace(s, [])
    else
      var step := Apply(s, calls[0]);
      var rest := Run(step.store, calls[1..]);
      Trace(rest.store, [step.response] + rest.responses)
  }

  // ---------------------------------------------------------------- invariants

  /** Every request names a user and a book that exist (both references are required, and Borrow checks both). */
  ghost predicate ReferencesResolve(s: Store) {
    forall i :: 0 <= i < |s.requests| ==> s.requests[i].user in s.users && s.requests[i].book in s.books
  }

  /** `returned` and `returnedDate` are set together, and a request in status returned is flagged returned. */
  ghost predicate ReturnFieldsAgree(s: Store) {
    forall i :: 0 <= i < |s.requests| ==>
      (s.requests[i].returned <==> s.requests[i].returnedDate.Some?) &&
      (s.requests[i].status == Returned ==> s.requests[i].returned)
  }

  /** No handler forgets a request, a user or a book, or changes whom or what a request refers to. */
  lemma ApplyKeepsIdentities(s: Store, c: Call, i: RequestId)
    ensures s.users.Keys <= Apply(s, c).store.users.Keys
    ensures s.books.Keys <= Apply(s, c).store.books.Keys
    ensures |s.requests| <= |Apply(s, c).store.requests|
    ensures i < |s.requests| ==>
      Apply(s, c).store.requests[i].user == s.requests[i].user &&
      Apply(s, c).store.requests[i].book == s.requests[i].book
  {
  }

  lemma ApplyKeepsReferencesResolve(s: Store, c: Call)
    requires ReferencesResolve(s)
    ensures ReferencesResolve(Apply(s, c).store)
  {
    var t := Apply(s, c).store;
    forall i | 0 <= i < |t.requests| ensures t.requests[i].user in t.users && t.requests[i].book in t.books {
      ApplyKeepsIdentities(s, c, i);
      if c.op.BorrowOp? && i == |s.requests| {
        assert t.requests[i].user == c.op.user && t.requests[i].book == c.op.book;
      }
    }
  }

  lemma ApplyKeepsReturnFieldsAgree(s: Store, c: Call)
    requires ReturnFieldsAgree(s)
    ensures ReturnFieldsAgree(Apply(s, c).store)
  {
    var t := Apply(s, c).store;
    forall i | 0 <= i < |t.requests|
      ensures (t.requests[i].returned <==> t.requests[i].returnedDate.Some?) &&
              (t.requests[i].status == Returned ==> t.requests[i].returned)
    {
      if c.op.BorrowOp? && i == |s.requests| {
      } else {
        assert i < |s.requests|;
      }
    }
  }

  /** While every reference resolves, approving and returning never end in the catch-all failure. */
  lemma NoServerErrorWhileReferencesResolve(s: Store, c: Call)
    requires ReferencesResolve(s)
    ensures !Apply(s, c).response.ServerError?
  {
  }

  lemma {:induction false} RunKeepsIdentities(s: Store, calls: seq<Call>, i: RequestId)
    ensures s.users.Keys <= Run(s, calls).store.users.Keys
    ensures |s.requests| <= |Run(s, calls).store.requests|
    ensures i < |s.requests| ==> Run(s, calls).store.requests[i].user == s.requests[i].user
    decreases |calls|
  {
    if calls != [] {
      ApplyKeepsIdentities(s, calls[0], i);
      RunKeepsIdentities(Apply(s, calls[0]).store, calls[1..], i);
    }
  }

  lemma {:induction false} RunKeepsReferencesResolve(s: Store, calls: seq<Call>)
    requires ReferencesResolve(s)
    ensures ReferencesResolve(Run(s, calls).store)
    decreases |calls|
  {
    if calls != [] {
      ApplyKeepsReferencesResolve(s, calls[0]);
      RunKeepsReferencesResolve(Apply(s, calls[0]).store, calls[1..]);
    }
  }

  // ---------------------------------------------------------------- booksRead

  /** How many of the calls were successful return approvals of a request of `user` (requests looked up in `final`). */
  function ReturnsOf(calls: seq<Call>, responses: seq<Response>, final: Store, user: UserId): nat
    requires |calls| == |responses|
    decreases |calls|
  {
    if calls == [] then 0
    else
      var c := calls[0].op;
      (if c.ReturnOp? && responses[0].ReturnOk? && c.id < |final.requests| && final.requests[c.id].user == user then 1 else 0)
      + ReturnsOf(calls[1..], responses[1..], final, user)
  }

  /** Each successful return approval adds exactly one to its user's booksRead, and nothing else changes it. */
  lemma {:induction false} BooksReadCountsReturns(s: Store, calls: seq<Call>, user: UserId)
    requires ReferencesResolve(s) && user in s.users
    ensures var t := Run(s, calls);
      user in t.store.users &&
      t.store.users[user].booksRead == s.users[user].booksRead + ReturnsOf(calls, t.responses, t.store, user)
    decreases |calls|
  {
    if calls != [] {
      var step := Apply(s, calls[0]);
      var rest := Run(step.store, calls[1..]);
      var t := Run(s, calls);
      assert t.store == rest.store && t.responses == [step.response] + rest.responses;
      assert t.responses[1..] == rest.responses;
      ApplyKeepsReferencesResolve(s, calls[0]);
      ApplyKeepsIdentities(s, calls[0], user);
      BooksReadCountsReturns(step.store, calls[1..], user);
      var c := calls[0].op;
      if c.ReturnOp? && c.id < |s.requests| {
        RunKeepsIdentities(step.store, calls[1..], c.id);
        ApplyKeepsIdentities(s, calls[0], c.id);
      }
      if c.ReturnOp? && step.response.ReturnOk? {
        RunKeepsIdentities(step.store, calls[1..], c.id);
      }
    }
  }

  // ---------------------------------------------------------------- idempotence of a return

  /** A second return approval of the same request changes nothing and does not succeed. */
  lemma ReturnIsIdempotent(s: Store, id: RequestId, first: int, second: int)
    ensures var once := ApproveReturn(s, id, first);
      var twice := ApproveReturn(once.store, id, second);
      twice.store == once.store &&
      (twice.response == NotFound(ReturnNotFoundMsg) ||
       twice.response == BadRequest(NotApprovedMsg))
  {
  }

  /**
   * Approval overwrites the provisional due date: whenever the request was submitted, once it is
   * approved it is due 14 days after the approval, which is one day before the provisional date
   * when both happen at the same instant.
   */
  lemma ApprovalOverridesProvisionalDueDate(s: Store, user: UserId, book: BookId, submitted: int, approved: int)
    requires Borrow(s, user, book, submitted).response.Ok?
    ensures var id := |s.requests|;
      var pending := Borrow(s, user, book, submitted).store;
      var after := Approve(pending, id, approved).store;
      && id < |pending.requests| && id < |after.requests|
      && pending.requests[id].dueDate == submitted + StandardLoanMs
      && after.requests[id].status == Approved
      && after.requests[id].dueDate == approved + ApprovedLoanMs
      && (approved == submitted ==> pending.requests[id].dueDate - after.requests[id].dueDate == DayMs)
  {
  }

  // ---------------------------------------------------------------- what the handlers do not keep

  /**
   * The sweep does not look at the status: a request nobody approved still reaches it once its
   * provisional due date has passed.
   */
  lemma UnapprovedRequestIsSwept(s: Store, user: UserId, book: BookId, created: int, now: int)
    requires Borrow(s, user, book, created).response.Ok?
    requires now > created + StandardLoanMs
    ensures var after := Borrow(s, user, book, created).store;
      |s.requests| < |after.requests| && after.requests[|s.requests|].status == Pending &&
      |s.requests| in OverdueRequests(after, now) && |s.requests| in PendingRequests(after)
  {
  }

  /** The intended availability invariant: a book is unavailable exactly when one of its requests is an open approved loan. */
  ghost predicate AvailabilityMatchesLoans(s: Store) {
    forall b :: b in s.books ==>
      (!s.books[b].available <==>
        exists i :: 0 <= i < |s.requests| && s.requests[i].book == b && s.requests[i].status == Approved && !s.requests[i].returned)
  }

  function OneBookOneUser(): Store {
    Store(map[0 := Book("Dune", true)], map[0 := User("Ada", "ada@example.org", 0, [])], [])
  }

  /** Two borrow requests for one book, both approved, then one of them returned. */
  function TwoApprovalsOneReturn(): seq<Call> {
    [Call(BorrowOp(0, 0), 0), Call(BorrowOp(0, 0), 1), Call(ApproveOp(0), 2), Call(ApproveOp(1), 3), Call(ReturnOp(0), 4)]
  }

  /** Because approval checks neither status nor availability, the book reads as available while a loan of it is still out. */
  lemma UnguardedApprovalBreaksAvailability()
    ensures AvailabilityMatchesLoans(OneBookOneUser())
    ensures var t := Run(OneBookOneUser(), TwoApprovalsOneReturn());
      && t.responses == [
        Ok(SubmittedMsg), Ok(SubmittedMsg),
        Ok(ApprovedMsg), Ok(ApprovedMsg),
        ReturnOk(ReturnedMsg, 1)]
      && t.store.books[0].available
      && t.store.requests[1].status == Approved && !t.store.requests[1].returned
      && !AvailabilityMatchesLoans(t.store)
  {
    var s0 := OneBookOneUser();
    var calls := TwoApprovalsOneReturn();
    var book := Book("Dune", true);
    var users := map[0 := User("Ada", "ada@example.org", 0, [])];
    var pending0 := New(0, 0, 0);
    var pending1 := New(0, 0, 1);
    var s1 := Store(map[0 := book], users, [pending0]);
    assert Apply(s0, calls[0]) == Step(s1, Ok(SubmittedMsg));
    var s2 := s1.(requests := [pending0, pending1]);
    assert Apply(s1, calls[1]) == Step(s2, Ok(SubmittedMsg));
    var loan0 := pending0.(status := Approved, dueDate := ApprovedDueDate(2));
    var s3 := Store(map[0 := book.(available := false)], users, [loan0, pending1]);
    assert Apply(s2, calls[2]) == Step(s3, Ok(ApprovedMsg));
    var loan1 := pending1.(status := Approved, dueDate := ApprovedDueDate(3));
    var s4 := s3.(requests := [loan0, loan1]);
    assert Apply(s3, calls[3]) == Step(s4, Ok(ApprovedMsg));
    var done0 := loan0.(status := Returned, returned := true, returnedDate := Some(4));
    var s5 := Store(map[0 := book], map[0 := User("Ada", "ada@example.org", 1, [])], [done0, loan1]);
    var last := ReturnOk(ReturnedMsg, 1);
    assert Apply(s4, calls[4]) == Step(s5, last);
    assert Run(s4, calls[4..]) == Trace(s5, [last]);
    assert calls[3..][1..] == calls[4..];
    assert Run(s3, calls[3..]).store == s5;
    assert calls[2..][1..] == calls[3..];
    assert Run(s2, calls[2..]).store == s5;
    assert calls[1..][1..] == calls[2..];
    assert Run(s1, calls[1..]).store == s5;
    assert Run(s0, calls).store == s5;
    assert !AvailabilityMatchesLoans(s5) by {
      assert 0 in s5.books && s5.books[0].available;
      assert s5.requests[1].book == 0 && s5.requests[1].status == Approved && !s5.requests[1].returned;
    }
  }

  /** A returned request can be approved again and returned again, counting the same loan twice in booksRead. */
  lemma ReapprovalCountsALoanTwice(s: Store, id: RequestId, t1: int, t2: int, t3: int)
    requires id < |s.requests| && s.requests[id].status == Approved
    requires ReferencesResolve(s)
    ensures var t := Run(s, [Call(ReturnOp(id), t1), Call(ApproveOp(id), t2), Call(ReturnOp(id), t3)]);
      var user := s.requests[id].user;
      && t.responses[0].ReturnOk? && t.responses[1].Ok? && t.responses[2].ReturnOk?
      && user in t.store.users
      && t.store.users[user].booksRead == s.users[user].booksRead + 2
      && |t.store.requests| == |s.requests|
      && t.store.requests[id].status == Returned && t.store.requests[id].returned
  {
    var calls := [Call(ReturnOp(id), t1), Call(ApproveOp(id), t2), Call(ReturnOp(id), t3)];
    var user := s.requests[id].user;
    var step1 := Apply(s, calls[0]);
    var step2 := Apply(step1.store, calls[1]);
    var step3 := Apply(step2.store, calls[2]);
    assert step1.response.ReturnOk? && step1.store.users[user].booksRead == s.users[user].booksRead + 1;
    assert step2.response.Ok? && step2.store.requests[id].status == Approved;
    assert step3.response.ReturnOk? && step3.store.users[user].booksRead == s.users[user].booksRead + 2;
    assert calls[1..][1..][1..] == [];
    assert Run(step2.store, calls[1..][1..]) == Trace(step3.store, [step3.response]);
    assert Run(step1.store, calls[1..]) == Trace(step3.store, [step2.response, step3.response]);
    assert Run(s, calls) == Trace(step3.store, [step1.response, step2.response, step3.response]);
  }
}
