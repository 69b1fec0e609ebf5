/** The borrow request document: its status enum, its default field values and the two due-date policies. */
module BorrowRequest {
  import opened Common

  type UserId = nat
  type BookId = nat

  /** Times are milliseconds since the epoch, as JavaScript `Date` values. */
  const DayMs: int := 24 * 60 * 60 * 1000

  /** The provisional loan length written by the schema default at creation. */
  const StandardLoanMs: int := 15 * DayMs

  /** The loan length written when staff approve a request. */
  const ApprovedLoanMs: int := 14 * DayMs

  /** The schema's status enum; any other string is refused by the schema, so no other value exists. */
  datatype Status = Pending | Approved | Rejected | Returned

  /** One borrow request. Both references are required fields; `returnedDate` is `null` until a return is approved. */
  datatype Request = Request(
    user: UserId,
    book: BookId,
    status: Status,
    dueDate: int,
    returned: bool,
    returnedDate: Option<int>)

  /** Due date written by the schema default: creation time plus 15 days. */
  function ProvisionalDueDate(created: int): (due: int)
    ensures due - created == 15 * 24 * 60 * 60 * 1000
  {
    created + StandardLoanMs
  }

  /** Due date written on approval: approval time plus 14 days. */
  function ApprovedDueDate(approvedAt: int): (due: int)
    ensures due - approvedAt == 14 * 24 * 60 * 60 * 1000
  {
    approvedAt + ApprovedLoanMs
  }

  /** `new BorrowRequest({ book, user, status: "pending" })` at time `now`: every other field takes its schema default. */
  function New(user: UserId, book: BookId, now: int): (r: Request)
    ensures r.user == user && r.book == book
    ensures r.status == Pending
    ensures r.dueDate == now + 15 * 24 * 60 * 60 * 1000
    ensures !r.returned && r.returnedDate == None
  {
    Request(user, book, Pending, ProvisionalDueDate(now), false, None)
  }
}
