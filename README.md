# LibMaster borrow lifecycle and notification engine, in Dafny

This project models the part of the LibMaster library server that runs a borrow request from
submission to return, together with the mail service behind it:

- **the borrow request document** (`models/borrowrequest.js`): a status enum, a 15-day provisional due date
  written at creation, a `returned` flag and a `returnedDate` that starts out null;
- **the lifecycle routes** (`routes/bookroutes.js`, lines 95-282). These are borrow, approve, approve-return, the pending list,
  a user's overdue and borrowed lists, and adding or removing a bookmark;
- **the mail service** (`emailService.js`). It has three parts:
  - `sendEmail` calls the transport and writes an `EmailLog` record only when the call succeeded;
  - the overdue sweep sends one notice per overdue request and then a digest to the administrator;
  - the daily summary reports everything logged since local midnight.

The model has three layers:

- `Lifecycle` holds the state as a value (`Store`: books and users keyed by id, with requests in
  insertion order, so a request's id is its position). It gives one pure function per handler,
  returning the new store and the reply. Their contracts state every branch: which check answers
  first, what each field becomes and what stays unchanged.
- `BookRoutes.Library` is a class with the three collections as fields plus a `Mailer`. Its
  imperative handlers update those fields step by step, in the order the routes do. Each is proved
  to leave the pure function's store, to give its reply, and to hand the transport exactly the
  confirmation mail of `ApprovalSends` or `ReturnSends`.
- `EmailService.Mailer` keeps every call made into the transport (`attempts`) and the `EmailLog`
  collection (`log`). Its invariant is that the log holds exactly the delivered calls, in call order.
  The sweep and the summary are proved to produce exactly the messages of the reference functions
  `SweepSends` and `SummarySends`. Lemmas then say what those messages are.

Whether a transport call delivers is an oracle `delivers: nat -> bool`, indexed by the call's
number. Date rendering (`toDateString`, `toLocaleString`), the local zone offset, and the
`ADMIN_EMAIL` variable (`""` when unset) are fields of a `Config` value.

The model follows the code where it differs from the intended behaviour:

- Approval checks neither the status nor the availability. `UnguardedApprovalBreaksAvailability`
  shows that the intended invariant "a book is unavailable exactly when it has an open approved
  loan" does not survive two approvals and one return on the same book.
  `ReapprovalCountsALoanTwice` shows that a returned request can be approved and returned again,
  so `booksRead` counts one loan twice.
- A request starts with a 15-day due date; it is not unset. The sweep's query looks only at
  `returned` and the due date, so a request nobody approved is swept too
  (`UnapprovedRequestIsSwept`).
- In the sweep, a deleted user, or a deleted book of a user who has an email, does not just skip:
  the property access throws, the loop stops there and no digest is sent
  (`MissingDocumentStopsSweep`). A user with an empty email is skipped before the book is read,
  so that request is skipped even when its book is gone (`NoEmailIsSkipped`).
- The ledger holds only delivered mails (`Mailer.Valid`, `FailedCallsLeaveNoTrace`), and the
  handlers still answer "email sent!" when the transport failed.

## Model

| member | source | states |
|---|---|---|
| BorrowRequest.ProvisionalDueDate | models/borrowrequest.js:7-12 | the default due date is exactly 15 days (in ms) after creation |
| BorrowRequest.ApprovedDueDate | routes/bookroutes.js:123 | the approved due date is exactly 14 days (in ms) after approval |
| BorrowRequest.New | models/borrowrequest.js:3-15 | a new request has the given user and book, is pending, is due 15 days later, is not returned and has no return date |
| Lifecycle.PendingRequests | routes/bookroutes.js:201-208 | the ids listed are exactly the pending requests, in insertion order (the model's choice of order) |
| Lifecycle.OverdueRequests | emailService.js:33-36 | the ids listed are exactly the unreturned requests whose due date is before `now`, whatever their status, in insertion order (the model's choice of order) |
| Lifecycle.OverdueFor | routes/bookroutes.js:210-229 | the ids listed are exactly that user's unreturned requests past their due date, in insertion order (the model's choice of order) |
| Lifecycle.OverdueReplyFor | routes/bookroutes.js:221-225 | when the user has no overdue request the reply is the message "No overdue books!"; otherwise it is the non-empty overdue list |
| Lifecycle.ActiveLoans | routes/bookroutes.js:231-244 | the ids listed are exactly that user's approved, unreturned requests, in insertion order (the model's choice of order) |
| Lifecycle.OverdueForIsSweepOfUser | routes/bookroutes.js:215-219 | a request is on a user's overdue list if and only if it is in the sweep's query and belongs to that user |
| Lifecycle.Borrow | routes/bookroutes.js:95-113 | a missing or unavailable book gives 400 and no change; then a missing user gives 404 and no change; otherwise one pending request is appended with a 15-day due date, availability is untouched, and the reply is 200 |
| Lifecycle.Approve | routes/bookroutes.js:115-143 | an unknown id gives 404; any other request, whatever its status, becomes approved, due 14 days after `now`, and its book (if it exists) becomes unavailable. Nothing else changes. The reply is 200 "Borrow request approved and email sent!" if and only if both the user and the book exist, otherwise the catch-all 500 |
| Lifecycle.ApproveReturn | routes/bookroutes.js:145-199 | an unknown id gives 404, and a status other than approved gives 400, both with no change; otherwise the request is returned with `returnedDate = now`, its book becomes available and its user's booksRead goes up by one. The reply is 200 with the return message and the new count if and only if the user and the book exist, otherwise 500 |
| Lifecycle.AddBookmark | routes/bookroutes.js:246-265 | a missing user gives 404; an id already bookmarked gives 400 with no change; otherwise the id is appended to that user's list only |
| Lifecycle.Unbookmarked | routes/bookroutes.js:275 | the id is gone from the result, every other bookmarked id stays, and no id is added |
| Lifecycle.RemoveBookmark | routes/bookroutes.js:267-282 | a missing user gives 404; otherwise 200, whether or not the id was there, and only that user's list changes, to the filtered list |
| Lifecycle.AddBookmarkKeepsNoDuplicates | routes/bookroutes.js:254-258 | thanks to the `includes` check, no user's bookmark list ever gets a duplicate from adding |
| Lifecycle.RemoveBookmarkKeepsOrder | routes/bookroutes.js:275 | removing an id keeps the ids before and after it in their order |
| Lifecycle.RemoveAbsentBookmarkChangesNothing | routes/bookroutes.js:275 | removing an id that is not bookmarked leaves the list identical |
| Lifecycle.RemoveBookmarkKeepsNoDuplicates | routes/bookroutes.js:275 | removing keeps a duplicate-free list duplicate-free |
| LifecycleProperties.Run | routes/bookroutes.js:95-282 | a sequence of handler calls yields one reply per call |
| LifecycleProperties.ApplyKeepsIdentities | routes/bookroutes.js:95-282 | no handler deletes a book, a user or a request, or changes whom or what a request refers to |
| LifecycleProperties.ApplyKeepsReferencesResolve | routes/bookroutes.js:100-106 | if every request's user and book exist, that remains so after any handler call, since borrow checks both before creating a request |
| LifecycleProperties.ApplyKeepsReturnFieldsAgree | routes/bookroutes.js:158-160 | after any handler call, `returned` is still set exactly when `returnedDate` is, and a request in status returned still has `returned` set |
| LifecycleProperties.NoServerErrorWhileReferencesResolve | routes/bookroutes.js:115-199 | while every reference resolves, no handler reaches the catch-all 500 |
| LifecycleProperties.RunKeepsIdentities | routes/bookroutes.js:95-282 | over any sequence of calls, users and requests are never lost and a request's user never changes |
| LifecycleProperties.RunKeepsReferencesResolve | routes/bookroutes.js:100-106 | over any sequence of calls, references that resolve keep resolving |
| LifecycleProperties.BooksReadCountsReturns | routes/bookroutes.js:172-176 | from a state where every request's user and book exist (every handler keeps this, `RunKeepsReferencesResolve`), after any sequence of calls a user's booksRead equals its start value plus the number of successful return approvals of that user's requests. With a deleted book, a return that answers 500 still counts, so this equality needs the condition |
| LifecycleProperties.ReturnIsIdempotent | routes/bookroutes.js:154-156 | a second return approval of the same request leaves the store unchanged and answers 404 or 400 |
| LifecycleProperties.ApprovalOverridesProvisionalDueDate | routes/bookroutes.js:122-123 | a request submitted at any time and then approved is approved and due 14 days after the approval, overwriting its 15-day provisional date, which it undercuts by one day when both happen at once |
| LifecycleProperties.UnapprovedRequestIsSwept | emailService.js:33-36 | a request just submitted is still pending, and once 15 days have passed it is both in the pending list and in the sweep's overdue set |
| LifecycleProperties.UnguardedApprovalBreaksAvailability | routes/bookroutes.js:122-129 | from a state that satisfies the availability invariant, two approvals and one return on the same book leave it available while the other approved loan is still open |
| LifecycleProperties.ReapprovalCountsALoanTwice | routes/bookroutes.js:115-176 | from an approved request, in a state where every request's user and book exist: return, approve again, return again all succeed, the request ends returned and its user's booksRead has risen by two |
| EmailService.Logged | emailService.js:17-26 | the ledger a run of transport calls leaves has at most one record per call |
| EmailService.LoggedAppend | emailService.js:19-21 | one more transport call adds exactly its record to the ledger when it delivers, and nothing when it fails |
| EmailService.FailedCallsLeaveNoTrace | emailService.js:23-25 | when every later transport call fails, the ledger stays as it was |
| EmailService.OverdueEntries | emailService.js:33-36 | entry k is request k of the sweep's query with its user and book populated (None when deleted), and is due before `now` |
| EmailService.Emailable | emailService.js:44 | only entries whose user exists and has an email are written to; when no entry makes the loop throw, each of them has its book too |
| EmailService.NoticesFor | emailService.js:46-48 | one notice per entry, in order, each to that user, naming that user, the title and the rendered due date |
| EmailService.RosterFor | emailService.js:49 | one roster line `name (email)` per entry, in order |
| EmailService.Notices | emailService.js:43-50 | the loop sends at most one notice per entry, and exactly one roster line per notice |
| EmailService.SweepSends | emailService.js:38-58 | with no overdue request, exactly the admin's "no overdue books" message; otherwise at most one message per request plus one. Its content is stated by the lemmas below |
| EmailService.NoticesWhenResolved | emailService.js:43-50 | when no entry makes the loop throw (every user exists, and every book of a user with an email), the loop sends exactly the notices of the users with an email, in query order, lists exactly them, and does not abort; entries of users without an email are skipped even when their book is gone |
| EmailService.SweepWhenResolved | emailService.js:38-58 | under the same condition, the sweep sends the admin message if nothing is overdue; otherwise it sends the notices in query order followed by one digest listing exactly those users, or nothing at all when nobody has an email |
| EmailService.SweepAllEmailable | emailService.js:43-58 | with every overdue user reachable by email, one notice per overdue request in order, then the digest of all of them |
| EmailService.SweepNobodyEmailable | emailService.js:44-58 | when every overdue user exists and none has an email, the sweep sends nothing, not even to the administrator, whether or not the books exist |
| EmailService.AbortIsFinal | emailService.js:59-61 | once a property access has thrown, later requests change nothing |
| EmailService.NoEmailIsSkipped | emailService.js:44 | a request whose user has an empty email changes nothing, even when its book is gone |
| EmailService.MissingDocumentStopsSweep | emailService.js:44-46 | a request whose user is gone, or whose book is gone while its user has an email, ends the sweep there: only the notices before it are sent, and no digest |
| EmailService.StartOfDay | emailService.js:69-70 | the result is a local midnight (a whole number of days in the zone's clock) and the last one not after `now` |
| EmailService.Window | emailService.js:72 | exactly the ledger records dated at or after the given instant |
| EmailService.SummarySends | emailService.js:64-98 | no admin address means no mail; otherwise exactly one mail to the admin with the summary subject |
| EmailService.SummaryIgnoresOlderRecords | emailService.js:69-72 | records older than local midnight, added before or after the log, do not change the summary |
| EmailService.SummaryReport | emailService.js:74-94 | with nothing logged today the text is "No emails were sent today."; otherwise each of today's records appears as its block verbatim, between the blocks before and after it, in ledger order |
| EmailService.Mailer.SendEmail | emailService.js:17-26 | records one transport call; the ledger gains that mail, stamped `now`, exactly when the call delivers; the invariant is kept |
| EmailService.Mailer.SendOverdueEmails | emailService.js:28-62 | the transport calls made are exactly `SweepSends` of the store's overdue entries, stamped `now`, and the ledger keeps its invariant |
| EmailService.Mailer.NotifyOverdue | emailService.js:43-50 | the loop's calls, roster and abort flag are exactly those of `Notices` |
| EmailService.Mailer.SendAdminSummary | emailService.js:64-98 | the transport calls made are exactly `SummarySends` of the ledger as it stood |
| BookRoutes.ApprovalSends | routes/bookroutes.js:133-137 | one mail, to the request's user, naming the book and the new due date, exactly when approval answers 200 |
| BookRoutes.ReturnSends | routes/bookroutes.js:184-188 | one mail, to the request's user, naming the book, exactly when return approval answers 200 |
| BookRoutes.Library.Borrow | routes/bookroutes.js:95-113 | the new fields and the reply are those of `Lifecycle.Borrow` |
| BookRoutes.Library.ApproveRequest | routes/bookroutes.js:115-143 | the new fields and the reply are those of `Lifecycle.Approve`; the transport gets exactly `ApprovalSends` |
| BookRoutes.Library.ApproveReturn | routes/bookroutes.js:145-199 | the new fields and the reply are those of `Lifecycle.ApproveReturn`; the transport gets exactly `ReturnSends` |
| BookRoutes.Library.AddBookmark | routes/bookroutes.js:246-265 | the new fields and the reply are those of `Lifecycle.AddBookmark` |
| BookRoutes.Library.RemoveBookmark | routes/bookroutes.js:267-282 | the new fields and the reply are those of `Lifecycle.RemoveBookmark` |

## Left out

- Result order: none of the queries sorts, so MongoDB promises no order for the pending list, the overdue and borrowed lists, the sweep, or the summary's EmailLog query. The model returns requests and log records in insertion order. Wherever a contract or a row here speaks of insertion, store, query or ledger order, that is this choice of the model, not a promise of the source.
- Lifecycle.Approve: when the request's user or book has been deleted, the model assumes `request.save()` succeeds on the populated document and only the later property access throws. So the request is saved as approved before the 500 reply. This relies on Mongoose's required validator checking the stored id of a populated path that came back null; a failing save is not modelled.
- Lifecycle.ApproveReturn: the same assumption for its own `request.save()`. With a deleted user or book, the request is saved as returned; with a deleted book, booksRead is still incremented before the 500 reply. A failing save is not modelled.

- Book upload, the book list, the bookmark list and the test routes of `routes/bookroutes.js`, and all of `routes/authroutes.js`, are not part of this model.
- The schedule in `index.js` that fires the sweep and the summary is not part of this model; both are methods that can be called at any time.
- Persistence failures are not modelled; the store's reads and writes always succeed. So the catch-all 500 of each route appears only where a deleted user or book makes a property access throw, and the `error` text of a 500 reply is not modelled.
- The handlers save several documents one after another with no transaction. A failure between two saves and concurrent handlers interleaving are not modelled; each call runs to completion alone.
- Ids are natural numbers. Malformed ids, which make Mongoose throw a cast error, are not modelled. The comparison of a string id with stored ObjectIds in `includes` and in `filter` is modelled as id equality.
- Documents keep only the fields the core reads or writes (title, availability, name, email, booksRead, bookmarks and the request fields). `createdAt`/`updatedAt` are not modelled.
- The `booksRead: 0` fallback for a user who vanishes between the populate and the update needs a concurrent delete, so it is not modelled.
- The `rejected` status exists in the enum, but no handler sets it, so there is no reject operation.
- Date rendering, the local time zone and the clock are parameters: `Config.dateString`, `Config.localeString`, a fixed offset (daylight-saving changes are not modelled), and an explicit `now` for every call, the EmailLog's default date included.
- The transport is an oracle on the call's number. That nodemailer always fails a call with no recipient (an unset `ADMIN_EMAIL`, an unset `EMAIL_USER`) is not built in. A failure of `EmailLog.create` after a delivered mail reads, like a transport failure, as "not logged". The SMTP settings and credentials are not modelled.
- Console logging is not modelled.
- A failure of the sweep's own query, which the sweep's catch swallows, is not modelled. A throw inside the loop is modelled as the loop stopping (`Progress.aborted`).
- EmailService.Notices: its contract states only the sizes. What the loop sends is stated by `NoticesWhenResolved`, `NoEmailIsSkipped`, `AbortIsFinal` and `MissingDocumentStopsSweep`.
- EmailService.SweepSends: its contract states only the empty case and a size bound. The messages themselves are stated by `SweepWhenResolved`, `SweepAllEmailable`, `SweepNobodyEmailable` and `MissingDocumentStopsSweep`.
