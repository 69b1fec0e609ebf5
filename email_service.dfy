/**
 * The mail service: `sendEmail` with its success-only ledger, the overdue sweep and the daily
 * summary. The transport is an oracle that says whether its n-th call delivers; date rendering
 * and the local time zone come from the configuration.
 */
module EmailService {
  import opened Common
  import opened BorrowRequest
  import opened Lifecycle

  /** The process environment the service reads, made explicit. `adminEmail == ""` stands for an unset variable. */
  datatype Config = Config(
    adminEmail: string,
    utcOffsetMs: int,               // local time minus UTC, for `setHours(0, 0, 0, 0)`
    dateString: int -> string,      // `Date.prototype.toDateString`
    localeString: int -> string)    // `Date.prototype.toLocaleString`

  datatype Message = Message(to: string, subject: string, text: string)

  /** One call into the transport, at the given time. */
  datatype Attempt = Attempt(message: Message, at: int)

  /** One EmailLog document. */
  datatype LogRecord = LogRecord(to: string, subject: string, text: string, date: int)

  function Record(a: Attempt): LogRecord {
    LogRecord(a.message.to, a.message.subject, a.message.text, a.at)
  }

  /** The ledger that a sequence of transport calls leaves: one record per delivered call, in call order. */
  function Logged(attempts: seq<Attempt>, delivers: nat -> bool): (log: seq<LogRecord>)
    ensures |log| <= |attempts|
    decreases |attempts|
  {
    if attempts == [] then []
    else
      var n := |attempts| - 1;
      Logged(attempts[..n], delivers) + (if delivers(n) then [Record(attempts[n])] else [])
  }

  lemma LoggedAppend(attempts: seq<Attempt>, a: Attempt, delivers: nat -> bool)
    ensures Logged(attempts + [a], delivers) == Logged(attempts, delivers) + (if delivers(|attempts|) then [Record(a)] else [])
  {
    assert (attempts + [a])[..|attempts|] == attempts;
  }

  /** If the transport fails on every call after the first `|attempts|`, further calls leave the ledger as it was. */
  lemma {:induction false} FailedCallsLeaveNoTrace(attempts: seq<Attempt>, more: seq<Attempt>, delivers: nat -> bool)
    requires forall n: nat :: |attempts| <= n ==> !delivers(n)
    ensures Logged(attempts + more, delivers) == Logged(attempts, delivers)
    decreases |more|
  {
    if more == [] {
      assert attempts + more == attempts;
    } else {
      var init := more[..|more| - 1];
      assert attempts + more == (attempts + init) + [more[|more| - 1]];
      LoggedAppend(attempts + init, more[|more| - 1], delivers);
      assert !delivers(|attempts + init|);
      FailedCallsLeaveNoTrace(attempts, init, delivers);
    }
  }

  /** Every message of `msgs`, each handed to the transport at time `now`. */
  function Stamp(msgs: seq<Message>, now: int): (r: seq<Attempt>)
    ensures |r| == |msgs|
    ensures forall k :: 0 <= k < |r| ==> r[k].message == msgs[k] && r[k].at == now
  {
    seq(|msgs|, k requires 0 <= k < |msgs| => Attempt(msgs[k], now))
  }

  lemma StampAppend(msgs: seq<Message>, m: Message, now: int)
    ensures Stamp(msgs + [m], now) == Stamp(msgs, now) + [Attempt(m, now)]
  {
  }

  // ---------------------------------------------------------------- the overdue sweep, as a specification

  datatype Patron = Patron(name: string, email: string)

  /** One overdue request as the sweep sees it after populating its user and its book (None: the document is gone). */
  datatype Entry = Entry(patron: Option<Patron>, title: Option<string>, dueDate: int)

  function Populate(s: Store, id: RequestId): Entry
    requires id < |s.requests|
  {
    var q := s.requests[id];
    Entry(
      if q.user in s.users then Some(Patron(s.users[q.user].name, s.users[q.user].email)) else None,
      if q.book in s.books then Some(s.books[q.book].title) else None,
      q.dueDate)
  }

  /** The populated result of the sweep's query, in query order. */
  function OverdueEntries(s: Store, now: int): (es: seq<Entry>)
    ensures |es| == |OverdueRequests(s, now)|
    ensures forall k :: 0 <= k < |es| ==> es[k] == Populate(s, OverdueRequests(s, now)[k])
    ensures forall k :: 0 <= k < |es| ==> es[k].dueDate < now
  {
    var ids := OverdueRequests(s, now);
    seq(|ids|, k requires 0 <= k < |ids| => Populate(s, ids[k]))
  }

  // The fixed texts of the sweep's messages.
  const NoOverdueSubject: string := "LibMaster - No Overdue Books"
  const NoOverdueText: string := "No overdue books today."
  const NoticeSubject: string := "Overdue Book Notice - LibMaster"
  const NoticeBookLabel: string := ",\n\nYour book \""
  const NoticeDueLabel: string := "\" was due on "
  const NoticeTail: string := ". Please return it ASAP.\n\nLibMaster Team."
  const DigestSubject: string := "Overdue Book Notifications Sent"
  const DigestHead: string := "Notified students:\n\n"

  function NoOverdueMessage(cfg: Config): Message {
    Message(cfg.adminEmail, NoOverdueSubject, NoOverdueText)
  }

  function OverdueNotice(p: Patron, title: string, dueDate: int, cfg: Config): Message {
    Message(p.email, NoticeSubject, "Dear " + p.name + NoticeBookLabel + title + NoticeDueLabel + cfg.dateString(dueDate) + NoticeTail)
  }

  function RosterLine(p: Patron): string {
    p.name + " (" + p.email + ")"
  }

  function Digest(roster: seq<string>, cfg: Config): Message {
    Message(cfg.adminEmail, DigestSubject, DigestHead + Join(roster, "\n"))
  }

  /** Where the sweep's loop stands: the notices sent, the roster, and whether a missing document threw. */
  datatype Progress = Progress(sends: seq<Message>, roster: seq<string>, aborted: bool)

  /** One iteration of the sweep's loop. `request.user.email` throws on a missing user and `request.book.title` on a missing book. */
  function Advance(p: Progress, e: Entry, cfg: Config): Progress {
    if p.aborted then p
    else if e.patron.None? then p.(aborted := true)
    else if e.patron.value.email == "" then p
    else if e.title.None? then p.(aborted := true)
    else Progress(p.sends + [OverdueNotice(e.patron.value, e.title.value, e.dueDate, cfg)],
                  p.roster + [RosterLine(e.patron.value)], false)
  }

  /** The loop run over `es` in order. */
  function Notices(es: seq<Entry>, cfg: Config): (p: Progress)
    ensures |p.sends| == |p.roster| <= |es|
    decreases |es|
  {
    if es == [] then Progress([], [], false)
    else Advance(Notices(es[..|es| - 1], cfg), es[|es| - 1], cfg)
  }

  /** Every message the sweep hands to the transport, in order. */
  function SweepSends(es: seq<Entry>, cfg: Config): (sends: seq<Message>)
    ensures es == [] ==> sends == [NoOverdueMessage(cfg)]
    ensures |sends| <= |es| + 1
  {
    if es == [] then [NoOverdueMessage(cfg)]
    else
      var p := Notices(es, cfg);
      p.sends + (if !p.aborted && p.roster != [] then [Digest(p.roster, cfg)] else [])
  }

  // ---------------------------------------------------------------- the sweep, as a reference definition

  predicate Resolved(e: Entry) { e.patron.Some? && e.title.Some? }

  predicate HasEmail(e: Entry) { e.patron.Some? && e.patron.value.email != "" }

  ghost predicate AllResolved(es: seq<Entry>) {
    forall k :: 0 <= k < |es| ==> Resolved(es[k])
  }

  /** The loop gets past this entry without throwing: its user exists, and its book too when the user has an email. */
  predicate Proceeds(e: Entry) { e.patron.Some? && (e.patron.value.email != "" ==> e.title.Some?) }

  ghost predicate AllProceed(es: seq<Entry>) {
    forall k :: 0 <= k < |es| ==> Proceeds(es[k])
  }

  /** The entries the sweep writes to, in query order. */
  function Emailable(es: seq<Entry>): (r: seq<Entry>)
    ensures forall k :: 0 <= k < |r| ==> HasEmail(r[k])
    ensures AllProceed(es) ==> AllResolved(r)
  {
    var r := Filter(es, HasEmail);
    assert forall k :: 0 <= k < |r| ==> r[k] in es && HasEmail(r[k]);
    r
  }

  /** One notice per entry of `w`, in order. */
  function NoticesFor(w: seq<Entry>, cfg: Config): (ms: seq<Message>)
    requires AllResolved(w)
    ensures |ms| == |w|
    ensures forall k :: 0 <= k < |w| ==> ms[k] == OverdueNotice(w[k].patron.value, w[k].title.value, w[k].dueDate, cfg)
  {
    seq(|w|, k requires 0 <= k < |w| && Resolved(w[k]) => OverdueNotice(w[k].patron.value, w[k].title.value, w[k].dueDate, cfg))
  }

  /** One roster line per entry of `w`, in order. */
  function RosterFor(w: seq<Entry>): (lines: seq<string>)
    requires AllResolved(w)
    ensures |lines| == |w|
    ensures forall k :: 0 <= k < |w| ==> lines[k] == RosterLine(w[k].patron.value)
  {
    seq(|w|, k requires 0 <= k < |w| && Resolved(w[k]) => RosterLine(w[k].patron.value))
  }

  lemma ForSnoc(w: seq<Entry>, e: Entry, cfg: Config)
    requires AllResolved(w) && Resolved(e)
    ensures AllResolved(w + [e])
    ensures NoticesFor(w + [e], cfg) == NoticesFor(w, cfg) + [OverdueNotice(e.patron.value, e.title.value, e.dueDate, cfg)]
    ensures RosterFor(w + [e]) == RosterFor(w) + [RosterLine(e.patron.value)]
  {
    assert forall k :: 0 <= k < |w| ==> (w + [e])[k] == w[k];
  }

  /**
   * When no entry makes the loop throw, it sends one notice per emailable entry and lists each, both
   * in query order; an entry whose user has no email is skipped even if its book is gone.
   */
  lemma {:induction false} NoticesWhenResolved(es: seq<Entry>, cfg: Config)
    requires AllProceed(es)
    ensures Notices(es, cfg) == Progress(NoticesFor(Emailable(es), cfg), RosterFor(Emailable(es)), false)
    decreases |es|
  {
    if es != [] {
      var n := |es| - 1;
      var init := es[..n];
      var e := es[n];
      assert es == init + [e];
      assert AllProceed(init);
      NoticesWhenResolved(init, cfg);
      FilterAppend(init, [e], HasEmail);
      var w := Emailable(init);
      if HasEmail(e) {
        assert Emailable(es) == w + [e];
        ForSnoc(w, e, cfg);
      } else {
        assert Emailable(es) == w;
      }
    }
  }

  /**
   * The sweep's sends when no entry makes the loop throw: with no overdue request, one admin message;
   * otherwise the notices in query order, then the digest of their roster as the last message,
   * and no digest at all when nobody could be written to.
   */
  lemma SweepWhenResolved(es: seq<Entry>, cfg: Config)
    requires AllProceed(es)
    ensures var w := Emailable(es);
      SweepSends(es, cfg) ==
        if es == [] then [NoOverdueMessage(cfg)]
        else if w == [] then []
        else NoticesFor(w, cfg) + [Digest(RosterFor(w), cfg)]
  {
    NoticesWhenResolved(es, cfg);
  }

  /** With k overdue requests that all resolve and all have an email: k notices to them in query order, then one digest. */
  lemma SweepAllEmailable(es: seq<Entry>, cfg: Config)
    requires es != [] && AllResolved(es)
    requires forall k :: 0 <= k < |es| ==> HasEmail(es[k])
    ensures SweepSends(es, cfg) == NoticesFor(es, cfg) + [Digest(RosterFor(es), cfg)]
  {
    assert AllProceed(es);
    SweepWhenResolved(es, cfg);
    FilterAll(es, HasEmail);
  }

  /** When no overdue user has an email, the sweep sends nothing at all, not even to the admin. */
  lemma SweepNobodyEmailable(es: seq<Entry>, cfg: Config)
    requires es != [] && forall k :: 0 <= k < |es| ==> es[k].patron.Some?
    requires forall k :: 0 <= k < |es| ==> !HasEmail(es[k])
    ensures SweepSends(es, cfg) == []
  {
    assert AllProceed(es);
    SweepWhenResolved(es, cfg);
    FilterNone(es, HasEmail);
  }

  lemma NoticesStep(es: seq<Entry>, i: nat, cfg: Config)
    requires i < |es|
    ensures Notices(es[..i + 1], cfg) == Advance(Notices(es[..i], cfg), es[i], cfg)
  {
    assert es[..i + 1][..i] == es[..i];
  }

  lemma {:induction false} AbortIsFinal(es: seq<Entry>, more: seq<Entry>, cfg: Config)
    requires Notices(es, cfg).aborted
    ensures Notices(es + more, cfg) == Notices(es, cfg)
    decreases |more|
  {
    if more == [] {
      assert es + more == es;
    } else {
      var init := more[..|more| - 1];
      assert es + more == (es + init) + [more[|more| - 1]];
      assert (es + more)[..|es + more| - 1] == es + init;
      AbortIsFinal(es, init, cfg);
      assert Notices(es + more, cfg) == Advance(Notices(es + init, cfg), more[|more| - 1], cfg);
    }
  }

  /** A request whose user has no email is skipped, whether or not its book still exists. */
  lemma NoEmailIsSkipped(es: seq<Entry>, e: Entry, cfg: Config)
    requires e.patron.Some? && e.patron.value.email == ""
    ensures Notices(es + [e], cfg) == Notices(es, cfg)
  {
    assert (es + [e])[..|es|] == es;
  }

  /**
   * A request whose user is gone, or whose book is gone while its user has an email, ends the sweep
   * there: the requests after it get no notice and the admin gets no digest.
   */
  lemma MissingDocumentStopsSweep(es: seq<Entry>, cfg: Config, j: nat)
    requires j < |es|
    requires es[j].patron.None? || (es[j].patron.value.email != "" && es[j].title.None?)
    ensures SweepSends(es, cfg) == Notices(es[..j], cfg).sends
  {
    var upTo := es[..j + 1];
    assert upTo[..j] == es[..j];
    assert Notices(upTo, cfg).aborted;
    assert es == upTo + es[j + 1..];
    AbortIsFinal(upTo, es[j + 1..], cfg);
  }

  // ---------------------------------------------------------------- the daily summary, as a specification

  // The fixed texts of the summary.
  const SummarySubject: string := "LibMaster Daily Summary"
  const NothingSentText: string := "No emails were sent today."
  const ReportHead: string := "Email Report:\n\n"

  /** Local midnight of the day containing `now`, for a zone `offset` milliseconds ahead of UTC. */
  function StartOfDay(now: int, offset: int): (midnight: int)
    ensures midnight <= now < midnight + DayMs
    ensures (midnight + offset) % DayMs == 0
  {
    now - (now + offset) % DayMs
  }

  /** `EmailLog.find({ date: { $gte: since } })`, in log order. */
  function Window(log: seq<LogRecord>, since: int): (w: seq<LogRecord>)
    ensures forall r :: r in w ==> r in log && r.date >= since
    ensures forall i :: 0 <= i < |log| && log[i].date >= since ==> log[i] in w
  {
    Filter(log, SentSince(since))
  }

  function SentSince(since: int): LogRecord -> bool {
    (r: LogRecord) => r.date >= since
  }

  // The pieces of the report template around the record's fields, whitespace included.
  const BlockHead: string := "Email Sent!\n        ---------------------------------------\n        To: "
  const SubjectLabel: string := "  \n        Subject: "
  const SentOnLabel: string := "  \n        Sent On: "
  const MessageLabel: string := "  \n        \n        Message:  \n        "
  const BlockTail: string := "  \n        ---------------------------------------\n        \n        Status: Successfully Sent!"

  /** The report block of one log record. */
  function Block(r: LogRecord, cfg: Config): string {
    BlockHead + r.to + SubjectLabel + r.subject + SentOnLabel + cfg.localeString(r.date) + MessageLabel + r.text + BlockTail
  }

  function Blocks(w: seq<LogRecord>, cfg: Config): (bs: seq<string>)
    ensures |bs| == |w|
  {
    seq(|w|, k requires 0 <= k < |w| => Block(w[k], cfg))
  }

  function Report(w: seq<LogRecord>, cfg: Config): string {
    ReportHead + Join(Blocks(w, cfg), "\n\n")
  }

  /** Every message the summary hands to the transport, for the ledger `log` at time `now`. */
  function SummarySends(log: seq<LogRecord>, cfg: Config, now: int): (sends: seq<Message>)
    ensures cfg.adminEmail == "" ==> sends == []
    ensures cfg.adminEmail != "" ==> |sends| == 1 && sends[0].to == cfg.adminEmail && sends[0].subject == SummarySubject
  {
    if cfg.adminEmail == "" then []
    else
      var today := Window(log, StartOfDay(now, cfg.utcOffsetMs));
      if today == [] then [Message(cfg.adminEmail, SummarySubject, NothingSentText)]
      else [Message(cfg.adminEmail, SummarySubject, Report(today, cfg))]
  }

  /** Records older than today's midnight never reach the summary: adding them anywhere before or after changes nothing. */
  lemma SummaryIgnoresOlderRecords(before: seq<LogRecord>, log: seq<LogRecord>, after: seq<LogRecord>, cfg: Config, now: int)
    requires forall i :: 0 <= i < |before| ==> before[i].date < StartOfDay(now, cfg.utcOffsetMs)
    requires forall i :: 0 <= i < |after| ==> after[i].date < StartOfDay(now, cfg.utcOffsetMs)
    ensures SummarySends(before + log + after, cfg, now) == SummarySends(log, cfg, now)
  {
    var since := StartOfDay(now, cfg.utcOffsetMs);
    var p := SentSince(since);
    assert forall i :: 0 <= i < |before| ==> !p(before[i]);
    assert forall i :: 0 <= i < |after| ==> !p(after[i]);
    FilterAppend(before + log, after, p);
    FilterAppend(before, log, p);
    FilterNone(before, p);
    FilterNone(after, p);
    assert Window(before + log + after, since) == Window(log, since);
  }

  /** With nothing logged since midnight the summary says so; otherwise its body holds each record's block verbatim, in log order. */
  lemma SummaryReport(log: seq<LogRecord>, cfg: Config, now: int, k: nat)
    requires cfg.adminEmail != ""
    ensures var w := Window(log, StartOfDay(now, cfg.utcOffsetMs));
      w == [] ==> SummarySends(log, cfg, now)[0].text == NothingSentText
    ensures var w := Window(log, StartOfDay(now, cfg.utcOffsetMs));
      var bs := Blocks(w, cfg);
      k < |w| ==>
        SummarySends(log, cfg, now)[0].text ==
          ReportHead + (Join(bs[..k], "\n\n") + (if k == 0 then "" else "\n\n") + Block(w[k], cfg) +
          (if k == |w| - 1 then "" else "\n\n") + Join(bs[k + 1..], "\n\n"))
  {
    var w := Window(log, StartOfDay(now, cfg.utcOffsetMs));
    if k < |w| {
      JoinAt(Blocks(w, cfg), "\n\n", k);
    }
  }

  // ---------------------------------------------------------------- the service

  class Mailer {
    const config: Config
    /** Whether the transport delivers on its n-th call (counting from 0). */
    const delivers: nat -> bool
    /** Every call made into the transport, in order. */
    var attempts: seq<Attempt>
    /** The EmailLog collection. */
    var log: seq<LogRecord>

    /** The ledger holds exactly the delivered calls, in call order. */
    ghost predicate Valid()
      reads this
    {
      log == Logged(attempts, delivers)
    }

    constructor (config: Config, delivers: nat -> bool)
      ensures Valid()
      ensures this.config == config && this.delivers == delivers
      ensures attempts == [] && log == []
    {
      this.config := config;
      this.delivers := delivers;
      attempts := [];
      log := [];
    }

    /** `sendEmail`: call the transport; record the mail only if it delivered. A failure never reaches the caller. */
    method SendEmail(to: string, subject: string, text: string, now: int)
      requires Valid()
      modifies this
      ensures Valid()
      ensures attempts == old(attempts) + [Attempt(Message(to, subject, text), now)]
      ensures log == old(log) + (if delivers(|old(attempts)|) then [LogRecord(to, subject, text, now)] else [])
    {
      var a := Attempt(Message(to, subject, text), now);
      LoggedAppend(attempts, a, delivers);
      var delivered := delivers(|attempts|);
      attempts := attempts + [a];
      if delivered {
        log := log + [LogRecord(to, subject, text, now)];
      }
    }

    /** `sendOverdueEmails`, run at `now` over the store `s`. It only reads the store. */
    method SendOverdueEmails(s: Store, now: int)
      requires Valid()
      modifies this
      ensures Valid()
      ensures attempts == old(attempts) + Stamp(SweepSends(OverdueEntries(s, now), config), now)
    {
      var overdue := OverdueEntries(s, now);
      if |overdue| == 0 {
        SendEmail(config.adminEmail, NoOverdueSubject, NoOverdueText, now);
        return;
      }
      var notified, aborted := NotifyOverdue(overdue, now);
      if !aborted && |notified| > 0 {
        var m := Digest(notified, config);
        StampAppend(Notices(overdue, config).sends, m, now);
        AppendAssociates(old(attempts), Stamp(Notices(overdue, config).sends, now), [Attempt(m, now)]);
        SendEmail(m.to, m.subject, m.text, now);
      }
    }

    /** The sweep's `for` loop: one notice per overdue request with an email, stopping where a missing document throws. */
    method NotifyOverdue(overdue: seq<Entry>, now: int) returns (notified: seq<string>, aborted: bool)
      requires Valid()
      modifies this
      ensures Valid()
      ensures attempts == old(attempts) + Stamp(Notices(overdue, config).sends, now)
      ensures notified == Notices(overdue, config).roster && aborted == Notices(overdue, config).aborted
    {
      notified := [];
      aborted := false;
      ghost var sent: seq<Message> := [];
      var i := 0;
      while i < |overdue|
        invariant 0 <= i <= |overdue|
        invariant Valid()
        invariant Notices(overdue[..i], config) == Progress(sent, notified, false)
        invariant attempts == old(attempts) + Stamp(sent, now)
      {
        NoticesStep(overdue, i, config);
        var e := overdue[i];
        if e.patron.None? {
          aborted := true;
          break;
        }
        if e.patron.value.email != "" {
          if e.title.None? {
            aborted := true;
            break;
          }
          var m := OverdueNotice(e.patron.value, e.title.value, e.dueDate, config);
          StampAppend(sent, m, now);
          AppendAssociates(old(attempts), Stamp(sent, now), [Attempt(m, now)]);
          SendEmail(m.to, m.subject, m.text, now);
          sent := sent + [m];
          notified := notified + [RosterLine(e.patron.value)];
        }
        i := i + 1;
      }
      if aborted {
        assert overdue == overdue[..i + 1] + overdue[i + 1..];
        AbortIsFinal(overdue[..i + 1], overdue[i + 1..], config);
      } else {
        assert overdue[..i] == overdue;
      }
    }

    /** `sendAdminSummary` at `now`: nothing without an admin address, otherwise one report over today's ledger. */
    method SendAdminSummary(now: int)
      requires Valid()
      modifies this
      ensures Valid()
      ensures attempts == old(attempts) + Stamp(SummarySends(old(log), config, now), now)
    {
      if config.adminEmail == "" {
        return;
      }
      var today := Window(log, StartOfDay(now, config.utcOffsetMs));
      if |today| == 0 {
        SendEmail(config.adminEmail, SummarySubject, NothingSentText, now);
        return;
      }
      SendEmail(config.adminEmail, SummarySubject, Report(today, config), now);
    }
  }
}
