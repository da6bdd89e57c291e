/** The admin support desk: user reports and support tickets brought into
    one inquiry list, newest first, with a status filter and the resolve
    action. */
module SupportDesk {

  import opened Common
  import opened Sorting

  /** The populated `userId` of a report or ticket. */
  datatype Author = Author(name: Option<string>, email: Option<string>)

  /** A user report as the backend returns it; `timestamp` is the report
      time in milliseconds. */
  datatype Report = Report(id: string, description: string, author: Option<Author>,
                           timestamp: int, status: string, kind: string, priority: string)

  /** A support ticket as the backend returns it. */
  datatype Ticket = Ticket(id: string, message: string, issueType: string, author: Option<Author>,
                           email: string, createdAt: int, status: string)

  datatype Origin = FromReport | FromTicket

  /** One row of the merged list. */
  datatype Inquiry = Inquiry(id: string, origin: Origin, kind: string, title: string,
                             user: string, email: string, date: int, status: string, priority: string)

  /** `userId?.name` and `userId?.email`. */
  function AuthorName(a: Option<Author>): Option<string>
  {
    if a.Some? then a.value.name else None
  }

  function AuthorEmail(a: Option<Author>): Option<string>
  {
    if a.Some? then a.value.email else None
  }

  /** A report as an inquiry: its description is the title, and a missing
      author shows as 'Unknown User' with 'No Email'. */
  function NormalizeReport(r: Report): (q: Inquiry)
    ensures q.origin == FromReport && q.id == r.id && q.title == r.description && q.date == r.timestamp
    ensures q.user == OrElse(AuthorName(r.author), "Unknown User")
    ensures q.email == OrElse(AuthorEmail(r.author), "No Email")
    ensures q.status == r.status && q.kind == r.kind && q.priority == r.priority
  {
    Inquiry(r.id, FromReport, r.kind, r.description,
            OrElse(AuthorName(r.author), "Unknown User"),
            OrElse(AuthorEmail(r.author), "No Email"),
            r.timestamp, r.status, r.priority)
  }

  /** A ticket as an inquiry: its message is the title, its issue type the
      type, a missing author shows as 'Guest', and the priority is always
      'medium'. */
  function NormalizeTicket(t: Ticket): (q: Inquiry)
    ensures q.origin == FromTicket && q.id == t.id && q.title == t.message && q.date == t.createdAt
    ensures q.kind == t.issueType && q.email == t.email && q.status == t.status
    ensures q.user == OrElse(AuthorName(t.author), "Guest")
    ensures q.priority == "medium"
  {
    Inquiry(t.id, FromTicket, t.issueType, t.message,
            OrElse(AuthorName(t.author), "Guest"), t.email, t.createdAt, t.status, "medium")
  }

  function NormalizeReports(rs: seq<Report>): (qs: seq<Inquiry>)
    ensures |qs| == |rs| && forall i :: 0 <= i < |rs| ==> qs[i] == NormalizeReport(rs[i])
  {
    seq(|rs|, i requires 0 <= i < |rs| => NormalizeReport(rs[i]))
  }

  function NormalizeTickets(ts: seq<Ticket>): (qs: seq<Inquiry>)
    ensures |qs| == |ts| && forall i :: 0 <= i < |ts| ==> qs[i] == NormalizeTicket(ts[i])
  {
    seq(|ts|, i requires 0 <= i < |ts| => NormalizeTicket(ts[i]))
  }

  /** The comparator `new Date(b.date) - new Date(a.date)` as "may stand
      before": the newer (or equally old) inquiry goes first. */
  function NewerOrSame(): (Inquiry, Inquiry) -> bool
  {
    (a: Inquiry, b: Inquiry) => a.date >= b.date
  }

  function DateOf(): Inquiry -> int
  {
    (q: Inquiry) => q.date
  }

  /** The merged list: normalised reports, then tickets, sorted newest first. */
  function Merge(rs: seq<Report>, ts: seq<Ticket>): seq<Inquiry>
  {
    Sort(NormalizeReports(rs) + NormalizeTickets(ts), NewerOrSame())
  }

  /** The merged list holds every report and every ticket exactly once. */
  lemma MergeIsPermutation(rs: seq<Report>, ts: seq<Ticket>)
    ensures multiset(Merge(rs, ts)) == multiset(NormalizeReports(rs)) + multiset(NormalizeTickets(ts))
    ensures |Merge(rs, ts)| == |rs| + |ts|
  {
    var m := Merge(rs, ts);
    assert multiset(m) == multiset(NormalizeReports(rs) + NormalizeTickets(ts));
    assert |m| == |multiset(m)|;
  }

  /** The merged list is ordered newest first, across any two positions. */
  lemma MergeNewestFirst(rs: seq<Report>, ts: seq<Ticket>)
    ensures var m := Merge(rs, ts);
      forall i, j :: 0 <= i < j < |m| ==> m[i].date >= m[j].date
  {
    var le := NewerOrSame();
    assert Total(le) by {
      forall a: Inquiry, b: Inquiry ensures le(a, b) || le(b, a) {
      }
    }
    assert Transitive(le) by {
      forall a: Inquiry, b: Inquiry, c: Inquiry | le(a, b) && le(b, c) ensures le(a, c) {
      }
    }
    var all := NormalizeReports(rs) + NormalizeTickets(ts);
    SortSorted(all, le);
    SortedPairwise(Sort(all, le), le);
  }

  /** Inquiries of the same date keep their relative order: reports before
      tickets, each in the order the backend sent them. */
  lemma MergeKeepsTies(rs: seq<Report>, ts: seq<Ticket>, date: int)
    ensures WithKey(Merge(rs, ts), DateOf(), date)
         == WithKey(NormalizeReports(rs) + NormalizeTickets(ts), DateOf(), date)
  {
    SortStable(NormalizeReports(rs) + NormalizeTickets(ts), NewerOrSame(), DateOf(), date);
  }

  /** `['open', 'in-progress'].includes(status)`. */
  predicate IsOpenStatus(status: string)
  {
    status == "open" || status == "in-progress"
  }

  /** `['resolved', 'closed'].includes(status)`. */
  predicate IsClosedStatus(status: string)
  {
    status == "resolved" || status == "closed"
  }

  /** The status filter's test for one inquiry. */
  function Keeps(filter: string): Inquiry -> bool
  {
    (q: Inquiry) =>
      if filter == "all" then true
      else if filter == "open" then IsOpenStatus(q.status)
      else if filter == "resolved" then IsClosedStatus(q.status)
      else true
  }

  /** `filteredReports`. */
  function FilterInquiries(qs: seq<Inquiry>, filter: string): (r: seq<Inquiry>)
    ensures filter == "open" ==> forall i :: 0 <= i < |r| ==> IsOpenStatus(r[i].status)
    ensures filter == "resolved" ==> forall i :: 0 <= i < |r| ==> IsClosedStatus(r[i].status)
    ensures filter == "open" ==> forall i :: 0 <= i < |qs| && IsOpenStatus(qs[i].status) ==> qs[i] in r
    ensures filter == "resolved" ==> forall i :: 0 <= i < |qs| && IsClosedStatus(qs[i].status) ==> qs[i] in r
    ensures filter == "open" ==>
      forall q :: multiset(r)[q] == if IsOpenStatus(q.status) then multiset(qs)[q] else 0
    ensures filter == "resolved" ==>
      forall q :: multiset(r)[q] == if IsClosedStatus(q.status) then multiset(qs)[q] else 0
  {
    FilterCounts(qs, Keeps(filter));
    Filter(qs, Keeps(filter))
  }

  /** The filtered list is the full list with some rows left out, the rest
      in order, and filtering again changes nothing. */
  lemma FilterIsOrderedSubset(qs: seq<Inquiry>, filter: string)
    ensures IsSubsequence(FilterInquiries(qs, filter), qs)
    ensures FilterInquiries(FilterInquiries(qs, filter), filter) == FilterInquiries(qs, filter)
  {
    FilterIsSubsequence(qs, Keeps(filter));
    FilterIdempotent(qs, Keeps(filter));
  }

  /** 'all' and any unknown filter value show the full list. */
  lemma OtherFiltersShowAll(qs: seq<Inquiry>, filter: string)
    requires filter != "open" && filter != "resolved"
    ensures FilterInquiries(qs, filter) == qs
  {
    FilterAll(qs, Keeps(filter));
  }

  /** The backend update a resolve action sends. */
  datatype Update =
    | ResolveReport(id: string, status: string, note: string)
    | UpdateTicketStatus(id: string, status: string, note: string)

  /** The desk's list, the selected inquiry and the resolution note. */
  datatype Desk = Desk(inquiries: seq<Inquiry>, selected: Option<Inquiry>, note: string, resolving: bool)

  /** The update for the selected inquiry: reports and tickets go to
      different endpoints. */
  function UpdateFor(q: Inquiry, status: string, note: string): (u: Update)
    ensures u.ResolveReport? <==> q.origin == FromReport
    ensures u.id == q.id && u.status == status && u.note == note
  {
    if q.origin == FromReport then ResolveReport(q.id, status, note)
    else UpdateTicketStatus(q.id, status, note)
  }

  /** `handleResolve(status)`. `update` is the outcome of the backend call
      and `refetched` the reports and tickets loaded afterwards (`None` when
      that load fails and the list stays). Returns the new desk and the
      update sent, if any. */
  function HandleResolve(d: Desk, status: string, update: ApiOutcome,
                         refetched: Option<(seq<Report>, seq<Ticket>)>): (r: (Desk, Option<Update>))
    ensures d.selected.None? ==> r == (d, None)
    ensures d.selected.Some? ==> r.1 == Some(UpdateFor(d.selected.value, status, d.note)) && !r.0.resolving
    ensures d.selected.Some? && update == Succeeded ==>
      && r.0.selected.None? && r.0.note == ""
      && r.0.inquiries == (if refetched.Some? then Merge(refetched.value.0, refetched.value.1) else d.inquiries)
    ensures d.selected.Some? && update == Failed ==> r.0 == d.(resolving := false)
  {
    match d.selected
    case None => (d, None)
    case Some(q) =>
      var sent := UpdateFor(q, status, d.note);
      if update == Failed then (d.(resolving := false), Some(sent))
      else
        var list := if refetched.Some? then Merge(refetched.value.0, refetched.value.1) else d.inquiries;
        (Desk(list, None, "", false), Some(sent))
  }

  /** "Mark Resolved" is offered for anything not yet resolved. */
  predicate OffersResolve(q: Inquiry)
  {
    q.status != "resolved"
  }

  /** "Mark In-Progress" is offered only for open inquiries. */
  predicate OffersInProgress(q: Inquiry)
  {
    q.status == "open"
  }

  /** An inquiry offering "Mark In-Progress" also offers "Mark Resolved";
      a resolved one offers neither; a closed one still offers resolving. */
  lemma ActionAvailability(q: Inquiry)
    ensures OffersInProgress(q) ==> OffersResolve(q)
    ensures q.status == "resolved" ==> !OffersResolve(q) && !OffersInProgress(q)
    ensures q.status == "closed" ==> OffersResolve(q) && !OffersInProgress(q)
  {
  }

  /** Every row of the merged list resolves back to the record it came
      from: a report's row updates that report, a ticket's row that ticket,
      each under its own id. */
  lemma ResolveReachesSource(rs: seq<Report>, ts: seq<Ticket>, q: Inquiry, status: string, note: string)
    requires q in Merge(rs, ts)
    ensures UpdateFor(q, status, note).ResolveReport? ==>
      exists r :: r in rs && q == NormalizeReport(r) && UpdateFor(q, status, note) == ResolveReport(r.id, status, note)
    ensures UpdateFor(q, status, note).UpdateTicketStatus? ==>
      exists t :: t in ts && q == NormalizeTicket(t) && UpdateFor(q, status, note) == UpdateTicketStatus(t.id, status, note)
  {
    var i := MergedRowSource(rs, ts, q);
    var u := UpdateFor(q, status, note);
    if i < |rs| {
      var r := rs[i];
      assert r in rs && q == NormalizeReport(r) && u == ResolveReport(r.id, status, note);
    } else {
      var t := ts[i - |rs|];
      assert t in ts && q == NormalizeTicket(t) && u == UpdateTicketStatus(t.id, status, note);
    }
  }

  /** The position of a merged row among the reports, then the tickets. */
  lemma MergedRowSource(rs: seq<Report>, ts: seq<Ticket>, q: Inquiry) returns (i: nat)
    requires q in Merge(rs, ts)
    ensures i < |rs| + |ts|
    ensures i < |rs| ==> q == NormalizeReport(rs[i])
    ensures i >= |rs| ==> q == NormalizeTicket(ts[i - |rs|])
  {
    var nr, nt := NormalizeReports(rs), NormalizeTickets(ts);
    MergedRowInParts(rs, ts, q);
    if q in nr {
      var j :| 0 <= j < |nr| && nr[j] == q;
      i := j;
    } else {
      var j :| 0 <= j < |nt| && nt[j] == q;
      i := |rs| + j;
    }
  }

  lemma MergedRowInParts(rs: seq<Report>, ts: seq<Ticket>, q: Inquiry)
    requires q in Merge(rs, ts)
    ensures q in NormalizeReports(rs) || q in NormalizeTickets(ts)
  {
    MergeIsPermutation(rs, ts);
    assert q in multiset(Merge(rs, ts));
  }

  /** Resolving touches nothing it does not own: the list changes only
      through a successful update followed by a successful reload, and once
      an update succeeds a second resolve has nothing selected and sends
      nothing. */
  lemma ResolveFrame(d: Desk, status: string, update: ApiOutcome,
                     refetched: Option<(seq<Report>, seq<Ticket>)>,
                     status2: string, update2: ApiOutcome, refetched2: Option<(seq<Report>, seq<Ticket>)>)
    ensures var r := HandleResolve(d, status, update, refetched).0;
      r.inquiries != d.inquiries ==> d.selected.Some? && update == Succeeded && refetched.Some?
    ensures var r := HandleResolve(d, status, update, refetched).0;
      d.selected.Some? && update == Succeeded ==> HandleResolve(r, status2, update2, refetched2) == (r, None)
  {
  }
}
