/**
  The read-only side of the ticket views: the ticket lists (all, open, closed,
  bug reports, feature requests, search and per-user lists), the follow-ups a
  requester may see on the detail page, and the filter options shown beside
  every list.
 */
module TicketQueries {
  import opened TicketTypes
  import opened Ordering

  // ---------------------------------------------------------------------------
  // Ordering: every list is ordered by creation time, newest first.

  function TicketCreated(t: Ticket): int { t.createdOn }

  function FollowUpCreated(c: FollowUp): int { c.createdOn }

  predicate NewestFirst(rows: seq<Ticket>) {
    NonIncreasing(rows, TicketCreated)
  }

  /** `Ticket.objects.filter(p).order_by("-created_on")`. */
  function Select(rows: seq<Ticket>, p: Ticket -> bool): (r: seq<Ticket>)
    ensures NewestFirst(r)
    ensures forall t :: multiset(r)[t] == if p(t) then multiset(rows)[t] else 0
  {
    var sorted := SortDesc(rows, TicketCreated);
    FilterKeepsOrder(sorted, p, TicketCreated);
    Filter(sorted, p)
  }

  // ---------------------------------------------------------------------------
  // Status and type lists.

  const ClosedCodes: seq<string> := ["closed", "split", "duplicate"]
  const OpenCodes: seq<string> := ["new", "accepted", "assigned", "reopened"]

  predicate IsClosed(t: Ticket) { t.status in ClosedCodes }
  predicate IsOpen(t: Ticket) { t.status in OpenCodes }

  /** The closed-ticket list: tickets whose status is closed, split or duplicate. */
  function ClosedTickets(rows: seq<Ticket>): (r: seq<Ticket>)
    ensures NewestFirst(r)
    ensures forall t :: multiset(r)[t] == if t.status in ClosedCodes then multiset(rows)[t] else 0
  {
    Select(rows, IsClosed)
  }

  /** The open-ticket list: tickets whose status is new, accepted, assigned or reopened. */
  function OpenTickets(rows: seq<Ticket>): (r: seq<Ticket>)
    ensures NewestFirst(r)
    ensures forall t :: multiset(r)[t] == if t.status in OpenCodes then multiset(rows)[t] else 0
  {
    Select(rows, IsOpen)
  }

  /** The two status code lists share no code. */
  lemma StatusCodesDisjoint(code: string)
    ensures !(code in ClosedCodes && code in OpenCodes)
  {
  }

  /** No ticket is in both the open and the closed list. */
  lemma {:induction false} OpenClosedDisjoint(rows: seq<Ticket>)
    ensures multiset(ClosedTickets(rows)) * multiset(OpenTickets(rows)) == multiset{}
  {
    var closed, open := multiset(ClosedTickets(rows)), multiset(OpenTickets(rows));
    forall t ensures (closed * open)[t] == 0 {
      StatusCodesDisjoint(t.status);
    }
  }

  /** When every status is one of the seven codes, the open and closed lists together hold
      each ticket exactly as often as the table does. */
  lemma {:induction false} OpenClosedCover(rows: seq<Ticket>)
    requires forall k :: 0 <= k < |rows| ==> rows[k].status in ClosedCodes + OpenCodes
    ensures multiset(ClosedTickets(rows)) + multiset(OpenTickets(rows)) == multiset(rows)
  {
    var closed, open := multiset(ClosedTickets(rows)), multiset(OpenTickets(rows));
    forall t ensures (closed + open)[t] == multiset(rows)[t] {
      StatusCodesDisjoint(t.status);
      if t in rows {
        var k :| 0 <= k < |rows| && rows[k] == t;
        assert t.status in ClosedCodes + OpenCodes;
      }
    }
  }

  /** The bug-report and feature-request lists: tickets of one type. */
  function TicketsOfType(rows: seq<Ticket>, ticketType: string): (r: seq<Ticket>)
    ensures NewestFirst(r)
    ensures forall t :: multiset(r)[t] == if t.ticketType == ticketType then multiset(rows)[t] else 0
  {
    Select(rows, (t: Ticket) => t.ticketType == ticketType)
  }

  lemma BugAndFeatureListsDisjoint(rows: seq<Ticket>)
    ensures multiset(TicketsOfType(rows, "bug")) * multiset(TicketsOfType(rows, "feature")) == multiset{}
  {
  }

  // ---------------------------------------------------------------------------
  // The searchable ticket list.

  /** ASCII case folding, the case-insensitivity `icontains` gets from the database. */
  function Lower(c: char): char {
    if 'A' <= c <= 'Z' then (c as int + 32) as char else c
  }

  function Fold(s: string): (r: string)
    ensures |r| == |s|
    ensures forall i :: 0 <= i < |s| ==> r[i] == Lower(s[i])
  {
    seq(|s|, i requires 0 <= i < |s| => Lower(s[i]))
  }

  predicate OccursAt(s: string, sub: string, i: int) {
    0 <= i <= |s| - |sub| && s[i..i + |sub|] == sub
  }

  predicate Contains(s: string, sub: string) {
    exists i :: 0 <= i <= |s| - |sub| && OccursAt(s, sub, i)
  }

  /** `description__icontains=q`: `sub` occurs in `s` once both are case-folded. An exact
      occurrence is always found, and a query longer than the text never is. */
  function IContains(s: string, sub: string): (found: bool)
    ensures Contains(s, sub) ==> found
    ensures |sub| > |s| ==> !found
  {
    assert Contains(s, sub) ==> Contains(Fold(s), Fold(sub)) by {
      if Contains(s, sub) { ExactMatchFound(s, sub); }
    }
    Contains(Fold(s), Fold(sub))
  }

  /** An exact occurrence is still an occurrence after folding both strings. */
  lemma ExactMatchFound(s: string, sub: string)
    requires Contains(s, sub)
    ensures Contains(Fold(s), Fold(sub))
  {
    var i :| 0 <= i <= |s| - |sub| && OccursAt(s, sub, i);
    assert Fold(s)[i..i + |sub|] == Fold(sub) by {
      forall m | 0 <= m < |sub| ensures Fold(s)[i..i + |sub|][m] == Fold(sub)[m] {
        assert s[i + m] == s[i..i + |sub|][m];
      }
    }
    assert OccursAt(Fold(s), Fold(sub), i);
  }

  lemma FoldIdempotent(s: string)
    ensures Fold(Fold(s)) == Fold(s)
  {
  }

  /** The letter case of the query does not matter: searching for `sub` or for its folded
      form finds the same tickets. */
  lemma QueryCaseIgnored(s: string, sub: string)
    ensures IContains(s, sub) <==> IContains(s, Fold(sub))
  {
    FoldIdempotent(sub);
  }

  /** The letter case of the description does not matter either. */
  lemma TextCaseIgnored(s: string, sub: string)
    ensures IContains(s, sub) <==> IContains(Fold(s), sub)
  {
    FoldIdempotent(s);
  }

  /** `sub` matches `s` at `i`, character by character up to case. */
  predicate MatchesAt(s: string, sub: string, i: int) {
    0 <= i <= |s| - |sub| && forall m :: 0 <= m < |sub| ==> Lower(s[i + m]) == Lower(sub[m])
  }

  /** What `icontains` finds: a position where every character of the query matches the
      description's character up to case. */
  lemma IContainsIff(s: string, sub: string)
    ensures IContains(s, sub) <==> exists i :: MatchesAt(s, sub, i)
  {
    if IContains(s, sub) {
      var i :| 0 <= i <= |s| - |sub| && OccursAt(Fold(s), Fold(sub), i);
      FoundMatches(s, sub, i);
    }
    if exists i :: MatchesAt(s, sub, i) {
      var i :| MatchesAt(s, sub, i);
      MatchesFound(s, sub, i);
    }
  }

  lemma FoundMatches(s: string, sub: string, i: int)
    requires OccursAt(Fold(s), Fold(sub), i)
    ensures MatchesAt(s, sub, i)
  {
    forall m | 0 <= m < |sub| ensures Lower(s[i + m]) == Lower(sub[m]) {
      assert Fold(s)[i..i + |sub|][m] == Fold(s)[i + m];
    }
  }

  lemma MatchesFound(s: string, sub: string, i: int)
    requires MatchesAt(s, sub, i)
    ensures OccursAt(Fold(s), Fold(sub), i)
  {
    assert Fold(s)[i..i + |sub|] == Fold(sub);
  }

  /** The search box applies only when `q` is present and non-empty. */
  predicate MatchesSearch(t: Ticket, q: Option<string>) {
    q.None? || q.value == [] || IContains(t.description, q.value)
  }

  predicate AssignedTo(t: Ticket, u: User) {
    t.assignedTo.Some? && SameUser(t.assignedTo.value, u)
  }

  /** The user part of the list: `what` picks the submitter, the assignee, or either. No user
      means no filter; a match always involves the user in one of the two fields, and a ticket
      the user both submitted and is assigned matches whatever `what` says. */
  function MatchesUser(t: Ticket, user: Option<User>, what: Option<string>): (ok: bool)
    ensures user.None? ==> ok
    ensures ok && user.Some? ==> SameUser(t.submittedBy, user.value) || AssignedTo(t, user.value)
    ensures user.Some? && SameUser(t.submittedBy, user.value) && AssignedTo(t, user.value) ==> ok
  {
    match user
    case None => true
    case Some(u) =>
      if what == Some("submitted_by") then SameUser(t.submittedBy, u)
      else if what == Some("assigned_to") then AssignedTo(t, u)
      else SameUser(t.submittedBy, u) || AssignedTo(t, u)
  }

  /** The queryset of the main list once the requested user has been looked up. */
  function ListQuery(rows: seq<Ticket>, q: Option<string>, user: Option<User>, what: Option<string>): (r: seq<Ticket>)
    ensures NewestFirst(r)
    ensures forall t :: multiset(r)[t] ==
                        if MatchesSearch(t, q) && MatchesUser(t, user, what) then multiset(rows)[t] else 0
  {
    Select(rows, (t: Ticket) => MatchesSearch(t, q) && MatchesUser(t, user, what))
  }

  /** The search filter applies whether or not a user was found. */
  lemma SearchWithoutUser(rows: seq<Ticket>, q: string, what: Option<string>, t: Ticket)
    requires q != []
    ensures t in ListQuery(rows, Some(q), None, what) <==> t in rows && IContains(t.description, q)
  {
    var r := ListQuery(rows, Some(q), None, what);
    assert t in r <==> multiset(r)[t] > 0;
    assert t in rows <==> multiset(rows)[t] > 0;
  }

  /** With a user, `what` chooses which of the two user fields must match. */
  lemma {:induction false} UserFieldSelection(rows: seq<Ticket>, q: Option<string>, u: User, what: Option<string>, t: Ticket)
    ensures t in ListQuery(rows, q, Some(u), what) <==>
      t in rows && MatchesSearch(t, q) &&
      (if what == Some("submitted_by") then t.submittedBy.id == u.id
       else if what == Some("assigned_to") then t.assignedTo.Some? && t.assignedTo.value.id == u.id
       else t.submittedBy.id == u.id || (t.assignedTo.Some? && t.assignedTo.value.id == u.id))
  {
    var r := ListQuery(rows, q, Some(u), what);
    assert t in r <==> multiset(r)[t] > 0;
    assert t in rows <==> multiset(rows)[t] > 0;
  }

  /** The keyword arguments a list URL supplies. */
  datatype ListKwargs = ListKwargs(userid: Option<nat>, username: Option<string>, what: Option<string>)

  /** The main list's user lookup as written: only the `userid` argument is read, and a
      missing id finds nobody. */
  function UserFromKwargs(accounts: seq<User>, kwargs: ListKwargs): (r: Option<User>)
    ensures r.Some? ==> kwargs.userid.Some? && r.value in accounts && r.value.id == kwargs.userid.value
    ensures kwargs.userid.Some? ==>
      (r.Some? <==> exists k :: 0 <= k < |accounts| && accounts[k].id == kwargs.userid.value)
    ensures kwargs.userid.None? ==> r.None?
  {
    match kwargs.userid
    case None => None
    case Some(id) => FindUser(accounts, (u: User) => u.id == id)
  }

  /** The main list as written. */
  function TicketListAsWritten(rows: seq<Ticket>, accounts: seq<User>, q: Option<string>, kwargs: ListKwargs): (r: seq<Ticket>)
    ensures NewestFirst(r)
    ensures forall t :: t in r <==> t in rows && MatchesSearch(t, q) && MatchesUser(t, UserFromKwargs(accounts, kwargs), kwargs.what)
  {
    var r := ListQuery(rows, q, UserFromKwargs(accounts, kwargs), kwargs.what);
    assert forall t :: t in r <==> multiset(r)[t] > 0;
    assert forall t :: t in rows <==> multiset(rows)[t] > 0;
    r
  }

  /** The per-user list routes pass the account's `username`, never a `userid`. */
  function UserRoute(name: string, what: Option<string>): ListKwargs {
    ListKwargs(None, Some(name), what)
  }

  /** On a per-user route the list as written ignores the user: every ticket matching the
      search is listed, whoever submitted it or is assigned to it. */
  lemma UserRouteIgnoresUser(rows: seq<Ticket>, accounts: seq<User>, q: Option<string>, name: string, what: Option<string>, t: Ticket)
    ensures t in TicketListAsWritten(rows, accounts, q, UserRoute(name, what)) <==> t in rows && MatchesSearch(t, q)
  {
  }

  /** A concrete case: bob's ticket is listed under "submitted by alice". */
  lemma SubmittedByAliceListsBob()
    ensures var alice, bob := User(1, "alice"), User(2, "bob");
      var t := Ticket(7, "new", "bug", 1, "app", "crash", bob, None, 0, 100);
      t in TicketListAsWritten([t], [alice, bob], None, UserRoute("alice", Some("submitted_by")))
      && !SameUser(t.submittedBy, alice)
  {
  }

  /** The corrected lookup: the `userid` argument when given, otherwise the account named by
      the `username` argument that the per-user routes pass. */
  function UserFromRoute(accounts: seq<User>, kwargs: ListKwargs): (r: Option<User>)
    ensures r.Some? ==> r.value in accounts
    ensures kwargs.userid.Some? && r.Some? ==> r.value.id == kwargs.userid.value
    ensures kwargs.userid.Some? ==>
      (r.Some? <==> exists k :: 0 <= k < |accounts| && accounts[k].id == kwargs.userid.value)
    ensures kwargs.userid.None? && kwargs.username.Some? ==>
      (r.Some? <==> exists k :: 0 <= k < |accounts| && accounts[k].username == kwargs.username.value)
    ensures kwargs.userid.None? && r.Some? ==> kwargs.username.Some? && r.value.username == kwargs.username.value
  {
    match kwargs.userid
    case Some(id) => FindUser(accounts, (u: User) => u.id == id)
    case None =>
      match kwargs.username
      case None => None
      case Some(name) => FindUser(accounts, (u: User) => u.username == name)
  }

  /** The main list as evidently intended. */
  function TicketList(rows: seq<Ticket>, accounts: seq<User>, q: Option<string>, kwargs: ListKwargs): (r: seq<Ticket>)
    ensures NewestFirst(r)
    ensures forall t :: multiset(r)[t] ==
                        if MatchesSearch(t, q) && MatchesUser(t, UserFromRoute(accounts, kwargs), kwargs.what)
                        then multiset(rows)[t] else 0
  {
    ListQuery(rows, q, UserFromRoute(accounts, kwargs), kwargs.what)
  }

  /** On the "submitted by" route of an existing account, the corrected list holds exactly that
      account's tickets matching the search. */
  lemma {:induction false} SubmittedByRouteFilters(rows: seq<Ticket>, accounts: seq<User>, q: Option<string>, u: User, t: Ticket)
    requires u in accounts
    requires forall k :: 0 <= k < |accounts| && accounts[k].username == u.username ==> accounts[k] == u
    ensures t in TicketList(rows, accounts, q, UserRoute(u.username, Some("submitted_by"))) <==>
      t in rows && MatchesSearch(t, q) && t.submittedBy.id == u.id
  {
    var kwargs := UserRoute(u.username, Some("submitted_by"));
    var k :| 0 <= k < |accounts| && accounts[k] == u;
    var found := UserFromRoute(accounts, kwargs);
    assert found.Some?;
    var j :| 0 <= j < |accounts| && accounts[j] == found.value;
    assert found == Some(u);
    UserFieldSelection(rows, q, u, Some("submitted_by"), t);
  }

  // ---------------------------------------------------------------------------
  // Follow-ups on the detail page.

  /** Admins (accounts whose id is in `admins`) and the ticket's submitter read the
      all-comments manager; an anonymous reader is neither. */
  function SeesInternal(ticket: Ticket, viewer: Option<User>, admins: set<UserId>): (sees: bool)
    ensures viewer.None? ==> !sees
    ensures viewer.Some? ==> (sees <==> viewer.value.id in admins || SameUser(viewer.value, ticket.submittedBy))
  {
    match viewer
    case None => false
    case Some(u) => u.id in admins || SameUser(u, ticket.submittedBy)
  }

  /** The `comments` of the detail page: the ticket's follow-ups from the manager the viewer
      is entitled to, newest first. */
  function VisibleComments(log: seq<FollowUp>, ticket: Ticket, viewer: Option<User>, admins: set<UserId>): (r: seq<FollowUp>)
    ensures NonIncreasing(r, FollowUpCreated)
    ensures forall c :: multiset(r)[c] ==
                        if c.ticket == ticket.id && (c.isPublic || SeesInternal(ticket, viewer, admins))
                        then multiset(log)[c] else 0
  {
    var chosen :=
      if SeesInternal(ticket, viewer, admins) then Filter(log, (c: FollowUp) => c.ticket == ticket.id)
      else Filter(log, (c: FollowUp) => c.ticket == ticket.id && c.isPublic);
    SortDesc(chosen, FollowUpCreated)
  }

  /** Anyone else sees public follow-ups only; admins and the submitter see every follow-up
      of the ticket, internal ones included. */
  lemma {:induction false} CommentVisibility(log: seq<FollowUp>, ticket: Ticket, viewer: Option<User>, admins: set<UserId>, c: FollowUp)
    ensures c in VisibleComments(log, ticket, viewer, admins) <==>
      c in log && c.ticket == ticket.id && (c.isPublic || SeesInternal(ticket, viewer, admins))
  {
    var r := VisibleComments(log, ticket, viewer, admins);
    assert c in r <==> multiset(r)[c] > 0;
    assert c in log <==> multiset(log)[c] > 0;
  }

  /** Granting admin rights never hides a follow-up: with more admins, a reader sees at least
      what they saw before. */
  lemma AdminsSeeMore(log: seq<FollowUp>, ticket: Ticket, viewer: Option<User>, fewer: set<UserId>, more: set<UserId>)
    requires fewer <= more
    ensures multiset(VisibleComments(log, ticket, viewer, fewer)) <= multiset(VisibleComments(log, ticket, viewer, more))
  {
  }

  // ---------------------------------------------------------------------------
  // Filter options beside the lists.

  /** The choice lists declared on the ticket model: (code, label) pairs. */
  datatype Choices = Choices(status: seq<(string, string)>, priority: seq<(int, string)>, ticketType: seq<(string, string)>)

  /** The values of one filter; `assigned_to` may hold no user. */
  datatype FilterValues = Names(names: seq<string>) | OptionalNames(optionalNames: seq<Option<string>>)

  type Filters = seq<(string, FilterValues)>

  const FilterKeys: seq<string> := ["status", "application", "priority", "type", "submitted_by", "assigned_to"]

  function PriorityCode(c: (int, string)): int { c.0 }
  function NegatedPriorityCode(c: (int, string)): int { -c.0 }

  /** `sorted(TICKET_PRIORITY_CHOICES, key=lambda x: x[0])`. */
  function SortedPriorities(choices: seq<(int, string)>): (r: seq<(int, string)>)
    ensures NonDecreasing(r, PriorityCode)
    ensures multiset(r) == multiset(choices)
  {
    SortDesc(choices, NegatedPriorityCode)
  }

  /** `[x[0] for x in TICKET_STATUS_CHOICES]`: the status codes in declaration order. */
  function StatusCodes(choices: seq<(string, string)>): (r: seq<string>)
    ensures |r| == |choices|
    ensures forall i :: 0 <= i < |choices| ==> r[i] == choices[i].0
  {
    seq(|choices|, i requires 0 <= i < |choices| => choices[i].0)
  }

  /** `[x[1] for x in TICKET_TYPE_CHOICES]`: the type labels in declaration order. */
  function TypeLabels(choices: seq<(string, string)>): (r: seq<string>)
    ensures |r| == |choices|
    ensures forall i :: 0 <= i < |choices| ==> r[i] == choices[i].1
  {
    seq(|choices|, i requires 0 <= i < |choices| => choices[i].1)
  }

  /** The priority labels, in ascending order of their codes; every declared label appears and
      nothing else does. */
  function PriorityLabels(choices: seq<(int, string)>): (r: seq<string>)
    ensures |r| == |choices|
    ensures forall i :: 0 <= i < |r| ==> r[i] == SortedPriorities(choices)[i].1
    ensures forall l :: l in r <==> exists k :: 0 <= k < |choices| && choices[k].1 == l
  {
    var sorted := SortedPriorities(choices);
    assert |multiset(sorted)| == |multiset(choices)|;
    var r := seq(|sorted|, i requires 0 <= i < |sorted| => sorted[i].1);
    SecondsOfPermutation(sorted, choices, r);
    r
  }

  /** The second components of a rearranged list are those of the original list. */
  lemma SecondsOfPermutation(sorted: seq<(int, string)>, choices: seq<(int, string)>, r: seq<string>)
    requires multiset(sorted) == multiset(choices)
    requires |r| == |sorted| && forall i :: 0 <= i < |r| ==> r[i] == sorted[i].1
    ensures forall l :: l in r <==> exists k :: 0 <= k < |choices| && choices[k].1 == l
  {
    forall l | l in r ensures exists k :: 0 <= k < |choices| && choices[k].1 == l {
      var i :| 0 <= i < |r| && r[i] == l;
      assert sorted[i] in multiset(choices);
      var k :| 0 <= k < |choices| && choices[k] == sorted[i];
    }
    forall l, k | 0 <= k < |choices| && choices[k].1 == l ensures l in r {
      assert choices[k] in multiset(sorted);
      var i :| 0 <= i < |sorted| && sorted[i] == choices[k];
      assert r[i] == l;
    }
  }

  /** `values_list('application__application').distinct()`. */
  function DistinctApplications(rows: seq<Ticket>): (r: seq<string>)
    ensures NoDuplicates(r)
    ensures forall a :: a in r <==> exists k :: 0 <= k < |rows| && rows[k].application == a
  {
    var apps := seq(|rows|, i requires 0 <= i < |rows| => rows[i].application);
    assert forall a :: a in apps <==> exists k :: 0 <= k < |rows| && rows[k].application == a by {
      forall a | a in apps ensures exists k :: 0 <= k < |rows| && rows[k].application == a {
        var k :| 0 <= k < |apps| && apps[k] == a;
      }
      forall a, k | 0 <= k < |rows| && rows[k].application == a ensures a in apps {
        assert apps[k] == a;
      }
    }
    Distinct(apps)
  }

  /** `values_list('submitted_by__username').distinct()`. */
  function DistinctSubmitters(rows: seq<Ticket>): (r: seq<string>)
    ensures NoDuplicates(r)
    ensures forall n :: n in r <==> exists k :: 0 <= k < |rows| && rows[k].submittedBy.username == n
  {
    var names := seq(|rows|, i requires 0 <= i < |rows| => rows[i].submittedBy.username);
    assert forall n :: n in names <==> exists k :: 0 <= k < |rows| && rows[k].submittedBy.username == n by {
      forall n | n in names ensures exists k :: 0 <= k < |rows| && rows[k].submittedBy.username == n {
        var k :| 0 <= k < |names| && names[k] == n;
      }
      forall n, k | 0 <= k < |rows| && rows[k].submittedBy.username == n ensures n in names {
        assert names[k] == n;
      }
    }
    Distinct(names)
  }

  function AssigneeName(t: Ticket): Option<string> {
    match t.assignedTo
    case None => None
    case Some(u) => Some(u.username)
  }

  /** `values_list('assigned_to__username').distinct()`: an unassigned ticket contributes `None`. */
  function DistinctAssignees(rows: seq<Ticket>): (r: seq<Option<string>>)
    ensures NoDuplicates(r)
    ensures forall n :: n in r <==> exists k :: 0 <= k < |rows| && AssigneeName(rows[k]) == n
    ensures None in r <==> exists k :: 0 <= k < |rows| && rows[k].assignedTo.None?
  {
    var names := seq(|rows|, i requires 0 <= i < |rows| => AssigneeName(rows[i]));
    assert forall n :: n in names <==> exists k :: 0 <= k < |rows| && AssigneeName(rows[k]) == n by {
      forall n | n in names ensures exists k :: 0 <= k < |rows| && AssigneeName(rows[k]) == n {
        var k :| 0 <= k < |names| && names[k] == n;
      }
      forall n, k | 0 <= k < |rows| && AssigneeName(rows[k]) == n ensures n in names {
        assert names[k] == n;
      }
    }
    Distinct(names)
  }

  /** `get_ticket_filters()`: six filters in a fixed order. */
  function GetTicketFilters(rows: seq<Ticket>, choices: Choices): (r: Filters)
    ensures |r| == 6 && Keys(r) == FilterKeys
    ensures r[0].1 == Names(StatusCodes(choices.status))
    ensures r[1].1 == Names(DistinctApplications(rows))
    ensures r[2].1 == Names(PriorityLabels(choices.priority))
    ensures r[3].1 == Names(TypeLabels(choices.ticketType))
    ensures r[4].1 == Names(DistinctSubmitters(rows))
    ensures r[5].1 == OptionalNames(DistinctAssignees(rows))
  {
    var status := Names(StatusCodes(choices.status));
    var application := Names(DistinctApplications(rows));
    var priority := Names(PriorityLabels(choices.priority));
    var ticketType := Names(TypeLabels(choices.ticketType));
    var submitter := Names(DistinctSubmitters(rows));
    var assignee := OptionalNames(DistinctAssignees(rows));
    var r := [("status", status), ("application", application), ("priority", priority),
              ("type", ticketType), ("submitted_by", submitter), ("assigned_to", assignee)];
    KeysPointwise(r, FilterKeys);
    r
  }

  /** Popping `type` from a dictionary laid out as `FilterKeys` removes the fourth entry. */
  lemma PopTypeKey(all: Filters)
    requires Keys(all) == FilterKeys
    ensures "type" in Keys(all)
    ensures Pop(all, "type") == all[..3] + all[4..]
    ensures Keys(Pop(all, "type")) == ["status", "application", "priority", "submitted_by", "assigned_to"]
  {
    assert "type" != "status" && "type" != "application" && "type" != "priority" by {
      assert "type"[0] != "status"[0] && "type"[0] != "application"[0] && "type"[0] != "priority"[0];
    }
    assert Keys(all)[3] == "type";
    assert all[3].0 == "type" && all[0].0 == "status" && all[1].0 == "application" && all[2].0 == "priority";
    assert FirstKey(all, "type") == 3;
    var r := Pop(all, "type");
    assert r == all[..3] + all[4..];
    KeysPointwise(r, ["status", "application", "priority", "submitted_by", "assigned_to"]);
  }

  /** An ordered dictionary whose entries carry the keys `ks`, one by one, has `Keys` equal to `ks`. */
  lemma KeysPointwise<V>(d: seq<(string, V)>, ks: seq<string>)
    requires |d| == |ks|
    requires forall i :: 0 <= i < |d| ==> d[i].0 == ks[i]
    ensures Keys(d) == ks
  {
  }

  /** The bug-report and feature-request lists drop the `type` filter; the other five keep
      their order and values. */
  function TypeListFilters(rows: seq<Ticket>, choices: Choices): (r: Filters)
    ensures Keys(r) == ["status", "application", "priority", "submitted_by", "assigned_to"]
    ensures var all := GetTicketFilters(rows, choices); r == all[..3] + all[4..]
  {
    var all := GetTicketFilters(rows, choices);
    PopTypeKey(all);
    Pop(all, "type")
  }
}
