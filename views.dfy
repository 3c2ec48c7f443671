/**
  The views that change the ticket store or hand a form to be saved: editing
  or creating a ticket, splitting a ticket, the comment / close / reopen /
  accept / assign actions, and voting.

  What `form.is_valid()` decides and what `form.save()` writes belong to the
  forms, which are not part of this model: validity is a parameter of each
  view, and a save is recorded by appending the saved form to `saved`.
 */
module TicketViews {
  import opened TicketTypes
  import Ordering
  import TicketQueries

  /** The parts of an HTTP request the views look at. `hasBody` says whether a POST carried
      form data: `if request.POST:` tests that, `request.method == 'POST'` does not. */
  datatype Request = Request(user: User, isPost: bool, hasBody: bool)

  predicate HasPostData(r: Request) {
    r.isPost && r.hasBody
  }

  /** Where a redirect goes: the ticket list, a ticket's page, or the page of the ticket a
      save returned. */
  datatype Location = TicketListPage | TicketPage(id: TicketId) | SavedTicketPage

  /** The ticket a TicketForm edits: an existing row, or a new one with only its submitter
      and status set. */
  datatype Instance = Stored(ticket: Ticket) | Unsaved(submittedBy: User, status: string)

  /** The initial values the split form offers for one child ticket. */
  datatype ChildDefaults = ChildDefaults(
    status: string, ticketType: string, priority: int, application: string,
    assignedTo: Option<User>, description: string)

  datatype SplitInitial = SplitInitial(first: ChildDefaults, second: ChildDefaults)

  /** The forms the views build; `bound` says whether the form was given the POST data. */
  datatype Form =
    | TicketForm(instance: Instance, bound: bool)
    | SplitTicketForm(original: Ticket, user: User, initial: Option<SplitInitial>)
    | CloseTicketForm(ticket: Ticket, user: User, action: string, bound: bool)
    | CommentTicketForm(ticket: Ticket, user: User, bound: bool)
    | AcceptTicketForm(ticket: Ticket, user: User, bound: bool)
    | AssignTicketForm(ticket: Ticket, user: User, bound: bool)

  datatype Response =
    | NotFound
    | Redirect(to: Location)
    | Render(template: string, form: Form, action: Option<string>)

  const TicketFormTemplate := "tickets/ticket_form.html"
  const SplitTemplate := "tickets/split_ticket_form.html"
  const CloseReopenTemplate := "tickets/close_reopen_ticket_form.html"
  const CommentTemplate := "tickets/comment_form.html"

  // ---------------------------------------------------------------------------
  // Splitting: the defaults offered for the two children.

  /** Both children start as `new` and copy type, priority, application, assignee and
      description from the parent. */
  function SplitDefaults(parent: Ticket): (d: SplitInitial)
    ensures d.first == d.second
    ensures d.first.status == "new"
    ensures d.first.ticketType == parent.ticketType && d.first.priority == parent.priority
    ensures d.first.application == parent.application && d.first.assignedTo == parent.assignedTo
    ensures d.first.description == parent.description
  {
    var child := ChildDefaults("new", parent.ticketType, parent.priority, parent.application,
                               parent.assignedTo, parent.description);
    SplitInitial(child, child)
  }

  /** The defaults depend on the five copied fields only: never on the parent's status,
      votes, submitter or age. */
  lemma SplitDefaultsIgnoreOtherFields(p: Ticket, q: Ticket)
    requires p.ticketType == q.ticketType && p.priority == q.priority
    requires p.application == q.application && p.assignedTo == q.assignedTo
    requires p.description == q.description
    ensures SplitDefaults(p) == SplitDefaults(q)
  {
  }

  // ---------------------------------------------------------------------------
  // The comment view's dispatch on its `action` argument.

  predicate IsCloseOrReopen(action: string) {
    action == "closed" || action == "reopened"
  }

  function ActionTemplate(action: string): (t: string)
    ensures t == CloseReopenTemplate || t == CommentTemplate
  {
    if IsCloseOrReopen(action) then CloseReopenTemplate else CommentTemplate
  }

  /** Closing and reopening share a form; `comment` and `accept` have their own; anything
      else is treated as assign. */
  function ActionForm(action: string, ticket: Ticket, user: User, bound: bool): (f: Form)
    ensures f.CloseTicketForm? <==> IsCloseOrReopen(action)
    ensures f.CommentTicketForm? <==> action == "comment"
    ensures f.AcceptTicketForm? <==> action == "accept"
    ensures f.AssignTicketForm? <==> !IsCloseOrReopen(action) && action != "comment" && action != "accept"
    ensures f.CloseTicketForm? ==> f == CloseTicketForm(ticket, user, action, bound)
    ensures !f.CloseTicketForm? ==> !f.TicketForm? && !f.SplitTicketForm? && f.ticket == ticket && f.user == user && f.bound == bound
  {
    if IsCloseOrReopen(action) then CloseTicketForm(ticket, user, action, bound)
    else if action == "comment" then CommentTicketForm(ticket, user, bound)
    else if action == "accept" then AcceptTicketForm(ticket, user, bound)
    else AssignTicketForm(ticket, user, bound)
  }

  /** The close/reopen page is shown exactly when the close form is built. */
  lemma TemplateFollowsForm(action: string, ticket: Ticket, user: User, bound: bool)
    ensures ActionTemplate(action) == CloseReopenTemplate <==> ActionForm(action, ticket, user, bound).CloseTicketForm?
  {
  }

  /** The action label of a form page shown without POST data: assigning an already assigned
      ticket reads `re-assign`. */
  function DisplayedAction(action: string, ticket: Ticket): (shown: string)
    ensures action == "assign" && ticket.assignedTo.Some? ==> shown == "re-assign"
    ensures !(action == "assign" && ticket.assignedTo.Some?) ==> shown == action
  {
    if !IsCloseOrReopen(action) && action != "comment" && action != "accept"
       && ticket.assignedTo.Some? && action == "assign"
    then "re-assign"
    else action
  }

  // ---------------------------------------------------------------------------
  // The vote ledger.

  /** The ticket table together with the (ticket, user) vote log. */
  datatype Ledger = Ledger(rows: seq<Ticket>, votes: set<(TicketId, UserId)>)

  ghost function Voters(votes: set<(TicketId, UserId)>, t: TicketId): set<UserId> {
    set p | p in votes && p.0 == t :: p.1
  }

  /** Every ticket's vote count is the number of distinct users who voted for it. */
  ghost predicate VotesTallied(rows: seq<Ticket>, votes: set<(TicketId, UserId)>) {
    forall k :: 0 <= k < |rows| ==> rows[k].votes == |Voters(votes, rows[k].id)|
  }

  /** One vote by `voter` (if the account exists) for the ticket at row `i`: the (ticket, user)
      entry is fetched or created, and only a newly created entry raises the count by one. */
  function CastVote(l: Ledger, i: nat, voter: Option<UserId>): (r: Ledger)
    requires i < |l.rows|
    ensures |r.rows| == |l.rows|
    ensures voter.None? ==> r == l
    ensures voter.Some? ==> r.votes == l.votes + {(l.rows[i].id, voter.value)}
    ensures forall k :: 0 <= k < |l.rows| && k != i ==> r.rows[k] == l.rows[k]
    ensures r.rows[i] == l.rows[i].(votes := r.rows[i].votes)
    ensures r.rows[i].votes == l.rows[i].votes + if voter.Some? && (l.rows[i].id, voter.value) !in l.votes then 1 else 0
  {
    match voter
    case None => l
    case Some(u) =>
      var t := l.rows[i];
      var created := (t.id, u) !in l.votes;
      var votes := l.votes + {(t.id, u)};
      if created then Ledger(l.rows[i := t.(votes := t.votes + 1)], votes) else Ledger(l.rows, votes)
  }

  /** A vote keeps every count equal to the number of distinct voters. */
  lemma {:induction false} CastVoteKeepsTally(l: Ledger, i: nat, voter: Option<UserId>)
    requires i < |l.rows|
    requires UniqueIds(l.rows) && VotesTallied(l.rows, l.votes)
    ensures UniqueIds(CastVote(l, i, voter).rows)
    ensures VotesTallied(CastVote(l, i, voter).rows, CastVote(l, i, voter).votes)
  {
    var r := CastVote(l, i, voter);
    assert forall k :: 0 <= k < |r.rows| ==> r.rows[k].id == l.rows[k].id;
    if voter.Some? {
      var t, u := l.rows[i].id, voter.value;
      assert Voters(r.votes, t) == Voters(l.votes, t) + {u};
      if (t, u) !in l.votes {
        assert u !in Voters(l.votes, t);
      }
      forall k | 0 <= k < |r.rows| ensures r.rows[k].votes == |Voters(r.votes, r.rows[k].id)| {
        if k != i {
          assert l.rows[k].id != t;
          assert Voters(r.votes, l.rows[k].id) == Voters(l.votes, l.rows[k].id);
        }
      }
    }
  }

  /** Voting again changes nothing: two votes by one user raise the count by at most one in
      total, and by exactly one when the user had not voted before. */
  lemma SecondVoteChangesNothing(l: Ledger, i: nat, u: UserId)
    requires i < |l.rows|
    ensures CastVote(CastVote(l, i, Some(u)), i, Some(u)) == CastVote(l, i, Some(u))
    ensures CastVote(CastVote(l, i, Some(u)), i, Some(u)).rows[i].votes ==
      l.rows[i].votes + if (l.rows[i].id, u) in l.votes then 0 else 1
  {
  }

  // ---------------------------------------------------------------------------
  // The store the views work on.

  class TicketStore {
    var rows: seq<Ticket>
    var followUps: seq<FollowUp>
    var votes: set<(TicketId, UserId)>
    /** Ids of the accounts that exist. */
    var accounts: set<UserId>
    /** Ids of the accounts `is_admin` accepts. */
    var admins: set<UserId>
    /** The forms whose `save()` has run, oldest first. */
    var saved: seq<Form>

    ghost predicate Valid()
      reads this
    {
      UniqueIds(rows) && VotesTallied(rows, votes)
    }

    constructor (rows: seq<Ticket>, followUps: seq<FollowUp>, votes: set<(TicketId, UserId)>,
                 accounts: set<UserId>, admins: set<UserId>)
      requires UniqueIds(rows) && VotesTallied(rows, votes)
      ensures Valid()
      ensures this.rows == rows && this.followUps == followUps && this.votes == votes
      ensures this.accounts == accounts && this.admins == admins && saved == []
    {
      this.rows := rows;
      this.followUps := followUps;
      this.votes := votes;
      this.accounts := accounts;
      this.admins := admins;
      saved := [];
    }

    predicate IsAdmin(u: User)
      reads this
    {
      u.id in admins
    }

    /** Only a ticket's submitter or an admin may change an existing ticket: both may, and
        nobody else. */
    function CanModify(u: User, t: Ticket): (ok: bool)
      reads this
      ensures SameUser(u, t.submittedBy) ==> ok
      ensures IsAdmin(u) ==> ok
      ensures ok ==> SameUser(u, t.submittedBy) || IsAdmin(u)
    {
      SameUser(u, t.submittedBy) || IsAdmin(u)
    }

    /** The `comments` of ticket `pk`'s detail page for `viewer` (`None` when signed out):
        not found when the ticket is missing; otherwise the ticket's public follow-ups, and its
        internal ones too for admins and the submitter, newest first. */
    function DetailComments(pk: TicketId, viewer: Option<User>): (r: Option<seq<FollowUp>>)
      reads this
      ensures r.None? <==> Get(rows, pk).None?
      ensures r.Some? ==> Ordering.NonIncreasing(r.value, TicketQueries.FollowUpCreated)
      ensures r.Some? ==> forall c :: c in r.value <==>
        c in followUps && c.ticket == pk &&
        (c.isPublic || (viewer.Some? && (IsAdmin(viewer.value) || SameUser(viewer.value, Get(rows, pk).value.submittedBy))))
    {
      match Get(rows, pk)
      case None => None
      case Some(t) =>
        var r := TicketQueries.VisibleComments(followUps, t, viewer, admins);
        assert forall c :: c in r <==> c in followUps && c.ticket == pk && (c.isPublic || TicketQueries.SeesInternal(t, viewer, admins)) by {
          forall c ensures c in r <==> c in followUps && c.ticket == pk && (c.isPublic || TicketQueries.SeesInternal(t, viewer, admins)) {
            TicketQueries.CommentVisibility(followUps, t, viewer, admins, c);
          }
        }
        Some(r)
    }

    /** Edit the ticket `pk`, or create one when no `pk` is given. */
    method UpdateTicket(request: Request, pk: Option<TicketId>, formValid: bool) returns (resp: Response)
      requires Valid()
      modifies this`saved
      ensures Valid()
      ensures pk.Some? && Get(rows, pk.value).None? ==> resp == NotFound && saved == old(saved)
      ensures pk.Some? && Get(rows, pk.value).Some? && !CanModify(request.user, Get(rows, pk.value).value) ==>
        resp == Redirect(TicketPage(pk.value)) && saved == old(saved)
      ensures pk.None? || (Get(rows, pk.value).Some? && CanModify(request.user, Get(rows, pk.value).value)) ==>
        var instance := if pk.None? then Unsaved(request.user, "new") else Stored(Get(rows, pk.value).value);
        if HasPostData(request) && formValid then
          resp == Redirect(SavedTicketPage) && saved == old(saved) + [TicketForm(instance, true)]
        else
          resp == Render(TicketFormTemplate, TicketForm(instance, HasPostData(request)), None) && saved == old(saved)
    {
      var instance;
      if pk.Some? {
        var found := Get(rows, pk.value);
        if found.None? {
          return NotFound;
        }
        var ticket := found.value;
        if !CanModify(request.user, ticket) {
          return Redirect(TicketPage(ticket.id));
        }
        instance := Stored(ticket);
      } else {
        instance := Unsaved(request.user, "new");
      }
      var form;
      if HasPostData(request) {
        form := TicketForm(instance, true);
        if formValid {
          saved := saved + [form];
          return Redirect(SavedTicketPage);
        }
      } else {
        form := TicketForm(instance, false);
      }
      resp := Render(TicketFormTemplate, form, None);
    }

    /** Offer (without POST) or submit (with POST) the split of ticket `pk`; admins only. */
    method SplitTicket(request: Request, pk: Option<TicketId>, formValid: bool) returns (resp: Response)
      requires Valid()
      modifies this`saved
      ensures Valid()
      ensures pk.None? || Get(rows, pk.value).None? ==> resp == Redirect(TicketListPage) && saved == old(saved)
      ensures pk.Some? && Get(rows, pk.value).Some? ==>
        var t := Get(rows, pk.value).value;
        if !IsAdmin(request.user) then
          resp == Redirect(TicketPage(pk.value)) && saved == old(saved)
        else if request.isPost && formValid then
          resp == Redirect(TicketPage(pk.value)) && saved == old(saved) + [SplitTicketForm(t, request.user, None)]
        else if request.isPost then
          resp == Render(SplitTemplate, SplitTicketForm(t, request.user, None), None) && saved == old(saved)
        else
          resp == Render(SplitTemplate, SplitTicketForm(t, request.user, Some(SplitDefaults(t))), None)
          && saved == old(saved)
    {
      var found := if pk.Some? then Get(rows, pk.value) else None;
      if found.None? {
        return Redirect(TicketListPage);
      }
      var ticket := found.value;
      if !IsAdmin(request.user) {
        return Redirect(TicketPage(ticket.id));
      }
      var initial := SplitDefaults(ticket);
      var form;
      if request.isPost {
        form := SplitTicketForm(ticket, request.user, None);
        if formValid {
          saved := saved + [form];
          return Redirect(TicketPage(ticket.id));
        }
      } else {
        form := SplitTicketForm(ticket, request.user, Some(initial));
      }
      resp := Render(SplitTemplate, form, None);
    }

    /** Comment on ticket `pk`, or (admins only) close, reopen, accept or assign it. */
    method CommentOnTicket(request: Request, pk: TicketId, action: string, formValid: bool) returns (resp: Response)
      requires Valid()
      modifies this`saved
      ensures Valid()
      ensures Get(rows, pk).None? ==> resp == Redirect(TicketListPage) && saved == old(saved)
      ensures Get(rows, pk).Some? && !IsAdmin(request.user) && action != "comment" ==>
        resp == Redirect(TicketPage(pk)) && saved == old(saved)
      ensures Get(rows, pk).Some? && (IsAdmin(request.user) || action == "comment") ==>
        var t := Get(rows, pk).value;
        var form := ActionForm(action, t, request.user, HasPostData(request));
        if HasPostData(request) && formValid then
          resp == Redirect(TicketPage(pk)) && saved == old(saved) + [form]
        else if HasPostData(request) then
          resp == Render(ActionTemplate(action), form, Some(action)) && saved == old(saved)
        else
          resp == Render(ActionTemplate(action), form, Some(DisplayedAction(action, t))) && saved == old(saved)
    {
      var found := Get(rows, pk);
      if found.None? {
        return Redirect(TicketListPage);
      }
      var ticket := found.value;
      if !IsAdmin(request.user) && action != "comment" {
        return Redirect(TicketPage(ticket.id));
      }
      var template := ActionTemplate(action);
      var form;
      var shown := action;
      if HasPostData(request) {
        form := ActionForm(action, ticket, request.user, true);
        if formValid {
          saved := saved + [form];
          return Redirect(TicketPage(ticket.id));
        }
      } else {
        form := ActionForm(action, ticket, request.user, false);
        shown := DisplayedAction(action, ticket);
      }
      resp := Render(template, form, Some(shown));
    }

    /** Vote for ticket `pk`: at most one vote per account, and the count follows the log. */
    method UpvoteTicket(request: Request, pk: TicketId) returns (resp: Response)
      requires Valid()
      requires Get(rows, pk).Some?
      modifies this`rows, this`votes
      ensures Valid()
      ensures Find(old(rows), pk).Some?
      ensures Ledger(rows, votes) ==
        CastVote(Ledger(old(rows), old(votes)), Find(old(rows), pk).value,
                 if request.user.id in accounts then Some(request.user.id) else None)
      ensures resp == Redirect(TicketPage(pk))
    {
      var i := Find(rows, pk).value;
      var ticket := rows[i];
      ghost var before := Ledger(rows, votes);
      ghost var voter: Option<UserId> := None;
      if request.user.id in accounts {
        var user := request.user.id;
        voter := Some(user);
        var created := (ticket.id, user) !in votes;
        votes := votes + {(ticket.id, user)};
        if created {
          rows := rows[i := ticket.(votes := ticket.votes + 1)];
        }
      }
      CastVoteKeepsTally(before, i, voter);
      resp := Redirect(TicketPage(pk));
    }
  }
}
