/**
  Records of the ticket tracker's database as the web layer sees them:
  tickets, follow-up comments and user accounts.
 */
module TicketTypes {

  datatype Option<T> = None | Some(value: T)

  type TicketId = nat
  type UserId = nat

  /** An account; Django compares accounts by primary key, so the model compares `id`s. */
  datatype User = User(id: UserId, username: string)

  /** One row of the ticket table. Status and type are the string codes the views compare against. */
  datatype Ticket = Ticket(
    id: TicketId,
    status: string,
    ticketType: string,
    priority: int,
    application: string,
    description: string,
    submittedBy: User,
    assignedTo: Option<User>,
    votes: nat,
    createdOn: int)

  /** One row of the follow-up log; `isPublic` decides which manager returns it. */
  datatype FollowUp = FollowUp(
    id: nat,
    ticket: TicketId,
    author: User,
    comment: string,
    createdOn: int,
    isPublic: bool)

  predicate SameUser(a: User, b: User) {
    a.id == b.id
  }

  /** Primary keys are unique in the ticket table. */
  ghost predicate UniqueIds(rows: seq<Ticket>) {
    forall i, j :: 0 <= i < |rows| && 0 <= j < |rows| && rows[i].id == rows[j].id ==> i == j
  }

  /** Index of the row with primary key `pk`, as `Ticket.objects.get(pk=pk)` looks it up. */
  function Find(rows: seq<Ticket>, pk: TicketId): (r: Option<nat>)
    ensures r.Some? ==> r.value < |rows| && rows[r.value].id == pk
    ensures r.None? <==> forall i :: 0 <= i < |rows| ==> rows[i].id != pk
  {
    if rows == [] then None
    else if rows[0].id == pk then Some(0)
    else match Find(rows[1..], pk)
      case None => None
      case Some(k) => Some(k + 1)
  }

  /** `Ticket.objects.get(pk=pk)`, with `None` for a missing row. */
  function Get(rows: seq<Ticket>, pk: TicketId): (r: Option<Ticket>)
    ensures r.Some? ==> r.value in rows && r.value.id == pk
    ensures r.None? <==> forall i :: 0 <= i < |rows| ==> rows[i].id != pk
  {
    match Find(rows, pk)
    case None => None
    case Some(i) => Some(rows[i])
  }

  /** The first account satisfying `p`, as `User.objects.get(...)` looks it up. */
  function FindUser(accounts: seq<User>, p: User -> bool): (r: Option<User>)
    ensures r.Some? ==> r.value in accounts && p(r.value)
    ensures r.None? <==> forall k :: 0 <= k < |accounts| ==> !p(accounts[k])
  {
    if accounts == [] then None
    else if p(accounts[0]) then Some(accounts[0])
    else FindUser(accounts[1..], p)
  }
}
