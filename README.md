# Ticket tracker views, modelled in Dafny

This project models the decision logic of the ticket tracker's web views
(`tickets/views.py`). That logic covers:

- the ticket lists: all tickets with search and per-user filtering, open, closed, bug reports and feature requests;
- the follow-ups shown on a ticket's detail page;
- the filter options shown beside every list;
- editing and creating a ticket;
- splitting a ticket into two children;
- the comment, close, reopen, accept and assign actions;
- up-voting.

The project has four modules:

- `TicketTypes` (`types.dfy`) holds the records the views read: tickets, follow-ups and accounts. It also holds the primary-key lookups (`Ticket.objects.get`, `User.objects.get`).
- `Ordering` (`ordering.dfy`) holds the sequence operations the query layer relies on:
  - a newest-first sort (`order_by('-created_on')`, `sorted`). The model's sort keeps equal keys in their input order. SQL `order_by` fixes no order among equal `created_on` values, so no contract about the lists relies on that tie order; `sorted` in Python is stable, as the model is;
  - `filter` and `distinct`;
  - `OrderedDict.pop`.
- `TicketQueries` (`queries.dfy`) holds the read-only views. These are the querysets of the list views, the comments of the detail view and `get_ticket_filters`. Each is a function on the ticket table.
- `TicketViews` (`views.dfy`) holds the views that change state or hand a form to be saved. These are the `TicketStore` class methods `UpdateTicket`, `SplitTicket`, `CommentOnTicket` and `UpvoteTicket`, together with the vote ledger they keep consistent.

Forms are opaque:

- `form.is_valid()` is a boolean parameter of each view.
- A `form.save()` appends the form (its kind, ticket, user and bound flag) to the store's `saved` log.
- `is_admin` is membership of the account's id in a set of admin ids: the store's `admins` field, passed on to the detail page's follow-up query. A signed-out reader has no account and is never an admin.
- Accounts appear in two shapes. The list lookups search accounts by id or by username, so they take the account records as a sequence. The up-vote view only asks whether the signed-in account's id still exists, so the store keeps the set of existing ids.
- A request is its user, whether it is a POST, and whether the POST carried form data. `if request.POST:` tests the last two together; `request.method == 'POST'` (in the split view) tests only the first.

## Model

| member | source | states |
|---|---|---|
| TicketTypes.Find | tickets/views.py:571 | the index returned holds the requested primary key, and there is none exactly when no row has that key |
| TicketTypes.Get | tickets/views.py:504-508 | the ticket returned is a row of the table with the requested key; `None` exactly when no row has it |
| TicketTypes.FindUser | tickets/views.py:190-193 | the account returned exists and satisfies the lookup; `None` exactly when no account does |
| Ordering.SortDesc | tickets/views.py:185 | the result is ordered by the key, largest first, and is a permutation of the input |
| Ordering.Filter | tickets/views.py:195-196 | every element occurs as often as in the input when it satisfies the predicate, and not at all otherwise |
| Ordering.FilterKeepsOrder | tickets/views.py:185-196 | filtering a newest-first list leaves it newest first |
| Ordering.Distinct | tickets/views.py:113-115 | the result has no duplicates and holds exactly the values of the input |
| Ordering.FirstKey | tickets/views.py:287 | the index of an entry carrying the key, with no earlier entry carrying it |
| Ordering.Pop | tickets/views.py:287 | for a key that is present, the entry at the first index carrying it is cut out: one entry fewer, entries before it unchanged, entries after it shifted down by one |
| TicketQueries.Select | tickets/views.py:232-235 | a filtered queryset ordered newest first: ordered, and each ticket kept as often as in the table exactly when it passes the filter |
| TicketQueries.ClosedTickets | tickets/views.py:232-235 | newest first; holds the tickets whose status is closed, split or duplicate, and no others |
| TicketQueries.OpenTickets | tickets/views.py:260-263 | newest first; holds the tickets whose status is new, accepted, assigned or reopened, and no others |
| TicketQueries.StatusCodesDisjoint | tickets/views.py:233-261 | no status code is in both the closed list and the open list |
| TicketQueries.OpenClosedDisjoint | tickets/views.py:232-263 | no ticket appears in both the open list and the closed list |
| TicketQueries.OpenClosedCover | tickets/views.py:232-263 | when every status is one of the seven codes, the two lists together hold each ticket exactly as often as the table |
| TicketQueries.TicketsOfType | tickets/views.py:292-294 | newest first; holds the tickets of the given type and no others |
| TicketQueries.BugAndFeatureListsDisjoint | tickets/views.py:292-325 | no ticket is both on the bug-report list and the feature-request list |
| TicketQueries.IContains | tickets/views.py:196 | an exact occurrence of the search in the description is always found, and a search longer than the description never is |
| TicketQueries.IContainsIff | tickets/views.py:196 | the search is found exactly when some position of the description matches every character of the search up to letter case |
| TicketQueries.FoundMatches | tickets/views.py:196 | a position where the folded search occurs in the folded description matches character by character up to case |
| TicketQueries.MatchesFound | tickets/views.py:196 | a position matching character by character up to case is an occurrence of the folded search in the folded description |
| TicketQueries.TextCaseIgnored | tickets/views.py:196 | the letter case of the description does not change whether the search is found |
| TicketQueries.ExactMatchFound | tickets/views.py:196 | an exact occurrence is still an occurrence once both strings are case-folded |
| TicketQueries.QueryCaseIgnored | tickets/views.py:196 | searching for a query or for its case-folded form finds the same tickets |
| TicketQueries.MatchesUser | tickets/views.py:198-208 | no user means no filter; a match always involves the user as submitter or assignee; a ticket the user both submitted and is assigned matches whatever `what` says |
| TicketQueries.ListQuery | tickets/views.py:185-208 | newest first; a ticket is kept exactly when it matches the search (if any) and the user filter (if a user was found) |
| TicketQueries.SearchWithoutUser | tickets/views.py:195-196 | with a non-empty search and no user, the list holds exactly the tickets whose description contains the search, ignoring case |
| TicketQueries.UserFieldSelection | tickets/views.py:198-205 | with a user, `submitted_by` matches the submitter, `assigned_to` matches the assignee, and anything else matches either |
| TicketQueries.UserFromKwargs | tickets/views.py:182-193 | the user is found only through a `userid` argument; with one, an account is found exactly when one has that id, and it is that account |
| TicketQueries.TicketListAsWritten | tickets/views.py:180-208 | newest first; a ticket is listed exactly when it matches the search and the user found from `userid` |
| TicketQueries.UserRouteIgnoresUser | tickets/urls.py:53-63 | on the per-user routes, the list as written holds every ticket that matches the search, whoever owns it |
| TicketQueries.SubmittedByAliceListsBob | tickets/urls.py:61-63 | a concrete input: bob's ticket is listed on alice's "submitted by" page |
| TicketQueries.UserFromRoute | tickets/urls.py:53-63 | the corrected lookup uses the id when one is given, otherwise the route's username; in both cases it finds an account exactly when one with that id or username exists, and the account found has it |
| TicketQueries.TicketList | tickets/views.py:180-208 | the corrected list: newest first, filtered by the search and by the user the route names |
| TicketQueries.SubmittedByRouteFilters | tickets/views.py:198-200 | on the "submitted by" route of an existing account, the corrected list holds exactly that account's matching tickets |
| TicketQueries.SeesInternal | tickets/views.py:73 | a signed-out reader never reads the all-comments manager; a signed-in reader does exactly when an admin or the ticket's submitter |
| TicketQueries.VisibleComments | tickets/views.py:69-80 | newest first; holds the ticket's follow-ups, internal ones only for admins and the submitter |
| TicketQueries.CommentVisibility | tickets/views.py:73-78 | a follow-up is shown exactly when it belongs to the ticket and is public or the viewer is an admin or the submitter |
| TicketQueries.AdminsSeeMore | tickets/views.py:73-78 | making more accounts admins never hides a follow-up from a reader |
| TicketQueries.SortedPriorities | tickets/views.py:106-107 | the priority choices ordered by code, smallest first, as a permutation of the declared ones |
| TicketQueries.StatusCodes | tickets/views.py:103-104 | the status codes, one per choice, in declaration order |
| TicketQueries.TypeLabels | tickets/views.py:110-111 | the type labels, one per choice, in declaration order |
| TicketQueries.PriorityLabels | tickets/views.py:106-108 | the priority labels in code order; every declared label appears and no other |
| TicketQueries.DistinctApplications | tickets/views.py:113-115 | every application of some ticket, each once |
| TicketQueries.DistinctSubmitters | tickets/views.py:117-119 | every submitter's username, each once |
| TicketQueries.DistinctAssignees | tickets/views.py:121-123 | every assignee's username, each once, and an empty entry exactly when some ticket is unassigned |
| TicketQueries.GetTicketFilters | tickets/views.py:95-134 | six filters with the keys status, application, priority, type, submitted_by, assigned_to, in that order, each holding its values |
| TicketQueries.PopTypeKey | tickets/views.py:286-287 | removing `type` from the six filters leaves the other five in order |
| TicketQueries.TypeListFilters | tickets/views.py:282-290 | the bug and feature lists show the five filters other than `type`, with the same values in the same order |
| TicketViews.SplitDefaults | tickets/views.py:405-418 | both children start as `new` with the parent's type, priority, application, assignee and description |
| TicketViews.SplitDefaultsIgnoreOtherFields | tickets/views.py:406-418 | the defaults depend on those five fields of the parent only |
| TicketViews.ActionTemplate | tickets/views.py:513-516 | the close/reopen page or the comment page |
| TicketViews.ActionForm | tickets/views.py:518-553 | the close form exactly for closed/reopened, the comment form for comment, the accept form for accept, the assign form for anything else; each for the ticket and the user |
| TicketViews.TemplateFollowsForm | tickets/views.py:513-532 | the close/reopen page is used exactly when the close form is built |
| TicketViews.DisplayedAction | tickets/views.py:550-552 | the label reads `re-assign` exactly for `assign` on an already assigned ticket, and is the action otherwise |
| TicketViews.CastVote | tickets/views.py:571-581 | a vote by a missing account changes nothing; otherwise the (ticket, user) pair is logged and the count rises by one exactly when the pair is new; every other field of the voted row and every other row stay as they were |
| TicketViews.CastVoteKeepsTally | tickets/views.py:577-581 | after a vote every ticket's count is still the number of distinct users who voted for it |
| TicketViews.SecondVoteChangesNothing | tickets/views.py:578-581 | voting twice has the effect of voting once |
| TicketViews.TicketStore.CanModify | tickets/views.py:356-357 | the ticket's submitter and admins may change it, and nobody else |
| TicketViews.TicketStore.DetailComments | tickets/views.py:63-80 | not found for a missing ticket; otherwise the ticket's follow-ups newest first, internal ones included exactly when the reader is signed in and is an admin or the submitter |
| TicketViews.TicketStore.UpdateTicket | tickets/views.py:354-370 | 404 for a missing ticket; a redirect to the ticket for anyone but its submitter or an admin; otherwise a valid POST saves the form and redirects, and anything else shows the form. Without a key, a new ticket is started with the requester as submitter and status `new` |
| TicketViews.TicketStore.SplitTicket | tickets/views.py:396-430 | a missing ticket redirects to the list; non-admins go back to the ticket; a valid POST saves the split and returns to the ticket; an invalid POST shows the bound form; a GET shows the form filled with the split defaults |
| TicketViews.TicketStore.CommentOnTicket | tickets/views.py:504-557 | a missing ticket redirects to the list; non-admins may only comment; a valid POST saves the form chosen by the action; otherwise the page is shown with the action's template and label |
| TicketViews.TicketStore.UpvoteTicket | tickets/views.py:571-582 | the new table and vote log are one `CastVote` on the old ones, the tally invariant is kept, and the response redirects to the ticket |

## Left out

- The URL table is not modelled as routing; `tickets/urls.py` is used only for the keyword arguments the per-user list routes pass (see Findings).
- `TagMixin` and `TagIndexView` (tag clouds and tag lists) are not part of this model.
- The context dictionaries of the list views (`closed`, `open`, `type`, `query`, `what` and `user`) are not modelled. The exception is the `filters` entry, which is modelled.
- Template rendering, `reverse`, `get_absolute_url`, pagination and `login_required` are left out. Responses name the template, form and action label, or the redirect target.
- What forms validate and what `save()` writes are left out. Validity is a parameter, and a save is a log entry. This covers the child tickets a split creates, the closing of the parent, and the follow-ups a comment, close, reopen, accept or assign creates.
- `is_admin` is taken as membership in the store's `admins` set. Its rules live outside the views.
- Transactions and concurrent requests are left out. Each view runs on its own against the store.
- Ordering.Pop: requires the key to be present. `OrderedDict.pop` without a default raises `KeyError` for an absent key; the only calls (tickets/views.py:287 and 318) pop `type` from the six filters, which always hold it (`TicketQueries.PopTypeKey`).
- TicketViews.TicketStore.SplitTicket: reads the admin gate `is_admin(request.user) is False` (tickets/views.py:402) as "not an admin". The two agree only when `is_admin` returns a real boolean. If it returned another falsy value such as `None`, the identity test would let a non-admin through, unlike the `not` tests at lines 357 and 510. `is_admin` is not part of this model.
- TicketViews.TicketStore.UpvoteTicket: requires the ticket to exist. For a missing ticket the source raises an uncaught `DoesNotExist`, which ends in a server error; that path is not modelled.
- TicketQueries.IContains: case folding covers ASCII letters only. The database's Unicode folding is not modelled.
- Ordering.Distinct: keeps the first occurrence of each value. The database returns `distinct()` rows in an order of its own choosing, so the model claims only membership and no duplicates.
- The choice lists declared on the ticket model are parameters (`Choices`). Priority codes are integers and status and type codes are strings.
- Accounts are compared by id, as Django compares model instances by primary key. An anonymous requester never equals a submitter, which the model reflects by letting the detail-page viewer be absent.
- `ticket.up_vote()` is modelled as adding one to the ticket's vote count.
- Parent links and tags on tickets are not part of this model.
- On an invalid POST, the comment view builds a `render(...)` at tickets/views.py:538-540 and discards it. Control then reaches the `render` at line 555 with the same template, form and action, so the response is the same. The model returns that single render.

## Findings

| source | as written | input that shows it | evidently intended | confidence | as-written member | corrected member |
|---|---|---|---|---|---|---|
| tickets/views.py:182 with tickets/urls.py:53-63 | the main list looks the user up by a `userid` keyword argument, but the per-user routes pass `username`, so the user is never found and no user filter is applied | alice's "submitted by" page with one ticket submitted by bob: bob's ticket is listed | the per-user routes list only the tickets the named account submitted or is assigned to | high (not executed) | TicketQueries.SubmittedByAliceListsBob | TicketQueries.SubmittedByRouteFilters |
