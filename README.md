# Public service queue: ticket numbering, queue dispatch and the citizen registry

This project models the core of a queue-management backend for a citizen-services office, written in Dafny. Citizens are registered in a registry and request a service. Each request gets a ticket with a sequential number. Staff then call the pending tickets of a service in order. The model covers five parts:

- **Formatted ticket numbers** (`TicketNumbering`). The ticket view's create action takes the service's most recent ticket and reads the numeric suffix after the last `-` of its number. The new number is `"<code>-"` followed by that value plus one, zero-padded to at least four digits. The number falls back to `"<code>-0001"` when there is no previous number or its suffix does not parse.
- **Daily integer numbers** (`TicketModel`). `Ticket.save` gives a ticket without a number one more than the highest number among the same service's tickets of the same day, or 1 when there are none, and then inserts the record. The model also covers the four status choices and the `pending` default.
- **Queue dispatch** (`TicketQueue`). The `TicketStore` class holds the ticket table. `NextTicket` returns the pending ticket of a service with the earliest creation time and changes nothing. `ServeNext` moves that same ticket from pending to serving and changes nothing else. Both check the service parameter first: a missing one gives 400 and an unknown one gives 404. Both answer "no content" when nothing is pending.
- **Request rules of the ticket view** (`TicketViews`). This covers which actions need an admin user, and how the create action validates its service parameter.
- **Citizen registry** (`Citizens`). The `CitizenRegistry` class models the citizen view:
  - `create` and `update` refuse a national id another citizen already holds.
  - `destroy` has a ticket guard.
  - `citizen_tickets` lists a citizen's tickets with their count.

The model includes the following abstractions:
- Days are abstract integers, and creation times are integers.
- A ticket's `number` is a natural number. The value 0 stands for "unset", which covers both null and 0: `save` treats both as missing.
- A ticket is identified by its position in the table.
- A service is identified by a natural number. A service parameter that fails the views' `if not service_id` test is `None`. That covers a missing key, an empty string, null and a JSON integer `0` in the request body of create and serve_next. A query-string `"0"` for next_ticket is a non-empty string, so it passes that test and reaches the lookup as `Some(0)`. Service ids are auto-increment keys starting at 1, so such a lookup gives 404.
- The clock (`now`, `today`) is a parameter of `Save`.
- The service's number prefix `code` is a parameter of the create planning. The Service model has no such field (backend/services/models.py:3-10). As written, `service.code` raises, and the broad handler turns that into a 500.
- Creation times may tie. `created_at` is the only ordering key, so the model breaks ties by the lowest position in the table.

Further points of the code's behaviour:
- The ticket views check whether a service exists but not whether it is active.
- Ticket creation never retries and never reports a numbering conflict. Two concurrent saves can compute the same daily number.
- `serve_next` checks no status state machine. Its 400 "Invalid status transition" branch is reached only when `full_clean` fails, and setting the valid choice `serving` does not fail it. The model therefore has no such outcome.
- The citizen `update`, `destroy` and `citizen_tickets` actions answer 500 rather than 404 for an unknown citizen. Django's `Http404` raised by `get_object` is swallowed by each action's `except Exception`.

## Model

| member | source | states |
|---|---|---|
| `TicketNumbering.ParseNat` | backend/tickets/views.py:64 | the suffix parses exactly when it is a non-empty run of ASCII decimal digits, and then to its decimal value (the 4300-digit conversion limit is left out) |
| `TicketNumbering.Decimal` | backend/tickets/views.py:65 | the decimal form of n is a non-empty digit string without a leading zero whose value is n |
| `TicketNumbering.Pad4` | backend/tickets/views.py:65 | the `04d` form of n is all digits, has value n, is at least four characters long, exactly four below 10000, and is unpadded when wider |
| `TicketNumbering.LastSegment` | backend/tickets/views.py:64 | `split('-')[-1]` is the longest dash-free suffix of the number: it has no dash and is either the whole string or preceded by a dash |
| `TicketNumbering.LastSegmentAfterDash` | backend/tickets/views.py:64 | whatever the prefix (dashes included), the last segment of `prefix-d` is d when d has no dash |
| `TicketNumbering.SuffixRoundTrip` | backend/tickets/views.py:64-65 | parsing the last segment of `code-pad4(n)` gives back n |
| `TicketNumbering.FirstNumber` | backend/tickets/views.py:67-69 | the literal fallback `code-0001` is the padded form of 1 and parses back to 1 |
| `TicketNumbering.NextFormattedNumber` | backend/tickets/views.py:62-69 | no previous ticket, an empty number or an unparsable suffix gives `code-0001`; a parsed suffix n gives `code-pad4(n+1)`; either way the new suffix parses back to that value |
| `TicketNumbering.NextAfterIssued` | backend/tickets/views.py:58-65 | creating after `code-pad4(n)` yields `code-pad4(n+1)` |
| `TicketNumbering.SequentialNumbers` | backend/tickets/views.py:58-69 | the k-th creation for a service with no tickets is `code-pad4(k+1)`: suffixes 0001, 0002, 0003, ... without gaps |
| `TicketViews.PermissionFor` | backend/tickets/views.py:30-36 | the admin permission is chosen exactly for create, update, partial_update, destroy, serve_next and next_ticket |
| `TicketViews.AdminActionsNeedStaff` | backend/tickets/views.py:34-35 | an admin-only action is admitted exactly for staff users |
| `TicketViews.OtherActionsAreOpen` | backend/tickets/views.py:36 | every other action, or no action, is admitted for anyone |
| `TicketViews.PlanCreate` | backend/tickets/views.py:44-69 | a missing service id is a validation error, an unknown one is 404 (no number, no ticket, in both cases); otherwise the number is the formatted next number, starts with `code-` and has a parsable suffix |
| `TicketModel.ParseStatus` | backend/tickets/models.py:5-10 | a stored status string maps back to the choice whose value it is, and is rejected when no choice has that value |
| `TicketModel.StatusRoundTrip` | backend/tickets/models.py:5-10 | each of the four statuses survives storing and reading back |
| `TicketModel.NewTicket` | backend/tickets/models.py:22-23 | a ticket starts without a number and with the stored status `pending` |
| `TicketModel.ScopeNumbers` | backend/tickets/models.py:30-33 | the in-scope numbers: empty exactly when no ticket of the service was created that day; every such ticket's number is in it and nothing else |
| `TicketModel.SeqMax` | backend/tickets/models.py:33 | `order_by('-number').first()`: an element of the numbers no smaller than any other |
| `TicketModel.DailyNumber` | backend/tickets/models.py:27-34 | the assigned number is 1 with no same-service same-day ticket, otherwise one more than the number of such a ticket, and strictly above every number in the scope |
| `TicketModel.Assigned` | backend/tickets/models.py:26-35 | a number is assigned only when it is unset (a set one is kept), and only the number and the creation time and day change |
| `TicketModel.ScopeNumbersAppend` | backend/tickets/models.py:30-33 | the scope numbers of a concatenated table are the concatenation of the parts' scope numbers |
| `TicketModel.OtherScopesIrrelevant` | backend/tickets/models.py:30-33 | a ticket of another service or another day, wherever it sits, does not change the assigned number |
| `TicketModel.SaveExtendsScope` | backend/tickets/models.py:26-35 | saving an unnumbered ticket appends its number to its own scope and leaves every other scope unchanged |
| `TicketModel.ContiguousNext` | backend/tickets/models.py:30-34 | in a scope numbered 1..k the next assigned number is k+1 |
| `TicketModel.SequentialSavesGapFree` | backend/tickets/models.py:28-34 | a scope numbered 1..k becomes 1..k+1 after the next save: sequential saves are gap-free |
| `TicketModel.SaveKeepsScopeDistinct` | backend/tickets/models.py:30-34 | the assigned number is not yet used in its scope, so a scope of distinct numbers stays distinct |
| `TicketModel.StatusChangeKeepsNumbers` | backend/tickets/views.py:181-187 | changing a ticket's status leaves every scope's numbers unchanged: numbers are never altered after creation |
| `TicketQueue.EarliestPending` | backend/tickets/views.py:119-121 | a ticket is selected exactly when the service has a pending one, and the selected one heads the queue: pending, earliest `created_at`, first among ties |
| `TicketQueue.NextInQueueUnique` | backend/tickets/views.py:119-121 | a position heads the queue if and only if it is the one selected, so the choice is deterministic |
| `TicketQueue.TicketStore.Save` | backend/tickets/models.py:26-35 | the persisted record is the assigned one and is appended; existing records are untouched |
| `TicketQueue.TicketStore.NextTicket` | backend/tickets/views.py:95-130 | missing service 400, unknown service 404, otherwise 204 exactly when nothing is pending and else the head of the queue; the table is only read |
| `TicketQueue.TicketStore.ServeNext` | backend/tickets/views.py:145-202 | the ticket NextTicket returns goes from pending to serving and every other ticket and field stays; any other outcome is NextTicket's and the table is unchanged |
| `TicketQueue.TicketStore.ServeNextAsWritten` | backend/tickets/views.py:169-193 | as written, a selected ticket always ends in a 500 and the table stays unchanged; the other outcomes are NextTicket's |
| `TicketQueue.NewTicketIsQueued` | backend/tickets/models.py:23 | a newly saved ticket is pending and so eligible for dispatch in its service |
| `TicketQueue.SaveIntoGapFreeScope` | backend/tickets/models.py:26-35 | saving an unnumbered ticket into a scope numbered 1..k stores it with number k+1 and the current creation time, and keeps the scope gap-free |
| `TicketQueue.NumberingScenario` | backend/tickets/models.py:26-35 | three saves for an empty service on one day are numbered 1, 2, 3 and are pending |
| `Citizens.FromInput` | backend/citizens/models.py:3-8 | a payload describes a record exactly when every field is present; the record's four text fields are the payload's values and its creation time is `now` |
| `Citizens.Merge` | backend/citizens/views.py:82 | each field present in the payload replaces the stored one, each absent field keeps its stored value, and the creation time stays |
| `Citizens.TicketsOf` | backend/citizens/views.py:101 | the listed tickets are the citizen's tickets of the table, each occurring as often as in the table, and no other ticket occurs; so the length is the number of the citizen's tickets |
| `Citizens.GuardIgnoresTicketsAsWritten` | backend/citizens/views.py:127 | without a `ticket_set` attribute the deletion guard never fires, even for a citizen with tickets |
| `Citizens.GuardWithRelation` | backend/citizens/views.py:127 | with the relation present the guard fires exactly when the citizen has tickets |
| `Citizens.InsertKeepsUnique` | backend/citizens/views.py:36-45 | inserting a validated record under a new key keeps national ids unique |
| `Citizens.ReplaceKeepsUnique` | backend/citizens/views.py:72-82 | replacing a record with a validated one keeps national ids unique |
| `Citizens.CitizenRegistry.Create` | backend/citizens/views.py:28-61 | a non-empty national id already on record gives 409 with the table unchanged; a missing or empty one skips that check; a valid record is inserted under a new key; uniqueness is kept |
| `Citizens.CitizenRegistry.Update` | backend/citizens/views.py:63-92 | an unknown citizen gives 500; a national id held by another citizen gives 409 with the table unchanged; the same or an absent id passes; a payload the serializer rejects gives 400 with the table unchanged; a valid merged record replaces the old one; uniqueness is kept |
| `Citizens.CitizenRegistry.Destroy` | backend/citizens/views.py:119-155 | an unknown citizen gives 500; when the guard holds the answer is 400 with the ticket count and the table unchanged; otherwise exactly that citizen is removed |
| `Citizens.CitizenRegistry.CitizenTickets` | backend/citizens/views.py:94-117 | a listing is produced exactly for a known citizen with the relation present; its tickets are `TicketsOf` that citizen and its count is their number |

## Left out

- HTTP response payloads, messages, logging and serializers (the serializers are not part of this model). Each action returns an abstract outcome tag instead.
- backend/config/exceptions.py. It only wraps the framework's exception handler and adds no logic of its own.
- Transactions, database locking and concurrency. Everything is modelled sequentially, and nothing is claimed about at-most-once claims under concurrent requests. The code has no row locking or retry.
- Database errors (503) and unexpected exceptions (500). These appear only as an opaque `ServerError` where the source's logic itself leads there.
- Model validation (`full_clean`) in `serve_next` is taken to succeed. `serving` is always a valid choice.
- Time zones and date arithmetic. The day is an abstract integer supplied by the caller.
- TicketModel.Assigned: files the stored record under the same day `today` that chose its numbering scope. In the source these are two separate dates. The scope filter uses `timezone.now().date()` (backend/tickets/models.py:29). The record is later found through `created_at__date` (line 32), the current-time-zone date of the `created_at` that `super().save()` stamps afterwards (line 35). The two agree only when the time zone is UTC and no save straddles midnight. Otherwise two saves can receive the same number, or a new day's scope can start above 1. `SequentialSavesGapFree`, `SaveKeepsScopeDistinct` and `SaveIntoGapFreeScope` rest on this agreement, and the time-zone settings are not part of this model.
- TicketNumbering.ParseNat: does not model `int()` accepting surrounding whitespace, a leading `+`, underscores between digits or non-ASCII digits. Such suffixes fall back to `-0001` in the model. ParseNat also does not model CPython's default limit of 4300 digits for integer-string conversion (`sys.set_int_max_str_digits`). `int()` raises `ValueError` on a longer suffix, so the source falls back to `-0001`, while the model parses the suffix.
- TicketNumbering.NextFormattedNumber: does not model the same 4300-digit limit on formatting. Once n+1 has more than 4300 digits, `f"{n:04d}"` raises `ValueError` and the source falls back to `code-0001`. The model gives `code-pad4(n+1)`. The model's numbers are unbounded, so its contracts hold without that limit.
- The view's number is a string, while the model stores an integer. The two policies are kept as separate functions, and nothing models the view passing a string to the integer field.
- TicketViews.PlanCreate: takes the number of the service's most recent ticket (`order_by('-created_at').first()`) as the parameter `latest` instead of querying for it, because the view's number is a string and the table stores integers. It also takes `code` as a parameter, because the Service model has no such field.
- The create view sets `request.data._mutable`, and the serializer then persists the ticket. Neither step is modelled.
- Non-numeric service ids, where the ORM lookup would raise. Ids are natural numbers.
- TicketModel.DailyNumber: is an unbounded natural number. It does not model the `PositiveIntegerField` bound of 2147483647. A database that enforces that bound rejects a larger number, and the create action then answers 503.
- Null numbers among the stored tickets of a scope. Every record gets its number from `save`, so none is null.
- TicketQueue.TicketStore.Save: models only the insertion of a new ticket. A `save` of an existing record, such as the status update in `serve_next`, is covered by `ServeNext` instead.
- Citizens.CitizenRegistry.Create and Citizens.CitizenRegistry.Update: model the serializer's validation from the model's field declarations only. All four text fields are required and non-blank, with their maximum lengths, and `national_id` is unique. Whitespace trimming is not modelled.
- Citizens.CitizenRegistry.Destroy: removes only the citizen. The database's cascading deletion of that citizen's tickets belongs to the ticket table.
- Ticket deletion (`TicketViewSet.destroy`), and the list, retrieve and update actions inherited from the framework. They carry no logic of their own.
- Admin registrations and the plain field declarations of users and services.

## Findings

| source | as written | input that shows it | evidently intended | confidence | as-written member | corrected member |
|---|---|---|---|---|---|---|
| backend/tickets/views.py:187 | `ticket.save(update_fields=['status', 'updated_at'])` names a field the Ticket model does not have, so Django raises `ValueError`. The transaction rolls back and `except Exception` answers 500. | a known service with one pending ticket: the result is 500 and the ticket stays pending (`AsWrittenServeNextFails`) | the selected ticket becomes `serving` and is returned | high, not executed | `TicketQueue.TicketStore.ServeNextAsWritten` | `TicketQueue.TicketStore.ServeNext` |
| backend/citizens/views.py:101, 127 | the reverse relation is named `tickets` (backend/tickets/models.py:15), so `hasattr(citizen, 'ticket_set')` is false. The deletion guard never fires, and `citizen.ticket_set.all()` raises, which gives a 500 listing. | a citizen with one ticket: `destroy` deletes them, and `citizen_tickets` fails | deletion is refused with the ticket count, and the listing returns the citizen's tickets | high, not executed | `Citizens.GuardIgnoresTicketsAsWritten` | `Citizens.GuardWithRelation` |
