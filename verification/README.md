# Ticket services and their PostgreSQL query executor, in Dafny

This project models the core of a small ticketing backend and proves
properties of the model. The backend has four pieces:

- **`PostgresHandler`** (`db.py`). It holds one lazily opened connection.
  `run_query` decodes a driver reply into one of four shapes: all rows, one
  row, one value, or a row count parsed from the command tag.
  `execute_transaction` runs a batch of query descriptors in order.
- **The versioned `TicketService`** (`ticket_service.py`). Each logical
  ticket, keyed by (category, number), is a chain of versions. At most one
  version is active. An update closes the active row (`valid_to`,
  `is_active = FALSE`) and appends the next version. A soft delete closes the
  active row. A hard delete removes every version.
- **The ticket/todo `TicketService`** (`backend/ticket_service.py`).
  - Tickets have a table-wide unique number and an `active`/`inactive`
    status.
  - Numbers are generated as `PREFIX-<seconds>-<suffix>`.
  - Updates are partial.
  - Todo items have positions, and `COALESCE(MAX(position) + 1, 0)` places a
    new item at the end.
  - A hard delete cascades to the ticket's todo items.
- **The chat message list** (`backend/chat_service.py`). It is built from a
  system prompt, the history and the query. A ticket-assisted prompt wraps
  the ticket's description in fixed text.

## How the model is structured

- Each database table is a `seq` of row datatypes, in storage order.
- Each service operation is a pure function. It takes the old state and
  returns a `Step`: the new state, plus the operation's result or the
  exception it raises (`Outcomes.Result`).
- Exceptions are constructors of `Outcomes.Error`. `Outcomes.ExceptionClass`
  names the Python class behind each one.
- `CURRENT_TIMESTAMP` is a clock parameter `now`.
- A driver reply is a parameter:
  - `DriverReply` for one statement;
  - a function from index to reply for a batch.
- A row that a query without `ORDER BY` returns first is the first matching
  row in storage order.

Python behaviour is written out where the code depends on it:

- truthiness of optional strings (`Outcomes.Truthy`) and `x if x else current`
  (`Outcomes.Merge`);
- `str.split()` versus `str.split(" ")` (`Text.Tokens`, `Text.SplitOn`);
- `int()` of a token, including signs, surrounding whitespace and
  underscores (`Text.ParseInt`);
- `if not ticket_id`, which also rejects an id of 0;
- the falsiness of an asyncpg record with no columns.

Several lemmas below need no proof text: they follow directly from the
contracts of the operations they are about, which carry the proof work.

Modules, one per file:

| file | module | models |
|---|---|---|
| outcomes.dfy | `Outcomes` | Option, Result, the raised errors, Python truthiness |
| text.dfy | `Text` | `split()`, `split(" ")`, `int()`, ASCII `upper()`, decimal rendering |
| seqs.dfy | `Seqs` | filtering, counting, `ORDER BY` (stable insertion sort), `LIMIT`/`OFFSET` windows |
| query_executor.dfy | `QueryExecutor` | `db.py`, and PostgreSQL command tags |
| versioned_tickets.dfy | `VersionedTickets` | `ticket_service.py` |
| versioned_invariants.dfy | `VersionedInvariants` | the single-active-version invariant and the lifecycle of the versioned store |
| todo_tickets.dfy | `TodoTickets` | `backend/ticket_service.py` |
| todo_invariants.dfy | `TodoInvariants` | the table constraints and the composition of the ticket/todo operations |
| chat_messages.dfy | `ChatMessages` | `backend/chat_service.py` (message construction only) |

### Behaviour worth noting

- **Versioned `update_ticket` with nothing to change.** A call whose merged
  category and description equal the current ones returns the current row
  and writes nothing (ticket_service.py:182-185). It is not treated as a
  validation error, and no new version is written.
- **The count query in the backend `list_tickets`.** It is described as a
  count of the filtered tickets. The code returns something else. See
  Findings.

## Model

| member | source | states |
|---|---|---|
| QueryExecutor.NewHandler | db.py:13-24 | The handler is built exactly when the given URL or else the `POSTGRES_URL` value is non-empty, and it prefers the given one. It starts without a connection. Otherwise it raises the missing-URL error. |
| QueryExecutor.Connect | db.py:26-37 | `connect()` dials only when there is no connection. An existing connection is kept as it is. A failed dial raises `ConnectionError` with the driver's reason and leaves no connection. |
| QueryExecutor.ConnectIsIdempotent | db.py:30 | A second `connect()` after a successful one changes nothing, whatever the second dial would do. |
| QueryExecutor.Close | db.py:39-45 | `close()` leaves the handler without a connection and keeps its URL. |
| QueryExecutor.CloseIsIdempotent | db.py:43-45 | Closing twice is the same as closing once. |
| QueryExecutor.ParseShape | db.py:74-96 | Only 'all', 'one', 'val' and 'status' are accepted fetch types. |
| QueryExecutor.DecodeStatus | db.py:88-93 | A tag that does not start with INSERT, UPDATE or DELETE yields 0. A counting tag with fewer than two whitespace-separated fields raises `IndexError`. Otherwise the call succeeds exactly when `int()` accepts the second field, and returns its value. |
| QueryExecutor.Decode | db.py:74-96 | A driver error is re-raised unchanged. 'all' returns every row. 'one' returns the first row, or None when there is no row or the row has no columns. 'val' returns the first column of the first row, None without rows, and raises on a row without columns. 'status' succeeds exactly when the tag decodes, and returns its count. |
| QueryExecutor.RunQuery | db.py:47-103 | `run_query` connects first if needed, and a failed connect raises before any query runs. An unknown fetch type raises without calling the driver. Otherwise it makes the one driver call for the fetch type, with `params or []`, and its result is that call's reply decoded for the fetch type. |
| QueryExecutor.FetchTypeText | db.py:129-151 | `q.get("fetch_type", "status")` reads an absent key as the valid 'status'. A key present with None is the text "None", which no fetch type matches. A given value is kept as it is. |
| QueryExecutor.ArgsOf | db.py:128 | `q.get("params", [])` reads an absent key as [], keeps a given list, and yields None exactly when the key is present with None. |
| QueryExecutor.StepCall | db.py:126-151 | A batch descriptor makes a driver call exactly when it has a query, its fetch type (default 'status') is known, and its parameters are not None. The call carries that query and the given parameters or [], and uses the driver method for the fetch type. |
| QueryExecutor.StepResult | db.py:126-151 | A batch descriptor without "query" raises `KeyError`. Any fetch type that is not one of the four, None included (read as "None"), raises "Invalid fetch_type: …" with that text, whatever the parameters. With a known fetch type, parameters of None raise `TypeError` from `*None`. A descriptor without a fetch type is decoded as 'status'. Whenever a driver call is made, the result is that call's reply decoded; otherwise the step raises. |
| QueryExecutor.StepMatchesRunQuery | db.py:126-151 | A batch descriptor with a query, a fetch type and parameters that are not None gives the same driver call and the same result as `run_query` with that statement and fetch type. |
| QueryExecutor.NullParamsDiverge | db.py:71-145 | Parameters of None are handled differently by the two entry points: `run_query` reads them as [] and runs the statement, while a batch descriptor raises `TypeError` without calling the driver. |
| QueryExecutor.StepDefaultsToStatus | db.py:129 | The two entry points have different defaults: a descriptor without a fetch type is decoded as a status count, while `run_query` without one returns the rows. |
| QueryExecutor.ExecuteTransaction | db.py:105-158 | A failed connect raises before the batch runs. If every descriptor succeeds, one result per descriptor comes back in input order. Otherwise the error raised is that of the first failing descriptor, every earlier descriptor succeeded, and no results are returned. |
| QueryExecutor.DecodeStatusOfUpdateOrDelete | db.py:91-92 | For the tags `UPDATE n` and `DELETE n`, the 'status' rule yields n, the number of rows affected. |
| QueryExecutor.InsertStatusYieldsOid | db.py:91-92 | For an `INSERT oid n` tag, the 'status' rule yields the oid, not the row count. |
| QueryExecutor.InsertOfOneRowReadsAsZero | db.py:66 | A one-row INSERT, which PostgreSQL reports as `INSERT 0 1`, is read as 0 rows affected. |
| QueryExecutor.DecodeRowCount | backend/ticket_service.py:479 | `int(tag.split(" ")[-1])` succeeds exactly when `int()` accepts the last space-separated field, and then returns that field's value. |
| QueryExecutor.RowCountOfTag | backend/ticket_service.py:479 | For every counting command tag (INSERT, UPDATE, DELETE, SELECT), reading the last field gives the tag's row count. |
| QueryExecutor.StatusRulesAgree | db.py:91-92 | On UPDATE and DELETE tags the 'status' rule and the last-field rule agree. |
| Text.Tokens | db.py:92 | `str.split()` yields non-empty fields that contain no whitespace. |
| Text.TokensOfTwoWords | db.py:92 | Splitting "a b", where a and b are non-empty and contain no whitespace, gives exactly [a, b]. |
| Text.SplitOn | backend/ticket_service.py:479 | `str.split(sep)` yields at least one field, and no field contains the separator. Text without the separator is its own only field. |
| Text.SplitThenJoin | backend/ticket_service.py:479 | Joining the fields of `s.split(sep)` with sep gives s back, so no character is lost or invented. |
| Text.ParseInt | db.py:92 | `int()` succeeds only on text containing a digit, and a plain run of decimal digits reads as its decimal value. |
| Text.SplitOnLast | backend/ticket_service.py:479 | When the separator does not occur in b, the last field of `(a + sep + b).split(sep)` is b. |
| Text.ParseIntOfNat | db.py:92 | `int()` reads back every rendered natural number. |
| Outcomes.Merge | ticket_service.py:179-180 | `x if x else current`: a truthy supplied value replaces the current one, and a missing or empty one keeps it. |
| Text.Upper | backend/ticket_service.py:95 | `upper()` keeps the length and maps each ASCII lower-case letter to its capital. Every other character is kept. |
| VersionedTickets.CurrentIndex | ticket_service.py:88-99 | The active-version lookup returns an active row of the number, and of the category when a non-empty one is given. It returns None exactly when no such row exists. |
| VersionedTickets.CloseById | ticket_service.py:188-196 | The closing UPDATE keeps the row count and, on every row, the id, key, description, version, `valid_from` and `updated_at`. A row with the id gets `valid_to` = now and `is_active` false. Every other row is unchanged. |
| VersionedTickets.Insert | ticket_service.py:198-217 | The INSERT appends exactly one row and advances the id sequence. The row has the next id, the key, description and version given, is active, and is valid from now with no `valid_to`. |
| VersionedTickets.CreateTicket | ticket_service.py:24-58 | The call raises exactly when an active row with this category and number exists. Otherwise it appends version 1, active and valid from now, with a fresh id, and returns it. |
| VersionedTickets.VersionHistory | ticket_service.py:70-85 | The history is a permutation of the rows with the number (and the category, when given), active or not, in descending version order. |
| VersionedTickets.GetTicket | ticket_service.py:64-100 | With history, all matching versions come back. Without history, the result is an active matching row, or None exactly when there is none. |
| VersionedTickets.ListedRows | ticket_service.py:114-141 | The list is a permutation of the rows the active and category filters select, most recently updated first. |
| VersionedTickets.ListTickets | ticket_service.py:106-147 | The call raises exactly when LIMIT or OFFSET is negative or too large for a `bigint` parameter (2^63 or more). Otherwise the result is the LIMIT/OFFSET page of the filtered rows, and the total counts every filtered row, independent of the page. |
| VersionedTickets.UpdateTicket | ticket_service.py:153-219 | Without a connection the call raises before any query. It also raises when there is no active version. When the merged values equal the current ones, the current row is returned and nothing is written. Otherwise the current row is closed, and version+1 is appended with the merged description and returned. |
| VersionedTickets.UpdateTicketConnected | ticket_service.py:160 | With the connection opened first, the update never fails for lack of a connection. It raises exactly when no active version matches. |
| VersionedTickets.DeleteTicket | ticket_service.py:225-257 | The call raises exactly when no active version matches. Otherwise it closes that row by id, keeps every row, and returns true. |
| VersionedTickets.HardDeleteTicket | ticket_service.py:263-277 | Every version with the number (and the category, when given) is removed, active or not. Every other row is kept. The result is the number of rows removed. |
| VersionedInvariants.SingleActiveIffCountsAtMostOne | ticket_service.py:27-40 | The pairwise invariant "no two active rows share a (category, number)" holds exactly when every key has at most one active row. |
| VersionedInvariants.CreatePreservesSingleActive | ticket_service.py:27-56 | The existence check before the INSERT keeps at most one active row per key. |
| VersionedInvariants.UpdatePreservesSingleActive | ticket_service.py:187-219 | Closing the current row before inserting the next version keeps at most one active row per key. |
| VersionedInvariants.DeletePreservesSingleActive | ticket_service.py:245-255 | A soft delete keeps at most one active row per key. |
| VersionedInvariants.HardDeletePreservesSingleActive | ticket_service.py:266-277 | A hard delete keeps at most one active row per key. |
| VersionedInvariants.CreatePreservesConsistent | ticket_service.py:43-56 | Create keeps three properties together: single active version, distinct fresh ids, and `valid_to` NULL exactly on active rows and never before `valid_from`. |
| VersionedInvariants.UpdatePreservesConsistent | ticket_service.py:187-219 | Update keeps the same three properties, given a clock not behind any `valid_from`. |
| VersionedInvariants.DeletePreservesConsistent | ticket_service.py:245-255 | Soft delete keeps the same three properties, given a clock not behind any `valid_from`. |
| VersionedInvariants.HardDeletePreservesConsistent | ticket_service.py:266-277 | Hard delete keeps the same three properties. |
| VersionedInvariants.CloseByIdOnlyDeactivates | ticket_service.py:188-196 | The closing UPDATE never activates a row. An active row after it is unchanged. |
| VersionedInvariants.UpdateTouchesOnlyCurrentRow | ticket_service.py:187-219 | An update leaves every earlier version untouched. It closes only the current row, and only when it appends a new version. |
| VersionedInvariants.DeleteTouchesOnlyCurrentRow | ticket_service.py:245-255 | A soft delete keeps the history: the same rows, only the current one closed. |
| VersionedInvariants.CurrentIsTheActiveRow | ticket_service.py:88-100 | Under the invariant, a lookup with a category returns a row exactly when that row is the key's active row. |
| VersionedInvariants.ListTotalCountsSelectedRows | ticket_service.py:118-142 | The list total is the number of rows the filters select, whatever the page. |
| VersionedInvariants.HistoryCountsVersions | ticket_service.py:70-85 | The history holds as many entries as there are rows of the ticket, so no version is dropped or repeated. |
| VersionedInvariants.CreateThenUpdateKeepsBothVersions | ticket_service.py:153-219 | After a create and an update with a new description, the history lists two rows: version 2, active, with the new description, then version 1, closed, with the old one. |
| VersionedInvariants.CreateTwiceConflicts | ticket_service.py:27-40 | Creating the same ticket twice raises on the second call and writes nothing. |
| VersionedInvariants.SoftDeleteHidesCurrent | ticket_service.py:225-257 | After a soft delete, the active-version lookup finds nothing, and no row is lost. |
| VersionedInvariants.HardDeleteThenCreateRestarts | ticket_service.py:263-277 | After a hard delete, the same ticket can be created again, starting at version 1. |
| VersionedInvariants.UpdateOnFreshServiceFails | ticket_service.py:159-160 | On a service that has not yet run a query, an update raises even though the ticket exists. The connected variant succeeds. |
| VersionedInvariants.UpdateAfterCreateSucceeds | ticket_service.py:160-219 | After a create, an update with a new non-empty description succeeds with version 2. An unchanged or empty description leaves version 1. |
| TodoTickets.ActiveTicketId | backend/ticket_service.py:322-328 | The id lookup returns a non-zero id of an active ticket with the number. When no id is 0, it returns None exactly when no such ticket exists. |
| TodoTickets.TodosOf | backend/ticket_service.py:182-187 | A ticket's todo list is a permutation of the items that refer to it, ordered by position. |
| TodoTickets.NumberPrefix | backend/ticket_service.py:95 | The prefix is the first three characters of the upper-cased category, or all of it when shorter. |
| TodoTickets.TicketNumberFor | backend/ticket_service.py:93-98 | A truthy supplied number is used as it is. Otherwise the generated number starts with the category prefix and a dash, and continues after it. |
| TodoTickets.GeneratedNumberParts | backend/ticket_service.py:93-98 | A generated number starts with the prefix and a dash, and its last dash-separated field is the random suffix. |
| TodoTickets.CreateTicket | backend/ticket_service.py:76-128 | The call raises exactly when any row, active or not, already has the number (the UNIQUE constraint). The rejected INSERT still advances the SERIAL id sequence and changes nothing else. Otherwise it appends an active ticket with the given fields and a fresh id, and returns it with an empty todo list. |
| TodoTickets.GetTicket | backend/ticket_service.py:130-203 | The result is a matching row, active unless history is asked for, or None exactly when there is none. Its todo items by position are attached only when asked for. |
| TodoTickets.ListedRows | backend/ticket_service.py:228-247 | The list is a permutation of the rows the category and active filters select, newest first. |
| TodoTickets.ListedPage | backend/ticket_service.py:247-284 | The page has the LIMIT/OFFSET length: `limit` rows, or fewer when the listing ends first, and none when the offset is past the end. Entry i is listed row offset + i. Each ticket carries its todo items by position when asked for, else an empty list. |
| TodoTickets.ListTickets | backend/ticket_service.py:205-296 | The call raises exactly when LIMIT or OFFSET is negative or too large for a `bigint` parameter (2^63 or more). Otherwise the tickets are the page, `limit` and `offset` are echoed back, and the total returned is the id of the first filtered row, or None when no row is selected. |
| TodoTickets.ListTicketsCounted | backend/ticket_service.py:244-291 | It raises in the same cases as `list_tickets`. Otherwise, with the intended count query, the total is the number of filtered rows, and the page, `limit` and `offset` are as in `list_tickets`. |
| TodoTickets.ReviseById | backend/ticket_service.py:331-359 | The UPDATE changes only the row with that id. A truthy category or description, or any given criteria, replaces its column, and `updated_at` is set. Id, number, status and creation time never change. |
| TodoTickets.UpdateTicket | backend/ticket_service.py:298-393 | The call raises exactly when no field is supplied. It returns None, writing nothing, when no active ticket has the number; the category does not narrow the lookup. Otherwise it revises that row and returns it with its todo items. |
| TodoTickets.Deactivated | backend/ticket_service.py:412-421 | The soft-delete UPDATE keeps the row count and, on every row, the id, number, category, description, criteria and creation time. Every active matching row gets status inactive and `updated_at` = now. Every other row is unchanged. |
| TodoTickets.DeleteTicket | backend/ticket_service.py:395-446 | The active matching rows are deactivated. The result is one of them as deactivated, or None exactly when there was none. |
| TodoTickets.IdsOf | backend/ticket_service.py:465-476 | The ids of the selected tickets are exactly the ids of the rows the DELETE selects. |
| TodoTickets.HardDeleteTicket | backend/ticket_service.py:448-486 | Every row with the number (and the category, when given) is removed whatever its status, and so are the todo items of those rows (ON DELETE CASCADE). The result is the number of tickets removed. |
| TodoTickets.MaxPosition | backend/ticket_service.py:519-522 | `MAX(position)` is a position of one of the ticket's items and bounds them all. It is None exactly when the ticket has no items. |
| TodoTickets.NextPosition | backend/ticket_service.py:519-522 | `COALESCE(MAX(position) + 1, 0)` is above every existing position of the ticket. It is 0 for a ticket without items, and otherwise one more than an existing position. |
| TodoTickets.AddTodo | backend/ticket_service.py:490-546 | The call raises exactly when no active ticket has the number. Otherwise it appends a not-done item with a fresh id at the given position, or at the next position, and returns it with the ticket number. |
| TodoTickets.ReviseTodo | backend/ticket_service.py:572-599 | Only the item with that id changes: a truthy description and any given done or position replace their columns, and `updated_at` is set. Id, owner and creation time never change. |
| TodoTickets.NumberOfTicket | backend/ticket_service.py:612-615 | The number lookup by id yields the number of a row with that id, or None exactly when no row has it. |
| TodoTickets.UpdateTodo | backend/ticket_service.py:548-624 | The call raises exactly when no field is supplied. Otherwise it revises the item and returns it with its ticket's number, or None exactly when no item has the id. |
| TodoTickets.DeleteTodo | backend/ticket_service.py:626-653 | The item with the id is removed, and the result is true exactly when such an item existed. |
| TodoTickets.GetTodos | backend/ticket_service.py:655-698 | The call raises exactly when no active ticket has the number. Otherwise it returns that ticket's items by position, each tagged with the number. |
| TodoInvariants.CreatePreservesWellFormed | backend/ticket_service.py:44-67 | Create keeps three constraints: unique ticket numbers, SERIAL ids (distinct and below the next value), and every todo item owned by an existing ticket. |
| TodoInvariants.UpdatePreservesWellFormed | backend/ticket_service.py:331-359 | Update keeps the same three constraints. |
| TodoInvariants.DeletePreservesWellFormed | backend/ticket_service.py:412-429 | Soft delete keeps the same three constraints. |
| TodoInvariants.HardDeletePreservesWellFormed | backend/ticket_service.py:465-476 | Hard delete with its cascade keeps the same three constraints; no todo item is left without its ticket. |
| TodoInvariants.AddTodoPreservesWellFormed | backend/ticket_service.py:509-529 | Adding an item keeps the same three constraints; the new item's ticket exists. |
| TodoInvariants.UpdateTodoPreservesWellFormed | backend/ticket_service.py:572-599 | Updating an item keeps the same three constraints. |
| TodoInvariants.DeleteTodoPreservesWellFormed | backend/ticket_service.py:640-646 | Deleting an item keeps the same three constraints. |
| TodoInvariants.CreatedTicketIsFound | backend/ticket_service.py:76-203 | A ticket just created is exactly what `get_ticket` returns for its number, with an empty todo list. |
| TodoInvariants.UpdateReturnsTheTicket | backend/ticket_service.py:315-388 | With a field supplied and an active ticket of that number, the update returns that ticket, still active and with the same number. |
| TodoInvariants.SoftDeleteClosesTodoList | backend/ticket_service.py:395-446 | After a soft delete by number, adding or listing that ticket's todo items raises "not found or inactive". |
| TodoInvariants.TodoListCountsItems | backend/ticket_service.py:182-187 | A ticket's todo list holds as many entries as there are items referring to it. |
| TodoInvariants.AppendedAboveIsLast | backend/ticket_service.py:518-529 | An item appended above every position of its ticket ends that ticket's position-ordered list. |
| TodoInvariants.DefaultPositionComesLast | backend/ticket_service.py:518-522 | An item added without a position comes last in its ticket's ordered list. |
| TodoInvariants.HardDeleteCascades | backend/ticket_service.py:448-486 | After a hard delete, no todo item of a removed ticket remains. |
| TodoInvariants.ListTotalIsTheFirstId | backend/ticket_service.py:244-251 | A counterexample: with one listed ticket of id 7 the returned total is 7, while the intended count is 1. With no ticket the total is None, not 0. |
| TodoInvariants.CountedTotalIsListLength | backend/ticket_service.py:244-251 | The corrected total is the number of listed tickets, independent of the page. |
| ChatMessages.Copied | backend/chat_service.py:57-61 | A history entry is copied with role defaulting to "user" and content defaulting to "". |
| ChatMessages.Messages | backend/chat_service.py:41-64 | The list has one system message first: the given prompt when truthy, else the default. Then come the history entries, copied in order, and last the query as a user message. A missing history counts as empty. |
| ChatMessages.OneLeadingSystemMessage | backend/chat_service.py:44-64 | When no history entry claims the system role, the only system message is the first. |
| ChatMessages.HistoryRoundTrip | backend/chat_service.py:56-61 | Messages fed back as history come back unchanged between the system message and the query. |
| ChatMessages.FollowUpExtendsConversation | backend/chat_service.py:41-64 | Feeding back a conversation plus the assistant's reply gives the old list extended by the reply and the new query. |
| ChatMessages.TicketPrompt | backend/chat_service.py:96-103 | The ticket prompt is the fixed preamble, the description verbatim, then the fixed closing text. |
| ChatMessages.DescriptionRoundTrip | backend/chat_service.py:96-103 | The description can be read back out of the prompt, so different descriptions give different prompts. |
| ChatMessages.TicketAssistedMessages | backend/chat_service.py:80-109 | The ticket-assisted list starts with the ticket prompt as its system message. |
| ChatMessages.TicketAssistedKeepsConversation | backend/chat_service.py:105-109 | The ticket-assisted list differs from the plain one only in its system message. |

## Left out

- The SQL text itself, asyncpg and the connection pool (`get_connection`, `pool.release`, the backend `close`). Each statement is modelled by its effect on the tables.
- `initialize_db` of both services. The `CREATE TABLE` statements appear only as the invariants in `TodoInvariants`. The versioned service's `sql/create_tables.sql` is not part of this model, so its column defaults are assumptions: an insert gets `is_active = TRUE`, `valid_to = NULL` and `updated_at` equal to the insertion time, and the closing UPDATE changes only the columns it names.
- Timestamps and `isoformat()`: `CURRENT_TIMESTAMP` and `datetime.now()` are parameters. The model does not assume the clock is monotonic, except where a lemma requires it.
- `uuid.uuid4().hex[:4]`: the random suffix is a parameter.
- Unicode: `upper()` is ASCII-only here. `int()` accepts only ASCII digits. There is no case folding.
- Concurrency: operations run one at a time. Transaction isolation and interleaved `await`s are not modelled.
- Connection state of the versioned service: it is a boolean. Dialing is assumed to succeed there, and its failure is modelled only in `QueryExecutor.Connect`.
- Record-to-dict conversion with duplicate column names.
- `print` logging in the exception handlers. Errors are re-raised unchanged, which is what the model returns.
- The OpenAI completion call and its parameters (model, temperature, token limit), `ChatService.__init__`, and the RAGIE service: foreign calls outside the modelled core.
- The HTTP routes, `main`, and the request/response models. They do not call the modelled services: the `/chat` and `/web_search` routes (routes.py:13-41 and backend/routes.py:13-41) return placeholder text and mock results.
- VersionedTickets.ListTickets: the listing's `updated_at` is a model-only column, taken to be the insertion time, because the schema is not shown.
- VersionedInvariants.Consistent: it does not state that version numbers of one key are distinct and increasing. It proves the single active version, fresh ids and the validity columns.
- TodoTickets.AddTodo: `position` is an unbounded integer. PostgreSQL would raise on a value outside 32-bit INTEGER.
- TodoTickets.UpdateTodo: `todo_id` and `position` are unbounded integers. PostgreSQL would raise on a value outside 32-bit INTEGER, and the model does not raise.
- TodoTickets.DeleteTodo: `todo_id` is an unbounded integer. PostgreSQL would raise on a value outside 32-bit INTEGER, and the model does not raise.
- Text.ParseInt: its contract states two facts only: success needs a digit, and a plain digit run reads as its decimal value. Signs, surrounding whitespace and underscores are handled in its body, and `ParseIntOfNat` gives the round trip with rendering.
- QueryExecutor.StepCall: a descriptor whose "query" key is present with the value None is not modelled. The driver would receive None as its statement, and the driver's code is not part of this model.
- TodoTickets.UpdateTicket: the field-wise contents of the returned ticket are stated by `ReviseById` and `UpdateReturnsTheTicket` rather than in its own contract.

## Findings

| source | as written | input that shows it | evidently intended | confidence | as-written member | corrected member |
|---|---|---|---|---|---|---|
| db.py:91-92 | `int(status.split()[1])` takes the second field of the tag. | An INSERT of one row: the tag is `INSERT 0 1`, so 'status' returns 0. | The docstring at db.py:66 promises the number of rows affected, which is the last field. | high, not executed | QueryExecutor.DecodeStatus (QueryExecutor.InsertStatusYieldsOid, QueryExecutor.InsertOfOneRowReadsAsZero) | QueryExecutor.DecodeRowCount (QueryExecutor.RowCountOfTag) |
| ticket_service.py:160 | `update_ticket` opens `self.db.connection.transaction()` before any query has connected. | A fresh service with an existing ticket: `None.transaction()` raises `AttributeError`. | Connect first, as `run_query` does, then update. | high, not executed | VersionedTickets.UpdateTicket (VersionedInvariants.UpdateOnFreshServiceFails) | VersionedTickets.UpdateTicketConnected |
| backend/ticket_service.py:244 | `count_query` replaces a one-line column list that does not occur in the two-line SELECT, so the query is unchanged. `fetchval` then returns the first row's id. | One active ticket with id 7: the total is 7, not 1. With no tickets the total is None. | The total counts the filtered tickets (`SELECT COUNT(*)`). | high, not executed | TodoTickets.ListTickets (TodoInvariants.ListTotalIsTheFirstId) | TodoTickets.ListTicketsCounted (TodoInvariants.CountedTotalIsListLength) |
