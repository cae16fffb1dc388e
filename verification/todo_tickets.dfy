/**
 * The non-versioned ticket store with todo items (backend/ticket_service.py).
 * Two tables: `tickets`, whose `ticket_number` is unique across the whole
 * table and whose `status` is 'active' or 'inactive', and `todo_items`, each
 * row referring to its ticket with ON DELETE CASCADE. Each operation maps
 * the old tables to the new ones together with its result or the error it
 * raises; the rows a driver returns without an ORDER BY are taken in
 * storage order.
 */
module TodoTickets {
  import opened Outcomes
  import opened Text
  import opened Seqs
  import QueryExecutor

  /** `CURRENT_TIMESTAMP`, as an abstract clock reading. */
  type Time = nat

  /** The `status` column: 'active' or 'inactive'. */
  datatype Status = Active | Inactive

  datatype Ticket = Ticket(
    id: nat,
    number: string,
    category: string,
    description: string,
    criteria: Option<string>,
    status: Status,
    createdAt: Time,
    updatedAt: Time)

  datatype Todo = Todo(
    id: nat,
    ticketId: nat,
    description: string,
    done: bool,
    position: int,
    createdAt: Time,
    updatedAt: Time)

  /** Both tables in storage order, and the next values of their SERIAL id sequences. */
  datatype Db = Db(tickets: seq<Ticket>, todos: seq<Todo>, nextTicketId: nat, nextTodoId: nat)

  /** The tables after an operation and what the operation returned or raised. */
  datatype Step<T> = Step(db: Db, result: Result<T>)

  /** A ticket as returned; `todoItems` is None when the `todo_items` key is absent. */
  datatype TicketView = TicketView(ticket: Ticket, todoItems: Option<seq<Todo>>)

  /** A todo item as returned, with the `ticket_number` the service attaches. */
  datatype TodoView = TodoView(item: Todo, ticketNumber: Option<string>)

  /** `list_tickets`' answer; `total` is whatever the count query's `fetchval` returned. */
  datatype Page = Page(tickets: seq<TicketView>, total: Option<int>, limit: int, offset: int)

  // ---------------------------------------------------------------------------
  // Row selection

  /** `WHERE ticket_number = $1`, plus `AND ticket_category = $2` when a category is supplied. */
  predicate Matches(t: Ticket, number: string, category: Option<string>) {
    t.number == number && (Truthy(category) ==> t.category == category.value)
  }

  function MatchedBy(number: string, category: Option<string>): Ticket -> bool {
    (t: Ticket) => Matches(t, number, category)
  }

  /** `WHERE ticket_number = $1 AND status = 'active'`: the category plays no part. */
  function ActiveNumbered(number: string): Ticket -> bool {
    (t: Ticket) => t.number == number && t.status == Active
  }

  /**
   * `fetchval` of the id of an active ticket with this number, then
   * `if not ticket_id`: no row and an id of 0 both read as "not found".
   */
  function ActiveTicketId(tickets: seq<Ticket>, number: string): (r: Option<nat>)
    ensures r.Some? ==>
              (r.value != 0 && exists i :: 0 <= i < |tickets| && ActiveNumbered(number)(tickets[i]) && tickets[i].id == r.value)
    ensures (forall i :: 0 <= i < |tickets| ==> tickets[i].id != 0) ==>
              (r.None? <==> forall i :: 0 <= i < |tickets| ==> !ActiveNumbered(number)(tickets[i]))
  {
    match FirstIndex(tickets, ActiveNumbered(number))
    case None => None
    case Some(i) => if tickets[i].id == 0 then None else Some(tickets[i].id)
  }

  function BelongsTo(ticketId: nat): Todo -> bool {
    (td: Todo) => td.ticketId == ticketId
  }

  /** `SELECT ... FROM todo_items WHERE ticket_id = $1 ORDER BY position ASC`. */
  function TodosOf(todos: seq<Todo>, ticketId: nat): (v: seq<Todo>)
    ensures forall i :: 0 <= i < |v| ==> v[i] in todos && v[i].ticketId == ticketId
    ensures forall j :: 0 <= j < |todos| && todos[j].ticketId == ticketId ==> todos[j] in v
    ensures forall i, j :: 0 <= i < j < |v| ==> v[i].position <= v[j].position
    ensures multiset(v) == multiset(Filter(todos, BelongsTo(ticketId)))
  {
    var owned := Filter(todos, BelongsTo(ticketId));
    var ordered := SortByKey(owned, (td: Todo) => td.position);
    assert forall i, j :: 0 <= i < j < |ordered| ==> ordered[i].position <= ordered[j].position;
    ordered
  }

  // ---------------------------------------------------------------------------
  // create_ticket

  /** The generated number's prefix: the category upper-cased, cut to three characters. */
  function NumberPrefix(category: string): (p: string)
    ensures |p| == if |category| < 3 then |category| else 3
    ensures forall i :: 0 <= i < |p| ==> p[i] == Upper(category)[i]
  {
    Take(Upper(category), 3)
  }

  /**
   * The supplied number when it is truthy; otherwise the prefix, a dash, the
   * clock in whole seconds, a dash and `suffix` (four hex digits of a random
   * UUID, which the model takes as a parameter).
   */
  function TicketNumberFor(category: string, number: Option<string>, clock: nat, suffix: string): (r: string)
    ensures Truthy(number) ==> r == number.value
    ensures !Truthy(number) ==> StartsWith(r, NumberPrefix(category) + "-") && |r| > |NumberPrefix(category)| + 1
  {
    if Truthy(number) then number.value
    else
      var head := NumberPrefix(category) + "-";
      var r := head + NatToString(clock) + "-" + suffix;
      assert r[..|head|] == head;
      r
  }

  /** A generated number starts with the category prefix and a dash, and its last dash-field is the suffix. */
  lemma GeneratedNumberParts(category: string, clock: nat, suffix: string)
    requires '-' !in suffix
    ensures var r := TicketNumberFor(category, None, clock, suffix);
            && StartsWith(r, NumberPrefix(category) + "-")
            && Last(SplitOn(r, '-')) == suffix
  {
    var head := NumberPrefix(category) + "-" + NatToString(clock);
    assert TicketNumberFor(category, None, clock, suffix) == head + ['-'] + suffix;
    SplitOnLast(head, '-', suffix);
  }

  /**
   * Inserts an active ticket with an empty todo list, unless the number is
   * already taken by any row, active or not (the UNIQUE constraint). The
   * SERIAL default is drawn before the constraint is checked, so a rejected
   * INSERT still advances the id sequence.
   */
  function CreateTicket(db: Db, now: Time, clock: nat, suffix: string, category: string,
                        number: Option<string> := None, description: string := "",
                        criteria: Option<string> := None): (r: Step<TicketView>)
    ensures var n := TicketNumberFor(category, number, clock, suffix);
            (exists i :: 0 <= i < |db.tickets| && db.tickets[i].number == n) <==> r.result.Err?
    ensures r.result.Err? ==>
              && r.result.error == DuplicateTicketNumber(TicketNumberFor(category, number, clock, suffix))
              && r.db == db.(nextTicketId := db.nextTicketId + 1)
    ensures r.result.Ok? ==>
              var t := r.result.value.ticket;
              && r.db == db.(tickets := db.tickets + [t], nextTicketId := db.nextTicketId + 1)
              && t.id == db.nextTicketId && t.status == Active
              && t.number == TicketNumberFor(category, number, clock, suffix)
              && t.category == category && t.description == description && t.criteria == criteria
              && r.result.value.todoItems == Some([])
  {
    var n := TicketNumberFor(category, number, clock, suffix);
    if exists i :: 0 <= i < |db.tickets| && db.tickets[i].number == n then
      Step(db.(nextTicketId := db.nextTicketId + 1), Err(DuplicateTicketNumber(n)))
    else
      var t := Ticket(db.nextTicketId, n, category, description, criteria, Active, now, now);
      Step(db.(tickets := db.tickets + [t], nextTicketId := db.nextTicketId + 1), Ok(TicketView(t, Some([]))))
  }

  // ---------------------------------------------------------------------------
  // get_ticket

  predicate Fetched(t: Ticket, number: string, category: Option<string>, includeHistory: bool) {
    Matches(t, number, category) && (!includeHistory ==> t.status == Active)
  }

  /**
   * The first row with the number (and the category, when supplied), active
   * only unless history is asked for; its todo items by position when asked for.
   */
  function GetTicket(db: Db, number: string, category: Option<string> := None,
                     includeHistory: bool := false, includeTodos: bool := true): (r: Option<TicketView>)
    ensures r.Some? ==> r.value.ticket in db.tickets && Fetched(r.value.ticket, number, category, includeHistory)
    ensures r.None? <==> forall i :: 0 <= i < |db.tickets| ==> !Fetched(db.tickets[i], number, category, includeHistory)
    ensures r.Some? && includeTodos ==> r.value.todoItems == Some(TodosOf(db.todos, r.value.ticket.id))
    ensures r.Some? && !includeTodos ==> r.value.todoItems == None
  {
    match FirstIndex(db.tickets, (t: Ticket) => Fetched(t, number, category, includeHistory))
    case None => None
    case Some(i) =>
      var t := db.tickets[i];
      Some(TicketView(t, if includeTodos then Some(TodosOf(db.todos, t.id)) else None))
  }

  // ---------------------------------------------------------------------------
  // list_tickets

  predicate Listed(t: Ticket, category: Option<string>, activeOnly: bool) {
    (activeOnly ==> t.status == Active) && (Truthy(category) ==> t.category == category.value)
  }

  function ListedBy(category: Option<string>, activeOnly: bool): Ticket -> bool {
    (t: Ticket) => Listed(t, category, activeOnly)
  }

  /** Every row the list filters select, newest first (`ORDER BY created_at DESC`). */
  function ListedRows(tickets: seq<Ticket>, category: Option<string>, activeOnly: bool): (v: seq<Ticket>)
    ensures |v| == |Filter(tickets, ListedBy(category, activeOnly))|
    ensures forall i :: 0 <= i < |v| ==> v[i] in tickets && Listed(v[i], category, activeOnly)
    ensures forall j :: 0 <= j < |tickets| && Listed(tickets[j], category, activeOnly) ==> tickets[j] in v
    ensures forall i, j :: 0 <= i < j < |v| ==> v[i].createdAt >= v[j].createdAt
    ensures multiset(v) == multiset(Filter(tickets, ListedBy(category, activeOnly)))
  {
    var matching := Filter(tickets, ListedBy(category, activeOnly));
    SortByKeyDescending(matching, (t: Ticket) => t.createdAt as int)
  }

  /** The page: the window of the listed rows, each with its todo items or an empty list. */
  function ListedPage(db: Db, category: Option<string>, activeOnly: bool, includeTodos: bool,
                      limit: nat, offset: nat): (v: seq<TicketView>)
    ensures var rows := ListedRows(db.tickets, category, activeOnly);
            |v| == if offset >= |rows| then 0 else if limit <= |rows| - offset then limit else |rows| - offset
    ensures forall i :: 0 <= i < |v| ==>
              offset + i < |ListedRows(db.tickets, category, activeOnly)|
              && v[i].ticket == ListedRows(db.tickets, category, activeOnly)[offset + i]
    ensures forall i :: 0 <= i < |v| ==>
              v[i].todoItems == Some(if includeTodos then TodosOf(db.todos, v[i].ticket.id) else [])
  {
    WithTodos(db.todos, Window(ListedRows(db.tickets, category, activeOnly), offset, limit), includeTodos)
  }

  /** Each ticket paired with its todo items when asked for, else with an empty list. */
  function WithTodos(todos: seq<Todo>, tickets: seq<Ticket>, includeTodos: bool): (v: seq<TicketView>)
    ensures |v| == |tickets|
    ensures forall i :: 0 <= i < |v| ==> v[i].ticket == tickets[i]
    ensures forall i :: 0 <= i < |v| ==> v[i].todoItems == Some(if includeTodos then TodosOf(todos, tickets[i].id) else [])
  {
    seq(|tickets|, i requires 0 <= i < |tickets| =>
      TicketView(tickets[i], Some(if includeTodos then TodosOf(todos, tickets[i].id) else [])))
  }

  /**
   * `list_tickets` as written. The count query is meant to be the filtered
   * SELECT with its column list replaced by `COUNT(*)`, but the text being
   * replaced does not occur in the query (the column list spans two lines),
   * so the query runs unchanged and `fetchval` yields the id of the first
   * filtered row in storage order, or None when no row is selected. A page
   * bound the driver cannot encode as `bigint`, or a negative one, raises.
   */
  function ListTickets(db: Db, category: Option<string> := None, activeOnly: bool := true,
                       includeTodos: bool := false, limit: int := 100, offset: int := 0): (r: Result<Page>)
    ensures r.Err? <==> limit < 0 || offset < 0 || limit >= QueryExecutor.Int8Limit || offset >= QueryExecutor.Int8Limit
    ensures r.Ok? ==> r.value.tickets == ListedPage(db, category, activeOnly, includeTodos, limit, offset)
    ensures r.Ok? ==> r.value.limit == limit && r.value.offset == offset
    ensures r.Ok? ==>
              match FirstIndex(db.tickets, ListedBy(category, activeOnly))
              case None => r.value.total == None
              case Some(i) => r.value.total == Some(db.tickets[i].id)
  {
    if !QueryExecutor.EncodesAsInt8(limit) || !QueryExecutor.EncodesAsInt8(offset) then Err(Database("value out of int64 range"))
    else if offset < 0 then Err(Database("OFFSET must not be negative"))
    else if limit < 0 then Err(Database("LIMIT must not be negative"))
    else
      var total := match FirstIndex(db.tickets, ListedBy(category, activeOnly))
        case None => None
        case Some(i) => Some(db.tickets[i].id as int);
      Ok(Page(ListedPage(db, category, activeOnly, includeTodos, limit, offset), total, limit, offset))
  }

  /** `list_tickets` with the count query the code means to run: `total` counts the filtered rows. */
  function ListTicketsCounted(db: Db, category: Option<string> := None, activeOnly: bool := true,
                              includeTodos: bool := false, limit: int := 100, offset: int := 0): (r: Result<Page>)
    ensures r.Err? <==> limit < 0 || offset < 0 || limit >= QueryExecutor.Int8Limit || offset >= QueryExecutor.Int8Limit
    ensures r.Ok? ==> r.value.tickets == ListedPage(db, category, activeOnly, includeTodos, limit, offset)
    ensures r.Ok? ==> r.value.limit == limit && r.value.offset == offset
    ensures r.Ok? ==> r.value.total == Some(Count(db.tickets, ListedBy(category, activeOnly)))
  {
    if !QueryExecutor.EncodesAsInt8(limit) || !QueryExecutor.EncodesAsInt8(offset) then Err(Database("value out of int64 range"))
    else if offset < 0 then Err(Database("OFFSET must not be negative"))
    else if limit < 0 then Err(Database("LIMIT must not be negative"))
    else
      CountIsFilterLength(db.tickets, ListedBy(category, activeOnly));
      var total := |ListedRows(db.tickets, category, activeOnly)|;
      Ok(Page(ListedPage(db, category, activeOnly, includeTodos, limit, offset), Some(total), limit, offset))
  }

  // ---------------------------------------------------------------------------
  // update_ticket

  /**
   * `UPDATE tickets SET ... WHERE id = $1`: a truthy category or description
   * and a non-None criteria replace their columns, `updated_at` is set; the
   * id, number, status and creation time of every row stay as they were.
   */
  function ReviseById(tickets: seq<Ticket>, id: nat, now: Time, category: Option<string>,
                      description: Option<string>, criteria: Option<string>): (r: seq<Ticket>)
    ensures |r| == |tickets|
    ensures forall i :: 0 <= i < |tickets| ==>
              && r[i].id == tickets[i].id && r[i].number == tickets[i].number
              && r[i].status == tickets[i].status && r[i].createdAt == tickets[i].createdAt
    ensures forall i :: 0 <= i < |tickets| && tickets[i].id != id ==> r[i] == tickets[i]
    ensures forall i :: 0 <= i < |tickets| && tickets[i].id == id ==>
              && r[i].category == Merge(category, tickets[i].category)
              && r[i].description == Merge(description, tickets[i].description)
              && r[i].criteria == (if criteria.Some? then criteria else tickets[i].criteria)
              && r[i].updatedAt == now
  {
    seq(|tickets|, i requires 0 <= i < |tickets| =>
      var t := tickets[i];
      if t.id != id then t
      else t.(category := Merge(category, t.category), description := Merge(description, t.description),
              criteria := if criteria.Some? then criteria else t.criteria, updatedAt := now))
  }

  /** No field to write: category and description falsy, criteria None. */
  predicate NoTicketFields(category: Option<string>, description: Option<string>, criteria: Option<string>) {
    !Truthy(category) && !Truthy(description) && criteria.None?
  }

  function HasId(id: nat): Ticket -> bool {
    (t: Ticket) => t.id == id
  }

  /**
   * Raises when no field is supplied; returns None when no active ticket has
   * the number (the category does not narrow the lookup); otherwise updates
   * that ticket's row and returns it with its todo items by position.
   */
  function UpdateTicket(db: Db, now: Time, number: string, category: Option<string> := None,
                        description: Option<string> := None, criteria: Option<string> := None): (r: Step<Option<TicketView>>)
    ensures NoTicketFields(category, description, criteria) <==> r.result.Err?
    ensures r.result.Err? ==> r.result.error == NothingToUpdate && r.db == db
    ensures r.result.Ok? && ActiveTicketId(db.tickets, number).None? ==> r == Step(db, Ok(None))
    ensures r.result.Ok? && ActiveTicketId(db.tickets, number).Some? ==>
              var id := ActiveTicketId(db.tickets, number).value;
              && r.db == db.(tickets := ReviseById(db.tickets, id, now, category, description, criteria))
              && (r.result.value.Some? ==>
                    && r.result.value.value.ticket in r.db.tickets
                    && r.result.value.value.ticket.id == id
                    && r.result.value.value.todoItems == Some(TodosOf(db.todos, id)))
  {
    if NoTicketFields(category, description, criteria) then Step(db, Err(NothingToUpdate))
    else match ActiveTicketId(db.tickets, number)
      case None => Step(db, Ok(None))
      case Some(id) =>
        var tickets' := ReviseById(db.tickets, id, now, category, description, criteria);
        var returned := match FirstIndex(tickets', HasId(id))
          case None => None
          case Some(k) => Some(TicketView(tickets'[k], Some(TodosOf(db.todos, id))));
        Step(db.(tickets := tickets'), Ok(returned))
  }

  // ---------------------------------------------------------------------------
  // delete_ticket (soft) and hard_delete_ticket

  predicate Deletable(t: Ticket, number: string, category: Option<string>) {
    Matches(t, number, category) && t.status == Active
  }

  /** `SET status = 'inactive', updated_at = CURRENT_TIMESTAMP` on every active matching row. */
  function Deactivated(tickets: seq<Ticket>, number: string, category: Option<string>, now: Time): (r: seq<Ticket>)
    ensures |r| == |tickets|
    ensures forall i :: 0 <= i < |tickets| ==>
              && r[i].id == tickets[i].id && r[i].number == tickets[i].number && r[i].category == tickets[i].category
              && r[i].description == tickets[i].description && r[i].criteria == tickets[i].criteria
              && r[i].createdAt == tickets[i].createdAt
    ensures forall i :: 0 <= i < |tickets| && Deletable(tickets[i], number, category) ==>
              r[i].status == Inactive && r[i].updatedAt == now
    ensures forall i :: 0 <= i < |tickets| && !Deletable(tickets[i], number, category) ==> r[i] == tickets[i]
  {
    seq(|tickets|, i requires 0 <= i < |tickets| =>
      if Deletable(tickets[i], number, category) then tickets[i].(status := Inactive, updatedAt := now) else tickets[i])
  }

  /** Marks the active matching rows inactive and returns the first of them, or None. */
  function DeleteTicket(db: Db, now: Time, number: string, category: Option<string> := None): (r: Step<Option<Ticket>>)
    ensures r.result.Ok?
    ensures r.db == db.(tickets := Deactivated(db.tickets, number, category, now))
    ensures r.result.value.None? <==> forall i :: 0 <= i < |db.tickets| ==> !Deletable(db.tickets[i], number, category)
    ensures r.result.value.Some? ==>
              exists i :: 0 <= i < |db.tickets| && Deletable(db.tickets[i], number, category)
                          && r.result.value.value == db.tickets[i].(status := Inactive, updatedAt := now)
  {
    var tickets' := Deactivated(db.tickets, number, category, now);
    var returned := match FirstIndex(db.tickets, (t: Ticket) => Deletable(t, number, category))
      case None => None
      case Some(i) => Some(tickets'[i]);
    Step(db.(tickets := tickets'), Ok(returned))
  }

  /** The ids of the tickets `p` selects. */
  function IdsOf(tickets: seq<Ticket>, p: Ticket -> bool): (ids: set<nat>)
    ensures forall i :: 0 <= i < |tickets| && p(tickets[i]) ==> tickets[i].id in ids
    ensures forall id :: id in ids ==> exists i :: 0 <= i < |tickets| && p(tickets[i]) && tickets[i].id == id
  {
    set i | 0 <= i < |tickets| && p(tickets[i]) :: tickets[i].id
  }

  function OwnedByAny(ids: set<nat>): Todo -> bool {
    (td: Todo) => td.ticketId in ids
  }

  /**
   * Removes every row with the number (and the category, when supplied),
   * whatever its status, with their todo items (ON DELETE CASCADE), and
   * returns the count read from the last field of the DELETE command tag.
   */
  function HardDeleteTicket(db: Db, number: string, category: Option<string> := None): (r: Step<int>)
    ensures r.db.tickets == Reject(db.tickets, MatchedBy(number, category))
    ensures r.db.todos == Reject(db.todos, OwnedByAny(IdsOf(db.tickets, MatchedBy(number, category))))
    ensures r.db.nextTicketId == db.nextTicketId && r.db.nextTodoId == db.nextTodoId
    ensures r.result == Ok(|db.tickets| - |r.db.tickets|)
  {
    var selected := MatchedBy(number, category);
    var gone := IdsOf(db.tickets, selected);
    var removed := |Filter(db.tickets, selected)|;
    FilterRejectPartition(db.tickets, selected);
    QueryExecutor.RowCountOfTag(QueryExecutor.DeleteTag(removed));
    var db' := db.(tickets := Reject(db.tickets, selected), todos := Reject(db.todos, OwnedByAny(gone)));
    Step(db', QueryExecutor.DecodeRowCount(QueryExecutor.TagText(QueryExecutor.DeleteTag(removed))))
  }

  // ---------------------------------------------------------------------------
  // Todo items

  /** `MAX(position)` over a ticket's todo items; None when it has none. */
  function MaxPosition(todos: seq<Todo>, ticketId: nat): (m: Option<int>)
    ensures m.None? <==> forall i :: 0 <= i < |todos| ==> todos[i].ticketId != ticketId
    ensures m.Some? ==> exists i :: 0 <= i < |todos| && todos[i].ticketId == ticketId && todos[i].position == m.value
    ensures m.Some? ==> forall i :: 0 <= i < |todos| && todos[i].ticketId == ticketId ==> todos[i].position <= m.value
  {
    if |todos| == 0 then None
    else
      var rest := MaxPosition(todos[1..], ticketId);
      assert forall i :: 1 <= i < |todos| ==> todos[i] == todos[1..][i - 1];
      if todos[0].ticketId != ticketId then rest
      else match rest
        case None => Some(todos[0].position)
        case Some(p) => Some(if todos[0].position >= p then todos[0].position else p)
  }

  /** `COALESCE(MAX(position) + 1, 0)`: the position just after the ticket's last item, or 0. */
  function NextPosition(todos: seq<Todo>, ticketId: nat): (p: int)
    ensures forall i :: 0 <= i < |todos| && todos[i].ticketId == ticketId ==> todos[i].position < p
    ensures (forall i :: 0 <= i < |todos| ==> todos[i].ticketId != ticketId) ==> p == 0
    ensures (exists i :: 0 <= i < |todos| && todos[i].ticketId == ticketId) ==>
              exists i :: 0 <= i < |todos| && todos[i].ticketId == ticketId && p == todos[i].position + 1
  {
    match MaxPosition(todos, ticketId)
    case None => 0
    case Some(m) => m + 1
  }

  /**
   * Raises unless an active ticket has the number; otherwise appends a not
   * done item at the given position, or after the ticket's last item.
   */
  function AddTodo(db: Db, now: Time, number: string, description: string, position: Option<int> := None): (r: Step<TodoView>)
    ensures ActiveTicketId(db.tickets, number).None? <==> r.result.Err?
    ensures r.result.Err? ==> r.result.error == TicketNotFoundOrInactive(number) && r.db == db
    ensures r.result.Ok? ==>
              var id := ActiveTicketId(db.tickets, number).value;
              var item := r.result.value.item;
              && r.db == db.(todos := db.todos + [item], nextTodoId := db.nextTodoId + 1)
              && item.id == db.nextTodoId && item.ticketId == id
              && item.description == description && !item.done
              && item.position == (if position.Some? then position.value else NextPosition(db.todos, id))
              && r.result.value.ticketNumber == Some(number)
  {
    match ActiveTicketId(db.tickets, number)
    case None => Step(db, Err(TicketNotFoundOrInactive(number)))
    case Some(id) =>
      var pos := if position.Some? then position.value else NextPosition(db.todos, id);
      var item := Todo(db.nextTodoId, id, description, false, pos, now, now);
      Step(db.(todos := db.todos + [item], nextTodoId := db.nextTodoId + 1), Ok(TodoView(item, Some(number))))
  }

  function HasTodoId(todoId: int): Todo -> bool {
    (td: Todo) => td.id == todoId
  }

  /** `UPDATE todo_items SET ... WHERE id = $1`: only the supplied fields and `updated_at` change. */
  function ReviseTodo(todos: seq<Todo>, todoId: int, now: Time, description: Option<string>,
                      done: Option<bool>, position: Option<int>): (r: seq<Todo>)
    ensures |r| == |todos|
    ensures forall i :: 0 <= i < |todos| ==>
              r[i].id == todos[i].id && r[i].ticketId == todos[i].ticketId && r[i].createdAt == todos[i].createdAt
    ensures forall i :: 0 <= i < |todos| && todos[i].id != todoId ==> r[i] == todos[i]
    ensures forall i :: 0 <= i < |todos| && todos[i].id == todoId ==>
              && r[i].description == Merge(description, todos[i].description)
              && r[i].done == done.GetOr(todos[i].done)
              && r[i].position == position.GetOr(todos[i].position)
              && r[i].updatedAt == now
  {
    seq(|todos|, i requires 0 <= i < |todos| =>
      var td := todos[i];
      if td.id != todoId then td
      else td.(description := Merge(description, td.description), done := done.GetOr(td.done),
               position := position.GetOr(td.position), updatedAt := now))
  }

  /** `fetchval` of the number of the ticket with this id: the first such row's, or None. */
  function NumberOfTicket(tickets: seq<Ticket>, id: nat): (r: Option<string>)
    ensures r.None? <==> forall i :: 0 <= i < |tickets| ==> tickets[i].id != id
    ensures r.Some? ==> exists i :: 0 <= i < |tickets| && tickets[i].id == id && tickets[i].number == r.value
  {
    match FirstIndex(tickets, HasId(id))
    case None => None
    case Some(i) => Some(tickets[i].number)
  }

  /** No field to write: description falsy, done and position None. */
  predicate NoTodoFields(description: Option<string>, done: Option<bool>, position: Option<int>) {
    !Truthy(description) && done.None? && position.None?
  }

  /**
   * Raises when no field is supplied; otherwise updates the item with this
   * id and returns it with its ticket's number, or None when there is no
   * such item.
   */
  function UpdateTodo(db: Db, now: Time, todoId: int, description: Option<string> := None,
                      done: Option<bool> := None, position: Option<int> := None): (r: Step<Option<TodoView>>)
    ensures NoTodoFields(description, done, position) <==> r.result.Err?
    ensures r.result.Err? ==> r.result.error == NothingToUpdate && r.db == db
    ensures r.result.Ok? ==> r.db == db.(todos := ReviseTodo(db.todos, todoId, now, description, done, position))
    ensures r.result.Ok? ==>
              (r.result.value.None? <==> forall i :: 0 <= i < |db.todos| ==> db.todos[i].id != todoId)
    ensures r.result.Ok? && r.result.value.Some? ==>
              var v := r.result.value.value;
              && v.item in r.db.todos && v.item.id == todoId
              && v.ticketNumber == NumberOfTicket(db.tickets, v.item.ticketId)
  {
    if NoTodoFields(description, done, position) then Step(db, Err(NothingToUpdate))
    else
      var todos' := ReviseTodo(db.todos, todoId, now, description, done, position);
      var db' := db.(todos := todos');
      match FirstIndex(todos', HasTodoId(todoId))
      case None => Step(db', Ok(None))
      case Some(k) => Step(db', Ok(Some(TodoView(todos'[k], NumberOfTicket(db.tickets, todos'[k].ticketId)))))
  }

  /** Removes the item with this id; true exactly when the DELETE tag reports a removed row. */
  function DeleteTodo(db: Db, todoId: int): (r: Step<bool>)
    ensures r.db == db.(todos := Reject(db.todos, HasTodoId(todoId)))
    ensures r.result == Ok(exists i :: 0 <= i < |db.todos| && db.todos[i].id == todoId)
  {
    var removed := |Filter(db.todos, HasTodoId(todoId))|;
    QueryExecutor.RowCountOfTag(QueryExecutor.DeleteTag(removed));
    assert removed > 0 <==> exists i :: 0 <= i < |db.todos| && db.todos[i].id == todoId by {
      var f := Filter(db.todos, HasTodoId(todoId));
      if removed > 0 {
        assert f[0] in db.todos;
      }
    }
    var deleted := QueryExecutor.DecodeRowCount(QueryExecutor.TagText(QueryExecutor.DeleteTag(removed)));
    Step(db.(todos := Reject(db.todos, HasTodoId(todoId))),
         match deleted
         case Ok(n) => Ok(n > 0)
         case Err(e) => Err(e))
  }

  /** Raises unless an active ticket has the number; otherwise its items by position, each with the number. */
  function GetTodos(db: Db, number: string): (r: Result<seq<TodoView>>)
    ensures ActiveTicketId(db.tickets, number).None? <==> r.Err?
    ensures r.Err? ==> r.error == TicketNotFoundOrInactive(number)
    ensures r.Ok? ==>
              var items := TodosOf(db.todos, ActiveTicketId(db.tickets, number).value);
              && |r.value| == |items|
              && forall i :: 0 <= i < |items| ==> r.value[i] == TodoView(items[i], Some(number))
  {
    match ActiveTicketId(db.tickets, number)
    case None => Err(TicketNotFoundOrInactive(number))
    case Some(id) =>
      var items := TodosOf(db.todos, id);
      Ok(seq(|items|, i requires 0 <= i < |items| => TodoView(items[i], Some(number))))
  }
}
