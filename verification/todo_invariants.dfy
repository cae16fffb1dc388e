/**
 * Properties of the ticket/todo store across calls: the table constraints
 * every operation keeps (unique ticket numbers, SERIAL ids, every todo item
 * owned by an existing ticket), and how the operations compose.
 */
module TodoInvariants {
  import opened Outcomes
  import opened Seqs
  import QueryExecutor
  import opened TodoTickets

  /** `ticket_number TEXT UNIQUE`: no two rows share a number, whatever their status or category. */
  ghost predicate UniqueNumbers(tickets: seq<Ticket>) {
    forall i, j :: 0 <= i < j < |tickets| ==> tickets[i].number != tickets[j].number
  }

  /** `id SERIAL PRIMARY KEY` on both tables: ids start at 1, are distinct, and are below the next value. */
  ghost predicate IdsFresh(db: Db) {
    1 <= db.nextTicketId && TicketIdsFresh(db.tickets, db.nextTicketId) && TodoIdsFresh(db.todos, db.nextTodoId)
  }

  ghost predicate TicketIdsFresh(tickets: seq<Ticket>, next: nat) {
    && (forall i :: 0 <= i < |tickets| ==> 1 <= tickets[i].id < next)
    && (forall i, j :: 0 <= i < j < |tickets| ==> tickets[i].id != tickets[j].id)
  }

  ghost predicate TodoIdsFresh(todos: seq<Todo>, next: nat) {
    && (forall i :: 0 <= i < |todos| ==> todos[i].id < next)
    && (forall i, j :: 0 <= i < j < |todos| ==> todos[i].id != todos[j].id)
  }

  /** `ticket_id REFERENCES tickets(id)`: every todo item belongs to an existing ticket. */
  ghost predicate Owned(db: Db) {
    forall k :: 0 <= k < |db.todos| ==> HasTicket(db.tickets, db.todos[k].ticketId)
  }

  ghost predicate HasTicket(tickets: seq<Ticket>, id: nat) {
    exists i :: 0 <= i < |tickets| && tickets[i].id == id
  }

  ghost predicate WellFormed(db: Db) {
    UniqueNumbers(db.tickets) && IdsFresh(db) && Owned(db)
  }

  // ---------------------------------------------------------------------------
  // Every operation keeps the constraints

  lemma CreatePreservesWellFormed(db: Db, now: Time, clock: nat, suffix: string, category: string,
                                  number: Option<string>, description: string, criteria: Option<string>)
    requires WellFormed(db)
    ensures WellFormed(CreateTicket(db, now, clock, suffix, category, number, description, criteria).db)
  {
    var r := CreateTicket(db, now, clock, suffix, category, number, description, criteria);
    if r.result.Ok? {
      var db' := r.db;
      forall k | 0 <= k < |db'.todos|
        ensures HasTicket(db'.tickets, db'.todos[k].ticketId)
      {
        assert db'.todos[k] == db.todos[k];
        var i :| 0 <= i < |db.tickets| && db.tickets[i].id == db.todos[k].ticketId;
        assert 0 <= i < |db'.tickets| && db'.tickets[i].id == db'.todos[k].ticketId;
      }
    }
  }

  /** Revising rows in place keeps every id and number, hence the constraints. */
  lemma RevisePreservesWellFormed(db: Db, id: nat, now: Time, category: Option<string>,
                                  description: Option<string>, criteria: Option<string>)
    requires WellFormed(db)
    ensures WellFormed(db.(tickets := ReviseById(db.tickets, id, now, category, description, criteria)))
  {
    var rows := ReviseById(db.tickets, id, now, category, description, criteria);
    var db' := db.(tickets := rows);
    assert forall i :: 0 <= i < |rows| ==> rows[i].id == db.tickets[i].id && rows[i].number == db.tickets[i].number;
    forall k | 0 <= k < |db'.todos|
      ensures HasTicket(rows, db'.todos[k].ticketId)
    {
      var i :| 0 <= i < |db.tickets| && db.tickets[i].id == db.todos[k].ticketId;
      assert 0 <= i < |rows| && rows[i].id == db'.todos[k].ticketId;
    }
  }

  lemma UpdatePreservesWellFormed(db: Db, now: Time, number: string, category: Option<string>,
                                  description: Option<string>, criteria: Option<string>)
    requires WellFormed(db)
    ensures WellFormed(UpdateTicket(db, now, number, category, description, criteria).db)
  {
    var r := UpdateTicket(db, now, number, category, description, criteria);
    if r.result.Ok? && ActiveTicketId(db.tickets, number).Some? {
      RevisePreservesWellFormed(db, ActiveTicketId(db.tickets, number).value, now, category, description, criteria);
    }
  }

  lemma DeletePreservesWellFormed(db: Db, now: Time, number: string, category: Option<string>)
    requires WellFormed(db)
    ensures WellFormed(DeleteTicket(db, now, number, category).db)
  {
    var db' := DeleteTicket(db, now, number, category).db;
    forall k | 0 <= k < |db'.todos|
      ensures HasTicket(db'.tickets, db'.todos[k].ticketId)
    {
      var i :| 0 <= i < |db.tickets| && db.tickets[i].id == db.todos[k].ticketId;
      assert db'.tickets[i].id == db.tickets[i].id;
    }
  }

  /** The tickets a hard delete keeps still have unique numbers and fresh ids. */
  lemma HardDeleteKeepsTicketConstraints(db: Db, number: string, category: Option<string>)
    requires UniqueNumbers(db.tickets) && TicketIdsFresh(db.tickets, db.nextTicketId)
    ensures var db' := HardDeleteTicket(db, number, category).db;
            UniqueNumbers(db'.tickets) && TicketIdsFresh(db'.tickets, db'.nextTicketId)
  {
    KeptTicketsKeepConstraints(db.tickets, db.nextTicketId, MatchedBy(number, category));
  }

  /** Removing any rows from a ticket table keeps its numbers unique and its ids fresh. */
  lemma KeptTicketsKeepConstraints(tickets: seq<Ticket>, next: nat, selected: Ticket -> bool)
    requires UniqueNumbers(tickets) && TicketIdsFresh(tickets, next)
    ensures UniqueNumbers(Reject(tickets, selected)) && TicketIdsFresh(Reject(tickets, selected), next)
  {
    KeptNumbersUnique(tickets, selected);
    KeptIdsDistinct(tickets, selected);
    var kept := Reject(tickets, selected);
    forall i | 0 <= i < |kept| ensures 1 <= kept[i].id < next {
      var m :| 0 <= m < |tickets| && tickets[m] == kept[i];
    }
  }

  /** Removing rows keeps ticket numbers pairwise distinct. */
  lemma KeptNumbersUnique(tickets: seq<Ticket>, selected: Ticket -> bool)
    requires UniqueNumbers(tickets)
    ensures UniqueNumbers(Reject(tickets, selected))
  {
    var distinctNumbers := (a: Ticket, b: Ticket) => a.number != b.number;
    assert forall i, j :: 0 <= i < j < |tickets| ==> distinctNumbers(tickets[i], tickets[j]);
    RejectKeepsPairwise(tickets, selected, distinctNumbers);
  }

  /** Removing rows keeps ticket ids pairwise distinct. */
  lemma KeptIdsDistinct(tickets: seq<Ticket>, selected: Ticket -> bool)
    requires forall i, j :: 0 <= i < j < |tickets| ==> tickets[i].id != tickets[j].id
    ensures var kept := Reject(tickets, selected);
            forall i, j :: 0 <= i < j < |kept| ==> kept[i].id != kept[j].id
  {
    var distinctIds := (a: Ticket, b: Ticket) => a.id != b.id;
    assert forall i, j :: 0 <= i < j < |tickets| ==> distinctIds(tickets[i], tickets[j]);
    RejectKeepsPairwise(tickets, selected, distinctIds);
  }

  /**
   * The cascade removes exactly the items whose ticket is gone, so every
   * item kept still has its ticket.
   */
  lemma HardDeleteKeepsOwners(db: Db, number: string, category: Option<string>)
    requires Owned(db) && TodoIdsFresh(db.todos, db.nextTodoId)
    ensures var db' := HardDeleteTicket(db, number, category).db;
            Owned(db') && TodoIdsFresh(db'.todos, db'.nextTodoId)
  {
    var selected := MatchedBy(number, category);
    CascadeKeepsOwners(db, selected);
    assert HardDeleteTicket(db, number, category).db
        == db.(tickets := Reject(db.tickets, selected), todos := Reject(db.todos, OwnedByAny(IdsOf(db.tickets, selected))));
  }

  /** Deleting tickets together with the items of the deleted ids leaves no item without its ticket. */
  lemma CascadeKeepsOwners(db: Db, selected: Ticket -> bool)
    requires Owned(db) && TodoIdsFresh(db.todos, db.nextTodoId)
    ensures var db' := db.(tickets := Reject(db.tickets, selected), todos := Reject(db.todos, OwnedByAny(IdsOf(db.tickets, selected))));
            Owned(db') && TodoIdsFresh(db'.todos, db'.nextTodoId)
  {
    var gone := IdsOf(db.tickets, selected);
    var tickets' := Reject(db.tickets, selected);
    var todos' := Reject(db.todos, OwnedByAny(gone));
    KeptTodoIdsDistinct(db.todos, OwnedByAny(gone));
    forall k | 0 <= k < |todos'|
      ensures todos'[k].id < db.nextTodoId
      ensures HasTicket(tickets', todos'[k].ticketId)
    {
      var td := todos'[k];
      var m :| 0 <= m < |db.todos| && db.todos[m] == td;
      var i :| 0 <= i < |db.tickets| && db.tickets[i].id == td.ticketId;
      // the owner was not deleted, or its id would be among the removed ones
      assert !selected(db.tickets[i]);
      var j :| 0 <= j < |tickets'| && tickets'[j] == db.tickets[i];
    }
  }

  /** Removing items keeps todo ids pairwise distinct. */
  lemma KeptTodoIdsDistinct(todos: seq<Todo>, removed: Todo -> bool)
    requires forall i, j :: 0 <= i < j < |todos| ==> todos[i].id != todos[j].id
    ensures var kept := Reject(todos, removed);
            forall i, j :: 0 <= i < j < |kept| ==> kept[i].id != kept[j].id
  {
    var distinctIds := (a: Todo, b: Todo) => a.id != b.id;
    assert forall i, j :: 0 <= i < j < |todos| ==> distinctIds(todos[i], todos[j]);
    RejectKeepsPairwise(todos, removed, distinctIds);
  }

  lemma HardDeletePreservesWellFormed(db: Db, number: string, category: Option<string>)
    requires WellFormed(db)
    ensures WellFormed(HardDeleteTicket(db, number, category).db)
  {
    HardDeleteKeepsTicketConstraints(db, number, category);
    HardDeleteKeepsOwners(db, number, category);
  }

  lemma AddTodoPreservesWellFormed(db: Db, now: Time, number: string, description: string, position: Option<int>)
    requires WellFormed(db)
    ensures WellFormed(AddTodo(db, now, number, description, position).db)
  {
    var r := AddTodo(db, now, number, description, position);
    if r.result.Ok? {
      var db' := r.db;
      forall k | 0 <= k < |db'.todos|
        ensures HasTicket(db'.tickets, db'.todos[k].ticketId)
      {
        if k < |db.todos| {
          assert db'.todos[k] == db.todos[k];
        }
      }
    }
  }

  lemma UpdateTodoPreservesWellFormed(db: Db, now: Time, todoId: int, description: Option<string>,
                                      done: Option<bool>, position: Option<int>)
    requires WellFormed(db)
    ensures WellFormed(UpdateTodo(db, now, todoId, description, done, position).db)
  {
    var db' := UpdateTodo(db, now, todoId, description, done, position).db;
    forall k | 0 <= k < |db'.todos|
      ensures HasTicket(db'.tickets, db'.todos[k].ticketId)
    {
      assert db'.todos[k].ticketId == db.todos[k].ticketId;
    }
  }

  lemma DeleteTodoPreservesWellFormed(db: Db, todoId: int)
    requires WellFormed(db)
    ensures WellFormed(DeleteTodo(db, todoId).db)
  {
    var db' := DeleteTodo(db, todoId).db;
    var distinctTodoIds := (a: Todo, b: Todo) => a.id != b.id;
    assert forall i, j :: 0 <= i < j < |db.todos| ==> distinctTodoIds(db.todos[i], db.todos[j]);
    RejectKeepsPairwise(db.todos, HasTodoId(todoId), distinctTodoIds);
    forall k | 0 <= k < |db'.todos|
      ensures db'.todos[k].id < db'.nextTodoId
      ensures HasTicket(db'.tickets, db'.todos[k].ticketId)
    {
      var m :| 0 <= m < |db.todos| && db.todos[m] == db'.todos[k];
    }
  }

  // ---------------------------------------------------------------------------
  // How the operations compose

  /** A ticket just created is what `get_ticket` finds for its number, with no todo items. */
  lemma CreatedTicketIsFound(db: Db, now: Time, clock: nat, suffix: string, category: string,
                             number: Option<string>, description: string, criteria: Option<string>)
    requires WellFormed(db)
    requires CreateTicket(db, now, clock, suffix, category, number, description, criteria).result.Ok?
    ensures var r := CreateTicket(db, now, clock, suffix, category, number, description, criteria);
            GetTicket(r.db, r.result.value.ticket.number) == Some(r.result.value)
  {
    var r := CreateTicket(db, now, clock, suffix, category, number, description, criteria);
    var t := r.result.value.ticket;
    forall k | 0 <= k < |db.todos| ensures db.todos[k].ticketId != t.id {
      var i :| 0 <= i < |db.tickets| && db.tickets[i].id == db.todos[k].ticketId;
    }
    AppendedTicketIsFound(db, t);
  }

  /** An active ticket appended under an unused number, owning no item yet, is the one its number finds. */
  lemma AppendedTicketIsFound(db: Db, t: Ticket)
    requires t.status == Active
    requires forall i :: 0 <= i < |db.tickets| ==> db.tickets[i].number != t.number
    requires forall k :: 0 <= k < |db.todos| ==> db.todos[k].ticketId != t.id
    ensures GetTicket(db.(tickets := db.tickets + [t], nextTicketId := db.nextTicketId + 1), t.number)
            == Some(TicketView(t, Some([])))
  {
    var db' := db.(tickets := db.tickets + [t], nextTicketId := db.nextTicketId + 1);
    var rows := db'.tickets;
    assert rows[|db.tickets|] == t;
    var g := GetTicket(db', t.number);
    assert g.Some?;
    var k :| 0 <= k < |rows| && rows[k] == g.value.ticket;
    assert k == |db.tickets|;
    assert TodosOf(db.todos, t.id) == [];
  }

  /** When an active ticket has the number, `update_ticket` returns that ticket, revised. */
  lemma UpdateReturnsTheTicket(db: Db, now: Time, number: string, category: Option<string>,
                               description: Option<string>, criteria: Option<string>)
    requires WellFormed(db)
    requires !NoTicketFields(category, description, criteria)
    requires exists i :: 0 <= i < |db.tickets| && db.tickets[i].number == number && db.tickets[i].status == Active
    ensures var r := UpdateTicket(db, now, number, category, description, criteria);
            && r.result.Ok? && r.result.value.Some?
            && r.result.value.value.ticket.number == number
            && r.result.value.value.ticket.status == Active
  {
    var id := ActiveTicketId(db.tickets, number).value;
    var f :| 0 <= f < |db.tickets| && ActiveNumbered(number)(db.tickets[f]) && db.tickets[f].id == id;
    var tickets' := ReviseById(db.tickets, id, now, category, description, criteria);
    assert HasId(id)(tickets'[f]);
    var k := FirstIndex(tickets', HasId(id)).value;
    assert k == f;
  }

  /** After a soft delete by number alone, the number has no active ticket: todo operations on it raise. */
  lemma SoftDeleteClosesTodoList(db: Db, now: Time, number: string, description: string, position: Option<int>)
    ensures var db' := DeleteTicket(db, now, number, None).db;
            && AddTodo(db', now, number, description, position) == Step(db', Err(TicketNotFoundOrInactive(number)))
            && GetTodos(db', number) == Err(TicketNotFoundOrInactive(number))
  {
    var rows' := DeleteTicket(db, now, number, None).db.tickets;
    forall i | 0 <= i < |rows'| ensures !ActiveNumbered(number)(rows'[i]) {
      assert rows'[i] == if Deletable(db.tickets[i], number, None) then db.tickets[i].(status := Inactive, updatedAt := now) else db.tickets[i];
    }
  }

  /**
   * A position-ordered selection from `todos + [item]` that contains `item`,
   * where `item` lies above every other item of its ticket, ends with `item`.
   */
  lemma SelectionEndsWithAppended(todos: seq<Todo>, item: Todo, items: seq<Todo>)
    requires forall i :: 0 <= i < |todos| && todos[i].ticketId == item.ticketId ==> todos[i].position < item.position
    requires forall i :: 0 <= i < |items| ==> items[i] in todos + [item] && items[i].ticketId == item.ticketId
    requires forall i, j :: 0 <= i < j < |items| ==> items[i].position <= items[j].position
    requires item in items
    ensures items[|items| - 1] == item
  {
    var k :| 0 <= k < |items| && items[k] == item;
    var last := items[|items| - 1];
    assert item.position <= last.position;
    var j :| 0 <= j < |todos| + 1 && (todos + [item])[j] == last;
    // an earlier item of the ticket would sit strictly below `item`
    assert j == |todos|;
  }

  /** An item appended with a position above all of its ticket's items is last in that ticket's list. */
  lemma AppendedAboveIsLast(todos: seq<Todo>, item: Todo)
    requires forall i :: 0 <= i < |todos| && todos[i].ticketId == item.ticketId ==> todos[i].position < item.position
    ensures var items := TodosOf(todos + [item], item.ticketId);
            |items| > 0 && items[|items| - 1] == item
  {
    var todos' := todos + [item];
    var items := TodosOf(todos', item.ticketId);
    assert todos'[|todos|] == item;
    SelectionEndsWithAppended(todos, item, items);
  }

  /** An item added at the default position comes last in its ticket's list. */
  lemma DefaultPositionComesLast(db: Db, now: Time, number: string, description: string)
    requires AddTodo(db, now, number, description).result.Ok?
    ensures var r := AddTodo(db, now, number, description);
            var items := TodosOf(r.db.todos, r.result.value.item.ticketId);
            |items| > 0 && items[|items| - 1] == r.result.value.item
  {
    var r := AddTodo(db, now, number, description);
    AppendedAboveIsLast(db.todos, r.result.value.item);
  }

  /** A ticket's todo list holds each of its items exactly once. */
  lemma TodoListCountsItems(todos: seq<Todo>, ticketId: nat)
    ensures |TodosOf(todos, ticketId)| == Count(todos, BelongsTo(ticketId))
  {
    var v := TodosOf(todos, ticketId);
    assert |v| == |multiset(v)| == |Filter(todos, BelongsTo(ticketId))|;
    CountIsFilterLength(todos, BelongsTo(ticketId));
  }

  /** A hard delete leaves no todo item of a removed ticket. */
  lemma HardDeleteCascades(db: Db, number: string, category: Option<string>, i: nat)
    requires i < |db.tickets| && Matches(db.tickets[i], number, category)
    ensures TodosOf(HardDeleteTicket(db, number, category).db.todos, db.tickets[i].id) == []
  {
    var todos' := HardDeleteTicket(db, number, category).db.todos;
    var gone := IdsOf(db.tickets, MatchedBy(number, category));
    assert db.tickets[i].id in gone;
  }

  // ---------------------------------------------------------------------------
  // The list total

  /**
   * One active ticket with id 7: the list shows one ticket, but the total the
   * code returns is that ticket's id; the counted total is 1. With no ticket
   * at all the code's total is None rather than 0.
   */
  lemma ListTotalIsTheFirstId()
    ensures var t := Ticket(7, "BUG-1", "bug", "crash", None, Active, 0, 0);
            var db := Db([t], [], 8, 1);
            && |ListTickets(db).value.tickets| == 1
            && ListTickets(db).value.total == Some(7)
            && ListTicketsCounted(db).value.total == Some(1)
    ensures ListTickets(Db([], [], 1, 1)).value.total == None
    ensures ListTicketsCounted(Db([], [], 1, 1)).value.total == Some(0)
  {
    var t := Ticket(7, "BUG-1", "bug", "crash", None, Active, 0, 0);
    assert ListedBy(None, true)(t);
  }

  /** The counted total is the number of listed rows and does not depend on the page bounds. */
  lemma CountedTotalIsListLength(db: Db, category: Option<string>, activeOnly: bool, includeTodos: bool, limit: nat, offset: nat)
    requires QueryExecutor.EncodesAsInt8(limit) && QueryExecutor.EncodesAsInt8(offset)
    ensures ListTicketsCounted(db, category, activeOnly, includeTodos, limit, offset).value.total ==
            Some(|ListedRows(db.tickets, category, activeOnly)|)
  {
    CountIsFilterLength(db.tickets, ListedBy(category, activeOnly));
  }
}
