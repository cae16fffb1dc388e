/**
 * The versioned ticket store (ticket_service.py). The `tickets` table is a
 * sequence of rows; every row is one version of the logical ticket
 * identified by (category, number). Each operation maps the old service
 * state to the new one together with its result or the error it raises.
 *
 * Assumptions about the table definition, which is not part of this model:
 * an inserted row gets a fresh surrogate id, `is_active = true`,
 * `valid_to = NULL` and `updated_at` = the insertion time; the UPDATE that
 * closes a row changes nothing but the columns it names.
 */
module VersionedTickets {
  import opened Outcomes
  import opened Seqs
  import QueryExecutor

  /** `CURRENT_TIMESTAMP`, as an abstract clock reading. */
  type Time = nat

  datatype Ticket = Ticket(
    id: nat,
    category: string,
    number: string,
    description: string,
    version: int,
    validFrom: Time,
    validTo: Option<Time>,
    isActive: bool,
    updatedAt: Time)

  /** The table's rows in storage order, and the next value of the id sequence. */
  datatype Table = Table(rows: seq<Ticket>, nextId: nat)

  /**
   * The service: whether its handler already holds a connection (every
   * `run_query` opens one on first use), and the table.
   */
  datatype Service = Service(connected: bool, table: Table)

  /** The state after an operation and what the operation returned or raised. */
  datatype Step<T> = Step(service: Service, result: Result<T>)

  /** `get_ticket`'s two answers: the current row (or None), or every version. */
  datatype View = Current(ticket: Option<Ticket>) | History(versions: seq<Ticket>)

  datatype Listing = Listing(tickets: seq<Ticket>, total: nat)

  /** The logical key a row belongs to. */
  predicate HasKey(t: Ticket, category: string, number: string) {
    t.category == category && t.number == number
  }

  /** `WHERE ticket_number = $1`, plus `AND ticket_category = $2` when a category is supplied. */
  predicate Selects(t: Ticket, number: string, category: Option<string>) {
    t.number == number && (Truthy(category) ==> t.category == category.value)
  }

  function SelectedBy(number: string, category: Option<string>): Ticket -> bool {
    (t: Ticket) => Selects(t, number, category)
  }

  predicate SelectsActive(t: Ticket, number: string, category: Option<string>) {
    t.isActive && Selects(t, number, category)
  }

  /** The row the `fetch_type="one"` lookup of the active version returns. */
  function CurrentIndex(rows: seq<Ticket>, number: string, category: Option<string>): (r: Option<nat>)
    ensures r.Some? ==> r.value < |rows| && SelectsActive(rows[r.value], number, category)
    ensures r.None? <==> forall j :: 0 <= j < |rows| ==> !SelectsActive(rows[j], number, category)
  {
    FirstIndex(rows, (t: Ticket) => SelectsActive(t, number, category))
  }

  /** `SET valid_to = CURRENT_TIMESTAMP, is_active = FALSE` on one row. */
  function Closed(t: Ticket, now: Time): Ticket {
    t.(validTo := Some(now), isActive := false)
  }

  /** `UPDATE tickets SET ... WHERE id = $1`: closes every row with that id. */
  function CloseById(rows: seq<Ticket>, id: nat, now: Time): (r: seq<Ticket>)
    ensures |r| == |rows|
    ensures forall i :: 0 <= i < |rows| ==>
              && r[i].id == rows[i].id && r[i].category == rows[i].category && r[i].number == rows[i].number
              && r[i].description == rows[i].description && r[i].version == rows[i].version
              && r[i].validFrom == rows[i].validFrom && r[i].updatedAt == rows[i].updatedAt
    ensures forall i :: 0 <= i < |rows| && rows[i].id == id ==> !r[i].isActive && r[i].validTo == Some(now)
    ensures forall i :: 0 <= i < |rows| && rows[i].id != id ==> r[i] == rows[i]
  {
    seq(|rows|, i requires 0 <= i < |rows| => if rows[i].id == id then Closed(rows[i], now) else rows[i])
  }

  /** `INSERT ... RETURNING *`: a fresh active row, valid from `now`. */
  function Insert(t: Table, category: string, number: string, description: string, version: int, now: Time): (r: (Table, Ticket))
    ensures r.0.rows == t.rows + [r.1] && r.0.nextId == t.nextId + 1
    ensures r.1.id == t.nextId && r.1.isActive && r.1.validTo == None && r.1.validFrom == now
    ensures HasKey(r.1, category, number) && r.1.description == description && r.1.version == version
  {
    var row := Ticket(t.nextId, category, number, description, version, now, None, true, now);
    (Table(t.rows + [row], t.nextId + 1), row)
  }

  // ---------------------------------------------------------------------------
  // create_ticket

  /**
   * Raises when an active row with exactly this category and number exists;
   * otherwise appends version 1 of the ticket and returns it.
   */
  function CreateTicket(s: Service, now: Time, category: string, number: string, description: string): (r: Step<Ticket>)
    ensures r.service.connected
    ensures (exists i :: 0 <= i < |s.table.rows| && s.table.rows[i].isActive && HasKey(s.table.rows[i], category, number))
              <==> r.result.Err?
    ensures r.result.Err? ==> r.result.error == ActiveTicketExists(number, category) && r.service.table == s.table
    ensures r.result.Ok? ==>
              && r.service.table.rows == s.table.rows + [r.result.value]
              && r.service.table.nextId == s.table.nextId + 1
              && r.result.value == Ticket(s.table.nextId, category, number, description, 1, now, None, true, now)
  {
    var s' := s.(connected := true);
    var existing := FirstIndex(s.table.rows, (t: Ticket) => t.isActive && HasKey(t, category, number));
    if existing.Some? then Step(s', Err(ActiveTicketExists(number, category)))
    else
      var (table', row) := Insert(s.table, category, number, description, 1, now);
      Step(s'.(table := table'), Ok(row))
  }

  // ---------------------------------------------------------------------------
  // get_ticket

  /** Every row matching the number (and the category, when supplied), newest version first. */
  function VersionHistory(rows: seq<Ticket>, number: string, category: Option<string>): (v: seq<Ticket>)
    ensures forall i :: 0 <= i < |v| ==> v[i] in rows && Selects(v[i], number, category)
    ensures forall j :: 0 <= j < |rows| && Selects(rows[j], number, category) ==> rows[j] in v
    ensures forall i, j :: 0 <= i < j < |v| ==> v[i].version >= v[j].version
    ensures multiset(v) == multiset(Filter(rows, SelectedBy(number, category)))
  {
    var matching := Filter(rows, SelectedBy(number, category));
    SortByKeyDescending(matching, (t: Ticket) => t.version)
  }

  /**
   * Without history: the first active row matching the number (and the
   * category, when one is supplied), or None. With history: every matching
   * row, active or not, newest version first.
   */
  function GetTicket(s: Service, number: string, category: Option<string> := None, includeHistory: bool := false): (r: Step<View>)
    ensures r.service == s.(connected := true) && r.result.Ok?
    ensures includeHistory ==> r.result.value == History(VersionHistory(s.table.rows, number, category))
    ensures !includeHistory ==> r.result.value.Current?
    ensures !includeHistory && r.result.value.ticket.Some? ==>
              r.result.value.ticket.value in s.table.rows && SelectsActive(r.result.value.ticket.value, number, category)
    ensures !includeHistory ==>
              (r.result.value.ticket.None? <==> forall j :: 0 <= j < |s.table.rows| ==> !SelectsActive(s.table.rows[j], number, category))
  {
    var rows := s.table.rows;
    var view :=
      if includeHistory then History(VersionHistory(rows, number, category))
      else match CurrentIndex(rows, number, category)
        case Some(i) => Current(Some(rows[i]))
        case None => Current(None);
    Step(s.(connected := true), Ok(view))
  }

  // ---------------------------------------------------------------------------
  // list_tickets

  /** The list filters: active rows only when asked, the category when one is supplied. */
  predicate Listed(t: Ticket, category: Option<string>, activeOnly: bool) {
    (activeOnly ==> t.isActive) && (Truthy(category) ==> t.category == category.value)
  }

  function ListedBy(category: Option<string>, activeOnly: bool): Ticket -> bool {
    (t: Ticket) => Listed(t, category, activeOnly)
  }

  /** Every row the list filters select, most recently updated first (`ORDER BY updated_at DESC`). */
  function ListedRows(rows: seq<Ticket>, category: Option<string>, activeOnly: bool): (v: seq<Ticket>)
    ensures forall i :: 0 <= i < |v| ==> v[i] in rows && Listed(v[i], category, activeOnly)
    ensures forall j :: 0 <= j < |rows| && Listed(rows[j], category, activeOnly) ==> rows[j] in v
    ensures forall i, j :: 0 <= i < j < |v| ==> v[i].updatedAt >= v[j].updatedAt
    ensures multiset(v) == multiset(Filter(rows, ListedBy(category, activeOnly)))
  {
    var matching := Filter(rows, ListedBy(category, activeOnly));
    SortByKeyDescending(matching, (t: Ticket) => t.updatedAt as int)
  }

  /** The rows listed are exactly as many as the list filters select. */
  lemma ListedRowsCount(rows: seq<Ticket>, category: Option<string>, activeOnly: bool)
    ensures |ListedRows(rows, category, activeOnly)| == Count(rows, ListedBy(category, activeOnly))
  {
    CountIsFilterLength(rows, ListedBy(category, activeOnly));
  }

  /**
   * A page of the filtered rows, most recently updated first, and the number
   * of rows the filters select. The count query gets the filter parameters
   * only (`params[:-2]`), so the total does not depend on the page bounds;
   * PostgreSQL rejects a negative OFFSET or LIMIT, and the driver refuses a
   * bound it cannot encode as `bigint` before the query is sent.
   */
  function ListTickets(s: Service, category: Option<string> := None, activeOnly: bool := true,
                       limit: int := 100, offset: int := 0): (r: Step<Listing>)
    ensures r.service == s.(connected := true)
    ensures r.result.Err? <==> limit < 0 || offset < 0 || limit >= QueryExecutor.Int8Limit || offset >= QueryExecutor.Int8Limit
    ensures r.result.Ok? ==>
              var all := ListedRows(s.table.rows, category, activeOnly);
              && r.result.value.total == |all|
              && r.result.value.tickets == Window(all, offset, limit)
              && |r.result.value.tickets| == if offset >= |all| then 0 else if limit <= |all| - offset then limit else |all| - offset
  {
    var s' := s.(connected := true);
    if !QueryExecutor.EncodesAsInt8(limit) || !QueryExecutor.EncodesAsInt8(offset) then Step(s', Err(Database("value out of int64 range")))
    else if offset < 0 then Step(s', Err(Database("OFFSET must not be negative")))
    else if limit < 0 then Step(s', Err(Database("LIMIT must not be negative")))
    else
      var all := ListedRows(s.table.rows, category, activeOnly);
      Step(s', Ok(Listing(Window(all, offset, limit), |all|)))
  }

  // ---------------------------------------------------------------------------
  // update_ticket

  /**
   * Inside a transaction: find the active row; if the merged values equal the
   * current ones return it and write nothing; otherwise close it and append
   * the next version. The transaction is opened on `self.db.connection`
   * before any query runs, so a service that has not connected yet raises.
   */
  function UpdateTicket(s: Service, now: Time, number: string,
                        category: Option<string> := None, description: Option<string> := None): (r: Step<Ticket>)
    ensures !s.connected ==> r == Step(s, Err(NoConnection))
    ensures s.connected && CurrentIndex(s.table.rows, number, category).None? ==>
              r == Step(s, Err(NoActiveTicket(number)))
    ensures s.connected && CurrentIndex(s.table.rows, number, category).Some? ==>
              var cur := s.table.rows[CurrentIndex(s.table.rows, number, category).value];
              var newDescription := Merge(description, cur.description);
              && r.result.Ok?
              && r.service.connected
              && (newDescription == cur.description ==> r.result.value == cur && r.service == s)
              && (newDescription != cur.description ==>
                    && r.service.table.rows == CloseById(s.table.rows, cur.id, now) + [r.result.value]
                    && r.service.table.nextId == s.table.nextId + 1
                    && r.result.value == Ticket(s.table.nextId, cur.category, number, newDescription,
                                                cur.version + 1, now, None, true, now))
  {
    if !s.connected then Step(s, Err(NoConnection))
    else match CurrentIndex(s.table.rows, number, category)
      case None => Step(s, Err(NoActiveTicket(number)))
      case Some(i) =>
        var cur := s.table.rows[i];
        var newCategory := Merge(category, cur.category);
        var newDescription := Merge(description, cur.description);
        if newCategory == cur.category && newDescription == cur.description then Step(s, Ok(cur))
        else
          var closed := Table(CloseById(s.table.rows, cur.id, now), s.table.nextId);
          var (table', row) := Insert(closed, newCategory, number, newDescription, cur.version + 1, now);
          Step(s.(table := table'), Ok(row))
  }

  /**
   * `update_ticket` with the connection opened before the transaction starts,
   * as every other operation does through `run_query`.
   */
  function UpdateTicketConnected(s: Service, now: Time, number: string,
                                 category: Option<string> := None, description: Option<string> := None): (r: Step<Ticket>)
    ensures r.result != Err(NoConnection)
    ensures r.service.connected
    ensures r.result.Err? <==> CurrentIndex(s.table.rows, number, category).None?
  {
    UpdateTicket(s.(connected := true), now, number, category, description)
  }

  // ---------------------------------------------------------------------------
  // delete_ticket (soft) and hard_delete_ticket

  /**
   * Raises when no active row matches; otherwise closes that row (by id) and
   * returns whether the closing UPDATE returned a row.
   */
  function DeleteTicket(s: Service, now: Time, number: string, category: Option<string> := None): (r: Step<bool>)
    ensures r.service.connected
    ensures CurrentIndex(s.table.rows, number, category).None? <==> r.result.Err?
    ensures r.result.Err? ==> r.result.error == NoActiveTicket(number) && r.service.table == s.table
    ensures r.result.Ok? ==>
              var cur := s.table.rows[CurrentIndex(s.table.rows, number, category).value];
              && r.result.value
              && r.service.table == Table(CloseById(s.table.rows, cur.id, now), s.table.nextId)
  {
    var s' := s.(connected := true);
    match CurrentIndex(s.table.rows, number, category)
    case None => Step(s', Err(NoActiveTicket(number)))
    case Some(i) =>
      var cur := s.table.rows[i];
      var returned := exists j :: 0 <= j < |s.table.rows| && s.table.rows[j].id == cur.id;
      Step(s'.(table := Table(CloseById(s.table.rows, cur.id, now), s.table.nextId)), Ok(returned))
  }

  /**
   * Removes every row with the number (and the category, when supplied),
   * active or not, and returns the count read from the DELETE command tag.
   */
  function HardDeleteTicket(s: Service, number: string, category: Option<string> := None): (r: Step<int>)
    ensures r.service.connected && r.service.table.nextId == s.table.nextId
    ensures r.result == Ok(|s.table.rows| - |r.service.table.rows|)
    ensures r.service.table.rows == Reject(s.table.rows, SelectedBy(number, category))
    ensures forall i :: 0 <= i < |r.service.table.rows| ==>
              r.service.table.rows[i] in s.table.rows && !Selects(r.service.table.rows[i], number, category)
    ensures forall j :: 0 <= j < |s.table.rows| && !Selects(s.table.rows[j], number, category) ==>
              s.table.rows[j] in r.service.table.rows
  {
    var selected := SelectedBy(number, category);
    var kept := Reject(s.table.rows, selected);
    var count := DeletedCount(s.table.rows, selected);
    assert count == Ok(|s.table.rows| - |kept|);
    KeptRows(s.table.rows, number, category);
    Step(Service(true, Table(kept, s.table.nextId)), count)
  }

  /** The rows a delete keeps are exactly the rows it does not select. */
  lemma KeptRows(rows: seq<Ticket>, number: string, category: Option<string>)
    ensures forall i :: 0 <= i < |Reject(rows, SelectedBy(number, category))| ==>
              Reject(rows, SelectedBy(number, category))[i] in rows
              && !Selects(Reject(rows, SelectedBy(number, category))[i], number, category)
    ensures forall j :: 0 <= j < |rows| && !Selects(rows[j], number, category) ==>
              rows[j] in Reject(rows, SelectedBy(number, category))
  {
    var kept := Reject(rows, SelectedBy(number, category));
    forall i | 0 <= i < |kept| ensures !Selects(kept[i], number, category) {
      assert !SelectedBy(number, category)(kept[i]);
    }
    forall j | 0 <= j < |rows| && !Selects(rows[j], number, category) ensures rows[j] in kept {
      assert !SelectedBy(number, category)(rows[j]);
    }
  }

  /** The count a DELETE of the selected rows reports, read from its command tag by the 'status' rule. */
  function DeletedCount(rows: seq<Ticket>, selected: Ticket -> bool): (r: Result<int>)
    ensures r == Ok(|rows| - |Reject(rows, selected)|)
  {
    var removed := |Filter(rows, selected)|;
    FilterRejectPartition(rows, selected);
    var tag := QueryExecutor.DeleteTag(removed);
    QueryExecutor.DecodeStatusOfUpdateOrDelete(tag);
    QueryExecutor.DecodeStatus(QueryExecutor.TagText(tag))
  }
}
