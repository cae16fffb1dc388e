/**
 * Properties of the versioned ticket store for calls made one after the
 * other: the single-active-version invariant and its companions, what each
 * operation leaves untouched, and the lifecycle of one logical ticket.
 */
module VersionedInvariants {
  import opened Outcomes
  import opened Seqs
  import QueryExecutor
  import opened VersionedTickets

  /** At most one active row per (category, number). */
  ghost predicate SingleActive(rows: seq<Ticket>) {
    forall i, j :: 0 <= i < j < |rows| && rows[i].isActive && rows[j].isActive ==>
      !HasKey(rows[j], rows[i].category, rows[i].number)
  }

  /** Surrogate ids are distinct and below the next value of the id sequence. */
  ghost predicate IdsFresh(t: Table) {
    && (forall i :: 0 <= i < |t.rows| ==> t.rows[i].id < t.nextId)
    && (forall i, j :: 0 <= i < j < |t.rows| ==> t.rows[i].id != t.rows[j].id)
  }

  /** `valid_to` is NULL exactly on the active rows and never precedes `valid_from`. */
  ghost predicate ValidityColumns(rows: seq<Ticket>) {
    forall i :: 0 <= i < |rows| ==>
      && (rows[i].isActive <==> rows[i].validTo.None?)
      && (rows[i].validTo.Some? ==> rows[i].validFrom <= rows[i].validTo.value)
  }

  /** The clock reading is not earlier than any row's `valid_from`. */
  ghost predicate ClockAfter(rows: seq<Ticket>, now: Time) {
    forall i :: 0 <= i < |rows| ==> rows[i].validFrom <= now
  }

  ghost predicate Consistent(t: Table) {
    SingleActive(t.rows) && IdsFresh(t) && ValidityColumns(t.rows)
  }

  /** The rows of a key that are active: the counting form of the invariant. */
  function ActiveWithKey(category: string, number: string): Ticket -> bool {
    (t: Ticket) => t.isActive && HasKey(t, category, number)
  }

  /** Under the invariant, two active rows of the same key are one row. */
  lemma SameKeySameRow(rows: seq<Ticket>, i: nat, k: nat)
    requires SingleActive(rows) && i < |rows| && k < |rows| && rows[i].isActive && rows[k].isActive
    ensures HasKey(rows[i], rows[k].category, rows[k].number) ==> i == k
  {
  }

  // ---------------------------------------------------------------------------
  // The invariant, stated by counting

  lemma {:induction false} CountAtLeastTwo(rows: seq<Ticket>, p: Ticket -> bool, i: nat, j: nat)
    requires i < j < |rows| && p(rows[i]) && p(rows[j])
    ensures Count(rows, p) >= 2
  {
    if i == 0 {
      assert p(rows[1..][j - 1]);
      assert Count(rows[1..], p) != 0;
    } else {
      CountAtLeastTwo(rows[1..], p, i - 1, j - 1);
    }
  }

  lemma {:induction false} SingleActiveCountsAtMostOne(rows: seq<Ticket>, category: string, number: string)
    requires SingleActive(rows)
    ensures Count(rows, ActiveWithKey(category, number)) <= 1
  {
    if |rows| > 0 {
      var p := ActiveWithKey(category, number);
      assert SingleActive(rows[1..]) by {
        forall i, j | 0 <= i < j < |rows[1..]| && rows[1..][i].isActive && rows[1..][j].isActive
          ensures !HasKey(rows[1..][j], rows[1..][i].category, rows[1..][i].number)
        {
          assert rows[1..][i] == rows[i + 1] && rows[1..][j] == rows[j + 1];
        }
      }
      SingleActiveCountsAtMostOne(rows[1..], category, number);
      if p(rows[0]) {
        forall k | 0 <= k < |rows[1..]| ensures !p(rows[1..][k]) {
          assert rows[1..][k] == rows[k + 1];
        }
      }
    }
  }

  /** The invariant holds exactly when no key has two active rows. */
  lemma SingleActiveIffCountsAtMostOne(rows: seq<Ticket>)
    ensures SingleActive(rows) <==>
            forall c, n :: Count(rows, ActiveWithKey(c, n)) <= 1
  {
    if SingleActive(rows) {
      forall c, n ensures Count(rows, ActiveWithKey(c, n)) <= 1 {
        SingleActiveCountsAtMostOne(rows, c, n);
      }
    } else {
      var i, j :| 0 <= i < j < |rows| && rows[i].isActive && rows[j].isActive
                  && HasKey(rows[j], rows[i].category, rows[i].number);
      CountAtLeastTwo(rows, ActiveWithKey(rows[i].category, rows[i].number), i, j);
    }
  }

  // ---------------------------------------------------------------------------
  // Each writing operation preserves the invariant

  lemma CreatePreservesSingleActive(s: Service, now: Time, category: string, number: string, description: string)
    requires SingleActive(s.table.rows)
    ensures SingleActive(CreateTicket(s, now, category, number, description).service.table.rows)
  {
    var rows := s.table.rows;
    var r := CreateTicket(s, now, category, number, description);
    if r.result.Ok? {
      var rows' := r.service.table.rows;
      forall i, j | 0 <= i < j < |rows'| && rows'[i].isActive && rows'[j].isActive
        ensures !HasKey(rows'[j], rows'[i].category, rows'[i].number)
      {
        if j == |rows| {
          assert rows'[i] == rows[i];
        } else {
          assert rows'[i] == rows[i] && rows'[j] == rows[j];
        }
      }
    }
  }

  /** Closing rows by id never makes a row active. */
  lemma CloseByIdOnlyDeactivates(rows: seq<Ticket>, id: nat, now: Time)
    ensures forall i :: 0 <= i < |rows| && CloseById(rows, id, now)[i].isActive ==>
              CloseById(rows, id, now)[i] == rows[i] && rows[i].id != id
  {
  }

  lemma CloseByIdPreservesSingleActive(rows: seq<Ticket>, id: nat, now: Time)
    requires SingleActive(rows)
    ensures SingleActive(CloseById(rows, id, now))
  {
    CloseByIdOnlyDeactivates(rows, id, now);
  }

  lemma UpdatePreservesSingleActive(s: Service, now: Time, number: string, category: Option<string>, description: Option<string>)
    requires SingleActive(s.table.rows)
    ensures SingleActive(UpdateTicket(s, now, number, category, description).service.table.rows)
  {
    var rows := s.table.rows;
    var r := UpdateTicket(s, now, number, category, description);
    if s.connected && CurrentIndex(rows, number, category).Some? && r.service.table != s.table {
      var k := CurrentIndex(rows, number, category).value;
      var cur := rows[k];
      var closed := CloseById(rows, cur.id, now);
      var rows' := r.service.table.rows;
      assert rows' == closed + [r.result.value];
      CloseByIdOnlyDeactivates(rows, cur.id, now);
      forall i, j | 0 <= i < j < |rows'| && rows'[i].isActive && rows'[j].isActive
        ensures !HasKey(rows'[j], rows'[i].category, rows'[i].number)
      {
        assert rows'[i] == closed[i] == rows[i];
        if j < |rows| {
          assert rows'[j] == closed[j] == rows[j];
        } else {
          // the new version carries the key of the row it replaces, which was
          // the only active row of that key
          assert HasKey(rows'[j], cur.category, cur.number);
          assert i != k;
          SameKeySameRow(rows, i, k);
        }
      }
    }
  }

  lemma DeletePreservesSingleActive(s: Service, now: Time, number: string, category: Option<string>)
    requires SingleActive(s.table.rows)
    ensures SingleActive(DeleteTicket(s, now, number, category).service.table.rows)
  {
    var r := DeleteTicket(s, now, number, category);
    if r.result.Ok? {
      var cur := s.table.rows[CurrentIndex(s.table.rows, number, category).value];
      CloseByIdPreservesSingleActive(s.table.rows, cur.id, now);
    }
  }

  /** The pair condition of `SingleActive`, as a relation for `RejectKeepsPairwise`. */
  const NotActiveTwins: (Ticket, Ticket) -> bool :=
    (a: Ticket, b: Ticket) => !(a.isActive && b.isActive && HasKey(b, a.category, a.number))

  lemma HardDeletePreservesSingleActive(s: Service, number: string, category: Option<string>)
    requires SingleActive(s.table.rows)
    ensures SingleActive(HardDeleteTicket(s, number, category).service.table.rows)
  {
    var rows := s.table.rows;
    assert forall i, j :: 0 <= i < j < |rows| ==> NotActiveTwins(rows[i], rows[j]);
    RejectKeepsPairwise(rows, SelectedBy(number, category), NotActiveTwins);
  }

  // ---------------------------------------------------------------------------
  // The companion invariants

  lemma CreatePreservesConsistent(s: Service, now: Time, category: string, number: string, description: string)
    requires Consistent(s.table)
    ensures Consistent(CreateTicket(s, now, category, number, description).service.table)
  {
    CreatePreservesSingleActive(s, now, category, number, description);
  }

  lemma UpdatePreservesConsistent(s: Service, now: Time, number: string, category: Option<string>, description: Option<string>)
    requires Consistent(s.table) && ClockAfter(s.table.rows, now)
    ensures Consistent(UpdateTicket(s, now, number, category, description).service.table)
  {
    UpdatePreservesSingleActive(s, now, number, category, description);
    var rows := s.table.rows;
    var r := UpdateTicket(s, now, number, category, description);
    if s.connected && CurrentIndex(rows, number, category).Some? && r.service.table != s.table {
      var cur := rows[CurrentIndex(rows, number, category).value];
      assert r.service.table == Table(CloseById(rows, cur.id, now) + [r.result.value], s.table.nextId + 1);
      CloseThenInsertKeepsColumns(s.table, cur.id, now, r.result.value);
    }
  }

  /**
   * Closing the rows of one id at a time not before their `valid_from` and
   * appending a fresh active row keeps ids fresh and the validity columns consistent.
   */
  lemma CloseThenInsertKeepsColumns(t: Table, id: nat, now: Time, x: Ticket)
    requires IdsFresh(t) && ValidityColumns(t.rows) && ClockAfter(t.rows, now)
    requires x.id == t.nextId && x.isActive && x.validTo.None?
    ensures var rows' := CloseById(t.rows, id, now) + [x];
            IdsFresh(Table(rows', t.nextId + 1)) && ValidityColumns(rows')
  {
    var rows' := CloseById(t.rows, id, now) + [x];
    forall i | 0 <= i < |rows'|
      ensures rows'[i].id < t.nextId + 1
      ensures (rows'[i].isActive <==> rows'[i].validTo.None?)
      ensures rows'[i].validTo.Some? ==> rows'[i].validFrom <= rows'[i].validTo.value
    {
      if i < |t.rows| {
        assert rows'[i] == if t.rows[i].id == id then Closed(t.rows[i], now) else t.rows[i];
      }
    }
    forall i, j | 0 <= i < j < |rows'| ensures rows'[i].id != rows'[j].id {
      assert rows'[i].id == t.rows[i].id;
      if j < |t.rows| {
        assert rows'[j].id == t.rows[j].id;
      }
    }
  }

  lemma DeletePreservesConsistent(s: Service, now: Time, number: string, category: Option<string>)
    requires Consistent(s.table) && ClockAfter(s.table.rows, now)
    ensures Consistent(DeleteTicket(s, now, number, category).service.table)
  {
    DeletePreservesSingleActive(s, now, number, category);
  }

  lemma HardDeletePreservesConsistent(s: Service, number: string, category: Option<string>)
    requires Consistent(s.table)
    ensures Consistent(HardDeleteTicket(s, number, category).service.table)
  {
    HardDeletePreservesSingleActive(s, number, category);
    var rows := s.table.rows;
    var rows' := HardDeleteTicket(s, number, category).service.table.rows;
    var distinctIds := (a: Ticket, b: Ticket) => a.id != b.id;
    assert forall i, j :: 0 <= i < j < |rows| ==> distinctIds(rows[i], rows[j]);
    RejectKeepsPairwise(rows, SelectedBy(number, category), distinctIds);
    forall i | 0 <= i < |rows'|
      ensures rows'[i].id < s.table.nextId
      ensures rows'[i].isActive <==> rows'[i].validTo.None?
      ensures rows'[i].validTo.Some? ==> rows'[i].validFrom <= rows'[i].validTo.value
    {
      var m :| 0 <= m < |rows| && rows[m] == rows'[i];
    }
  }

  // ---------------------------------------------------------------------------
  // What the operations leave alone

  /**
   * An update that writes closes exactly the current row and appends one;
   * every other row, in particular every closed version, is unchanged.
   */
  lemma UpdateTouchesOnlyCurrentRow(s: Service, now: Time, number: string, category: Option<string>, description: Option<string>)
    requires IdsFresh(s.table)
    requires s.connected && CurrentIndex(s.table.rows, number, category).Some?
    ensures var k := CurrentIndex(s.table.rows, number, category).value;
            var rows' := UpdateTicket(s, now, number, category, description).service.table.rows;
            && |rows'| >= |s.table.rows|
            && (forall i :: 0 <= i < |s.table.rows| && i != k ==> rows'[i] == s.table.rows[i])
            && (|rows'| > |s.table.rows| ==> rows'[k] == Closed(s.table.rows[k], now))
  {
    var rows := s.table.rows;
    var k := CurrentIndex(rows, number, category).value;
    var r := UpdateTicket(s, now, number, category, description);
    if r.service != s {
      var closed := CloseById(rows, rows[k].id, now);
      assert r.service.table.rows == closed + [r.result.value];
      forall i | 0 <= i < |rows| && i != k ensures r.service.table.rows[i] == rows[i] {
        assert closed[i] == rows[i] by {
          if i < k { assert rows[i].id != rows[k].id; } else { assert rows[k].id != rows[i].id; }
        }
      }
    }
  }

  /** A soft delete keeps every row and only closes the current one. */
  lemma DeleteTouchesOnlyCurrentRow(s: Service, now: Time, number: string, category: Option<string>)
    requires IdsFresh(s.table)
    requires CurrentIndex(s.table.rows, number, category).Some?
    ensures var k := CurrentIndex(s.table.rows, number, category).value;
            var rows' := DeleteTicket(s, now, number, category).service.table.rows;
            && |rows'| == |s.table.rows|
            && rows'[k] == Closed(s.table.rows[k], now)
            && (forall i :: 0 <= i < |s.table.rows| && i != k ==> rows'[i] == s.table.rows[i])
  {
    var rows := s.table.rows;
    var k := CurrentIndex(rows, number, category).value;
    var rows' := DeleteTicket(s, now, number, category).service.table.rows;
    forall i | 0 <= i < |rows| && i != k ensures rows'[i] == rows[i] {
      if i < k { assert rows[i].id != rows[k].id; } else { assert rows[k].id != rows[i].id; }
    }
  }

  // ---------------------------------------------------------------------------
  // Reading the current version

  /**
   * Under the invariant, the lookup with a category returns exactly the one
   * active row of that key, and None when the key has none.
   */
  lemma CurrentIsTheActiveRow(s: Service, number: string, category: string, t: Ticket)
    requires SingleActive(s.table.rows) && category != ""
    ensures GetTicket(s, number, Some(category)).result.value.ticket == Some(t) <==>
            t in s.table.rows && t.isActive && HasKey(t, category, number)
  {
    var rows := s.table.rows;
    if t in rows && t.isActive && HasKey(t, category, number) {
      var m :| 0 <= m < |rows| && rows[m] == t;
      var k := CurrentIndex(rows, number, Some(category)).value;
      SameKeySameRow(rows, m, k);
    }
  }

  /** The list's total is the number of rows its filters select, whatever the page. */
  lemma ListTotalCountsSelectedRows(s: Service, category: Option<string>, activeOnly: bool, limit: nat, offset: nat)
    requires QueryExecutor.EncodesAsInt8(limit) && QueryExecutor.EncodesAsInt8(offset)
    ensures ListTickets(s, category, activeOnly, limit, offset).result.value.total ==
            Count(s.table.rows, ListedBy(category, activeOnly))
  {
    ListedRowsCount(s.table.rows, category, activeOnly);
  }

  /** The history lists every matching version exactly once: as many rows as the key selects. */
  lemma HistoryCountsVersions(rows: seq<Ticket>, number: string, category: Option<string>)
    ensures |VersionHistory(rows, number, category)| == Count(rows, SelectedBy(number, category))
  {
    var v := VersionHistory(rows, number, category);
    assert |v| == |multiset(v)| == |Filter(rows, SelectedBy(number, category))|;
    CountIsFilterLength(rows, SelectedBy(number, category));
  }

  // ---------------------------------------------------------------------------
  // The lifecycle of one ticket

  /**
   * On an empty table, a create followed by an update with a new description
   * leaves a history of two rows: the active version 2, then the closed version 1.
   */
  lemma CreateThenUpdateKeepsBothVersions(nextId: nat, now: Time, later: Time, category: string, number: string,
                                          d1: string, d2: string)
    requires category != "" && d2 != "" && d2 != d1
    ensures var s1 := CreateTicket(Service(false, Table([], nextId)), now, category, number, d1).service;
            var s2 := UpdateTicket(s1, later, number, Some(category), Some(d2)).service;
            var v := VersionHistory(s2.table.rows, number, Some(category));
            && |v| == 2
            && v[0].version == 2 && v[0].isActive && v[0].description == d2
            && v[1].version == 1 && !v[1].isActive && v[1].description == d1
  {
    var s0 := Service(false, Table([], nextId));
    UpdateAfterCreateSucceeds(s0, now, later, category, number, d1, d2);
    var s1 := CreateTicket(s0, now, category, number, d1).service;
    var r := UpdateTicket(s1, later, number, Some(category), Some(d2));
    var rows := r.service.table.rows;
    var first := Closed(s1.table.rows[0], later);
    assert rows == [first, r.result.value];
    var v := VersionHistory(rows, number, Some(category));
    HistoryCountsVersions(rows, number, Some(category));
    assert Count(rows, SelectedBy(number, Some(category))) == 2 by {
      assert rows[1..] == [r.result.value];
      assert rows[1..][1..] == [];
    }
    assert v[0] in rows && v[1] in rows;
    assert v[0] != v[1] by {
      assert multiset(v)[first] == multiset(Filter(rows, SelectedBy(number, Some(category))))[first];
    }
  }

  /** Creating the same ticket twice conflicts on the second call. */
  lemma CreateTwiceConflicts(s: Service, now: Time, later: Time, category: string, number: string, d1: string, d2: string)
    requires CreateTicket(s, now, category, number, d1).result.Ok?
    ensures var s1 := CreateTicket(s, now, category, number, d1).service;
            CreateTicket(s1, later, category, number, d2) == Step(s1, Err(ActiveTicketExists(number, category)))
  {
    var s1 := CreateTicket(s, now, category, number, d1).service;
    assert s1.table.rows[|s.table.rows|].isActive && HasKey(s1.table.rows[|s.table.rows|], category, number);
  }

  /** After a soft delete with a category, the current-version lookup finds nothing, and history is kept. */
  lemma SoftDeleteHidesCurrent(s: Service, now: Time, number: string, category: string)
    requires SingleActive(s.table.rows) && category != ""
    requires DeleteTicket(s, now, number, Some(category)).result.Ok?
    ensures var s1 := DeleteTicket(s, now, number, Some(category)).service;
            && GetTicket(s1, number, Some(category)).result.value.ticket == None
            && |s1.table.rows| == |s.table.rows|
  {
    var rows := s.table.rows;
    var k := CurrentIndex(rows, number, Some(category)).value;
    var rows' := DeleteTicket(s, now, number, Some(category)).service.table.rows;
    forall j | 0 <= j < |rows'| ensures !SelectsActive(rows'[j], number, Some(category)) {
      if rows'[j].isActive {
        assert j != k && rows'[j] == rows[j];
        SameKeySameRow(rows, j, k);
      }
    }
  }

  /** A hard delete forgets the ticket: creating it again starts over at version 1. */
  lemma HardDeleteThenCreateRestarts(s: Service, now: Time, number: string, category: string, description: string)
    requires category != ""
    ensures var s1 := HardDeleteTicket(s, number, Some(category)).service;
            var r := CreateTicket(s1, now, category, number, description);
            r.result.Ok? && r.result.value.version == 1
  {
    var rows' := HardDeleteTicket(s, number, Some(category)).service.table.rows;
    forall i | 0 <= i < |rows'| ensures !(rows'[i].isActive && HasKey(rows'[i], category, number)) {
      assert !Selects(rows'[i], number, Some(category));
    }
  }

  /**
   * A service that has not yet run a query cannot update: the transaction is
   * opened on a connection that does not exist, although the ticket is there
   * and the connected variant updates it.
   */
  lemma UpdateOnFreshServiceFails(t: Table, now: Time, number: string, category: Option<string>, description: Option<string>)
    requires CurrentIndex(t.rows, number, category).Some?
    ensures UpdateTicket(Service(false, t), now, number, category, description).result == Err(NoConnection)
    ensures UpdateTicketConnected(Service(false, t), now, number, category, description).result.Ok?
  {
  }

  /** The same call sequence after any other query succeeds, so the failure is the connection's alone. */
  lemma UpdateAfterCreateSucceeds(s: Service, now: Time, later: Time, category: string, number: string, d1: string, d2: string)
    requires category != "" && CreateTicket(s, now, category, number, d1).result.Ok?
    ensures var s1 := CreateTicket(s, now, category, number, d1).service;
            var r := UpdateTicket(s1, later, number, Some(category), Some(d2));
            && r.result.Ok?
            && r.result.value.version == (if d2 != "" && d2 != d1 then 2 else 1)
            && r.result.value.category == category
  {
    var s1 := CreateTicket(s, now, category, number, d1).service;
    var n := |s.table.rows|;
    assert SelectsActive(s1.table.rows[n], number, Some(category));
    var k := CurrentIndex(s1.table.rows, number, Some(category)).value;
    assert k == n;
  }
}
