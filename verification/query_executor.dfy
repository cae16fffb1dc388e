/**
 * The single-connection PostgreSQL handler (db.py): lazy connect, close,
 * `run_query` with its four fetch types, and `execute_transaction`.
 *
 * The database driver is not modelled. What it would send back for a
 * statement is a `DriverReply` given as a parameter (for a batch, one reply
 * per statement position), and a connection attempt's outcome is a `Dial`.
 */
module QueryExecutor {
  import opened Outcomes
  import opened Text

  datatype Value = NullValue | IntValue(i: int) | TextValue(s: string) | BoolValue(b: bool)

  /** One column of a result record, in select-list order. */
  datatype Field = Field(name: string, value: Value)

  type Row = seq<Field>

  /** The driver's answer to one statement: its rows and its command tag, or an error. */
  datatype DriverReply = Reply(rows: seq<Row>, tag: string) | DriverFailure(message: string)

  /** Outcome of asking the driver for a new connection. */
  datatype Dial = Dialed(connection: nat) | DialFailed(reason: string)

  datatype Handler = Handler(url: string, connection: Option<nat>)

  /** The four result shapes a caller may ask for. */
  datatype Shape = All | One | Val | Status

  /** The driver entry point used for each shape. */
  datatype DriverMethod = Fetch | FetchRow | FetchVal | Execute

  /** What the handler hands to the driver: the statement and its positional arguments. */
  datatype DriverCall = DriverCall(entry: DriverMethod, query: string, args: seq<Value>)

  datatype QueryResult =
    | RowSet(rows: seq<Row>)
    | SingleRow(row: Option<Row>)
    | Scalar(value: Value)
    | RowCount(count: int)

  /** Result of `run_query`: the handler afterwards, the driver call made (if any), the outcome. */
  datatype RunOutcome = RunOutcome(handler: Handler, call: Option<DriverCall>, result: Result<QueryResult>)

  /** A dictionary entry: the key is absent, present with the value None, or present with a value. */
  datatype Entry<T> = Absent | Null | Given(value: T)

  /**
   * One element of an `execute_transaction` batch. `query` is None when the
   * key is absent; a query present with the value None is not modelled.
   */
  datatype Descriptor = Descriptor(query: Option<string>, params: Entry<seq<Value>>, fetchType: Entry<string>)

  /** 2^63: the driver encodes an integer bound to a `bigint` parameter only below this. */
  const Int8Limit: int := 0x8000_0000_0000_0000

  /** Whether the driver can send `x` as a `bigint` (int8) query argument. */
  predicate EncodesAsInt8(x: int) {
    -Int8Limit <= x < Int8Limit
  }

  // ---------------------------------------------------------------------------
  // Connection bookkeeping

  /** The constructor: the given URL, else the environment's; neither is an error. */
  function NewHandler(url: Option<string>, env: Option<string>): (r: Result<Handler>)
    ensures r.Ok? <==> Truthy(url) || Truthy(env)
    ensures r.Ok? ==> r.value.connection == None
    ensures r.Ok? && Truthy(url) ==> r.value.url == url.value
    ensures r.Ok? && !Truthy(url) ==> r.value.url == env.value
    ensures r.Err? ==> r.error == MissingUrl
  {
    var chosen := if Truthy(url) then url else env;
    if Truthy(chosen) then Ok(Handler(chosen.value, None)) else Err(MissingUrl)
  }

  /** `connect()`: dials only when there is no connection; a failed dial leaves none. */
  function Connect(h: Handler, dial: Dial): (r: Result<Handler>)
    ensures h.connection.Some? ==> r == Ok(h)
    ensures h.connection.None? ==> (r.Ok? <==> dial.Dialed?)
    ensures r.Ok? ==> r.value.url == h.url && r.value.connection.Some?
    ensures h.connection.None? && dial.Dialed? ==> r.value.connection == Some(dial.connection)
    ensures r.Err? ==> r.error == ConnectFailed(dial.reason)
  {
    if h.connection.Some? then Ok(h)
    else match dial
      case Dialed(c) => Ok(h.(connection := Some(c)))
      case DialFailed(reason) => Err(ConnectFailed(reason))
  }

  /** `close()`: forgets the connection, whether or not there was one. */
  function Close(h: Handler): (r: Handler)
    ensures r.connection == None && r.url == h.url
  {
    if h.connection.Some? then h.(connection := None) else h
  }

  /** The handler state after the lazy connect at the top of `run_query` / `execute_transaction`. */
  function EnsureConnected(h: Handler, dial: Dial): Result<Handler> {
    if h.connection.None? then Connect(h, dial) else Ok(h)
  }

  // ---------------------------------------------------------------------------
  // Result decoding

  function ParseShape(fetchType: string): (r: Option<Shape>)
    ensures r.Some? <==> fetchType in {"all", "one", "val", "status"}
  {
    if fetchType == "all" then Some(All)
    else if fetchType == "one" then Some(One)
    else if fetchType == "val" then Some(Val)
    else if fetchType == "status" then Some(Status)
    else None
  }

  function MethodFor(shape: Shape): DriverMethod {
    match shape
    case All => Fetch
    case One => FetchRow
    case Val => FetchVal
    case Status => Execute
  }

  predicate HasCountPrefix(tag: string) {
    StartsWith(tag, "INSERT") || StartsWith(tag, "UPDATE") || StartsWith(tag, "DELETE")
  }

  /**
   * The 'status' rule as written: for a tag starting with INSERT, UPDATE or
   * DELETE, `int(status.split()[1])`; for any other tag, 0.
   */
  function DecodeStatus(tag: string): (r: Result<int>)
    ensures !HasCountPrefix(tag) ==> r == Ok(0)
    ensures HasCountPrefix(tag) && |Tokens(tag)| < 2 ==> r == Err(IndexOutOfRange)
    ensures HasCountPrefix(tag) && |Tokens(tag)| >= 2 ==>
              (r.Ok? <==> ParseInt(Tokens(tag)[1]).Some?)
    ensures HasCountPrefix(tag) && r.Ok? ==> |Tokens(tag)| >= 2 && ParseInt(Tokens(tag)[1]) == Some(r.value)
  {
    if HasCountPrefix(tag) then
      var tokens := Tokens(tag);
      if |tokens| < 2 then Err(IndexOutOfRange)
      else match ParseInt(tokens[1])
        case Some(n) => Ok(n)
        case None => Err(NotAnInteger(tokens[1]))
    else Ok(0)
  }

  /**
   * The affected-row count read as the last space-separated field of the tag,
   * `int(status.split(" ")[-1])`, the rule backend/ticket_service.py uses.
   */
  function DecodeRowCount(tag: string): (r: Result<int>)
    ensures r.Ok? <==> ParseInt(Last(SplitOn(tag, ' '))).Some?
    ensures r.Ok? ==> ParseInt(Last(SplitOn(tag, ' '))) == Some(r.value)
  {
    var field := Last(SplitOn(tag, ' '));
    match ParseInt(field)
    case Some(n) => Ok(n)
    case None => Err(NotAnInteger(field))
  }

  /** Decodes one driver reply into the requested shape; driver errors pass through unchanged. */
  function Decode(shape: Shape, reply: DriverReply): (r: Result<QueryResult>)
    ensures reply.DriverFailure? ==> r == Err(Database(reply.message))
    ensures reply.Reply? && shape == All ==> r == Ok(RowSet(reply.rows))
    ensures reply.Reply? && shape == One ==>
              && r.Ok?
              && (r.value == SingleRow(None) <==> |reply.rows| == 0 || |reply.rows[0]| == 0)
              && (r.value != SingleRow(None) ==> r.value == SingleRow(Some(reply.rows[0])))
    ensures reply.Reply? && shape == Val && |reply.rows| == 0 ==> r == Ok(Scalar(NullValue))
    ensures reply.Reply? && shape == Val && |reply.rows| > 0 ==>
              (r.Err? <==> |reply.rows[0]| == 0)
              && (r.Ok? ==> r.value == Scalar(reply.rows[0][0].value))
    ensures reply.Reply? && shape == Status ==>
              (r.Ok? <==> DecodeStatus(reply.tag).Ok?)
              && (r.Ok? ==> r.value == RowCount(DecodeStatus(reply.tag).value))
  {
    match reply
    case DriverFailure(message) => Err(Database(message))
    case Reply(rows, tag) =>
      match shape
      case All => Ok(RowSet(rows))
      // `dict(row) if row else None`: a record with no columns is falsy
      case One => Ok(SingleRow(if |rows| > 0 && |rows[0]| > 0 then Some(rows[0]) else None))
      case Val =>
        if |rows| == 0 then Ok(Scalar(NullValue))
        else if |rows[0]| == 0 then Err(IndexOutOfRange)
        else Ok(Scalar(rows[0][0].value))
      case Status =>
        match DecodeStatus(tag)
        case Ok(n) => Ok(RowCount(n))
        case Err(e) => Err(e)
  }

  // ---------------------------------------------------------------------------
  // run_query

  /**
   * `run_query(query, params=None, fetch_type="all")`: connect if needed,
   * replace missing parameters by `[]`, dispatch on the fetch type.
   */
  function RunQuery(h: Handler, dial: Dial, reply: DriverReply, query: string,
                    params: Option<seq<Value>> := None, fetchType: string := "all"): (r: RunOutcome)
    ensures EnsureConnected(h, dial).Err? ==>
              r == RunOutcome(h, None, Err(ConnectFailed(dial.reason)))
    ensures EnsureConnected(h, dial).Ok? ==> r.handler == EnsureConnected(h, dial).value
    ensures EnsureConnected(h, dial).Ok? && ParseShape(fetchType).None? ==>
              r.call == None && r.result == Err(InvalidFetchType(fetchType))
    ensures EnsureConnected(h, dial).Ok? && ParseShape(fetchType).Some? ==>
              && r.call == Some(DriverCall(MethodFor(ParseShape(fetchType).value), query, params.GetOr([])))
              && r.result == Decode(ParseShape(fetchType).value, reply)
    ensures r.call.Some? ==>
              && ParseShape(fetchType).Some?
              && r.call.value == DriverCall(MethodFor(ParseShape(fetchType).value), query, params.GetOr([]))
              && r.result == Decode(ParseShape(fetchType).value, reply)
  {
    match EnsureConnected(h, dial)
    case Err(e) => RunOutcome(h, None, Err(e))
    case Ok(h') =>
      var args := params.GetOr([]);
      match ParseShape(fetchType)
      case None => RunOutcome(h', None, Err(InvalidFetchType(fetchType)))
      case Some(shape) => RunOutcome(h', Some(DriverCall(MethodFor(shape), query, args)), Decode(shape, reply))
  }

  // ---------------------------------------------------------------------------
  // execute_transaction

  /** `q.get("fetch_type", "status")`, as the f-string of the error message renders it. */
  function FetchTypeText(e: Entry<string>): (r: string)
    ensures e.Absent? ==> ParseShape(r) == Some(Status)
    ensures e.Null? ==> ParseShape(r).None?
    ensures e.Given? ==> r == e.value
  {
    match e
    case Absent => "status"
    case Null => "None"
    case Given(s) => s
  }

  /** `q.get("params", [])`: None when the key is present with the value None. */
  function ArgsOf(e: Entry<seq<Value>>): (r: Option<seq<Value>>)
    ensures r.None? <==> e.Null?
    ensures e.Absent? ==> r == Some([])
    ensures e.Given? ==> r == Some(e.value)
  {
    match e
    case Absent => Some([])
    case Null => None
    case Given(p) => Some(p)
  }

  /**
   * One descriptor of a batch: `q["query"]`, then the shape from the fetch
   * type, then the driver call, whose `*params` raises `TypeError` on None.
   */
  function StepResult(d: Descriptor, reply: DriverReply): (r: Result<QueryResult>)
    ensures d.query.None? ==> r == Err(MissingKey("query"))
    ensures d.query.Some? && d.fetchType.Null? ==> r == Err(InvalidFetchType("None"))
    ensures d.query.Some? && ParseShape(FetchTypeText(d.fetchType)).None? ==>
              r == Err(InvalidFetchType(FetchTypeText(d.fetchType)))
    ensures d.query.Some? && ParseShape(FetchTypeText(d.fetchType)).Some? && d.params.Null? ==>
              r == Err(NotIterable)
    ensures d.query.Some? && d.fetchType.Absent? && !d.params.Null? ==> r == Decode(Status, reply)
    ensures StepCall(d).Some? ==> r == Decode(ParseShape(FetchTypeText(d.fetchType)).value, reply)
    ensures StepCall(d).None? ==> r.Err?
  {
    if d.query.None? then Err(MissingKey("query"))
    else match ParseShape(FetchTypeText(d.fetchType))
      case None => Err(InvalidFetchType(FetchTypeText(d.fetchType)))
      case Some(shape) =>
        match ArgsOf(d.params)
        case None => Err(NotIterable)
        case Some(_) => Decode(shape, reply)
  }

  /** The driver call a descriptor makes, if it gets that far. */
  function StepCall(d: Descriptor): (c: Option<DriverCall>)
    ensures c.Some? <==> d.query.Some? && ParseShape(FetchTypeText(d.fetchType)).Some? && !d.params.Null?
    ensures c.Some? ==>
              && c.value.query == d.query.value
              && c.value.args == (if d.params.Given? then d.params.value else [])
              && c.value.entry == MethodFor(ParseShape(FetchTypeText(d.fetchType)).value)
  {
    if d.query.None? then None
    else match ParseShape(FetchTypeText(d.fetchType))
      case None => None
      case Some(shape) =>
        match ArgsOf(d.params)
        case None => None
        case Some(args) => Some(DriverCall(MethodFor(shape), d.query.value, args))
  }

  /**
   * A descriptor with a query, a fetch type and parameters that are not None
   * makes the same call as `run_query` with that statement, and gets the same result.
   */
  lemma StepMatchesRunQuery(d: Descriptor, reply: DriverReply, h: Handler, dial: Dial)
    requires d.query.Some? && d.fetchType.Given? && !d.params.Null? && h.connection.Some?
    ensures var run := RunQuery(h, dial, reply, d.query.value, ArgsOf(d.params), d.fetchType.value);
            && StepResult(d, reply) == run.result
            && StepCall(d) == run.call
  {
  }

  /**
   * Parameters given as None: `run_query` reads them as `[]` and runs, while a
   * descriptor raises `TypeError` without calling the driver.
   */
  lemma NullParamsDiverge(query: string, fetchType: string, reply: DriverReply, h: Handler, dial: Dial)
    requires ParseShape(fetchType).Some? && h.connection.Some?
    ensures var d := Descriptor(Some(query), Null, Given(fetchType));
            StepResult(d, reply) == Err(NotIterable) && StepCall(d) == None
    ensures var run := RunQuery(h, dial, reply, query, None, fetchType);
            && run.call == Some(DriverCall(MethodFor(ParseShape(fetchType).value), query, []))
            && run.result == Decode(ParseShape(fetchType).value, reply)
  {
  }

  /** Without a fetch type a descriptor is decoded as 'status', where `run_query` would fetch all rows. */
  lemma StepDefaultsToStatus(query: string, params: Entry<seq<Value>>, rows: seq<Row>, tag: string, h: Handler, dial: Dial)
    requires h.connection.Some? && !params.Null?
    ensures StepResult(Descriptor(Some(query), params, Absent), Reply(rows, tag)) ==
            (match DecodeStatus(tag) case Ok(n) => Ok(RowCount(n)) case Err(e) => Err(e))
    ensures RunQuery(h, dial, Reply(rows, tag), query, ArgsOf(params)).result == Ok(RowSet(rows))
  {
  }

  /** Connecting twice dials once: the second call keeps the first connection. */
  lemma ConnectIsIdempotent(h: Handler, first: Dial, second: Dial)
    requires Connect(h, first).Ok?
    ensures Connect(Connect(h, first).value, second) == Connect(h, first)
  {
  }

  /** A second `close()` changes nothing. */
  lemma CloseIsIdempotent(h: Handler)
    ensures Close(Close(h)) == Close(h)
  {
  }

  /**
   * `execute_transaction(queries)`: runs the descriptors in order inside one
   * transaction. Either every descriptor yields a result, in input order, or
   * the first failing descriptor's error is raised and no result is returned
   * (the transaction is rolled back).
   */
  method ExecuteTransaction(h: Handler, dial: Dial, batch: seq<Descriptor>, replies: nat -> DriverReply)
    returns (h': Handler, r: Result<seq<QueryResult>>)
    ensures EnsureConnected(h, dial).Err? ==> h' == h && r == Err(ConnectFailed(dial.reason))
    ensures EnsureConnected(h, dial).Ok? ==> h' == EnsureConnected(h, dial).value
    ensures r.Ok? ==>
              && |r.value| == |batch|
              && forall i :: 0 <= i < |batch| ==> StepResult(batch[i], replies(i)) == Ok(r.value[i])
    ensures r.Err? && EnsureConnected(h, dial).Ok? ==>
              exists k :: 0 <= k < |batch|
                && StepResult(batch[k], replies(k)) == Err(r.error)
                && forall i :: 0 <= i < k ==> StepResult(batch[i], replies(i)).Ok?
  {
    var connected := EnsureConnected(h, dial);
    if connected.Err? {
      return h, Err(connected.error);
    }
    h' := connected.value;
    var results: seq<QueryResult> := [];
    var i := 0;
    while i < |batch|
      invariant 0 <= i <= |batch|
      invariant |results| == i
      invariant forall j :: 0 <= j < i ==> StepResult(batch[j], replies(j)) == Ok(results[j])
    {
      var step := StepResult(batch[i], replies(i));
      if step.Err? {
        return h', Err(step.error);
      }
      results := results + [step.value];
      i := i + 1;
    }
    r := Ok(results);
  }

  // ---------------------------------------------------------------------------
  // Command tags (PostgreSQL frontend/backend protocol, CommandComplete message)

  /** The command tags the server sends when a statement completes. */
  datatype CommandTag =
    | InsertTag(oid: nat, rows: nat)
    | UpdateTag(rows: nat)
    | DeleteTag(rows: nat)
    | SelectTag(rows: nat)
    | OtherTag(text: string)

  /** The textual form of a command tag: "INSERT oid rows", "UPDATE rows", ... */
  function TagText(c: CommandTag): string {
    match c
    case InsertTag(oid, rows) => "INSERT" + " " + NatToString(oid) + " " + NatToString(rows)
    case UpdateTag(rows) => "UPDATE" + " " + NatToString(rows)
    case DeleteTag(rows) => "DELETE" + " " + NatToString(rows)
    case SelectTag(rows) => "SELECT" + " " + NatToString(rows)
    case OtherTag(text) => text
  }

  /** The number of rows a command tag reports (none for an arbitrary tag). */
  function ReportedRows(c: CommandTag): Option<nat> {
    match c
    case InsertTag(_, rows) => Some(rows)
    case UpdateTag(rows) => Some(rows)
    case DeleteTag(rows) => Some(rows)
    case SelectTag(rows) => Some(rows)
    case OtherTag(_) => None
  }

  lemma NumeralHasNoSpace(n: nat)
    ensures NoSpace(NatToString(n)) && ' ' !in NatToString(n)
  {
    var s := NatToString(n);
    forall i | 0 <= i < |s| ensures !IsSpace(s[i]) && s[i] != ' ' {
      assert IsDigit(s[i]);
    }
  }

  lemma KeywordPrefix(word: string, n: nat)
    requires |word| == 6
    ensures StartsWith(word + " " + NatToString(n), word)
  {
    assert (word + " " + NatToString(n))[..6] == word;
  }

  /** For UPDATE and DELETE tags the rule as written yields the reported row count. */
  lemma {:induction false} DecodeStatusOfUpdateOrDelete(c: CommandTag)
    requires c.UpdateTag? || c.DeleteTag?
    ensures DecodeStatus(TagText(c)) == Ok(c.rows)
  {
    var word := if c.UpdateTag? then "UPDATE" else "DELETE";
    assert TagText(c) == word + " " + NatToString(c.rows);
    KeywordPrefix(word, c.rows);
    NumeralHasNoSpace(c.rows);
    TokensOfTwoWords(word, NatToString(c.rows));
    ParseIntOfNat(c.rows);
  }

  /**
   * For an INSERT tag the rule as written yields the second token, which is
   * the oid and not the number of inserted rows.
   */
  lemma {:induction false} InsertStatusYieldsOid(oid: nat, rows: nat)
    ensures DecodeStatus(TagText(InsertTag(oid, rows))) == Ok(oid)
  {
    var tag := TagText(InsertTag(oid, rows));
    NumeralHasNoSpace(oid);
    NumeralHasNoSpace(rows);
    TokensOfThreeWords("INSERT", NatToString(oid), NatToString(rows));
    assert tag[..6] == "INSERT";
    ParseIntOfNat(oid);
  }

  /** A single-row INSERT is reported by the rule as written as 0 rows affected. */
  lemma InsertOfOneRowReadsAsZero()
    ensures ReportedRows(InsertTag(0, 1)) == Some(1)
    ensures DecodeStatus(TagText(InsertTag(0, 1))) == Ok(0)
  {
    InsertStatusYieldsOid(0, 1);
  }

  /** Reading the last field yields the reported row count for every counting tag. */
  lemma {:induction false} RowCountOfTag(c: CommandTag)
    requires ReportedRows(c).Some?
    ensures DecodeRowCount(TagText(c)) == Ok(ReportedRows(c).value)
  {
    var rows := ReportedRows(c).value;
    var head := match c
      case InsertTag(oid, _) => "INSERT" + " " + NatToString(oid)
      case UpdateTag(_) => "UPDATE"
      case DeleteTag(_) => "DELETE"
      case SelectTag(_) => "SELECT"
      case OtherTag(_) => "";
    assert TagText(c) == head + [' '] + NatToString(rows);
    NumeralHasNoSpace(rows);
    SplitOnLast(head, ' ', NatToString(rows));
    ParseIntOfNat(rows);
  }

  /** The two decoding rules agree on the tags whose second field is the row count. */
  lemma StatusRulesAgree(c: CommandTag)
    requires c.UpdateTag? || c.DeleteTag?
    ensures DecodeStatus(TagText(c)) == DecodeRowCount(TagText(c))
  {
    DecodeStatusOfUpdateOrDelete(c);
    RowCountOfTag(c);
  }
}
