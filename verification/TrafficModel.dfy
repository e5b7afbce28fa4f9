/** The bounded traffic reducer: rows correlated by flow identity, eviction that spares paused
    requests, and bounded evidence per row. Display text is left out of the state. */
module TrafficModel {
  import opened Common
  import opened Domain
  import opened BodyStream
  import FlowInspection
  import Inspection

  datatype Kind = HttpRow | TcpRow

  datatype Wire =
    | Pending
    | Captured(bytes: Bytes, observed: nat, truncated: bool)
    | Failed(reason: string)
    | Unavailable(reason: string)

  datatype Side = Side(view: BodyView, wire: Wire)

  datatype Trace = Trace(id: nat, decision: Decision)

  /** One HTTP exchange or TCP session. */
  datatype Row = Row(
    session: nat, transaction: Option<nat>, kind: Kind, request: Side, response: Side,
    findings: seq<Inspection.Finding>, traces: seq<Trace>, sent: nat, received: nat, closed: bool)

  datatype Model = Model(
    rows: seq<Row>, selected: nat, paused: seq<nat>, nextEvaluation: nat, logs: seq<string>,
    maximumRows: nat, maximumItems: nat)

  datatype UiEvent =
    | OperationalLog(message: string)
    | HttpObserved(session: nat, exchange: nat)
    | HttpResponseObserved(session: nat, exchange: nat)
    | DecisionMade(session: nat, transaction: Option<nat>, decision: Decision)
    | FindingDetected(session: nat, transaction: Option<nat>, finding: Inspection.Finding)
    | BodyPrefixed(session: nat, transaction: Option<nat>, prefix: FlowInspection.BodyPrefix)
    | WireUpdated(session: nat, exchange: nat, direction: Direction, wire: Wire)
    | FlowClosed(session: nat, sent: nat, received: nat)

  datatype Operation =
    | Apply(event: UiEvent)
    | SetPaused(transactions: seq<nat>)
    | Intercept(session: nat, exchange: nat, body: Bytes)
    | EditSelected(body: Bytes)
    | SelectNext
    | SelectPrevious

  // ---- Finding and making rows ----

  function FirstWhere(rows: seq<Row>, p: Row -> bool): (n: nat)
    ensures n <= |rows| && (n < |rows| ==> p(rows[n])) && forall i | 0 <= i < n :: !p(rows[i])
  {
    if rows == [] then 0
    else
      var k := |rows| - 1;
      var n := FirstWhere(rows[..k], p);
      if n < k || p(rows[k]) then n else |rows|
  }

  predicate Is(row: Row, session: nat, transaction: Option<nat>) {
    row.session == session && row.transaction == transaction
  }

  function Same(session: nat, transaction: Option<nat>): Row -> bool {
    (row: Row) => Is(row, session, transaction)
  }

  predicate PausedRow(paused: seq<nat>, row: Row) {
    row.transaction.Some? && row.transaction.value in paused
  }

  function Unpaused(paused: seq<nat>): Row -> bool {
    (row: Row) => !PausedRow(paused, row)
  }

  function Disposable(paused: seq<nat>): Row -> bool {
    (row: Row) => row.closed && !PausedRow(paused, row)
  }

  const EMPTY_SIDE := Side(EMPTY_VIEW, Pending)
  const TCP_SIDE := Side(EMPTY_VIEW, Unavailable("TCP Raw uses the bounded body stream"))

  function EmptyRow(session: nat, transaction: Option<nat>): Row {
    var side := if transaction.Some? then EMPTY_SIDE else TCP_SIDE;
    Row(session, transaction, if transaction.Some? then HttpRow else TcpRow, side, side, [], [], 0, 0, false)
  }

  function Evict(m: Model, n: nat): Model
    requires n < |m.rows|
  {
    m.(rows := m.rows[..n] + m.rows[n + 1..], selected := if m.selected > n then m.selected - 1 else m.selected)
  }

  function Push(m: Model, row: Row): Model {
    m.(rows := m.rows + [row])
  }

  /** The model in which a new row fits, if a row may go for it. */
  function MakeRoom(m: Model, evictable: Row -> bool): Option<Model> {
    if |m.rows| != m.maximumRows then Some(m)
    else
      var n := FirstWhere(m.rows, evictable);
      if n == |m.rows| then None else Some(Evict(m, n))
  }

  /** The row of a flow, found or made, and where it is. */
  function EnsureRow(m: Model, session: nat, transaction: Option<nat>, evictable: Row -> bool)
    : (r: Option<(Model, nat)>)
    ensures r.Some? ==> r.value.1 < |r.value.0.rows|
  {
    var n := FirstWhere(m.rows, Same(session, transaction));
    if n < |m.rows| then Some((m, n))
    else
      var room := MakeRoom(m, evictable);
      if room.None? then None
      else Some((Push(room.value, EmptyRow(session, transaction)), |room.value.rows|))
  }

  function Ensured(m: Model, session: nat, transaction: Option<nat>): (r: Option<(Model, nat)>)
    ensures r.Some? ==> r.value.1 < |r.value.0.rows|
  {
    EnsureRow(m, session, transaction, Disposable(m.paused))
  }

  // ---- Row updates ----

  function PushBounded<T>(queue: seq<T>, value: T, maximum: nat): seq<T> {
    (if |queue| == maximum && queue != [] then queue[1..] else queue) + [value]
  }

  predicate RequestSide(direction: Direction) {
    direction.ClientToUpstream? || direction.HttpRequestBody?
  }

  function WithSide(row: Row, direction: Direction, side: Side): Row {
    if RequestSide(direction) then row.(request := side) else row.(response := side)
  }

  function SideOf(row: Row, direction: Direction): Side {
    if RequestSide(direction) then row.request else row.response
  }

  function AddTrace(row: Row, trace: Trace, maximum: nat): Row {
    row.(traces := PushBounded(row.traces, trace, maximum))
  }

  function AddFinding(row: Row, finding: Inspection.Finding, maximum: nat): Row {
    row.(findings := PushBounded(row.findings, finding, maximum))
  }

  function AddPrefix(row: Row, prefix: FlowInspection.BodyPrefix): Row {
    var side := SideOf(row, prefix.direction);
    WithSide(row, prefix.direction, side.(view := side.view.Append(prefix)))
  }

  function SetWire(row: Row, direction: Direction, wire: Wire): Row {
    WithSide(row, direction, SideOf(row, direction).(wire := wire))
  }

  const NO_UPSTREAM_RAW := "upstream Raw is unavailable for a local or uncaptured response"

  function Responded(row: Row): Row {
    if row.response.wire.Pending? then row.(response := row.response.(wire := Unavailable(NO_UPSTREAM_RAW))) else row
  }

  function Close(row: Row, sent: nat, received: nat): Row {
    row.(sent := sent, received := received, closed := true)
  }

  /** An intercepted or edited body replaces whatever the row showed of the request body. */
  function WithBody(row: Row, body: Bytes): Row {
    row.(request := row.request.(view := BodyView(body, Saturate(|body|), false, false)))
  }

  function SetRow(m: Model, i: nat, row: Row): Model
    requires i < |m.rows|
  {
    m.(rows := m.rows[i := row])
  }

  function CloseRows(rows: seq<Row>, session: nat, sent: nat, received: nat): seq<Row> {
    if rows == [] then []
    else
      var k := |rows| - 1;
      CloseRows(rows[..k], session, sent, received)
      + [if rows[k].session == session then Close(rows[k], sent, received) else rows[k]]
  }

  predicate HasSession(rows: seq<Row>, session: nat) {
    exists i | 0 <= i < |rows| :: rows[i].session == session
  }

  // ---- The reducer ----

  function Decided(m: Model, i: nat, decision: Decision): Model
    requires i < |m.rows|
  {
    if m.nextEvaluation >= U64_MAX then m
    else
      SetRow(m, i, AddTrace(m.rows[i], Trace(m.nextEvaluation, decision), m.maximumItems))
      .(nextEvaluation := m.nextEvaluation + 1)
  }

  function ClosedSession(m: Model, session: nat, sent: nat, received: nat): Model {
    if HasSession(m.rows, session) then m.(rows := CloseRows(m.rows, session, sent, received))
    else
      var e := Ensured(m, session, None);
      if e.None? then m else SetRow(e.value.0, e.value.1, Close(e.value.0.rows[e.value.1], sent, received))
  }

  /** What an event does to the row it concerns. */
  function Updated(m: Model, i: nat, e: UiEvent): Model
    requires i < |m.rows|
  {
    match e
    case HttpObserved(_, _) => m.(selected := i)
    case HttpResponseObserved(_, _) => SetRow(m, i, Responded(m.rows[i]))
    case DecisionMade(_, _, decision) => Decided(m, i, decision)
    case FindingDetected(_, _, finding) => SetRow(m, i, AddFinding(m.rows[i], finding, m.maximumItems))
    case BodyPrefixed(_, _, prefix) => SetRow(m, i, AddPrefix(m.rows[i], prefix))
    case WireUpdated(_, _, direction, wire) => SetRow(m, i, SetWire(m.rows[i], direction, wire))
    case OperationalLog(_) => m
    case FlowClosed(_, _, _) => m
  }

  predicate Correlated(e: UiEvent) {
    !e.OperationalLog? && !e.FlowClosed?
  }

  function TransactionOf(e: UiEvent): Option<nat>
    requires Correlated(e)
  {
    if e.HttpObserved? || e.HttpResponseObserved? || e.WireUpdated? then Some(e.exchange) else e.transaction
  }

  function Applied(m: Model, e: UiEvent): Model {
    if e.OperationalLog? then m.(logs := PushBounded(m.logs, e.message, m.maximumItems))
    else if e.FlowClosed? then ClosedSession(m, e.session, e.sent, e.received)
    else
      var row := Ensured(m, e.session, TransactionOf(e));
      if row.None? then m else Updated(row.value.0, row.value.1, e)
  }

  function PausedWith(paused: seq<nat>, exchange: nat): seq<nat> {
    if exchange in paused then paused else paused + [exchange]
  }

  function AfterIntercept(m: Model, session: nat, exchange: nat, body: Bytes): Model {
    var pausing := m.(paused := PausedWith(m.paused, exchange));
    var row := EnsureRow(pausing, session, Some(exchange), Unpaused(pausing.paused));
    if row.None? then pausing
    else
      var (ready, i) := row.value;
      SetRow(ready, i, WithBody(ready.rows[i], body)).(selected := i)
  }

  /** An accepted edit is shown in the row selected at that moment. */
  function AfterEdit(m: Model, body: Bytes): Model {
    if m.selected < |m.rows| then SetRow(m, m.selected, WithBody(m.rows[m.selected], body)) else m
  }

  function Step(m: Model, op: Operation): Model {
    match op
    case Apply(e) => Applied(m, e)
    case SetPaused(transactions) => m.(paused := transactions)
    case Intercept(session, exchange, body) => AfterIntercept(m, session, exchange, body)
    case EditSelected(body) => AfterEdit(m, body)
    case SelectNext => if m.selected + 1 < |m.rows| then m.(selected := m.selected + 1) else m
    case SelectPrevious => m.(selected := SaturatingSub(m.selected, 1))
  }

  function Run(m: Model, ops: seq<Operation>): Model {
    if ops == [] then m else Step(Run(m, ops[..|ops| - 1]), ops[|ops| - 1])
  }

  function NewModel(maximumRows: nat, maximumItems: nat): Model {
    Model([], 0, [], 1, [], maximumRows, maximumItems)
  }
}
