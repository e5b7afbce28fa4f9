/** What every run of the traffic reducer keeps: bounds, identities, selection, evaluation ids
    and paused rows. */
module TrafficProperties {
  import opened Common
  import opened Domain
  import opened TrafficModel

  // ---- Per-row bounds ----

  /** Ids increase strictly and stay below the next one to be given out. */
  predicate Increasing(traces: seq<Trace>, next: nat) {
    && (forall i | 0 <= i < |traces| :: traces[i].id < next)
    && (forall i, j | 0 <= i < j < |traces| :: traces[i].id < traces[j].id)
  }

  predicate RowOk(row: Row, next: nat, items: nat) {
    && |row.traces| <= items && |row.findings| <= items && Increasing(row.traces, next)
    && (row.kind.HttpRow? <==> row.transaction.Some?)
  }

  predicate RowsOk(rows: seq<Row>, next: nat, items: nat) {
    forall i | 0 <= i < |rows| :: RowOk(rows[i], next, items)
  }

  predicate SameIdentity(a: Row, b: Row) {
    Is(a, b.session, b.transaction)
  }

  predicate UniqueRows(rows: seq<Row>) {
    forall i, j | 0 <= i < j < |rows| :: !SameIdentity(rows[i], rows[j])
  }

  /** No evaluation id appears in two rows. */
  predicate DisjointIds(a: seq<Trace>, b: seq<Trace>) {
    forall i, j | 0 <= i < |a| && 0 <= j < |b| :: a[i].id != b[j].id
  }

  predicate IdsApart(rows: seq<Row>) {
    forall i, j | 0 <= i < j < |rows| :: DisjointIds(rows[i].traces, rows[j].traces)
  }

  predicate SelectionOk(m: Model) {
    m.selected < |m.rows| || (m.rows == [] && m.selected == 0)
  }

  predicate Bounded(m: Model) {
    && m.maximumRows > 0 && m.maximumItems > 0
    && |m.rows| <= m.maximumRows && |m.logs| <= m.maximumItems && SelectionOk(m)
  }

  predicate RowsInvariant(m: Model) {
    RowsOk(m.rows, m.nextEvaluation, m.maximumItems) && UniqueRows(m.rows) && IdsApart(m.rows)
  }

  predicate Invariant(m: Model) {
    Bounded(m) && RowsInvariant(m)
  }

  // ---- The three ways rows change ----

  lemma EvictKeeps(m: Model, n: nat)
    requires Invariant(m) && n < |m.rows|
    ensures RowsInvariant(Evict(m, n))
  {
  }

  lemma PushKeeps(m: Model, session: nat, transaction: Option<nat>)
    requires RowsInvariant(m) && FirstWhere(m.rows, Same(session, transaction)) == |m.rows|
    ensures RowsInvariant(Push(m, EmptyRow(session, transaction)))
  {
  }

  /** A row update that keeps the identity and brings no foreign evaluation id. */
  predicate Replaces(m: Model, i: nat, row: Row, next: nat)
    requires i < |m.rows|
  {
    && SameIdentity(row, m.rows[i]) && RowOk(row, next, m.maximumItems) && m.nextEvaluation <= next
    && forall k | 0 <= k < |row.traces| :: row.traces[k] in m.rows[i].traces || row.traces[k].id >= m.nextEvaluation
  }

  lemma ReplaceKeeps(m: Model, i: nat, row: Row, next: nat)
    requires Invariant(m) && i < |m.rows| && Replaces(m, i, row, next)
    ensures Invariant(SetRow(m, i, row).(nextEvaluation := next))
  {
  }

  lemma SetRowKeeps(m: Model, i: nat, row: Row)
    requires Invariant(m) && i < |m.rows| && SameIdentity(row, m.rows[i]) && row.kind == m.rows[i].kind
    requires row.traces == m.rows[i].traces && |row.findings| <= m.maximumItems
    ensures Invariant(SetRow(m, i, row))
  {
  }

  lemma DecidedKeeps(m: Model, i: nat, decision: Decision)
    requires Invariant(m) && i < |m.rows|
    ensures Invariant(Decided(m, i, decision))
  {
    if m.nextEvaluation < U64_MAX {
      assert RowOk(m.rows[i], m.nextEvaluation, m.maximumItems);
      var row := AddTrace(m.rows[i], Trace(m.nextEvaluation, decision), m.maximumItems);
      PushedTraces(m.rows[i].traces, Trace(m.nextEvaluation, decision), m.maximumItems, m.nextEvaluation);
      ReplaceKeeps(m, i, row, m.nextEvaluation + 1);
    }
  }

  lemma PushedTraces(traces: seq<Trace>, trace: Trace, maximum: nat, next: nat)
    requires |traces| <= maximum && maximum > 0 && Increasing(traces, next) && trace.id == next
    ensures var pushed := PushBounded(traces, trace, maximum);
            && |pushed| <= maximum && Increasing(pushed, next + 1)
            && forall k | 0 <= k < |pushed| :: pushed[k] in traces || pushed[k].id >= next
  {
  }

  // ---- Ensuring a row ----

  lemma MakeRoomKeeps(m: Model, evictable: Row -> bool)
    requires Invariant(m)
    ensures var room := MakeRoom(m, evictable);
            room.Some? ==>
              && RowsInvariant(room.value) && |room.value.rows| < m.maximumRows
              && room.value.selected <= |room.value.rows|
              && room.value.(rows := m.rows, selected := m.selected) == m
  {
    var n := FirstWhere(m.rows, evictable);
    if |m.rows| == m.maximumRows && n < |m.rows| {
      EvictKeeps(m, n);
    }
  }

  lemma StillAbsent(m: Model, evictable: Row -> bool, p: Row -> bool)
    requires FirstWhere(m.rows, p) == |m.rows|
    ensures MakeRoom(m, evictable).Some? ==>
              var rows := MakeRoom(m, evictable).value.rows; FirstWhere(rows, p) == |rows|
  {
  }

  /** A found or made row leaves everything in order, and belongs to the flow asked for. */
  lemma EnsureKeeps(m: Model, session: nat, transaction: Option<nat>, evictable: Row -> bool)
    requires Invariant(m)
    ensures var r := EnsureRow(m, session, transaction, evictable);
            r.Some? ==> Invariant(r.value.0) && Is(r.value.0.rows[r.value.1], session, transaction)
  {
    var n := FirstWhere(m.rows, Same(session, transaction));
    if n < |m.rows| {
      assert Same(session, transaction)(m.rows[n]);
    } else {
      MakeRoomKeeps(m, evictable);
      StillAbsent(m, evictable, Same(session, transaction));
      var room := MakeRoom(m, evictable);
      if room.Some? {
        PushKeeps(room.value, session, transaction);
      }
    }
  }

  // ---- Every operation keeps the invariant ----

  lemma UpdatedKeeps(m: Model, i: nat, e: UiEvent)
    requires Invariant(m) && i < |m.rows|
    ensures Invariant(Updated(m, i, e))
  {
    var row := m.rows[i];
    assert RowOk(row, m.nextEvaluation, m.maximumItems);
    match e
    case HttpResponseObserved(_, _) => SetRowKeeps(m, i, Responded(row));
    case DecisionMade(_, _, decision) => DecidedKeeps(m, i, decision);
    case FindingDetected(_, _, finding) => SetRowKeeps(m, i, AddFinding(row, finding, m.maximumItems));
    case BodyPrefixed(_, _, prefix) => SetRowKeeps(m, i, AddPrefix(row, prefix));
    case WireUpdated(_, _, direction, wire) => SetRowKeeps(m, i, SetWire(row, direction, wire));
    case HttpObserved(_, _) =>
    case OperationalLog(_) =>
    case FlowClosed(_, _, _) =>
  }

  lemma {:induction false} CloseRowsShape(rows: seq<Row>, session: nat, sent: nat, received: nat)
    ensures |CloseRows(rows, session, sent, received)| == |rows|
    ensures forall i | 0 <= i < |rows| ::
              CloseRows(rows, session, sent, received)[i]
              == if rows[i].session == session then Close(rows[i], sent, received) else rows[i]
  {
    if rows != [] {
      CloseRowsShape(rows[..|rows| - 1], session, sent, received);
    }
  }

  lemma CloseRowsKeeps(m: Model, session: nat, sent: nat, received: nat)
    requires Invariant(m)
    ensures Invariant(m.(rows := CloseRows(m.rows, session, sent, received)))
  {
    CloseRowsShape(m.rows, session, sent, received);
    var rows := CloseRows(m.rows, session, sent, received);
    forall i | 0 <= i < |rows|
      ensures SameIdentity(rows[i], m.rows[i]) && rows[i].traces == m.rows[i].traces
      ensures RowOk(rows[i], m.nextEvaluation, m.maximumItems)
    {
      assert RowOk(m.rows[i], m.nextEvaluation, m.maximumItems);
    }
  }

  lemma ClosedSessionKeeps(m: Model, session: nat, sent: nat, received: nat)
    requires Invariant(m)
    ensures Invariant(ClosedSession(m, session, sent, received))
  {
    if HasSession(m.rows, session) {
      CloseRowsKeeps(m, session, sent, received);
    } else {
      EnsureKeeps(m, session, None, Disposable(m.paused));
      var e := Ensured(m, session, None);
      if e.Some? {
        var (ready, i) := e.value;
        assert RowOk(ready.rows[i], ready.nextEvaluation, ready.maximumItems);
        SetRowKeeps(ready, i, Close(ready.rows[i], sent, received));
      }
    }
  }

  lemma AppliedKeeps(m: Model, e: UiEvent)
    requires Invariant(m)
    ensures Invariant(Applied(m, e))
  {
    if e.FlowClosed? {
      ClosedSessionKeeps(m, e.session, e.sent, e.received);
    } else if Correlated(e) {
      EnsureKeeps(m, e.session, TransactionOf(e), Disposable(m.paused));
      var row := Ensured(m, e.session, TransactionOf(e));
      if row.Some? {
        UpdatedKeeps(row.value.0, row.value.1, e);
      }
    }
  }

  lemma InterceptKeeps(m: Model, session: nat, exchange: nat, body: Bytes)
    requires Invariant(m)
    ensures Invariant(AfterIntercept(m, session, exchange, body))
  {
    var pausing := m.(paused := PausedWith(m.paused, exchange));
    EnsureKeeps(pausing, session, Some(exchange), Unpaused(pausing.paused));
    var row := EnsureRow(pausing, session, Some(exchange), Unpaused(pausing.paused));
    if row.Some? {
      var (ready, i) := row.value;
      assert RowOk(ready.rows[i], ready.nextEvaluation, ready.maximumItems);
      SetRowKeeps(ready, i, WithBody(ready.rows[i], body));
    }
  }

  lemma EditKeeps(m: Model, body: Bytes)
    requires Invariant(m)
    ensures Invariant(AfterEdit(m, body))
  {
    if m.selected < |m.rows| {
      assert RowOk(m.rows[m.selected], m.nextEvaluation, m.maximumItems);
      SetRowKeeps(m, m.selected, WithBody(m.rows[m.selected], body));
    }
  }

  lemma StepKeeps(m: Model, op: Operation)
    requires Invariant(m)
    ensures Invariant(Step(m, op))
  {
    match op
    case Apply(e) => AppliedKeeps(m, e);
    case Intercept(session, exchange, body) => InterceptKeeps(m, session, exchange, body);
    case EditSelected(body) => EditKeeps(m, body);
    case SetPaused(_) =>
    case SelectNext =>
    case SelectPrevious =>
  }

  /** Every run stays within its limits, with distinct row identities, a selection in range, and
      bounded evidence whose ids increase and never repeat across rows. */
  lemma {:induction false} RunKeeps(maximumRows: nat, maximumItems: nat, ops: seq<Operation>)
    requires maximumRows > 0 && maximumItems > 0
    ensures Invariant(Run(NewModel(maximumRows, maximumItems), ops))
  {
    if ops != [] {
      RunKeeps(maximumRows, maximumItems, ops[..|ops| - 1]);
      StepKeeps(Run(NewModel(maximumRows, maximumItems), ops[..|ops| - 1]), ops[|ops| - 1]);
    }
  }

  // ---- Evaluation ids are never reused ----

  /** The id an operation gives out, if it records an evaluation. */
  function Assigned(m: Model, op: Operation): Option<nat> {
    if Step(m, op).nextEvaluation != m.nextEvaluation then Some(m.nextEvaluation) else None
  }

  function AssignedIds(m: Model, ops: seq<Operation>): seq<nat> {
    if ops == [] then []
    else
      var k := |ops| - 1;
      var id := Assigned(Run(m, ops[..k]), ops[k]);
      if id.Some? then AssignedIds(m, ops[..k]) + [id.value] else AssignedIds(m, ops[..k])
  }

  lemma EnsureKeepsCounter(m: Model, session: nat, transaction: Option<nat>, evictable: Row -> bool)
    ensures var r := EnsureRow(m, session, transaction, evictable);
            r.Some? ==> r.value.0.nextEvaluation == m.nextEvaluation
  {
  }

  lemma CounterSteps(m: Model, op: Operation)
    ensures Step(m, op).nextEvaluation == m.nextEvaluation
            || Step(m, op).nextEvaluation == m.nextEvaluation + 1
  {
    match op
    case Apply(e) =>
      if Correlated(e) {
        EnsureKeepsCounter(m, e.session, TransactionOf(e), Disposable(m.paused));
      } else if e.FlowClosed? {
        EnsureKeepsCounter(m, e.session, None, Disposable(m.paused));
      }
    case Intercept(session, exchange, _) =>
      var pausing := m.(paused := PausedWith(m.paused, exchange));
      EnsureKeepsCounter(pausing, session, Some(exchange), Unpaused(pausing.paused));
    case EditSelected(_) =>
    case SetPaused(_) =>
    case SelectNext =>
    case SelectPrevious =>
  }

  predicate StrictlyIncreasing(ids: seq<nat>) {
    forall i, j | 0 <= i < j < |ids| :: ids[i] < ids[j]
  }

  lemma {:induction false} IdsNeverReused(m: Model, ops: seq<Operation>)
    ensures StrictlyIncreasing(AssignedIds(m, ops))
    ensures forall i | 0 <= i < |AssignedIds(m, ops)| :: AssignedIds(m, ops)[i] < Run(m, ops).nextEvaluation
  {
    if ops != [] {
      var k := |ops| - 1;
      IdsNeverReused(m, ops[..k]);
      CounterSteps(Run(m, ops[..k]), ops[k]);
    }
  }

  // ---- Paused rows are never evicted ----

  predicate HasRow(m: Model, session: nat, exchange: nat) {
    exists i | 0 <= i < |m.rows| :: Is(m.rows[i], session, Some(exchange))
  }

  lemma RowAt(m: Model, i: nat, session: nat, exchange: nat)
    requires i < |m.rows| && Is(m.rows[i], session, Some(exchange))
    ensures HasRow(m, session, exchange)
  {
  }

  lemma EvictSparesOthers(m: Model, n: nat, i: nat, session: nat, exchange: nat)
    requires n < |m.rows| && i < |m.rows| && i != n && Is(m.rows[i], session, Some(exchange))
    ensures HasRow(Evict(m, n), session, exchange)
  {
    var j := if i < n then i else i - 1;
    assert Evict(m, n).rows[j] == m.rows[i];
    RowAt(Evict(m, n), j, session, exchange);
  }

  /** A predicate under which no paused row is evictable. */
  ghost predicate SparesPaused(evictable: Row -> bool, paused: seq<nat>) {
    forall row: Row :: PausedRow(paused, row) ==> !evictable(row)
  }

  lemma EnsureSparesPaused(
    m: Model, session: nat, transaction: Option<nat>, evictable: Row -> bool, owner: nat, exchange: nat)
    requires SparesPaused(evictable, m.paused) && exchange in m.paused && HasRow(m, owner, exchange)
    ensures var r := EnsureRow(m, session, transaction, evictable);
            r.Some? ==> HasRow(r.value.0, owner, exchange) && r.value.0.paused == m.paused
  {
    var i :| 0 <= i < |m.rows| && Is(m.rows[i], owner, Some(exchange));
    assert PausedRow(m.paused, m.rows[i]);
    var n := FirstWhere(m.rows, evictable);
    var room := MakeRoom(m, evictable);
    if room.Some? {
      if |m.rows| == m.maximumRows {
        EvictSparesOthers(m, n, i, owner, exchange);
      }
      var j :| 0 <= j < |room.value.rows| && Is(room.value.rows[j], owner, Some(exchange));
      RowAt(Push(room.value, EmptyRow(session, transaction)), j, owner, exchange);
    }
  }

  lemma SetRowSpares(m: Model, i: nat, row: Row, owner: nat, exchange: nat)
    requires i < |m.rows| && SameIdentity(row, m.rows[i]) && HasRow(m, owner, exchange)
    ensures HasRow(SetRow(m, i, row), owner, exchange)
  {
    var j :| 0 <= j < |m.rows| && Is(m.rows[j], owner, Some(exchange));
    RowAt(SetRow(m, i, row), j, owner, exchange);
  }

  lemma UpdatedSpares(m: Model, i: nat, e: UiEvent, owner: nat, exchange: nat)
    requires i < |m.rows| && HasRow(m, owner, exchange)
    ensures HasRow(Updated(m, i, e), owner, exchange)
  {
    var row := m.rows[i];
    match e
    case HttpResponseObserved(_, _) => SetRowSpares(m, i, Responded(row), owner, exchange);
    case DecisionMade(_, _, decision) =>
      SetRowSpares(m, i, AddTrace(row, Trace(m.nextEvaluation, decision), m.maximumItems), owner, exchange);
    case FindingDetected(_, _, finding) =>
      SetRowSpares(m, i, AddFinding(row, finding, m.maximumItems), owner, exchange);
    case BodyPrefixed(_, _, prefix) => SetRowSpares(m, i, AddPrefix(row, prefix), owner, exchange);
    case WireUpdated(_, _, direction, wire) => SetRowSpares(m, i, SetWire(row, direction, wire), owner, exchange);
    case HttpObserved(_, _) =>
    case OperationalLog(_) =>
    case FlowClosed(_, _, _) =>
  }

  lemma ClosedSessionSpares(m: Model, session: nat, sent: nat, received: nat, owner: nat, exchange: nat)
    requires exchange in m.paused && HasRow(m, owner, exchange)
    ensures HasRow(ClosedSession(m, session, sent, received), owner, exchange)
  {
    if HasSession(m.rows, session) {
      CloseRowsShape(m.rows, session, sent, received);
      var j :| 0 <= j < |m.rows| && Is(m.rows[j], owner, Some(exchange));
      RowAt(ClosedSession(m, session, sent, received), j, owner, exchange);
    } else {
      EnsureSparesPaused(m, session, None, Disposable(m.paused), owner, exchange);
      var e := Ensured(m, session, None);
      if e.Some? {
        SetRowSpares(e.value.0, e.value.1, Close(e.value.0.rows[e.value.1], sent, received), owner, exchange);
      }
    }
  }

  /** No operation but a change of the paused set removes the row of a paused request. */
  lemma StepSparesPaused(m: Model, op: Operation, owner: nat, exchange: nat)
    requires exchange in m.paused && HasRow(m, owner, exchange)
    ensures HasRow(Step(m, op), owner, exchange)
  {
    match op
    case Apply(e) =>
      if e.FlowClosed? {
        ClosedSessionSpares(m, e.session, e.sent, e.received, owner, exchange);
      } else if Correlated(e) {
        EnsureSparesPaused(m, e.session, TransactionOf(e), Disposable(m.paused), owner, exchange);
        var row := Ensured(m, e.session, TransactionOf(e));
        if row.Some? {
          UpdatedSpares(row.value.0, row.value.1, e, owner, exchange);
        }
      }
    case Intercept(session, other, body) =>
      var pausing := m.(paused := PausedWith(m.paused, other));
      EnsureSparesPaused(pausing, session, Some(other), Unpaused(pausing.paused), owner, exchange);
      var row := EnsureRow(pausing, session, Some(other), Unpaused(pausing.paused));
      if row.Some? {
        var (ready, i) := row.value;
        SetRowSpares(ready, i, WithBody(ready.rows[i], body), owner, exchange);
      }
    case EditSelected(body) =>
      if m.selected < |m.rows| {
        SetRowSpares(m, m.selected, WithBody(m.rows[m.selected], body), owner, exchange);
      }
    case SetPaused(_) =>
    case SelectNext =>
    case SelectPrevious =>
  }

  /** `exchange` is paused at the start of every operation of a run. */
  predicate StaysPaused(m: Model, ops: seq<Operation>, exchange: nat) {
    ops == []
    || (StaysPaused(m, ops[..|ops| - 1], exchange) && exchange in Run(m, ops[..|ops| - 1]).paused)
  }

  lemma {:induction false} PausedRowSurvives(m: Model, ops: seq<Operation>, owner: nat, exchange: nat)
    requires HasRow(m, owner, exchange) && StaysPaused(m, ops, exchange)
    ensures HasRow(Run(m, ops), owner, exchange)
  {
    if ops != [] {
      PausedRowSurvives(m, ops[..|ops| - 1], owner, exchange);
      StepSparesPaused(Run(m, ops[..|ops| - 1]), ops[|ops| - 1], owner, exchange);
    }
  }
}
