/** What the reducer's rows show of request and response bodies: prefixes of what was really sent,
    except where other text was put in place of a request body, by an operator's edit or because a hook
    had changed the body before it was intercepted. */
module TrafficBodies {
  import opened Common
  import opened BodyStream
  import opened TrafficModel
  import opened TrafficProperties
  import FlowInspection

  datatype Identity = Identity(session: nat, transaction: Option<nat>)

  function IdOf(row: Row): Identity {
    Identity(row.session, row.transaction)
  }

  function Ids(rows: seq<Row>): set<Identity> {
    set row | row in rows :: IdOf(row)
  }

  /** What was really sent on the request (`true`) or response side of a flow. */
  type Truth = (Identity, bool) -> Bytes

  ghost predicate Fits(truth: Truth) {
    forall id: Identity, side: bool :: |truth(id, side)| <= U64_MAX
  }

  /** The row shows a prefix of the response, and of the request exactly where that was not replaced. */
  predicate RowTrue(truth: Truth, replaced: set<Identity>, row: Row) {
    && (IdOf(row) !in replaced <==> row.request.view.body <= truth(IdOf(row), true))
    && row.response.view.body <= truth(IdOf(row), false)
  }

  predicate RowsTrue(truth: Truth, replaced: set<Identity>, rows: seq<Row>) {
    forall i | 0 <= i < |rows| :: RowTrue(truth, replaced, rows[i])
  }

  /** Prefix events report nothing false about the bodies; other operations report nothing. */
  predicate Reports(truth: Truth, op: Operation) {
    match op
    case Apply(BodyPrefixed(session, transaction, prefix)) =>
      Truthful(prefix, truth(Identity(session, transaction), RequestSide(prefix.direction)))
    case _ => true
  }

  // ---- Which rows hold other text ----

  /** A body put in a row is the truth's, or it is not. */
  function Marked(truth: Truth, replaced: set<Identity>, id: Identity, body: Bytes): set<Identity> {
    if body <= truth(id, true) then replaced - {id} else replaced + {id}
  }

  function ReplacedBy(truth: Truth, m: Model, replaced: set<Identity>, op: Operation): set<Identity> {
    match op
    case EditSelected(body) =>
      if m.selected < |m.rows| then Marked(truth, replaced, IdOf(m.rows[m.selected]), body) else replaced
    case Intercept(session, exchange, body) => Marked(truth, replaced, Identity(session, Some(exchange)), body)
    case _ => replaced
  }

  /** The flows whose present row was last given a body that is no prefix of the truth. */
  function ReplacedRows(truth: Truth, m: Model, ops: seq<Operation>): set<Identity> {
    if ops == [] then {}
    else
      var k := |ops| - 1;
      ReplacedBy(truth, Run(m, ops[..k]), ReplacedRows(truth, m, ops[..k]), ops[k]) * Ids(Run(m, ops).rows)
  }

  lemma RestrictTrue(truth: Truth, replaced: set<Identity>, rows: seq<Row>)
    requires RowsTrue(truth, replaced, rows)
    ensures RowsTrue(truth, replaced * Ids(rows), rows)
  {
    forall i | 0 <= i < |rows| ensures RowTrue(truth, replaced * Ids(rows), rows[i]) {
      assert rows[i] in rows && RowTrue(truth, replaced, rows[i]);
    }
  }

  // ---- One operation ----

  /** True reports extend a prefix to a prefix, and never make one of other text. */
  lemma AppendTruthful(view: BodyView, e: FlowInspection.BodyPrefix, stream: Bytes)
    requires Truthful(e, stream) && |stream| <= U64_MAX
    ensures view.Append(e).body <= stream <==> view.body <= stream
  {
    assert view.body <= view.Append(e).body;
  }

  lemma AddPrefixTrue(truth: Truth, replaced: set<Identity>, row: Row, prefix: FlowInspection.BodyPrefix)
    requires Fits(truth) && RowTrue(truth, replaced, row)
    requires Truthful(prefix, truth(IdOf(row), RequestSide(prefix.direction)))
    ensures RowTrue(truth, replaced, AddPrefix(row, prefix))
  {
    var stream := truth(IdOf(row), RequestSide(prefix.direction));
    AppendTruthful(SideOf(row, prefix.direction).view, prefix, stream);
  }

  lemma AbsentId(rows: seq<Row>, session: nat, transaction: Option<nat>)
    requires FirstWhere(rows, Same(session, transaction)) == |rows|
    ensures Identity(session, transaction) !in Ids(rows)
  {
    forall i | 0 <= i < |rows| ensures IdOf(rows[i]) != Identity(session, transaction) {
      assert !Same(session, transaction)(rows[i]);
    }
  }

  lemma RoomTrue(truth: Truth, replaced: set<Identity>, m: Model, evictable: Row -> bool)
    requires RowsTrue(truth, replaced, m.rows)
    ensures MakeRoom(m, evictable).Some? ==> RowsTrue(truth, replaced, MakeRoom(m, evictable).value.rows)
  {
    var room := MakeRoom(m, evictable);
    if room.Some? {
      var at := FirstWhere(m.rows, evictable);
      var rows := room.value.rows;
      forall i | 0 <= i < |rows| ensures RowTrue(truth, replaced, rows[i]) {
        assert rows[i] == m.rows[if rows == m.rows || i < at then i else i + 1];
      }
    }
  }

  lemma EnsureTrue(
    truth: Truth, replaced: set<Identity>, m: Model, session: nat, transaction: Option<nat>, evictable: Row -> bool)
    requires RowsTrue(truth, replaced, m.rows) && replaced <= Ids(m.rows)
    ensures var r := EnsureRow(m, session, transaction, evictable);
            r.Some? ==>
              RowsTrue(truth, replaced, r.value.0.rows) && Is(r.value.0.rows[r.value.1], session, transaction)
  {
    var n := FirstWhere(m.rows, Same(session, transaction));
    if n < |m.rows| {
      assert Same(session, transaction)(m.rows[n]);
    } else {
      AbsentId(m.rows, session, transaction);
      RoomTrue(truth, replaced, m, evictable);
      assert RowTrue(truth, replaced, EmptyRow(session, transaction));
    }
  }

  lemma SetRowTrue(truth: Truth, replaced: set<Identity>, m: Model, i: nat, row: Row)
    requires RowsTrue(truth, replaced, m.rows) && i < |m.rows| && RowTrue(truth, replaced, row)
    ensures RowsTrue(truth, replaced, SetRow(m, i, row).rows)
  {
  }

  lemma UpdatedTrue(truth: Truth, replaced: set<Identity>, m: Model, i: nat, e: UiEvent)
    requires Fits(truth) && RowsTrue(truth, replaced, m.rows) && i < |m.rows| && Reports(truth, Apply(e))
    requires Correlated(e) && Is(m.rows[i], e.session, TransactionOf(e))
    ensures RowsTrue(truth, replaced, Updated(m, i, e).rows)
  {
    var row := m.rows[i];
    assert RowTrue(truth, replaced, row);
    match e
    case HttpResponseObserved(_, _) => SetRowTrue(truth, replaced, m, i, Responded(row));
    case DecisionMade(_, _, decision) =>
      SetRowTrue(truth, replaced, m, i, AddTrace(row, Trace(m.nextEvaluation, decision), m.maximumItems));
    case FindingDetected(_, _, finding) => SetRowTrue(truth, replaced, m, i, AddFinding(row, finding, m.maximumItems));
    case BodyPrefixed(_, _, prefix) =>
      AddPrefixTrue(truth, replaced, row, prefix);
      SetRowTrue(truth, replaced, m, i, AddPrefix(row, prefix));
    case WireUpdated(_, _, direction, wire) => SetRowTrue(truth, replaced, m, i, SetWire(row, direction, wire));
    case HttpObserved(_, _) =>
  }

  lemma ClosedSessionTrue(truth: Truth, replaced: set<Identity>, m: Model, session: nat, sent: nat, received: nat)
    requires RowsTrue(truth, replaced, m.rows) && replaced <= Ids(m.rows)
    ensures RowsTrue(truth, replaced, ClosedSession(m, session, sent, received).rows)
  {
    if HasSession(m.rows, session) {
      CloseRowsShape(m.rows, session, sent, received);
      var rows := CloseRows(m.rows, session, sent, received);
      forall i | 0 <= i < |rows| ensures RowTrue(truth, replaced, rows[i]) {
        assert RowTrue(truth, replaced, m.rows[i]);
      }
    } else {
      EnsureTrue(truth, replaced, m, session, None, Disposable(m.paused));
      var e := Ensured(m, session, None);
      if e.Some? {
        var (ready, i) := e.value;
        assert RowTrue(truth, replaced, ready.rows[i]);
        SetRowTrue(truth, replaced, ready, i, Close(ready.rows[i], sent, received));
      }
    }
  }

  lemma AppliedTrue(truth: Truth, replaced: set<Identity>, m: Model, e: UiEvent)
    requires Fits(truth) && RowsTrue(truth, replaced, m.rows) && replaced <= Ids(m.rows) && Reports(truth, Apply(e))
    ensures RowsTrue(truth, replaced, Applied(m, e).rows)
  {
    if e.FlowClosed? {
      ClosedSessionTrue(truth, replaced, m, e.session, e.sent, e.received);
    } else if Correlated(e) {
      EnsureTrue(truth, replaced, m, e.session, TransactionOf(e), Disposable(m.paused));
      var row := Ensured(m, e.session, TransactionOf(e));
      if row.Some? {
        UpdatedTrue(truth, replaced, row.value.0, row.value.1, e);
      }
    }
  }

  /** A body put in a row leaves every row accounted for. */
  lemma PutTrue(truth: Truth, replaced: set<Identity>, m: Model, i: nat, body: Bytes)
    requires RowsTrue(truth, replaced, m.rows) && UniqueRows(m.rows) && i < |m.rows|
    ensures RowsTrue(
              truth, Marked(truth, replaced, IdOf(m.rows[i]), body), SetRow(m, i, WithBody(m.rows[i], body)).rows)
  {
    var id := IdOf(m.rows[i]);
    var rows := SetRow(m, i, WithBody(m.rows[i], body)).rows;
    forall j | 0 <= j < |rows| ensures RowTrue(truth, Marked(truth, replaced, id, body), rows[j]) {
      assert RowTrue(truth, replaced, m.rows[j]);
      assert j < i ==> !SameIdentity(m.rows[j], m.rows[i]);
      assert i < j ==> !SameIdentity(m.rows[i], m.rows[j]);
    }
  }

  /** A body for a flow that got no row changes nothing that is shown. */
  lemma AbsentTrue(truth: Truth, replaced: set<Identity>, rows: seq<Row>, id: Identity, body: Bytes)
    requires RowsTrue(truth, replaced, rows) && forall i | 0 <= i < |rows| :: IdOf(rows[i]) != id
    ensures RowsTrue(truth, Marked(truth, replaced, id, body), rows)
  {
    forall i | 0 <= i < |rows| ensures RowTrue(truth, Marked(truth, replaced, id, body), rows[i]) {
      assert RowTrue(truth, replaced, rows[i]);
    }
  }

  lemma InterceptTrue(truth: Truth, replaced: set<Identity>, m: Model, session: nat, exchange: nat, body: Bytes)
    requires Invariant(m) && RowsTrue(truth, replaced, m.rows) && replaced <= Ids(m.rows)
    ensures RowsTrue(
              truth, Marked(truth, replaced, Identity(session, Some(exchange)), body),
              AfterIntercept(m, session, exchange, body).rows)
  {
    var pausing := m.(paused := PausedWith(m.paused, exchange));
    EnsureTrue(truth, replaced, pausing, session, Some(exchange), Unpaused(pausing.paused));
    EnsureKeeps(pausing, session, Some(exchange), Unpaused(pausing.paused));
    var row := EnsureRow(pausing, session, Some(exchange), Unpaused(pausing.paused));
    if row.Some? {
      PutTrue(truth, replaced, row.value.0, row.value.1, body);
    } else {
      forall i | 0 <= i < |m.rows| ensures IdOf(m.rows[i]) != Identity(session, Some(exchange)) {
        assert !Same(session, Some(exchange))(m.rows[i]);
      }
      AbsentTrue(truth, replaced, m.rows, Identity(session, Some(exchange)), body);
    }
  }

  lemma StepTrue(truth: Truth, replaced: set<Identity>, m: Model, op: Operation)
    requires Fits(truth) && Invariant(m) && Reports(truth, op)
    requires RowsTrue(truth, replaced, m.rows) && replaced <= Ids(m.rows)
    ensures RowsTrue(truth, ReplacedBy(truth, m, replaced, op), Step(m, op).rows)
  {
    match op
    case Apply(e) => AppliedTrue(truth, replaced, m, e);
    case Intercept(session, exchange, body) => InterceptTrue(truth, replaced, m, session, exchange, body);
    case EditSelected(body) =>
      if m.selected < |m.rows| {
        PutTrue(truth, replaced, m, m.selected, body);
      }
    case SetPaused(_) =>
    case SelectNext =>
    case SelectPrevious =>
  }

  // ---- Whole runs ----

  /** However events of many flows interleave, are lost, repeated or reordered, and whatever is
      evicted and made again: every row shows a prefix of the response its flow carried, and it shows a
      prefix of the request if and only if its request body was not replaced by other text. */
  lemma {:induction false} RunShowsPrefixes(truth: Truth, maximumRows: nat, maximumItems: nat, ops: seq<Operation>)
    requires maximumRows > 0 && maximumItems > 0
    requires Fits(truth) && forall op | op in ops :: Reports(truth, op)
    ensures var m := NewModel(maximumRows, maximumItems);
            RowsTrue(truth, ReplacedRows(truth, m, ops), Run(m, ops).rows)
  {
    if ops != [] {
      var m := NewModel(maximumRows, maximumItems);
      var front, op := ops[..|ops| - 1], ops[|ops| - 1];
      forall x | x in front ensures Reports(truth, x) {
        assert x in ops;
      }
      RunShowsPrefixes(truth, maximumRows, maximumItems, front);
      RunKeeps(maximumRows, maximumItems, front);
      assert op in ops;
      StepTrue(truth, ReplacedRows(truth, m, front), Run(m, front), op);
      RestrictTrue(truth, ReplacedBy(truth, Run(m, front), ReplacedRows(truth, m, front), op), Run(m, ops).rows);
    }
  }

  /** The operation puts no other text in a row: it edits nothing, and what it intercepts was sent. */
  predicate Leaves(truth: Truth, op: Operation) {
    match op
    case EditSelected(_) => false
    case Intercept(session, exchange, body) => body <= truth(Identity(session, Some(exchange)), true)
    case _ => true
  }

  /** Without edits, and with intercepted bodies as they were sent, every row of a run shows prefixes. */
  lemma {:induction false} NothingReplaced(truth: Truth, m: Model, ops: seq<Operation>)
    requires forall op | op in ops :: Leaves(truth, op)
    ensures ReplacedRows(truth, m, ops) == {}
  {
    if ops != [] {
      var front := ops[..|ops| - 1];
      forall op | op in front ensures Leaves(truth, op) {
        assert op in ops;
      }
      NothingReplaced(truth, m, front);
      assert ops[|ops| - 1] in ops;
    }
  }

  /** Putting a body in a row keeps every row a prefix of the truth exactly when that body is one. */
  lemma PutKeepsPrefixIff(truth: Truth, m: Model, i: nat, body: Bytes)
    requires i < |m.rows| && RowsTrue(truth, {}, m.rows)
    ensures RowsTrue(truth, {}, SetRow(m, i, WithBody(m.rows[i], body)).rows)
            <==> body <= truth(IdOf(m.rows[i]), true)
  {
    var rows := SetRow(m, i, WithBody(m.rows[i], body)).rows;
    assert rows[i] == WithBody(m.rows[i], body);
    assert RowTrue(truth, {}, m.rows[i]);
    if RowsTrue(truth, {}, rows) {
      assert RowTrue(truth, {}, rows[i]);
    }
    if body <= truth(IdOf(m.rows[i]), true) {
      forall j | 0 <= j < |rows| ensures RowTrue(truth, {}, rows[j]) {
        assert RowTrue(truth, {}, m.rows[j]);
      }
    }
  }

  /** An edit keeps every row a prefix of the truth exactly when the edited body is one itself. */
  lemma EditKeepsPrefixIff(truth: Truth, m: Model, body: Bytes)
    requires m.selected < |m.rows| && RowsTrue(truth, {}, m.rows)
    ensures RowsTrue(truth, {}, Step(m, EditSelected(body)).rows)
            <==> body <= truth(IdOf(m.rows[m.selected]), true)
  {
    PutKeepsPrefixIff(truth, m, m.selected, body);
  }

  /** The interception got a row. */
  predicate Obtains(m: Model, session: nat, exchange: nat) {
    var pausing := m.(paused := PausedWith(m.paused, exchange));
    EnsureRow(pausing, session, Some(exchange), Unpaused(pausing.paused)).Some?
  }

  /** An interception that gets a row keeps the property exactly when the intercepted body, as the hooks
      left it, is a prefix of what was sent. */
  lemma InterceptKeepsPrefixIff(truth: Truth, m: Model, session: nat, exchange: nat, body: Bytes)
    requires RowsTrue(truth, {}, m.rows) && Obtains(m, session, exchange)
    ensures RowsTrue(truth, {}, Step(m, Intercept(session, exchange, body)).rows)
            <==> body <= truth(Identity(session, Some(exchange)), true)
  {
    var pausing := m.(paused := PausedWith(m.paused, exchange));
    EnsureTrue(truth, {}, pausing, session, Some(exchange), Unpaused(pausing.paused));
    var (ready, i) := EnsureRow(pausing, session, Some(exchange), Unpaused(pausing.paused)).value;
    PutKeepsPrefixIff(truth, ready, i, body);
  }

  /** An operator who replaces the intercepted body [1, 2, 3] by [9] makes a row that shows no prefix
      of what was sent, though nothing false was reported. */
  lemma EditBreaksPrefix(truth: Truth)
    requires truth(Identity(0, Some(0)), true) == [1, 2, 3]
    ensures var m := Run(NewModel(1, 1), [Intercept(0, 0, [1, 2, 3])]);
            && Leaves(truth, Intercept(0, 0, [1, 2, 3])) && Reports(truth, EditSelected([9]))
            && RowsTrue(truth, {}, m.rows) && !RowsTrue(truth, {}, Step(m, EditSelected([9])).rows)
  {
    var ops := [Intercept(0, 0, [1, 2, 3])];
    var empty := NewModel(1, 1);
    assert ops[..0] == [] && Run(empty, ops) == Step(empty, ops[0]);
    var m := Run(empty, ops);
    assert |m.rows| == 1 && m.selected == 0 && IdOf(m.rows[0]) == Identity(0, Some(0));
    assert m.rows[0].request.view.body == [1, 2, 3];
    var text, sent: Bytes := [9], [1, 2, 3];
    assert text[0] != sent[0] && !(text <= sent);
    EditKeepsPrefixIff(truth, m, text);
  }

  // ---- A body put in a row stays until it is touched ----

  predicate Present(rows: seq<Row>, id: Identity) {
    exists i | 0 <= i < |rows| :: IdOf(rows[i]) == id
  }

  predicate Shows(rows: seq<Row>, id: Identity, body: Bytes) {
    forall i | 0 <= i < |rows| && IdOf(rows[i]) == id :: rows[i].request.view.body == body
  }

  /** The operation may change the request body shown for a flow. */
  predicate Touches(m: Model, op: Operation, id: Identity) {
    match op
    case Apply(BodyPrefixed(session, transaction, prefix)) =>
      id == Identity(session, transaction) && RequestSide(prefix.direction)
    case Intercept(session, exchange, _) => id == Identity(session, Some(exchange))
    case EditSelected(_) => m.selected < |m.rows| && IdOf(m.rows[m.selected]) == id
    case _ => false
  }

  lemma EnsureShows(
    m: Model, session: nat, transaction: Option<nat>, evictable: Row -> bool, id: Identity, body: Bytes)
    requires Present(m.rows, id) && Shows(m.rows, id, body)
    ensures var r := EnsureRow(m, session, transaction, evictable);
            r.Some? ==> Shows(r.value.0.rows, id, body) && Is(r.value.0.rows[r.value.1], session, transaction)
  {
    var n := FirstWhere(m.rows, Same(session, transaction));
    var room := MakeRoom(m, evictable);
    if n < |m.rows| {
      assert Same(session, transaction)(m.rows[n]);
    } else if room.Some? {
      var here :| 0 <= here < |m.rows| && IdOf(m.rows[here]) == id;
      assert !Same(session, transaction)(m.rows[here]);
      var at := FirstWhere(m.rows, evictable);
      var rows := room.value.rows;
      forall i | 0 <= i < |rows| && IdOf(rows[i]) == id ensures rows[i].request.view.body == body {
        assert rows[i] == m.rows[if rows == m.rows || i < at then i else i + 1];
      }
    }
  }

  lemma SetRowShows(m: Model, i: nat, row: Row, id: Identity, body: Bytes)
    requires Shows(m.rows, id, body) && i < |m.rows| && IdOf(row) == IdOf(m.rows[i])
    requires IdOf(row) == id ==> row.request.view.body == m.rows[i].request.view.body
    ensures Shows(SetRow(m, i, row).rows, id, body)
  {
  }

  lemma UpdatedShows(m: Model, i: nat, e: UiEvent, id: Identity, body: Bytes)
    requires Shows(m.rows, id, body) && i < |m.rows| && Correlated(e)
    requires Is(m.rows[i], e.session, TransactionOf(e)) && !Touches(m, Apply(e), id)
    ensures Shows(Updated(m, i, e).rows, id, body)
  {
    var row := m.rows[i];
    match e
    case HttpResponseObserved(_, _) => SetRowShows(m, i, Responded(row), id, body);
    case DecisionMade(_, _, decision) =>
      SetRowShows(m, i, AddTrace(row, Trace(m.nextEvaluation, decision), m.maximumItems), id, body);
    case FindingDetected(_, _, finding) => SetRowShows(m, i, AddFinding(row, finding, m.maximumItems), id, body);
    case BodyPrefixed(_, _, prefix) => SetRowShows(m, i, AddPrefix(row, prefix), id, body);
    case WireUpdated(_, _, direction, wire) => SetRowShows(m, i, SetWire(row, direction, wire), id, body);
    case HttpObserved(_, _) =>
  }

  lemma ClosedSessionShows(m: Model, session: nat, sent: nat, received: nat, id: Identity, body: Bytes)
    requires Present(m.rows, id) && Shows(m.rows, id, body)
    ensures Shows(ClosedSession(m, session, sent, received).rows, id, body)
  {
    if HasSession(m.rows, session) {
      CloseRowsShape(m.rows, session, sent, received);
    } else {
      EnsureShows(m, session, None, Disposable(m.paused), id, body);
      var e := Ensured(m, session, None);
      if e.Some? {
        SetRowShows(e.value.0, e.value.1, Close(e.value.0.rows[e.value.1], sent, received), id, body);
      }
    }
  }

  /** No other operation changes the request body a row shows. */
  lemma StepShows(m: Model, op: Operation, id: Identity, body: Bytes)
    requires Present(m.rows, id) && Shows(m.rows, id, body) && !Touches(m, op, id)
    ensures Shows(Step(m, op).rows, id, body)
  {
    match op
    case Apply(e) =>
      if e.FlowClosed? {
        ClosedSessionShows(m, e.session, e.sent, e.received, id, body);
      } else if Correlated(e) {
        EnsureShows(m, e.session, TransactionOf(e), Disposable(m.paused), id, body);
        var row := Ensured(m, e.session, TransactionOf(e));
        if row.Some? {
          UpdatedShows(row.value.0, row.value.1, e, id, body);
        }
      }
    case Intercept(session, exchange, text) =>
      var pausing := m.(paused := PausedWith(m.paused, exchange));
      EnsureShows(pausing, session, Some(exchange), Unpaused(pausing.paused), id, body);
      var row := EnsureRow(pausing, session, Some(exchange), Unpaused(pausing.paused));
      if row.Some? {
        var (ready, i) := row.value;
        SetRowShows(ready, i, WithBody(ready.rows[i], text), id, body);
      }
    case EditSelected(text) =>
      if m.selected < |m.rows| {
        SetRowShows(m, m.selected, WithBody(m.rows[m.selected], text), id, body);
      }
    case SetPaused(_) =>
    case SelectNext =>
    case SelectPrevious =>
  }

  /** The row stays, and no operation of the run touches its request body. */
  predicate Undisturbed(m: Model, ops: seq<Operation>, id: Identity) {
    ops == [] ||
    var k := |ops| - 1;
    && Undisturbed(m, ops[..k], id) && Present(Run(m, ops[..k]).rows, id)
    && !Touches(Run(m, ops[..k]), ops[k], id)
  }

  lemma {:induction false} BodyStays(m: Model, ops: seq<Operation>, id: Identity, body: Bytes)
    requires Shows(m.rows, id, body) && Undisturbed(m, ops, id)
    ensures Shows(Run(m, ops).rows, id, body)
  {
    if ops != [] {
      var k := |ops| - 1;
      BodyStays(m, ops[..k], id, body);
      StepShows(Run(m, ops[..k]), ops[k], id, body);
    }
  }

  lemma PutShows(m: Model, i: nat, body: Bytes)
    requires UniqueRows(m.rows) && i < |m.rows|
    ensures Shows(SetRow(m, i, WithBody(m.rows[i], body)).rows, IdOf(m.rows[i]), body)
  {
    var rows := SetRow(m, i, WithBody(m.rows[i], body)).rows;
    forall j | 0 <= j < |rows| && IdOf(rows[j]) == IdOf(m.rows[i]) ensures rows[j].request.view.body == body {
      assert j < i ==> !SameIdentity(m.rows[j], m.rows[i]);
      assert i < j ==> !SameIdentity(m.rows[i], m.rows[j]);
    }
  }

  /** An edit is shown in the row it was made in, and stays shown until that body is reported,
      intercepted or edited again. */
  lemma EditStays(m: Model, body: Bytes, ops: seq<Operation>)
    requires Invariant(m) && m.selected < |m.rows|
    requires Undisturbed(Step(m, EditSelected(body)), ops, IdOf(m.rows[m.selected]))
    ensures Shows(Run(Step(m, EditSelected(body)), ops).rows, IdOf(m.rows[m.selected]), body)
  {
    PutShows(m, m.selected, body);
    BodyStays(Step(m, EditSelected(body)), ops, IdOf(m.rows[m.selected]), body);
  }

  /** So is an intercepted body, whatever hooks had made of it. */
  lemma InterceptStays(m: Model, session: nat, exchange: nat, body: Bytes, ops: seq<Operation>)
    requires Invariant(m) && Obtains(m, session, exchange)
    requires Undisturbed(Step(m, Intercept(session, exchange, body)), ops, Identity(session, Some(exchange)))
    ensures Shows(
              Run(Step(m, Intercept(session, exchange, body)), ops).rows, Identity(session, Some(exchange)), body)
  {
    var pausing := m.(paused := PausedWith(m.paused, exchange));
    EnsureKeeps(pausing, session, Some(exchange), Unpaused(pausing.paused));
    var (ready, i) := EnsureRow(pausing, session, Some(exchange), Unpaused(pausing.paused)).value;
    PutShows(ready, i, body);
    BodyStays(Step(m, Intercept(session, exchange, body)), ops, Identity(session, Some(exchange)), body);
  }
}
