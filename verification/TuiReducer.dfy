/** The reducer as the terminal holds it: one object whose fields every event updates. */
module TuiReducer {
  import opened Common
  import opened Domain
  import opened TrafficModel
  import opened TrafficProperties

  method Position(rows: seq<Row>, p: Row -> bool) returns (n: nat)
    ensures n == FirstWhere(rows, p)
  {
    for i := 0 to |rows|
      invariant forall j | 0 <= j < i :: !p(rows[j])
    {
      if p(rows[i]) {
        return i;
      }
    }
    n := |rows|;
  }

  /** Marks every row of a session closed and reports whether there was one. */
  method MarkClosed(rows: seq<Row>, session: nat, sent: nat, received: nat)
    returns (closed: seq<Row>, matched: bool)
    ensures closed == CloseRows(rows, session, sent, received) && (matched <==> HasSession(rows, session))
  {
    closed, matched := [], false;
    for i := 0 to |rows|
      invariant closed == CloseRows(rows[..i], session, sent, received)
      invariant matched <==> exists j | 0 <= j < i :: rows[j].session == session
    {
      assert rows[..i + 1][..i] == rows[..i];
      if rows[i].session == session {
        matched := true;
        closed := closed + [Close(rows[i], sent, received)];
      } else {
        closed := closed + [rows[i]];
      }
    }
    assert rows[..|rows|] == rows;
  }

  class TuiModel {
    const maximumRows: nat
    const maximumItems: nat
    var rows: seq<Row>
    var selected: nat
    var paused: seq<nat>
    var nextEvaluation: nat
    var logs: seq<string>

    function State(): Model
      reads this
    {
      Model(rows, selected, paused, nextEvaluation, logs, maximumRows, maximumItems)
    }

    constructor (maximumRows: nat, maximumItems: nat)
      requires maximumRows > 0 && maximumItems > 0
      ensures State() == NewModel(maximumRows, maximumItems) && Invariant(State())
    {
      this.maximumRows, this.maximumItems := maximumRows, maximumItems;
      rows, selected, paused, nextEvaluation, logs := [], 0, [], 1, [];
    }

    /** Removes one row, keeping the selection on the row it was on where that row remains. */
    method Remove(n: nat)
      requires n < |rows|
      modifies this`rows, this`selected
      ensures State() == Evict(old(State()), n)
    {
      rows := rows[..n] + rows[n + 1..];
      if selected > n {
        selected := selected - 1;
      }
    }

    /** Finds or makes the row of a flow, evicting the first row that may go when all slots are taken. */
    method Ensure(session: nat, transaction: Option<nat>, evictable: Row -> bool) returns (index: Option<nat>)
      modifies this`rows, this`selected
      ensures var r := EnsureRow(old(State()), session, transaction, evictable);
              if r.None? then index == None && State() == old(State())
              else index == Some(r.value.1) && State() == r.value.0
    {
      var found := Position(rows, Same(session, transaction));
      if found < |rows| {
        return Some(found);
      }
      if |rows| == maximumRows {
        var removable := Position(rows, evictable);
        if removable == |rows| {
          return None;
        }
        Remove(removable);
      }
      rows := rows + [EmptyRow(session, transaction)];
      index := Some(|rows| - 1);
    }

    method CloseSession(session: nat, sent: nat, received: nat)
      modifies this`rows, this`selected
      ensures State() == ClosedSession(old(State()), session, sent, received)
    {
      var closed, matched := MarkClosed(rows, session, sent, received);
      if matched {
        rows := closed;
        return;
      }
      var index := Ensure(session, None, Disposable(paused));
      if index.Some? {
        var i := index.value;
        rows := rows[i := Close(rows[i], sent, received)];
      }
    }

    method RecordDecision(i: nat, decision: Decision)
      requires i < |rows|
      modifies this`rows, this`nextEvaluation
      ensures State() == Decided(old(State()), i, decision)
    {
      if nextEvaluation >= U64_MAX {
        return;
      }
      rows := rows[i := AddTrace(rows[i], Trace(nextEvaluation, decision), maximumItems)];
      nextEvaluation := nextEvaluation + 1;
    }

    method Update(i: nat, e: UiEvent)
      requires i < |rows|
      modifies this
      ensures State() == Updated(old(State()), i, e)
    {
      match e {
        case HttpObserved(_, _) => selected := i;
        case HttpResponseObserved(_, _) => rows := rows[i := Responded(rows[i])];
        case DecisionMade(_, _, decision) => RecordDecision(i, decision);
        case FindingDetected(_, _, finding) => rows := rows[i := AddFinding(rows[i], finding, maximumItems)];
        case BodyPrefixed(_, _, prefix) => rows := rows[i := AddPrefix(rows[i], prefix)];
        case WireUpdated(_, _, direction, wire) => rows := rows[i := SetWire(rows[i], direction, wire)];
        case OperationalLog(_) =>
        case FlowClosed(_, _, _) =>
      }
    }

    /** Reduces one event. */
    method ApplyEvent(e: UiEvent)
      requires Invariant(State())
      modifies this
      ensures State() == Step(old(State()), Apply(e)) && Invariant(State())
    {
      StepKeeps(State(), Apply(e));
      if e.OperationalLog? {
        logs := PushBounded(logs, e.message, maximumItems);
      } else if e.FlowClosed? {
        CloseSession(e.session, e.sent, e.received);
      } else {
        var index := Ensure(e.session, TransactionOf(e), Disposable(paused));
        if index.Some? {
          Update(index.value, e);
        }
      }
    }

    method SetInteractiveState(transactions: seq<nat>)
      requires Invariant(State())
      modifies this`paused
      ensures State() == Step(old(State()), SetPaused(transactions)) && Invariant(State())
    {
      StepKeeps(State(), SetPaused(transactions));
      paused := transactions;
    }

    /** Gives a paused request a row, at the expense of any row that is not paused itself. */
    method ApplyInterceptRequest(session: nat, exchange: nat, body: Bytes)
      requires Invariant(State())
      modifies this
      ensures State() == Step(old(State()), Intercept(session, exchange, body)) && Invariant(State())
    {
      StepKeeps(State(), Intercept(session, exchange, body));
      if exchange !in paused {
        paused := paused + [exchange];
      }
      var index := Ensure(session, Some(exchange), Unpaused(paused));
      if index.Some? {
        var i := index.value;
        rows := rows[i := WithBody(rows[i], body)];
        selected := i;
      }
    }

    /** Shows an accepted edit in the selected row. */
    method ApplyEditedRequest(body: Bytes)
      requires Invariant(State())
      modifies this`rows
      ensures State() == Step(old(State()), EditSelected(body)) && Invariant(State())
    {
      StepKeeps(State(), EditSelected(body));
      if selected < |rows| {
        rows := rows[selected := WithBody(rows[selected], body)];
      }
    }

    method MoveSelection(next: bool)
      requires Invariant(State())
      modifies this`selected
      ensures State() == Step(old(State()), if next then SelectNext else SelectPrevious) && Invariant(State())
    {
      StepKeeps(State(), if next then SelectNext else SelectPrevious);
      if !next {
        selected := SaturatingSub(selected, 1);
      } else if selected + 1 < |rows| {
        selected := selected + 1;
      }
    }
  }
}
