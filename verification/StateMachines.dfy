/** The transition tables of internal/domain/state_machine.go and the class that holds one. */
module StateMachines {
  import opened Wrappers

  datatype PilotStatus = Created | Assigned | Claimed | InProgress | Completed | Preempted | Cancelled
  datatype OrderStatus = WCreated | WAssigned | WInProgress | WCompleted | WCancelled | WFailed
  datatype WindowStatus = Allocated | Effective | Occupied | Released | Expired | Escalated | WinCancelled
  datatype DeclStatus =
    | Draft | Submitted | Reviewing | Accepted | Queued | Scheduled | Processing
    | DCompleted | Rejected | DCancelled
  datatype HandoverStatus = Pending | Confirmed | HRejected

  predicate PilotEdge(src: PilotStatus, dst: PilotStatus) {
    match src
    case Created => dst in {Assigned, Cancelled}
    case Assigned => dst in {Claimed, Preempted, Cancelled}
    case Claimed => dst in {Completed, InProgress, Preempted}
    case InProgress => dst in {Completed, Preempted}
    case Preempted => dst in {Assigned, Cancelled}
    case _ => false
  }

  predicate OrderEdge(src: OrderStatus, dst: OrderStatus) {
    match src
    case WCreated => dst in {WAssigned, WCancelled}
    case WAssigned => dst in {WInProgress, WCancelled}
    case WInProgress => dst in {WCompleted, WFailed, WCancelled}
    case _ => false
  }

  predicate WindowEdge(src: WindowStatus, dst: WindowStatus) {
    match src
    case Allocated => dst in {Effective, WinCancelled, Escalated}
    case Effective => dst in {Occupied, Expired, Escalated, Released}
    case Occupied => dst in {Released, Escalated}
    case Escalated => dst in {Effective, Released, WinCancelled}
    case _ => false
  }

  predicate DeclEdge(src: DeclStatus, dst: DeclStatus) {
    match src
    case Submitted => dst in {Reviewing, Accepted, Rejected, Queued, DCancelled}
    case Reviewing => dst in {Accepted, Rejected, Queued}
    case Accepted => dst in {Queued, Scheduled, DCancelled}
    case Queued => dst in {Scheduled, DCancelled}
    case Scheduled => dst in {Processing, DCancelled}
    case Processing => dst in {DCompleted, DCancelled}
    case _ => false
  }

  /** Handovers have no table; the service only decides a pending document. */
  predicate HandoverEdge(src: HandoverStatus, dst: HandoverStatus) {
    src == Pending && dst in {Confirmed, HRejected}
  }

  /** The statuses a table never leaves. */
  lemma FinalStatuses(p: PilotStatus, w: OrderStatus, b: WindowStatus, d: DeclStatus)
    ensures (forall t :: !PilotEdge(p, t)) <==> p in {Completed, Cancelled}
    ensures (forall t :: !OrderEdge(w, t)) <==> w in {WCompleted, WCancelled, WFailed}
    ensures (forall t :: !WindowEdge(b, t)) <==> b in {Released, Expired, WinCancelled}
    ensures (forall t :: !DeclEdge(d, t)) <==> d in {Draft, DCompleted, Rejected, DCancelled}
  {
    assert PilotEdge(Created, Assigned) && PilotEdge(Assigned, Claimed) && PilotEdge(Claimed, InProgress);
    assert PilotEdge(InProgress, Completed) && PilotEdge(Preempted, Assigned);
    assert OrderEdge(WCreated, WAssigned) && OrderEdge(WAssigned, WInProgress) && OrderEdge(WInProgress, WCompleted);
    assert WindowEdge(Allocated, Effective) && WindowEdge(Effective, Occupied) && WindowEdge(Occupied, Released);
    assert WindowEdge(Escalated, Effective);
    assert DeclEdge(Submitted, Reviewing) && DeclEdge(Reviewing, Accepted) && DeclEdge(Accepted, Queued);
    assert DeclEdge(Queued, Scheduled) && DeclEdge(Scheduled, Processing) && DeclEdge(Processing, DCompleted);
  }

  /** An explicit transition table: a map from source to a map of destinations. */
  class StateMachine<S(==,!new)> {
    var transitions: map<S, map<S, bool>>
    const initialState: S

    constructor (initial: S)
      ensures initialState == initial
      ensures forall a, b :: !CanTransition(a, b)
    {
      transitions := map[];
      initialState := initial;
    }

    predicate CanTransition(src: S, dst: S)
      reads this
    {
      src in transitions && dst in transitions[src] && transitions[src][dst]
    }

    method Allow(src: S, dst: S)
      modifies this
      ensures forall a, b :: CanTransition(a, b) <==> old(CanTransition(a, b)) || (a == src && b == dst)
    {
      if src !in transitions {
        transitions := transitions[src := map[]];
      }
      transitions := transitions[src := transitions[src][dst := true]];
    }

    method AllowMany(src: S, dsts: seq<S>)
      modifies this
      ensures forall a, b :: CanTransition(a, b) <==> old(CanTransition(a, b)) || (a == src && b in dsts)
    {
      for i := 0 to |dsts|
        invariant forall a, b :: CanTransition(a, b) <==> old(CanTransition(a, b)) || (a == src && b in dsts[..i])
      {
        Allow(src, dsts[i]);
        assert dsts[..i + 1] == dsts[..i] + [dsts[i]];
      }
    }

    method MustTransition(src: S, dst: S) returns (r: Result<S>)
      ensures r == if CanTransition(src, dst) then Ok(dst) else Err(InvalidTransition)
    {
      if !CanTransition(src, dst) {
        return Err(InvalidTransition);
      }
      return Ok(dst);
    }
  }

  method PilotTaskStateMachine() returns (sm: StateMachine<PilotStatus>)
    ensures sm.initialState == Created
    ensures forall a, b :: sm.CanTransition(a, b) <==> PilotEdge(a, b)
  {
    sm := new StateMachine(Created);
    sm.AllowMany(Created, [Assigned, Cancelled]);
    sm.AllowMany(Assigned, [Claimed, Preempted, Cancelled]);
    sm.AllowMany(Claimed, [Completed, InProgress, Preempted]);
    sm.AllowMany(InProgress, [Completed, Preempted]);
    sm.AllowMany(Preempted, [Assigned, Cancelled]);
  }

  method WorkOrderStateMachine() returns (sm: StateMachine<OrderStatus>)
    ensures sm.initialState == WCreated
    ensures forall a, b :: sm.CanTransition(a, b) <==> OrderEdge(a, b)
  {
    sm := new StateMachine(WCreated);
    sm.AllowMany(WCreated, [WAssigned, WCancelled]);
    sm.AllowMany(WAssigned, [WInProgress, WCancelled]);
    sm.AllowMany(WInProgress, [WCompleted, WFailed, WCancelled]);
  }

  method WindowStateMachine() returns (sm: StateMachine<WindowStatus>)
    ensures sm.initialState == Allocated
    ensures forall a, b :: sm.CanTransition(a, b) <==> WindowEdge(a, b)
  {
    sm := new StateMachine(Allocated);
    sm.AllowMany(Allocated, [Effective, WinCancelled, Escalated]);
    sm.AllowMany(Effective, [Occupied, Expired, Escalated, Released]);
    sm.AllowMany(Occupied, [Released, Escalated]);
    sm.AllowMany(Escalated, [Effective, Released, WinCancelled]);
  }

  method DeclarationStateMachine() returns (sm: StateMachine<DeclStatus>)
    ensures sm.initialState == Submitted
    ensures forall a, b :: sm.CanTransition(a, b) <==> DeclEdge(a, b)
  {
    sm := new StateMachine(Submitted);
    sm.AllowMany(Submitted, [Reviewing, Accepted, Rejected, Queued, DCancelled]);
    sm.AllowMany(Reviewing, [Accepted, Rejected, Queued]);
    sm.AllowMany(Accepted, [Queued, Scheduled, DCancelled]);
    sm.AllowMany(Queued, [Scheduled, DCancelled]);
    sm.AllowMany(Scheduled, [Processing, DCancelled]);
    sm.AllowMany(Processing, [DCompleted, DCancelled]);
  }
}
