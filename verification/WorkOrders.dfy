/** Work orders: internal/workorder/service.go, including the two-write completion. */
module WorkOrders {
  import opened Wrappers
  import opened StateMachines
  import opened OptimisticRow

  /** The mutable columns; stamps are the values written by the store's clock. */
  datatype Order = Order(status: OrderStatus, volume: int, started: Option<int>, completed: Option<int>)

  datatype Stmt =
    | SetStatus(status: OrderStatus, stamp: int)
    | SetVolume(volume: int)

  datatype Op =
    | Assign(stamp: int)
    | StartProgress(stamp: int)
    | Complete(volume: int, stamp: int)
    | Cancel(stamp: int)

  /** A status update also stamps the start or the completion. */
  function Apply(s: Stmt, w: Order): Order {
    match s
    case SetVolume(volume) => w.(volume := volume)
    case SetStatus(status, stamp) =>
      Order(status, w.volume,
            if status == WInProgress then Some(stamp) else w.started,
            if status == WCompleted then Some(stamp) else w.completed)
  }

  function Target(op: Op): OrderStatus {
    match op
    case Assign(_) => WAssigned
    case StartProgress(_) => WInProgress
    case Complete(_, _) => WCompleted
    case Cancel(_) => WCancelled
  }

  function Plan(op: Op, w: Order): seq<Stmt> {
    if !OrderEdge(w.status, Target(op)) then []
    else if op.Complete? && op.volume > 0 then [SetVolume(op.volume), SetStatus(WCompleted, op.stamp)]
    else [SetStatus(Target(op), op.stamp)]
  }

  function Protocol(): OptimisticRow.Protocol<Op, Stmt, Order, Unit> {
    OptimisticRow.Protocol((op, w) => Plan(op, w), (s, w) => Apply(s, w), (_, _) => None)
  }

  type Run = OptimisticRow.State<Op, Order, Unit>

  function AfterRun(w: Order, events: seq<Event<Op>>): Run {
    OptimisticRow.Run(Protocol(), Start(w), events)
  }

  predicate New(w: Order) {
    w.status == WCreated && w.started == None && w.completed == None
  }

  predicate VolumeWrite(c: Commit<Op>) { c.op.Complete? && c.op.volume > 0 && c.index == 0 }

  /** A commit is a volume write on an order in progress, or it moves the order along an edge. */
  lemma EachCommit(w: Order, events: seq<Event<Op>>, k: nat)
    ensures var s := AfterRun(w, events);
      |s.hist| == |s.log| + 1 && s.hist[|s.log|] == s.body && s.hist[0] == w
    ensures var s := AfterRun(w, events);
      k < |s.log| ==>
        var c, a, b := s.log[k], s.hist[k], s.hist[k + 1];
        if VolumeWrite(c) then
          a.status == WInProgress && b == a.(volume := c.op.volume)
        else
          && OrderEdge(a.status, b.status)
          && b == (match c.op
                   case Assign(_) => a.(status := WAssigned)
                   case StartProgress(stamp) => a.(status := WInProgress, started := Some(stamp))
                   case Complete(_, stamp) => a.(status := WCompleted, completed := Some(stamp))
                   case Cancel(_) => a.(status := WCancelled))
          && (c.op.Complete? && c.op.volume > 0 ==>
                k > 0 && c.index == 1 && s.log[k - 1] == c.(index := 0) && VolumeWrite(s.log[k - 1]))
  {
    var s, p := AfterRun(w, events), Protocol();
    RunKeepsInv(p, w, events);
    FirstVersion(p, w, events);
    if k < |s.log| {
      assert Explained(p, s.hist, s.log, k);
      if s.log[k].index == 1 {
        assert Explained(p, s.hist, s.log, k - 1);
      }
    }
  }

  /** Main result 1. Every committed status change is an edge of the table. */
  lemma StatusChangesAreEdges(w: Order, events: seq<Event<Op>>, k: nat)
    ensures var s := AfterRun(w, events);
      k < |s.log| ==>
        && k + 1 < |s.hist|
        && (s.hist[k].status == s.hist[k + 1].status || OrderEdge(s.hist[k].status, s.hist[k + 1].status))
  {
    EachCommit(w, events, k);
  }

  /** Main result 2. A completion with a positive volume acts as one update, though it is two: when its
      second statement wins, its first won on the version just before it, nothing came between, and
      the completed row carries that volume and is the last version there will ever be. */
  lemma CompletionIsAtomic(w: Order, events: seq<Event<Op>>, k: nat)
    ensures var s := AfterRun(w, events);
      k < |s.log| && s.log[k].op.Complete? && s.log[k].op.volume > 0 && s.log[k].index == 1 ==>
        var c := s.log[k];
        && k >= 1 && s.log[k - 1] == c.(index := 0) && k + 1 < |s.hist|
        && s.hist[k - 1].status == WInProgress
        && s.hist[k] == s.hist[k - 1].(volume := c.op.volume)
        && s.hist[k + 1] == s.hist[k - 1].(volume := c.op.volume, status := WCompleted, completed := Some(c.op.stamp))
        && k + 1 == |s.log| && s.body == s.hist[k + 1]
  {
    EachCommit(w, events, k);
    var s := AfterRun(w, events);
    if k < |s.log| && k > 0 {
      EachCommit(w, events, k - 1);
    }
    EachCommit(w, events, k + 1);
  }

  /** Main result 3. `started_at` is set exactly in the versions at or after the order entered
      in_progress, and `completed_at` exactly in completed versions. */
  lemma {:induction false} StampsTellHistory(w: Order, events: seq<Event<Op>>, k: nat)
    requires New(w)
    ensures var s := AfterRun(w, events);
      k < |s.hist| ==>
        && (s.hist[k].started.Some? <==> exists i :: 0 <= i <= k && s.hist[i].status == WInProgress)
        && (s.hist[k].completed.Some? <==> s.hist[k].status == WCompleted)
  {
    EachCommit(w, events, 0);
    if k > 0 {
      StampsTellHistory(w, events, k - 1);
      EachCommit(w, events, k - 1);
      var s := AfterRun(w, events);
      if k < |s.hist| && s.hist[k].started.Some? && s.hist[k].status != WInProgress {
        var i :| 0 <= i <= k - 1 && s.hist[i].status == WInProgress;
        assert 0 <= i <= k;
      }
    }
  }

  /** How far along the table a status is. */
  function Rank(s: OrderStatus): nat {
    match s
    case WCreated => 0
    case WAssigned => 1
    case WInProgress => 2
    case _ => 3
  }

  function StatusChanges(hist: seq<Order>, n: nat): nat
    requires n < |hist|
  {
    if n == 0 then 0
    else StatusChanges(hist, n - 1) + if hist[n - 1].status != hist[n].status then 1 else 0
  }

  /** Main result 4. An order changes status at most three times, however often it is written. */
  lemma {:induction false} AtMostThreeStatusChanges(w: Order, events: seq<Event<Op>>, n: nat)
    ensures var s := AfterRun(w, events);
      n < |s.hist| ==> StatusChanges(s.hist, n) + Rank(w.status) <= Rank(s.hist[n].status) <= 3
  {
    EachCommit(w, events, n);
    if n > 0 {
      AtMostThreeStatusChanges(w, events, n - 1);
      EachCommit(w, events, n - 1);
    }
  }

  // ---- the service calls themselves, with other clients between their statements

  /** Assign, StartProgress and Cancel: read, check the table, one guarded update. `others` are the
      updates that win between the read and the write. */
  method Transition(row: SharedRow?<Order>, sm: StateMachine<OrderStatus>, op: Op, others: seq<Order>)
    returns (r: Result<Unit>)
    requires row != null ==> row.Valid()
    requires !op.Complete?
    requires forall a, b :: sm.CanTransition(a, b) <==> OrderEdge(a, b)
    modifies row
    ensures row == null <==> r == Err(NotFound)
    ensures row != null ==> row.Valid()
    ensures row != null && !OrderEdge(old(row.body).status, Target(op)) ==>
      r == Err(InvalidTransition) && row.hist == old(row.hist)
    ensures row != null && OrderEdge(old(row.body).status, Target(op)) && others != [] ==>
      r == Err(Conflict) && row.hist == old(row.hist) + others
    ensures row != null && OrderEdge(old(row.body).status, Target(op)) && others == [] ==>
      r == Ok(Unit.Unit) && row.hist == old(row.hist) + Effects(Protocol(), Plan(op, old(row.body)), old(row.body))
    ensures r.Ok? ==>
      var w := old(row.body);
      row.hist == old(row.hist) + [
        if op.Assign? then w.(status := WAssigned)
        else if op.StartProgress? then w.(status := WInProgress, started := Some(op.stamp))
        else w.(status := WCancelled)]
  {
    if row == null {
      return Err(NotFound);
    }
    var w, version := row.body, row.version;
    var next := sm.MustTransition(w.status, Target(op));
    if next.Err? {
      return Err(InvalidTransition);
    }
    row.Others(others);
    var affected := row.Update(version, x => Apply(SetStatus(next.value, op.stamp), x));
    if affected == 0 {
      return Err(Conflict);
    }
    return Ok(Unit.Unit);
  }

  /** Complete succeeds exactly when nobody else wins an update between its read and its last write;
      then the new versions are the plan's effects. A first write that won is not undone. */
  method Complete(row: SharedRow?<Order>, sm: StateMachine<OrderStatus>, volume: int, stamp: int,
                  before: seq<Order>, between: seq<Order>)
    returns (r: Result<Unit>)
    requires row != null ==> row.Valid()
    requires forall a, b :: sm.CanTransition(a, b) <==> OrderEdge(a, b)
    modifies row
    ensures row == null <==> r == Err(NotFound)
    ensures row != null ==> row.Valid()
    ensures row != null && !OrderEdge(old(row.body).status, WCompleted) ==>
      r == Err(InvalidTransition) && row.hist == old(row.hist)
    ensures row != null && OrderEdge(old(row.body).status, WCompleted) ==>
      && (r == Ok(Unit.Unit) || r == Err(Conflict))
      && (r.Ok? <==> before == [] && between == [])
    ensures r.Ok? ==>
      row.hist == old(row.hist) + Effects(Protocol(), Plan(Op.Complete(volume, stamp), old(row.body)), old(row.body))
    ensures r.Ok? ==>
      var w := old(row.body);
      var done := w.(status := WCompleted, completed := Some(stamp));
      row.hist == old(row.hist) +
        if volume > 0 then [w.(volume := volume), done.(volume := volume)] else [done]
    ensures r == Err(Conflict) ==>
      row.hist == old(row.hist) + before
        + (if volume > 0 && before == [] then [old(row.body).(volume := volume)] else [])
        + (if volume > 0 && before != [] then [] else between)
  {
    if row == null {
      return Err(NotFound);
    }
    var w, version := row.body, row.version;
    var next := sm.MustTransition(w.status, WCompleted);
    if next.Err? {
      return Err(InvalidTransition);
    }
    ghost var op := Op.Complete(volume, stamp);
    row.Others(before);
    if volume > 0 {
      var affected := row.Update(version, x => Apply(SetVolume(volume), x));
      if affected == 0 {
        return Err(Conflict);
      }
      version := version + 1;
    }
    row.Others(between);
    var affected := row.Update(version, x => Apply(SetStatus(next.value, stamp), x));
    if affected == 0 {
      return Err(Conflict);
    }
    assert Effects(Protocol(), Plan(op, w), w) == row.hist[|old(row.hist)|..];
    return Ok(Unit.Unit);
  }
}
