/** Handover documents: a pending document is decided once. */
module Handovers {
  import opened Wrappers
  import opened StateMachines
  import opened OptimisticRow

  datatype Op = Confirm | Reject

  function Verdict(op: Op): HandoverStatus {
    if op.Confirm? then Confirmed else HRejected
  }

  /** The row's only mutable column is its status, and the only statement sets it. */
  function Plan(op: Op, h: HandoverStatus): seq<HandoverStatus> {
    if h != Pending then [] else [Verdict(op)]
  }

  function Protocol(): OptimisticRow.Protocol<Op, HandoverStatus, HandoverStatus, Unit> {
    OptimisticRow.Protocol((op, h) => Plan(op, h), (s, _) => s, (_, _) => None)
  }

  function AfterRun(events: seq<Event<Op>>): OptimisticRow.State<Op, HandoverStatus, Unit> {
    OptimisticRow.Run(Protocol(), Start(Pending), events)
  }

  /** In every run at most one decision wins, the status is that decision, and with no decision the
      document is still pending. */
  lemma DecidedOnce(events: seq<Event<Op>>)
    ensures var s := AfterRun(events);
      && |s.log| <= 1 && s.version == |s.log| + 1
      && s.body == (if s.log == [] then Pending else if s.log[0].op.Confirm? then Confirmed else HRejected)
  {
    var s, p := AfterRun(events), Protocol();
    RunKeepsInv(p, Pending, events);
    FirstVersion(p, Pending, events);
    assert |s.log| > 0 ==> Explained(p, s.hist, s.log, 0);
    assert |s.log| > 1 ==> Explained(p, s.hist, s.log, 1);
  }

  /** Every committed status change decides a pending document. */
  lemma StatusChangesAreEdges(events: seq<Event<Op>>, k: nat)
    ensures var s := AfterRun(events);
      |s.hist| == |s.log| + 1 && (k < |s.log| ==> HandoverEdge(s.hist[k], s.hist[k + 1]))
  {
    var s, p := AfterRun(events), Protocol();
    RunKeepsInv(p, Pending, events);
    if k < |s.log| {
      assert Explained(p, s.hist, s.log, k);
    }
  }

  /** Confirm and Reject, with the updates `others` that win between the read and the write. */
  method Decide(row: SharedRow?<HandoverStatus>, op: Op, others: seq<HandoverStatus>) returns (r: Result<Unit>)
    requires row != null ==> row.Valid()
    modifies row
    ensures row == null <==> r == Err(NotFound)
    ensures row != null ==> row.Valid()
    ensures row != null && old(row.body) != Pending ==> r == Err(InvalidTransition) && row.hist == old(row.hist)
    ensures row != null && old(row.body) == Pending ==>
      && r == (if others == [] then Ok(Unit.Unit) else Err(Conflict))
      && row.hist == old(row.hist)
           + (if others != [] then others else if op.Confirm? then [Confirmed] else [HRejected])
  {
    if row == null {
      return Err(NotFound);
    }
    var h, version := row.body, row.version;
    if h != Pending {
      return Err(InvalidTransition);
    }
    row.Others(others);
    var affected := row.Update(version, _ => Verdict(op));
    if affected == 0 {
      return Err(Conflict);
    }
    return Ok(Unit.Unit);
  }
}
