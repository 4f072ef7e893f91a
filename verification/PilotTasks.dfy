/** Pilot and tug tasks: the claim protocol of internal/pilottask/service.go over one task row. */
module PilotTasks {
  import opened Wrappers
  import opened StateMachines
  import opened OptimisticRow

  /** The mutable columns of a task. An executor is a string, "" meaning none. Expiry and creation
      times are whole seconds, as stored. */
  datatype Task = Task(
    status: PilotStatus,
    claimedBy: string,
    leaseId: Option<Id>,
    expires: Option<int>,
    priority: int,
    created: int)

  /** The UPDATE statements of internal/store/pilottask_repo.go. */
  datatype Stmt =
    | SetStatus(status: PilotStatus)
    | SetClaim(executor: string, lease: Id, expires: int)
    | ClearClaim

  /** The service operations. `leaseStored` says whether the INSERT of the lease will succeed, and
      `now` is the preempting scheduler's clock in whole seconds. */
  datatype Op =
    | Assign
    | Reassign
    | Claim(executor: string, lease: Id, expires: int, leaseStored: bool)
    | Report(executor: string)
    | Preempt(now: int)

  datatype Execution = Execution(executor: string)

  function Apply(s: Stmt, t: Task): Task {
    match s
    case SetStatus(status) => t.(status := status)
    case SetClaim(executor, lease, expires) =>
      t.(status := Claimed, claimedBy := executor, leaseId := Some(lease), expires := Some(expires))
    case ClearClaim => t.(status := PilotStatus.Preempted, claimedBy := "", leaseId := None, expires := None)
  }

  /** The WHERE clause of the expired-claims query. */
  predicate ExpiredClaim(t: Task, now: int) {
    t.expires.Some? && t.expires.value < now && t.status in {Claimed, InProgress}
  }

  function Plan(op: Op, t: Task): seq<Stmt> {
    match op
    case Assign => if PilotEdge(t.status, Assigned) then [SetStatus(Assigned)] else []
    case Reassign => if PilotEdge(t.status, Assigned) then [SetStatus(Assigned)] else []
    case Claim(executor, lease, expires, leaseStored) =>
      if executor == "" || t.status != Assigned then []
      else [SetClaim(executor, lease, expires)] + (if leaseStored then [] else [ClearClaim])
    case Report(executor) =>
      if executor == "" || t.claimedBy != executor || !PilotEdge(t.status, PilotStatus.Completed) then []
      else [SetStatus(PilotStatus.Completed)]
    case Preempt(now) => if ExpiredClaim(t, now) then [ClearClaim] else []
  }

  /** Only a report leaves a record: the execution, credited to the reporting executor. */
  function RecordOf(op: Op, t: Task): Option<Execution> {
    match op
    case Report(executor) => Some(Execution(executor))
    case _ => None
  }

  function Protocol(): OptimisticRow.Protocol<Op, Stmt, Task, Execution> {
    OptimisticRow.Protocol((op, t) => Plan(op, t), (s, t) => Apply(s, t), (op, t) => RecordOf(op, t))
  }

  type Run = OptimisticRow.State<Op, Task, Execution>

  /** The claim columns are set exactly while a claim is held or has been completed. */
  predicate ClaimColumnsAgree(t: Task) {
    && (t.claimedBy != "" <==> t.status in {Claimed, InProgress, PilotStatus.Completed})
    && (t.expires.Some? <==> t.claimedBy != "")
    && (t.leaseId.Some? <==> t.claimedBy != "")
  }

  predicate New(t: Task) {
    t.status == Created && ClaimColumnsAgree(t)
  }

  function AfterRun(t: Task, events: seq<Event<Op>>): Run {
    OptimisticRow.Run(Protocol(), Start(t), events)
  }

  predicate ClaimWon(c: Commit<Op>) { c.op.Claim? && c.index == 0 }
  predicate ClaimCleared(c: Commit<Op>) { c.op.Preempt? || (c.op.Claim? && c.index == 1) }
  predicate MadeAssigned(c: Commit<Op>) { c.op.Assign? || c.op.Reassign? }

  /** What one commit did to the row, told by the operation it belongs to. */
  ghost predicate Did(c: Commit<Op>, old_: Task, new_: Task) {
    match c.op
    case Assign => PilotEdge(old_.status, Assigned) && new_ == old_.(status := Assigned)
    case Reassign => PilotEdge(old_.status, Assigned) && new_ == old_.(status := Assigned)
    case Claim(executor, lease, expires, leaseStored) =>
      if c.index == 0 then
        executor != "" && old_.status == Assigned
        && new_ == Task(Claimed, executor, Some(lease), Some(expires), old_.priority, old_.created)
      else
        c.index == 1 && !leaseStored && old_.status == Claimed && old_.claimedBy == executor
        && new_ == Task(PilotStatus.Preempted, "", None, None, old_.priority, old_.created)
    case Report(executor) =>
      executor != "" && old_.claimedBy == executor && PilotEdge(old_.status, PilotStatus.Completed)
      && new_ == old_.(status := PilotStatus.Completed)
    case Preempt(now) =>
      && old_.expires.Some? && old_.expires.value < now && old_.status in {Claimed, InProgress}
      && new_ == Task(PilotStatus.Preempted, "", None, None, old_.priority, old_.created)
  }

  /** Although an UPDATE checks only the version, it acts on a row for which its service's check holds. */
  lemma EachCommit(t: Task, events: seq<Event<Op>>, k: nat)
    ensures var s := AfterRun(t, events);
      |s.hist| == |s.log| + 1 && s.hist[|s.log|] == s.body
    ensures var s := AfterRun(t, events);
      k < |s.log| ==>
        Did(s.log[k], s.hist[k], s.hist[k + 1]) && (s.log[k].index == 0 ==> s.log[k].read == k + 1)
        && (s.log[k].index == 1 ==> k > 0 && s.log[k - 1] == s.log[k].(index := 0))
  {
    var s, p := AfterRun(t, events), Protocol();
    RunKeepsInv(p, t, events);
    if k < |s.log| {
      assert Explained(p, s.hist, s.log, k);
      if s.log[k].index == 1 {
        assert Explained(p, s.hist, s.log, k - 1);
      }
    }
  }

  lemma {:induction false} ColumnsAgree(t: Task, events: seq<Event<Op>>, k: nat)
    requires New(t)
    ensures var s := AfterRun(t, events);
      k < |s.hist| ==> ClaimColumnsAgree(s.hist[k]) && (s.hist[k].status == Created <==> k == 0)
  {
    RunKeepsInv(Protocol(), t, events);
    if k > 0 {
      ColumnsAgree(t, events, k - 1);
      EachCommit(t, events, k - 1);
    } else {
      FirstVersion(Protocol(), t, events);
    }
  }

  /** Main result 1. Every committed status change is an edge of the transition table. */
  lemma StatusChangesAreEdges(t: Task, events: seq<Event<Op>>, k: nat)
    ensures var s := AfterRun(t, events);
      k < |s.log| ==> k + 1 < |s.hist| && PilotEdge(s.hist[k].status, s.hist[k + 1].status)
  {
    EachCommit(t, events, k);
  }

  /** Main result 2. A completed row never changes again: it is the last version there is. */
  lemma CompletedIsFinal(t: Task, events: seq<Event<Op>>, k: nat)
    ensures var s := AfterRun(t, events);
      k < |s.hist| && s.hist[k].status == PilotStatus.Completed ==> k == |s.log| && s.body == s.hist[k]
  {
    EachCommit(t, events, k);
  }

  /** Main result 3. A report wins at most once in the life of a task, and it is the last commit. The
      executor it names is the one in `claimed_by` at the version it replaced. */
  lemma ReportsWinOnce(t: Task, events: seq<Event<Op>>, i: nat, j: nat)
    ensures var s := AfterRun(t, events);
      i < |s.log| && j < |s.log| && s.log[i].op.Report? && s.log[j].op.Report? ==>
        && i == j == |s.log| - 1 && i < |s.hist|
        && s.hist[i].claimedBy == s.log[i].op.executor && s.body.status == PilotStatus.Completed
  {
    EachCommit(t, events, i);
    EachCommit(t, events, j);
    CompletedIsFinal(t, events, i + 1);
    CompletedIsFinal(t, events, j + 1);
  }

  lemma EachExecution(t: Task, events: seq<Event<Op>>, i: nat)
    ensures var s := AfterRun(t, events);
      i < |s.notes| ==>
        && s.notes[i].commit == |s.log| - 1 && s.log != [] && s.log[|s.log| - 1].op == Report(s.body.claimedBy)
        && s.body.status == PilotStatus.Completed && s.notes[i].content == Execution(s.body.claimedBy)
  {
    var s := AfterRun(t, events);
    RunKeepsInv(Protocol(), t, events);
    if i < |s.notes| {
      assert Earned(Protocol(), s, i);
      EachCommit(t, events, s.notes[i].commit);
      ReportsWinOnce(t, events, s.notes[i].commit, s.notes[i].commit);
    }
  }

  /** Main result 4. There is at most one execution record, and it is credited to the executor that
      held the claim when the task was completed. */
  lemma ExecutedOnce(t: Task, events: seq<Event<Op>>)
    ensures var s := AfterRun(t, events);
      && |s.notes| <= 1
      && (|s.notes| == 1 ==>
            s.body.status == PilotStatus.Completed && s.notes[0].content == Execution(s.body.claimedBy)
            && s.log != [] && s.log[|s.log| - 1].op == Report(s.body.claimedBy))
  {
    RunKeepsInv(Protocol(), t, events);
    EachExecution(t, events, 0);
    EachExecution(t, events, 1);
  }

  /** Main result 5. Operations that read the same version cannot both win on it; in particular a
      report and a preemption that race on one claim cannot both win. */
  lemma RacersOnOneVersion(t: Task, events: seq<Event<Op>>, i: nat, j: nat)
    ensures var s := AfterRun(t, events);
      i < |s.log| && j < |s.log| && s.log[i].read == s.log[j].read && s.log[i].index == 0 && s.log[j].index == 0 ==>
        i == j
  {
    EachCommit(t, events, i);
    EachCommit(t, events, j);
  }

  function Balance(c: Commit<Op>): int {
    if ClaimWon(c) then 1 else if ClaimCleared(c) then -1 else 0
  }

  /** Claims won minus claims cleared, over the first n commits. */
  function OpenClaims(log: seq<Commit<Op>>, n: nat): int
    requires n <= |log|
  {
    if n == 0 then 0 else OpenClaims(log, n - 1) + Balance(log[n - 1])
  }

  /** Main result 6. At every version of every run the balance of claims is 1 if the row names a holder
      and 0 otherwise. */
  lemma {:induction false} ClaimBalance(t: Task, events: seq<Event<Op>>, n: nat)
    requires New(t)
    ensures var s := AfterRun(t, events);
      n <= |s.log| ==> n < |s.hist| && OpenClaims(s.log, n) == (if s.hist[n].claimedBy != "" then 1 else 0)
  {
    EachCommit(t, events, n);
    ColumnsAgree(t, events, n);
    if n > 0 {
      ClaimBalance(t, events, n - 1);
      EachCommit(t, events, n - 1);
      ColumnsAgree(t, events, n - 1);
    }
  }

  /** Main result 7. A second claim is immediately preceded by a clearing and then an assignment, both
      later than the first claim: no claim takes a task from a live holder. */
  lemma ReclaimNeedsClearing(t: Task, events: seq<Event<Op>>, i: nat, j: nat)
    requires New(t)
    ensures var s := AfterRun(t, events);
      i < j < |s.log| && ClaimWon(s.log[i]) && ClaimWon(s.log[j]) ==>
        i < j - 2 && ClaimCleared(s.log[j - 2]) && MadeAssigned(s.log[j - 1])
  {
    var s := AfterRun(t, events);
    EachCommit(t, events, i);
    EachCommit(t, events, j);
    if i < j < |s.log| && ClaimWon(s.log[i]) && ClaimWon(s.log[j]) {
      EachCommit(t, events, j - 1);
      ColumnsAgree(t, events, j - 1);
      EachCommit(t, events, j - 2);
    }
  }
}
