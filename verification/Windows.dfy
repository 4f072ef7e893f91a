/** Berthing windows: activation, release, intervention and deadline escalation. */
module Windows {
  import opened Wrappers
  import opened StateMachines
  import opened Runs
  import opened OptimisticRow

  datatype Assignee = Nobody | LevelAssignee(level: nat)

  /** The mutable columns and the two instants, stored as whole seconds. */
  datatype Window = Window(
    status: WindowStatus,
    level: nat,
    assignee: Assignee,
    effective: int,
    deadline: int)

  datatype Stmt =
    | SetStatus(status: WindowStatus)
    | SetAssigned(assignee: Assignee, level: nat)

  /** `now` is a clock reading in nanoseconds. */
  datatype Op =
    | Activate(now: int)
    | Escalate(now: int)
    | Release
    | Force(target: WindowStatus)

  datatype Escalation = Escalation(from: nat, to: nat)

  /** Windows the activation step picks: allocated, and inside [effective, deadline). */
  predicate Activatable(w: Window, now: int) {
    w.status == Allocated && w.effective * SECOND <= now < w.deadline * SECOND
  }

  /** The WHERE clause of the expired-windows query; its `now` is cut to whole seconds. */
  predicate Overdue(w: Window, now: int) {
    w.deadline < now / SECOND && w.status in {Effective, Occupied, Escalated}
  }

  function Apply(s: Stmt, w: Window): Window {
    match s
    case SetStatus(status) => w.(status := status)
    case SetAssigned(assignee, level) => w.(assignee := assignee, level := level, status := Escalated)
  }

  function Plan(op: Op, w: Window): seq<Stmt> {
    match op
    case Activate(now) => if Activatable(w, now) then [SetStatus(Effective)] else []
    case Escalate(now) => if Overdue(w, now) then [SetAssigned(LevelAssignee(w.level + 1), w.level + 1)] else []
    case Release => if WindowEdge(w.status, Released) then [SetStatus(Released)] else []
    case Force(target) => if WindowEdge(w.status, target) then [SetStatus(target)] else []
  }

  function RecordOf(op: Op, w: Window): Option<Escalation> {
    if op.Escalate? then Some(Escalation(w.level, w.level + 1)) else None
  }

  function Protocol(): OptimisticRow.Protocol<Op, Stmt, Window, Escalation> {
    OptimisticRow.Protocol((op, w) => Plan(op, w), (s, w) => Apply(s, w), (op, w) => RecordOf(op, w))
  }

  type Run = OptimisticRow.State<Op, Window, Escalation>

  function AfterRun(w: Window, events: seq<Event<Op>>): Run {
    OptimisticRow.Run(Protocol(), Start(w), events)
  }

  predicate New(w: Window) {
    w.status == Allocated && w.level == 0 && w.assignee == Nobody
  }

  /** An escalation raises the level by one; anything else moves the status along the table only, to the
      operation's own target. */
  lemma EachCommit(w: Window, events: seq<Event<Op>>, k: nat)
    ensures var s := AfterRun(w, events);
      |s.hist| == |s.log| + 1 && s.hist[|s.log|] == s.body && s.hist[0] == w
    ensures var s := AfterRun(w, events);
      k < |s.log| ==>
        var a, b := s.hist[k], s.hist[k + 1];
        && s.log[k].read == k + 1 && s.log[k].index == 0
        && b.effective == a.effective && b.deadline == a.deadline
        && (if s.log[k].op.Escalate? then
              && a.status in {Effective, Occupied, Escalated} && b.status == Escalated
              && (a.deadline + 1) * 1_000_000_000 <= s.log[k].op.now
              && b.level == a.level + 1 && b.assignee == LevelAssignee(b.level)
            else
              && WindowEdge(a.status, b.status) && b.level == a.level && b.assignee == a.assignee
              && b.status == (match s.log[k].op
                              case Activate(_) => Effective
                              case Release => Released
                              case Force(target) => target
                              case Escalate(_) => Escalated)
              && (s.log[k].op.Activate? ==>
                    && a.status == Allocated
                    && a.effective * 1_000_000_000 <= s.log[k].op.now < a.deadline * 1_000_000_000))
  {
    var s, p := AfterRun(w, events), Protocol();
    RunKeepsInv(p, w, events);
    FirstVersion(p, w, events);
    if k < |s.log| {
      assert Explained(p, s.hist, s.log, k);
      if s.log[k].op.Escalate? {
        OverdueMeaning(s.hist[k], s.log[k].op.now);
      }
    }
  }

  /** Main result 1. Every committed status change is an edge of the table, except that an escalation
      may rewrite escalated to escalated, which the table does not list. */
  lemma StatusChangesAreEdges(w: Window, events: seq<Event<Op>>, k: nat)
    ensures var s := AfterRun(w, events);
      k < |s.log| ==>
        && k + 1 < |s.hist|
        && var a, b := s.hist[k].status, s.hist[k + 1].status;
        && (WindowEdge(a, b) || (s.log[k].op.Escalate? && a == b == Escalated))
        && !WindowEdge(Escalated, Escalated)
  {
    EachCommit(w, events, k);
  }

  /** The exception happens: a new window is activated, escalated, and escalated again. */
  lemma EscalatedAgain(w: Window, late: int)
    requires New(w) && w.effective < w.deadline && (w.deadline + 1) * SECOND <= late
    ensures var early := w.effective * SECOND;
      var s := AfterRun(w, [Read(0, Activate(early)), Write(0), Read(0, Escalate(late)), Write(0)]
                           + [Read(0, Escalate(late)), Write(0)]);
      && |s.hist| == 4 && s.hist[2].status == s.hist[3].status == Escalated
      && |s.log| == 3 && s.log[2].op.Escalate? && s.body.level == 2
  {
    var p, early := Protocol(), w.effective * SECOND;
    OverdueMeaning(w.(status := Effective), late);
    var a := Next(p, Next(p, Start(w), Read(0, Activate(early))), Write(0));
    assert a.body == w.(status := Effective) && a.version == 2 && a.hist == [w, a.body] && |a.log| == 1;
    var b := Next(p, Next(p, a, Read(0, Escalate(late))), Write(0));
    assert b.body == Apply(SetAssigned(LevelAssignee(1), 1), a.body) && b.version == 3 && |b.log| == 2;
    assert b.hist == [w, a.body, b.body];
    OverdueMeaning(b.body, late);
    var first := [Read(0, Activate(early)), Write(0), Read(0, Escalate(late)), Write(0)];
    RunOfFour(p, w, Read(0, Activate(early)), Write(0), Read(0, Escalate(late)), Write(0));
    RunAppend(NextOf(p), Start(w), first, Read(0, Escalate(late)));
    RunAppend(NextOf(p), Start(w), first + [Read(0, Escalate(late))], Write(0));
    assert first + [Read(0, Escalate(late)), Write(0)] == first + [Read(0, Escalate(late))] + [Write(0)];
  }

  function Escalations(log: seq<Commit<Op>>, n: nat): nat
    requires n <= |log|
  {
    if n == 0 then 0 else Escalations(log, n - 1) + if log[n - 1].op.Escalate? then 1 else 0
  }

  /** Main result 2. A window's level is the number of escalations that won, and names its assignee. */
  lemma {:induction false} LevelCountsEscalations(w: Window, events: seq<Event<Op>>, n: nat)
    requires New(w)
    ensures var s := AfterRun(w, events);
      n <= |s.log| ==>
        && n < |s.hist| && s.hist[n].level == Escalations(s.log, n)
        && s.hist[n].assignee == (if s.hist[n].level == 0 then Nobody else LevelAssignee(s.hist[n].level))
  {
    EachCommit(w, events, n);
    if n > 0 {
      LevelCountsEscalations(w, events, n - 1);
      EachCommit(w, events, n - 1);
    }
  }

  lemma {:induction false} LevelsGrow(w: Window, events: seq<Event<Op>>, i: nat, j: nat)
    ensures var s := AfterRun(w, events);
      i < j < |s.hist| ==>
        && i < |s.log|
        && s.hist[i].level <= s.hist[j].level
        && (s.log[i].op.Escalate? ==> s.hist[i].level < s.hist[j].level)
    decreases j
  {
    EachCommit(w, events, i);
    if i + 1 < j {
      LevelsGrow(w, events, i, j - 1);
    }
    if i < j {
      EachCommit(w, events, j - 1);
    }
  }

  /** Main result 3. Whatever the interleaving, and even if some records are lost, the escalation
      records are single steps below the window's level and no step is recorded twice. */
  lemma RecordsAreDistinctSteps(w: Window, events: seq<Event<Op>>, i: nat, j: nat)
    ensures var s := AfterRun(w, events);
      && (i < |s.notes| ==> s.notes[i].content.from < s.notes[i].content.to <= s.body.level
                            && s.notes[i].content.to == s.notes[i].content.from + 1)
      && (i < j < |s.notes| ==> s.notes[i].content != s.notes[j].content)
  {
    var s, p := AfterRun(w, events), Protocol();
    RunKeepsInv(p, w, events);
    EachCommit(w, events, 0);
    if i < |s.notes| {
      assert Earned(p, s, i);
      var k := s.notes[i].commit;
      EachCommit(w, events, k);
      LevelsGrow(w, events, k, |s.log|);
      if i < j < |s.notes| {
        assert Earned(p, s, j);
        var m := s.notes[j].commit;
        EachCommit(w, events, m);
        LevelsGrow(w, events, k, m);
        LevelsGrow(w, events, m, k);
      }
    }
  }

  /** The text comparison of the query works on whole seconds: a window in a live status is overdue
      exactly when the second after its deadline has begun. */
  lemma OverdueMeaning(w: Window, now: int)
    ensures Overdue(w, now) <==> (w.deadline + 1) * SECOND <= now && w.status in {Effective, Occupied, Escalated}
  {
    var q, r := now / SECOND, now % SECOND;
    assert now == q * SECOND + r && 0 <= r < SECOND;
  }

  /** With one reading of the clock, no window is both activated and escalated. */
  lemma ActivatedIsNotOverdue(w: Window, now: int)
    requires Activatable(w, now)
    ensures !Overdue(w.(status := Effective), now)
  {
    OverdueMeaning(w.(status := Effective), now);
  }
}
