/** Arrival declarations after submission: cancelling, re-prioritising and queue promotion. */
module Declarations {
  import opened Wrappers
  import opened StateMachines
  import opened OptimisticRow
  import opened Selection

  datatype Decl = Decl(status: DeclStatus, priority: int, created: int)

  datatype Stmt = SetStatus(status: DeclStatus) | SetPriority(priority: int)

  datatype Op = Cancel | UpdatePriority(priority: int) | Advance

  function Apply(s: Stmt, d: Decl): Decl {
    match s
    case SetStatus(status) => d.(status := status)
    case SetPriority(priority) => d.(priority := priority)
  }

  /** Advance acts on a row that the queue listing returned, so on a queued one. */
  function Plan(op: Op, d: Decl): seq<Stmt> {
    match op
    case Cancel => if DeclEdge(d.status, DCancelled) then [SetStatus(DCancelled)] else []
    case UpdatePriority(p) => if p < 1 || p > 10 then [] else [SetPriority(p)]
    case Advance => if d.status == Queued && DeclEdge(d.status, Scheduled) then [SetStatus(Scheduled)] else []
  }

  function Protocol(): OptimisticRow.Protocol<Op, Stmt, Decl, Unit> {
    OptimisticRow.Protocol((op, d) => Plan(op, d), (s, d) => Apply(s, d), (_, _) => None)
  }

  type Run = OptimisticRow.State<Op, Decl, Unit>

  function AfterRun(d: Decl, events: seq<Event<Op>>): Run {
    OptimisticRow.Run(Protocol(), Start(d), events)
  }

  /** Main result 1. Every commit of Cancel moves the status along the table to cancelled, every one of
      Advance from queued to scheduled, and both leave the rest; UpdatePriority sets only the priority, to
      the value asked for, from 1 to 10. */
  lemma EachCommit(d: Decl, events: seq<Event<Op>>, k: nat)
    ensures var s := AfterRun(d, events);
      |s.hist| == |s.log| + 1 && s.hist[|s.log|] == s.body && s.hist[0] == d
    ensures var s := AfterRun(d, events);
      k < |s.log| ==>
        var a, b := s.hist[k], s.hist[k + 1];
        match s.log[k].op
        case Cancel => DeclEdge(a.status, b.status) && b == a.(status := DCancelled)
        case Advance => a.status == Queued && DeclEdge(a.status, b.status) && b == a.(status := Scheduled)
        case UpdatePriority(priority) => 1 <= priority <= 10 && b == a.(priority := priority)
  {
    var s, p := AfterRun(d, events), Protocol();
    RunKeepsInv(p, d, events);
    FirstVersion(p, d, events);
    if k < |s.log| {
      assert Explained(p, s.hist, s.log, k);
    }
  }

  function Rank(s: DeclStatus): nat {
    match s
    case Draft => 0
    case Submitted => 0
    case Reviewing => 1
    case Accepted => 2
    case Queued => 3
    case Scheduled => 4
    case Processing => 5
    case _ => 6
  }

  function StatusChanges(hist: seq<Decl>, n: nat): nat
    requires n < |hist|
  {
    if n == 0 then 0
    else StatusChanges(hist, n - 1) + if hist[n - 1].status != hist[n].status then 1 else 0
  }

  /** Versions whose status stays or moves along the table, whoever wrote them. */
  predicate FollowsTable(hist: seq<Decl>) {
    forall k :: 0 <= k < |hist| - 1 ==>
      hist[k].status == hist[k + 1].status || DeclEdge(hist[k].status, hist[k + 1].status)
  }

  /** Main result 2. A declaration that follows the table, with whatever calls, changes status at most six
      times in its life. */
  lemma {:induction false} AtMostSixStatusChanges(hist: seq<Decl>, n: nat)
    requires FollowsTable(hist) && n < |hist|
    ensures StatusChanges(hist, n) + Rank(hist[0].status) <= Rank(hist[n].status) <= 6
  {
    if n > 0 {
      AtMostSixStatusChanges(hist, n - 1);
    }
  }

  /** Six is the exact bound: this life has six changes. */
  lemma SixChangesAreAllowed(d: Decl) returns (life: seq<Decl>)
    ensures |life| == 7 && FollowsTable(life) && StatusChanges(life, 6) == 6
  {
    life := [d.(status := Submitted), d.(status := Reviewing), d.(status := Accepted), d.(status := Queued),
             d.(status := Scheduled), d.(status := Processing), d.(status := DCompleted)];
    assert StatusChanges(life, 1) == 1;
    assert StatusChanges(life, 2) == 2;
    assert StatusChanges(life, 3) == 3;
    assert StatusChanges(life, 4) == 4;
    assert StatusChanges(life, 5) == 5;
  }

  /** The lives the service calls give a declaration follow the table. */
  lemma RunsFollowTable(d: Decl, events: seq<Event<Op>>)
    ensures FollowsTable(AfterRun(d, events).hist)
  {
    var s := AfterRun(d, events);
    EachCommit(d, events, 0);
    forall k | 0 <= k < |s.hist| - 1
      ensures s.hist[k].status == s.hist[k + 1].status || DeclEdge(s.hist[k].status, s.hist[k + 1].status)
    {
      EachCommit(d, events, k);
    }
  }

  /** The changes that Cancel and Advance have left in a status. */
  function Spent(s: DeclStatus): nat {
    match s
    case Queued => 0
    case DCancelled => 2
    case _ => 1
  }

  /** Main result 3. The calls modelled here change a declaration's status at most twice, and only once
      unless it was queued. */
  lemma {:induction false} AtMostTwoStatusChanges(d: Decl, events: seq<Event<Op>>, n: nat)
    ensures var s := AfterRun(d, events);
      n < |s.hist| ==> StatusChanges(s.hist, n) + Spent(d.status) <= Spent(s.hist[n].status) <= 2
  {
    EachCommit(d, events, n);
    if n > 0 {
      AtMostTwoStatusChanges(d, events, n - 1);
      EachCommit(d, events, n - 1);
    }
  }

  /** Two is the exact bound: a queued declaration is scheduled and then cancelled. */
  lemma TwoChangesHappen(d: Decl)
    requires d.status == Queued
    ensures var s := AfterRun(d, [Read(0, Advance), Write(0), Read(0, Cancel), Write(0)]);
      s.hist == [d, d.(status := Scheduled), d.(status := DCancelled)]
  {
    var p := Protocol();
    var a := Next(p, Next(p, Start(d), Read(0, Advance)), Write(0));
    assert a.body == d.(status := Scheduled) && a.hist == [d, a.body] && a.version == 2;
    var b := Next(p, Next(p, a, Read(0, Cancel)), Write(0));
    assert b.hist == [d, a.body, d.(status := DCancelled)];
    RunOfFour(p, d, Read(0, Advance), Write(0), Read(0, Cancel), Write(0));
  }

  // ---- the queue

  type Table = map<Id, Stored<Decl>>

  /** The queue: queued declarations with their ORDER BY columns. */
  function Queue(t: Table): map<Id, Key> {
    map id | id in t && t[id].body.status == Queued :: (t[id].body.priority, t[id].body.created)
  }

  function Promoted(r: Stored<Decl>): Stored<Decl> {
    Stored(r.version + 1, r.body.(status := Scheduled))
  }

  /** What other clients can make of a table: rows appear, and a row whose version has not moved is
      unchanged. */
  ghost predicate Later(t: Table, u: Table) {
    forall id :: id in t ==>
      id in u && t[id].version <= u[id].version && (t[id].version == u[id].version ==> u[id] == t[id])
  }

  /** At the head of the queue: nothing queued comes before it. */
  ghost predicate Heads(t: Table, id: Id) {
    id in Queue(t) && forall o :: o in Queue(t) ==> !Before(Queue(t)[o], Queue(t)[id])
  }

  /** A queued declaration such that no other queued one has a lower priority number, or the same and is
      older. */
  ghost predicate FirstQueued(t: Table, id: Id) {
    && id in t && t[id].body.status == Queued
    && forall o :: o in t && t[o].body.status == Queued ==>
         t[id].body.priority < t[o].body.priority
         || (t[id].body.priority == t[o].body.priority && t[id].body.created <= t[o].body.created)
  }

  lemma HeadIsFirst(t: Table, id: Id)
    requires Heads(t, id)
    ensures FirstQueued(t, id)
  {
    forall o | o in t && t[o].body.status == Queued ensures !Before(Queue(t)[o], Queue(t)[id]) {
      assert o in Queue(t);
    }
  }

  lemma NoneQueued(t: Table)
    requires Queue(t) == map[]
    ensures forall id :: id in t ==> t[id].body.status != Queued
  {
    forall id | id in t ensures t[id].body.status != Queued {
      assert id !in Queue(t);
    }
  }

  /** The rows of `promoted` were queued and are scheduled, one version later, in order of priority and
      then age, and before all that is still queued; no other row has changed. */
  ghost predicate Scheduling(start: Table, t: Table, promoted: seq<Id>) {
    && t.Keys == start.Keys && Distinct(promoted)
    && (forall id :: id in promoted ==>
          && id in start && start[id].body.status == Queued
          && t[id] == Stored(start[id].version + 1, start[id].body.(status := Scheduled)))
    && (forall id :: id in start && id !in promoted ==> t[id] == start[id])
    && (forall j, k :: 0 <= j < k < |promoted| ==> NoLater(start[promoted[j]].body, start[promoted[k]].body))
    && (forall j, id :: 0 <= j < |promoted| && id in t && t[id].body.status == Queued ==>
          NoLater(start[promoted[j]].body, t[id].body))
  }

  /** Lower in priority number, or the same and no younger. */
  predicate NoLater(a: Decl, b: Decl) {
    a.priority < b.priority || (a.priority == b.priority && a.created <= b.created)
  }

  lemma EmptyingSchedules(start: Table, t: Table, promoted: seq<Id>)
    requires Emptying(start, t, promoted)
    ensures Scheduling(start, t, promoted)
  {
    forall id | id in promoted ensures id in Queue(start) {
    }
    forall id | id in t && t[id].body.status == Queued ensures id in Queue(t) {
    }
  }

  /** Part-way through emptying the queue of `start`: `promoted` has been taken off, in order. */
  ghost predicate Emptying(start: Table, t: Table, promoted: seq<Id>) {
    var queue := Queue(start);
    && t.Keys == start.Keys
    && (forall id :: id in t ==> t[id] == if id in promoted then Promoted(start[id]) else start[id])
    && (forall k :: 0 <= k < |promoted| ==> promoted[k] in queue)
    && (forall j, k :: 0 <= j < k < |promoted| ==>
          promoted[j] != promoted[k] && !Before(queue[promoted[k]], queue[promoted[j]]))
    && (forall k, id :: 0 <= k < |promoted| && id in Queue(t) ==> !Before(Queue(t)[id], queue[promoted[k]]))
    && |promoted| + |Queue(t)| == |queue|
  }

  /** Promoting takes exactly that declaration off the queue. */
  lemma PromotedLeaves(t: Table, id: Id)
    requires id in Queue(t)
    ensures Queue(t[id := Promoted(t[id])]) == Queue(t) - {id}
    ensures |Queue(t[id := Promoted(t[id])])| == |Queue(t)| - 1
  {
    assert Queue(t[id := Promoted(t[id])]).Keys == Queue(t).Keys - {id};
  }

  /** Promoting the head keeps the promoted ones in order, before everything still queued. */
  lemma EmptyingStep(start: Table, t: Table, promoted: seq<Id>, id: Id)
    requires Emptying(start, t, promoted) && Heads(t, id)
    ensures Emptying(start, t[id := Promoted(t[id])], promoted + [id])
  {
    PromotedLeaves(t, id);
    StillQueued(start, t, promoted, id);
    EmptyingOrder(start, t, promoted, id);
  }

  lemma StillQueued(start: Table, t: Table, promoted: seq<Id>, o: Id)
    requires Emptying(start, t, promoted) && o in Queue(t)
    ensures o !in promoted && t[o] == start[o] && o in Queue(start) && Queue(t)[o] == Queue(start)[o]
  {
  }

  lemma EmptyingOrder(start: Table, t: Table, promoted: seq<Id>, id: Id)
    requires Emptying(start, t, promoted) && Heads(t, id)
    ensures var queue, more := Queue(start), promoted + [id];
      && (forall k :: 0 <= k < |more| ==> more[k] in queue)
      && (forall j, k :: 0 <= j < k < |more| ==> more[j] != more[k] && !Before(queue[more[k]], queue[more[j]]))
      && (forall k, o :: 0 <= k < |more| && o in Queue(t) ==> !Before(Queue(t)[o], queue[more[k]]))
  {
    StillQueued(start, t, promoted, id);
  }

  lemma EmptyingEnds(start: Table, t: Table, promoted: seq<Id>)
    requires Emptying(start, t, promoted) && Queue(t) == map[]
    ensures Ordered(Queue(start), promoted)
    ensures forall id :: id in t ==> t[id] == if id in Queue(start) then Promoted(start[id]) else start[id]
  {
    forall id | id in Queue(start) ensures id in promoted {
      assert id !in Queue(t);
    }
  }

  class DeclStore {
    var decls: Table

    constructor (t: Table)
      ensures decls == t
    {
      decls := t;
    }

    method ListByStatus(status: DeclStatus) returns (ids: seq<Id>)
      ensures Ordered(map id | id in decls && decls[id].body.status == status
                        :: (decls[id].body.priority, decls[id].body.created), ids)
    {
      ids := OrderBy(map id | id in decls && decls[id].body.status == status
                       :: (decls[id].body.priority, decls[id].body.created));
    }

    method UpdateStatus(id: Id, status: DeclStatus, version: Version) returns (affected: nat)
      modifies this
      ensures affected == if id in old(decls) && old(decls)[id].version == version then 1 else 0
      ensures decls == if affected == 0 then old(decls)
                       else old(decls)[id := Stored(version + 1, old(decls)[id].body.(status := status))]
    {
      if id !in decls || decls[id].version != version {
        return 0;
      }
      decls := decls[id := Stored(version + 1, decls[id].body.(status := status))];
      return 1;
    }

    method SetPriorityOf(id: Id, priority: int, version: Version) returns (affected: nat)
      modifies this
      ensures affected == if id in old(decls) && old(decls)[id].version == version then 1 else 0
      ensures decls == if affected == 0 then old(decls)
                       else old(decls)[id := Stored(version + 1, old(decls)[id].body.(priority := priority))]
    {
      if id !in decls || decls[id].version != version {
        return 0;
      }
      decls := decls[id := Stored(version + 1, decls[id].body.(priority := priority))];
      return 1;
    }

    /** A single-row call, Cancel or UpdatePriority, with `meanwhile` what other clients make of the table
        between its read and its write. It wins exactly when its row is still the one it read, and then
        its effect is its plan's on that row; a call that is refused or loses changes nothing. */
    method Change(id: Id, op: Op, sm: StateMachine<DeclStatus>, meanwhile: Table) returns (r: Result<Unit>)
      requires !op.Advance? && forall a, b :: sm.CanTransition(a, b) <==> DeclEdge(a, b)
      requires Later(decls, meanwhile)
      modifies this
      ensures id !in old(decls) <==> r == Err(NotFound)
      ensures r == Err(InvalidTransition) <==>
        id in old(decls) && op.Cancel? && !DeclEdge(old(decls)[id].body.status, DCancelled)
      ensures r == Err(ValidationFailed) <==>
        id in old(decls) && op.UpdatePriority? && (op.priority < 1 || op.priority > 10)
      ensures id in old(decls) && Plan(op, old(decls)[id].body) != [] ==>
        r == if meanwhile[id] == old(decls)[id] then Ok(Unit.Unit) else Err(Conflict)
      ensures r.Ok? ==> decls == meanwhile[id := Stored(meanwhile[id].version + 1,
                                                        Apply(Plan(op, old(decls)[id].body)[0], meanwhile[id].body))]
      ensures r.Ok? ==>
        var row := old(decls)[id];
        decls == meanwhile[id := Stored(row.version + 1,
          if op.Cancel? then row.body.(status := DCancelled) else row.body.(priority := op.priority))]
      ensures r.Err? ==> decls == if r == Err(Conflict) then meanwhile else old(decls)
    {
      if id !in decls {
        return Err(NotFound);
      }
      var row, affected := decls[id], 0;
      if op.UpdatePriority? {
        if op.priority < 1 || op.priority > 10 {
          return Err(ValidationFailed);
        }
        decls := meanwhile;
        affected := SetPriorityOf(id, op.priority, row.version);
      } else {
        var next := sm.MustTransition(row.body.status, DCancelled);
        if next.Err? {
          return Err(InvalidTransition);
        }
        decls := meanwhile;
        affected := UpdateStatus(id, next.value, row.version);
      }
      if affected == 0 {
        return Err(Conflict);
      }
      return Ok(Unit.Unit);
    }

    /** Promotes the head of the queue. `meanwhile` is what other clients make of the table between the
        listing and the update. */
    method AdvanceQueued(sm: StateMachine<DeclStatus>, meanwhile: Table) returns (r: Result<Option<Id>>)
      requires forall a, b :: sm.CanTransition(a, b) <==> DeclEdge(a, b)
      requires Later(decls, meanwhile)
      modifies this
      ensures Queue(old(decls)) == map[] <==> r == Ok(None)
      ensures r.Ok? && r.value.Some? ==>
        var id := r.value.value;
        && Heads(old(decls), id)
        && meanwhile[id] == old(decls)[id]
        && decls == meanwhile[id := Promoted(old(decls)[id])]
      ensures r.Ok? && r.value.Some? ==>
        var id := r.value.value;
        && FirstQueued(old(decls), id)
        && decls == meanwhile[id := Stored(old(decls)[id].version + 1, old(decls)[id].body.(status := Scheduled))]
      ensures r == Ok(None) ==> forall id :: id in old(decls) ==> old(decls)[id].body.status != Queued
      ensures r == Ok(None) ==> decls == old(decls)
      ensures r.Err? ==>
        && r == Err(Conflict) && decls == meanwhile
        && exists id :: Heads(old(decls), id) && meanwhile[id] != old(decls)[id]
    {
      var queued := ListByStatus(Queued);
      if |queued| == 0 {
        NoneQueued(decls);
        return Ok(None);
      }
      var top := queued[0];
      assert top in Queue(decls);
      var row := decls[top];
      var next := sm.MustTransition(row.body.status, Scheduled);
      if next.Err? {
        return Err(InvalidTransition);
      }
      HeadIsFirst(decls, top);
      decls := meanwhile;
      var affected := UpdateStatus(top, next.value, row.version);
      if affected == 0 {
        return Err(Conflict);
      }
      return Ok(Some(top));
    }

    /** The promotion stage of n engine ticks with nothing else going on. It promotes the first n queued
        declarations in ORDER BY order and touches nothing else; with n at least the length of the queue
        it empties the queue. */
    method AdvanceForTicks(sm: StateMachine<DeclStatus>, n: nat) returns (promoted: seq<Id>)
      requires forall a, b :: sm.CanTransition(a, b) <==> DeclEdge(a, b)
      modifies this
      ensures |promoted| == if n < |Queue(old(decls))| then n else |Queue(old(decls))|
      ensures Emptying(old(decls), decls, promoted) && Scheduling(old(decls), decls, promoted)
      ensures n >= |Queue(old(decls))| ==>
        && Queue(decls) == map[] && Ordered(Queue(old(decls)), promoted)
        && forall id :: id in decls ==>
             decls[id] == if id in Queue(old(decls)) then Promoted(old(decls)[id]) else old(decls)[id]
    {
      ghost var start := decls;
      promoted := [];
      for i := 0 to n
        invariant Emptying(start, decls, promoted)
        invariant |promoted| <= i && (|promoted| == i || Queue(decls) == map[])
      {
        ghost var t := decls;
        var r := AdvanceQueued(sm, decls);
        if r.Ok? && r.value.Some? {
          EmptyingStep(start, t, promoted, r.value.value);
          promoted := promoted + [r.value.value];
        }
      }
      EmptyingSchedules(start, decls, promoted);
      if n >= |Queue(start)| {
        EmptyingEnds(start, decls, promoted);
      }
    }
  }
}
