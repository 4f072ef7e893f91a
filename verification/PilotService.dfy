/** The pilot-task service over the task, lease and execution tables, one call at a time. */
module PilotService {
  import opened Wrappers
  import opened StateMachines
  import opened OptimisticRow
  import opened Selection
  import P = PilotTasks

  type Row = Stored<P.Task>

  datatype LeaseStatus = Active | LeaseReleased | Revoked

  datatype Lease = Lease(task: Id, executor: string, expires: int, status: LeaseStatus, version: Version)

  /** A row of execution_records. */
  datatype Executed = Executed(task: Id, executor: string)

  /** A fresh lease id and the expiry computed from the clock, for one claim. */
  datatype Grant = Grant(lease: Id, expires: int)

  datatype Db = Db(tasks: map<Id, Row>, leases: map<Id, Lease>, executions: seq<Executed>)

  // ---- what each successful call does

  function Moved(r: Row, s: P.Stmt): Row { Stored(r.version + 1, P.Apply(s, r.body)) }

  /** UPDATE task_leases ... WHERE id = ? AND version = ? AND status = 'active', for a lease just read. */
  function Closed(leases: map<Id, Lease>, lease: Option<Id>, status: LeaseStatus): map<Id, Lease> {
    if lease.Some? && lease.value in leases && leases[lease.value].status == Active then
      leases[lease.value := leases[lease.value].(status := status, version := leases[lease.value].version + 1)]
    else leases
  }

  /** A task to create under a new id; None and "" stand for missing fields. */
  datatype TaskRequest = TaskRequest(
    id: Id, declaration: Option<Id>, window: Option<Id>, kind: string, location: string, priority: int, created: int)

  /** The foreign keys: the declaration exists, and so does the window if one is named. */
  predicate RefersTo(req: TaskRequest, declared: set<Id>, berths: set<Id>)
    requires req.declaration.Some?
  {
    req.declaration.value in declared && (req.window.Some? ==> req.window.value in berths)
  }

  function NewTask(req: TaskRequest): Row {
    Stored(1, P.Task(Created, "", None, None, req.priority, req.created))
  }

  datatype Effect =
    | Creating(id: Id, req: TaskRequest)
    | Assigning(id: Id)
    | Claiming(id: Id, executor: string, grant: Grant)
    | ClaimUndone(id: Id, executor: string, grant: Grant)  // the lease could not be inserted
    | Completing(id: Id)
    | Preempting(id: Id)

  predicate Can(db: Db, e: Effect) {
    if e.Creating? then e.id !in db.tasks else e.id in db.tasks && CanChange(db, e, db.tasks[e.id].body)
  }

  predicate CanChange(db: Db, e: Effect, t: P.Task) {
    match e
    case Creating(_, _) => false
    case Assigning(_) => PilotEdge(t.status, Assigned)
    case Claiming(_, x, g) => x != "" && t.status == Assigned && g.lease !in db.leases
    case ClaimUndone(_, x, g) => x != "" && t.status == Assigned && g.lease in db.leases
    case Completing(_) => t.claimedBy != "" && PilotEdge(t.status, PilotStatus.Completed)
    case Preempting(_) => t.status in {Claimed, InProgress}
  }

  function Do(db: Db, e: Effect): Db
    requires Can(db, e)
  {
    if e.Creating? then db.(tasks := db.tasks[e.id := NewTask(e.req)]) else Changed(db, e, db.tasks[e.id])
  }

  function Changed(db: Db, e: Effect, r: Row): Db
    requires e.id in db.tasks
  {
    match e
    case Creating(_, _) => db
    case Assigning(id) => db.(tasks := db.tasks[id := Moved(r, P.SetStatus(Assigned))])
    case Claiming(id, x, g) =>
      db.(tasks := db.tasks[id := Moved(r, P.SetClaim(x, g.lease, g.expires))],
          leases := db.leases[g.lease := Lease(id, x, g.expires, Active, 1)])
    case ClaimUndone(id, x, g) =>
      db.(tasks := db.tasks[id := Moved(Moved(r, P.SetClaim(x, g.lease, g.expires)), P.ClearClaim)])
    case Completing(id) =>
      Db(db.tasks[id := Moved(r, P.SetStatus(PilotStatus.Completed))],
         Closed(db.leases, r.body.leaseId, LeaseReleased),
         db.executions + [Executed(id, r.body.claimedBy)])
    case Preempting(id) => ClaimCleared(db, id)
  }

  /** The task's claim cleared and its lease revoked. */
  function ClaimCleared(db: Db, id: Id): Db
    requires id in db.tasks
  {
    var r := db.tasks[id];
    db.(tasks := db.tasks[id := Moved(r, P.ClearClaim)], leases := Closed(db.leases, r.body.leaseId, Revoked))
  }

  // ---- agreement of the task and lease tables

  predicate Held(t: P.Task) { t.status in {Claimed, InProgress} }

  /** A held task is backed by an active lease that says the same as the task's own columns. */
  predicate TaskAgrees(db: Db, id: Id) {
    id in db.tasks ==>
      var t := db.tasks[id].body;
      && P.ClaimColumnsAgree(t)
      && (Held(t) ==>
            && t.leaseId.value in db.leases
            && var l := db.leases[t.leaseId.value];
            l.task == id && l.executor == t.claimedBy && l.expires == t.expires.value && l.status == Active)
  }

  /** An active lease belongs to a task that is held under that very lease. */
  predicate LeaseAgrees(db: Db, l: Id) {
    l in db.leases && db.leases[l].status == Active ==>
      var id := db.leases[l].task;
      id in db.tasks && Held(db.tasks[id].body) && db.tasks[id].body.leaseId == Some(l)
  }

  ghost predicate Agree(db: Db) {
    (forall id :: TaskAgrees(db, id)) && (forall l :: LeaseAgrees(db, l))
  }

  /** A lease is never deleted, and changes at most from active to released or revoked. */
  ghost predicate LeasesMoveOnce(a: map<Id, Lease>, b: map<Id, Lease>) {
    forall l :: l in a ==>
      && l in b
      && (b[l] == a[l] || (a[l].status == Active && b[l] == a[l].(status := b[l].status, version := a[l].version + 1)
                           && b[l].status in {LeaseReleased, Revoked}))
  }

  /** Main result 1. Every call keeps the tables in agreement. */
  lemma EffectKeepsAgreement(db: Db, e: Effect)
    requires Agree(db) && Can(db, e)
    ensures Agree(Do(db, e))
  {
    var u := Do(db, e);
    assert TaskAgrees(db, e.id);
    forall id ensures TaskAgrees(u, id) {
      assert TaskAgrees(db, id);
    }
    forall l ensures LeaseAgrees(u, l) {
      assert LeaseAgrees(db, l);
    }
  }

  /** Main result 2. Every call moves each lease at most once: to released when it completes the lease's
      task, to revoked when it preempts it. */
  lemma EffectMovesLeases(db: Db, e: Effect)
    requires Agree(db) && Can(db, e)
    ensures var u := Do(db, e);
      && LeasesMoveOnce(db.leases, u.leases)
      && forall l :: l in db.leases && u.leases[l] != db.leases[l] ==>
           db.leases[l].task == e.id
           && ((u.leases[l].status == LeaseReleased && u.tasks[e.id].body.status == PilotStatus.Completed)
               || (u.leases[l].status == Revoked && u.tasks[e.id].body.status == PilotStatus.Preempted))
  {
    if !e.Creating? {
      assert TaskAgrees(db, e.id);
      var l := db.tasks[e.id].body.leaseId;
      if l.Some? {
        assert LeaseAgrees(db, l.value);
      }
    }
  }

  predicate CanAll(db: Db, es: seq<Effect>)
    decreases |es|
  {
    es != [] ==> Can(db, es[0]) && CanAll(Do(db, es[0]), es[1..])
  }

  function DoAll(db: Db, es: seq<Effect>): Db
    requires CanAll(db, es)
    decreases |es|
  {
    if es == [] then db else DoAll(Do(db, es[0]), es[1..])
  }

  /** Over every sequence of calls the tables agree, and no lease moves more than once. */
  lemma {:induction false} CallsKeepAgreement(db: Db, es: seq<Effect>)
    requires Agree(db) && CanAll(db, es)
    ensures Agree(DoAll(db, es)) && LeasesMoveOnce(db.leases, DoAll(db, es).leases)
    decreases |es|
  {
    if es != [] {
      EffectKeepsAgreement(db, es[0]);
      EffectMovesLeases(db, es[0]);
      CallsKeepAgreement(Do(db, es[0]), es[1..]);
    }
  }

  /** Main result 3. What agreement means: a task is held exactly when it has an active lease; then it
      has exactly one, which has the row's lease id, executor and expiry. A created, assigned or
      preempted task carries no claim. */
  lemma AgreementMeans(db: Db, id: Id)
    requires Agree(db) && id in db.tasks
    ensures var t := db.tasks[id].body;
      && (Held(t) <==> exists l :: l in db.leases && db.leases[l].status == Active && db.leases[l].task == id)
      && (forall l :: l in db.leases && db.leases[l].status == Active && db.leases[l].task == id ==>
            t.leaseId == Some(l) && t.claimedBy == db.leases[l].executor && t.expires == Some(db.leases[l].expires))
      && (t.status in {Created, Assigned, PilotStatus.Preempted} ==>
            t.claimedBy == "" && t.leaseId == None && t.expires == None)
  {
    var t := db.tasks[id].body;
    assert TaskAgrees(db, id);
    forall l | l in db.leases && db.leases[l].status == Active && db.leases[l].task == id
      ensures t.leaseId == Some(l) && Held(t)
    {
      assert LeaseAgrees(db, l);
    }
    if Held(t) {
      assert t.leaseId.value in db.leases;
    }
  }

  // ---- selections

  function Claimable(tasks: map<Id, Row>): map<Id, Key> {
    map id | id in tasks && tasks[id].body.status == Assigned :: (tasks[id].body.priority, tasks[id].body.created)
  }

  function ExpiredClaims(tasks: map<Id, Row>, now: int): map<Id, Key> {
    map id | id in tasks && P.ExpiredClaim(tasks[id].body, now) :: (tasks[id].body.expires.value, 0)
  }

  function AssignedIds(tasks: map<Id, Row>): set<Id> {
    set id | id in tasks && tasks[id].body.status == Assigned
  }

  lemma ClaimableCount(tasks: map<Id, Row>)
    ensures |Claimable(tasks)| == |AssignedIds(tasks)|
  {
    assert Claimable(tasks).Keys == AssignedIds(tasks);
  }

  /** `ids` are the first n assigned tasks: lowest priority number first, and then oldest. */
  ghost predicate FirstAssigned(tasks: map<Id, Row>, ids: seq<Id>, n: nat) {
    && Distinct(ids)
    && |ids| == (if |AssignedIds(tasks)| < n then |AssignedIds(tasks)| else n)
    && (forall id :: id in ids ==> id in tasks && tasks[id].body.status == Assigned)
    && (forall i, j :: 0 <= i < j < |ids| ==>
          var a, b := tasks[ids[i]].body, tasks[ids[j]].body;
          a.priority < b.priority || (a.priority == b.priority && a.created <= b.created))
    && (forall i, id :: 0 <= i < |ids| && id in tasks && tasks[id].body.status == Assigned && id !in ids ==>
          var a, b := tasks[ids[i]].body, tasks[id].body;
          a.priority < b.priority || (a.priority == b.priority && a.created <= b.created))
  }

  lemma TopIsFirst(tasks: map<Id, Row>, ids: seq<Id>, n: nat)
    requires Top(Claimable(tasks), ids, n)
    ensures FirstAssigned(tasks, ids, n)
  {
    var keys := Claimable(tasks);
    ClaimableCount(tasks);
    forall id | id in ids ensures id in keys {
    }
    forall i, id | 0 <= i < |ids| && id in tasks && tasks[id].body.status == Assigned && id !in ids
      ensures !Before(keys[id], keys[ids[i]])
    {
      assert id in keys;
    }
  }

  /** `ids` are the held tasks whose claim expired before `now`, earliest expiry first. */
  ghost predicate EarliestFirst(tasks: map<Id, Row>, ids: seq<Id>, now: int) {
    && Distinct(ids)
    && (forall id :: id in ids <==>
          id in tasks && tasks[id].body.expires.Some? && tasks[id].body.expires.value < now
          && tasks[id].body.status in {Claimed, InProgress})
    && (forall i, j :: 0 <= i < j < |ids| ==>
          tasks[ids[i]].body.expires.value <= tasks[ids[j]].body.expires.value)
  }

  lemma ExpiredAreFirst(tasks: map<Id, Row>, ids: seq<Id>, now: int)
    requires Ordered(ExpiredClaims(tasks, now), ids)
    ensures EarliestFirst(tasks, ids, now)
  {
    forall id ensures id in ids <==> id in tasks && P.ExpiredClaim(tasks[id].body, now) {
      assert id in ExpiredClaims(tasks, now) <==> id in tasks && P.ExpiredClaim(tasks[id].body, now);
    }
  }

  class PilotStore {
    var tasks: map<Id, Row>
    var leases: map<Id, Lease>
    var executions: seq<Executed>

    function State(): Db
      reads this
    {
      Db(tasks, leases, executions)
    }

    ghost predicate Valid()
      reads this
    {
      Agree(State())
    }

    constructor (db: Db)
      requires Agree(db)
      ensures Valid() && State() == db
    {
      tasks, leases, executions := db.tasks, db.leases, db.executions;
    }

    // ---- statements

    method UpdateTask(id: Id, s: P.Stmt, version: Version) returns (affected: nat)
      modifies this`tasks
      ensures affected == if id in old(tasks) && old(tasks)[id].version == version then 1 else 0
      ensures tasks == if affected == 0 then old(tasks) else old(tasks)[id := Moved(old(tasks)[id], s)]
    {
      if id !in tasks || tasks[id].version != version {
        return 0;
      }
      var t := tasks[id].body;
      match s {
        case SetStatus(status) => t := t.(status := status);
        case SetClaim(x, lease, expires) =>
          t := t.(claimedBy := x, leaseId := Some(lease), expires := Some(expires), status := Claimed);
        case ClearClaim => t := t.(claimedBy := "", leaseId := None, expires := None, status := PilotStatus.Preempted);
      }
      tasks := tasks[id := Stored(version + 1, t)];
      return 1;
    }

    method CreateLease(id: Id, l: Lease) returns (ok: bool)
      modifies this`leases
      ensures ok <==> id !in old(leases)
      ensures leases == if ok then old(leases)[id := l] else old(leases)
    {
      ok := id !in leases;
      if ok {
        leases := leases[id := l];
      }
    }

    /** GetLease, then ReleaseLease or RevokeLease with the version read; failures are ignored. */
    method CloseLease(lease: Option<Id>, status: LeaseStatus)
      modifies this`leases
      ensures leases == Closed(old(leases), lease, status)
    {
      if lease.Some? && lease.value in leases {
        var l := leases[lease.value];
        if l.status == Active {
          leases := leases[lease.value := l.(status := status, version := l.version + 1)];
        }
      }
    }

    method ListClaimable(limit: int) returns (ids: seq<Id>)
      ensures Top(Claimable(tasks), ids, BatchLimit(limit))
      ensures FirstAssigned(tasks, ids, if 1 <= limit <= 100 then limit else 10)
    {
      var n := if limit < 1 || limit > 100 then 10 else limit;
      ids := OrderBy(map id | id in tasks && tasks[id].body.status == Assigned
                       :: (tasks[id].body.priority, tasks[id].body.created));
      TopOfOrdered(Claimable(tasks), ids, n);
      ids := if |ids| > n then ids[..n] else ids;
      TopIsFirst(tasks, ids, n);
    }

    method ListExpiredClaims(now: int) returns (ids: seq<Id>)
      ensures Ordered(ExpiredClaims(tasks, now), ids) && EarliestFirst(tasks, ids, now)
    {
      ids := OrderBy(map id | id in tasks && P.ExpiredClaim(tasks[id].body, now) :: (tasks[id].body.expires.value, 0));
      ExpiredAreFirst(tasks, ids, now);
    }

    /** INSERT INTO pilot_tug_tasks; the sets list the declarations and windows that exist. */
    method Insert(req: TaskRequest, declared: set<Id>, berths: set<Id>) returns (ok: bool)
      requires req.declaration.Some?
      modifies this`tasks
      ensures ok <==> RefersTo(req, declared, berths) && req.id !in old(tasks)
      ensures tasks == if ok then old(tasks)[req.id := NewTask(req)] else old(tasks)
    {
      ok := RefersTo(req, declared, berths) && req.id !in tasks;
      if ok {
        tasks := tasks[req.id := NewTask(req)];
      }
    }

    // ---- service calls

    /** The default priority is set on a copy of the request, so the stored one is the caller's. */
    method Create(req: TaskRequest, declared: set<Id>, berths: set<Id>) returns (r: Result<Id>)
      requires Valid()
      modifies this
      ensures Valid()
      ensures r == if req.declaration.None? || req.kind == "" || req.location == "" then Err(ValidationFailed)
                   else if req.declaration.value in declared && (req.window.Some? ==> req.window.value in berths)
                           && req.id !in old(tasks) then Ok(req.id)
                   else Err(Internal)
      ensures r.Ok? ==>
        tasks == old(tasks)[req.id := Stored(1, P.Task(Created, "", None, None, req.priority, req.created))]
      ensures State() == if r.Ok? then Do(old(State()), Creating(req.id, req)) else old(State())
    {
      if req.declaration.None? || req.kind == "" || req.location == "" {
        return Err(ValidationFailed);
      }
      var ok := Insert(req, declared, berths);
      if !ok {
        return Err(Internal);
      }
      EffectKeepsAgreement(old(State()), Creating(req.id, req));
      return Ok(req.id);
    }

    /** Assign; Reassign has the same body. */
    method Assign(id: Id, sm: StateMachine<PilotStatus>) returns (r: Result<Unit>)
      requires Valid() && forall a, b :: sm.CanTransition(a, b) <==> PilotEdge(a, b)
      modifies this
      ensures Valid()
      ensures r == if id !in old(tasks) then Err(NotFound)
                   else if PilotEdge(old(tasks)[id].body.status, Assigned) then Ok(Unit.Unit)
                   else Err(InvalidTransition)
      ensures r.Ok? ==>
        tasks == old(tasks)[id := Stored(old(tasks)[id].version + 1, old(tasks)[id].body.(status := Assigned))]
      ensures State() == if r.Ok? then Do(old(State()), Assigning(id)) else old(State())
    {
      if id !in tasks {
        return Err(NotFound);
      }
      var t := tasks[id];
      var next := sm.MustTransition(t.body.status, Assigned);
      if next.Err? {
        return Err(InvalidTransition);
      }
      var affected := UpdateTask(id, P.SetStatus(next.value), t.version);
      if affected == 0 {
        return Err(Conflict);
      }
      EffectKeepsAgreement(old(State()), Assigning(id));
      return Ok(Unit.Unit);
    }

    /** A claim takes an assigned task; if its lease cannot be stored the claim is cleared again. */
    method Claim(id: Id, executor: string, grant: Grant) returns (r: Result<Grant>)
      requires Valid()
      modifies this
      ensures Valid()
      ensures r == if executor == "" then Err(ValidationFailed)
                   else if id !in old(tasks) then Err(NotFound)
                   else if old(tasks)[id].body.status != Assigned then Err(InvalidTransition)
                   else if grant.lease in old(leases) then Err(Internal)
                   else Ok(grant)
      ensures r.Ok? ==>
        && leases == old(leases)[grant.lease := Lease(id, executor, grant.expires, Active, 1)]
        && tasks == old(tasks)[id := Stored(old(tasks)[id].version + 1,
             old(tasks)[id].body.(status := Claimed, claimedBy := executor,
                                  leaseId := Some(grant.lease), expires := Some(grant.expires)))]
      ensures r == Err(Internal) ==>
        leases == old(leases) && tasks == old(tasks)[id := Unclaimed(old(tasks)[id], 2)]
      ensures State() == if r.Ok? then Do(old(State()), Claiming(id, executor, grant))
                         else if r == Err(Internal) then Do(old(State()), ClaimUndone(id, executor, grant))
                         else old(State())
    {
      if executor == "" {
        return Err(ValidationFailed);
      }
      if id !in tasks {
        return Err(NotFound);
      }
      var t := tasks[id];
      if t.body.status != Assigned {
        return Err(InvalidTransition);
      }
      var affected := UpdateTask(id, P.SetClaim(executor, grant.lease, grant.expires), t.version);
      if affected == 0 {
        return Err(Conflict);
      }
      var ok := CreateLease(grant.lease, Lease(id, executor, grant.expires, Active, 1));
      if !ok {
        affected := UpdateTask(id, P.ClearClaim, t.version + 1);
        assert State() == Do(old(State()), ClaimUndone(id, executor, grant));
        EffectKeepsAgreement(old(State()), ClaimUndone(id, executor, grant));
        return Err(Internal);
      }
      EffectKeepsAgreement(old(State()), Claiming(id, executor, grant));
      return Ok(grant);
    }

    method Report(id: Id, executor: string, sm: StateMachine<PilotStatus>) returns (r: Result<Unit>)
      requires Valid() && forall a, b :: sm.CanTransition(a, b) <==> PilotEdge(a, b)
      modifies this
      ensures Valid()
      ensures r == if executor == "" then Err(ValidationFailed)
                   else if id !in old(tasks) then Err(NotFound)
                   else if old(tasks)[id].body.claimedBy != executor then Err(Forbidden)
                   else if !PilotEdge(old(tasks)[id].body.status, PilotStatus.Completed) then Err(InvalidTransition)
                   else Ok(Unit.Unit)
      ensures r.Ok? ==>
        && executions == old(executions) + [Executed(id, executor)]
        && tasks == old(tasks)[id := Stored(old(tasks)[id].version + 1,
                                            old(tasks)[id].body.(status := PilotStatus.Completed))]
        && LeaseEnded(old(State()), leases, id, LeaseReleased)
      ensures State() == if r.Ok? then Do(old(State()), Completing(id)) else old(State())
    {
      if executor == "" {
        return Err(ValidationFailed);
      }
      if id !in tasks {
        return Err(NotFound);
      }
      var t := tasks[id];
      if t.body.claimedBy != executor {
        return Err(Forbidden);
      }
      var next := sm.MustTransition(t.body.status, PilotStatus.Completed);
      if next.Err? {
        return Err(InvalidTransition);
      }
      assert TaskAgrees(State(), id);
      var affected := UpdateTask(id, P.SetStatus(next.value), t.version);
      if affected == 0 {
        return Err(Conflict);
      }
      CloseLease(t.body.leaseId, LeaseReleased);
      executions := executions + [Executed(id, executor)];
      EffectKeepsAgreement(old(State()), Completing(id));
      return Ok(Unit.Unit);
    }

    /** Preempts one listed task, from the snapshot t. */
    method PreemptOne(id: Id, t: Row) returns (r: Result<Id>)
      requires Valid()
      requires Held(t.body) && id in tasks && tasks[id] == t
      modifies this
      ensures Valid()
      ensures r == Ok(id) && State() == Do(old(State()), Preempting(id))
      ensures tasks == old(tasks)[id := Unclaimed(t, 1)] && LeaseEnded(old(State()), leases, id, Revoked)
    {
      assert TaskAgrees(State(), id);
      var affected := UpdateTask(id, P.ClearClaim, t.version);
      if affected == 0 {
        return Err(Conflict);
      }
      CloseLease(t.body.leaseId, Revoked);
      EffectKeepsAgreement(old(State()), Preempting(id));
      return Ok(id);
    }
  }

  /** A preempted row without a claim, some versions later. */
  function Unclaimed(r: Row, versions: nat): Row {
    Stored(r.version + versions, P.Task(PilotStatus.Preempted, "", None, None, r.body.priority, r.body.created))
  }

  /** The lease the task was held under has ended in the given way, and no other lease has changed. */
  predicate LeaseEnded(before: Db, leases: map<Id, Lease>, id: Id, status: LeaseStatus) {
    && id in before.tasks && before.tasks[id].body.leaseId.Some?
    && var l := before.tasks[id].body.leaseId.value;
    && l in before.leases
    && leases == before.leases[l := before.leases[l].(status := status, version := before.leases[l].version + 1)]
  }

  function BatchLimit(limit: int): nat {
    if limit < 1 || limit > 100 then 10 else limit
  }

  /** `ids` are the first n selected rows in ORDER BY order. */
  ghost predicate Top(keys: map<Id, Key>, ids: seq<Id>, n: nat) {
    && |ids| == (if |keys| < n then |keys| else n)
    && (forall i :: 0 <= i < |ids| ==> ids[i] in keys)
    && Distinct(ids)
    && (forall i, j :: 0 <= i < j < |ids| ==> !Before(keys[ids[j]], keys[ids[i]]))
    && (forall i, id :: 0 <= i < |ids| && id in keys && id !in ids ==> !Before(keys[id], keys[ids[i]]))
  }

  lemma TopOfOrdered(keys: map<Id, Key>, all: seq<Id>, n: nat)
    requires Ordered(keys, all)
    ensures Top(keys, if |all| > n then all[..n] else all, n)
  {
    var ids := if |all| > n then all[..n] else all;
    forall i, id | 0 <= i < |ids| && id in keys && id !in ids ensures !Before(keys[id], keys[ids[i]]) {
      assert id in all;
      var j :| 0 <= j < |all| && all[j] == id;
      assert j >= |ids| > i;
    }
  }
}
