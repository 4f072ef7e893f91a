/** The engine's preempt-and-reassign stage and the worker's polling, with nothing else going on. */
module EngineAndWorker {
  import opened Wrappers
  import opened StateMachines
  import opened OptimisticRow
  import opened Selection
  import opened PilotService
  import P = PilotTasks

  // ---- preemption and reassignment

  /** The tables after the first n listed tasks were preempted. */
  function PreemptFirst(db: Db, ids: seq<Id>, n: nat): (r: Db)
    requires n <= |ids| && forall id :: id in ids ==> id in db.tasks
    ensures r.tasks.Keys == db.tasks.Keys && r.leases.Keys == db.leases.Keys && r.executions == db.executions
  {
    if n == 0 then db else ClaimCleared(PreemptFirst(db, ids, n - 1), ids[n - 1])
  }

  /** The task table after the first n listed tasks were reassigned. */
  function ReassignFirst(tasks: map<Id, Row>, ids: seq<Id>, n: nat): (r: map<Id, Row>)
    requires n <= |ids| && forall id :: id in ids ==> id in tasks
    ensures r.Keys == tasks.Keys
  {
    if n == 0 then tasks
    else
      var t := ReassignFirst(tasks, ids, n - 1);
      t[ids[n - 1] := Moved(t[ids[n - 1]], P.SetStatus(Assigned))]
  }

  lemma {:induction false} PreemptFirstAt(db: Db, ids: seq<Id>, n: nat, id: Id)
    requires n <= |ids| && Distinct(ids) && forall o :: o in ids ==> o in db.tasks
    requires id in db.tasks
    ensures PreemptFirst(db, ids, n).tasks[id] ==
      if id in ids[..n] then Moved(db.tasks[id], P.ClearClaim) else db.tasks[id]
  {
    if n > 0 {
      PreemptFirstAt(db, ids, n - 1, id);
      assert ids[..n] == ids[..n - 1] + [ids[n - 1]] && ids[n - 1] !in ids[..n - 1];
    }
  }

  lemma {:induction false} ReassignFirstAt(tasks: map<Id, Row>, ids: seq<Id>, n: nat, id: Id)
    requires n <= |ids| && Distinct(ids) && forall o :: o in ids ==> o in tasks
    requires id in tasks
    ensures ReassignFirst(tasks, ids, n)[id] ==
      if id in ids[..n] then Moved(tasks[id], P.SetStatus(Assigned)) else tasks[id]
  {
    if n > 0 {
      ReassignFirstAt(tasks, ids, n - 1, id);
      assert ids[..n] == ids[..n - 1] + [ids[n - 1]] && ids[n - 1] !in ids[..n - 1];
    }
  }

  function RevokedIf(l: Lease, revoke: bool): Lease {
    if l.status == Active && revoke then l.(status := Revoked, version := l.version + 1) else l
  }

  /** After n preemptions exactly the active leases of those n tasks are revoked. */
  lemma PreemptFirstLeases(db: Db, ids: seq<Id>, n: nat, l: Id)
    requires n <= |ids| && Distinct(ids) && Agree(db) && l in db.leases
    requires forall id :: id in ids ==> id in db.tasks && Held(db.tasks[id].body)
    ensures PreemptFirst(db, ids, n).leases[l] == RevokedIf(db.leases[l], db.leases[l].task in ids[..n])
  {
    forall id | id in ids ensures Owns(db, id, l) {
      assert TaskAgrees(db, id) && LeaseAgrees(db, l);
    }
    RevokedSoFar(db, ids, n, l);
  }

  /** The task is held under the lease, if that is active, exactly when the lease is for the task. */
  predicate Owns(db: Db, id: Id, l: Id) {
    && id in db.tasks && l in db.leases
    && (db.leases[l].status == Active ==> (db.tasks[id].body.leaseId == Some(l) <==> db.leases[l].task == id))
  }

  lemma {:induction false} RevokedSoFar(db: Db, ids: seq<Id>, n: nat, l: Id)
    requires n <= |ids| && Distinct(ids) && l in db.leases && forall id :: id in ids ==> id in db.tasks
    requires forall id :: id in ids ==> Owns(db, id, l)
    ensures PreemptFirst(db, ids, n).leases[l] == RevokedIf(db.leases[l], db.leases[l].task in ids[..n])
  {
    if n > 0 {
      RevokedSoFar(db, ids, n - 1, l);
      PreemptFirstAt(db, ids, n - 1, ids[n - 1]);
      RevokesOne(db, PreemptFirst(db, ids, n - 1), ids, n, l);
    }
  }

  lemma InPrefix(ids: seq<Id>, n: nat, id: Id)
    requires 0 < n <= |ids|
    ensures id in ids[..n] <==> id in ids[..n - 1] || id == ids[n - 1]
    ensures Distinct(ids) ==> ids[n - 1] !in ids[..n - 1]
  {
    assert ids[..n] == ids[..n - 1] + [ids[n - 1]];
  }

  /** Clearing the claim of the n-th task revokes that task's lease and no other. */
  lemma RevokesOne(db: Db, q: Db, ids: seq<Id>, n: nat, l: Id)
    requires 0 < n <= |ids| && Distinct(ids) && Owns(db, ids[n - 1], l) && ids[n - 1] in q.tasks && l in q.leases
    requires ids[n - 1] !in ids[..n - 1] ==> q.tasks[ids[n - 1]] == db.tasks[ids[n - 1]]
    requires q.leases[l] == RevokedIf(db.leases[l], db.leases[l].task in ids[..n - 1])
    ensures ClaimCleared(q, ids[n - 1]).leases[l] == RevokedIf(db.leases[l], db.leases[l].task in ids[..n])
  {
    InPrefix(ids, n, db.leases[l].task);
  }

  /** The next listed task is still as it was listed, and preempting it is the next step. */
  lemma PreemptNext(db: Db, ids: seq<Id>, n: nat)
    requires n < |ids| && Distinct(ids) && forall id :: id in ids ==> id in db.tasks && Held(db.tasks[id].body)
    ensures var q := PreemptFirst(db, ids, n);
      && q.tasks[ids[n]] == db.tasks[ids[n]] && Can(q, Preempting(ids[n]))
      && PreemptFirst(db, ids, n + 1) == Do(q, Preempting(ids[n]))
  {
    PreemptFirstAt(db, ids, n, ids[n]);
    assert ids[n] !in ids[..n];
  }

  lemma ReassignNext(tasks: map<Id, Row>, ids: seq<Id>, n: nat)
    requires n < |ids| && Distinct(ids) && forall id :: id in ids ==> id in tasks
    ensures ReassignFirst(tasks, ids, n)[ids[n]] == tasks[ids[n]]
  {
    ReassignFirstAt(tasks, ids, n, ids[n]);
    assert ids[n] !in ids[..n];
  }

  /** A task row after a tick. */
  function TickedTask(r: Row, now: int): Row {
    if P.ExpiredClaim(r.body, now) then
      Stored(r.version + 2, r.body.(status := Assigned, claimedBy := "", leaseId := None, expires := None))
    else r
  }

  /** The tables after one tick: expired claims are gone, and nothing else has changed. */
  ghost predicate TickedTo(a: Db, b: Db, now: int) {
    && b.tasks.Keys == a.tasks.Keys && b.leases.Keys == a.leases.Keys && b.executions == a.executions
    && (forall id :: id in a.tasks ==> b.tasks[id] == TickedTask(a.tasks[id], now))
    && (forall l :: l in a.leases ==>
          var task := a.leases[l].task;
          b.leases[l] == RevokedIf(a.leases[l], task in a.tasks && P.ExpiredClaim(a.tasks[task].body, now)))
  }

  lemma TickMeans(a: Db, ids: seq<Id>, now: int)
    requires Agree(a) && Distinct(ids)
    requires forall id :: id in ids <==> id in a.tasks && P.ExpiredClaim(a.tasks[id].body, now)
    ensures var m := PreemptFirst(a, ids, |ids|);
      TickedTo(a, m.(tasks := ReassignFirst(m.tasks, ids, |ids|)), now)
  {
    assert ids[..|ids|] == ids;
    var m := PreemptFirst(a, ids, |ids|);
    forall id | id in a.tasks ensures ReassignFirst(m.tasks, ids, |ids|)[id] == TickedTask(a.tasks[id], now) {
      PreemptFirstAt(a, ids, |ids|, id);
      ReassignFirstAt(m.tasks, ids, |ids|, id);
    }
    forall l | l in a.leases ensures m.leases[l] == RevokedIf(a.leases[l], a.leases[l].task in ids) {
      PreemptFirstLeases(a, ids, |ids|, l);
    }
  }

  lemma ListedOnce(tasks: map<Id, Row>, ids: seq<Id>, now: int)
    requires Ordered(ExpiredClaims(tasks, now), ids)
    ensures Distinct(ids)
    ensures forall id :: id in ids <==> id in tasks && P.ExpiredClaim(tasks[id].body, now)
  {
    forall id ensures id in ids <==> id in tasks && P.ExpiredClaim(tasks[id].body, now) {
      assert id in ExpiredClaims(tasks, now) <==> id in tasks && P.ExpiredClaim(tasks[id].body, now);
    }
  }

  /** Preempts exactly the listed expired claims, earliest expiry first. */
  method PreemptExpiredClaims(store: PilotStore, now: int) returns (results: seq<Id>)
    requires store.Valid()
    modifies store
    ensures store.Valid()
    ensures Ordered(ExpiredClaims(old(store.tasks), now), results)
    ensures EarliestFirst(old(store.tasks), results, now)
    ensures forall id :: id in results ==> id in old(store.tasks)
    ensures store.State() == PreemptFirst(old(store.State()), results, |results|)
  {
    var expired := store.ListExpiredClaims(now);
    ListedOnce(store.tasks, expired, now);
    results := PreemptListed(store, expired);
  }

  /** The loop of PreemptExpiredClaims over the tasks it has listed. */
  method PreemptListed(store: PilotStore, expired: seq<Id>) returns (results: seq<Id>)
    requires store.Valid() && Distinct(expired)
    requires forall id :: id in expired ==> id in store.tasks && Held(store.tasks[id].body)
    modifies store
    ensures store.Valid()
    ensures results == expired
    ensures store.State() == PreemptFirst(old(store.State()), expired, |expired|)
  {
    var snap := store.tasks;
    ghost var start := store.State();
    results := [];
    for i := 0 to |expired|
      invariant store.Valid() && results == expired[..i]
      invariant store.State() == PreemptFirst(start, expired, i)
    {
      var r := PreemptNth(store, expired, i, snap[expired[i]], start);
      if r.Ok? {
        results := results + [r.value];
      }
    }
  }

  /** One turn of that loop, which began with the tables `start`. */
  method PreemptNth(store: PilotStore, expired: seq<Id>, i: nat, t: Row, ghost start: Db) returns (r: Result<Id>)
    requires store.Valid() && i < |expired| && Distinct(expired)
    requires forall id :: id in expired ==> id in start.tasks && Held(start.tasks[id].body)
    requires t == start.tasks[expired[i]] && store.State() == PreemptFirst(start, expired, i)
    modifies store
    ensures store.Valid() && r == Ok(expired[i])
    ensures store.State() == PreemptFirst(start, expired, i + 1)
  {
    PreemptNext(start, expired, i);
    r := store.PreemptOne(expired[i], t);
  }

  /** The engine's loop over the preempted tasks. */
  method ReassignAll(store: PilotStore, sm: StateMachine<PilotStatus>, ids: seq<Id>)
    requires store.Valid() && forall a, b :: sm.CanTransition(a, b) <==> PilotEdge(a, b)
    requires Distinct(ids)
    requires forall id :: id in ids ==> id in store.tasks && store.tasks[id].body.status == PilotStatus.Preempted
    modifies store
    ensures store.Valid()
    ensures store.State() == old(store.State()).(tasks := ReassignFirst(old(store.tasks), ids, |ids|))
  {
    ghost var start := store.State();
    for i := 0 to |ids|
      invariant store.Valid()
      invariant store.State() == start.(tasks := ReassignFirst(start.tasks, ids, i))
    {
      ReassignNext(start.tasks, ids, i);
      var r := store.Assign(ids[i], sm);
    }
  }

  /** Stage three of an engine tick. No claim that had expired by the tick's second survives it: its
      task is assigned again with the claim columns cleared and the version raised by two, its lease is
      revoked, and no other task or lease changes. */
  method TickClaims(store: PilotStore, sm: StateMachine<PilotStatus>, now: int) returns (preempted: seq<Id>)
    requires store.Valid() && forall a, b :: sm.CanTransition(a, b) <==> PilotEdge(a, b)
    modifies store
    ensures store.Valid()
    ensures TickedTo(old(store.State()), store.State(), now)
    ensures forall id :: id in store.tasks ==> !P.ExpiredClaim(store.tasks[id].body, now)
  {
    ghost var start := store.State();
    preempted := PreemptExpiredClaims(store, now);
    ListedOnce(start.tasks, preempted, now);
    ReadyToReassign(start, preempted);
    ReassignAll(store, sm, preempted);
    TickMeans(start, preempted, now);
    NoneExpired(start, store.State(), now);
  }

  lemma ReadyToReassign(a: Db, ids: seq<Id>)
    requires Distinct(ids) && forall id :: id in ids ==> id in a.tasks
    ensures var m := PreemptFirst(a, ids, |ids|);
      forall id :: id in ids ==> id in m.tasks && m.tasks[id].body.status == PilotStatus.Preempted
  {
    assert ids[..|ids|] == ids;
    forall id | id in ids ensures PreemptFirst(a, ids, |ids|).tasks[id].body.status == PilotStatus.Preempted {
      PreemptFirstAt(a, ids, |ids|, id);
    }
  }

  /** A ticked table has no expired claim. */
  lemma NoneExpired(a: Db, b: Db, now: int)
    requires TickedTo(a, b, now)
    ensures forall id :: id in b.tasks ==> !P.ExpiredClaim(b.tasks[id].body, now)
  {
    forall id | id in b.tasks ensures !P.ExpiredClaim(b.tasks[id].body, now) {
      assert b.tasks[id] == TickedTask(a.tasks[id], now);
    }
  }

  // ---- the worker

  /** A task that `w` claimed under `g` and reported. */
  function Finished(r: Row, w: string, g: Grant): Row {
    Stored(r.version + 2, r.body.(status := PilotStatus.Completed, claimedBy := w,
                                  leaseId := Some(g.lease), expires := Some(g.expires)))
  }

  function Execute(db: Db, w: string, id: Id, g: Grant): Db
    requires id in db.tasks
  {
    Db(db.tasks[id := Finished(db.tasks[id], w, g)],
       db.leases[g.lease := Lease(id, w, g.expires, LeaseReleased, 2)],
       db.executions + [Executed(id, w)])
  }

  /** The tables after `w` executed the first n listed tasks, each under its own grant. */
  function ExecuteFirst(db: Db, w: string, ids: seq<Id>, grants: seq<Grant>, n: nat): (r: Db)
    requires n <= |ids| <= |grants| && forall id :: id in ids ==> id in db.tasks
    ensures r.tasks.Keys == db.tasks.Keys
  {
    if n == 0 then db else Execute(ExecuteFirst(db, w, ids, grants, n - 1), w, ids[n - 1], grants[n - 1])
  }

  /** Lease ids that are new to the table and to each other. */
  predicate FreshGrants(db: Db, grants: seq<Grant>) {
    && (forall i :: 0 <= i < |grants| ==> grants[i].lease !in db.leases)
    && (forall i, j :: 0 <= i < j < |grants| ==> grants[i].lease != grants[j].lease)
  }

  lemma ExecuteIsClaimAndReport(db: Db, w: string, id: Id, g: Grant)
    requires Can(db, Claiming(id, w, g))
    ensures var c := Do(db, Claiming(id, w, g));
      Can(c, Completing(id)) && Do(c, Completing(id)) == Execute(db, w, id, g)
  {
    var c := Do(db, Claiming(id, w, g));
    var d := Do(c, Completing(id));
    assert d.tasks == Execute(db, w, id, g).tasks;
    assert d.leases == Execute(db, w, id, g).leases;
  }

  /** Tasks that are not among the first n are untouched. */
  lemma {:induction false} ExecuteFirstOthers(db: Db, w: string, ids: seq<Id>, grants: seq<Grant>, n: nat, id: Id)
    requires n <= |ids| <= |grants| && forall o :: o in ids ==> o in db.tasks
    requires id in db.tasks && id !in ids[..n]
    ensures ExecuteFirst(db, w, ids, grants, n).tasks[id] == db.tasks[id]
  {
    if n > 0 {
      assert ids[..n] == ids[..n - 1] + [ids[n - 1]];
      ExecuteFirstOthers(db, w, ids, grants, n - 1, id);
    }
  }

  /** The i-th of the first n tasks is finished under the i-th grant. */
  lemma {:induction false} ExecuteFirstDone(db: Db, w: string, ids: seq<Id>, grants: seq<Grant>, n: nat, i: nat)
    requires i < n <= |ids| <= |grants| && Distinct(ids) && forall o :: o in ids ==> o in db.tasks
    ensures ExecuteFirst(db, w, ids, grants, n).tasks[ids[i]] == Finished(db.tasks[ids[i]], w, grants[i])
  {
    if i == n - 1 {
      assert ids[i] !in ids[..i];
      ExecuteFirstOthers(db, w, ids, grants, i, ids[i]);
    } else {
      ExecuteFirstDone(db, w, ids, grants, n - 1, i);
    }
  }

  lemma ExecuteFirstTasks(db: Db, w: string, ids: seq<Id>, grants: seq<Grant>, n: nat)
    requires n <= |ids| <= |grants| && Distinct(ids) && forall id :: id in ids ==> id in db.tasks
    ensures var r := ExecuteFirst(db, w, ids, grants, n);
      && (forall i :: 0 <= i < n ==> r.tasks[ids[i]] == Finished(db.tasks[ids[i]], w, grants[i]))
      && (forall id :: id in db.tasks && id !in ids[..n] ==> r.tasks[id] == db.tasks[id])
  {
    var r := ExecuteFirst(db, w, ids, grants, n);
    forall i | 0 <= i < n ensures r.tasks[ids[i]] == Finished(db.tasks[ids[i]], w, grants[i]) {
      ExecuteFirstDone(db, w, ids, grants, n, i);
    }
    forall id | id in db.tasks && id !in ids[..n] ensures r.tasks[id] == db.tasks[id] {
      ExecuteFirstOthers(db, w, ids, grants, n, id);
    }
  }

  /** Leases present before are untouched. */
  lemma {:induction false} ExecuteFirstOldLeases(db: Db, w: string, ids: seq<Id>, grants: seq<Grant>, n: nat, l: Id)
    requires n <= |ids| <= |grants| && forall id :: id in ids ==> id in db.tasks
    requires l in db.leases && FreshGrants(db, grants)
    ensures var r := ExecuteFirst(db, w, ids, grants, n); l in r.leases && r.leases[l] == db.leases[l]
  {
    if n > 0 {
      ExecuteFirstOldLeases(db, w, ids, grants, n - 1, l);
    }
  }

  /** The only new leases are those of the grants. */
  lemma {:induction false} ExecuteFirstNewLeases(db: Db, w: string, ids: seq<Id>, grants: seq<Grant>, n: nat, l: Id)
    requires n <= |ids| <= |grants| && forall id :: id in ids ==> id in db.tasks
    requires l in ExecuteFirst(db, w, ids, grants, n).leases
    ensures l in db.leases || exists i :: 0 <= i < n && grants[i].lease == l
  {
    if n > 0 && l != grants[n - 1].lease {
      ExecuteFirstNewLeases(db, w, ids, grants, n - 1, l);
    }
  }

  /** Each grant has become a released lease of its task, and each task has its execution record. */
  lemma {:induction false} ExecuteFirstRecords(db: Db, w: string, ids: seq<Id>, grants: seq<Grant>, n: nat)
    requires n <= |ids| <= |grants| && FreshGrants(db, grants) && forall id :: id in ids ==> id in db.tasks
    ensures var r := ExecuteFirst(db, w, ids, grants, n);
      && (forall i :: 0 <= i < n ==>
            && grants[i].lease in r.leases
            && r.leases[grants[i].lease] == Lease(ids[i], w, grants[i].expires, LeaseReleased, 2))
      && |r.executions| == |db.executions| + n && db.executions <= r.executions
      && (forall i :: 0 <= i < n ==> r.executions[|db.executions| + i] == Executed(ids[i], w))
  {
    if n > 0 {
      ExecuteFirstRecords(db, w, ids, grants, n - 1);
    }
  }

  /** The next grant is still unused, and the next listed task still assigned. */
  lemma ExecuteNext(db: Db, w: string, ids: seq<Id>, grants: seq<Grant>, n: nat)
    requires w != "" && n < |ids| <= |grants| && FreshGrants(db, grants) && Distinct(ids)
    requires forall id :: id in ids ==> id in db.tasks && db.tasks[id].body.status == Assigned
    ensures Can(ExecuteFirst(db, w, ids, grants, n), Claiming(ids[n], w, grants[n]))
  {
    if grants[n].lease in ExecuteFirst(db, w, ids, grants, n).leases {
      ExecuteFirstNewLeases(db, w, ids, grants, n, grants[n].lease);
    }
    assert ids[n] !in ids[..n];
    ExecuteFirstOthers(db, w, ids, grants, n, ids[n]);
  }

  class Worker {
    const id: string
    const batchSize: int
    var tasksClaimed: nat
    var tasksReported: nat
    var tasksFailed: nat
    var errors: nat

    constructor (name: string, batch: int)
      ensures id != "" && (name != "" ==> id == name)
      ensures batchSize == if batch < 1 then 5 else batch
      ensures tasksClaimed == tasksReported == tasksFailed == errors == 0
    {
      id := if name == "" then "worker-default" else name;
      batchSize := if batch < 1 then 5 else batch;
      tasksClaimed, tasksReported, tasksFailed, errors := 0, 0, 0, 0;
    }

    /** Claim, execute, report. Losing the claim is not an error. With `fault` the report's update fails
        in the store, and the task stays claimed. */
    method ClaimAndExecute(store: PilotStore, sm: StateMachine<PilotStatus>, task: Id, grant: Grant, fault: bool)
      returns (r: Result<Unit>)
      requires store.Valid() && forall a, b :: sm.CanTransition(a, b) <==> PilotEdge(a, b)
      modifies this, store
      ensures store.Valid()
      ensures old(Can(store.State(), Claiming(task, id, grant))) ==>
        if fault then
          && r == Err(Internal) && store.State() == Do(old(store.State()), Claiming(task, id, grant))
          && tasksReported == old(tasksReported) && tasksFailed == old(tasksFailed) + 1
        else
          && r == Ok(Unit.Unit) && store.State() == Execute(old(store.State()), id, task, grant)
          && tasksReported == old(tasksReported) + 1 && tasksFailed == old(tasksFailed)
      ensures id != "" && (task !in old(store.tasks) || old(store.tasks)[task].body.status != Assigned) ==>
        r == Ok(Unit.Unit) && store.State() == old(store.State()) && tasksReported == old(tasksReported)
      ensures tasksClaimed - old(tasksClaimed) == tasksReported - old(tasksReported) + tasksFailed - old(tasksFailed)
    {
      var claim := store.Claim(task, id, grant);
      if claim.Err? {
        if claim.error in {Conflict, NotFound, InvalidTransition} {
          return Ok(Unit.Unit);
        }
        errors := errors + 1;
        return Err(claim.error);
      }
      tasksClaimed := tasksClaimed + 1;
      ExecuteIsClaimAndReport(old(store.State()), id, task, grant);
      if fault {
        r := Err(Internal);
      } else {
        r := store.Report(task, id, sm);
      }
      if r.Err? {
        tasksFailed := tasksFailed + 1;
        return;
      }
      tasksReported := tasksReported + 1;
    }

    /** One poll. It completes exactly the first min(n, b) of the n assigned tasks, lowest priority number
        first and then oldest, and nothing else; b is the batch size if that is 1 to 100, and otherwise 10. */
    method ExecuteOnce(store: PilotStore, sm: StateMachine<PilotStatus>, grants: seq<Grant>)
      returns (executed: nat, picked: seq<Id>)
      requires store.Valid() && forall a, b :: sm.CanTransition(a, b) <==> PilotEdge(a, b)
      requires id != "" && |grants| >= BatchLimit(batchSize) && FreshGrants(store.State(), grants)
      modifies this, store
      ensures store.Valid()
      ensures Top(Claimable(old(store.tasks)), picked, BatchLimit(batchSize)) && |picked| <= |grants|
      ensures forall t :: t in picked ==> t in old(store.tasks)
      ensures executed == |picked| && tasksReported == old(tasksReported) + executed
      ensures FirstAssigned(old(store.tasks), picked, if 1 <= batchSize <= 100 then batchSize else 10)
      ensures forall t :: t in picked ==> t in store.tasks && CompletedBy(old(store.tasks)[t], store.tasks[t], id)
      ensures store.State() == ExecuteFirst(old(store.State()), id, picked, grants, |picked|)
      ensures forall i :: 0 <= i < |picked| ==>
        store.tasks[picked[i]] == Finished(old(store.tasks)[picked[i]], id, grants[i])
      ensures forall t :: t in old(store.tasks) && t !in picked ==> store.tasks[t] == old(store.tasks)[t]
      ensures forall l :: l in old(store.leases) ==> l in store.leases && store.leases[l] == old(store.leases)[l]
    {
      picked := store.ListClaimable(batchSize);
      PickedOnce(store.tasks, picked, BatchLimit(batchSize));
      ExecuteFirstTasks(store.State(), id, picked, grants, |picked|);
      assert picked[..|picked|] == picked;
      executed := ExecuteListed(store, sm, picked, grants);
      forall l | l in old(store.leases) ensures l in store.leases && store.leases[l] == old(store.leases)[l] {
        ExecuteFirstOldLeases(old(store.State()), id, picked, grants, |picked|, l);
      }
    }

    /** The loop of ExecuteOnce over the tasks it has listed. */
    method ExecuteListed(store: PilotStore, sm: StateMachine<PilotStatus>, picked: seq<Id>, grants: seq<Grant>)
      returns (executed: nat)
      requires store.Valid() && forall a, b :: sm.CanTransition(a, b) <==> PilotEdge(a, b)
      requires id != "" && |picked| <= |grants| && FreshGrants(store.State(), grants) && Distinct(picked)
      requires forall t :: t in picked ==> t in store.tasks && store.tasks[t].body.status == Assigned
      modifies this, store
      ensures store.Valid()
      ensures executed == |picked| && tasksReported == old(tasksReported) + executed
      ensures store.State() == ExecuteFirst(old(store.State()), id, picked, grants, |picked|)
    {
      ghost var start := store.State();
      executed := 0;
      for i := 0 to |picked|
        invariant store.Valid() && executed == i && tasksReported == old(tasksReported) + executed
        invariant store.State() == ExecuteFirst(start, id, picked, grants, i)
      {
        ExecuteNext(start, id, picked, grants, i);
        var r := ClaimAndExecute(store, sm, picked[i], grants[i], false);
        if r.Ok? {
          executed := executed + 1;
        }
      }
    }

    /** k calls complete the first min(n, k * b) of the n assigned tasks, in ORDER BY order and each under
        a claim of this worker, and change no other task; so ceil(n / b) calls leave none assigned. */
    method Drain(store: PilotStore, sm: StateMachine<PilotStatus>, grants: seq<seq<Grant>>)
      returns (executed: nat, ghost done: seq<Id>)
      requires store.Valid() && forall a, b :: sm.CanTransition(a, b) <==> PilotEdge(a, b)
      requires id != "" && AllFresh(store.State(), grants, 0, BatchLimit(batchSize))
      modifies this, store
      ensures store.Valid()
      ensures executed == |done| && Top(Claimable(old(store.tasks)), done, |grants| * BatchLimit(batchSize))
      ensures Drained(old(store.tasks), store.tasks, id, done)
      ensures FirstAssigned(old(store.tasks), done, |grants| * (if 1 <= batchSize <= 100 then batchSize else 10))
      ensures |AssignedIds(store.tasks)| == |AssignedIds(old(store.tasks))| - executed
    {
      executed, done := 0, [];
      ghost var start, n, b := store.tasks, |AssignedIds(store.tasks)|, BatchLimit(batchSize);
      for i := 0 to |grants|
        invariant store.Valid() && AllFresh(store.State(), grants, i, b)
        invariant executed == Min(n, i * b) && |AssignedIds(store.tasks)| == n - executed
        invariant Drained(start, store.tasks, id, done) && |done| == executed
      {
        var count;
        count, done := DrainOnce(store, sm, grants, i, start, done);
        executed := executed + count;
      }
      DrainedTop(start, store.tasks, id, done, |grants| * b);
      TopIsFirst(start, done, |grants| * b);
    }

    /** One of the calls of Drain, which began with the table `start` and has done `done`. */
    method DrainOnce(store: PilotStore, sm: StateMachine<PilotStatus>, grants: seq<seq<Grant>>, i: nat,
                     ghost start: map<Id, Row>, ghost done: seq<Id>)
      returns (count: nat, ghost more: seq<Id>)
      requires store.Valid() && forall a, b :: sm.CanTransition(a, b) <==> PilotEdge(a, b)
      requires id != "" && i < |grants| && AllFresh(store.State(), grants, i, BatchLimit(batchSize))
      requires Drained(start, store.tasks, id, done)
      modifies this, store
      ensures store.Valid() && AllFresh(store.State(), grants, i + 1, BatchLimit(batchSize))
      ensures count == Min(|AssignedIds(old(store.tasks))|, BatchLimit(batchSize)) && |more| == |done| + count
      ensures |AssignedIds(store.tasks)| == |AssignedIds(old(store.tasks))| - count
      ensures Drained(start, store.tasks, id, more)
    {
      ghost var before := store.State();
      ghost var picked;
      count, picked := ExecuteOnce(store, sm, grants[i]);
      DrainStep(before, id, picked, grants, i, BatchLimit(batchSize));
      DrainMore(start, before.tasks, store.tasks, id, done, picked, grants[i], BatchLimit(batchSize));
      more := done + picked;
    }
  }

  /** Completed by w in two steps from an unclaimed row. */
  predicate CompletedBy(old_: Row, new_: Row, w: string) {
    && new_.version == old_.version + 2
    && new_.body == old_.body.(status := PilotStatus.Completed, claimedBy := w,
                               leaseId := new_.body.leaseId, expires := new_.body.expires)
  }

  /** w has completed the tasks `done`, all assigned and taken in order, and no other task has changed. */
  ghost predicate Drained(a: map<Id, Row>, b: map<Id, Row>, w: string, done: seq<Id>) {
    && b.Keys == a.Keys && Distinct(done)
    && (forall id :: id in done ==> id in Claimable(a) && CompletedBy(a[id], b[id], w))
    && (forall id :: id in a && id !in done ==> b[id] == a[id])
    && InOrder(Claimable(a), done)
    && (forall i, id :: 0 <= i < |done| && id in Claimable(b) ==> !Before(Claimable(b)[id], Claimable(a)[done[i]]))
  }

  ghost predicate InOrder(keys: map<Id, Key>, ids: seq<Id>)
    requires forall id :: id in ids ==> id in keys
  {
    forall i, j :: 0 <= i < j < |ids| ==> !Before(keys[ids[j]], keys[ids[i]])
  }

  lemma DrainMore(a: map<Id, Row>, b: map<Id, Row>, c: map<Id, Row>, w: string, done: seq<Id>, picked: seq<Id>,
                  grants: seq<Grant>, n: nat)
    requires Drained(a, b, w, done) && Top(Claimable(b), picked, n) && c.Keys == b.Keys && |picked| <= |grants|
    requires forall i :: 0 <= i < |picked| ==> c[picked[i]] == Finished(b[picked[i]], w, grants[i])
    requires forall id :: id in b && id !in picked ==> c[id] == b[id]
    ensures Drained(a, c, w, done + picked)
  {
    forall id | id in Claimable(b) ensures id !in done && id in Claimable(a) && Claimable(b)[id] == Claimable(a)[id] {
    }
    forall id | id in picked ensures id in Claimable(a) && id !in done && CompletedBy(a[id], c[id], w) {
      assert id in Claimable(b);
    }
    DrainOrder(a, b, c, w, done, picked, n);
  }

  lemma DrainOrder(a: map<Id, Row>, b: map<Id, Row>, c: map<Id, Row>, w: string, done: seq<Id>, picked: seq<Id>, n: nat)
    requires Drained(a, b, w, done) && Top(Claimable(b), picked, n)
    requires forall id :: id in Claimable(b) ==> id in Claimable(a) && Claimable(b)[id] == Claimable(a)[id]
    requires forall id :: id in Claimable(c) ==> id in b && id !in picked && c[id] == b[id]
    ensures (forall id :: id in done + picked ==> id in Claimable(a)) && InOrder(Claimable(a), done + picked)
    ensures forall i, id :: 0 <= i < |done + picked| && id in Claimable(c) ==>
      !Before(Claimable(c)[id], Claimable(a)[(done + picked)[i]])
  {
    forall id | id in Claimable(c) ensures id in Claimable(b) && id !in picked && Claimable(c)[id] == Claimable(b)[id] {
    }
  }

  /** The tasks done are the first of those that were assigned. */
  lemma DrainedTop(a: map<Id, Row>, b: map<Id, Row>, w: string, done: seq<Id>, n: nat)
    requires Drained(a, b, w, done) && |done| == Min(|AssignedIds(a)|, n)
    ensures Top(Claimable(a), done, n)
  {
    ClaimableCount(a);
    forall i, id | 0 <= i < |done| && id in Claimable(a) && id !in done
      ensures !Before(Claimable(a)[id], Claimable(a)[done[i]])
    {
      assert id in Claimable(b);
    }
  }

  function Min(a: int, b: int): int { if a < b then a else b }

  /** From the i-th on, each poll's grants are enough, fresh, and different from the other polls'. */
  ghost predicate AllFresh(db: Db, grants: seq<seq<Grant>>, i: nat, b: nat) {
    && (forall j :: i <= j < |grants| ==> |grants[j]| >= b && FreshGrants(db, grants[j]))
    && (forall j, k :: i <= j < k < |grants| ==> Disjoint(grants[j], grants[k]))
  }

  lemma DrainStep(a: Db, w: string, picked: seq<Id>, grants: seq<seq<Grant>>, i: nat, b: nat)
    requires i < |grants| && AllFresh(a, grants, i, b) && Top(Claimable(a.tasks), picked, b)
    requires |picked| <= |grants[i]| && forall id :: id in picked ==> id in a.tasks
    ensures var c := ExecuteFirst(a, w, picked, grants[i], |picked|);
      && |picked| == Min(|AssignedIds(a.tasks)|, b)
      && |AssignedIds(c.tasks)| == |AssignedIds(a.tasks)| - |picked|
      && AllFresh(c, grants, i + 1, b)
  {
    PickedOnce(a.tasks, picked, b);
    ClaimableCount(a.tasks);
    ExecutedAreTaken(a, w, picked, grants[i]);
    forall j | i < j < |grants| ensures FreshGrants(ExecuteFirst(a, w, picked, grants[i], |picked|), grants[j]) {
      OthersStayFresh(a, w, picked, grants[i], grants[j]);
    }
  }

  predicate Disjoint(a: seq<Grant>, b: seq<Grant>) {
    forall x, y :: 0 <= x < |a| && 0 <= y < |b| ==> a[x].lease != b[y].lease
  }

  lemma PickedOnce(tasks: map<Id, Row>, ids: seq<Id>, n: nat)
    requires Top(Claimable(tasks), ids, n)
    ensures Distinct(ids)
    ensures forall id :: id in ids ==> id in tasks && tasks[id].body.status == Assigned
  {
    forall id | id in ids ensures id in tasks && tasks[id].body.status == Assigned {
      assert id in Claimable(tasks);
    }
  }

  /** Executing assigned tasks takes exactly those off the assigned ones. */
  lemma ExecutedAreTaken(a: Db, w: string, picked: seq<Id>, grants: seq<Grant>)
    requires Distinct(picked) && |picked| <= |grants|
    requires forall id :: id in picked ==> id in a.tasks && a.tasks[id].body.status == Assigned
    ensures |AssignedIds(ExecuteFirst(a, w, picked, grants, |picked|).tasks)| == |AssignedIds(a.tasks)| - |picked|
  {
    var b := ExecuteFirst(a, w, picked, grants, |picked|);
    ExecuteFirstTasks(a, w, picked, grants, |picked|);
    assert picked[..|picked|] == picked;
    forall id | id in a.tasks ensures id in AssignedIds(b.tasks) <==> id in AssignedIds(a.tasks) && id !in picked {
      if id in picked {
        var i :| 0 <= i < |picked| && picked[i] == id;
        assert b.tasks[picked[i]] == Finished(a.tasks[picked[i]], w, grants[i]);
      }
    }
    assert AssignedIds(b.tasks) == AssignedIds(a.tasks) - Elems(picked);
    SizeOfDistinct(picked);
  }

  /** Grants with other lease ids stay fresh. */
  lemma OthersStayFresh(a: Db, w: string, ids: seq<Id>, grants: seq<Grant>, others: seq<Grant>)
    requires |ids| <= |grants| && FreshGrants(a, grants) && FreshGrants(a, others) && Disjoint(grants, others)
    requires forall id :: id in ids ==> id in a.tasks
    ensures FreshGrants(ExecuteFirst(a, w, ids, grants, |ids|), others)
  {
    forall y | 0 <= y < |others| ensures others[y].lease !in ExecuteFirst(a, w, ids, grants, |ids|).leases {
      if others[y].lease in ExecuteFirst(a, w, ids, grants, |ids|).leases {
        ExecuteFirstNewLeases(a, w, ids, grants, |ids|, others[y].lease);
        assert false;
      }
    }
  }

  function Elems(ids: seq<Id>): set<Id> {
    set id | id in ids
  }

  lemma {:induction false} SizeOfDistinct(ids: seq<Id>)
    requires Distinct(ids)
    ensures |Elems(ids)| == |ids|
  {
    if ids != [] {
      var init, last := ids[..|ids| - 1], ids[|ids| - 1];
      SizeOfDistinct(init);
      assert last !in Elems(init);
      assert ids == init + [last];
      assert Elems(ids) == Elems(init) + {last};
    }
  }
}
