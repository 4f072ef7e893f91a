/** The berthing service over the window and escalation tables, one call at a time. */
module Berthing {
  import opened Wrappers
  import opened StateMachines
  import opened OptimisticRow
  import opened Selection
  import W = Windows

  type Row = Stored<W.Window>

  /** A row of escalation_records. */
  datatype Entry = Entry(window: Id, step: W.Escalation)

  /** A window to store under a new id; the two instants are in nanoseconds, and stored in whole seconds. */
  datatype CreateRequest = CreateRequest(
    id: Id, declaration: Id, berth: string, ship: string, effective: int, deadline: int)

  datatype Db = Db(windows: map<Id, Row>, records: seq<Entry>)

  function Activated(r: Row): Row { Stored(r.version + 1, r.body.(status := Effective)) }

  /** The escalation statement for a window read as w. */
  function RaiseOf(w: W.Window): W.Stmt { W.SetAssigned(W.LevelAssignee(w.level + 1), w.level + 1) }

  function Raised(r: Row): Row { Stored(r.version + 1, W.Apply(RaiseOf(r.body), r.body)) }

  function StepOf(r: Row): W.Escalation { W.Escalation(r.body.level, r.body.level + 1) }

  /** The records of one window, oldest first. */
  function Trail(records: seq<Entry>, id: Id): seq<W.Escalation> {
    if records == [] then []
    else
      var last := records[|records| - 1];
      Trail(records[..|records| - 1], id) + (if last.window == id then [last.step] else [])
  }

  /** 0-1, 1-2, ..., (n-1)-n. */
  function Chain(n: nat): seq<W.Escalation> {
    if n == 0 then [] else Chain(n - 1) + [W.Escalation(n - 1, n)]
  }

  lemma {:induction false} TrailOfAppend(records: seq<Entry>, e: Entry, id: Id)
    ensures Trail(records + [e], id) == Trail(records, id) + (if e.window == id then [e.step] else [])
  {
    assert (records + [e])[..|records|] == records;
  }

  /** The table when the windows of `done` have been looked at by the activation step. */
  function ActivatedOf(snap: map<Id, Row>, done: set<Id>, now: int): map<Id, Row> {
    map id | id in snap :: if id in done && W.Activatable(snap[id].body, now) then Activated(snap[id]) else snap[id]
  }

  /** The windows of `done` that the activation step changes. */
  function Hits(snap: map<Id, Row>, done: set<Id>, now: int): set<Id> {
    set id | id in done && id in snap && W.Activatable(snap[id].body, now)
  }

  lemma ActivateStep(snap: map<Id, Row>, done: set<Id>, now: int, id: Id)
    requires id in snap && id !in done
    ensures var t := ActivatedOf(snap, done, now);
      if W.Activatable(snap[id].body, now) then
        ActivatedOf(snap, done + {id}, now) == t[id := Activated(snap[id])]
        && |Hits(snap, done + {id}, now)| == |Hits(snap, done, now)| + 1
      else
        ActivatedOf(snap, done + {id}, now) == t && Hits(snap, done + {id}, now) == Hits(snap, done, now)
  {
    if W.Activatable(snap[id].body, now) {
      assert Hits(snap, done + {id}, now) == Hits(snap, done, now) + {id};
    } else {
      assert Hits(snap, done + {id}, now) == Hits(snap, done, now);
    }
  }

  lemma ActivateAll(snap: map<Id, Row>, done: set<Id>, now: int)
    requires forall id :: id in snap && W.Activatable(snap[id].body, now) ==> id in done
    ensures ActivatedOf(snap, done, now) == ActivatedOf(snap, snap.Keys, now)
    ensures Hits(snap, done, now) == Hits(snap, snap.Keys, now)
  {
  }

  /** The table after one escalation step at `now`. */
  function EscalatedAt(snap: map<Id, Row>, now: int): map<Id, Row> {
    map id | id in snap :: if W.Overdue(snap[id].body, now) then Raised(snap[id]) else snap[id]
  }

  // ---- allocation

  function NewRow(req: CreateRequest): Row {
    Stored(1, W.Window(Allocated, 0, W.Nobody, req.effective / SECOND, req.deadline / SECOND))
  }

  predicate WellFormed(req: CreateRequest) { req.berth != "" && req.ship != "" && req.effective < req.deadline }

  /** The insert fails: the declaration is not there, or the id is taken. */
  predicate Refused(t: map<Id, Row>, declared: set<Id>, req: CreateRequest) {
    req.declaration !in declared || req.id in t
  }

  /** The table with the first n requests of a batch inserted. */
  function Inserted(t: map<Id, Row>, reqs: seq<CreateRequest>, n: nat): map<Id, Row>
    requires n <= |reqs|
  {
    if n == 0 then t else Inserted(t, reqs, n - 1)[reqs[n - 1].id := NewRow(reqs[n - 1])]
  }

  /** How many rows of a batch are stored, the first n of which are. */
  function RowsStored(t: map<Id, Row>, reqs: seq<CreateRequest>, declared: set<Id>, n: nat): (r: nat)
    requires n <= |reqs|
    ensures n <= r <= |reqs|
    decreases |reqs| - n
  {
    if n == |reqs| || Refused(Inserted(t, reqs, n), declared, reqs[n]) then n
    else RowsStored(t, reqs, declared, n + 1)
  }

  /** The table after a batch. */
  function AfterBatch(t: map<Id, Row>, reqs: seq<CreateRequest>, declared: set<Id>): map<Id, Row> {
    Inserted(t, reqs, RowsStored(t, reqs, declared, 0))
  }

  lemma InsertedKeys(t: map<Id, Row>, reqs: seq<CreateRequest>, n: nat)
    requires n <= |reqs|
    ensures forall id :: id in Inserted(t, reqs, n) <==> id in t || exists i :: 0 <= i < n && reqs[i].id == id
  {
  }

  /** A batch leaves no trace exactly when its first row is refused. */
  lemma NoTraceExactly(t: map<Id, Row>, reqs: seq<CreateRequest>, declared: set<Id>)
    requires reqs != []
    ensures AfterBatch(t, reqs, declared) == t <==> Refused(t, declared, reqs[0])
  {
    var n := RowsStored(t, reqs, declared, 0);
    if !Refused(t, declared, reqs[0]) {
      assert n >= 1;
      InsertedKeys(t, reqs, n);
      assert reqs[0].id in AfterBatch(t, reqs, declared);
    }
  }

  lemma {:induction false} AllAccepted(t: map<Id, Row>, reqs: seq<CreateRequest>, declared: set<Id>, n: nat)
    requires n <= |reqs| && FreshIds(t, reqs)
    ensures RowsStored(t, reqs, declared, n) == |reqs| <==>
      forall i :: n <= i < |reqs| ==> reqs[i].declaration in declared
    decreases |reqs| - n
  {
    if n < |reqs| {
      InsertedKeys(t, reqs, n);
      AllAccepted(t, reqs, declared, n + 1);
    }
  }

  predicate FreshIds(t: map<Id, Row>, reqs: seq<CreateRequest>) {
    && (forall i :: 0 <= i < |reqs| ==> reqs[i].id !in t)
    && (forall i, j :: 0 <= i < j < |reqs| ==> reqs[i].id != reqs[j].id)
  }

  /** With fresh ids a batch stores all its rows or none exactly when every declaration exists or the
      first one does not. */
  lemma AllOrNothingExactly(t: map<Id, Row>, reqs: seq<CreateRequest>, declared: set<Id>)
    requires reqs != [] && FreshIds(t, reqs)
    ensures var u := AfterBatch(t, reqs, declared);
      u == t || u == Inserted(t, reqs, |reqs|) <==>
        (forall i :: 0 <= i < |reqs| ==> reqs[i].declaration in declared) || reqs[0].declaration !in declared
  {
    var n := RowsStored(t, reqs, declared, 0);
    NoTraceExactly(t, reqs, declared);
    AllAccepted(t, reqs, declared, 0);
    InsertedKeys(t, reqs, n);
    InsertedKeys(t, reqs, |reqs|);
    if n < |reqs| {
      assert reqs[n].id in Inserted(t, reqs, |reqs|) && reqs[n].id !in Inserted(t, reqs, n);
    }
  }

  /** Such a batch: two items, the second for a declaration that does not exist. One row is stored. */
  lemma PartialBatch(a: CreateRequest, b: CreateRequest)
    requires a.id != b.id && a.declaration != b.declaration
    ensures RowsStored(map[], [a, b], {a.declaration}, 0) == 1
    ensures AfterBatch(map[], [a, b], {a.declaration}) == map[a.id := NewRow(a)]
  {
    assert Inserted(map[], [a, b], 1) == map[a.id := NewRow(a)];
    assert RowsStored(map[], [a, b], {a.declaration}, 1) == 1;
  }

  predicate ChainedAt(windows: map<Id, Row>, records: seq<Entry>, id: Id) {
    Trail(records, id) == if id in windows then Chain(windows[id].body.level) else []
  }

  /** Every window's records are the complete chain up to its level. */
  ghost predicate Chained(windows: map<Id, Row>, records: seq<Entry>) {
    forall id :: ChainedAt(windows, records, id)
  }

  /** Whatever leaves the levels and the records alone keeps the chains; a new window has level 0. */
  lemma {:induction false} LevelsKeepChains(t: map<Id, Row>, u: map<Id, Row>, records: seq<Entry>)
    requires Chained(t, records) && t.Keys <= u.Keys
    requires forall id :: id in u ==> u[id].body.level == if id in t then t[id].body.level else 0
    ensures Chained(u, records)
  {
    forall id ensures ChainedAt(u, records, id) {
      assert ChainedAt(t, records, id);
    }
  }

  lemma RaiseKeepsChains(t: map<Id, Row>, records: seq<Entry>, id: Id)
    requires Chained(t, records) && id in t
    ensures Chained(t[id := Raised(t[id])], records + [Entry(id, StepOf(t[id]))])
  {
    var u, after := t[id := Raised(t[id])], records + [Entry(id, StepOf(t[id]))];
    forall o ensures ChainedAt(u, after, o) {
      assert ChainedAt(t, records, o);
      RaiseKeepsChain(t, records, id, o);
    }
  }

  lemma {:induction false} RaiseKeepsChain(t: map<Id, Row>, records: seq<Entry>, id: Id, o: Id)
    requires ChainedAt(t, records, o) && id in t
    ensures ChainedAt(t[id := Raised(t[id])], records + [Entry(id, StepOf(t[id]))], o)
  {
    TrailOfAppend(records, Entry(id, StepOf(t[id])), o);
  }

  /** The records of escalating the first n listed windows. */
  function Steps(snap: map<Id, Row>, ids: seq<Id>, n: nat): seq<Entry>
    requires n <= |ids| && forall id :: id in ids ==> id in snap
  {
    if n == 0 then [] else Steps(snap, ids, n - 1) + [Entry(ids[n - 1], StepOf(snap[ids[n - 1]]))]
  }

  /** The table after them. */
  function RaisedFirst(snap: map<Id, Row>, ids: seq<Id>, n: nat): map<Id, Row>
    requires n <= |ids| && forall id :: id in ids ==> id in snap
  {
    if n == 0 then snap else RaisedFirst(snap, ids, n - 1)[ids[n - 1] := Raised(snap[ids[n - 1]])]
  }

  lemma {:induction false} RaisedFirstAt(snap: map<Id, Row>, ids: seq<Id>, n: nat)
    requires n <= |ids| && forall id :: id in ids ==> id in snap
    ensures RaisedFirst(snap, ids, n).Keys == snap.Keys
    ensures forall id :: id in snap ==>
      RaisedFirst(snap, ids, n)[id] == if id in ids[..n] then Raised(snap[id]) else snap[id]
  {
    if n > 0 {
      RaisedFirstAt(snap, ids, n - 1);
      assert ids[..n] == ids[..n - 1] + [ids[n - 1]];
    }
  }

  lemma {:induction false} StepsKeepChains(snap: map<Id, Row>, records: seq<Entry>, ids: seq<Id>, n: nat)
    requires Chained(snap, records) && n <= |ids| && forall id :: id in ids ==> id in snap
    requires Distinct(ids)
    ensures Chained(RaisedFirst(snap, ids, n), records + Steps(snap, ids, n))
  {
    if n == 0 {
      assert records + [] == records;
    } else {
      StepsKeepChains(snap, records, ids, n - 1);
      RaisedFirstAt(snap, ids, n - 1);
      RaiseKeepsChains(RaisedFirst(snap, ids, n - 1), records + Steps(snap, ids, n - 1), ids[n - 1]);
      assert records + Steps(snap, ids, n) ==
        (records + Steps(snap, ids, n - 1)) + [Entry(ids[n - 1], StepOf(snap[ids[n - 1]]))];
    }
  }

  /** When the list is exactly the overdue windows, exactly those were raised. */
  lemma RaisedAll(snap: map<Id, Row>, ids: seq<Id>, now: int)
    requires forall id :: id in ids <==> id in snap && W.Overdue(snap[id].body, now)
    ensures RaisedFirst(snap, ids, |ids|) == EscalatedAt(snap, now)
  {
    RaisedFirstAt(snap, ids, |ids|);
    assert ids[..|ids|] == ids;
  }

  lemma {:induction false} InsertsKeepChains(t: map<Id, Row>, records: seq<Entry>, reqs: seq<CreateRequest>,
                                             declared: set<Id>, n: nat)
    requires Chained(t, records) && n <= RowsStored(t, reqs, declared, 0)
    ensures Chained(Inserted(t, reqs, n), records)
  {
    if n > 0 {
      InsertsKeepChains(t, records, reqs, declared, n - 1);
      NotRefused(t, reqs, declared, 0, n - 1);
      LevelsKeepChains(Inserted(t, reqs, n - 1), Inserted(t, reqs, n), records);
    }
  }

  lemma {:induction false} NotRefused(t: map<Id, Row>, reqs: seq<CreateRequest>, declared: set<Id>, from: nat, i: nat)
    requires from <= i < |reqs| && i < RowsStored(t, reqs, declared, from)
    ensures !Refused(Inserted(t, reqs, i), declared, reqs[i])
    decreases i - from
  {
    if from < i {
      NotRefused(t, reqs, declared, from + 1, i);
    }
  }

  // ---- sequences of calls

  /** The calls that change windows or records. Create is a batch of one; Release is Move to released;
      `order` is what the expired-windows query lists. */
  datatype Call =
    | Allocate(reqs: seq<CreateRequest>, declared: set<Id>)
    | Move(id: Id, target: WindowStatus)
    | Activate(now: int)
    | Escalate(now: int, order: seq<Id>)

  ghost predicate Possible(db: Db, c: Call) {
    c.Escalate? ==>
      && Distinct(c.order)
      && forall id :: id in c.order <==> id in db.windows && W.Overdue(db.windows[id].body, c.now)
  }

  ghost function After(db: Db, c: Call): Db
    requires Possible(db, c)
  {
    match c
    case Allocate(reqs, declared) => db.(windows := AfterBatch(db.windows, reqs, declared))
    case Move(id, target) =>
      if id in db.windows && WindowEdge(db.windows[id].body.status, target) then
        var r := db.windows[id];
        db.(windows := db.windows[id := Stored(r.version + 1, r.body.(status := target))])
      else db
    case Activate(now) => db.(windows := ActivatedOf(db.windows, db.windows.Keys, now))
    case Escalate(now, order) =>
      Db(RaisedFirst(db.windows, order, |order|), db.records + Steps(db.windows, order, |order|))
  }

  /** Every call leaves a window alone, or moves it one version and its status along the table, except that
      escalating an escalated window keeps its status; a window it adds is allocated, at level 0. */
  lemma CallMovesAlongTable(db: Db, c: Call, id: Id)
    requires Possible(db, c)
    ensures id in db.windows ==> id in After(db, c).windows
    ensures id in After(db, c).windows ==>
      var b := After(db, c).windows[id];
      if id in db.windows then
        var a := db.windows[id];
        b == a
        || (b.version == a.version + 1
            && (WindowEdge(a.body.status, b.body.status) || a.body.status == b.body.status == Escalated))
      else b.version == 1 && b.body.status == Allocated && b.body.level == 0 && b.body.assignee == W.Nobody
  {
    match c
    case Allocate(reqs, declared) =>
      BatchRows(db.windows, reqs, declared, RowsStored(db.windows, reqs, declared, 0), id);
    case Escalate(_, order) =>
      RaisedFirstAt(db.windows, order, |order|);
      assert order[..|order|] == order;
    case _ =>
  }

  /** Of the first n rows of a batch, all stored, each is as it was requested, in whole seconds, and no row
      that was there before has changed. */
  lemma {:induction false} BatchRows(t: map<Id, Row>, reqs: seq<CreateRequest>, declared: set<Id>, n: nat, id: Id)
    requires n <= RowsStored(t, reqs, declared, 0)
    ensures id in Inserted(t, reqs, n) ==>
      if id in t then Inserted(t, reqs, n)[id] == t[id]
      else
        exists i :: 0 <= i < n && reqs[i].id == id && reqs[i].declaration in declared
          && Inserted(t, reqs, n)[id] == Stored(1, W.Window(Allocated, 0, W.Nobody, reqs[i].effective / 1_000_000_000,
                                                            reqs[i].deadline / 1_000_000_000))
    ensures id in t ==> id in Inserted(t, reqs, n)
  {
    if n > 0 {
      BatchRows(t, reqs, declared, n - 1, id);
      NotRefused(t, reqs, declared, 0, n - 1);
      InsertedKeys(t, reqs, n - 1);
      if id in Inserted(t, reqs, n - 1) && id !in t {
        var i :| 0 <= i < n - 1 && reqs[i].id == id && reqs[i].declaration in declared
          && Inserted(t, reqs, n - 1)[id] == Stored(1, W.Window(Allocated, 0, W.Nobody,
                                reqs[i].effective / 1_000_000_000, reqs[i].deadline / 1_000_000_000));
        assert 0 <= i < n;
      } else if id !in t && reqs[n - 1].id == id {
        assert 0 <= n - 1 < n && reqs[n - 1].declaration in declared;
      }
    }
  }

  lemma CallKeepsChains(db: Db, c: Call)
    requires Chained(db.windows, db.records) && Possible(db, c)
    ensures Chained(After(db, c).windows, After(db, c).records)
  {
    match c
    case Allocate(reqs, declared) =>
      InsertsKeepChains(db.windows, db.records, reqs, declared, RowsStored(db.windows, reqs, declared, 0));
    case Escalate(now, order) => StepsKeepChains(db.windows, db.records, order, |order|);
    case _ => LevelsKeepChains(db.windows, After(db, c).windows, db.records);
  }

  ghost predicate AllPossible(db: Db, cs: seq<Call>)
    decreases |cs|
  {
    cs != [] ==> Possible(db, cs[0]) && AllPossible(After(db, cs[0]), cs[1..])
  }

  ghost function AfterAll(db: Db, cs: seq<Call>): Db
    requires AllPossible(db, cs)
    decreases |cs|
  {
    if cs == [] then db else AfterAll(After(db, cs[0]), cs[1..])
  }

  /** Main result. Over every sequence of calls, allocations included, the records of each window are the
      chain 0-1, 1-2, ..., (L-1)-L for its level L, and there are no others. */
  lemma {:induction false} CallsKeepChains(db: Db, cs: seq<Call>)
    requires Chained(db.windows, db.records) && AllPossible(db, cs)
    ensures Chained(AfterAll(db, cs).windows, AfterAll(db, cs).records)
    decreases |cs|
  {
    if cs != [] {
      CallKeepsChains(db, cs[0]);
      CallsKeepChains(After(db, cs[0]), cs[1..]);
    }
  }

  class WindowStore {
    var windows: map<Id, Row>
    var records: seq<Entry>

    ghost function State(): Db
      reads this
    {
      Db(windows, records)
    }

    ghost predicate Valid()
      reads this
    {
      Chained(windows, records)
    }

    constructor ()
      ensures Valid() && windows == map[] && records == []
    {
      windows, records := map[], [];
    }

    // ---- statements

    /** INSERT INTO berthing_windows; `declared` lists the declarations that exist. */
    method Insert(req: CreateRequest, declared: set<Id>) returns (ok: bool)
      modifies this`windows
      ensures ok <==> !Refused(old(windows), declared, req)
      ensures windows == if ok then old(windows)[req.id := NewRow(req)] else old(windows)
    {
      ok := req.declaration in declared && req.id !in windows;
      if ok {
        windows := windows[req.id := NewRow(req)];
      }
    }

    method UpdateStatus(id: Id, status: WindowStatus, version: Version) returns (affected: nat)
      modifies this`windows
      ensures affected == if id in old(windows) && old(windows)[id].version == version then 1 else 0
      ensures windows == if affected == 0 then old(windows)
                         else old(windows)[id := Stored(version + 1, old(windows)[id].body.(status := status))]
    {
      if id !in windows || windows[id].version != version {
        return 0;
      }
      windows := windows[id := Stored(version + 1, windows[id].body.(status := status))];
      return 1;
    }

    method UpdateAssignedTo(id: Id, assignee: W.Assignee, level: nat, version: Version) returns (affected: nat)
      modifies this`windows
      ensures affected == if id in old(windows) && old(windows)[id].version == version then 1 else 0
      ensures windows ==
        if affected == 0 then old(windows)
        else old(windows)[id := Stored(version + 1, W.Apply(W.SetAssigned(assignee, level), old(windows)[id].body))]
    {
      if id !in windows || windows[id].version != version {
        return 0;
      }
      var b := windows[id].body;
      windows := windows[id := Stored(version + 1, b.(assignee := assignee, level := level, status := Escalated))];
      return 1;
    }

    method ListByStatus(status: WindowStatus) returns (ids: seq<Id>)
      ensures forall id :: id in ids <==> id in windows && windows[id].body.status == status
      ensures Distinct(ids)
      ensures forall i, j :: 0 <= i < j < |ids| ==>
        ids[i] in windows && ids[j] in windows && windows[ids[i]].body.deadline <= windows[ids[j]].body.deadline
    {
      ids := OrderBy(map id | id in windows && windows[id].body.status == status :: (windows[id].body.deadline, 0));
    }

    method ListExpired(now: int) returns (ids: seq<Id>)
      ensures forall id :: id in ids <==> id in windows && W.Overdue(windows[id].body, now)
      ensures Distinct(ids)
      ensures forall i, j :: 0 <= i < j < |ids| ==>
        ids[i] in windows && ids[j] in windows && windows[ids[i]].body.deadline <= windows[ids[j]].body.deadline
    {
      ids := OrderBy(map id | id in windows && W.Overdue(windows[id].body, now) :: (windows[id].body.deadline, 0));
    }

    // ---- service calls

    method Create(req: CreateRequest, declared: set<Id>) returns (r: Result<Id>)
      requires Valid()
      modifies this
      ensures Valid()
      ensures r == if req.berth == "" || req.ship == "" || req.deadline <= req.effective then Err(ValidationFailed)
                   else if req.declaration !in declared || req.id in old(windows) then Err(Internal) else Ok(req.id)
      ensures records == old(records)
      ensures windows == if r.Err? then old(windows)
                         else old(windows)[req.id := Stored(1, W.Window(Allocated, 0, W.Nobody,
                                                 req.effective / 1_000_000_000, req.deadline / 1_000_000_000))]
      ensures State() == if WellFormed(req) then After(old(State()), Allocate([req], declared)) else old(State())
    {
      if req.berth == "" || req.ship == "" || req.deadline <= req.effective {
        return Err(ValidationFailed);
      }
      var ok := Insert(req, declared);
      assert RowsStored(old(windows), [req], declared, 0) == if ok then 1 else 0;
      assert State() == After(old(State()), Allocate([req], declared));
      CallKeepsChains(old(State()), Allocate([req], declared));
      return if ok then Ok(req.id) else Err(Internal);
    }

    /** The store's batch insert is a plain loop: rows inserted before a failing one stay. It fails exactly
        when some row is refused in its turn, and leaves no trace exactly when that is the first one. */
    method CreateBatch(reqs: seq<CreateRequest>, declared: set<Id>) returns (ok: bool)
      requires Valid()
      modifies this
      ensures Valid() && State() == After(old(State()), Allocate(reqs, declared))
      ensures ok <==> RowsStored(old(windows), reqs, declared, 0) == |reqs|
      ensures reqs != [] ==> (windows == old(windows) <==> Refused(old(windows), declared, reqs[0]))
    {
      if reqs != [] {
        NoTraceExactly(windows, reqs, declared);
      }
      CallKeepsChains(State(), Allocate(reqs, declared));
      for i := 0 to |reqs|
        invariant RowsStored(old(windows), reqs, declared, i) == RowsStored(old(windows), reqs, declared, 0)
        invariant windows == Inserted(old(windows), reqs, i) && records == old(records)
      {
        ok := Insert(reqs[i], declared);
        if !ok {
          return false;
        }
      }
      return true;
    }

    /** The batch operation: from 1 to 50 well-formed items, or nothing is stored. After that the batch is
        not undone, so an error can leave some of its rows behind (AllOrNothingExactly). */
    method BatchAllocate(reqs: seq<CreateRequest>, declared: set<Id>) returns (r: Result<Unit>)
      requires Valid()
      modifies this
      ensures Valid()
      ensures r == Err(ValidationFailed) <==>
        !(1 <= |reqs| <= 50)
        || exists i :: 0 <= i < |reqs|
             && (reqs[i].berth == "" || reqs[i].ship == "" || reqs[i].deadline <= reqs[i].effective)
      ensures r == Err(ValidationFailed) ==> State() == old(State())
      ensures r != Err(ValidationFailed) ==>
        && State() == After(old(State()), Allocate(reqs, declared))
        && r == if RowsStored(old(windows), reqs, declared, 0) == |reqs| then Ok(Unit.Unit) else Err(Internal)
    {
      if |reqs| == 0 || |reqs| > 50 {
        return Err(ValidationFailed);
      }
      for i := 0 to |reqs|
        invariant forall k :: 0 <= k < i ==> WellFormed(reqs[k])
      {
        if reqs[i].berth == "" || reqs[i].ship == "" || reqs[i].deadline <= reqs[i].effective {
          return Err(ValidationFailed);
        }
      }
      var ok := CreateBatch(reqs, declared);
      return if ok then Ok(Unit.Unit) else Err(Internal);
    }

    /** Release is ForceIntervene to the released state. */
    method ForceIntervene(id: Id, target: WindowStatus, sm: StateMachine<WindowStatus>) returns (r: Result<Unit>)
      requires Valid()
      requires forall a, b :: sm.CanTransition(a, b) <==> WindowEdge(a, b)
      modifies this
      ensures Valid()
      ensures r == if id !in old(windows) then Err(NotFound)
                   else if WindowEdge(old(windows)[id].body.status, target) then Ok(Unit.Unit)
                   else Err(InvalidTransition)
      ensures r.Ok? ==>
        windows == old(windows)[id := Stored(old(windows)[id].version + 1, old(windows)[id].body.(status := target))]
      ensures State() == After(old(State()), Move(id, target))
    {
      if id !in windows {
        return Err(NotFound);
      }
      var w := windows[id];
      var next := sm.MustTransition(w.body.status, target);
      if next.Err? {
        return Err(InvalidTransition);
      }
      var affected := UpdateStatus(id, next.value, w.version);
      if affected == 0 {
        return Err(Conflict);
      }
      LevelsKeepChains(old(windows), windows, records);
      return Ok(Unit.Unit);
    }

    /** Activates exactly the windows inside their effective period, and counts them. */
    method ActivateEffective(now: int) returns (count: nat)
      requires Valid()
      modifies this
      ensures Valid() && State() == After(old(State()), Activate(now))
      ensures records == old(records) && windows.Keys == old(windows).Keys
      ensures forall id :: id in windows ==>
        var w := old(windows)[id];
        var due := w.body.status == Allocated
                   && w.body.effective * 1_000_000_000 <= now < w.body.deadline * 1_000_000_000;
        windows[id] == if due then Stored(w.version + 1, w.body.(status := Effective)) else w
      ensures count == |set id | id in old(windows) && windows[id] != old(windows)[id]|
    {
      var listed := ListByStatus(Allocated);
      count := ActivateListed(listed, now);
      CallKeepsChains(old(State()), Activate(now));
      ghost var changed := set id | id in old(windows) && windows[id] != old(windows)[id];
      assert changed == Hits(old(windows), old(windows).Keys, now);
    }

    /** The loop of ActivateEffective over the allocated windows it has listed. */
    method ActivateListed(listed: seq<Id>, now: int) returns (count: nat)
      requires Distinct(listed) && forall id :: id in listed <==> id in windows && windows[id].body.status == Allocated
      modifies this`windows
      ensures windows == ActivatedOf(old(windows), old(windows).Keys, now)
      ensures count == |Hits(old(windows), old(windows).Keys, now)|
    {
      var snap := windows;
      count := 0;
      ghost var done: set<Id> := {};
      for i := 0 to |listed|
        invariant forall id :: id in done <==> id in listed[..i]
        invariant windows == ActivatedOf(snap, done, now) && count == |Hits(snap, done, now)|
      {
        var id := listed[i];
        var w := snap[id];
        ActivateStep(snap, done, now, id);
        done := done + {id};
        if w.body.effective * SECOND <= now < w.body.deadline * SECOND {
          var affected := UpdateStatus(id, Effective, w.version);
          if affected > 0 {
            count := count + 1;
          }
        }
      }
      ActivateAll(snap, done, now);
    }

    /** Escalates one window from its listed snapshot and records the step. */
    method EscalateOne(id: Id, w: Row) returns (r: Result<Entry>)
      modifies this
      ensures var hit := id in old(windows) && old(windows)[id].version == w.version;
        && r == (if hit then Ok(Entry(id, StepOf(w))) else Err(Conflict))
        && records == (if hit then old(records) + [Entry(id, StepOf(w))] else old(records))
        && (hit ==>
              var level := w.body.level + 1;
              var raised := old(windows)[id].body.(status := Escalated, level := level,
                                                   assignee := W.LevelAssignee(level));
              windows == old(windows)[id := Stored(w.version + 1, raised)])
        && (!hit ==> windows == old(windows))
    {
      var level := w.body.level + 1;
      var affected := UpdateAssignedTo(id, W.LevelAssignee(level), level, w.version);
      if affected == 0 {
        return Err(Conflict);
      }
      var entry := Entry(id, W.Escalation(w.body.level, level));
      records := records + [entry];
      return Ok(entry);
    }

    /** Raises exactly the overdue windows, each by one level, with one record each. */
    method EscalateOverdue(now: int) returns (results: seq<Entry>)
      requires Valid()
      modifies this
      ensures Valid()
      ensures exists order ::
        Possible(old(State()), Escalate(now, order)) && State() == After(old(State()), Escalate(now, order))
      ensures windows == EscalatedAt(old(windows), now)
      ensures records == old(records) + results
    {
      var snap := windows;
      var expired := ListExpired(now);
      results := EscalateListed(expired);
      assert Possible(old(State()), Escalate(now, expired));
      RaisedAll(snap, expired, now);
      StepsKeepChains(snap, old(records), expired, |expired|);
    }

    /** The loop of EscalateOverdue over the windows it has listed. */
    method EscalateListed(expired: seq<Id>) returns (results: seq<Entry>)
      requires forall id :: id in expired ==> id in windows
      requires Distinct(expired)
      modifies this
      ensures windows == RaisedFirst(old(windows), expired, |expired|)
      ensures records == old(records) + results
      ensures results == Steps(old(windows), expired, |expired|)
    {
      var snap := windows;
      results := [];
      for i := 0 to |expired|
        invariant records == old(records) + results && results == Steps(snap, expired, i)
        invariant windows == RaisedFirst(snap, expired, i)
      {
        var r := EscalateNth(expired, i, snap[expired[i]], snap);
        if r.Ok? {
          results := results + [r.value];
        }
      }
    }

    /** One turn of that loop, which began with the table `start`. */
    method EscalateNth(expired: seq<Id>, i: nat, w: Row, ghost start: map<Id, Row>) returns (r: Result<Entry>)
      requires i < |expired| && Distinct(expired) && forall id :: id in expired ==> id in start
      requires w == start[expired[i]] && windows == RaisedFirst(start, expired, i)
      modifies this
      ensures r == Ok(Entry(expired[i], StepOf(w))) && records == old(records) + [r.value]
      ensures windows == RaisedFirst(start, expired, i + 1)
    {
      RaisedFirstAt(start, expired, i);
      assert expired[i] !in expired[..i];
      r := EscalateOne(expired[i], w);
    }

    /** The first two stages of an engine tick, with the clock read once: each window is activated, or
        raised one level, or untouched, and its row before the tick decides which of the three. */
    method TickWindows(now: int) returns (activated: nat, escalated: seq<Entry>)
      requires Valid()
      modifies this
      ensures Valid()
      ensures windows.Keys == old(windows).Keys
      ensures forall id :: id in windows ==>
        var w := old(windows)[id];
        && !(W.Activatable(w.body, now) && W.Overdue(w.body, now))
        && windows[id] == (if W.Activatable(w.body, now) then Activated(w)
                           else if W.Overdue(w.body, now) then Raised(w) else w)
      ensures forall id :: id in windows ==>
        var w := old(windows)[id];
        var due := w.body.status == Allocated
                   && w.body.effective * 1_000_000_000 <= now < w.body.deadline * 1_000_000_000;
        var late := w.body.status in {Effective, Occupied, Escalated} && (w.body.deadline + 1) * 1_000_000_000 <= now;
        windows[id] ==
          if due then Stored(w.version + 1, w.body.(status := Effective))
          else if late then Stored(w.version + 1, w.body.(status := Escalated, level := w.body.level + 1,
                                                          assignee := W.LevelAssignee(w.body.level + 1)))
          else w
    {
      activated := ActivateEffective(now);
      forall id | id in windows && W.Activatable(old(windows)[id].body, now)
        ensures !W.Overdue(windows[id].body, now)
      {
        W.ActivatedIsNotOverdue(old(windows)[id].body, now);
      }
      escalated := EscalateOverdue(now);
      forall id | id in old(windows) {
        W.OverdueMeaning(old(windows)[id].body, now);
      }
    }
  }
}
