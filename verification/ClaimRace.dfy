/** Claim, report and preemption of one task at the level of single statements, on the task row and the
    lease table together.

    A claim updates the row and then inserts the lease; a report or a preemption updates the row, then
    looks the lease up, then closes it. A report or preemption may run between the two statements of the
    claim it ends, look for a lease that is not there yet, and leave it active for ever. A client whose
    statement is refused, or that crashes, stops where it is. Lease ids are fresh, so other tasks' leases
    play no part. */
module ClaimRace {
  import opened Wrappers
  import opened StateMachines
  import opened Runs
  import R = OptimisticRow
  import P = PilotTasks
  import S = PilotService

  /** Where a client stands. */
  datatype Pc =
    | Idle
    | Loaded(op: P.Op, read: Version, snap: P.Task)
    | Inserting(lease: Id, row: S.Lease, stored: bool, version: Version)
    | Undoing(lease: Id, version: Version)
    | LookingUp(lease: Id, status: S.LeaseStatus)
    | Closing(lease: Id, status: S.LeaseStatus, version: Version)

  /** What has happened to a lease, in order. */
  datatype Mark = ClaimWon(lease: Id) | LeaseStored(lease: Id) | LookedUp(lease: Id)

  /** `used` are the lease ids handed out so far; `log` is read by no client. */
  datatype State = State(
    id: Id,
    task: S.Row,
    leases: map<Id, S.Lease>,
    clients: map<nat, Pc>,
    used: set<Id>,
    log: seq<Mark>)
  {
    function Client(c: nat): Pc {
      if c in clients then clients[c] else Idle
    }
  }

  /** Start reads the row and decides; Step sends the client's next statement. */
  datatype Event = Start(client: nat, op: P.Op) | Step(client: nat)

  function Goto(s: State, c: nat, pc: Pc): State { s.(clients := s.clients[c := pc]) }

  function DoStart(s: State, c: nat, op: P.Op): State {
    if s.Client(c) != Idle || P.Plan(op, s.task.body) == [] || (op.Claim? && op.lease in s.used) then s
    else Goto(s, c, Loaded(op, s.task.version, s.task.body)).(used := s.used + if op.Claim? then {op.lease} else {})
  }

  /** Where a client goes after its first update, which left `version`. */
  function AfterUpdate(id: Id, op: P.Op, snap: P.Task, version: Version): Pc {
    match op
    case Claim(x, lease, expires, stored) => Inserting(lease, S.Lease(id, x, expires, S.Active, 1), stored, version)
    case Report(_) => if snap.leaseId.Some? then LookingUp(snap.leaseId.value, S.LeaseReleased) else Idle
    case Preempt(_) => if snap.leaseId.Some? then LookingUp(snap.leaseId.value, S.Revoked) else Idle
    case _ => Idle
  }

  function DoUpdate(s: State, c: nat, op: P.Op, read: Version, snap: P.Task): State
    requires P.Plan(op, snap) != []
  {
    if s.task.version != read then Goto(s, c, Idle)
    else
      Goto(s, c, AfterUpdate(s.id, op, snap, read + 1)).(
        task := S.Moved(s.task, P.Plan(op, snap)[0]),
        log := s.log + if op.Claim? then [ClaimWon(op.lease)] else [])
  }

  function DoInsert(s: State, c: nat, lease: Id, row: S.Lease, stored: bool, version: Version): State {
    if !stored || lease in s.leases then Goto(s, c, Undoing(lease, version))
    else Goto(s, c, Idle).(leases := s.leases[lease := row], log := s.log + [LeaseStored(lease)])
  }

  function DoUndo(s: State, c: nat, version: Version): State {
    if s.task.version != version then Goto(s, c, Idle)
    else Goto(s, c, Idle).(task := S.Moved(s.task, P.ClearClaim))
  }

  function DoLookUp(s: State, c: nat, lease: Id, status: S.LeaseStatus): State {
    Goto(s, c, if lease in s.leases then Closing(lease, status, s.leases[lease].version) else Idle).(
      log := s.log + [LookedUp(lease)])
  }

  function DoClose(s: State, c: nat, lease: Id, status: S.LeaseStatus, version: Version): State {
    if lease in s.leases && s.leases[lease].version == version && s.leases[lease].status == S.Active then
      Goto(s, c, Idle).(
        leases := s.leases[lease := s.leases[lease].(status := status, version := version + 1)])
    else Goto(s, c, Idle)
  }

  function DoStep(s: State, c: nat): State {
    match s.Client(c)
    case Idle => s
    case Loaded(op, read, snap) => if P.Plan(op, snap) == [] then s else DoUpdate(s, c, op, read, snap)
    case Inserting(lease, row, stored, version) => DoInsert(s, c, lease, row, stored, version)
    case Undoing(_, version) => DoUndo(s, c, version)
    case LookingUp(lease, status) => DoLookUp(s, c, lease, status)
    case Closing(lease, status, version) => DoClose(s, c, lease, status, version)
  }

  function Next(s: State, e: Event): State {
    match e
    case Start(c, op) => DoStart(s, c, op)
    case Step(c) => DoStep(s, c)
  }

  function Begin(id: Id, t: P.Task): State { State(id, R.Stored(1, t), map[], map[], {}, []) }

  function Run(s: State, events: seq<Event>): State { RunOf(Next, s, events) }

  // ---- what the log tells

  /** A lookup of the lease fell between the two statements of its claim. */
  ghost predicate FellBetween(log: seq<Mark>, l: Id) {
    exists j :: LookupBetween(log, l, j)
  }

  predicate LookupBetween(log: seq<Mark>, l: Id, j: int) {
    0 <= j < |log| && log[j] == LookedUp(l)
    && ClaimWon(l) in log[..j] && LeaseStored(l) !in log[..j] && LeaseStored(l) in log[j..]
  }

  /** The lease was looked up before it was stored, if it ever was. */
  predicate Missed(log: seq<Mark>, l: Id) {
    exists j :: 0 <= j < |log| && MissedAt(log, l, j)
  }

  predicate MissedAt(log: seq<Mark>, l: Id, j: nat)
    requires j < |log|
  {
    log[j] == LookedUp(l) && LeaseStored(l) !in log[..j]
  }

  lemma MissedAppend(log: seq<Mark>, m: Mark, l: Id)
    ensures Missed(log + [m], l) <==> Missed(log, l) || (m == LookedUp(l) && LeaseStored(l) !in log)
  {
    var after := log + [m];
    assert after[..|log|] == log;
    forall j | 0 <= j < |log| ensures MissedAt(after, l, j) <==> MissedAt(log, l, j) {
      assert after[..j] == log[..j];
    }
    if m == LookedUp(l) && LeaseStored(l) !in log {
      assert MissedAt(after, l, |log|);
    }
    if Missed(log, l) {
      var j :| 0 <= j < |log| && MissedAt(log, l, j);
      assert MissedAt(after, l, j);
    }
  }

  predicate LookupsAfterWins(log: seq<Mark>) {
    forall j :: 0 <= j < |log| && log[j].LookedUp? ==> ClaimWon(log[j].lease) in log[..j]
  }

  lemma LookupsAppend(log: seq<Mark>, m: Mark)
    requires LookupsAfterWins(log) && (m.LookedUp? ==> ClaimWon(m.lease) in log)
    ensures LookupsAfterWins(log + [m])
  {
    var after := log + [m];
    forall j | 0 <= j < |after| && after[j].LookedUp? ensures ClaimWon(after[j].lease) in after[..j] {
      assert after[..j] == log[..j];
    }
  }

  lemma StoredAfterMissed(log: seq<Mark>, l: Id)
    requires LookupsAfterWins(log)
    ensures FellBetween(log, l) <==> Missed(log, l) && LeaseStored(l) in log
  {
    if Missed(log, l) && LeaseStored(l) in log {
      var j :| 0 <= j < |log| && MissedAt(log, l, j);
      assert log == log[..j] + log[j..];
      assert LookupBetween(log, l, j);
    }
    if FellBetween(log, l) {
      var j :| LookupBetween(log, l, j);
      assert MissedAt(log, l, j) && log == log[..j] + log[j..];
    }
  }

  // ---- the invariant

  predicate HeldUnder(s: State, l: Id) { S.Held(s.task.body) && s.task.body.leaseId == Some(l) }

  /** The client won a claim under the lease and is to store it, or to give the claim up. */
  predicate Claims(pc: Pc, l: Id) {
    (pc.Inserting? || pc.Undoing?) && pc.lease == l
  }

  predicate WillStore(pc: Pc, l: Id) { pc.Inserting? && pc.lease == l }

  /** The client ended the claim under the lease and is to close it. */
  predicate Ends(pc: Pc, l: Id) {
    (pc.LookingUp? || pc.Closing?) && pc.lease == l
  }

  predicate WillClaim(pc: Pc, l: Id) {
    pc.Loaded? && pc.op.Claim? && pc.op.lease == l
  }

  predicate SamePart(a: Pc, b: Pc) {
    || (a.Loaded? && a.op.Claim? && WillClaim(b, a.op.lease))
    || ((a.Inserting? || a.Undoing?) && Claims(b, a.lease))
    || ((a.LookingUp? || a.Closing?) && Ends(b, a.lease))
  }

  predicate PcOk(s: State, pc: Pc) {
    match pc
    case Idle => true
    case Loaded(op, read, snap) =>
      && read <= s.task.version && (read == s.task.version ==> snap == s.task.body) && P.Plan(op, snap) != []
      && (op.Claim? ==> op.lease in s.used && ClaimWon(op.lease) !in s.log)
    case Inserting(l, row, _, version) =>
      && ClaimWon(l) in s.log && l !in s.leases && version <= s.task.version
      && (version == s.task.version <==> HeldUnder(s, l))
      && row == S.Lease(s.id, row.executor, row.expires, S.Active, 1)
      && (HeldUnder(s, l) ==> s.task.body.claimedBy == row.executor && s.task.body.expires == Some(row.expires))
    case Undoing(l, version) =>
      && ClaimWon(l) in s.log && l !in s.leases && version <= s.task.version
      && (version == s.task.version <==> HeldUnder(s, l))
    case LookingUp(l, status) =>
      && ClaimWon(l) in s.log && !HeldUnder(s, l) && LookedUp(l) !in s.log && status != S.Active
      && (l in s.leases ==> s.leases[l].status == S.Active)
    case Closing(l, status, version) =>
      && ClaimWon(l) in s.log && !HeldUnder(s, l) && !Missed(s.log, l) && status != S.Active
      && l in s.leases && s.leases[l].status == S.Active && s.leases[l].version == version
  }

  /** The lease is in the table, active, and says what the held row says. */
  predicate Backed(s: State, l: Id) {
    && l in s.leases && s.leases[l].status == S.Active
    && s.leases[l].executor == s.task.body.claimedBy && Some(s.leases[l].expires) == s.task.body.expires
  }

  ghost predicate LeaseOk(s: State, l: Id) {
    && (ClaimWon(l) in s.log ==> l in s.used)
    && (l in s.leases <==> LeaseStored(l) in s.log)
    && (l in s.leases ==> ClaimWon(l) in s.log && s.leases[l].task == s.id)
    && (HeldUnder(s, l) ==>
          ClaimWon(l) in s.log && LookedUp(l) !in s.log && (Backed(s, l) || exists c :: Claims(s.Client(c), l)))
    && ((l in s.leases && s.leases[l].status == S.Active) || (exists c :: WillStore(s.Client(c), l)) ==>
          HeldUnder(s, l) || Missed(s.log, l) || exists c :: Ends(s.Client(c), l))
    && (l in s.leases && Missed(s.log, l) ==> s.leases[l].status == S.Active)
  }

  ghost predicate Inv(s: State) {
    && P.ClaimColumnsAgree(s.task.body) && LookupsAfterWins(s.log)
    && (forall c :: PcOk(s, s.Client(c)))
    && (forall c, d :: c != d ==> !SamePart(s.Client(c), s.Client(d)))
    && (forall l :: LeaseOk(s, l))
  }

  /** What a client that does not act keeps, when a lease statement or none has run. */
  lemma OthersKeepPlace(s: State, t: State, c: nat, d: nat)
    requires Inv(s) && d != c && t.Client(d) == s.Client(d)
    requires t.task == s.task && t.id == s.id && s.used <= t.used
    requires forall l :: (ClaimWon(l) in t.log <==> ClaimWon(l) in s.log)
    requires forall l :: l in s.leases && !Ends(s.Client(c), l) ==> l in t.leases && t.leases[l] == s.leases[l]
    requires forall l :: l in t.leases && l !in s.leases ==>
      Claims(s.Client(c), l) && t.leases[l].status == S.Active
    requires forall l :: (LookedUp(l) in t.log && LookedUp(l) !in s.log ==> Ends(s.Client(c), l))
    requires forall l :: (Missed(t.log, l) && !Missed(s.log, l) ==> Ends(s.Client(c), l))
    ensures PcOk(t, t.Client(d))
  {
    assert PcOk(s, s.Client(d)) && !SamePart(s.Client(c), s.Client(d)) && !SamePart(s.Client(d), s.Client(c));
  }

  /** A client that keeps its part, or gives it up, stays apart from the others. */
  lemma PartsStayApart(s: State, t: State, c: nat)
    requires Inv(s) && t.clients == s.clients[c := t.Client(c)]
    requires forall pc :: SamePart(t.Client(c), pc) ==> SamePart(s.Client(c), pc)
    ensures forall d, e :: d != e ==> !SamePart(t.Client(d), t.Client(e))
  {
    forall d, e | d != e ensures !SamePart(t.Client(d), t.Client(e)) {
      assert !SamePart(s.Client(d), s.Client(e)) && !SamePart(s.Client(e), s.Client(d));
      assert SamePart(t.Client(d), t.Client(e)) <==> SamePart(t.Client(e), t.Client(d));
    }
  }

  /** Whoever else claims or ends a lease still does. */
  lemma WitnessesStay(s: State, t: State, c: nat, l: Id)
    requires t.clients == s.clients[c := t.Client(c)]
    ensures (exists d :: Claims(s.Client(d), l)) ==> Claims(s.Client(c), l) || exists d :: Claims(t.Client(d), l)
    ensures (exists d :: Ends(s.Client(d), l)) ==> Ends(s.Client(c), l) || exists d :: Ends(t.Client(d), l)
    ensures (exists d :: WillStore(t.Client(d), l)) ==>
      WillStore(t.Client(c), l) || exists d :: WillStore(s.Client(d), l)
  {
    if d :| WillStore(t.Client(d), l) {
      assert d != c ==> WillStore(s.Client(d), l);
    }
    if d :| Claims(s.Client(d), l) {
      assert d != c ==> Claims(t.Client(d), l);
    }
    if d :| Ends(s.Client(d), l) {
      assert d != c ==> Ends(t.Client(d), l);
    }
  }

  lemma StartKeepsInv(s: State, c: nat, op: P.Op)
    requires Inv(s)
    ensures Inv(DoStart(s, c, op))
  {
    var t := DoStart(s, c, op);
    if t != s {
      forall d ensures PcOk(t, t.Client(d)) {
        assert PcOk(s, s.Client(d));
        if op.Claim? {
          assert LeaseOk(s, op.lease);
        }
      }
      forall d, e | d != e ensures !SamePart(t.Client(d), t.Client(e)) {
        assert PcOk(s, s.Client(d)) && PcOk(s, s.Client(e)) && !SamePart(s.Client(d), s.Client(e));
      }
      forall l ensures LeaseOk(t, l) {
        assert LeaseOk(s, l);
        WitnessesStay(s, t, c, l);
      }
    }
  }

  /** A client gives up a place in which it neither claims nor ends anything that counts. */
  lemma LeaveKeepsInv(s: State, c: nat)
    requires Inv(s)
    requires forall l :: !Ends(s.Client(c), l) && (Claims(s.Client(c), l) ==> !HeldUnder(s, l))
    ensures Inv(Goto(s, c, Idle))
  {
    var t := Goto(s, c, Idle);
    forall d ensures PcOk(t, t.Client(d)) {
      assert PcOk(s, s.Client(d));
    }
    PartsStayApart(s, t, c);
    forall l ensures LeaseOk(t, l) {
      assert LeaseOk(s, l);
      WitnessesStay(s, t, c, l);
    }
  }

  // ---- the claim's lease

  lemma InsertKeepsInv(s: State, c: nat)
    requires Inv(s) && s.Client(c).Inserting?
    ensures Inv(DoStep(s, c))
  {
    var t := DoStep(s, c);
    assert PcOk(s, s.Client(c));
    LookupsAppend(s.log, LeaseStored(s.Client(c).lease));
    forall d ensures PcOk(t, t.Client(d)) {
      InsertKeepsPlace(s, c, d);
    }
    PartsStayApart(s, t, c);
    forall o ensures LeaseOk(t, o) {
      InsertKeepsLease(s, c, o);
    }
  }

  lemma InsertKeepsPlace(s: State, c: nat, d: nat)
    requires Inv(s) && s.Client(c).Inserting?
    ensures PcOk(DoStep(s, c), DoStep(s, c).Client(d))
  {
    assert PcOk(s, s.Client(c));
    InsertMisses(s, c);
    if d != c {
      OthersKeepPlace(s, DoStep(s, c), c, d);
    }
  }

  lemma InsertMisses(s: State, c: nat)
    requires s.Client(c).Inserting?
    ensures forall o :: Missed(DoStep(s, c).log, o) <==> Missed(s.log, o)
  {
    forall o ensures Missed(DoStep(s, c).log, o) <==> Missed(s.log, o) {
      MissedAppend(s.log, LeaseStored(s.Client(c).lease), o);
    }
  }

  lemma InsertKeepsLease(s: State, c: nat, o: Id)
    requires Inv(s) && s.Client(c).Inserting?
    ensures LeaseOk(DoStep(s, c), o)
  {
    var t, l := DoStep(s, c), s.Client(c).lease;
    assert PcOk(s, s.Client(c)) && LeaseOk(s, o);
    InsertMisses(s, c);
    WitnessesStay(s, t, c, o);
    assert Claims(t.Client(c), l) || l in t.leases;
    assert WillStore(s.Client(c), l);
  }

  lemma UndoKeepsInv(s: State, c: nat)
    requires Inv(s) && s.Client(c).Undoing?
    ensures Inv(DoStep(s, c))
  {
    var t, l, version := DoStep(s, c), s.Client(c).lease, s.Client(c).version;
    assert PcOk(s, s.Client(c)) && LeaseOk(s, l);
    if s.task.version != version {
      LeaveKeepsInv(s, c);
    } else {
      assert !HeldUnder(t, l) && t.task.version == s.task.version + 1;
      forall d ensures PcOk(t, t.Client(d)) {
        assert PcOk(s, s.Client(d));
        assert d != c ==> !SamePart(s.Client(c), s.Client(d));
      }
      PartsStayApart(s, t, c);
      forall o ensures LeaseOk(t, o) {
        assert LeaseOk(s, o);
        WitnessesStay(s, t, c, o);
        if d :| WillStore(t.Client(d), o) {
          assert WillStore(s.Client(d), o) && !SamePart(s.Client(c), s.Client(d));
        }
      }
    }
  }

  // ---- closing the lease

  lemma LookUpKeepsInv(s: State, c: nat)
    requires Inv(s) && s.Client(c).LookingUp?
    ensures Inv(DoStep(s, c))
  {
    var t := DoStep(s, c);
    assert PcOk(s, s.Client(c));
    LookupsAppend(s.log, LookedUp(s.Client(c).lease));
    forall d ensures PcOk(t, t.Client(d)) {
      LookUpKeepsPlace(s, c, d);
    }
    PartsStayApart(s, t, c);
    forall o ensures LeaseOk(t, o) {
      LookUpKeepsLease(s, c, o);
    }
  }

  lemma LookUpKeepsPlace(s: State, c: nat, d: nat)
    requires Inv(s) && s.Client(c).LookingUp?
    ensures PcOk(DoStep(s, c), DoStep(s, c).Client(d))
  {
    var t, l := DoStep(s, c), s.Client(c).lease;
    assert PcOk(s, s.Client(c));
    LookUpMisses(s, c);
    if d != c {
      OthersKeepPlace(s, t, c, d);
    } else {
      UnmarkedIsNotMissed(s.log, l);
    }
  }

  lemma LookUpMisses(s: State, c: nat)
    requires Inv(s) && s.Client(c).LookingUp?
    ensures var l := s.Client(c).lease;
      forall o :: Missed(DoStep(s, c).log, o) <==> Missed(s.log, o) || (o == l && l !in s.leases)
  {
    var l := s.Client(c).lease;
    assert LeaseOk(s, l);
    forall o ensures Missed(DoStep(s, c).log, o) <==> Missed(s.log, o) || (o == l && l !in s.leases) {
      MissedAppend(s.log, LookedUp(l), o);
    }
  }

  lemma UnmarkedIsNotMissed(log: seq<Mark>, l: Id)
    requires LookedUp(l) !in log
    ensures !Missed(log, l)
  {
    forall j | 0 <= j < |log| ensures !MissedAt(log, l, j) {
      assert log[j] in log;
    }
  }

  lemma LookUpKeepsLease(s: State, c: nat, o: Id)
    requires Inv(s) && s.Client(c).LookingUp?
    ensures LeaseOk(DoStep(s, c), o)
  {
    var t, l := DoStep(s, c), s.Client(c).lease;
    assert PcOk(s, s.Client(c)) && LeaseOk(s, o);
    LookUpMisses(s, c);
    WitnessesStay(s, t, c, o);
    assert Ends(t.Client(c), l) || Missed(t.log, l);
  }

  lemma CloseKeepsInv(s: State, c: nat)
    requires Inv(s) && s.Client(c).Closing?
    ensures Inv(DoStep(s, c))
  {
    var t, l := DoStep(s, c), s.Client(c).lease;
    assert PcOk(s, s.Client(c)) && LeaseOk(s, l);
    forall d ensures PcOk(t, t.Client(d)) {
      if d != c {
        OthersKeepPlace(s, t, c, d);
      }
    }
    PartsStayApart(s, t, c);
    forall o ensures LeaseOk(t, o) {
      assert LeaseOk(s, o);
      WitnessesStay(s, t, c, o);
      if d :| WillStore(t.Client(d), o) {
        assert WillStore(s.Client(d), o) && PcOk(s, s.Client(d));
      }
    }
  }

  // ---- the first update of a call

  /** A client that updated the row and claimed nothing stays apart from the others. */
  lemma UpdateKeepsPlaces(s: State, t: State, c: nat)
    requires Inv(s) && t.clients == s.clients[c := t.Client(c)]
    requires t.id == s.id && t.used == s.used && t.leases == s.leases
    requires t.task.version == s.task.version + 1 && (forall l :: !HeldUnder(t, l)) && t.log == s.log
    ensures forall d :: d != c ==> PcOk(t, t.Client(d))
  {
    forall d | d != c ensures PcOk(t, t.Client(d)) {
      assert PcOk(s, s.Client(d));
    }
  }

  lemma AssignKeepsInv(s: State, c: nat)
    requires Inv(s) && s.Client(c).Loaded? && (s.Client(c).op.Assign? || s.Client(c).op.Reassign?)
    ensures Inv(DoStep(s, c))
  {
    var t := DoStep(s, c);
    assert PcOk(s, s.Client(c));
    if s.task.version != s.Client(c).read {
      LeaveKeepsInv(s, c);
    } else {
      UpdateKeepsPlaces(s, t, c);
      PartsStayApart(s, t, c);
      forall o ensures LeaseOk(t, o) {
        assert LeaseOk(s, o);
        WitnessesStay(s, t, c, o);
      }
    }
  }

  lemma EndKeepsInv(s: State, c: nat)
    requires Inv(s) && s.Client(c).Loaded? && (s.Client(c).op.Report? || s.Client(c).op.Preempt?)
    ensures Inv(DoStep(s, c))
  {
    var t := DoStep(s, c);
    assert PcOk(s, s.Client(c));
    if s.task.version != s.Client(c).read {
      LeaveKeepsInv(s, c);
    } else {
      var l := s.task.body.leaseId.value;
      assert HeldUnder(s, l) && LeaseOk(s, l) && Ends(t.Client(c), l);
      UpdateKeepsPlaces(s, t, c);
      ActiveWhileHeld(s, l);
      forall d | d != c ensures !SamePart(t.Client(c), t.Client(d)) && !SamePart(t.Client(d), t.Client(c)) {
        assert PcOk(s, s.Client(d));
      }
      forall d, e | d != e ensures !SamePart(t.Client(d), t.Client(e)) {
        assert !SamePart(s.Client(d), s.Client(e));
      }
      forall o ensures LeaseOk(t, o) {
        assert LeaseOk(s, o);
        WitnessesStay(s, t, c, o);
      }
    }
  }

  lemma ActiveWhileHeld(s: State, l: Id)
    requires Inv(s) && HeldUnder(s, l)
    ensures l in s.leases ==> Backed(s, l)
  {
    assert LeaseOk(s, l);
    if d :| Claims(s.Client(d), l) {
      assert PcOk(s, s.Client(d));
    }
  }

  lemma ClaimKeepsInv(s: State, c: nat)
    requires Inv(s) && s.Client(c).Loaded? && s.Client(c).op.Claim?
    ensures Inv(DoStep(s, c))
  {
    var t, l := DoStep(s, c), s.Client(c).op.lease;
    assert PcOk(s, s.Client(c));
    if s.task.version != s.Client(c).read {
      LeaveKeepsInv(s, c);
    } else {
      assert LeaseOk(s, l) && HeldUnder(t, l) && Claims(t.Client(c), l);
      LookupsAppend(s.log, ClaimWon(l));
      forall o ensures Missed(t.log, o) <==> Missed(s.log, o) {
        MissedAppend(s.log, ClaimWon(l), o);
      }
      forall d ensures PcOk(t, t.Client(d)) {
        assert PcOk(s, s.Client(d));
        assert d != c ==> !SamePart(s.Client(c), s.Client(d));
      }
      forall d, e | d != e ensures !SamePart(t.Client(d), t.Client(e)) {
        assert PcOk(s, s.Client(d)) && PcOk(s, s.Client(e)) && !SamePart(s.Client(d), s.Client(e));
      }
      forall o ensures LeaseOk(t, o) {
        ClaimKeepsLease(s, c, o);
      }
    }
  }

  lemma ClaimKeepsLease(s: State, c: nat, o: Id)
    requires Inv(s) && s.Client(c).Loaded? && s.Client(c).op.Claim? && s.task.version == s.Client(c).read
    ensures LeaseOk(DoStep(s, c), o)
  {
    var t, l := DoStep(s, c), s.Client(c).op.lease;
    assert PcOk(s, s.Client(c)) && LeaseOk(s, l) && LeaseOk(s, o);
    assert HeldUnder(t, l) && Claims(t.Client(c), l);
    MissedAppend(s.log, ClaimWon(l), o);
    WitnessesStay(s, t, c, o);
  }

  lemma NextKeepsInv(s: State, e: Event)
    requires Inv(s)
    ensures Inv(Next(s, e))
  {
    match e
    case Start(c, op) => StartKeepsInv(s, c, op);
    case Step(c) =>
      match s.Client(c) {
        case Idle =>
        case Loaded(op, _, _) =>
          if op.Claim? {
            ClaimKeepsInv(s, c);
          } else if op.Report? || op.Preempt? {
            EndKeepsInv(s, c);
          } else {
            AssignKeepsInv(s, c);
          }
        case Inserting(_, _, _, _) => InsertKeepsInv(s, c);
        case Undoing(_, _) => UndoKeepsInv(s, c);
        case LookingUp(_, _) => LookUpKeepsInv(s, c);
        case Closing(_, _, _) => CloseKeepsInv(s, c);
      }
  }

  lemma {:induction false} RunKeepsInv(id: Id, t: P.Task, events: seq<Event>)
    requires P.New(t)
    ensures Inv(Run(Begin(id, t), events))
  {
    if events != [] {
      RunKeepsInv(id, t, events[..|events| - 1]);
      NextKeepsInv(Run(Begin(id, t), events[..|events| - 1]), events[|events| - 1]);
    }
  }

  // ---- the results

  /** An active lease under which the task is not held. */
  predicate Orphan(s: State, l: Id) {
    l in s.leases && s.leases[l].status == S.Active && !HeldUnder(s, l)
  }

  /** No client is between the statements of a call. */
  ghost predicate AtRest(s: State) { forall c :: s.Client(c) == Idle }

  /** The two tables, for this task. */
  function Tables(s: State): S.Db { S.Db(map[s.id := s.task], s.leases, []) }

  /** Main result 1. In every run, a lease whose lookup fell between the two statements of its claim is an
      orphan from its insertion on, for ever; and when no client is in the middle of a call there is no
      other orphan. */
  lemma OrphansExactly(id: Id, t: P.Task, events: seq<Event>, l: Id)
    requires P.New(t)
    ensures var s := Run(Begin(id, t), events);
      && (FellBetween(s.log, l) ==> Orphan(s, l))
      && (AtRest(s) ==> (Orphan(s, l) <==> FellBetween(s.log, l)))
  {
    var s := Run(Begin(id, t), events);
    RunKeepsInv(id, t, events);
    StoredAfterMissed(s.log, l);
    assert LeaseOk(s, l);
    if Missed(s.log, l) {
      var j :| 0 <= j < |s.log| && MissedAt(s.log, l, j);
      assert LookedUp(l) in s.log;
    }
  }

  /** What can set the two tables apart at a lease: its lookup fell between the statements of its claim, or
      its claim has won and the lease is not stored, or its claim has been ended and the lease not closed. */
  ghost predicate Apart(s: State, l: Id) {
    || FellBetween(s.log, l)
    || (HeldUnder(s, l) && exists c :: Claims(s.Client(c), l))
    || (l in s.leases && exists c :: Ends(s.Client(c), l))
  }

  /** Main result 2. In every run, whoever has stopped where, the task and the lease table agree (in the
      sense of PilotService) exactly when nothing of the kind holds of any lease. */
  lemma AgreeExactly(id: Id, t: P.Task, events: seq<Event>)
    requires P.New(t)
    ensures var s := Run(Begin(id, t), events);
      S.Agree(Tables(s)) <==> forall l :: !Apart(s, l)
  {
    var s := Run(Begin(id, t), events);
    RunKeepsInv(id, t, events);
    if l :| Apart(s, l) {
      OrphansExactly(id, t, events, l);
      ApartDisagrees(s, l);
    } else {
      TogetherAgrees(s);
    }
  }

  lemma ApartDisagrees(s: State, l: Id)
    requires Inv(s) && Apart(s, l) && (FellBetween(s.log, l) ==> Orphan(s, l))
    ensures !S.Agree(Tables(s))
  {
    assert LeaseOk(s, l);
    if FellBetween(s.log, l) {
      assert !S.LeaseAgrees(Tables(s), l);
    } else if c :| HeldUnder(s, l) && Claims(s.Client(c), l) {
      assert PcOk(s, s.Client(c)) && !S.TaskAgrees(Tables(s), s.id);
    } else {
      var c :| Ends(s.Client(c), l);
      assert PcOk(s, s.Client(c));
      LookedUpIsActive(s, c, l);
      assert !S.LeaseAgrees(Tables(s), l);
    }
  }

  lemma LookedUpIsActive(s: State, c: nat, l: Id)
    requires Inv(s) && Ends(s.Client(c), l) && l in s.leases
    ensures s.leases[l].status == S.Active && !HeldUnder(s, l) && s.leases[l].task == s.id
  {
    assert PcOk(s, s.Client(c)) && LeaseOk(s, l);
  }

  lemma TogetherAgrees(s: State)
    requires Inv(s) && forall l :: !Apart(s, l)
    ensures S.Agree(Tables(s))
  {
    forall l ensures S.LeaseAgrees(Tables(s), l) {
      assert LeaseOk(s, l) && !Apart(s, l);
      StoredAfterMissed(s.log, l);
    }
    forall o ensures S.TaskAgrees(Tables(s), o) {
      if o == s.id && S.Held(s.task.body) {
        var l := s.task.body.leaseId.value;
        assert LeaseOk(s, l) && !Apart(s, l);
      }
    }
  }

  /** In particular, when no client is in the middle of a call, exactly when no lookup has fallen between
      the statements of a claim. */
  lemma AgreeAtRest(id: Id, t: P.Task, events: seq<Event>)
    requires P.New(t) && AtRest(Run(Begin(id, t), events))
    ensures var s := Run(Begin(id, t), events);
      S.Agree(Tables(s)) <==> forall l :: !FellBetween(s.log, l)
  {
    var s := Run(Begin(id, t), events);
    AgreeExactly(id, t, events);
    forall l ensures Apart(s, l) <==> FellBetween(s.log, l) {
      assert forall c :: !Claims(s.Client(c), l) && !Ends(s.Client(c), l);
    }
  }

  lemma NextLogGrows(s: State, e: Event)
    ensures s.log <= Next(s, e).log
  {
  }

  lemma {:induction false} LogGrows(s: State, events: seq<Event>, more: seq<Event>)
    ensures Run(s, events).log <= Run(s, events + more).log
  {
    if more == [] {
      assert events + more == events;
    } else {
      var init, last := more[..|more| - 1], more[|more| - 1];
      LogGrows(s, events, init);
      assert events + more == events + init + [last];
      RunAppend(Next, s, events + init, last);
      NextLogGrows(Run(s, events + init), last);
    }
  }

  /** Main result 3. Whatever happens later, such a lease stays an orphan: no call closes it. */
  lemma OrphansStay(id: Id, t: P.Task, events: seq<Event>, more: seq<Event>, l: Id)
    requires P.New(t) && FellBetween(Run(Begin(id, t), events).log, l)
    ensures Orphan(Run(Begin(id, t), events + more), l)
  {
    var log, after := Run(Begin(id, t), events).log, Run(Begin(id, t), events + more).log;
    LogGrows(Begin(id, t), events, more);
    var j :| LookupBetween(log, l, j);
    assert after[..j] == log[..j] && log[j..] <= after[j..];
    assert LookupBetween(after, l, j);
    OrphansExactly(id, t, events + more, l);
  }

  lemma RunTwo(s: State, events: seq<Event>, a: Event, b: Event)
    ensures Run(s, events + [a, b]) == Next(Next(Run(s, events), a), b)
  {
    assert events + [a, b] == events + [a] + [b];
    RunAppend(Next, s, events, a);
    RunAppend(Next, s, events + [a], b);
  }

  /** Client 0 claims, and client 1 reports for the same executor before the lease is stored. */
  lemma ReportBeforeInsert(id: Id, t: P.Task, x: string, l: Id, expires: int) returns (s: State)
    requires P.New(t) && x != ""
    ensures var a := Next(Next(Begin(id, t), Start(0, P.Assign)), Step(0));
      var b := Next(Next(a, Start(0, P.Claim(x, l, expires, true))), Step(0));
      s == Next(Next(b, Start(1, P.Report(x))), Step(1))
    ensures s.Client(1) == LookingUp(l, S.LeaseReleased)
    ensures s.Client(0) == Inserting(l, S.Lease(id, x, expires, S.Active, 1), true, 3)
    ensures s.clients.Keys == {0, 1} && s.leases == map[] && s.task.body.status == PilotStatus.Completed
  {
    var a := Next(Next(Begin(id, t), Start(0, P.Assign)), Step(0));
    assert a.task.body == t.(status := Assigned) && a.clients == map[0 := Idle] && a.used == {} && a.leases == map[];
    var b := Next(Next(a, Start(0, P.Claim(x, l, expires, true))), Step(0));
    assert b.clients == map[0 := Inserting(l, S.Lease(id, x, expires, S.Active, 1), true, 3)] && b.leases == map[];
    assert b.task.body == P.Apply(P.SetClaim(x, l, expires), a.task.body);
    s := Next(Next(b, Start(1, P.Report(x))), Step(1));
  }

  /** Then client 1 finds no lease, and client 0 stores it. */
  lemma InsertAfterReport(s: State, x: string, l: Id, expires: int)
    requires s.Client(1) == LookingUp(l, S.LeaseReleased) && s.clients.Keys == {0, 1}
    requires s.Client(0) == Inserting(l, S.Lease(s.id, x, expires, S.Active, 1), true, 3)
    requires s.leases == map[] && s.task.body.status == PilotStatus.Completed
    ensures var d := Next(Next(s, Step(1)), Step(0));
      AtRest(d) && d.task.body.status == PilotStatus.Completed && Orphan(d, l)
  {
  }

  /** So there is a run after which the task is completed and its lease active, with no call under way. */
  lemma OrphanHappens(id: Id, t: P.Task, x: string, l: Id, expires: int) returns (events: seq<Event>)
    requires P.New(t) && x != ""
    ensures var s := Run(Begin(id, t), events);
      AtRest(s) && s.task.body.status == PilotStatus.Completed && Orphan(s, l)
  {
    var start, claim, report := Begin(id, t), P.Claim(x, l, expires, true), P.Report(x);
    var first, second := [Start(0, P.Assign), Step(0)], [Start(0, claim), Step(0)];
    var third := [Start(1, report), Step(1)];
    var s := ReportBeforeInsert(id, t, x, l, expires);
    InsertAfterReport(s, x, l, expires);
    RunTwo(start, [], Start(0, P.Assign), Step(0));
    assert [] + first == first;
    RunTwo(start, first, Start(0, claim), Step(0));
    RunTwo(start, first + second, Start(1, report), Step(1));
    RunTwo(start, first + second + third, Step(1), Step(0));
    events := first + second + third + [Step(1), Step(0)];
  }

  // ---- how leases end

  /** The task has been completed under the lease. */
  predicate DoneUnder(s: State, l: Id) { s.task.body.status == PilotStatus.Completed && s.task.body.leaseId == Some(l) }

  /** A lease is to be released, or was, exactly when its task was completed under it. */
  predicate EndsRight(s: State, l: Id, status: S.LeaseStatus) {
    (status == S.LeaseReleased ==> DoneUnder(s, l)) && (status == S.Revoked ==> !DoneUnder(s, l))
  }

  predicate Closes(s: State, c: nat) {
    (s.Client(c).LookingUp? || s.Client(c).Closing?) ==> EndsRight(s, s.Client(c).lease, s.Client(c).status)
  }

  predicate Ended(s: State, l: Id) { l in s.leases ==> EndsRight(s, l, s.leases[l].status) }

  ghost predicate AllEndRight(s: State) { (forall c :: Closes(s, c)) && (forall l :: Ended(s, l)) }

  /** No statement makes a task completed under a lease it was not held under, and none undoes that. */
  lemma DoneOnlyFromHeld(s: State, c: nat, l: Id)
    requires Inv(s)
    ensures DoneUnder(s, l) ==> DoneUnder(DoStep(s, c), l)
    ensures DoneUnder(DoStep(s, c), l) && !DoneUnder(s, l) ==>
      HeldUnder(s, l) && s.Client(c).Loaded? && s.Client(c).op.Report?
  {
    assert PcOk(s, s.Client(c));
  }

  /** A lease that has ended is not held under, and neither is one that a client is to close. */
  lemma EndedIsNotHeld(s: State, l: Id)
    requires Inv(s) && l in s.leases && s.leases[l].status != S.Active
    ensures !HeldUnder(s, l)
  {
    if HeldUnder(s, l) {
      ActiveWhileHeld(s, l);
    }
  }

  lemma StepEndsRight(s: State, c: nat)
    requires Inv(s) && AllEndRight(s)
    ensures AllEndRight(DoStep(s, c))
  {
    var t := DoStep(s, c);
    assert PcOk(s, s.Client(c)) && Closes(s, c);
    forall d ensures Closes(t, d) {
      ClientEndsRight(s, c, d);
    }
    forall l ensures Ended(t, l) {
      LeaseEndsRight(s, c, l);
    }
  }

  lemma ClientEndsRight(s: State, c: nat, d: nat)
    requires Inv(s) && AllEndRight(s)
    ensures Closes(DoStep(s, c), d)
  {
    var t := DoStep(s, c);
    assert PcOk(s, s.Client(c)) && PcOk(s, s.Client(d)) && Closes(s, d);
    if d != c && (s.Client(d).LookingUp? || s.Client(d).Closing?) {
      DoneOnlyFromHeld(s, c, s.Client(d).lease);
    }
  }

  lemma LeaseEndsRight(s: State, c: nat, l: Id)
    requires Inv(s) && AllEndRight(s)
    ensures Ended(DoStep(s, c), l)
  {
    assert PcOk(s, s.Client(c)) && Closes(s, c) && Ended(s, l);
    DoneOnlyFromHeld(s, c, l);
    if l in s.leases && s.leases[l].status != S.Active {
      EndedIsNotHeld(s, l);
    }
  }

  lemma {:induction false} RunEndsRight(id: Id, t: P.Task, events: seq<Event>)
    requires P.New(t)
    ensures AllEndRight(Run(Begin(id, t), events))
  {
    if events != [] {
      var s, e := Run(Begin(id, t), events[..|events| - 1]), events[|events| - 1];
      RunKeepsInv(id, t, events[..|events| - 1]);
      RunEndsRight(id, t, events[..|events| - 1]);
      if e.Step? {
        StepEndsRight(s, e.client);
      } else {
        assert forall c :: Closes(s, c) ==> Closes(Next(s, e), c);
        assert forall l :: Ended(s, l) ==> Ended(Next(s, e), l);
      }
    }
  }

  /** Main result 4. In every run, a lease is released only when the task was completed under it, which it
      then stays, and revoked only when the claim under it ended otherwise. */
  lemma LeasesTellTheEnd(id: Id, t: P.Task, events: seq<Event>, l: Id)
    requires P.New(t)
    ensures var s := Run(Begin(id, t), events);
      l in s.leases ==>
        && (s.leases[l].status == S.LeaseReleased ==>
              s.task.body.status == PilotStatus.Completed && s.task.body.leaseId == Some(l))
        && (s.leases[l].status == S.Revoked ==>
              s.task.body.status != PilotStatus.Completed || s.task.body.leaseId != Some(l))
  {
    RunEndsRight(id, t, events);
    assert Ended(Run(Begin(id, t), events), l);
  }
}
