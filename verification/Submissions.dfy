/** Declaration submission over the quota, declaration and idempotency tables, statement by statement.

    Any number of Submit calls and direct quota calls interleave; a call may fail or stop anywhere. The
    quota rows are kept by (type, day), which names at most one row (Quotas.OneRowPerKey), and reading a
    row creates it when it is missing, as GetOrCreateQuota does. */
module Submissions {
  import opened Wrappers
  import opened StateMachines
  import opened Quotas
  import opened Runs

  /** `idem` is the idempotency key; None stands for the empty key. */
  datatype Request = Request(kind: QuotaType, volume: nat, idem: Option<Id>)

  datatype Reply = Refused | Stored(id: Id, status: DeclStatus)

  datatype Decl = Decl(id: Id, idem: Option<Id>, volume: nat, charged: Key, status: DeclStatus)

  datatype Cached = Cached(reply: Reply, expires: int)

  /** Where a Submit call stands. */
  datatype Phase =
    | Started
    | Reserving(day: int)
    | Deciding(day: int, version: Version)                      // read a row with enough available
    | Holding(day: int)                                         // the reservation has won
    | Creating(day: int, version: Version, status: DeclStatus)  // re-read the row for its utilization
    | Compensating(day: int, version: Version)                  // the declaration was not inserted
    | Caching(reply: Reply)
    | Replied(reply: Reply)
    | Failed
    | FailedHolding(day: int)                                   // failed, and the reservation is kept

  datatype Session = Session(req: Request, phase: Phase)

  /** `direct` is the ledger balance of the callers of the quota service: reserved less released. */
  datatype Sys = Sys(
    quotas: map<Key, Quota>,
    decls: seq<Decl>,
    cache: map<Id, Cached>,
    sessions: seq<Session>,
    direct: map<Key, int>)

  const DAY: int := 86_400 * SECOND

  /** The expiry of a reply cached at `now`: a day later, stored in whole seconds. */
  function Expiry(now: int): int { (now + DAY) / SECOND * SECOND }

  const EMPTY := Sys(map[], [], map[], [], map[])

  /** The statements of a Submit call, in order; `now` and `day` are what its clock says. */
  datatype Call =
    | Lookup(now: int, day: int)
    | ReadQuota(limit: nat)
    | TryReserve
    | Busy                 // the reservation met storage contention and is tried again
    | ReRead(limit: nat)
    | Create(id: Id)
    | CreateFault
    | Compensate
    | Cache(now: int)
    | Abort

  datatype Event =
    | Submit(req: Request)
    | Step(i: nat, call: Call)
    | DirectRead(key: Key, limit: nat)
    | Direct(key: Key, stmt: Stmt, version: Version)

  function KeyOf(req: Request, day: int): Key { Key(req.kind, day) }

  /** Utilization above 0.8. */
  predicate Crowded(q: Quota) { q.limit > 0 && 5 * (q.used + q.reserved) > 4 * q.limit }

  function WithRow(quotas: map<Key, Quota>, key: Key, limit: nat): map<Key, Quota> {
    if key in quotas then quotas else quotas[key := Quota(key, limit, 0, 0, 1)]
  }

  /** UPDATE ... WHERE version = ? AND guard, on the row of a key. */
  predicate Hits(quotas: map<Key, Quota>, key: Key, s: Stmt, version: Version) {
    key in quotas && quotas[key].version == version && Guard(quotas[key], s)
  }

  function Balance(s: Sys, key: Key): int { if key in s.direct then s.direct[key] else 0 }

  /** What direct callers may do: reserve a positive amount, commit, and release no more than they hold. */
  predicate DirectAllowed(s: Sys, key: Key, stmt: Stmt) {
    match stmt
    case Reserve(amount) => amount > 0
    case Commit(_) => true
    case Release(amount) => 0 <= amount <= Balance(s, key)
  }

  function DirectChange(stmt: Stmt): int {
    match stmt
    case Reserve(amount) => amount
    case Commit(_) => 0
    case Release(amount) => -amount
  }

  function Move(s: Sys, i: nat, phase: Phase): Sys
    requires i < |s.sessions|
  {
    s.(sessions := s.sessions[i := s.sessions[i].(phase := phase)])
  }

  predicate TakenKey(s: Sys, idem: Option<Id>) {
    idem.Some? && exists d :: 0 <= d < |s.decls| && s.decls[d].idem == idem
  }

  predicate TakenId(s: Sys, id: Id) {
    exists d :: 0 <= d < |s.decls| && s.decls[d].id == id
  }

  // ---- the statements of a Submit call; one that does not fit the call's phase does nothing

  function DoLookup(s: Sys, i: nat, now: int, day: int): Sys
    requires i < |s.sessions|
  {
    var idem := s.sessions[i].req.idem;
    if !s.sessions[i].phase.Started? then s
    else if idem.Some? && idem.value in s.cache && now <= s.cache[idem.value].expires then
      Move(s, i, Replied(s.cache[idem.value].reply))
    else Move(s, i, Reserving(day))
  }

  function DoReadQuota(s: Sys, i: nat, limit: nat): Sys
    requires i < |s.sessions|
  {
    match s.sessions[i].phase
    case Reserving(day) =>
      var key := KeyOf(s.sessions[i].req, day);
      var quotas := WithRow(s.quotas, key, limit);
      Move(s.(quotas := quotas), i,
           if Available(quotas[key]) < s.sessions[i].req.volume then Caching(Refused)
           else Deciding(day, quotas[key].version))
    case _ => s
  }

  function DoTryReserve(s: Sys, i: nat): Sys
    requires i < |s.sessions|
  {
    match s.sessions[i].phase
    case Deciding(day, version) =>
      var key, stmt := KeyOf(s.sessions[i].req, day), Reserve(s.sessions[i].req.volume);
      if Hits(s.quotas, key, stmt, version) then
        Move(s.(quotas := s.quotas[key := Update(s.quotas[key], stmt)]), i, Holding(day))
      else Move(s, i, Reserving(day))
    case _ => s
  }

  function DoBusy(s: Sys, i: nat): Sys
    requires i < |s.sessions|
  {
    match s.sessions[i].phase
    case Deciding(day, _) => Move(s, i, Reserving(day))
    case _ => s
  }

  function DoReRead(s: Sys, i: nat, limit: nat): Sys
    requires i < |s.sessions|
  {
    match s.sessions[i].phase
    case Holding(day) =>
      var key := KeyOf(s.sessions[i].req, day);
      var quotas := WithRow(s.quotas, key, limit);
      Move(s.(quotas := quotas), i,
           Creating(day, quotas[key].version, if Crowded(quotas[key]) then Queued else Accepted))
    case _ => s
  }

  function DoInsert(s: Sys, i: nat, d: Decl): Sys
    requires i < |s.sessions|
  {
    Move(s.(decls := s.decls + [d]), i, Caching(Stored(d.id, d.status)))
  }

  function DoCreate(s: Sys, i: nat, id: Id): Sys
    requires i < |s.sessions|
  {
    var req := s.sessions[i].req;
    match s.sessions[i].phase
    case Creating(day, version, status) =>
      if TakenId(s, id) || TakenKey(s, req.idem) then Move(s, i, Compensating(day, version))
      else DoInsert(s, i, Decl(id, req.idem, req.volume, KeyOf(req, day), status))
    case _ => s
  }

  function DoCreateFault(s: Sys, i: nat): Sys
    requires i < |s.sessions|
  {
    match s.sessions[i].phase
    case Creating(day, version, _) => Move(s, i, Compensating(day, version))
    case _ => s
  }

  /** The release expects the version after the re-read one. */
  function DoCompensate(s: Sys, i: nat): Sys
    requires i < |s.sessions|
  {
    match s.sessions[i].phase
    case Compensating(day, version) =>
      var key, stmt := KeyOf(s.sessions[i].req, day), Release(s.sessions[i].req.volume);
      if Hits(s.quotas, key, stmt, version + 1) then
        Move(s.(quotas := s.quotas[key := Update(s.quotas[key], stmt)]), i, Failed)
      else Move(s, i, FailedHolding(day))
    case _ => s
  }

  /** A key that is already cached keeps its record, even an expired one. */
  function DoCache(s: Sys, i: nat, now: int): Sys
    requires i < |s.sessions|
  {
    var idem := s.sessions[i].req.idem;
    match s.sessions[i].phase
    case Caching(reply) =>
      var missing := idem.Some? && idem.value !in s.cache;
      var cache := if missing then s.cache[idem.value := Cached(reply, Expiry(now))] else s.cache;
      Move(s.(cache := cache), i, Replied(reply))
    case _ => s
  }

  /** An error return or a crash. A failure to store the cached reply is ignored. */
  function DoAbort(s: Sys, i: nat): Sys
    requires i < |s.sessions|
  {
    match s.sessions[i].phase
    case Holding(day) => Move(s, i, FailedHolding(day))
    case Creating(day, _, _) => Move(s, i, FailedHolding(day))
    case Compensating(day, _) => Move(s, i, FailedHolding(day))
    case Caching(reply) => Move(s, i, Replied(reply))
    case Replied(_) => s
    case FailedHolding(_) => s
    case _ => Move(s, i, Failed)
  }

  function DoDirect(s: Sys, key: Key, stmt: Stmt, version: Version): Sys {
    if DirectAllowed(s, key, stmt) && Hits(s.quotas, key, stmt, version) then
      s.(quotas := s.quotas[key := Update(s.quotas[key], stmt)],
         direct := s.direct[key := Balance(s, key) + DirectChange(stmt)])
    else s
  }

  function Advance(s: Sys, i: nat, call: Call): Sys
    requires i < |s.sessions|
  {
    match call
    case Lookup(now, day) => DoLookup(s, i, now, day)
    case ReadQuota(limit) => DoReadQuota(s, i, limit)
    case TryReserve => DoTryReserve(s, i)
    case Busy => DoBusy(s, i)
    case ReRead(limit) => DoReRead(s, i, limit)
    case Create(id) => DoCreate(s, i, id)
    case CreateFault => DoCreateFault(s, i)
    case Compensate => DoCompensate(s, i)
    case Cache(now) => DoCache(s, i, now)
    case Abort => DoAbort(s, i)
  }

  function Next(s: Sys, e: Event): Sys {
    match e
    case Submit(req) => s.(sessions := s.sessions + [Session(req, Started)])
    case Step(i, call) => if i < |s.sessions| then Advance(s, i, call) else s
    case DirectRead(key, limit) => s.(quotas := WithRow(s.quotas, key, limit))
    case Direct(key, stmt, version) => DoDirect(s, key, stmt, version)
  }

  function Run(s: Sys, events: seq<Event>): Sys { RunOf(Next, s, events) }

  // ---- the books

  function Charge(x: Session, key: Key): nat {
    match x.phase
    case Holding(day) => if KeyOf(x.req, day) == key then x.req.volume else 0
    case Creating(day, _, _) => if KeyOf(x.req, day) == key then x.req.volume else 0
    case Compensating(day, _) => if KeyOf(x.req, day) == key then x.req.volume else 0
    case FailedHolding(day) => if KeyOf(x.req, day) == key then x.req.volume else 0
    case _ => 0
  }

  /** Reservations held by calls that have not (or not yet) stored a declaration. */
  function Charges(sessions: seq<Session>, key: Key): nat {
    if sessions == [] then 0
    else Charges(sessions[..|sessions| - 1], key) + Charge(sessions[|sessions| - 1], key)
  }

  /** Total cargo volume of the stored declarations charged to a key. */
  function Volume(decls: seq<Decl>, key: Key): nat {
    if decls == [] then 0
    else
      var last := decls[|decls| - 1];
      Volume(decls[..|decls| - 1], key) + if last.charged == key then last.volume else 0
  }

  lemma {:induction false} ChargesUpdate(sessions: seq<Session>, i: nat, x: Session, key: Key)
    requires i < |sessions|
    ensures Charges(sessions[i := x], key) == Charges(sessions, key) - Charge(sessions[i], key) + Charge(x, key)
  {
    var init, last := sessions[..|sessions| - 1], |sessions| - 1;
    if i < last {
      ChargesUpdate(init, i, x, key);
      assert sessions[i := x][..last] == init[i := x];
    } else {
      assert sessions[i := x][..last] == init;
    }
  }

  lemma ChargesAppend(sessions: seq<Session>, x: Session, key: Key)
    ensures Charges(sessions + [x], key) == Charges(sessions, key) + Charge(x, key)
  {
    assert (sessions + [x])[..|sessions|] == sessions;
  }

  lemma VolumeAppend(decls: seq<Decl>, d: Decl, key: Key)
    ensures Volume(decls + [d], key) == Volume(decls, key) + if d.charged == key then d.volume else 0
  {
    assert (decls + [d])[..|decls|] == decls;
  }

  /** What a row has given out. */
  function Out(quotas: map<Key, Quota>, key: Key): int {
    if key in quotas then quotas[key].used + quotas[key].reserved else 0
  }

  predicate WithinLimit(quotas: map<Key, Quota>, key: Key) {
    key in quotas ==> Out(quotas, key) <= quotas[key].limit
  }

  /** Everything reserved or used on a row is accounted for, within the daily limit. */
  predicate Balanced(s: Sys, key: Key) {
    && Balance(s, key) >= 0
    && WithinLimit(s.quotas, key)
    && Out(s.quotas, key) == Volume(s.decls, key) + Charges(s.sessions, key) + Balance(s, key)
  }

  /** Call i moved to another phase, and the row, the declarations and what the call holds agree. */
  lemma MoveKeepsBooks(s: Sys, t: Sys, i: nat, key: Key)
    requires i < |s.sessions| == |t.sessions| && Balanced(s, key) && WithinLimit(t.quotas, key)
    requires t.sessions == s.sessions[i := t.sessions[i]] && t.direct == s.direct
    requires Out(t.quotas, key) - Out(s.quotas, key) ==
      Volume(t.decls, key) - Volume(s.decls, key) + Charge(t.sessions[i], key) - Charge(s.sessions[i], key)
    ensures Balanced(t, key)
  {
    ChargesUpdate(s.sessions, i, t.sessions[i], key);
  }

  lemma ReserveKeepsBooks(s: Sys, i: nat, key: Key)
    requires i < |s.sessions| && Balanced(s, key)
    ensures Balanced(DoTryReserve(s, i), key)
  {
    MoveKeepsBooks(s, DoTryReserve(s, i), i, key);
  }

  lemma InsertKeepsBooks(s: Sys, i: nat, d: Decl, key: Key)
    requires i < |s.sessions| && Balanced(s, key)
    requires Charge(s.sessions[i], key) == if d.charged == key then d.volume else 0
    ensures Balanced(DoInsert(s, i, d), key)
  {
    VolumeAppend(s.decls, d, key);
    MoveKeepsBooks(s, DoInsert(s, i, d), i, key);
  }

  lemma CreateKeepsBooks(s: Sys, i: nat, id: Id, key: Key)
    requires i < |s.sessions| && Balanced(s, key)
    ensures Balanced(DoCreate(s, i, id), key)
  {
    var t, req := DoCreate(s, i, id), s.sessions[i].req;
    if t.decls == s.decls {
      MoveKeepsBooks(s, t, i, key);
    } else {
      var phase := s.sessions[i].phase;
      InsertKeepsBooks(s, i, Decl(id, req.idem, req.volume, KeyOf(req, phase.day), phase.status), key);
    }
  }

  lemma CompensateKeepsBooks(s: Sys, i: nat, key: Key)
    requires i < |s.sessions| && Balanced(s, key)
    ensures Balanced(DoCompensate(s, i), key)
  {
    MoveKeepsBooks(s, DoCompensate(s, i), i, key);
  }

  /** Reading a row creates it at most. */
  lemma ReadQuotaKeepsBooks(s: Sys, i: nat, limit: nat, key: Key)
    requires i < |s.sessions| && Balanced(s, key)
    ensures Balanced(DoReadQuota(s, i, limit), key)
  {
    MoveKeepsBooks(s, DoReadQuota(s, i, limit), i, key);
  }

  lemma ReReadKeepsBooks(s: Sys, i: nat, limit: nat, key: Key)
    requires i < |s.sessions| && Balanced(s, key)
    ensures Balanced(DoReRead(s, i, limit), key)
  {
    MoveKeepsBooks(s, DoReRead(s, i, limit), i, key);
  }

  /** A failing call keeps what it holds. */
  lemma AbortKeepsBooks(s: Sys, i: nat, key: Key)
    requires i < |s.sessions| && Balanced(s, key)
    ensures Balanced(DoAbort(s, i), key)
  {
    MoveKeepsBooks(s, DoAbort(s, i), i, key);
  }

  /** Statements that touch no row and keep what the call holds. */
  lemma QuietKeepsBooks(s: Sys, i: nat, call: Call, key: Key)
    requires i < |s.sessions| && Balanced(s, key)
    requires call.Lookup? || call.Busy? || call.CreateFault? || call.Cache?
    ensures Balanced(Advance(s, i, call), key)
  {
    MoveKeepsBooks(s, Advance(s, i, call), i, key);
  }

  lemma DirectKeepsBooks(s: Sys, key: Key, stmt: Stmt, version: Version, limit: nat, at: Key)
    requires Balanced(s, at)
    ensures Balanced(DoDirect(s, key, stmt, version), at)
    ensures Balanced(s.(quotas := WithRow(s.quotas, key, limit)), at)
  {
  }

  lemma AdvanceKeepsBooks(s: Sys, i: nat, call: Call, key: Key)
    requires i < |s.sessions| && Balanced(s, key)
    ensures Balanced(Advance(s, i, call), key)
  {
    match call
    case ReadQuota(limit) => ReadQuotaKeepsBooks(s, i, limit, key);
    case TryReserve => ReserveKeepsBooks(s, i, key);
    case ReRead(limit) => ReReadKeepsBooks(s, i, limit, key);
    case Create(id) => CreateKeepsBooks(s, i, id, key);
    case Compensate => CompensateKeepsBooks(s, i, key);
    case Abort => AbortKeepsBooks(s, i, key);
    case _ => QuietKeepsBooks(s, i, call, key);
  }

  lemma NextKeepsBooks(s: Sys, e: Event, key: Key)
    requires Balanced(s, key)
    ensures Balanced(Next(s, e), key)
  {
    match e
    case Submit(req) => ChargesAppend(s.sessions, Session(req, Started), key);
    case Step(i, call) => if i < |s.sessions| { AdvanceKeepsBooks(s, i, call, key); }
    case DirectRead(at, limit) => DirectKeepsBooks(s, at, Commit(0), 1, limit, key);
    case Direct(at, stmt, version) => DirectKeepsBooks(s, at, stmt, version, 0, key);
  }

  lemma {:induction false} BooksBalance(events: seq<Event>, key: Key)
    ensures Balanced(Run(EMPTY, events), key)
  {
    if events != [] {
      BooksBalance(events[..|events| - 1], key);
      NextKeepsBooks(Run(EMPTY, events[..|events| - 1]), events[|events| - 1], key);
    }
  }

  /** Main result 1, the capacity bound. In every interleaving, failures included, the cargo volume of
      the declarations charged to a (type, day) is at most what its row has reserved and used, and that
      is at most the daily limit. */
  lemma CapacityBound(events: seq<Event>, key: Key)
    ensures var s := Run(EMPTY, events);
      if key in s.quotas then
        Volume(s.decls, key) <= s.quotas[key].used + s.quotas[key].reserved <= s.quotas[key].limit
      else Volume(s.decls, key) == 0
  {
    BooksBalance(events, key);
  }

  /** Call i is at a statement that reads, and may create, the row of the key. */
  predicate Reads(s: Sys, i: nat, key: Key) {
    && i < |s.sessions|
    && (s.sessions[i].phase.Reserving? || s.sessions[i].phase.Holding?)
    && s.sessions[i].req.kind == key.kind && s.sessions[i].phase.day == key.day
  }

  /** Whoever reads the row of the key does so with this daily limit. */
  predicate Carries(s: Sys, e: Event, key: Key, daily: nat) {
    match e
    case DirectRead(at, limit) => at == key ==> limit == daily
    case Step(i, ReadQuota(limit)) => Reads(s, i, key) ==> limit == daily
    case Step(i, ReRead(limit)) => Reads(s, i, key) ==> limit == daily
    case _ => true
  }

  predicate AllCarry(events: seq<Event>, key: Key, daily: nat) {
    events == [] ||
      (AllCarry(events[..|events| - 1], key, daily)
       && Carries(Run(EMPTY, events[..|events| - 1]), events[|events| - 1], key, daily))
  }

  predicate HasLimit(s: Sys, key: Key, daily: nat) { key in s.quotas ==> s.quotas[key].limit == daily }

  lemma NextKeepsLimit(s: Sys, e: Event, key: Key, daily: nat)
    requires HasLimit(s, key, daily) && Carries(s, e, key, daily)
    ensures HasLimit(Next(s, e), key, daily)
  {
    if e.Step? && e.i < |s.sessions| {
      AdvanceKeepsLimit(s, e.i, e.call, key, daily);
    }
  }

  lemma AdvanceKeepsLimit(s: Sys, i: nat, call: Call, key: Key, daily: nat)
    requires i < |s.sessions| && HasLimit(s, key, daily) && Carries(s, Step(i, call), key, daily)
    ensures HasLimit(Advance(s, i, call), key, daily)
  {
    if !(call.ReadQuota? || call.TryReserve? || call.ReRead? || call.Compensate?) {
      assert Advance(s, i, call).quotas == s.quotas;
    }
  }

  lemma {:induction false} RunKeepsLimit(events: seq<Event>, key: Key, daily: nat)
    requires AllCarry(events, key, daily)
    ensures HasLimit(Run(EMPTY, events), key, daily)
  {
    if events != [] {
      RunKeepsLimit(events[..|events| - 1], key, daily);
      NextKeepsLimit(Run(EMPTY, events[..|events| - 1]), events[|events| - 1], key, daily);
    }
  }

  /** The bound against the configured limit. When every read of a (type, day) carries the same daily
      limit, its row has that limit, and the volume of its declarations never exceeds it. */
  lemma DailyLimitBound(events: seq<Event>, key: Key, daily: nat)
    requires AllCarry(events, key, daily)
    ensures var s := Run(EMPTY, events);
      && Volume(s.decls, key) <= daily
      && (key in s.quotas ==>
            && s.quotas[key].limit == daily
            && Volume(s.decls, key) <= s.quotas[key].used + s.quotas[key].reserved <= daily)
  {
    RunKeepsLimit(events, key, daily);
    CapacityBound(events, key);
  }

  /** After its reservation a call decides to queue exactly when less than a fifth of the limit is left. */
  lemma QueuedWhenCrowded(s: Sys, i: nat, day: int, limit: nat)
    requires i < |s.sessions| && s.sessions[i].phase == Holding(day) && Key(s.sessions[i].req.kind, day) in s.quotas
    ensures var q := s.quotas[Key(s.sessions[i].req.kind, day)];
      var left := q.limit - q.used - q.reserved;
      var status := if 5 * (if left < 0 then 0 else left) < q.limit then Queued else Accepted;
      Next(s, Step(i, ReRead(limit))).sessions[i].phase == Creating(day, q.version, status)
  {
  }

  // ---- idempotency

  /** A reply that carries a declaration id names a stored declaration with the call's key. */
  predicate Names(decls: seq<Decl>, idem: Option<Id>, reply: Reply) {
    reply.Stored? ==> exists d :: 0 <= d < |decls| && decls[d].id == reply.id && decls[d].idem == idem
  }

  predicate KeysUnique(decls: seq<Decl>) {
    forall c, d :: 0 <= c < d < |decls| ==>
      decls[c].id != decls[d].id && (decls[c].idem.Some? ==> decls[c].idem != decls[d].idem)
  }

  predicate SessionNames(decls: seq<Decl>, x: Session) {
    match x.phase
    case Caching(reply) => Names(decls, x.req.idem, reply)
    case Replied(reply) => Names(decls, x.req.idem, reply)
    case _ => true
  }

  ghost predicate Truthful(s: Sys) {
    && KeysUnique(s.decls)
    && (forall k :: k in s.cache ==> Names(s.decls, Some(k), s.cache[k].reply))
    && (forall i :: 0 <= i < |s.sessions| ==> SessionNames(s.decls, s.sessions[i]))
  }

  /** A call moved while the declarations stayed. */
  lemma MoveKeepsTruth(s: Sys, t: Sys, i: nat)
    requires i < |s.sessions| == |t.sessions| && Truthful(s) && t.decls == s.decls
    requires t.sessions == s.sessions[i := t.sessions[i]] && SessionNames(s.decls, t.sessions[i])
    requires forall k :: k in t.cache ==> Names(s.decls, Some(k), t.cache[k].reply)
    ensures Truthful(t)
  {
  }

  lemma InsertKeepsTruth(s: Sys, i: nat, d: Decl)
    requires i < |s.sessions| && Truthful(s)
    requires !TakenId(s, d.id) && !TakenKey(s, d.idem) && s.sessions[i].req.idem == d.idem
    ensures Truthful(DoInsert(s, i, d))
  {
    var t := DoInsert(s, i, d);
    assert t.decls[|s.decls|] == d;
    forall idem, reply | Names(s.decls, idem, reply) ensures Names(t.decls, idem, reply) {
      if reply.Stored? {
        var c :| 0 <= c < |s.decls| && s.decls[c].id == reply.id && s.decls[c].idem == idem;
        assert t.decls[c] == s.decls[c];
      }
    }
    forall j | 0 <= j < |t.sessions| ensures SessionNames(t.decls, t.sessions[j]) {
      if j != i {
        assert SessionNames(s.decls, s.sessions[j]);
      }
    }
  }

  /** Statements that store neither a declaration nor a reply. */
  lemma QuietKeepsTruth(s: Sys, i: nat, call: Call)
    requires i < |s.sessions| && Truthful(s) && Advance(s, i, call).decls == s.decls
    requires !call.Cache? && !call.Lookup? && !call.Abort?
    ensures Truthful(Advance(s, i, call))
  {
    var t := Advance(s, i, call);
    if call.Create? {
      assert t.cache == s.cache && (t == s || t.sessions[i].phase.Compensating?);
    } else {
      QuietAnswers(s, i, call);
    }
    AdvanceIsLocal(s, i, call);
    MoveKeepsTruth(s, t, i);
  }

  /** They leave the cache, and the only answer they give is a refusal. */
  lemma QuietAnswers(s: Sys, i: nat, call: Call)
    requires i < |s.sessions|
    requires !call.Cache? && !call.Lookup? && !call.Abort? && !call.Create?
    ensures var t := Advance(s, i, call);
      && t.cache == s.cache
      && (t == s || (t.sessions[i].phase.Caching? ==> t.sessions[i].phase.reply == Refused))
      && !(t != s && t.sessions[i].phase.Replied?)
  {
  }

  lemma AdvanceKeepsTruth(s: Sys, i: nat, call: Call)
    requires i < |s.sessions| && Truthful(s)
    ensures Truthful(Advance(s, i, call))
  {
    var t, x := Advance(s, i, call), s.sessions[i];
    assert SessionNames(s.decls, x);
    if call.Create? && t.decls != s.decls {
      InsertKeepsTruth(s, i, Decl(call.id, x.req.idem, x.req.volume, KeyOf(x.req, x.phase.day), x.phase.status));
    } else if call.Cache? || call.Lookup? || call.Abort? {
      MoveKeepsTruth(s, t, i);
    } else {
      QuietKeepsTruth(s, i, call);
    }
  }

  lemma {:induction false} RunIsTruthful(events: seq<Event>)
    ensures Truthful(Run(EMPTY, events))
  {
    if events != [] {
      var s, e := Run(EMPTY, events[..|events| - 1]), events[|events| - 1];
      RunIsTruthful(events[..|events| - 1]);
      if e.Step? && e.i < |s.sessions| {
        AdvanceKeepsTruth(s, e.i, e.call);
      }
    }
  }

  /** Main result 2, idempotency. In every interleaving at most one declaration has a given non-empty key,
      and any two replies to calls with that key that carry a declaration id carry the same id, which is
      the id of the one stored declaration with that key. */
  lemma OneDeclarationPerKey(events: seq<Event>, key: Id, i: nat, j: nat, c: nat, d: nat)
    ensures var s := Run(EMPTY, events);
      && (c < |s.decls| && d < |s.decls| && s.decls[c].idem == s.decls[d].idem == Some(key) ==> c == d)
      && (i < |s.sessions| && j < |s.sessions| && s.sessions[i].req.idem == s.sessions[j].req.idem == Some(key)
          && s.sessions[i].phase.Replied? && s.sessions[i].phase.reply.Stored?
          && s.sessions[j].phase.Replied? && s.sessions[j].phase.reply.Stored? ==>
            && s.sessions[i].phase.reply.id == s.sessions[j].phase.reply.id
            && Names(s.decls, Some(key), s.sessions[i].phase.reply))
  {
    var s := Run(EMPTY, events);
    RunIsTruthful(events);
    if i < |s.sessions| && j < |s.sessions| {
      assert SessionNames(s.decls, s.sessions[i]) && SessionNames(s.decls, s.sessions[j]);
    }
  }

  lemma NextKeepsCached(s: Sys, e: Event, key: Id)
    requires key in s.cache
    ensures key in Next(s, e).cache && Next(s, e).cache[key] == s.cache[key]
  {
    if e.Step? && e.i < |s.sessions| && !e.call.Cache? {
      assert Advance(s, e.i, e.call).cache == s.cache;
    }
  }

  lemma {:induction false} CacheIsStable(s: Sys, events: seq<Event>, key: Id)
    requires key in s.cache
    ensures key in Run(s, events).cache && Run(s, events).cache[key] == s.cache[key]
  {
    if events != [] {
      CacheIsStable(s, events[..|events| - 1], key);
      NextKeepsCached(Run(s, events[..|events| - 1]), events[|events| - 1], key);
    }
  }

  /** Main result 3. Whatever happens after a reply was cached, a later call with that key and a clock not
      past the cached expiry returns the cached reply and changes no row of any table. */
  lemma RepeatReturnsCached(s: Sys, key: Id, later: seq<Event>, req: Request, now: int, day: int)
    requires key in s.cache && req.idem == Some(key) && now <= s.cache[key].expires
    ensures var t := Run(s, later);
      var u := Next(Next(t, Submit(req)), Step(|t.sessions|, Lookup(now, day)));
      && u.sessions == t.sessions + [Session(req, Replied(s.cache[key].reply))]
      && u == t.(sessions := u.sessions)
  {
    CacheIsStable(s, later, key);
  }

  /** A reply lives for a day. A reply cached at `now` answers a later call with its key exactly up to the
      whole second that ends a day later, whatever has happened in between. */
  lemma CachedForADay(s: Sys, i: nat, now: int, later: seq<Event>, j: nat, clock: int, day: int)
    requires i < |s.sessions| && s.sessions[i].phase.Caching?
    requires s.sessions[i].req.idem.Some? && s.sessions[i].req.idem.value !in s.cache
    requires var t := Run(Next(s, Step(i, Cache(now))), later);
      j < |t.sessions| && t.sessions[j].phase.Started? && t.sessions[j].req.idem == s.sessions[i].req.idem
    ensures var t := Run(Next(s, Step(i, Cache(now))), later);
      var u := Next(t, Step(j, Lookup(clock, day)));
      && |u.sessions| == |t.sessions|
      && u.sessions[j].phase ==
           if clock <= now - now % 1_000_000_000 + 86_400 * 1_000_000_000 then Replied(s.sessions[i].phase.reply)
           else Reserving(day)
  {
    var c, key := Next(s, Step(i, Cache(now))), s.sessions[i].req.idem.value;
    assert key in c.cache && c.cache[key] == Cached(s.sessions[i].phase.reply, Expiry(now));
    CacheIsStable(c, later, key);
    ExpiryIsADay(now);
  }

  lemma ExpiryIsADay(now: int)
    ensures Expiry(now) == now - now % 1_000_000_000 + 86_400 * 1_000_000_000
  {
    var q, r := now / 1_000_000_000, now % 1_000_000_000;
    assert now + DAY == 1_000_000_000 * (q + 86_400) + r;
  }

  /** A live cached reply that carries a declaration id. */
  predicate AnswersWithId(s: Sys, idem: Option<Id>, now: int) {
    idem.Some? && idem.value in s.cache && now <= s.cache[idem.value].expires && s.cache[idem.value].reply.Stored?
  }

  predicate AnsweredWithId(phase: Phase) { phase.Replied? && phase.reply.Stored? }

  /** The phases from which a call whose key is taken can still be answered with an id. */
  predicate Hopeful(phase: Phase) {
    phase.Started? || (phase.Caching? && phase.reply.Stored?) || AnsweredWithId(phase)
  }

  predicate Doomed(s: Sys, i: nat) {
    i < |s.sessions| && TakenKey(s, s.sessions[i].req.idem) && !Hopeful(s.sessions[i].phase)
  }

  lemma KeyStaysTaken(s: Sys, e: Event, idem: Option<Id>)
    requires TakenKey(s, idem)
    ensures TakenKey(Next(s, e), idem)
  {
    var t := Next(s, e);
    DeclsGrow(s, e);
    var d :| 0 <= d < |s.decls| && s.decls[d].idem == idem;
    assert t.decls[d] == s.decls[d];
  }

  lemma DeclsGrow(s: Sys, e: Event)
    ensures s.decls <= Next(s, e).decls
  {
    if e.Step? && e.i < |s.sessions| && !e.call.Create? {
      assert Advance(s, e.i, e.call).decls == s.decls;
    }
  }

  lemma NextKeepsDoomed(s: Sys, e: Event, i: nat)
    requires Doomed(s, i)
    ensures Doomed(Next(s, e), i)
  {
    KeyStaysTaken(s, e, s.sessions[i].req.idem);
    if e.Step? && e.i == i {
      OwnStepKeepsDoomed(s, i, e.call);
    } else {
      OtherLeavesCall(s, e, i);
    }
  }

  lemma OwnStepKeepsDoomed(s: Sys, i: nat, call: Call)
    requires Doomed(s, i)
    ensures var x := Advance(s, i, call).sessions; i < |x| && x[i].req == s.sessions[i].req
    ensures !Hopeful(Advance(s, i, call).sessions[i].phase)
  {
    AdvanceIsLocal(s, i, call);
    if call.Create? || call.Cache? {
      StaysHopeless(s, i, call);
    } else {
      StaysHopelessElse(s, i, call);
    }
  }

  lemma StaysHopeless(s: Sys, i: nat, call: Call)
    requires Doomed(s, i) && (call.Create? || call.Cache?)
    ensures i < |Advance(s, i, call).sessions| && !Hopeful(Advance(s, i, call).sessions[i].phase)
  {
  }

  lemma StaysHopelessElse(s: Sys, i: nat, call: Call)
    requires Doomed(s, i) && !call.Create? && !call.Cache?
    ensures i < |Advance(s, i, call).sessions| && !Hopeful(Advance(s, i, call).sessions[i].phase)
  {
  }

  lemma NextKeepsAnswer(s: Sys, e: Event, i: nat)
    requires i < |s.sessions| && s.sessions[i].phase.Replied?
    ensures i < |Next(s, e).sessions| && Next(s, e).sessions[i] == s.sessions[i]
  {
    if !e.Step? || e.i != i {
      OtherLeavesCall(s, e, i);
    }
  }

  lemma {:induction false} RunKeepsFate(s: Sys, events: seq<Event>, i: nat)
    ensures Doomed(s, i) ==> Doomed(Run(s, events), i)
    ensures i < |s.sessions| && s.sessions[i].phase.Replied? ==>
      i < |Run(s, events).sessions| && Run(s, events).sessions[i] == s.sessions[i]
  {
    if events != [] {
      var t, e := Run(s, events[..|events| - 1]), events[|events| - 1];
      RunKeepsFate(s, events[..|events| - 1], i);
      if Doomed(s, i) {
        NextKeepsDoomed(t, e, i);
      }
      if i < |s.sessions| && s.sessions[i].phase.Replied? {
        NextKeepsAnswer(t, e, i);
      }
    }
  }

  /** Main result 4. When a call looks up its key and a declaration with the key is stored, then, whatever
      it and all other calls do from there on, the call is answered with a declaration id exactly if the
      lookup finds a reply with an id that has not expired. Otherwise, because the reply has expired or is
      not, or not yet, cached, it never is. */
  lemma RepeatIsAnsweredExactly(s: Sys, i: nat, now: int, day: int, later: seq<Event>)
    requires i < |s.sessions| && s.sessions[i].phase.Started? && TakenKey(s, s.sessions[i].req.idem)
    ensures var t, idem := Run(Next(s, Step(i, Lookup(now, day))), later), s.sessions[i].req.idem;
      && i < |t.sessions| && (AnsweredWithId(t.sessions[i].phase) <==> AnswersWithId(s, idem, now))
      && (AnswersWithId(s, idem, now) ==> t.sessions[i].phase.reply == s.cache[idem.value].reply)
  {
    var u := Next(s, Step(i, Lookup(now, day)));
    assert u.decls == s.decls && u.sessions[i].req == s.sessions[i].req;
    RunKeepsFate(u, later, i);
  }

  /** Such a call before the reply is cached: while the first call with the key has stored its declaration
      and not yet cached its reply, a second one is never answered with the id. */
  lemma UncachedRepeatFails(s: Sys, i: nat, now: int, day: int, later: seq<Event>)
    requires i < |s.sessions| && s.sessions[i].phase.Started? && TakenKey(s, s.sessions[i].req.idem)
    requires s.sessions[i].req.idem.value !in s.cache
    ensures var t := Run(Next(s, Step(i, Lookup(now, day))), later);
      i < |t.sessions| && !AnsweredWithId(t.sessions[i].phase)
  {
    RepeatIsAnsweredExactly(s, i, now, day, later);
  }

  /** An undisturbed reservation: the cached reply has expired or there is none, and the row has enough. */
  lemma UndisturbedReserve(s: Sys, i: nat, key: Key, limit: nat, now: int)
    requires i < |s.sessions| && s.sessions[i].phase == Started && KeyOf(s.sessions[i].req, key.day) == key
    requires var idem := s.sessions[i].req.idem;
      idem.Some? && idem.value in s.cache ==> s.cache[idem.value].expires < now
    requires key in s.quotas && Guard(s.quotas[key], Reserve(s.sessions[i].req.volume))
    ensures var volume, q := s.sessions[i].req.volume, s.quotas[key];
      Next(Next(Next(s, Step(i, Lookup(now, key.day))), Step(i, ReadQuota(limit))), Step(i, TryReserve))
      == Move(s.(quotas := s.quotas[key := q.(reserved := q.reserved + volume, version := q.version + 1)]),
              i, Holding(key.day))
  {
    var a := Next(s, Step(i, Lookup(now, key.day)));
    assert a == Move(s, i, Reserving(key.day));
    var b := Next(a, Step(i, ReadQuota(limit)));
    assert b.sessions == Move(s, i, Deciding(key.day, s.quotas[key].version)).sessions;
  }

  /** An undisturbed call that holds a reservation and whose key is taken keeps the reservation. */
  lemma UndisturbedRefusal(s: Sys, i: nat, key: Key, limit: nat, id: Id)
    requires i < |s.sessions| && s.sessions[i].phase == Holding(key.day) && KeyOf(s.sessions[i].req, key.day) == key
    requires TakenKey(s, s.sessions[i].req.idem) && key in s.quotas
    ensures Next(Next(Next(s, Step(i, ReRead(limit))), Step(i, Create(id))), Step(i, Compensate))
      == Move(s, i, FailedHolding(key.day))
  {
    var q := s.quotas[key];
    var a := Next(s, Step(i, ReRead(limit)));
    assert a == Move(s, i, Creating(key.day, q.version, if Crowded(q) then Queued else Accepted));
    var b := Next(a, Step(i, Create(id)));
    assert b == Move(s, i, Compensating(key.day, q.version));
  }

  /** The table states of that case are reached: a first call that has stored its declaration and not yet
      cached its reply, and a second one with the same key that has not looked it up. */
  lemma UncachedHappens(req: Request, day: int, limit: nat, now: int, id: Id)
    requires req.idem.Some? && req.volume <= limit
    ensures var key := KeyOf(req, day);
      var started := Next(Next(EMPTY, DirectRead(key, limit)), Submit(req));
      var held := Next(Next(Next(started, Step(0, Lookup(now, day))), Step(0, ReadQuota(limit))), Step(0, TryReserve));
      var stored := Next(Next(held, Step(0, ReRead(limit))), Step(0, Create(id)));
      var s := Next(stored, Submit(req));
      && |s.sessions| == 2 && s.sessions[1].phase.Started? && s.sessions[0].phase.Caching?
      && TakenKey(s, s.sessions[1].req.idem) && req.idem.value !in s.cache
  {
    var key := KeyOf(req, day);
    var started := Next(Next(EMPTY, DirectRead(key, limit)), Submit(req));
    UndisturbedReserve(started, 0, key, limit, now);
    var held := Next(Next(Next(started, Step(0, Lookup(now, day))), Step(0, ReadQuota(limit))), Step(0, TryReserve));
    var reread := Next(held, Step(0, ReRead(limit)));
    assert reread.decls == [] && reread.sessions[0].req == req && reread.sessions[0].phase.Creating?;
    var stored := Next(reread, Step(0, Create(id)));
    assert stored.decls[0].idem == req.idem;
  }

  /** The clause about the expiry cannot be dropped. Once the cached reply of a stored declaration has
      expired, a repeat of the call is refused by the unique key, is not answered with the declaration's
      id, and, undisturbed, keeps the quota it reserved. */
  lemma ExpiredRepeatKeepsReservation(s: Sys, i: nat, key: Key, limit: nat, now: int, id: Id)
    requires i < |s.sessions| && s.sessions[i].phase == Started && KeyOf(s.sessions[i].req, key.day) == key
    requires var idem := s.sessions[i].req.idem;
      TakenKey(s, idem) && (idem.value in s.cache ==> s.cache[idem.value].expires < now)
    requires key in s.quotas && Guard(s.quotas[key], Reserve(s.sessions[i].req.volume))
    ensures var q := s.quotas[key];
      var held := Next(Next(Next(s, Step(i, Lookup(now, key.day))), Step(i, ReadQuota(limit))), Step(i, TryReserve));
      Next(Next(Next(held, Step(i, ReRead(limit))), Step(i, Create(id))), Step(i, Compensate))
      == s.(sessions := s.sessions[i := s.sessions[i].(phase := FailedHolding(key.day))],
            quotas := s.quotas[key := q.(reserved := q.reserved + s.sessions[i].req.volume, version := q.version + 1)])
  {
    UndisturbedReserve(s, i, key, limit, now);
    var held := Next(Next(Next(s, Step(i, Lookup(now, key.day))), Step(i, ReadQuota(limit))), Step(i, TryReserve));
    assert held.decls == s.decls && held.sessions[i].req == s.sessions[i].req;
    UndisturbedRefusal(held, i, key, limit, id);
  }

  // ---- what others can make of a quota row

  /** The row of a key is there for good, its version only grows, and an unmoved version means an
      unchanged row. */
  predicate RowLater(a: map<Key, Quota>, b: map<Key, Quota>, key: Key) {
    key in a ==>
      && key in b && a[key].version <= b[key].version
      && (a[key].version == b[key].version ==> a[key] == b[key])
  }

  lemma AdvanceMovesRow(s: Sys, i: nat, call: Call, key: Key)
    requires i < |s.sessions|
    ensures RowLater(s.quotas, Advance(s, i, call).quotas, key)
  {
    if !(call.ReadQuota? || call.TryReserve? || call.ReRead? || call.Compensate?) {
      assert Advance(s, i, call).quotas == s.quotas;
    }
  }

  lemma NextMovesRow(s: Sys, e: Event, key: Key)
    ensures RowLater(s.quotas, Next(s, e).quotas, key)
  {
    if e.Step? && e.i < |s.sessions| {
      AdvanceMovesRow(s, e.i, e.call, key);
    }
  }

  // ---- the compensating release

  /** A call's statements move no other call and remove no quota row. */
  lemma AdvanceIsLocal(s: Sys, i: nat, call: Call)
    requires i < |s.sessions|
    ensures var t := Advance(s, i, call);
      |t.sessions| == |s.sessions| && t.sessions == s.sessions[i := s.sessions[i].(phase := t.sessions[i].phase)]
    ensures s.quotas.Keys <= Advance(s, i, call).quotas.Keys
  {
    if call.ReadQuota? || call.ReRead? {
      assert s.quotas.Keys <= Advance(s, i, call).quotas.Keys;
    }
  }

  lemma OtherLeavesCall(s: Sys, e: Event, i: nat)
    requires i < |s.sessions| && (e.Step? ==> e.i != i)
    ensures i < |Next(s, e).sessions| && Next(s, e).sessions[i] == s.sessions[i]
    ensures s.quotas.Keys <= Next(s, e).quotas.Keys
  {
    if e.Step? && e.i < |s.sessions| {
      AdvanceIsLocal(s, e.i, e.call);
    }
  }

  predicate NotBy(events: seq<Event>, i: nat) {
    forall k :: 0 <= k < |events| && events[k].Step? ==> events[k].i != i
  }

  lemma {:induction false} OthersLeaveCall(s: Sys, events: seq<Event>, i: nat)
    requires i < |s.sessions| && NotBy(events, i)
    ensures i < |Run(s, events).sessions| && Run(s, events).sessions[i] == s.sessions[i]
    ensures s.quotas.Keys <= Run(s, events).quotas.Keys
  {
    if events != [] {
      OthersLeaveCall(s, events[..|events| - 1], i);
      OtherLeavesCall(Run(s, events[..|events| - 1]), events[|events| - 1], i);
    }
  }

  /** The insert fails in the store, or meets a taken key or id. */
  predicate InsertFails(t: Sys, i: nat, call: Call)
    requires i < |t.sessions|
  {
    call.CreateFault? || (call.Create? && (TakenId(t, call.id) || TakenKey(t, t.sessions[i].req.idem)))
  }

  /** The failed insert and the release that follows it. */
  lemma CompensationStep(t: Sys, i: nat, key: Key, version: Version, call: Call)
    requires i < |t.sessions| && InsertFails(t, i, call)
    requires i < |t.sessions| && t.sessions[i].phase.Creating? && key in t.quotas
    requires t.sessions[i].phase.version == version && KeyOf(t.sessions[i].req, t.sessions[i].phase.day) == key
    ensures var volume := t.sessions[i].req.volume;
      var u := Next(Next(t, Step(i, call)), Step(i, Compensate));
      && i < |u.sessions|
      && (u.sessions[i].phase == Failed <==> t.quotas[key].version == version + 1 && t.quotas[key].reserved >= volume)
      && (u.sessions[i].phase != Failed ==> u.sessions[i].phase == FailedHolding(key.day) && u.quotas == t.quotas)
  {
    var a := Next(t, Step(i, call));
    assert a == Move(t, i, Compensating(key.day, version));
  }

  /** Main result 5. When the declaration cannot be inserted, whether the store fails or its key or id is
      taken, the compensating release returns the quota
      exactly when one other update, and no more, has won the row since the call re-read it (and the row
      still holds the amount); with no interference it affects no row and the reservation is kept. */
  lemma CompensationHitsExactly(s: Sys, i: nat, day: int, limit: nat, others: seq<Event>, call: Call)
    requires i < |s.sessions| && s.sessions[i].phase == Holding(day) && KeyOf(s.sessions[i].req, day) in s.quotas
    requires NotBy(others, i)
    requires var t := Run(Next(s, Step(i, ReRead(limit))), others);
      i < |t.sessions| ==> InsertFails(t, i, call)
    ensures var key, volume := KeyOf(s.sessions[i].req, day), s.sessions[i].req.volume;
      var t := Run(Next(s, Step(i, ReRead(limit))), others);
      var u := Next(Next(t, Step(i, call)), Step(i, Compensate));
      && i < |u.sessions| && key in t.quotas
      && (u.sessions[i].phase == Failed <==>
            t.quotas[key].version == s.quotas[key].version + 1 && t.quotas[key].reserved >= volume)
      && (u.sessions[i].phase != Failed ==> u.sessions[i].phase == FailedHolding(day) && u.quotas == t.quotas)
      && (others == [] ==> u.sessions[i].phase == FailedHolding(day) && u.quotas == s.quotas)
  {
    var key := KeyOf(s.sessions[i].req, day);
    var read := Next(s, Step(i, ReRead(limit)));
    assert read.quotas == s.quotas && read.sessions[i].phase.Creating?;
    OthersLeaveCall(read, others, i);
    CompensationStep(Run(read, others), i, key, s.quotas[key].version, call);
  }
}
