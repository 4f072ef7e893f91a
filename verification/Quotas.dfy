/** The quota ledger of internal/store/quota_repo.go: rows, guarded updates, and what any interleaving
    of them adds up to. */
module Quotas {
  import opened Wrappers

  datatype QuotaType = Cabin | Yard | Other(code: nat)

  /** UNIQUE(quota_type, period_date). */
  datatype Key = Key(kind: QuotaType, day: int)

  datatype Quota = Quota(key: Key, limit: int, used: int, reserved: int, version: Version)

  function Raw(q: Quota): int { q.limit - q.used - q.reserved }

  /** The services see the remaining amount clamped at zero. */
  function Available(q: Quota): int { if Raw(q) < 0 then 0 else Raw(q) }

  datatype Stmt = Reserve(amount: int) | Commit(amount: int) | Release(amount: int)

  /** The amount guard in the statement's WHERE clause. */
  predicate Guard(q: Quota, s: Stmt) {
    match s
    case Reserve(amount) => Raw(q) >= amount
    case Commit(amount) => q.reserved >= amount
    case Release(amount) => q.reserved >= amount
  }

  function Update(q: Quota, s: Stmt): Quota {
    match s
    case Reserve(amount) => q.(reserved := q.reserved + amount, version := q.version + 1)
    case Commit(amount) => q.(used := q.used + amount, reserved := q.reserved - amount, version := q.version + 1)
    case Release(amount) => q.(reserved := q.reserved - amount, version := q.version + 1)
  }

  predicate LedgerOk(q: Quota) {
    0 <= q.used && 0 <= q.reserved && q.used + q.reserved <= q.limit
  }

  /** The services pass the amount of a commit or a release on without checking its sign. An update that
      wins keeps the ledger in order exactly when the amount is not too negative. */
  lemma LedgerKeptExactly(q: Quota, s: Stmt)
    requires LedgerOk(q) && Guard(q, s)
    ensures LedgerOk(Update(q, s)) <==>
      match s
      case Reserve(amount) => -amount <= q.reserved
      case Commit(amount) => -amount <= q.used
      case Release(amount) => -amount <= Raw(q)
  {
  }

  /** A negative release is accepted and can push the ledger over its limit. */
  lemma NegativeReleaseOverbooks()
    ensures var q := Quota(Key(Cabin, 0), 10, 0, 10, 1);
      LedgerOk(q) && Guard(q, Release(-1)) && !LedgerOk(Update(q, Release(-1)))
  {
  }

  type Table = map<Id, Quota>

  /** A statement that took effect: a row inserted, or an update that won. `mine` marks the updates of
      the service call under study. */
  datatype Change =
    | Inserted(id: Id, key: Key, limit: int)
    | Won(id: Id, stmt: Stmt, mine: bool)

  predicate Possible(t: Table, c: Change) {
    match c
    case Inserted(id, key, _) => id !in t && forall o :: o in t ==> t[o].key != key
    case Won(id, s, _) => id in t && Guard(t[id], s)
  }

  function Apply(t: Table, c: Change): Table {
    match c
    case Inserted(id, key, limit) => t[id := Quota(key, limit, 0, 0, 1)]
    case Won(id, s, _) => if id in t then t[id := Update(t[id], s)] else t
  }

  function Replay(log: seq<Change>): Table {
    if log == [] then map[] else Apply(Replay(log[..|log| - 1]), log[|log| - 1])
  }

  /** Every change was possible when it happened. */
  ghost predicate Sound(log: seq<Change>) {
    log == [] || (Sound(log[..|log| - 1]) && Possible(Replay(log[..|log| - 1]), log[|log| - 1]))
  }

  lemma ReplayAppend(log: seq<Change>, c: Change)
    ensures Replay(log + [c]) == Apply(Replay(log), c)
    ensures Sound(log + [c]) <==> Sound(log) && Possible(Replay(log), c)
  {
    assert (log + [c])[..|log|] == log;
  }

  // ---- totals

  predicate On(c: Change, id: Id) { c.Won? && c.id == id }

  function Wins(log: seq<Change>, id: Id): nat {
    if log == [] then 0 else Wins(log[..|log| - 1], id) + if On(log[|log| - 1], id) then 1 else 0
  }

  function Part(c: Change, id: Id, which: Stmt -> int): int {
    if On(c, id) then which(c.stmt) else 0
  }

  function Total(log: seq<Change>, id: Id, which: Stmt -> int): int {
    if log == [] then 0 else Total(log[..|log| - 1], id, which) + Part(log[|log| - 1], id, which)
  }

  function ReservedBy(s: Stmt): int { if s.Reserve? then s.amount else 0 }
  function CommittedBy(s: Stmt): int { if s.Commit? then s.amount else 0 }
  function ReleasedBy(s: Stmt): int { if s.Release? then s.amount else 0 }

  /** Main result 1, conservation. In every interleaving of statements: used is the sum of the commits,
      used plus reserved is reservations minus releases, and the version counts the winning updates. */
  lemma {:induction false} Conservation(log: seq<Change>, id: Id)
    requires Sound(log) && id in Replay(log)
    ensures var q := Replay(log)[id];
      && q.used == Total(log, id, CommittedBy)
      && q.used + q.reserved == Total(log, id, ReservedBy) - Total(log, id, ReleasedBy)
      && q.version == 1 + Wins(log, id)
  {
    var init, c := log[..|log| - 1], log[|log| - 1];
    if id in Replay(init) {
      Conservation(init, id);
    } else {
      NoWinsBeforeInsert(init, id);
    }
  }

  lemma {:induction false} NoWinsBeforeInsert(log: seq<Change>, id: Id)
    requires Sound(log) && id !in Replay(log)
    ensures Wins(log, id) == 0
    ensures Total(log, id, CommittedBy) == Total(log, id, ReservedBy) == Total(log, id, ReleasedBy) == 0
  {
    if log != [] {
      NoWinsBeforeInsert(log[..|log| - 1], id);
    }
  }

  predicate NonNegative(log: seq<Change>) {
    forall k :: 0 <= k < |log| ==> if log[k].Inserted? then log[k].limit >= 0 else log[k].stmt.amount >= 0
  }

  /** Main result 2, the bound. With amounts and limits that are not negative, every row of every
      reachable table has used >= 0, reserved >= 0 and used + reserved <= limit. */
  lemma {:induction false} LedgerBound(log: seq<Change>, id: Id)
    requires Sound(log) && NonNegative(log) && id in Replay(log)
    ensures LedgerOk(Replay(log)[id])
  {
    var init, c := log[..|log| - 1], log[|log| - 1];
    if id in Replay(init) {
      LedgerBound(init, id);
    }
  }

  /** Main result 3. A (type, day) has at most one row. */
  lemma {:induction false} OneRowPerKey(log: seq<Change>, a: Id, b: Id)
    requires Sound(log) && a in Replay(log) && b in Replay(log) && Replay(log)[a].key == Replay(log)[b].key
    ensures a == b
  {
    var init := log[..|log| - 1];
    if a in Replay(init) && b in Replay(init) {
      OneRowPerKey(init, a, b);
    }
  }

  /** A row keeps its key and limit; its version moves once per winning update and it changes in no
      other way, so an unmoved version means an unchanged row. */
  lemma {:induction false} RowMoves(log: seq<Change>, n: nat, id: Id)
    requires Sound(log) && n <= |log| && id in Replay(log[..n])
    ensures id in Replay(log)
    ensures var q, r := Replay(log[..n])[id], Replay(log)[id];
      && r.key == q.key && r.limit == q.limit
      && r.version - q.version == Wins(log, id) - Wins(log[..n], id) >= 0
      && (r.version == q.version ==> r == q)
  {
    if n == |log| {
      assert log[..n] == log;
    } else {
      var init := log[..|log| - 1];
      assert init[..n] == log[..n];
      RowMoves(init, n, id);
    }
  }

  /** A snapshot that passes the service's availability check also passes the statement's guard, if the
      amount is positive or the row is within its limit. */
  lemma CheckImpliesGuard(q: Quota, amount: int)
    requires amount > 0 || (amount == 0 && LedgerOk(q))
    ensures Available(q) >= amount <==> Guard(q, Reserve(amount))
  {
  }
}
