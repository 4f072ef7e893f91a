/** The retry loops of the quota and declaration services over a ledger that other clients keep changing. */
module QuotaService {
  import opened Wrappers
  import opened Quotas
  import opened Environment

  /** A statement another client sends. */
  datatype Attempt =
    | TryInsert(id: Id, key: Key, limit: int)
    | TryUpdate(id: Id, stmt: Stmt, version: Version)

  predicate Mine(c: Change) { c.Won? && c.mine }

  /** The log grew by other clients' changes and by row creations only. */
  predicate Undisturbed(a: seq<Change>, b: seq<Change>) {
    a <= b && forall k :: |a| <= k < |b| ==> !Mine(b[k])
  }

  /** The log grew by such changes and then by exactly one update of this call, on row id. */
  predicate OneUpdate(a: seq<Change>, b: seq<Change>, id: Id, s: Stmt) {
    |b| > 0 && Undisturbed(a, b[..|b| - 1]) && b[|b| - 1] == Won(id, s, true)
  }

  /** Updates that other clients won on row id while the log grew from a to b. */
  function WinsSince(a: seq<Change>, b: seq<Change>, id: Id): int {
    Wins(b, id) - Wins(a, id)
  }

  lemma {:induction false} WinsGrow(a: seq<Change>, b: seq<Change>, id: Id)
    requires a <= b
    ensures WinsSince(a, b, id) >= 0
  {
    if |a| < |b| {
      WinsGrow(a, b[..|b| - 1], id);
    } else {
      assert a == b;
    }
  }

  predicate Absent(t: Table, key: Key) {
    forall id :: id in t ==> t[id].key != key
  }

  /** id is the only row of the key. */
  predicate TheRow(t: Table, key: Key, id: Id) {
    id in t && t[id].key == key && forall o :: o in t && t[o].key == key ==> o == id
  }

  lemma FoundIsTheRow(log: seq<Change>, key: Key, id: Id)
    requires Sound(log) && id in Replay(log) && Replay(log)[id].key == key
    ensures TheRow(Replay(log), key, id)
  {
    forall o | o in Replay(log) && Replay(log)[o].key == key ensures o == id {
      OneRowPerKey(log, o, id);
    }
  }

  datatype Outcome =
    | Reserved(id: Id)
    | Rejected(id: Id)
    | Failed
    | Exhausted

  datatype ReserveResult = Granted(id: Id, available: int) | Denied(id: Id, available: int)

  /** Exactly one update of this call, with changes of other clients before and after it. */
  predicate UpdatedOnce(a: seq<Change>, b: seq<Change>, id: Id, s: Stmt) {
    exists n :: |a| < n <= |b| && OneUpdate(a, b[..n], id, s) && Undisturbed(b[..n], b)
  }

  ghost predicate HasRow(t: Table, key: Key) { exists id :: TheRow(t, key, id) }

  /** Why the read of a key's row that is at pass n fails: its select is refused; or there was
      no row, and the second select is refused, or finds none because the insert was refused too. */
  predicate ReadFails(env: Env<Attempt>, n: nat, before: Table, after: Table, key: Key) {
    || env(n, 0).fault != Fine
    || (Absent(before, key) && env(n, 2).fault != Fine)
    || (Absent(after, key) && (env(n, 1).fault != Fine || env(n, 1).uuid in after))
  }

  /** Why pass n of the reserve loop ends the call with an error. */
  predicate PassFails(env: Env<Attempt>, n: nat, before: Table, after: Table, key: Key, maxRetries: nat) {
    || ReadFails(env, n, before, after, key)
    || env(n, 3).fault == Broken
    || (env(n, 3).fault == Contention && (n == maxRetries + 1 || env(n, 3).ended))
  }

  /** A read of row id in pass n or the update after it is refused, or there is no such row. */
  predicate StatementFails(env: Env<Attempt>, n: nat, id: Id, rows: Table) {
    env(n, 0).fault != Fine || env(n, 1).fault != Fine || id !in rows
  }

  /** The key has a row with room for the amount. */
  ghost predicate HasRoom(t: Table, key: Key, amount: int) {
    exists id :: TheRow(t, key, id) && Raw(t[id]) >= amount
  }

  /** Nothing happens around pass n of the reserve loop, and a row it has to create gets a free id. */
  predicate Quiet(before: Table, key: Key, env: Env<Attempt>, n: nat) {
    && Still(env(n, 0)) && Still(env(n, 1)) && Still(env(n, 3))
    && (Absent(before, key) ==> env(n, 1).uuid !in before)
  }

  /** A try-reserve on the key's row, or on a new one with the daily limit, nothing used and nothing
      reserved: it is granted exactly when the row has the amount, and then the row has it reserved. */
  predicate Tried(before: Table, after: Table, key: Key, limit: int, amount: int, uuid: Id, id: Id, granted: bool) {
    var q := if id in before then before[id] else Quota(key, limit, 0, 0, 1);
    && (if id in before then TheRow(before, key, id) else Absent(before, key) && id == uuid)
    && granted == (q.limit - q.used - q.reserved >= amount)
    && after == before[id := if granted then q.(reserved := q.reserved + amount, version := q.version + 1) else q]
  }

  /** What an undisturbed Reserve answers and leaves: what the key's row had left decides, and a row that
      was missing is created with the daily limit of its kind. */
  predicate Answered(before: Table, after: Table, key: Key, cabinLimit: int, yardLimit: int, amount: int, uuid: Id,
                     r: Result<ReserveResult>)
  {
    var limit := if key.kind == Yard then yardLimit else cabinLimit;
    && (Absent(before, key) ==>
          if amount <= limit then
            r == Ok(Granted(uuid, limit - amount)) && after == before[uuid := Quota(key, limit, 0, amount, 2)]
          else
            && r == Ok(Denied(uuid, if limit < 0 then 0 else limit))
            && after == before[uuid := Quota(key, limit, 0, 0, 1)])
    && (forall id :: id in before && before[id].key == key ==>
          var q := before[id];
          var left := q.limit - q.used - q.reserved;
          if amount <= left then
            && r == Ok(Granted(id, left - amount))
            && after == before[id := q.(reserved := q.reserved + amount, version := q.version + 1)]
          else
            r == Ok(Denied(id, if left < 0 then 0 else left)) && after == before)
  }

  lemma TriedIsAnswered(before: Table, after: Table, key: Key, cabinLimit: int, yardLimit: int, amount: int,
                        uuid: Id, outcome: Outcome, r: Result<ReserveResult>)
    requires amount > 0 && (outcome.Reserved? || outcome.Rejected?) && (Absent(before, key) ==> uuid !in before)
    requires Tried(before, after, key, if key.kind == Yard then yardLimit else cabinLimit, amount, uuid,
                   outcome.id, outcome.Reserved?)
    requires var left := Available(after[outcome.id]);
      r == Ok(if outcome.Reserved? then Granted(outcome.id, left) else Denied(outcome.id, left))
    ensures Answered(before, after, key, cabinLimit, yardLimit, amount, uuid, r)
  {
    if outcome.id in before {
      assert !Absent(before, key);
    }
  }

  /** A key has one row or none. */
  lemma OneOrNone(log: seq<Change>, key: Key)
    requires Sound(log)
    ensures Absent(Replay(log), key) || HasRow(Replay(log), key)
  {
    if id :| id in Replay(log) && Replay(log)[id].key == key {
      FoundIsTheRow(log, key, id);
    }
  }

  /** A won reservation is atomic: at the moment it took effect the row had the amount, it now has
      exactly that much more reserved, and no other row changed. */
  lemma WonReservationIsAtomic(a: seq<Change>, b: seq<Change>, id: Id, amount: int)
    requires Sound(b) && OneUpdate(a, b, id, Reserve(amount))
    ensures var before, after := Replay(b[..|b| - 1]), Replay(b);
      && id in before && after.Keys == before.Keys
      && (forall o :: o in before && o != id ==> after[o] == before[o])
      && after[id].reserved == before[id].reserved + amount && after[id].used == before[id].used
      && Raw(after[id]) == Raw(before[id]) - amount >= 0
  {
    var init, c := b[..|b| - 1], b[|b| - 1];
    assert b == init + [c];
    ReplayAppend(init, c);
  }

  /** A losing compare-and-set: if the snapshot read at `a` would still pass the guard, the row's version
      has moved, so another client has won an update since. */
  lemma LostMeansOvertaken(a: seq<Change>, b: seq<Change>, id: Id, s: Stmt)
    requires Sound(b) && a <= b && id in Replay(a)
    requires var q := Replay(a)[id]; Guard(q, s)
    ensures id in Replay(b)
    ensures !(Replay(b)[id].version == Replay(a)[id].version && Guard(Replay(b)[id], s)) ==> WinsSince(a, b, id) >= 1
  {
    assert b[..|a|] == a;
    RowMoves(b, |a|, id);
  }

  lemma {:induction false} SoundPrefix(a: seq<Change>, b: seq<Change>)
    requires Sound(b) && a <= b
    ensures Sound(a)
  {
    if |a| == |b| {
      assert a == b;
    } else {
      SoundPrefix(a, b[..|b| - 1]);
    }
  }

  class QuotaStore {
    var rows: Table
    ghost var log: seq<Change>

    ghost predicate Valid()
      reads this
    {
      Sound(log) && rows == Replay(log)
    }

    /** What each outcome of the reserve loop means, `lost` passes having decided nothing since `start`. */
    ghost predicate Means(start: seq<Change>, key: Key, amount: int, maxRetries: nat, env: Env<Attempt>, r: Outcome,
                          lost: nat)
      reads this
    {
      match r
      case Reserved(id) =>
        OneUpdate(start, log, id, Reserve(amount)) && TheRow(rows, key, id) && lost <= maxRetries
      case Rejected(id) =>
        Undisturbed(start, log) && TheRow(rows, key, id) && Available(rows[id]) < amount && lost <= maxRetries
      case Failed =>
        && Undisturbed(start, log) && lost <= maxRetries
        && PassFails(env, lost + 1, Replay(start), rows, key, maxRetries)
      case Exhausted =>
        Undisturbed(start, log) && lost == maxRetries + 1 && Contentions(env, 3, lost) < lost
    }

    /** Those of the first n passes that met no contention lost to updates of others. */
    ghost predicate Progress(start: seq<Change>, key: Key, amount: int, env: Env<Attempt>, target: Id, n: nat)
      reads this
    {
      amount > 0 || NonNegative(log) ==> Overtaken(start, log, env, key, target, n)
    }

    constructor ()
      ensures Valid() && rows == map[] && log == []
    {
      rows, log := map[], [];
    }

    // ---- statements

    /** INSERT INTO quotas: refused if the id or the (type, day) is taken. */
    method Insert(id: Id, key: Key, limit: int) returns (ok: bool)
      requires Valid()
      modifies this
      ensures Valid()
      ensures ok <==> Possible(old(rows), Inserted(id, key, limit))
      ensures log == old(log) + if ok then [Inserted(id, key, limit)] else []
    {
      ok := id !in rows && forall o :: o in rows ==> rows[o].key != key;
      if ok {
        ReplayAppend(log, Inserted(id, key, limit));
        rows := rows[id := Quota(key, limit, 0, 0, 1)];
        log := log + [Inserted(id, key, limit)];
      }
    }

    /** UPDATE quotas ... WHERE id = ? AND version = ? AND guard. */
    method Update(id: Id, s: Stmt, version: Version, ghost mine: bool) returns (affected: nat)
      requires Valid()
      modifies this
      ensures Valid()
      ensures affected ==
        if id in old(rows) && old(rows)[id].version == version && Guard(old(rows)[id], s) then 1 else 0
      ensures log == if affected == 1 then old(log) + [Won(id, s, mine)] else old(log)
      ensures affected == 0 ==> rows == old(rows)
    {
      if id !in rows || rows[id].version != version || !Guard(rows[id], s) {
        return 0;
      }
      ReplayAppend(log, Won(id, s, mine));
      var q := rows[id];
      match s {
        case Reserve(amount) => q := q.(reserved := q.reserved + amount);
        case Commit(amount) => q := q.(used := q.used + amount, reserved := q.reserved - amount);
        case Release(amount) => q := q.(reserved := q.reserved - amount);
      }
      rows := rows[id := q.(version := q.version + 1)];
      log := log + [Won(id, s, mine)];
      return 1;
    }

    /** Any statements of other clients. */
    method Others(script: seq<Attempt>)
      requires Valid()
      modifies this
      ensures Valid() && Undisturbed(old(log), log)
      ensures script == [] ==> log == old(log)
    {
      for i := 0 to |script|
        invariant Valid() && Undisturbed(old(log), log)
        invariant i == 0 ==> log == old(log)
      {
        match script[i] {
          case TryInsert(id, key, limit) => var ok := Insert(id, key, limit);
          case TryUpdate(id, s, version) => var affected := Update(id, s, version, false);
        }
      }
    }

    /** SELECT by (type, day). */
    method Find(key: Key) returns (r: Option<Id>)
      requires Valid()
      ensures r.None? ==> Absent(rows, key)
      ensures r.Some? ==> TheRow(rows, key, r.value)
    {
      if id :| id in rows && rows[id].key == key {
        FoundIsTheRow(log, key, id);
        r := Some(id);
      } else {
        r := None;
      }
    }

    /** Select, insert on a miss, and select again if the insert lost a race. Every caller that gets a
        row gets the one row of the key, as it is when the call returns. If the row was there before the
        call, the call fails exactly when the store refuses its first select. */
    method GetOrCreate(key: Key, limit: int, env: Env<Attempt>, n: nat) returns (r: Result<Id>)
      requires Valid()
      modifies this
      ensures Valid() && Undisturbed(old(log), log)
      ensures r.Ok? ==> TheRow(rows, key, r.value)
      ensures r.Err? ==> ReadFails(env, n, old(rows), rows, key)
      ensures HasRow(old(rows), key) ==>
        && HasRow(rows, key) && (r.Err? <==> env(n, 0).fault != Fine)
        && (env(n, 0).others == [] ==> log == old(log))
      ensures Absent(old(rows), key) && Still(env(n, 0)) && Still(env(n, 1)) && env(n, 1).uuid !in old(rows) ==>
        r == Ok(env(n, 1).uuid) && rows == old(rows)[env(n, 1).uuid := Quota(key, limit, 0, 0, 1)]
    {
      Others(env(n, 0).others);
      KeepSomeRow(old(log), log, key);
      if env(n, 0).fault != Fine {
        return Err(Internal);
      }
      var found := Find(key);
      if found.Some? {
        return Ok(found.value);
      }
      AbsentBefore(old(log), log, key);
      r := Create(key, limit, env, n);
    }

    /** The insert after a miss, and the second select. */
    method Create(key: Key, limit: int, env: Env<Attempt>, n: nat) returns (r: Result<Id>)
      requires Valid()
      modifies this
      ensures Valid() && Undisturbed(old(log), log)
      ensures r.Ok? ==> TheRow(rows, key, r.value)
      ensures r.Err? ==>
        || env(n, 2).fault != Fine
        || (Absent(rows, key) && (env(n, 1).fault != Fine || env(n, 1).uuid in rows))
      ensures Absent(old(rows), key) && Still(env(n, 1)) && env(n, 1).uuid !in old(rows) ==>
        r == Ok(env(n, 1).uuid) && rows == old(rows)[env(n, 1).uuid := Quota(key, limit, 0, 0, 1)]
    {
      Others(env(n, 1).others);
      var uuid, ok := env(n, 1).uuid, false;
      ghost var before := log;
      if env(n, 1).fault == Fine {
        ok := Insert(uuid, key, limit);
      }
      if ok {
        ReplayAppend(before, Inserted(uuid, key, limit));
        FoundIsTheRow(log, key, uuid);
        return Ok(uuid);
      }
      Others(env(n, 2).others);
      if env(n, 2).fault != Fine {
        return Err(Internal);
      }
      var found := Find(key);
      if found.None? {
        RefusedInsert(before, log, uuid, key, limit);
        return Err(Internal);
      }
      return Ok(found.value);
    }

    /** The guarded update of row id, read as q, after whatever the other clients do first. */
    method CompareAndSet(id: Id, q: Quota, s: Stmt, m: Moment<Attempt>) returns (r: Pass)
      requires Valid() && id in rows && rows[id] == q
      modifies this
      ensures Valid() && id in rows && rows[id].key == q.key
      ensures (r == Contended <==> m.fault == Contention) && (r == Refused <==> m.fault == Broken)
      ensures r.Took? ==> r.id == id && OneUpdate(old(log), log, id, s)
      ensures !r.Took? ==> Undisturbed(old(log), log)
      ensures r.Lost? && Guard(q, s) ==> WinsSince(old(log), log, id) >= 1
      ensures r in {Took(id), Lost(id), Contended, Refused}
      ensures Still(m) && Guard(q, s) ==> r == Took(id) && log == old(log) + [Won(id, s, true)]
    {
      ghost var read := log;
      Others(m.others);
      ghost var now := log;
      KeepTarget(read, read, now, q.key, id);
      if m.fault != Fine {
        return if m.fault == Contention then Contended else Refused;
      }
      var affected := Update(id, s, q.version, true);
      if affected > 0 {
        ReplayAppend(now, Change.Won(id, s, true));
        return Took(id);
      }
      if Guard(q, s) {
        LostMeansOvertaken(read, log, id, s);
      }
      return Lost(id);
    }

    /** One pass of the reserve loop. */
    method ReserveOnce(key: Key, limit: int, amount: int, env: Env<Attempt>, n: nat) returns (r: Pass)
      requires Valid() && amount >= 0
      modifies this
      ensures Valid()
      ensures r.Took? ==> OneUpdate(old(log), log, r.id, Reserve(amount)) && TheRow(rows, key, r.id)
      ensures !r.Took? ==> Undisturbed(old(log), log)
      ensures r.Short? ==> TheRow(rows, key, r.id) && Available(rows[r.id]) < amount
      ensures r.Contended? || r.Lost? || r.Took? ==> (r.Contended? <==> env(n, 3).fault == Contention)
      ensures r.Refused? ==> ReadFails(env, n, old(rows), rows, key) || env(n, 3).fault == Broken
      ensures HasRoom(old(rows), key, amount) && Still(env(n, 0)) && Still(env(n, 3)) ==>
        r.Took? && log == old(log) + [Won(r.id, Reserve(amount), true)]
      ensures amount > 0 && Quiet(old(rows), key, env, n) ==>
        (r.Took? || r.Short?) && Tried(old(rows), rows, key, limit, amount, env(n, 1).uuid, r.id, r.Took?)
      ensures r.Lost? ==> TheRow(rows, key, r.id)
      ensures r.Lost? && (amount > 0 || NonNegative(log)) ==> WinsSince(old(log), log, r.id) >= 1
    {
      OneOrNone(log, key);
      var g := GetOrCreate(key, limit, env, n);
      if g.Err? {
        return Refused;
      }
      var id, q := g.value, rows[g.value];
      if Available(q) < amount {
        return Short(id);
      }
      ghost var read := log;
      r := CompareAndSet(id, q, Reserve(amount), env(n, 3));
      FoundIsTheRow(log, key, id);
      if r.Lost? && (amount > 0 || NonNegative(log)) {
        if amount == 0 {
          SoundPrefix(read, log);
          LedgerBound(read, id);
        }
        CheckImpliesGuard(q, amount);
        WinsGrow(old(log), read, id);
      }
    }

    /** The bounded reserve loop (quota.reserveWithRetry, and declaration.reserveQuotaWithRetry with the
        same body) is one atomic try-reserve, whatever the environment:
        reserved means exactly one update of this call, by `amount`, on the key's row;
        rejected means no update, and the row is short of `amount` at the moment of its last read;
        failed means no update, and that the pass after the lost ones was refused, and why;
        exhausted means no update and maxRetries + 1 lost passes.
        A lost pass met storage contention or lost to an update of another client. */
    method ReserveWithRetry(key: Key, limit: int, amount: int, maxRetries: nat, env: Env<Attempt>)
      returns (r: Outcome, ghost lost: nat, ghost target: Id)
      requires Valid() && amount >= 0
      modifies this
      ensures Valid() && Means(old(log), key, amount, maxRetries, env, r, lost)
      ensures Progress(old(log), key, amount, env, target, lost)
      ensures HasRoom(old(rows), key, amount) && Still(env(1, 0)) && Still(env(1, 3)) ==>
        r.Reserved? && log == old(log) + [Won(r.id, Reserve(amount), true)]
      ensures amount > 0 && Quiet(old(rows), key, env, 1) ==>
        && (r.Reserved? || r.Rejected?)
        && Tried(old(rows), rows, key, limit, amount, env(1, 1).uuid, r.id, r.Reserved?)
    {
      lost, target := 0, 0;
      ghost var calm := (HasRoom(rows, key, amount) && Still(env(1, 0)) && Still(env(1, 3)))
                        || (amount > 0 && Quiet(rows, key, env, 1));
      for attempt := 0 to maxRetries + 1
        invariant Valid() && Undisturbed(old(log), log) && lost == attempt
        invariant attempt == maxRetries + 1 ==> env(maxRetries + 1, 3).fault != Contention
        invariant Progress(old(log), key, amount, env, target, attempt)
        invariant attempt == 0 ==> log == old(log)
        invariant calm ==> attempt == 0
      {
        var done;
        done, target := ReservePass(key, limit, amount, maxRetries, attempt, env, old(log), target);
        if done.Some? {
          r := done.value;
          return;
        }
        lost := lost + 1;
      }
      NotAllContended(env, 3, lost);
      r := Exhausted;
    }

    /** One pass and what it means for the loop, which began at the log `start`; None means that the loop
        goes on. */
    method ReservePass(key: Key, limit: int, amount: int, maxRetries: nat, attempt: nat, env: Env<Attempt>,
                       ghost start: seq<Change>, ghost last: Id)
      returns (r: Option<Outcome>, ghost target: Id)
      requires Valid() && amount >= 0 && Undisturbed(start, log) && attempt <= maxRetries
      requires Progress(start, key, amount, env, last, attempt)
      modifies this
      ensures Valid()
      ensures r.Some? ==> !r.value.Exhausted? && Means(start, key, amount, maxRetries, env, r.value, attempt)
      ensures r.None? ==> Undisturbed(start, log) && (attempt == maxRetries ==> env(attempt + 1, 3).fault != Contention)
      ensures r.None? ==> Progress(start, key, amount, env, target, attempt + 1)
      ensures r.Some? ==> Progress(start, key, amount, env, target, attempt)
      ensures HasRoom(old(rows), key, amount) && Still(env(attempt + 1, 0)) && Still(env(attempt + 1, 3)) ==>
        r.Some? && r.value.Reserved? && log == old(log) + [Won(r.value.id, Reserve(amount), true)]
      ensures amount > 0 && Quiet(old(rows), key, env, attempt + 1) ==>
        && r.Some? && (r.value.Reserved? || r.value.Rejected?)
        && Tried(old(rows), rows, key, limit, amount, env(attempt + 1, 1).uuid, r.value.id, r.value.Reserved?)
    {
      target := last;
      var pass := ReserveOnce(key, limit, amount, env, attempt + 1);
      AfterPass(start, old(log), log, key, last, env, attempt);
      if pass.Lost? {
        AfterLoss(start, old(log), log, key, target, pass.id, env, attempt);
        target := pass.id;
        return None, target;
      }
      if pass.Contended? {
        AtMostAll(env, 3, attempt);
        if attempt < maxRetries && !env(attempt + 1, 3).ended {
          return None, target;
        }
      }
      r := Some(if pass.Took? then Reserved(pass.id) else if pass.Short? then Rejected(pass.id) else Failed);
    }

    /** The Reserve operation. A grant or a denial reports what the key's row has left when the call
        returns. A grant is exactly one update of this call and a denial none. An error can leave the
        amount reserved: once the reservation has won, or been denied, the call ends in an error exactly
        when the store refuses the one select that follows. Any other error has its cause in a refused
        pass, or in 26 passes that met contention or lost to updates of others. An undisturbed call is
        answered by what the key's row, or a new row with the daily limit of its kind, has left. */
    method ReserveAmount(key: Key, cabinLimit: int, yardLimit: int, amount: int, env: Env<Attempt>)
      returns (r: Result<ReserveResult>, ghost won: Option<Id>, ghost lost: nat, ghost target: Id)
      requires Valid()
      modifies this
      ensures Valid()
      ensures amount <= 0 <==> r == Err(ValidationFailed)
      ensures amount <= 0 ==> log == old(log)
      ensures won.None? ==> Undisturbed(old(log), log)
      ensures won.Some? ==> UpdatedOnce(old(log), log, won.value, Reserve(amount))
      ensures r.Err? ==> r.error in {ValidationFailed, Internal}
      ensures won.Some? ==> (r.Err? <==> env(0, 0).fault != Fine)
      ensures match r
        case Ok(Granted(id, available)) => won == Some(id) && TheRow(rows, key, id) && available == Available(rows[id])
        case Ok(Denied(id, available)) => won.None? && TheRow(rows, key, id) && available == Available(rows[id])
        case Err(_) => amount > 0 && env(0, 0).fault == Fine ==>
          || (lost <= 25 && PassFails(env, lost + 1, old(rows), rows, key, 25))
          || (lost == 26 && Contentions(env, 3, lost) < lost && Overtaken(old(log), log, env, key, target, lost))
      ensures amount > 0 && HasRoom(old(rows), key, amount) && Still(env(1, 0)) && Still(env(1, 3)) ==>
        won.Some? && (env(0, 0).others == [] ==> log == old(log) + [Won(won.value, Reserve(amount), true)])
      ensures amount > 0 && Quiet(old(rows), key, env, 1) && Still(env(0, 0)) ==>
        Answered(old(rows), rows, key, cabinLimit, yardLimit, amount, env(1, 1).uuid, r)
    {
      won, lost, target := None, 0, 0;
      if amount <= 0 {
        return Err(ValidationFailed), None, 0, 0;
      }
      var limit := cabinLimit;
      if key.kind == Yard {
        limit := yardLimit;
      }
      var outcome;
      outcome, lost, target := ReserveWithRetry(key, limit, amount, 25, env);
      if outcome.Failed? || outcome.Exhausted? {
        return Err(Internal), None, lost, target;
      }
      ghost var decided := log;
      r := Report(outcome, key, limit, env);
      if outcome.Reserved? {
        won := Some(outcome.id);
        assert log[..|decided|] == decided;
      }
      if Quiet(old(rows), key, env, 1) && Still(env(0, 0)) {
        TriedIsAnswered(old(rows), rows, key, cabinLimit, yardLimit, amount, env(1, 1).uuid, outcome, r);
      }
    }

    /** The read after the decision, and what the caller is told. */
    method Report(outcome: Outcome, key: Key, limit: int, env: Env<Attempt>) returns (r: Result<ReserveResult>)
      requires Valid() && (outcome.Reserved? || outcome.Rejected?) && TheRow(rows, key, outcome.id)
      modifies this
      ensures Valid() && Undisturbed(old(log), log)
      ensures TheRow(rows, key, outcome.id) && (env(0, 0).others == [] ==> log == old(log))
      ensures r == if env(0, 0).fault != Fine then Err(Internal)
                   else if outcome.Reserved? then Ok(Granted(outcome.id, Available(rows[outcome.id])))
                   else Ok(Denied(outcome.id, Available(rows[outcome.id])))
    {
      assert HasRow(rows, key);
      var g := GetOrCreate(key, limit, env, 0);
      KeepTheRow(old(log), old(log), log, key, outcome.id);
      if g.Err? {
        return Err(Internal);
      }
      if outcome.Rejected? {
        return Ok(Denied(g.value, Available(rows[g.value])));
      }
      return Ok(Granted(outcome.id, Available(rows[g.value])));
    }

    /** GetQuota: the row, or an error when the store refuses or there is none. */
    method Get(id: Id, m: Moment<Attempt>) returns (r: Result<Quota>)
      requires Valid()
      modifies this
      ensures Valid() && Undisturbed(old(log), log)
      ensures r.Ok? ==> id in rows && r.value == rows[id]
      ensures r.Err? ==> m.fault != Fine || id !in rows
    {
      Others(m.others);
      if m.fault != Fine || id !in rows {
        return Err(Internal);
      }
      return Ok(rows[id]);
    }

    /** One pass of the commit loop. */
    method CommitOnce(id: Id, amount: int, env: Env<Attempt>, n: nat) returns (r: Pass)
      requires Valid()
      modifies this
      ensures Valid()
      ensures r.Took? ==> OneUpdate(old(log), log, id, Commit(amount))
      ensures !r.Took? ==> Undisturbed(old(log), log)
      ensures r.Short? ==> id in rows && rows[id].reserved < amount
      ensures r.Lost? ==> WinsSince(old(log), log, id) >= 1
      ensures r.Refused? || r.Contended? ==> StatementFails(env, n, id, rows)
    {
      var g := Get(id, env(n, 0));
      if g.Err? {
        return Refused;
      }
      if g.value.reserved < amount {
        return Short(id);
      }
      WinsGrow(old(log), log, id);
      r := CompareAndSet(id, g.value, Commit(amount), env(n, 1));
    }

    /** Commit retries four times. Success is exactly one update of this call; a validation error means
        the row holds less than `amount`; a conflict means other clients won at least five updates; any
        other error ends the pass whose statement was refused or found no row, after passes that lost. */
    method CommitReserved(id: Id, amount: int, env: Env<Attempt>) returns (r: Result<Unit>, ghost passes: nat)
      requires Valid()
      modifies this
      ensures Valid()
      ensures r.Ok? ==> OneUpdate(old(log), log, id, Commit(amount))
      ensures r.Err? ==> Undisturbed(old(log), log) && r.error in {ValidationFailed, Internal, Conflict}
      ensures r == Err(ValidationFailed) ==> id in rows && rows[id].reserved < amount
      ensures r == Err(Conflict) ==> WinsSince(old(log), log, id) >= 5
      ensures r == Err(Internal) ==>
        && 1 <= passes <= 5 && StatementFails(env, passes, id, rows)
        && WinsSince(old(log), log, id) >= passes - 1
    {
      passes := 0;
      for attempt := 0 to 5
        invariant Valid() && Undisturbed(old(log), log)
        invariant WinsSince(old(log), log, id) >= attempt
      {
        ghost var before := log;
        var pass := CommitOnce(id, amount, env, attempt + 1);
        passes := attempt + 1;
        if !pass.Took? {
          WinsGrow(before, log, id);
        }
        match pass {
          case Took(_) => return Ok(Unit.Unit), passes;
          case Short(_) => return Err(ValidationFailed), passes;
          case Lost(_) =>
          case _ => return Err(Internal), passes;
        }
      }
      return Err(Conflict), passes;
    }

    /** One pass of the release loop; `short` says that the row it read held less than `amount`. */
    method ReleaseOnce(id: Id, amount: int, env: Env<Attempt>, n: nat) returns (r: Pass, ghost short: bool)
      requires Valid()
      modifies this
      ensures Valid()
      ensures r.Took? ==> OneUpdate(old(log), log, id, Release(amount))
      ensures !r.Took? ==> Undisturbed(old(log), log)
      ensures r.Lost? && !short ==> WinsSince(old(log), log, id) >= 1
      ensures !r.Short? && (r.Refused? || r.Contended? ==> StatementFails(env, n, id, rows))
      ensures WinsSince(old(log), log, id) >= 0
      ensures short ==> exists n :: |old(log)| <= n && ShortAt(log, n, id, amount)
    {
      short := false;
      var g := Get(id, env(n, 0));
      WinsGrow(old(log), log, id);
      if g.Err? {
        return Refused, false;
      }
      ghost var read := log;
      short := g.value.reserved < amount;
      r := CompareAndSet(id, g.value, Release(amount), env(n, 1));
      WinsGrow(read, log, id);
      if short {
        assert log[..|read|] == read;
        assert ShortAt(log, |read|, id, amount);
      }
    }

    /** Release makes no check of its own, so its conflict can also mean that the row held less than
        `amount` when it was read; otherwise it, too, means five updates of other clients. */
    method ReleaseReserved(id: Id, amount: int, env: Env<Attempt>)
      returns (r: Result<Unit>, ghost short: bool, ghost passes: nat)
      requires Valid()
      modifies this
      ensures Valid()
      ensures r.Ok? ==> OneUpdate(old(log), log, id, Release(amount))
      ensures r.Err? ==> Undisturbed(old(log), log) && r.error in {Internal, Conflict}
      ensures r == Err(Conflict) && !short ==> WinsSince(old(log), log, id) >= 5
      ensures r == Err(Internal) ==>
        && 1 <= passes <= 5 && StatementFails(env, passes, id, rows)
        && (!short ==> WinsSince(old(log), log, id) >= passes - 1)
      ensures short ==> exists n :: |old(log)| <= n && ShortAt(log, n, id, amount)
    {
      short, passes := false, 0;
      for attempt := 0 to 5
        invariant Valid() && Undisturbed(old(log), log)
        invariant !short ==> WinsSince(old(log), log, id) >= attempt
        invariant short ==> exists n :: |old(log)| <= n && ShortAt(log, n, id, amount)
      {
        ghost var before := log;
        var pass;
        ghost var now;
        pass, now := ReleaseOnce(id, amount, env, attempt + 1);
        passes := attempt + 1;
        KeepShort(before, log, |old(log)|, id, amount, short);
        short := short || now;
        match pass {
          case Took(_) => return Ok(Unit.Unit), short, passes;
          case Lost(_) =>
          case _ => return Err(Internal), short, passes;
        }
      }
      return Err(Conflict), short, passes;
    }
  }

  /** How one pass of the reserve loop ends. */
  datatype Pass = Took(id: Id) | Short(id: Id) | Lost(id: Id) | Contended | Refused

  /** After n changes, row id held less than `amount`. */
  predicate ShortAt(log: seq<Change>, n: nat, id: Id, amount: int) {
    n <= |log| && id in Replay(log[..n]) && Replay(log[..n])[id].reserved < amount
  }

  lemma KeepShort(a: seq<Change>, b: seq<Change>, from: nat, id: Id, amount: int, short: bool)
    requires a <= b && (short ==> exists n :: from <= n && ShortAt(a, n, id, amount))
    ensures short ==> exists n :: from <= n && ShortAt(b, n, id, amount)
  {
    if short {
      var n :| from <= n && ShortAt(a, n, id, amount);
      assert b[..n] == a[..n];
      assert ShortAt(b, n, id, amount);
    }
  }

  /** A row found earlier is still the key's row, and no win on it is forgotten. */
  lemma KeepTarget(start: seq<Change>, a: seq<Change>, b: seq<Change>, key: Key, target: Id)
    requires Sound(b) && start <= a <= b
    ensures target in Replay(a) ==>
      target in Replay(b) && Replay(b)[target].key == Replay(a)[target].key
    ensures WinsSince(start, b, target) >= WinsSince(start, a, target)
  {
    assert b[..|a|] == a;
    WinsGrow(a, b, target);
    if target in Replay(a) {
      RowMoves(b, |a|, target);
    }
  }

  lemma KeepTheRow(start: seq<Change>, a: seq<Change>, b: seq<Change>, key: Key, target: Id)
    requires Sound(b) && start <= a <= b
    ensures TheRow(Replay(a), key, target) ==> TheRow(Replay(b), key, target)
    ensures WinsSince(start, b, target) >= WinsSince(start, a, target)
  {
    KeepTarget(start, a, b, key, target);
    if TheRow(Replay(a), key, target) {
      FoundIsTheRow(b, key, target);
    }
  }

  lemma KeepSomeRow(a: seq<Change>, b: seq<Change>, key: Key)
    requires Sound(b) && a <= b
    ensures HasRow(Replay(a), key) ==> HasRow(Replay(b), key)
  {
    if id :| TheRow(Replay(a), key, id) {
      KeepTheRow(a, a, b, key, id);
    }
  }

  /** Of the first n passes of the reserve loop, those that met no contention lost to updates that other
      clients won on the key's row. */
  predicate Overtaken(a: seq<Change>, b: seq<Change>, env: Env<Attempt>, key: Key, target: Id, n: nat) {
    Contentions(env, 3, n) < n ==>
      TheRow(Replay(b), key, target) && WinsSince(a, b, target) >= n - Contentions(env, 3, n)
  }

  /** What a pass leaves of the facts about the passes before it. */
  lemma AfterPass(start: seq<Change>, a: seq<Change>, b: seq<Change>, key: Key, target: Id, env: Env<Attempt>, n: nat)
    requires Sound(b) && start <= a <= b
    ensures Overtaken(start, a, env, key, target, n) ==> Overtaken(start, b, env, key, target, n)
    ensures NonNegative(b) ==> NonNegative(a)
    ensures Absent(Replay(a), key) ==> Absent(Replay(start), key)
  {
    KeepTheRow(start, a, b, key, target);
    SoundPrefix(a, b);
    if Absent(Replay(a), key) {
      AbsentBefore(start, a, key);
    }
  }

  /** A pass that lost on the key's row adds another client's win there. */
  lemma AfterLoss(start: seq<Change>, a: seq<Change>, b: seq<Change>, key: Key, target: Id, id: Id,
                  env: Env<Attempt>, n: nat)
    requires Sound(b) && start <= a <= b && TheRow(Replay(b), key, id)
    requires env(n + 1, 3).fault != Contention
    ensures Overtaken(start, a, env, key, target, n) && WinsSince(a, b, id) >= 1 ==>
      Overtaken(start, b, env, key, id, n + 1)
  {
    KeepTheRow(start, a, b, key, target);
    WinsGrow(start, a, id);
    AtMostAll(env, 3, n);
  }

  /** Rows are never deleted, so a key without a row never had one. */
  lemma AbsentBefore(a: seq<Change>, b: seq<Change>, key: Key)
    requires Sound(b) && a <= b && Absent(Replay(b), key)
    ensures Absent(Replay(a), key)
  {
    assert b[..|a|] == a;
    forall o | o in Replay(a) ensures Replay(a)[o].key != key {
      RowMoves(b, |a|, o);
    }
  }

  /** Such an error happens: a row with room for 3, nobody else around, and a store that refuses only
      the select after the won reservation. The caller gets an error and the row has 3 reserved. */
  method ErrorKeepsReservation() returns (r: Result<ReserveResult>, reserved: int)
    ensures r == Err(Internal) && reserved == 3
  {
    var store := new QuotaStore();
    var key := Key(Cabin, 0);
    var ok := store.Insert(1, key, 10);
    assert store.log == [Inserted(1, key, 10)] && Replay([]) == map[];
    ReplayAppend([], Inserted(1, key, 10));
    FoundIsTheRow(store.log, key, 1);
    var env: Env<Attempt> := (n, k) => Moment([], if n == 0 then Broken else Fine, false, 0, 0, 2);
    ghost var won, lost, target;
    r, won, lost, target := store.ReserveAmount(key, 10, 10, 3, env);
    ReplayAppend([Inserted(1, key, 10)], Won(won.value, Reserve(3), true));
    reserved := store.rows[1].reserved;
  }

  /** An insert that was refused although the key is still absent met a taken id. */
  lemma RefusedInsert(a: seq<Change>, b: seq<Change>, id: Id, key: Key, limit: int)
    requires Sound(b) && a <= b && Absent(Replay(b), key)
    ensures Absent(Replay(a), key)
    ensures !Possible(Replay(a), Inserted(id, key, limit)) ==> id in Replay(b)
  {
    assert b[..|a|] == a;
    forall o | o in Replay(a) ensures o in Replay(b) && Replay(b)[o].key == Replay(a)[o].key {
      RowMoves(b, |a|, o);
    }
  }
}
