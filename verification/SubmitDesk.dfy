/** Submit as the declaration service runs it, statement by statement, against tables that other calls
    keep changing. Every method is proved to take steps of the machine of module Submissions, so what is
    proved there of every run holds of the tables and of what Submit returns. */
module SubmitDesk {
  import opened Wrappers
  import opened StateMachines
  import opened Quotas
  import opened Runs
  import opened Environment
  import opened Submissions

  /** The call has a key with a cached reply that has not expired, and the lookup succeeds. */
  predicate HasLiveReply(cache: map<Id, Cached>, req: Request, m: Moment<Event>) {
    && m.fault == Fine && req.idem.Some? && req.idem.value in cache
    && m.now <= cache[req.idem.value].expires
  }

  predicate SameTables(s: Sys, t: Sys) { s.quotas == t.quotas && s.decls == t.decls && s.cache == t.cache }

  function WithReply(cache: map<Id, Cached>, req: Request, reply: Reply, now: int): map<Id, Cached> {
    if req.idem.Some? && req.idem.value !in cache then cache[req.idem.value := Cached(reply, Expiry(now))] else cache
  }

  /** The row of a key once it exists, and with an amount reserved. */
  function HeldRow(quotas: map<Key, Quota>, key: Key, limit: nat, amount: nat): map<Key, Quota> {
    var there := WithRow(quotas, key, limit);
    there[key := Update(there[key], Reserve(amount))]
  }

  /** What an undisturbed Submit without a live cached reply makes of the tables and answers. What the row
      of its (type, day) has left decides; a missing row is created with the daily limit; the declaration
      is queued exactly when less than a fifth of the limit is left after it; and an answer is cached for a
      day, in whole seconds, unless its key has one. */
  ghost predicate Served(s: Sys, t: Sys, req: Request, limit: nat, env: Env<Event>, r: Result<Reply>) {
    var key, id, clock := Key(req.kind, env(0, 0).day), env(0, 2).uuid, env(0, 4).now;
    var q := if key in s.quotas then s.quotas[key] else Quota(key, limit, 0, 0, 1);
    var held := q.(reserved := q.reserved + req.volume, version := q.version + 1);
    var left := held.limit - held.used - held.reserved;
    var status := if 5 * left < held.limit then Queued else Accepted;
    var reply := if left < 0 then Refused else Stored(id, status);
    var cached := Cached(reply, clock - clock % 1_000_000_000 + 86_400 * 1_000_000_000);
    var taken := exists d :: 0 <= d < |s.decls|
                   && (s.decls[d].id == id || (req.idem.Some? && s.decls[d].idem == req.idem));
    var remembers := req.idem.Some? && req.idem.value !in s.cache;
    && t.quotas == s.quotas[key := if left < 0 then q else held]
    && (if left >= 0 && taken then r.Err? && t.cache == s.cache && t.decls == s.decls
        else
          && r == Ok(reply)
          && t.cache == (if remembers then s.cache[req.idem.value := cached] else s.cache)
          && t.decls == s.decls + if left < 0 then [] else [Decl(id, req.idem, req.volume, key, status)])
  }

  /** The same in the machine's terms. */
  ghost predicate Settled(s: Sys, t: Sys, req: Request, limit: nat, env: Env<Event>, r: Result<Reply>) {
    var key, id := KeyOf(req, env(0, 0).day), env(0, 2).uuid;
    var there, held := WithRow(s.quotas, key, limit), HeldRow(s.quotas, key, limit, req.volume);
    if Available(there[key]) < req.volume then
      && t.quotas == there && t.decls == s.decls
      && t.cache == WithReply(s.cache, req, Refused, env(0, 4).now) && r == Ok(Refused)
    else if TakenId(s, id) || TakenKey(s, req.idem) then
      t.quotas == held && t.decls == s.decls && t.cache == s.cache && r.Err?
    else
      var status := if Crowded(held[key]) then Queued else Accepted;
      && t.quotas == held && t.decls == s.decls + [Decl(id, req.idem, req.volume, key, status)]
      && t.cache == WithReply(s.cache, req, Stored(id, status), env(0, 4).now) && r == Ok(Stored(id, status))
  }

  lemma SettledIsServed(s: Sys, t: Sys, req: Request, limit: nat, env: Env<Event>, r: Result<Reply>)
    requires Settled(s, t, req, limit, env, r) && WithinLimit(s.quotas, KeyOf(req, env(0, 0).day))
    ensures Served(s, t, req, limit, env, r)
  {
    ExpiryIsADay(env(0, 4).now);
  }

  /** The first call of a day is refused exactly when its volume is over the daily limit; otherwise the new
      row has the limit and the volume reserved, and the declaration is queued or accepted by what is left. */
  lemma FirstOfDay(s: Sys, t: Sys, req: Request, limit: nat, env: Env<Event>, r: Result<Reply>)
    requires Served(s, t, req, limit, env, r) && Key(req.kind, env(0, 0).day) !in s.quotas
    ensures var key := Key(req.kind, env(0, 0).day);
      && (r == Ok(Refused) <==> req.volume > limit)
      && t.quotas == s.quotas[key := if req.volume > limit then Quota(key, limit, 0, 0, 1)
                                     else Quota(key, limit, 0, req.volume, 2)]
      && (r.Ok? && r.value.Stored? ==>
            r.value == Stored(env(0, 2).uuid, if 5 * (limit - req.volume) < limit then Queued else Accepted))
  {
  }

  /** A try-reserve on the row of a key, created if it is missing. */
  predicate ReservedOrShort(s: Sys, t: Sys, key: Key, limit: nat, amount: nat, reserved: bool) {
    && t.decls == s.decls && t.cache == s.cache
    && reserved == (Available(WithRow(s.quotas, key, limit)[key]) >= amount)
    && t.quotas == if reserved then HeldRow(s.quotas, key, limit, amount) else WithRow(s.quotas, key, limit)
  }

  predicate VersionIs(quotas: map<Key, Quota>, key: Key, version: Version) {
    key in quotas && quotas[key].version == version
  }

  /** f is the machine's step. Runs are written with such an f, not with the step itself. */
  ghost predicate Steps(f: (Sys, Event) -> Sys) {
    forall s: Sys, e: Event {:trigger Next(s, e)} :: f(s, e) == Next(s, e)
  }

  lemma {:induction false} StepsRun(f: (Sys, Event) -> Sys, s: Sys, events: seq<Event>)
    requires Steps(f)
    ensures RunOf(f, s, events) == Run(s, events)
  {
    if events != [] {
      var before, last := Run(s, events[..|events| - 1]), events[|events| - 1];
      StepsRun(f, s, events[..|events| - 1]);
      assert f(before, last) == Next(before, last);
    }
  }

  lemma StaysCached(f: (Sys, Event) -> Sys, trace: seq<Event>, more: seq<Event>, key: Id)
    requires Steps(f) && key in RunOf(f, EMPTY, trace).cache
    ensures key in RunOf(f, EMPTY, trace + more).cache
    ensures RunOf(f, EMPTY, trace + more).cache[key] == RunOf(f, EMPTY, trace).cache[key]
  {
    RunConcat(f, EMPTY, trace, more);
    StepsRun(f, RunOf(f, EMPTY, trace), more);
    CacheIsStable(RunOf(f, EMPTY, trace), more, key);
  }

  lemma {:induction false} RunMovesRow(s: Sys, events: seq<Event>, key: Key)
    ensures RowLater(s.quotas, Run(s, events).quotas, key)
  {
    if events != [] {
      RunMovesRow(s, events[..|events| - 1], key);
      NextMovesRow(Run(s, events[..|events| - 1]), events[|events| - 1], key);
    }
  }

  lemma OthersMoveRow(f: (Sys, Event) -> Sys, trace: seq<Event>, more: seq<Event>, key: Key)
    requires Steps(f)
    ensures RowLater(RunOf(f, EMPTY, trace).quotas, RunOf(f, EMPTY, trace + more).quotas, key)
  {
    RunConcat(f, EMPTY, trace, more);
    StepsRun(f, RunOf(f, EMPTY, trace), more);
    RunMovesRow(RunOf(f, EMPTY, trace), more, key);
  }

  /** The version of a key's row; a row that is not there yet will start at 1. */
  function RowVersion(quotas: map<Key, Quota>, key: Key): Version {
    if key in quotas then quotas[key].version else 1
  }

  /** The snapshot with this version passes the reservation's guard. */
  predicate Reservable(quotas: map<Key, Quota>, key: Key, version: Version, amount: int) {
    VersionIs(quotas, key, version) && Guard(quotas[key], Reserve(amount))
  }

  /** Of the first n passes, those that met no contention lost to updates of the row by other calls. */
  predicate Overtaken(a: map<Key, Quota>, b: map<Key, Quota>, key: Key, env: Env<Event>, n: nat) {
    RowVersion(b, key) - RowVersion(a, key) >= n - Contentions(env, 1, n)
  }

  /** What one more pass adds, whether it decides or not. */
  lemma AfterPass(a: map<Key, Quota>, b: map<Key, Quota>, c: map<Key, Quota>, key: Key, env: Env<Event>, n: nat)
    requires Overtaken(a, b, key, env, n) && RowVersion(b, key) <= RowVersion(c, key)
    ensures Overtaken(a, c, key, env, n)
    ensures env(n + 1, 1).fault == Contention || RowVersion(b, key) < RowVersion(c, key) ==>
      Overtaken(a, c, key, env, n + 1)
  {
    AtMostAll(env, 1, n);
  }

  /** Rows are within their limit, so what the availability check passes, the guard passes too. */
  lemma EnoughIsReservable(f: (Sys, Event) -> Sys, trace: seq<Event>, key: Key, amount: nat)
    requires Steps(f)
    ensures var quotas := RunOf(f, EMPTY, trace).quotas;
      key in quotas && Available(quotas[key]) >= amount ==> Reservable(quotas, key, quotas[key].version, amount)
  {
    StepsRun(f, EMPTY, trace);
    BooksBalance(trace, key);
  }

  /** Why a pass of the reserve loop ends the call with an error. */
  predicate Refuses(read: Moment<Event>, write: Moment<Event>, last: bool) {
    read.fault != Fine || write.fault == Broken || (write.fault == Contention && (last || write.ended))
  }

  /** The other calls' statements are not call i's. */
  ghost predicate Elsewhere(env: Env<Event>, i: nat) {
    forall n: nat, k: nat {:trigger NotBy(env(n, k).others, i)} :: NotBy(env(n, k).others, i)
  }

  /** The id or the non-empty key of a declaration is taken. */
  predicate Taken(decls: seq<Decl>, id: Id, idem: Option<Id>) {
    exists d :: 0 <= d < |decls| && (decls[d].id == id || (idem.Some? && decls[d].idem == idem))
  }

  /** Why a call that has looked up its key ends in an error: after `lost` passes of the reserve loop the
      store refused the next one; or all 26 passes met contention or lost to updates of others, not all of
      them contention; or, with the reservation held, the store refused the re-read or the insert, or the
      id or key was taken. */
  predicate Caused(env: Env<Event>, lost: nat, key: Key, before: map<Key, Quota>, after: map<Key, Quota>,
                   decls: seq<Decl>, idem: Option<Id>)
  {
    || (lost <= 25 && PassRefused(env, lost + 1, 25))
    || (lost == 26 && Contentions(env, 1, lost) < lost && Overtaken(before, after, key, env, lost))
    || env(0, 1).fault != Fine || env(0, 2).fault != Fine || Taken(decls, env(0, 2).uuid, idem)
  }

  lemma CausedFromEarlier(env: Env<Event>, lost: nat, key: Key, start: map<Key, Quota>, before: map<Key, Quota>,
                          after: map<Key, Quota>, decls: seq<Decl>, idem: Option<Id>)
    requires Caused(env, lost, key, before, after, decls, idem) && RowVersion(start, key) <= RowVersion(before, key)
    ensures Caused(env, lost, key, start, after, decls, idem)
  {
  }

  lemma {:induction false} DeclsOnlyGrow(s: Sys, events: seq<Event>)
    ensures s.decls <= Run(s, events).decls
  {
    if events != [] {
      DeclsOnlyGrow(s, events[..|events| - 1]);
      DeclsGrow(Run(s, events[..|events| - 1]), events[|events| - 1]);
    }
  }

  lemma OthersKeepDecls(f: (Sys, Event) -> Sys, trace: seq<Event>, more: seq<Event>)
    requires Steps(f)
    ensures RunOf(f, EMPTY, trace).decls <= RunOf(f, EMPTY, trace + more).decls
  {
    RunConcat(f, EMPTY, trace, more);
    StepsRun(f, RunOf(f, EMPTY, trace), more);
    DeclsOnlyGrow(RunOf(f, EMPTY, trace), more);
  }

  predicate PassRefused(env: Env<Event>, n: nat, maxRetries: nat) {
    Refuses(env(n, 0), env(n, 1), n == maxRetries + 1)
  }

  class Desk {
    var quotas: map<Key, Quota>
    var decls: seq<Decl>
    var cache: map<Id, Cached>
    var calls: seq<Session>      // where every Submit call stands
    var direct: map<Key, int>
    ghost var trace: seq<Event>
    ghost const step: (Sys, Event) -> Sys

    ghost function Now(): Sys
      reads this
    {
      Sys(quotas, decls, cache, calls, direct)
    }

    /** The tables are what the machine's run has made of them (StepsRun). */
    ghost predicate Valid()
      reads this
    {
      Steps(step) && Now() == RunOf(step, EMPTY, trace)
    }

    ghost predicate At(i: nat, req: Request, phase: Phase)
      reads this
    {
      Valid() && i < |calls| && calls[i] == Session(req, phase)
    }

    /** Where the reserve loop leaves the call. */
    ghost predicate Decided(i: nat, req: Request, day: int, r: Result<bool>)
      reads this
    {
      At(i, req, if r.Err? then Failed else if r.value then Holding(day) else Caching(Refused))
    }

    constructor ()
      ensures Valid() && trace == []
    {
      step := (s, e) => Next(s, e);
      quotas, decls, cache, calls, direct, trace := map[], [], map[], [], map[], [];
    }

    // ---- statements

    /** GetOrCreateQuota. */
    method GetOrCreateQuota(key: Key, limit: nat) returns (q: Quota)
      modifies this`quotas
      ensures quotas == WithRow(old(quotas), key, limit) && q == quotas[key]
    {
      if key !in quotas {
        quotas := quotas[key := Quota(key, limit, 0, 0, 1)];
      }
      q := quotas[key];
    }

    /** ReserveQuota and ReleaseQuota. */
    method UpdateQuota(key: Key, s: Stmt, version: Version) returns (affected: nat)
      requires s.Reserve? || s.Release?
      modifies this`quotas
      ensures affected == if Hits(old(quotas), key, s, version) then 1 else 0
      ensures quotas == if affected == 1 then old(quotas)[key := Update(old(quotas)[key], s)] else old(quotas)
    {
      if key !in quotas || quotas[key].version != version || !Guard(quotas[key], s) {
        return 0;
      }
      var q := quotas[key];
      var reserved := if s.Reserve? then q.reserved + s.amount else q.reserved - s.amount;
      quotas := quotas[key := q.(reserved := reserved, version := q.version + 1)];
      return 1;
    }

    /** CreateDeclaration: refused if the id or a non-empty key is taken. */
    method CreateDeclaration(d: Decl) returns (ok: bool)
      modifies this`decls
      ensures ok <==> !TakenId(old(Now()), d.id) && !TakenKey(old(Now()), d.idem)
      ensures decls == old(decls) + if ok then [d] else []
    {
      ok := forall k :: 0 <= k < |decls| ==> decls[k].id != d.id && (d.idem.Some? ==> decls[k].idem != d.idem);
      if ok {
        decls := decls + [d];
      }
    }

    /** InsertIdempotency: refused if the key is there. */
    method InsertIdempotency(key: Id, c: Cached)
      modifies this`cache
      ensures cache == if key in old(cache) then old(cache) else old(cache)[key := c]
    {
      if key !in cache {
        cache := cache[key := c];
      }
    }

    /** The other calls' statements, as the machine has them. */
    method Others(script: seq<Event>, i: nat, ghost req: Request, ghost phase: Phase)
      requires At(i, req, phase) && NotBy(script, i)
      modifies this
      ensures At(i, req, phase) && trace == old(trace) + script
      ensures script == [] ==> Now() == old(Now())
    {
      for k := 0 to |script|
        invariant At(i, req, phase) && trace == old(trace) + script[..k]
      {
        OtherStatement(script[k], i, req, phase);
      }
    }

    method OtherStatement(e: Event, i: nat, ghost req: Request, ghost phase: Phase)
      requires At(i, req, phase) && (e.Step? ==> e.i != i)
      modifies this
      ensures At(i, req, phase) && trace == old(trace) + [e]
    {
      OtherLeavesCall(Now(), e, i);
      RunAppend(step, EMPTY, trace, e);
      var s := Next(Sys(quotas, decls, cache, calls, direct), e);
      quotas, decls, cache, calls, direct := s.quotas, s.decls, s.cache, s.sessions, s.direct;
      trace := trace + [e];
    }

    /** The call moves on after a statement that made of `before` what the tables are now. */
    method Enter(i: nat, phase: Phase, ghost req: Request, ghost call: Call, ghost before: Sys)
      requires Steps(step) && before == RunOf(step, EMPTY, trace)
      requires i < |calls| && calls == before.sessions && calls[i].req == req
      requires Move(Now(), i, phase) == Next(before, Step(i, call))
      modifies this`calls, this`trace
      ensures At(i, req, phase) && trace == old(trace) + [Step(i, call)]
    {
      RunAppend(step, EMPTY, trace, Step(i, call));
      calls := calls[i := calls[i].(phase := phase)];
      trace := trace + [Step(i, call)];
    }

    // ---- the parts of a call

    /** tryIdempotency. */
    method TryIdempotency(i: nat, req: Request, m: Moment<Event>) returns (r: Result<Option<Reply>>)
      requires At(i, req, Started) && NotBy(m.others, i)
      modifies this
      ensures old(trace) <= trace
      ensures match r
        case Ok(Some(reply)) => At(i, req, Replied(reply))
        case Ok(None) => At(i, req, Reserving(m.day))
        case Err(_) => At(i, req, Failed) && req.idem.Some? && m.fault != Fine
      ensures Still(m) && !HasLiveReply(old(cache), req, m) ==> r == Ok(None) && SameTables(old(Now()), Now())
      ensures HasLiveReply(old(cache), req, m) ==>
        r == Ok(Some(old(cache)[req.idem.value].reply))
        && trace == old(trace) + m.others + [Step(i, Lookup(m.now, m.day))]
      ensures RowVersion(old(quotas), KeyOf(req, m.day)) <= RowVersion(quotas, KeyOf(req, m.day))
    {
      Others(m.others, i, req, Started);
      OthersMoveRow(step, old(trace), m.others, KeyOf(req, m.day));
      if req.idem.Some? && req.idem.value in old(cache) {
        StaysCached(step, old(trace), m.others, req.idem.value);
      }
      ghost var before := Now();
      if req.idem.Some? {
        if m.fault != Fine {
          Enter(i, Failed, req, Abort, before);
          return Err(Internal);
        }
        if req.idem.value in cache && m.now <= cache[req.idem.value].expires {
          var reply := cache[req.idem.value].reply;
          Enter(i, Replied(reply), req, Lookup(m.now, m.day), before);
          return Ok(Some(reply));
        }
      }
      Enter(i, Reserving(m.day), req, Lookup(m.now, m.day), before);
      return Ok(None);
    }

    /** One pass of the reserve loop; None means that the loop goes on. */
    method ReserveOnce(i: nat, req: Request, day: int, limit: nat, last: bool, read: Moment<Event>,
                       write: Moment<Event>)
      returns (r: Option<Result<bool>>)
      requires At(i, req, Reserving(day)) && NotBy(read.others, i) && NotBy(write.others, i)
      modifies this
      ensures old(trace) <= trace
      ensures if r.None? then At(i, req, Reserving(day)) else Decided(i, req, day, r.value)
      ensures Still(read) && Still(write) && WithinLimit(old(quotas), KeyOf(req, day)) ==>
        ReservedOrShort(old(Now()), Now(), KeyOf(req, day), limit, req.volume, r == Some(Ok(true)))
        && (r == Some(Ok(true)) || r == Some(Ok(false)))
      ensures RowVersion(old(quotas), KeyOf(req, day)) <= RowVersion(quotas, KeyOf(req, day))
      ensures r.Some? && r.value.Err? ==> Refuses(read, write, last)
      ensures r.None? ==>
        if write.fault == Contention then !last
        else RowVersion(old(quotas), KeyOf(req, day)) < RowVersion(quotas, KeyOf(req, day))
    {
      var version := ReadForReserve(i, req, day, limit, read);
      if version.Err? {
        return Some(Err(version.error));
      }
      if version.value.None? {
        return Some(Ok(false));
      }
      r := Swap(i, req, day, version.value.value, last, write);
    }

    /** The read of one pass: the version of a row with enough available, or None. */
    method ReadForReserve(i: nat, req: Request, day: int, limit: nat, m: Moment<Event>)
      returns (r: Result<Option<Version>>)
      requires At(i, req, Reserving(day)) && NotBy(m.others, i)
      modifies this
      ensures old(trace) <= trace
      ensures match r
        case Ok(Some(version)) => At(i, req, Deciding(day, version))
        case Ok(None) => At(i, req, Caching(Refused))
        case Err(_) => At(i, req, Failed)
      ensures Still(m) ==>
        var there := WithRow(old(quotas), KeyOf(req, day), limit);
        && quotas == there && decls == old(decls) && cache == old(cache)
        && var q := there[KeyOf(req, day)];
        r == Ok(if Available(q) < req.volume then None else Some(q.version))
      ensures RowVersion(old(quotas), KeyOf(req, day)) <= RowVersion(quotas, KeyOf(req, day))
      ensures r.Err? ==> m.fault != Fine
      ensures r.Ok? && r.value.Some? ==> Reservable(quotas, KeyOf(req, day), r.value.value, req.volume)
    {
      Others(m.others, i, req, Reserving(day));
      OthersMoveRow(step, old(trace), m.others, KeyOf(req, day));
      ghost var before := Now();
      if m.fault != Fine {
        Enter(i, Failed, req, Abort, before);
        return Err(Internal);
      }
      var q := GetOrCreateQuota(KeyOf(req, day), limit);
      if Available(q) < req.volume {
        Enter(i, Caching(Refused), req, ReadQuota(limit), before);
        return Ok(None);
      }
      Enter(i, Deciding(day, q.version), req, ReadQuota(limit), before);
      EnoughIsReservable(step, trace, KeyOf(req, day), req.volume);
      return Ok(Some(q.version));
    }

    /** The guarded update of one pass. */
    method Swap(i: nat, req: Request, day: int, version: Version, last: bool, m: Moment<Event>)
      returns (r: Option<Result<bool>>)
      requires At(i, req, Deciding(day, version)) && NotBy(m.others, i)
      requires Reservable(quotas, KeyOf(req, day), version, req.volume)
      modifies this
      ensures old(trace) <= trace
      ensures if r.None? then At(i, req, Reserving(day)) else Decided(i, req, day, r.value)
      ensures Still(m) && Hits(old(quotas), KeyOf(req, day), Reserve(req.volume), version) ==>
        r == Some(Ok(true)) && decls == old(decls) && cache == old(cache)
        && quotas == old(quotas)[KeyOf(req, day) := Update(old(quotas)[KeyOf(req, day)], Reserve(req.volume))]
      ensures version <= RowVersion(quotas, KeyOf(req, day))
      ensures r.Some? && r.value.Err? ==> m.fault == Broken || (m.fault == Contention && (last || m.ended))
      ensures r.None? ==> if m.fault == Contention then !last else version < RowVersion(quotas, KeyOf(req, day))
    {
      Others(m.others, i, req, Deciding(day, version));
      OthersMoveRow(step, old(trace), m.others, KeyOf(req, day));
      ghost var before := Now();
      if m.fault != Fine {
        if m.fault == Contention && !last && !m.ended {
          Enter(i, Reserving(day), req, Busy, before);
          return None;
        }
        Enter(i, Failed, req, Abort, before);
        return Some(Err(Conflict));
      }
      var affected := UpdateQuota(KeyOf(req, day), Reserve(req.volume), version);
      if affected > 0 {
        Enter(i, Holding(day), req, TryReserve, before);
        return Some(Ok(true));
      }
      Enter(i, Reserving(day), req, TryReserve, before);
      return None;
    }

    /** reserveQuotaWithRetry. `lost` is how many passes did not decide; each of them met storage contention
        or lost to an update of the row by another call, which its version counts. An error is due to the
        statement that the store refused in the next pass, or to maxRetries + 1 such passes, not all of
        them contended. */
    method ReserveQuotaWithRetry(i: nat, req: Request, day: int, limit: nat, maxRetries: nat, env: Env<Event>)
      returns (r: Result<bool>, ghost lost: nat)
      requires At(i, req, Reserving(day)) && Elsewhere(env, i)
      modifies this
      ensures old(trace) <= trace
      ensures Decided(i, req, day, r)
      ensures Still(env(1, 0)) && Still(env(1, 1)) && WithinLimit(old(quotas), KeyOf(req, day)) ==>
        r.Ok? && ReservedOrShort(old(Now()), Now(), KeyOf(req, day), limit, req.volume, r.value)
      ensures lost <= maxRetries + 1 && (lost == maxRetries + 1 ==> r.Err? && Contentions(env, 1, lost) < lost)
      ensures r.Err? && lost <= maxRetries ==> PassRefused(env, lost + 1, maxRetries)
      ensures Overtaken(old(quotas), quotas, KeyOf(req, day), env, lost)
    {
      lost := 0;
      ghost var calm := Still(env(1, 0)) && Still(env(1, 1)) && WithinLimit(quotas, KeyOf(req, day));
      for attempt := 0 to maxRetries + 1
        invariant At(i, req, Reserving(day)) && old(trace) <= trace && lost == attempt
        invariant attempt == 0 ==> Now() == old(Now())
        invariant calm ==> attempt == 0
        invariant attempt == maxRetries + 1 ==> env(maxRetries + 1, 1).fault != Contention
        invariant Overtaken(old(quotas), quotas, KeyOf(req, day), env, attempt)
      {
        var pass := ReservePass(i, req, day, limit, maxRetries, env, attempt, old(quotas));
        if pass.Some? {
          r := pass.value;
          return;
        }
        lost := lost + 1;
      }
      NotAllContended(env, 1, lost);
      GiveUp(i, req, day);
      r := Err(Internal);
    }

    /** The loop ends without a decision. */
    method GiveUp(i: nat, req: Request, day: int)
      requires At(i, req, Reserving(day))
      modifies this`calls, this`trace
      ensures At(i, req, Failed) && old(trace) <= trace
    {
      Enter(i, Failed, req, Abort, Now());
    }

    /** Pass n and what it means for the loop, which began with the rows `first`. */
    method ReservePass(i: nat, req: Request, day: int, limit: nat, maxRetries: nat, env: Env<Event>, n: nat,
                       ghost first: map<Key, Quota>)
      returns (r: Option<Result<bool>>)
      requires At(i, req, Reserving(day)) && Elsewhere(env, i)
      requires Overtaken(first, quotas, KeyOf(req, day), env, n)
      modifies this
      ensures old(trace) <= trace
      ensures if r.None? then At(i, req, Reserving(day)) else Decided(i, req, day, r.value)
      ensures Still(env(n + 1, 0)) && Still(env(n + 1, 1)) && WithinLimit(old(quotas), KeyOf(req, day)) ==>
        ReservedOrShort(old(Now()), Now(), KeyOf(req, day), limit, req.volume, r == Some(Ok(true)))
        && (r == Some(Ok(true)) || r == Some(Ok(false)))
      ensures Overtaken(first, quotas, KeyOf(req, day), env, if r.None? then n + 1 else n)
      ensures r.Some? && r.value.Err? ==> PassRefused(env, n + 1, maxRetries)
      ensures r.None? && n == maxRetries ==> env(n + 1, 1).fault != Contention
    {
      var read, write := env(n + 1, 0), env(n + 1, 1);
      assert NotBy(read.others, i) && NotBy(write.others, i);
      r := ReserveOnce(i, req, day, limit, n == maxRetries, read, write);
      AfterPass(first, old(quotas), quotas, KeyOf(req, day), env, n);
    }

    /** CreateDeclaration, and the compensating release when it fails. */
    method CreateOrRelease(i: nat, req: Request, day: int, version: Version, status: DeclStatus,
                           create: Moment<Event>, release: Moment<Event>)
      returns (r: Result<Reply>)
      requires At(i, req, Creating(day, version, status)) && NotBy(create.others, i) && NotBy(release.others, i)
      modifies this
      ensures old(trace) <= trace
      ensures match r
        case Ok(reply) => At(i, req, Caching(reply)) && reply == Stored(create.uuid, status)
        case Err(_) => At(i, req, Failed) || At(i, req, FailedHolding(day))
      ensures Still(create) && Still(release) && VersionIs(old(quotas), KeyOf(req, day), version) ==>
        && quotas == old(quotas) && cache == old(cache)
        && r.Err? == (TakenId(old(Now()), create.uuid) || TakenKey(old(Now()), req.idem))
        && (r.Err? ==> decls == old(decls))
        && (r.Ok? ==> decls == old(decls) + [Decl(create.uuid, req.idem, req.volume, KeyOf(req, day), status)])
      ensures r.Err? ==> create.fault != Fine || Taken(decls, create.uuid, req.idem)
    {
      Others(create.others, i, req, Creating(day, version, status));
      ghost var before := Now();
      var key, id, ok := KeyOf(req, day), create.uuid, false;
      if create.fault == Fine {
        ok := CreateDeclaration(Decl(id, req.idem, req.volume, key, status));
      }
      assert ok <==> create.fault == Fine && !TakenId(before, id) && !TakenKey(before, req.idem);
      if ok {
        Enter(i, Caching(Stored(id, status)), req, Create(id), before);
        return Ok(Stored(id, status));
      }
      Enter(i, Compensating(day, version), req, if create.fault == Fine then Create(id) else CreateFault, before);
      ReleaseHeld(i, req, day, version, release);
      return Err(Internal);
    }

    /** The compensating release, whose own outcome is ignored. */
    method ReleaseHeld(i: nat, req: Request, day: int, version: Version, m: Moment<Event>)
      requires At(i, req, Compensating(day, version)) && NotBy(m.others, i)
      modifies this
      ensures old(trace) <= trace
      ensures At(i, req, Failed) || At(i, req, FailedHolding(day))
      ensures Still(m) && VersionIs(old(quotas), KeyOf(req, day), version) ==> SameTables(old(Now()), Now())
      ensures old(decls) <= decls
    {
      Others(m.others, i, req, Compensating(day, version));
      OthersKeepDecls(step, old(trace), m.others);
      ghost var before := Now();
      if m.fault != Fine {
        Enter(i, FailedHolding(day), req, Abort, before);
        return;
      }
      var affected := UpdateQuota(KeyOf(req, day), Release(req.volume), version + 1);
      Enter(i, if affected > 0 then Failed else FailedHolding(day), req, Compensate, before);
    }

    /** The re-read for the utilization, and then the declaration. */
    method CreateHeld(i: nat, req: Request, day: int, limit: nat, read: Moment<Event>, create: Moment<Event>,
                      release: Moment<Event>)
      returns (r: Result<Reply>)
      requires At(i, req, Holding(day))
      requires NotBy(read.others, i) && NotBy(create.others, i) && NotBy(release.others, i)
      modifies this
      ensures old(trace) <= trace
      ensures match r
        case Ok(reply) => At(i, req, Caching(reply)) && reply.Stored?
        case Err(_) => At(i, req, Failed) || At(i, req, FailedHolding(day))
      ensures Still(read) && Still(create) && Still(release) && KeyOf(req, day) in old(quotas) ==>
        var status := if Crowded(old(quotas)[KeyOf(req, day)]) then Queued else Accepted;
        && quotas == old(quotas) && cache == old(cache)
        && r.Err? == (TakenId(old(Now()), create.uuid) || TakenKey(old(Now()), req.idem))
        && (r.Err? ==> decls == old(decls))
        && (r.Ok? ==> r.value == Stored(create.uuid, status)
                      && decls == old(decls) + [Decl(create.uuid, req.idem, req.volume, KeyOf(req, day), status)])
      ensures r.Err? ==> read.fault != Fine || create.fault != Fine || Taken(decls, create.uuid, req.idem)
    {
      Others(read.others, i, req, Holding(day));
      ghost var before := Now();
      if read.fault != Fine {
        Enter(i, FailedHolding(day), req, Abort, before);
        return Err(Internal);
      }
      var q := GetOrCreateQuota(KeyOf(req, day), limit);
      var status := Accepted;
      if Crowded(q) {
        status := Queued;
      }
      Enter(i, Creating(day, q.version, status), req, ReRead(limit), before);
      r := CreateOrRelease(i, req, day, q.version, status, create, release);
    }

    /** cacheIdempotency: an empty key caches nothing, and a failure is ignored. */
    method CacheIdempotency(i: nat, req: Request, reply: Reply, m: Moment<Event>)
      requires At(i, req, Caching(reply)) && NotBy(m.others, i)
      modifies this
      ensures At(i, req, Replied(reply)) && old(trace) <= trace
      ensures Still(m) ==>
        quotas == old(quotas) && decls == old(decls) && cache == WithReply(old(cache), req, reply, m.now)
    {
      Others(m.others, i, req, Caching(reply));
      ghost var before := Now();
      if m.fault != Fine {
        Enter(i, Replied(reply), req, Abort, before);
        return;
      }
      if req.idem.Some? {
        InsertIdempotency(req.idem.value, Cached(reply, Expiry(m.now)));
      }
      Enter(i, Replied(reply), req, Cache(m.now), before);
    }

    /** Submit. The tables it leaves are those of a run of the machine that begins with the run so far
        and this call, the call's result is the machine's reply to it, and an error is a failed call. So
        at its end the books of every (type, day) balance, no key has two declarations, and a reply that
        carries a declaration id names the stored declaration with the call's key. A live cached reply is
        returned as it is, and nothing but its lookup is done; otherwise an undisturbed call does exactly
        what Served says. An error has the store, a taken id or key, or updates of others as its cause. */
    method Submit(req: Request, limit: nat, env: Env<Event>) returns (r: Result<Reply>, i: nat, ghost lost: nat)
      requires Valid() && Elsewhere(env, |calls|)
      modifies this
      ensures i == |old(calls)| && old(trace) + [Event.Submit(req)] <= trace
      ensures match r
        case Ok(reply) => At(i, req, Replied(reply)) && Names(decls, req.idem, reply)
        case Err(_) => exists phase: Phase :: (phase.Failed? || phase.FailedHolding?) && At(i, req, phase)
      ensures r.Err? ==>
        || (req.idem.Some? && env(0, 0).fault != Fine)
        || Caused(env, lost, Key(req.kind, env(0, 0).day), old(quotas), quotas, decls, req.idem)
      ensures Valid() && Truthful(Now()) && forall key :: Balanced(Now(), key)
      ensures (forall n, k :: Still(env(n, k))) && !HasLiveReply(old(cache), req, env(0, 0)) ==>
        Served(old(Now()), Now(), req, limit, env, r)
      ensures HasLiveReply(old(cache), req, env(0, 0)) ==>
        r == Ok(old(cache)[req.idem.value].reply)
        && trace == old(trace) + [Event.Submit(req)] + env(0, 0).others
                    + [Step(i, Lookup(env(0, 0).now, env(0, 0).day))]
    {
      StepsRun(step, EMPTY, trace);
      BooksBalance(trace, KeyOf(req, env(0, 0).day));
      i := Begin(req);
      r, lost := Answer(i, req, limit, env);
      if (forall n, k :: Still(env(n, k))) && !HasLiveReply(old(cache), req, env(0, 0)) {
        SettledIsServed(old(Now()), Now(), req, limit, env, r);
      }
      StepsRun(step, EMPTY, trace);
      InAnyRun(trace);
      assert SessionNames(decls, calls[i]);
    }

    /** Submit of a cargo, as the caller describes it: containers, and cargo measured in TEU, take yard
        quota, and everything else cabin quota, each with its own daily limit. */
    method SubmitCargo(unit: string, cargo: string, volume: int, idem: Option<Id>, cabinLimit: nat, yardLimit: nat,
                       env: Env<Event>)
      returns (r: Result<Reply>)
      requires Valid() && Elsewhere(env, |calls|)
      modifies this
      ensures Valid()
      ensures volume < 0 ==> r == Err(ValidationFailed) && Now() == old(Now()) && trace == old(trace)
      ensures volume >= 0 ==>
        var yard := unit == "TEU" || cargo == "container";
        var req := Request(if yard then Yard else Cabin, volume, idem);
        && old(trace) + [Event.Submit(req)] <= trace
        && ((forall n, k :: Still(env(n, k))) && !HasLiveReply(old(cache), req, env(0, 0)) ==>
              Served(old(Now()), Now(), req, if yard then yardLimit else cabinLimit, env, r))
    {
      if volume < 0 {
        return Err(ValidationFailed);
      }
      var kind, limit := Cabin, cabinLimit;
      if unit == "TEU" || cargo == "container" {
        kind, limit := Yard, yardLimit;
      }
      var i;
      ghost var lost;
      r, i, lost := Submit(Request(kind, volume, idem), limit, env);
    }

    method Begin(req: Request) returns (i: nat)
      requires Valid()
      modifies this`calls, this`trace
      ensures i == |old(calls)| && At(i, req, Started) && trace == old(trace) + [Event.Submit(req)]
    {
      i := |calls|;
      RunAppend(step, EMPTY, trace, Event.Submit(req));
      assert step(Now(), Event.Submit(req)) == Next(Now(), Event.Submit(req));
      calls := calls + [Session(req, Started)];
      trace := trace + [Event.Submit(req)];
    }

    /** The body of Submit. */
    method Answer(i: nat, req: Request, limit: nat, env: Env<Event>) returns (r: Result<Reply>, ghost lost: nat)
      requires At(i, req, Started) && Elsewhere(env, i)
      modifies this
      ensures old(trace) <= trace
      ensures match r
        case Ok(reply) => At(i, req, Replied(reply))
        case Err(_) => exists phase: Phase :: (phase.Failed? || phase.FailedHolding?) && At(i, req, phase)
      ensures
        (forall n, k :: Still(env(n, k))) && !HasLiveReply(old(cache), req, env(0, 0))
        && WithinLimit(old(quotas), KeyOf(req, env(0, 0).day)) ==>
          Settled(old(Now()), Now(), req, limit, env, r)
      ensures HasLiveReply(old(cache), req, env(0, 0)) ==>
        r == Ok(old(cache)[req.idem.value].reply)
        && trace == old(trace) + env(0, 0).others + [Step(i, Lookup(env(0, 0).now, env(0, 0).day))]
      ensures r.Err? ==>
        || (req.idem.Some? && env(0, 0).fault != Fine)
        || Caused(env, lost, KeyOf(req, env(0, 0).day), old(quotas), quotas, decls, req.idem)
    {
      lost := 0;
      var hit := TryIdempotency(i, req, env(0, 0));
      if hit.Err? {
        return Err(hit.error), 0;
      }
      if hit.value.Some? {
        return Ok(hit.value.value), 0;
      }
      ghost var before := quotas;
      r, lost := Proceed(i, req, env(0, 0).day, limit, env);
      if r.Err? {
        CausedFromEarlier(env, lost, KeyOf(req, env(0, 0).day), old(quotas), before, quotas, decls, req.idem);
      }
    }

    /** Submit after the lookup of its key. */
    method Proceed(i: nat, req: Request, day: int, limit: nat, env: Env<Event>)
      returns (r: Result<Reply>, ghost lost: nat)
      requires At(i, req, Reserving(day)) && Elsewhere(env, i)
      modifies this
      ensures old(trace) <= trace
      ensures match r
        case Ok(reply) => At(i, req, Replied(reply))
        case Err(_) => At(i, req, Failed) || At(i, req, FailedHolding(day))
      ensures (forall n, k :: Still(env(n, k))) && WithinLimit(old(quotas), KeyOf(req, day)) && day == env(0, 0).day ==>
        Settled(old(Now()), Now(), req, limit, env, r)
      ensures r.Err? ==> Caused(env, lost, KeyOf(req, day), old(quotas), quotas, decls, req.idem)
    {
      var reserved;
      reserved, lost := ReserveQuotaWithRetry(i, req, day, limit, 25, env);
      if reserved.Err? {
        return Err(reserved.error), lost;
      }
      r := Conclude(i, req, day, limit, reserved.value, env);
    }

    /** Submit after its reservation was won or found impossible. */
    method Conclude(i: nat, req: Request, day: int, limit: nat, reserved: bool, env: Env<Event>)
      returns (r: Result<Reply>)
      requires At(i, req, if reserved then Holding(day) else Caching(Refused)) && Elsewhere(env, i)
      modifies this
      ensures old(trace) <= trace
      ensures match r
        case Ok(reply) => At(i, req, Replied(reply))
        case Err(_) => At(i, req, Failed) || At(i, req, FailedHolding(day))
      ensures r.Err? ==> env(0, 1).fault != Fine || env(0, 2).fault != Fine || Taken(decls, env(0, 2).uuid, req.idem)
      ensures (forall n, k :: Still(env(n, k))) && !reserved ==>
        && quotas == old(quotas) && decls == old(decls) && r == Ok(Refused)
        && cache == WithReply(old(cache), req, Refused, env(0, 4).now)
      ensures (forall n, k :: Still(env(n, k))) && reserved && KeyOf(req, day) in old(quotas) ==>
        var id := env(0, 2).uuid;
        var status := if Crowded(old(quotas)[KeyOf(req, day)]) then Queued else Accepted;
        && quotas == old(quotas)
        && r.Err? == (TakenId(old(Now()), id) || TakenKey(old(Now()), req.idem))
        && (r.Err? ==> decls == old(decls) && cache == old(cache))
        && (r.Ok? ==>
              && r.value == Stored(id, status)
              && decls == old(decls) + [Decl(id, req.idem, req.volume, KeyOf(req, day), status)]
              && cache == WithReply(old(cache), req, r.value, env(0, 4).now))
    {
      if !reserved {
        CacheIdempotency(i, req, Refused, env(0, 4));
        return Ok(Refused);
      }
      r := CreateHeld(i, req, day, limit, env(0, 1), env(0, 2), env(0, 3));
      if r.Ok? {
        CacheIdempotency(i, req, r.value, env(0, 4));
      }
    }
  }

  lemma InAnyRun(trace: seq<Event>)
    ensures Truthful(Run(EMPTY, trace)) && forall key :: Balanced(Run(EMPTY, trace), key)
  {
    RunIsTruthful(trace);
    forall key ensures Balanced(Run(EMPTY, trace), key) {
      BooksBalance(trace, key);
    }
  }
}
