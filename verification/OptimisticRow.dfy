/** One stored row under optimistic locking, shared by any number of clients.

    Every service call in the system has one shape. It reads a row, decides from that snapshot which
    UPDATE statements to send, and sends them one at a time, each guarded by the version the previous
    one should have left behind (`WHERE id = ? AND version = ?`). The row's status is not checked again
    by the statement itself. A step of this machine is one SQL statement of one client, so clients
    interleave statement by statement; a client may also stop anywhere (crash, storage error). */
module OptimisticRow {
  import opened Wrappers
  import opened Runs

  /** A row at rest. */
  datatype Stored<C> = Stored(version: Version, body: C)

  /** What the clients of one table do. `plan` is the list of statements an operation sends after
      reading a snapshot, `apply` is the effect of one statement on the columns it finds, and `note` is
      the record the operation appends to another table once its last statement has won. */
  datatype Protocol<!O, !S, !C, !N> = Protocol(
    plan: (O, C) -> seq<S>,
    apply: (S, C) -> C,
    note: (O, C) -> Option<N>)

  /** A client is idle, or has read version `read` with contents `snap` and won `done` statements. */
  datatype Client<O, C> = Idle | Running(op: O, read: Version, snap: C, done: nat)

  /** A winning UPDATE: statement number `index` of `op`, which had read version `read`. */
  datatype Commit<O> = Commit(client: nat, op: O, read: Version, index: nat)

  /** A side record, with the commit that entitled its client to write it. */
  datatype Note<N> = Note(commit: nat, content: N)

  /** `version` and `body` are the stored row. `hist` lists the contents of versions 1, 2, ... and
      `log` the commits between them; no client reads these two. */
  datatype State<O, C, N> = State(
    version: Version,
    body: C,
    clients: map<nat, Client<O, C>>,
    hist: seq<C>,
    log: seq<Commit<O>>,
    notes: seq<Note<N>>)
  {
    function Client(c: nat): Client<O, C> {
      if c in clients then clients[c] else Idle
    }
  }

  datatype Event<O> =
    | Read(client: nat, op: O)   // SELECT, and start of the operation
    | Write(client: nat)         // the next UPDATE of the plan
    | Insert(client: nat)        // the INSERT of the side record
    | Drop(client: nat)          // the client gives up: error return or crash

  function Start<O, C, N>(body: C): State<O, C, N> {
    State(1, body, map[], [body], [], [])
  }

  function Next<O, S, C, N>(p: Protocol<O, S, C, N>, s: State<O, C, N>, e: Event<O>): State<O, C, N> {
    var idle := s.(clients := s.clients[e.client := Idle]);
    match e
    case Read(c, op) => s.(clients := s.clients[c := Running(op, s.version, s.body, 0)])
    case Drop(_) => idle
    case Write(c) =>
      (match s.Client(c)
       case Idle => s
       case Running(op, read, snap, done) =>
         var plan := p.plan(op, snap);
         if done >= |plan| then s
         else if s.version != read + done then idle  // no row affected: conflict
         else
           var body := p.apply(plan[done], s.body);
           State(s.version + 1, body, s.clients[c := Running(op, read, snap, done + 1)],
                 s.hist + [body], s.log + [Commit(c, op, read, done)], s.notes))
    case Insert(c) =>
      (match s.Client(c)
       case Idle => s
       case Running(op, read, snap, done) =>
         if done != |p.plan(op, snap)| || done == 0 then s
         else
           match p.note(op, snap)
           case None => idle
           case Some(n) => idle.(notes := s.notes + [Note(read + done - 2, n)]))
  }

  /** One client's statement as a step of a run. */
  function NextOf<O, S, C, N>(p: Protocol<O, S, C, N>): (State<O, C, N>, Event<O>) -> State<O, C, N> {
    (s, e) => Next(p, s, e)
  }

  function Run<O, S, C, N>(p: Protocol<O, S, C, N>, s: State<O, C, N>, events: seq<Event<O>>): State<O, C, N> {
    RunOf(NextOf(p), s, events)
  }

  /** The history records the row. */
  predicate Recorded<O, C(==), N>(s: State<O, C, N>) {
    && s.version == |s.hist| == |s.log| + 1
    && s.body == s.hist[|s.hist| - 1]
  }

  /** Commit k was statement `index` of an operation that had read version `read`; it acted on exactly
      the contents that operation's earlier statements produced from its snapshot, and those earlier
      statements are the commits immediately before it. */
  ghost predicate Explained<O, S, C, N>(p: Protocol<O, S, C, N>, hist: seq<C>, log: seq<Commit<O>>, k: nat)
    requires |hist| == |log| + 1 && k < |log|
  {
    var c := log[k];
    && c.read - 1 + c.index == k
    && c.index < |p.plan(c.op, hist[c.read - 1])|
    && hist[k + 1] == p.apply(p.plan(c.op, hist[c.read - 1])[c.index], hist[k])
    && forall m :: c.read - 1 <= m < k ==> log[m] == Commit(c.client, c.op, c.read, m - (c.read - 1))
  }

  /** A running client's snapshot is what the history holds at the version it read, and its winning
      statements so far are the commits from that version on. */
  ghost predicate Faithful<O, S, C, N>(p: Protocol<O, S, C, N>, s: State<O, C, N>, c: nat)
    requires Recorded(s)
  {
    match s.Client(c)
    case Idle => true
    case Running(op, read, snap, done) =>
      && read + done <= |s.hist|
      && s.hist[read - 1] == snap
      && done <= |p.plan(op, snap)|
      && (forall m :: read - 1 <= m < read - 1 + done ==> s.log[m] == Commit(c, op, read, m - (read - 1)))
      && (forall i :: 0 <= i < |s.notes| && s.notes[i].commit < |s.log| && s.log[s.notes[i].commit].client == c ==>
            s.notes[i].commit < read - 1)
  }

  /** A side record belongs to the last statement of a completed plan. */
  ghost predicate Earned<O, S, C, N>(p: Protocol<O, S, C, N>, s: State<O, C, N>, i: nat)
    requires Recorded(s) && i < |s.notes|
  {
    var n := s.notes[i];
    && n.commit < |s.log|
    && var c := s.log[n.commit];
    && c.read <= n.commit + 1
    && c.index + 1 == |p.plan(c.op, s.hist[c.read - 1])|
    && p.note(c.op, s.hist[c.read - 1]) == Some(n.content)
  }

  ghost predicate Inv<O(!new), S, C(!new), N>(p: Protocol<O, S, C, N>, s: State<O, C, N>) {
    && Recorded(s)
    && (forall k :: 0 <= k < |s.log| ==> Explained(p, s.hist, s.log, k))
    && (forall c :: Faithful(p, s, c))
    && (forall i :: 0 <= i < |s.notes| ==> Earned(p, s, i))
    && (forall i, j :: 0 <= i < j < |s.notes| ==> s.notes[i].commit != s.notes[j].commit)
  }

  /** A statement either leaves the history alone or appends one explained version. */
  lemma NextKeepsExplained<O(!new), S, C(!new), N>(p: Protocol<O, S, C, N>, s: State<O, C, N>, e: Event<O>)
    requires Inv(p, s)
    ensures var t := Next(p, s, e);
      && Recorded(t)
      && s.hist <= t.hist && s.log <= t.log
      && forall k :: 0 <= k < |t.log| ==> Explained(p, t.hist, t.log, k)
  {
    var t := Next(p, s, e);
    assert Faithful(p, s, e.client);
    forall k | 0 <= k < |t.log| ensures Explained(p, t.hist, t.log, k) {
      if k < |s.log| {
        assert Explained(p, s.hist, s.log, k);
      }
    }
  }

  lemma NextKeepsFaithful<O(!new), S, C(!new), N>(p: Protocol<O, S, C, N>, s: State<O, C, N>, e: Event<O>, c: nat)
    requires Inv(p, s) && Recorded(Next(p, s, e))
    ensures Faithful(p, Next(p, s, e), c)
  {
    var t := Next(p, s, e);
    assert Faithful(p, s, c) && Faithful(p, s, e.client);
    forall i | 0 <= i < |s.notes| ensures s.notes[i].commit < |s.log| {
      assert Earned(p, s, i);
    }
    if |t.notes| > |s.notes| {
      assert t.log[t.notes[|s.notes|].commit].client == e.client;
    }
  }

  lemma NextKeepsNotes<O(!new), S, C(!new), N>(p: Protocol<O, S, C, N>, s: State<O, C, N>, e: Event<O>)
    requires Inv(p, s) && Recorded(Next(p, s, e)) && s.hist <= Next(p, s, e).hist && s.log <= Next(p, s, e).log
    ensures var t := Next(p, s, e);
      && s.notes <= t.notes
      && (forall i :: 0 <= i < |t.notes| ==> Earned(p, t, i))
      && (forall i, j :: 0 <= i < j < |t.notes| ==> t.notes[i].commit != t.notes[j].commit)
  {
    var t := Next(p, s, e);
    assert Faithful(p, s, e.client);
    forall i | 0 <= i < |t.notes| ensures Earned(p, t, i) {
      if i < |s.notes| {
        assert Earned(p, s, i);
      }
    }
  }

  /** One statement of one client keeps the invariant. */
  lemma NextKeepsInv<O(!new), S, C(!new), N>(p: Protocol<O, S, C, N>, s: State<O, C, N>, e: Event<O>)
    requires Inv(p, s)
    ensures Inv(p, Next(p, s, e))
  {
    NextKeepsExplained(p, s, e);
    forall c: nat ensures Faithful(p, Next(p, s, e), c) {
      NextKeepsFaithful(p, s, e, c);
    }
    NextKeepsNotes(p, s, e);
  }

  /** For every schedule of every set of clients: each version the row ever had is explained by a
      client's plan computed from the very snapshot it replaced. */
  lemma {:induction false} RunKeepsInv<O(!new), S, C(!new), N>(p: Protocol<O, S, C, N>, body: C, events: seq<Event<O>>)
    ensures Inv(p, Run(p, Start(body), events))
  {
    if events != [] {
      RunKeepsInv(p, body, events[..|events| - 1]);
      NextKeepsInv(p, Run(p, Start(body), events[..|events| - 1]), events[|events| - 1]);
    }
  }

  /** What was once in the history stays there, whatever happens later. */
  lemma {:induction false} HistoryOnlyGrows<O(!new), S, C(!new), N>(
    p: Protocol<O, S, C, N>, body: C, events: seq<Event<O>>, more: seq<Event<O>>)
    ensures var s, t := Run(p, Start(body), events), Run(p, Start(body), events + more);
      s.hist <= t.hist && s.log <= t.log
  {
    if more == [] {
      assert events + more == events;
    } else {
      var init, last := more[..|more| - 1], more[|more| - 1];
      HistoryOnlyGrows(p, body, events, init);
      assert (events + more)[..|events + more| - 1] == events + init;
      RunKeepsInv(p, body, events + init);
      NextKeepsExplained(p, Run(p, Start(body), events + init), last);
    }
  }

  /** An UPDATE that affects no row lost to a statement that won at the version it expected. */
  lemma ConflictMeansOvertaken<O(!new), S, C(!new), N>(
    p: Protocol<O, S, C, N>, body: C, events: seq<Event<O>>, c: nat)
    ensures var s := Run(p, Start(body), events);
      var t := Next(p, s, Write(c));
      s.Client(c).Running? && t.Client(c).Idle? ==>
        s.Client(c).read + s.Client(c).done < s.version && t.hist == s.hist && t.notes == s.notes
  {
    RunKeepsInv(p, body, events);
    assert Faithful(p, Run(p, Start(body), events), c);
  }

  lemma FirstVersion<O(!new), S, C(!new), N>(p: Protocol<O, S, C, N>, body: C, events: seq<Event<O>>)
    ensures var s := Run(p, Start(body), events); |s.hist| > 0 && s.hist[0] == body
  {
    HistoryOnlyGrows(p, body, [], events);
    assert [] + events == events;
  }

  lemma RunOfFour<O, S, C, N>(p: Protocol<O, S, C, N>, body: C, a: Event<O>, b: Event<O>, c: Event<O>, d: Event<O>)
    ensures Run(p, Start(body), [a, b, c, d]) == Next(p, Next(p, Next(p, Next(p, Start(body), a), b), c), d)
  {
    assert [a] == [] + [a] && [a, b] == [a] + [b] && [a, b, c] == [a, b] + [c] && [a, b, c, d] == [a, b, c] + [d];
    RunAppend(NextOf(p), Start(body), [], a);
    RunAppend(NextOf(p), Start(body), [a], b);
    RunAppend(NextOf(p), Start(body), [a, b], c);
    RunAppend(NextOf(p), Start(body), [a, b, c], d);
  }

  /** The versions a list of statements leaves when they all win in a row. */
  function Effects<O, S, C, N>(p: Protocol<O, S, C, N>, stmts: seq<S>, body: C): (versions: seq<C>)
    ensures |versions| == |stmts|
  {
    if stmts == [] then []
    else
      var next := p.apply(stmts[0], body);
      [next] + Effects(p, stmts[1..], next)
  }

  /** The stored row as a service call meets it: between its own statements, other clients may replace
      the row any number of times. */
  class SharedRow<C> {
    var version: Version
    var body: C
    ghost var hist: seq<C>

    ghost predicate Valid()
      reads this
    {
      version == |hist| && body == hist[version - 1]
    }

    constructor (initial: C)
      ensures Valid() && hist == [initial]
    {
      version, body, hist := 1, initial, [initial];
    }

    /** Winning updates of other clients. */
    method Others(writes: seq<C>)
      requires Valid()
      modifies this
      ensures Valid() && hist == old(hist) + writes
    {
      for i := 0 to |writes|
        invariant Valid() && hist == old(hist) + writes[..i]
      {
        version, body := version + 1, writes[i];
        hist := hist + [body];
      }
    }

    /** UPDATE ... SET patch, version = version + 1 WHERE id = ? AND version = wanted. */
    method Update(wanted: Version, patch: C -> C) returns (affected: nat)
      requires Valid()
      modifies this
      ensures Valid()
      ensures affected == if old(version) == wanted then 1 else 0
      ensures hist == old(hist) + if affected == 1 then [patch(old(body))] else []
    {
      if version != wanted {
        return 0;
      }
      version, body := version + 1, patch(body);
      hist := hist + [body];
      return 1;
    }
  }
}
