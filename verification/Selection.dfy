/** SELECT ... WHERE ... ORDER BY, over the rows that passed the WHERE clause. */
module Selection {
  import opened Wrappers

  /** The ORDER BY columns of one row. */
  type Key = (int, int)

  predicate Before(a: Key, b: Key) {
    a.0 < b.0 || (a.0 == b.0 && a.1 < b.1)
  }

  predicate Distinct(ids: seq<Id>) {
    forall i, j :: 0 <= i < j < |ids| ==> ids[i] != ids[j]
  }

  /** `ids` lists every selected row once, in ORDER BY order. Ties may come in any order. */
  ghost predicate Ordered(keys: map<Id, Key>, ids: seq<Id>) {
    && |ids| == |keys|
    && (forall i :: 0 <= i < |ids| ==> ids[i] in keys)
    && (forall id :: id in keys ==> id in ids)
    && Distinct(ids)
    && (forall i, j :: 0 <= i < j < |ids| ==> !Before(keys[ids[j]], keys[ids[i]]))
  }

  predicate Least(keys: map<Id, Key>, rows: set<Id>, id: Id)
    requires rows <= keys.Keys
  {
    id in rows && forall o :: o in rows ==> !Before(keys[o], keys[id])
  }

  lemma {:induction false} LeastExists(keys: map<Id, Key>, rows: set<Id>)
    requires rows != {} && rows <= keys.Keys
    ensures exists id :: Least(keys, rows, id)
  {
    var id :| id in rows;
    var rest := rows - {id};
    if rest == {} {
      assert rows == {id};
      assert Least(keys, rows, id);
    } else {
      LeastExists(keys, rest);
      var least :| Least(keys, rest, least);
      assert forall o :: o in rows ==> o == id || o in rest;
      assert Least(keys, rows, if Before(keys[id], keys[least]) then id else least);
    }
  }

  /** Part-way through a selection: `ids` are taken, in order, and `rest` still to come. */
  ghost predicate Taken(keys: map<Id, Key>, ids: seq<Id>, rest: set<Id>) {
    && rest <= keys.Keys && |ids| + |rest| == |keys| && Distinct(ids)
    && (forall i :: 0 <= i < |ids| ==> ids[i] in keys && ids[i] !in rest)
    && (forall id :: id in keys ==> id in ids || id in rest)
    && (forall i, j :: 0 <= i < j < |ids| ==> !Before(keys[ids[j]], keys[ids[i]]))
    && (forall i, id :: 0 <= i < |ids| && id in rest ==> !Before(keys[id], keys[ids[i]]))
  }

  lemma TakeLeast(keys: map<Id, Key>, ids: seq<Id>, rest: set<Id>, id: Id)
    requires Taken(keys, ids, rest) && Least(keys, rest, id)
    ensures Taken(keys, ids + [id], rest - {id})
  {
  }

  method OrderBy(keys: map<Id, Key>) returns (ids: seq<Id>)
    ensures Ordered(keys, ids)
  {
    ids := [];
    var rest := keys.Keys;
    while rest != {}
      invariant Taken(keys, ids, rest)
      decreases |rest|
    {
      LeastExists(keys, rest);
      var id :| id in rest && Least(keys, rest, id);
      TakeLeast(keys, ids, rest, id);
      ids := ids + [id];
      rest := rest - {id};
    }
  }
}
