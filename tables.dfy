/**
 * What the CRUD controllers ask of an SQLite table: a map from row id to
 * record, selections by an owning id (`SELECT * ... WHERE NovelID = ?`),
 * and how a selection changes when a row is inserted, rewritten or deleted.
 */
module Tables {

  /** `SELECT * FROM T WHERE <owner column> = v`, as a map from row id to record. */
  function Owned<R>(rows: map<nat, R>, owner: R -> int, v: int): (r: map<nat, R>)
    ensures forall id :: id in r <==> id in rows && owner(rows[id]) == v
    ensures forall id :: id in r ==> r[id] == rows[id]
  {
    map id | id in rows && owner(rows[id]) == v :: rows[id]
  }

  /** `SELECT * FROM T WHERE <id column> = id`, as a list: empty or the one row. */
  function ById<R>(rows: map<nat, R>, id: nat): (r: seq<(nat, R)>)
    ensures |r| <= 1
    ensures r == [] <==> id !in rows
    ensures r != [] ==> r[0].0 == id && r[0].1 == rows[id]
  {
    if id in rows then [(id, rows[id])] else []
  }

  /** A row inserted under a fresh id joins the selection of its own owner and of no other. */
  lemma OwnedAfterInsert<R>(rows: map<nat, R>, owner: R -> int, id: nat, x: R, v: int)
    requires id !in rows
    ensures owner(x) == v ==> Owned(rows[id := x], owner, v) == Owned(rows, owner, v)[id := x]
    ensures owner(x) != v ==> Owned(rows[id := x], owner, v) == Owned(rows, owner, v)
  {
    var after := Owned(rows[id := x], owner, v);
    var before := Owned(rows, owner, v);
    if owner(x) == v {
      assert forall k :: k in after <==> k in before[id := x];
      assert forall k :: k in after ==> after[k] == before[id := x][k];
    } else {
      assert forall k :: k in after <==> k in before;
    }
  }

  /** Deleting a row takes it out of every selection and leaves the rest of the selection alone. */
  lemma OwnedAfterDelete<R>(rows: map<nat, R>, owner: R -> int, id: nat, v: int)
    ensures Owned(rows - {id}, owner, v) == Owned(rows, owner, v) - {id}
  {
    var after := Owned(rows - {id}, owner, v);
    var before := Owned(rows, owner, v);
    assert forall k :: k in after <==> k in before - {id};
  }

  /** Rewriting a row without changing its owner rewrites it in the selection and nowhere else. */
  lemma OwnedAfterRewrite<R>(rows: map<nat, R>, owner: R -> int, id: nat, x: R, v: int)
    requires id in rows && owner(x) == owner(rows[id])
    ensures owner(x) == v ==> Owned(rows[id := x], owner, v) == Owned(rows, owner, v)[id := x]
    ensures owner(x) != v ==> Owned(rows[id := x], owner, v) == Owned(rows, owner, v)
  {
    var after := Owned(rows[id := x], owner, v);
    var before := Owned(rows, owner, v);
    if owner(x) == v {
      assert forall k :: k in after <==> k in before[id := x];
      assert forall k :: k in after ==> after[k] == before[id := x][k];
    } else {
      assert forall k :: k in after <==> k in before;
    }
  }
}
