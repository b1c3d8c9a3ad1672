/**
 * Loading the children of a page of parents with one IN query, grouped by owner
 * in memory, against the simple form: one query for each parent.
 */
module Hydration {
  import opened Sql

  function OwnedBy<C>(owner: C -> int, id: int): C -> bool {
    c => owner(c) == id
  }

  /** owner IN (ids). */
  function OwnedByAny<C>(owner: C -> int, ids: seq<int>): C -> bool {
    c => owner(c) in ids
  }

  /** SELECT ... WHERE owner = id ORDER BY key: what the per-parent query returns. */
  function ChildrenOf<C>(owner: C -> int, key: C -> Key, table: seq<C>, id: int): seq<C> {
    OrderBy(key, Filter(OwnedBy(owner, id), table))
  }

  /** Reading a Go map: a missing key yields the empty slice. */
  function Get<C>(m: map<int, seq<C>>, id: int): seq<C> {
    if id in m then m[id] else []
  }

  lemma {:induction false} FilterTwice<C>(p: C -> bool, q: C -> bool, s: seq<C>)
    requires forall x :: x in s && p(x) ==> q(x)
    ensures Filter(p, Filter(q, s)) == Filter(p, s)
  {
    if s != [] {
      FilterTwice(p, q, s[1..]);
      if q(s[0]) {
        assert ([s[0]] + Filter(q, s[1..]))[1..] == Filter(q, s[1..]);
      }
    }
  }

  /** One parent's share of the IN query, in its order, is that parent's own query. */
  lemma ShareOfBatch<C>(owner: C -> int, key: C -> Key, table: seq<C>, ids: seq<int>, id: int)
    requires id in ids
    ensures Filter(OwnedBy(owner, id), OrderBy(key, Filter(OwnedByAny(owner, ids), table)))
            == ChildrenOf(owner, key, table, id)
  {
    FilterOrderBy(key, OwnedBy(owner, id), Filter(OwnedByAny(owner, ids), table));
    FilterTwice(OwnedBy(owner, id), OwnedByAny(owner, ids), table);
  }

  /** Appending one more row to its owner's slice keeps every slice that owner's share of the rows so far. */
  lemma GroupOne<C>(owner: C -> int, rows: seq<C>, i: nat, grouped: map<int, seq<C>>, id: int)
    requires i < |rows| && Get(grouped, owner(rows[i])) == Filter(OwnedBy(owner, owner(rows[i])), rows[..i])
    requires Get(grouped, id) == Filter(OwnedBy(owner, id), rows[..i])
    ensures Get(grouped[owner(rows[i]) := Get(grouped, owner(rows[i])) + [rows[i]]], id)
            == Filter(OwnedBy(owner, id), rows[..i + 1])
  {
    assert rows[..i + 1] == rows[..i] + [rows[i]];
    FilterConcat(OwnedBy(owner, id), rows[..i], [rows[i]]);
    assert [rows[i]][1..] == [];
  }

  /** Appending each row to its owner's slice, row by row. */
  method LoadChildren<C>(owner: C -> int, key: C -> Key, table: seq<C>, ids: seq<int>)
    returns (result: map<int, seq<C>>)
    ensures forall id :: id in ids ==> Get(result, id) == ChildrenOf(owner, key, table, id)
    ensures forall id :: id in result ==> id in ids && result[id] != []
  {
    var rows := OrderBy(key, Filter(OwnedByAny(owner, ids), table));
    result := map[];
    for i := 0 to |rows|
      invariant forall id :: Get(result, id) == Filter(OwnedBy(owner, id), rows[..i])
      invariant forall id :: id in result ==> id in ids && result[id] != []
    {
      var row := rows[i];
      OrderByMembers(key, Filter(OwnedByAny(owner, ids), table), row);
      FilterMembers(OwnedByAny(owner, ids), table, row);
      forall id
        ensures Get(result[owner(row) := Get(result, owner(row)) + [row]], id)
                == Filter(OwnedBy(owner, id), rows[..i + 1])
      {
        GroupOne(owner, rows, i, result, id);
      }
      result := result[owner(row) := Get(result, owner(row)) + [row]];
    }
    assert rows[..|rows|] == rows;
    forall id | id in ids ensures Get(result, id) == ChildrenOf(owner, key, table, id) {
      ShareOfBatch(owner, key, table, ids, id);
    }
  }
}
