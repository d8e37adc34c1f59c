/**
 * What the store does with a SELECT: a WHERE predicate picks rows out of a
 * table keyed by primary key, ORDER BY created_at DESC orders them (ties in
 * any order), OFFSET/LIMIT cut a window, and COUNT(id) counts the picked rows.
 * Results are sequences of primary keys.
 */
module Query {

  function Min(a: int, b: int): int
  {
    if a <= b then a else b
  }

  /** The keys of s are pairwise different. */
  ghost predicate Distinct(s: seq<int>)
  {
    forall i, j :: 0 <= i < j < |s| ==> s[i] != s[j]
  }

  /** ids lists every row that satisfies `where`, each exactly once, and nothing else. */
  ghost predicate IsSelection<T>(rows: map<int, T>, where: T -> bool, ids: seq<int>)
  {
    && (forall i :: 0 <= i < |ids| ==> ids[i] in rows && where(rows[ids[i]]))
    && (forall id :: id in rows && where(rows[id]) ==> id in ids)
    && Distinct(ids)
  }

  /** ids is ordered by created_at, newest first. */
  ghost predicate NewestFirst<T>(rows: map<int, T>, createdAt: T -> int, ids: seq<int>)
  {
    forall i, j :: 0 <= i < j < |ids| && ids[i] in rows && ids[j] in rows ==>
      createdAt(rows[ids[i]]) >= createdAt(rows[ids[j]])
  }

  /** SELECT count(id) ... WHERE where. */
  function CountWhere<T>(rows: map<int, T>, where: T -> bool): nat
  {
    |set id | id in rows && where(rows[id])|
  }

  /** OFFSET offset LIMIT limit over an already ordered result. */
  function Window<X>(s: seq<X>, offset: int, limit: int): (w: seq<X>)
    requires offset >= 0 && limit >= 0
    ensures |w| == if offset >= |s| then 0 else Min(limit, |s| - offset)
    ensures forall i :: 0 <= i < |w| ==> w[i] == s[offset + i]
  {
    if offset >= |s| then [] else s[offset..Min(offset + limit, |s|)]
  }

  /** The rows behind a sequence of keys. */
  function RowsAt<T>(rows: map<int, T>, ids: seq<int>): (r: seq<T>)
    requires forall i :: 0 <= i < |ids| ==> ids[i] in rows
    ensures |r| == |ids| && forall i :: 0 <= i < |ids| ==> r[i] == rows[ids[i]]
  {
    seq(|ids|, i requires 0 <= i < |ids| => rows[ids[i]])
  }

  /**
   * The rows a `WHERE where ORDER BY created_at DESC OFFSET offset LIMIT limit`
   * can return: a window of some newest-first listing of all matching rows.
   */
  ghost predicate IsNewestFirstPage<T>(rows: map<int, T>, where: T -> bool, createdAt: T -> int,
                                       offset: nat, limit: nat, items: seq<T>)
  {
    exists ids :: IsSelection(rows, where, ids) && NewestFirst(rows, createdAt, ids) &&
      items == RowsAt(rows, Window(ids, offset, limit))
  }

  /** The rows a `WHERE where OFFSET offset LIMIT limit` with no ORDER BY can return. */
  ghost predicate IsUnorderedPage<T>(rows: map<int, T>, where: T -> bool, offset: nat, limit: nat, items: seq<T>)
  {
    exists ids :: IsSelection(rows, where, ids) && items == RowsAt(rows, Window(ids, offset, limit))
  }

  lemma {:induction false} DistinctCardinality(s: seq<int>)
    requires Distinct(s)
    ensures |set x | x in s| == |s|
  {
    if s != [] {
      var t := s[1..];
      assert Distinct(t);
      DistinctCardinality(t);
      assert (set x | x in s) == (set x | x in t) + {s[0]};
      assert s[0] !in (set x | x in t);
    }
  }

  /** The count query and the listing agree: a selection is as long as COUNT(id). */
  lemma SelectionSize<T>(rows: map<int, T>, where: T -> bool, ids: seq<int>)
    requires IsSelection(rows, where, ids)
    ensures |ids| == CountWhere(rows, where)
  {
    DistinctCardinality(ids);
    var listed := set x | x in ids;
    var matching := set id | id in rows && where(rows[id]);
    assert listed <= matching;
    forall id | id in matching ensures id in listed {
      assert id in ids;
    }
    assert listed == matching;
  }

  lemma NonEmptyHasElement(keys: set<int>)
    requires keys != {}
    ensures exists k :: k in keys
  {
    if forall k :: k !in keys {
      assert false;
    }
  }

  /** The store visits rows in an order of its own: any remaining key. */
  method PickKey(keys: set<int>) returns (k: int)
    requires keys != {}
    ensures k in keys
  {
    NonEmptyHasElement(keys);
    k :| k in keys;
  }

  /**
   * Where a new row goes in a newest-first listing: after every strictly newer
   * row, so that the listing stays ordered.
   */
  method InsertionPoint<T>(rows: map<int, T>, createdAt: T -> int, ids: seq<int>, k: int) returns (p: nat)
    requires k in rows
    requires forall i :: 0 <= i < |ids| ==> ids[i] in rows
    requires NewestFirst(rows, createdAt, ids)
    ensures p <= |ids|
    ensures forall i :: 0 <= i < p ==> createdAt(rows[ids[i]]) > createdAt(rows[k])
    ensures forall i :: p <= i < |ids| ==> createdAt(rows[ids[i]]) <= createdAt(rows[k])
  {
    p := 0;
    while p < |ids| && createdAt(rows[ids[p]]) > createdAt(rows[k])
      invariant p <= |ids|
      invariant forall i :: 0 <= i < p ==> createdAt(rows[ids[i]]) > createdAt(rows[k])
    {
      p := p + 1;
    }
  }

  /** The listing with k put at position p: the rows before p, then k, then the rest shifted by one. */
  lemma InsertedIndex(ids: seq<int>, k: int, p: nat)
    requires p <= |ids|
    ensures |ids[..p] + [k] + ids[p..]| == |ids| + 1
    ensures forall i :: 0 <= i < p ==> (ids[..p] + [k] + ids[p..])[i] == ids[i]
    ensures (ids[..p] + [k] + ids[p..])[p] == k
    ensures forall i :: p < i <= |ids| ==> (ids[..p] + [k] + ids[p..])[i] == ids[i - 1]
  {
    var next := ids[..p] + [k] + ids[p..];
    forall i | p < i < |next| ensures next[i] == ids[i - 1] {
      assert next[i] == ids[p..][i - p - 1];
    }
  }

  /** Putting k at its insertion point keeps a newest-first listing newest-first and free of repeats. */
  lemma InsertAt<T>(rows: map<int, T>, createdAt: T -> int, ids: seq<int>, k: int, p: nat, next: seq<int>)
    requires k in rows && k !in ids
    requires forall i :: 0 <= i < |ids| ==> ids[i] in rows
    requires Distinct(ids) && NewestFirst(rows, createdAt, ids)
    requires p <= |ids|
    requires forall i :: 0 <= i < p ==> createdAt(rows[ids[i]]) > createdAt(rows[k])
    requires forall i :: p <= i < |ids| ==> createdAt(rows[ids[i]]) <= createdAt(rows[k])
    requires |next| == |ids| + 1
    requires forall i :: 0 <= i < p ==> next[i] == ids[i]
    requires next[p] == k
    requires forall i :: p < i < |next| ==> next[i] == ids[i - 1]
    ensures forall id :: id in next <==> id in ids || id == k
    ensures Distinct(next)
    ensures NewestFirst(rows, createdAt, next)
  {
    forall i, j | 0 <= i < j < |next| ensures next[i] != next[j] {
      if i != p && j != p {
        var a, b := if i < p then i else i - 1, if j < p then j else j - 1;
        assert next[i] == ids[a] && next[j] == ids[b] && a < b;
      }
    }
    forall i, j | 0 <= i < j < |next| && next[i] in rows && next[j] in rows
      ensures createdAt(rows[next[i]]) >= createdAt(rows[next[j]])
    {
      if i != p && j != p {
        var a, b := if i < p then i else i - 1, if j < p then j else j - 1;
        assert next[i] == ids[a] && next[j] == ids[b] && a < b;
      }
    }
    forall id ensures id in next <==> id in ids || id == k {
      if id in ids {
        var i :| 0 <= i < |ids| && ids[i] == id;
        assert next[if i < p then i else i + 1] == id;
      }
      if id in next {
        var i :| 0 <= i < |next| && next[i] == id;
        if i != p {
          assert ids[if i < p then i else i - 1] == id;
        }
      }
    }
  }

  /**
   * Executes `WHERE where ORDER BY created_at DESC`: visits the table's rows in
   * whatever order the store yields them and inserts each match in place.
   */
  method SelectNewestFirst<T>(rows: map<int, T>, where: T -> bool, createdAt: T -> int) returns (ids: seq<int>)
    ensures IsSelection(rows, where, ids)
    ensures NewestFirst(rows, createdAt, ids)
  {
    ids := [];
    var pending := rows.Keys;
    while pending != {}
      invariant pending <= rows.Keys
      invariant forall i :: 0 <= i < |ids| ==> ids[i] in rows && where(rows[ids[i]]) && ids[i] !in pending
      invariant forall id :: id in rows && id !in pending && where(rows[id]) ==> id in ids
      invariant Distinct(ids)
      invariant NewestFirst(rows, createdAt, ids)
      decreases pending
    {
      var k := PickKey(pending);
      if where(rows[k]) {
        var p := InsertionPoint(rows, createdAt, ids, k);
        InsertedIndex(ids, k, p);
        InsertAt(rows, createdAt, ids, k, p, ids[..p] + [k] + ids[p..]);
        ids := ids[..p] + [k] + ids[p..];
      }
      pending := pending - {k};
    }
  }

  /** Executes `WHERE where` with no ORDER BY: the rows in the order the store visits them. */
  method SelectUnordered<T>(rows: map<int, T>, where: T -> bool) returns (ids: seq<int>)
    ensures IsSelection(rows, where, ids)
  {
    ids := [];
    var pending := rows.Keys;
    while pending != {}
      invariant pending <= rows.Keys
      invariant forall i :: 0 <= i < |ids| ==> ids[i] in rows && where(rows[ids[i]]) && ids[i] !in pending
      invariant forall id :: id in rows && id !in pending && where(rows[id]) ==> id in ids
      invariant Distinct(ids)
      decreases pending
    {
      var k := PickKey(pending);
      if where(rows[k]) {
        ids := ids + [k];
      }
      pending := pending - {k};
    }
  }

  /** COUNT(id) is the size of any set holding exactly the matching rows. */
  lemma CountWhereIsSize<T>(rows: map<int, T>, where: T -> bool, ids: set<int>)
    requires forall id :: id in ids ==> id in rows && where(rows[id])
    requires forall id :: id in rows && where(rows[id]) ==> id in ids
    ensures CountWhere(rows, where) == |ids|
  {
    var matching := set id | id in rows && where(rows[id]);
    forall id | id in ids ensures id in matching {
    }
    forall id | id in matching ensures id in ids {
    }
    assert matching == ids;
  }

  /** Two WHERE clauses that agree on every row select the same rows and count the same. */
  lemma EquivalentWhere<T>(rows: map<int, T>, w1: T -> bool, w2: T -> bool, ids: seq<int>)
    requires forall id :: id in rows ==> (w1(rows[id]) <==> w2(rows[id]))
    requires IsSelection(rows, w1, ids)
    ensures IsSelection(rows, w2, ids)
    ensures CountWhere(rows, w1) == CountWhere(rows, w2)
  {
    var s1 := set id | id in rows && w1(rows[id]);
    var s2 := set id | id in rows && w2(rows[id]);
    forall id | id in s1 ensures id in s2 {
    }
    forall id | id in s2 ensures id in s1 {
    }
    assert s1 == s2;
  }

  /**
   * What a caller can rely on from a newest-first page: every row satisfies the
   * WHERE clause, and the page is as long as the window the count allows.
   */
  lemma NewestFirstPageRows<T>(rows: map<int, T>, where: T -> bool, createdAt: T -> int,
                               offset: nat, limit: nat, items: seq<T>)
    requires IsNewestFirstPage(rows, where, createdAt, offset, limit, items)
    ensures forall i :: 0 <= i < |items| ==> where(items[i])
    ensures |items| == if offset >= CountWhere(rows, where) then 0 else Min(limit, CountWhere(rows, where) - offset)
    ensures forall i, j :: 0 <= i < j < |items| ==> createdAt(items[i]) >= createdAt(items[j])
  {
    var ids :| IsSelection(rows, where, ids) && NewestFirst(rows, createdAt, ids) &&
      items == RowsAt(rows, Window(ids, offset, limit));
    SelectionSize(rows, where, ids);
    var w := Window(ids, offset, limit);
    forall i, j | 0 <= i < j < |items| ensures createdAt(items[i]) >= createdAt(items[j]) {
      assert items[i] == rows[ids[offset + i]] && items[j] == rows[ids[offset + j]];
    }
  }

  /** The same for a page without ORDER BY: the rows satisfy the WHERE clause and the window has its size. */
  lemma UnorderedPageRows<T>(rows: map<int, T>, where: T -> bool, offset: nat, limit: nat, items: seq<T>)
    requires IsUnorderedPage(rows, where, offset, limit, items)
    ensures forall i :: 0 <= i < |items| ==> where(items[i])
    ensures |items| == if offset >= CountWhere(rows, where) then 0 else Min(limit, CountWhere(rows, where) - offset)
  {
    var ids :| IsSelection(rows, where, ids) && items == RowsAt(rows, Window(ids, offset, limit));
    SelectionSize(rows, where, ids);
  }
}
