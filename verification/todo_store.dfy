/** The `todo` table as a finite map from primary key to row, plus the
    counter the database draws fresh keys from. */
module TodoStore {
  import opened Wrappers
  import opened Json
  import opened TodoModel

  datatype Store = Store(rows: map<int, Todo>, nextId: int)

  /** The table's integrity: every row sits under its own `id`, and every
      key in use lies below the next key to be handed out. */
  ghost predicate Valid(s: Store) {
    forall k :: k in s.rows ==> s.rows[k].id == k && k < s.nextId
  }

  /** The empty table; its first row gets key 1. */
  function Initial(): (s: Store)
    ensures Valid(s) && s.rows == map[]
  {
    Store(map[], 1)
  }

  /** Adds `t` under a fresh key. The stored row is `t` with that key as its
      `id`; in a valid table the key is unused, so no other row changes. */
  function Insert(s: Store, t: Todo): (r: (Todo, Store))
    ensures r.0 == t.(id := s.nextId)
    ensures r.1.rows.Keys == s.rows.Keys + {r.0.id} && r.1.rows[r.0.id] == r.0
    ensures r.1.nextId > s.nextId
    ensures Valid(s) ==> r.0.id !in s.rows && Valid(r.1)
    ensures Valid(s) ==> forall k :: k in s.rows ==> r.1.rows[k] == s.rows[k]
  {
    var row := t.(id := s.nextId);
    (row, Store(s.rows[row.id := row], s.nextId + 1))
  }

  /** Lookup by primary key. */
  function Find(s: Store, id: int): (r: Option<Todo>)
    ensures r.Some? <==> id in s.rows
    ensures r.Some? ==> r.value == s.rows[id]
  {
    if id in s.rows then Some(s.rows[id]) else None
  }

  /** Writes `t` back over the existing row under `id`; no key appears or
      disappears and no other row changes. */
  function Replace(s: Store, id: int, t: Todo): (r: Store)
    requires id in s.rows
    ensures r.rows.Keys == s.rows.Keys && r.nextId == s.nextId
    ensures r.rows[id] == t
    ensures forall k :: k in s.rows && k != id ==> r.rows[k] == s.rows[k]
    ensures Valid(s) && t.id == id ==> Valid(r)
  {
    Store(s.rows[id := t], s.nextId)
  }

  /** Deletes the row under `id` if there is one; every other row stays. */
  function Remove(s: Store, id: int): (r: Store)
    ensures r.rows.Keys == s.rows.Keys - {id} && r.nextId == s.nextId
    ensures forall k :: k in r.rows ==> r.rows[k] == s.rows[k]
    ensures Valid(s) ==> Valid(r)
  {
    Store(s.rows - {id}, s.nextId)
  }

  /** The list query's WHERE clause: an optional equality on `completed` and
      an optional strict upper bound on `deadline_at`. */
  datatype Filter = Filter(completed: Option<bool>, before: Option<Timestamp>)

  /** True when `t` satisfies every active part of `f`. A NULL deadline is
      never below a bound (SQL comparison with NULL is not true), and neither
      is a value stored unparsed; a non-boolean `completed` equals neither
      boolean. */
  predicate Matches(t: Todo, f: Filter)
    ensures f == Filter(None, None) ==> Matches(t, f)
    ensures Matches(t, f) && f.before.Some? ==> t.deadline.Parsed?
    ensures Matches(t, f) && f.completed.Some? ==> t.completed.JBool?
  {
    && (f.completed.Some? ==> t.completed == JBool(f.completed.value))
    && (f.before.Some? ==> t.deadline.Parsed? && t.deadline.at < f.before.value)
  }

  /** True when `m` is the least element of `ks`. */
  predicate IsLeast(m: int, ks: set<int>) {
    m in ks && forall k :: k in ks ==> m <= k
  }

  /** There is a least element in every non-empty finite set of keys. */
  lemma {:induction false} LeastExists(ks: set<int>)
    requires ks != {}
    ensures exists m :: IsLeast(m, ks)
    decreases ks
  {
    if forall k :: k !in ks {
      assert false;
    }
    var x :| x in ks;
    var rest := ks - {x};
    if rest == {} {
      assert IsLeast(x, ks) by {
        forall k | k in ks
          ensures x <= k
        {
          assert k !in rest;
        }
      }
    } else {
      LeastExists(rest);
      var m :| IsLeast(m, rest);
      var least := if x < m then x else m;
      assert IsLeast(least, ks) by {
        forall k | k in ks
          ensures least <= k
        {
          if k != x {
            assert k in rest;
          }
        }
      }
    }
  }

  /** The least key of a non-empty set. */
  function Least(ks: set<int>): (m: int)
    requires ks != {}
    ensures IsLeast(m, ks)
  {
    LeastExists(ks);
    var m :| IsLeast(m, ks);
    m
  }

  /** The keys of `ks` in ascending order, each once. */
  function Ascending(ks: set<int>): (r: seq<int>)
    ensures forall i :: 0 <= i < |r| ==> r[i] in ks
    ensures forall k :: k in ks ==> k in r
    ensures forall i, j :: 0 <= i < j < |r| ==> r[i] < r[j]
    decreases ks
  {
    if ks == {} then []
    else
      var m := Least(ks);
      [m] + Ascending(ks - {m})
  }

  /** The keys of the rows satisfying `f`, ascending. The query leaves the
      order to the database; ascending key order is the order a table scan
      by primary key yields. */
  function Select(s: Store, f: Filter): (ids: seq<int>)
    ensures forall k :: k in ids <==> k in s.rows && Matches(s.rows[k], f)
    ensures forall i, j :: 0 <= i < j < |ids| ==> ids[i] < ids[j]
  {
    Ascending(set k | k in s.rows && Matches(s.rows[k], f))
  }
}
