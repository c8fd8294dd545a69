/** A SQLite table keyed by a TEXT primary key, as the repositories use it: every row carries the
    `created_at`/`updated_at` stamps the repositories write, and the table remembers insertion order,
    which is what `ORDER BY created_at` yields when stamps come from a clock that only moves forward. */
module Tables {
  import opened Base
  import opened Seqs

  /** One stored row: the repository-specific columns plus the two timestamps (clock readings). */
  datatype Row<R> = Row(data: R, createdAt: nat, updatedAt: nat)

  /** The rows by primary key, and the keys in the order they were inserted. */
  datatype Table<R> = Table(rows: map<string, Row<R>>, order: seq<string>)

  /** Why a statement was rejected by the database engine. */
  datatype DbError =
    | PrimaryKeyViolation(key: string)
    | UniqueViolation(column: string, value: string)

  /** `order` lists every key exactly once, and creation stamps never decrease along it. */
  ghost predicate Valid<R>(t: Table<R>) {
    && NoDup(t.order)
    && (forall id :: id in t.rows <==> id in t.order)
    && CreatedAscending(t)
  }

  predicate CreatedAscending<R>(t: Table<R>) {
    forall i, j :: 0 <= i < j < |t.order| && t.order[i] in t.rows && t.order[j] in t.rows ==>
      t.rows[t.order[i]].createdAt <= t.rows[t.order[j]].createdAt
  }

  /** Every stamp in the table was taken no later than `now`. */
  predicate StampedBefore<R>(t: Table<R>, now: nat) {
    forall id :: id in t.rows ==> t.rows[id].createdAt <= now && t.rows[id].updatedAt <= now
  }

  function Empty<R>(): (t: Table<R>)
    ensures Valid(t) && forall now: nat :: StampedBefore(t, now)
  {
    Table(map[], [])
  }

  /** `SELECT * WHERE id = ?`: the row, or nothing. */
  function Get<R>(t: Table<R>, id: string): (r: Option<Row<R>>)
    ensures r.Some? <==> id in t.rows
    ensures r.Some? ==> r.value == t.rows[id]
  {
    if id in t.rows then Some(t.rows[id]) else None
  }

  /** The rows with their keys, in table order (keys missing from `rows` are skipped). */
  function Listed<R>(rows: map<string, Row<R>>, order: seq<string>): (r: seq<(string, Row<R>)>)
    ensures |r| <= |order|
    ensures forall i :: 0 <= i < |r| ==> r[i].0 in rows && rows[r[i].0] == r[i].1
  {
    if order == [] then []
    else (if order[0] in rows then [(order[0], rows[order[0]])] else []) + Listed(rows, order[1..])
  }

  /** `SELECT *` in table order. */
  function All<R>(t: Table<R>): seq<(string, Row<R>)> {
    Listed(t.rows, t.order)
  }

  /** On a valid table every stored row is listed exactly once, at its key's position, and the listing
      is sorted by creation stamp: `ORDER BY created_at ASC`. */
  lemma AllOfValid<R>(t: Table<R>)
    requires Valid(t)
    ensures |All(t)| == |t.order|
    ensures forall i :: 0 <= i < |t.order| ==> All(t)[i].0 == t.order[i]
    ensures forall id :: id in t.rows <==> exists i :: 0 <= i < |All(t)| && All(t)[i].0 == id
    ensures forall i, j :: 0 <= i < j < |All(t)| ==> All(t)[i].1.createdAt <= All(t)[j].1.createdAt
  {
    ListedAll(t.rows, t.order);
    forall id | id in t.rows ensures exists i :: 0 <= i < |All(t)| && All(t)[i].0 == id {
      var i :| 0 <= i < |t.order| && t.order[i] == id;
      assert All(t)[i].0 == id;
    }
  }

  lemma {:induction false} ListedAll<R>(rows: map<string, Row<R>>, order: seq<string>)
    requires forall i :: 0 <= i < |order| ==> order[i] in rows
    ensures |Listed(rows, order)| == |order|
    ensures forall i :: 0 <= i < |order| ==> Listed(rows, order)[i] == (order[i], rows[order[i]])
  {
    if order != [] {
      ListedAll(rows, order[1..]);
    }
  }

  /** `INSERT` of a key that is not yet present, stamped `now`. */
  function Insert<R>(t: Table<R>, id: string, data: R, now: nat): (t': Table<R>)
    requires id !in t.rows
    ensures t'.rows == t.rows[id := Row(data, now, now)]
    ensures t'.order == t.order + [id]
  {
    Table(t.rows[id := Row(data, now, now)], t.order + [id])
  }

  /** `UPDATE ... WHERE id = ?`: new columns and `updated_at`, `created_at` kept; no row, no change. */
  function Rewrite<R>(t: Table<R>, id: string, data: R, now: nat): (t': Table<R>)
    ensures id !in t.rows ==> t' == t
    ensures id in t.rows ==> t'.rows == t.rows[id := Row(data, t.rows[id].createdAt, now)]
    ensures t'.order == t.order
  {
    if id in t.rows then Table(t.rows[id := Row(data, t.rows[id].createdAt, now)], t.order) else t
  }

  /** `DELETE ... WHERE id = ?`. */
  function Remove<R>(t: Table<R>, id: string): (t': Table<R>)
    ensures t'.rows == t.rows - {id}
    ensures forall x :: x in t'.order <==> x in t.order && x != id
  {
    Table(t.rows - {id}, Filter(t.order, Except(id)))
  }

  lemma InsertValid<R>(t: Table<R>, id: string, data: R, now: nat)
    requires Valid(t) && StampedBefore(t, now) && id !in t.rows
    ensures Valid(Insert(t, id, data, now)) && StampedBefore(Insert(t, id, data, now), now)
  {
    var t' := Insert(t, id, data, now);
    assert NoDup(t'.order) by {
      forall i, j | 0 <= i < j < |t'.order| ensures t'.order[i] != t'.order[j] {
        assert t'.order[i] == t.order[i] && t.order[i] in t.rows;
      }
    }
    assert CreatedAscending(t') by {
      forall i, j | 0 <= i < j < |t'.order| && t'.order[i] in t'.rows && t'.order[j] in t'.rows
        ensures t'.rows[t'.order[i]].createdAt <= t'.rows[t'.order[j]].createdAt
      {
        var x := t.order[i];
        assert t'.order[i] == x && x in t.rows && x != id;
        if j < |t.order| {
          assert t'.order[j] == t.order[j] && t.order[j] in t.rows && t.order[j] != id;
        }
      }
    }
  }

  lemma RewriteValid<R>(t: Table<R>, id: string, data: R, now: nat)
    requires Valid(t) && StampedBefore(t, now)
    ensures Valid(Rewrite(t, id, data, now)) && StampedBefore(Rewrite(t, id, data, now), now)
  {
  }

  lemma RemoveValid<R>(t: Table<R>, id: string)
    requires Valid(t)
    ensures Valid(Remove(t, id))
    ensures forall now: nat :: StampedBefore(t, now) ==> StampedBefore(Remove(t, id), now)
  {
    var keep := Except(id);
    FilterKeepsPairwise(t.order, keep, (x: string, y: string) => x != y);
    var created := (x: string, y: string) => x in t.rows && y in t.rows ==> t.rows[x].createdAt <= t.rows[y].createdAt;
    assert Pairwise(t.order, created);
    FilterKeepsPairwise(t.order, keep, created);
  }

  /** A later clock reading bounds everything an earlier one did. */
  lemma StampedLater<R>(t: Table<R>, now: nat, later: nat)
    requires StampedBefore(t, now) && now <= later
    ensures StampedBefore(t, later)
  {
  }
}
