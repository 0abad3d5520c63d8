/**
  The users table behind `database.DB`, as the handlers' SQL statements see it
  (the database package itself is not part of this model).

  Schema assumed from the statements: `id` is a serial primary key drawn from
  a sequence, `email` is unique, and `created_at` and `updated_at` default to
  the store's clock. The clock is a field that only moves forward.
*/
module Store {
  import opened Wrappers
  import opened Models

  /** Every stored row carries its own key, an id already handed out by the
      sequence, and timestamps in order up to the clock. */
  ghost predicate RowsWellKeyed(rows: map<int, User>, nextId: int, now: int) {
    forall id :: id in rows ==>
      && rows[id].id == id
      && 1 <= id < nextId
      && rows[id].createdAt <= rows[id].updatedAt <= now
  }

  /** The unique constraint on `email`. */
  ghost predicate EmailsUnique(rows: map<int, User>) {
    forall i, j :: i in rows && j in rows && i != j ==> rows[i].email != rows[j].email
  }

  /** An id handed out later never carries an earlier creation time. */
  ghost predicate CreatedFollowsIds(rows: map<int, User>) {
    forall i, j :: i in rows && j in rows && i < j ==> rows[i].createdAt <= rows[j].createdAt
  }

  ghost predicate TableInvariant(rows: map<int, User>, nextId: int, now: int) {
    1 <= nextId && RowsWellKeyed(rows, nextId, now) && EmailsUnique(rows) && CreatedFollowsIds(rows)
  }

  predicate EmailTaken(rows: map<int, User>, email: string) {
    exists id :: id in rows && rows[id].email == email
  }

  predicate EmailTakenByOther(rows: map<int, User>, email: string, self: int) {
    exists id :: id in rows && id != self && rows[id].email == email
  }

  /** SQL `COALESCE(param, column)`: the column keeps its value only when the parameter is NULL. */
  function Coalesce(param: Option<string>, current: string): string {
    match param
    case Some(v) => v
    case None => current
  }

  /** The rows whose ids lie below `hi`, largest id first. */
  function RowsByIdDesc(rows: map<int, User>, hi: int): seq<User>
    decreases hi
  {
    if hi <= 1 then []
    else (if hi - 1 in rows then [rows[hi - 1]] else []) + RowsByIdDesc(rows, hi - 1)
  }

  ghost predicate SortedByCreatedDesc(us: seq<User>) {
    forall i, j :: 0 <= i < j < |us| ==> us[i].createdAt >= us[j].createdAt
  }

  ghost predicate IdsStrictlyDescending(us: seq<User>) {
    forall i, j :: 0 <= i < j < |us| ==> us[i].id > us[j].id
  }

  /** Every element of the listing is a stored row with an id below `hi`, the
      ids strictly decrease, and every stored row with an id in [1, hi) is listed. */
  lemma {:induction false} RowsByIdDescExact(rows: map<int, User>, hi: int)
    requires forall id :: id in rows ==> rows[id].id == id
    ensures var r := RowsByIdDesc(rows, hi);
      && (forall k :: 0 <= k < |r| ==> r[k].id in rows && rows[r[k].id] == r[k] && 1 <= r[k].id < hi)
      && IdsStrictlyDescending(r)
      && (forall id :: id in rows && 1 <= id < hi ==> rows[id] in r)
    decreases hi
  {
    if hi > 1 {
      RowsByIdDescExact(rows, hi - 1);
    }
  }

  /** Listing by id, largest first, is a listing by creation time, latest first. */
  lemma ByIdDescIsByCreatedDesc(rows: map<int, User>, nextId: int, now: int)
    requires TableInvariant(rows, nextId, now)
    ensures SortedByCreatedDesc(RowsByIdDesc(rows, nextId))
  {
    var r := RowsByIdDesc(rows, nextId);
    RowsByIdDescExact(rows, nextId);
    forall i, j | 0 <= i < j < |r|
      ensures r[i].createdAt >= r[j].createdAt
    {
      assert rows[r[j].id] == r[j] && rows[r[i].id] == r[i];
    }
  }

  class UsersTable {
    /** The rows, keyed by id. */
    var rows: map<int, User>
    /** The next value the id sequence hands out. */
    var nextId: int
    /** The store's clock, the value of NOW(). */
    var now: int

    ghost predicate Valid()
      reads this
    {
      TableInvariant(rows, nextId, now)
    }

    constructor (start: int)
      ensures Valid()
      ensures rows == map[] && nextId == 1 && now == start
    {
      rows, nextId, now := map[], 1, start;
    }

    /** Time passes between requests; the clock never goes back. */
    method AdvanceClock(dt: nat)
      requires Valid()
      modifies this
      ensures Valid()
      ensures rows == old(rows) && nextId == old(nextId) && now == old(now) + dt
    {
      now := now + dt;
    }

    /** `SELECT ... FROM users WHERE id = $1`. */
    function SelectById(id: int): (r: Option<User>)
      reads this
      ensures r.Some? <==> id in rows
      ensures r.Some? ==> r.value == rows[id]
    {
      if id in rows then Some(rows[id]) else None
    }

    /** `SELECT ... FROM users ORDER BY created_at DESC`. Rows with equal
        creation times may come in any order in SQL; this one is id-descending. */
    function SelectAllByCreatedDesc(): seq<User>
      reads this
    {
      RowsByIdDesc(rows, nextId)
    }

    /** The listing holds every stored row exactly once (ids strictly decrease),
        nothing else, and creation times never increase along it. */
    lemma SelectAllIsOrderedListing()
      requires Valid()
      ensures var r := SelectAllByCreatedDesc();
        && SortedByCreatedDesc(r)
        && IdsStrictlyDescending(r)
        && (forall k :: 0 <= k < |r| ==> r[k].id in rows && rows[r[k].id] == r[k])
        && (forall id :: id in rows ==> rows[id] in r)
    {
      RowsByIdDescExact(rows, nextId);
      ByIdDescIsByCreatedDesc(rows, nextId, now);
    }

    /** `INSERT INTO users (email, name) VALUES ($1, $2) RETURNING ...`.
        The id is drawn from the sequence before the unique check, and a
        sequence is not rolled back, so a rejected insert still uses up an id. */
    method Insert(email: string, name: string) returns (r: Option<User>)
      requires Valid()
      modifies this
      ensures Valid()
      ensures nextId == old(nextId) + 1 && now == old(now)
      ensures old(nextId) !in old(rows)
      ensures EmailTaken(old(rows), email) ==> r.None? && rows == old(rows)
      ensures !EmailTaken(old(rows), email) ==>
                && r == Some(User(old(nextId), email, name, old(now), old(now)))
                && rows == old(rows)[old(nextId) := r.value]
    {
      var id := nextId;
      nextId := nextId + 1;
      if EmailTaken(rows, email) {
        return None;
      }
      var u := User(id, email, name, now, now);
      rows := rows[id := u];
      r := Some(u);
    }

    /** `UPDATE users SET email = COALESCE($1, email), name = COALESCE($2, name),
        updated_at = NOW() WHERE id = $3 RETURNING ...`. No row for the id means
        no row returned; a new email held by another row violates the unique
        constraint and the statement changes nothing. */
    method Update(id: int, email: Option<string>, name: Option<string>) returns (r: Option<User>)
      requires Valid()
      modifies this
      ensures Valid()
      ensures nextId == old(nextId) && now == old(now)
      ensures id !in old(rows) ==> r.None? && rows == old(rows)
      ensures id in old(rows) && EmailTakenByOther(old(rows), Coalesce(email, old(rows)[id].email), id) ==>
                r.None? && rows == old(rows)
      ensures id in old(rows) && !EmailTakenByOther(old(rows), Coalesce(email, old(rows)[id].email), id) ==>
                var was := old(rows)[id];
                && r == Some(User(id, Coalesce(email, was.email), Coalesce(name, was.name), was.createdAt, old(now)))
                && rows == old(rows)[id := r.value]
    {
      if id !in rows {
        return None;
      }
      var was := rows[id];
      var newEmail := Coalesce(email, was.email);
      if EmailTakenByOther(rows, newEmail, id) {
        return None;
      }
      var u := User(id, newEmail, Coalesce(name, was.name), was.createdAt, now);
      rows := rows[id := u];
      r := Some(u);
    }

    /** `DELETE FROM users WHERE id = $1`, returning the rows-affected count. */
    method Delete(id: int) returns (affected: nat)
      requires Valid()
      modifies this
      ensures Valid()
      ensures nextId == old(nextId) && now == old(now)
      ensures affected == (if id in old(rows) then 1 else 0)
      ensures rows == old(rows) - {id}
    {
      affected := if id in rows then 1 else 0;
      rows := rows - {id};
    }
  }
}
