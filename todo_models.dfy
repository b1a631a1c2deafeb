/** The `todo` table and the five statements `TodoDbExecutor` runs against it:
    INSERT, SELECT (filter, order, OFFSET/LIMIT), UPDATE with COALESCE, DELETE by id list,
    and DELETE of everything. Each statement runs in its own transaction, so each is one
    atomic step here. */
module TodoModels {
  import opened Wrappers
  import opened Common

  /** A `DateTime<Utc>`: an abstract instant, later instants are larger. */
  type Timestamp = int

  /** One row of the table, field for field as `struct Todo`. */
  datatype Todo = Todo(id: Int32, accountId: Int32, title: string, body: Option<string>,
                       creationDate: Timestamp, lastEditDate: Timestamp, done: bool)

  /** The Postgres errors these statements can raise from their arguments or the table. */
  datatype PgError =
    | NegativeOffset     // OFFSET with a value below zero
    | NegativeLimit      // LIMIT with a value below zero
    | SequenceExhausted  // the `id` sequence has passed the largest `i32`

  /** A row of `RETURNING id, creation_date`. */
  datatype CreatedRow = CreatedRow(id: Int32, creationDate: Timestamp)

  /** A row of `RETURNING id, last_edit_date`. */
  datatype EditedRow = EditedRow(id: Int32, lastEditDate: Timestamp)

  // ---------------------------------------------------------------------------
  // SELECT ... WHERE account_id = $1 ORDER BY last_edit_date DESC OFFSET $2 LIMIT $3

  /** `WHERE account_id = a`, keeping table order. */
  function OfAccount(rows: seq<Todo>, accountId: Int32): (r: seq<Todo>)
    ensures forall t :: t in r <==> t in rows && t.accountId == accountId
    ensures forall t :: multiset(r)[t] == if t.accountId == accountId then multiset(rows)[t] else 0
    ensures |r| <= |rows|
  {
    if rows == [] then []
    else
      assert rows == [rows[0]] + rows[1..];
      (if rows[0].accountId == accountId then [rows[0]] else []) + OfAccount(rows[1..], accountId)
  }

  /** `ORDER BY last_edit_date DESC`: no row is newer than one before it. */
  ghost predicate NewestFirst(s: seq<Todo>) {
    forall i, j :: 0 <= i < j < |s| ==> s[i].lastEditDate >= s[j].lastEditDate
  }

  /** Some order the query may return the account's rows in: newest first, ties in any order. */
  ghost predicate Arrangement(s: seq<Todo>, rows: seq<Todo>, accountId: Int32) {
    NewestFirst(s) && multiset(s) == multiset(OfAccount(rows, accountId))
  }

  function InsertNewestFirst(t: Todo, s: seq<Todo>): (r: seq<Todo>)
    requires NewestFirst(s)
    ensures NewestFirst(r) && multiset(r) == multiset(s) + multiset{t}
    ensures |r| == |s| + 1 && (r[0] == t || (|s| > 0 && r[0] == s[0]))
  {
    if s == [] || t.lastEditDate >= s[0].lastEditDate then
      [t] + s
    else
      assert s == [s[0]] + s[1..];
      [s[0]] + InsertNewestFirst(t, s[1..])
  }

  /** One of the orders ORDER BY allows (insertion sort: ties keep table order). */
  function SortNewestFirst(s: seq<Todo>): (r: seq<Todo>)
    ensures NewestFirst(r) && multiset(r) == multiset(s)
  {
    if s == [] then []
    else
      assert s == [s[0]] + s[1..];
      InsertNewestFirst(s[0], SortNewestFirst(s[1..]))
  }

  /** Where the OFFSET window starts in an ordered result of `n` rows. */
  function WindowStart(n: nat, offset: Option<nat>): nat {
    if offset.None? then 0 else if offset.value <= n then offset.value else n
  }

  /** Where the LIMIT window ends in an ordered result of `n` rows. */
  function WindowEnd(n: nat, offset: Option<nat>, limit: Option<nat>): nat {
    var lo := WindowStart(n, offset);
    if limit.Some? && lo + limit.value <= n then lo + limit.value else n
  }

  /** `OFFSET offset LIMIT limit` over an ordered result: a NULL OFFSET skips nothing,
      a NULL LIMIT keeps everything. */
  function Window(s: seq<Todo>, offset: Option<nat>, limit: Option<nat>): seq<Todo> {
    s[WindowStart(|s|, offset)..WindowEnd(|s|, offset, limit)]
  }

  /** `TodoDbExecutor::get`; a negative OFFSET or LIMIT is an error, OFFSET evaluated first. */
  function Query(rows: seq<Todo>, accountId: Int32, offset: Option<int>, limit: Option<int>): (r: Result<seq<Todo>, PgError>)
    ensures r.Err? <==> (offset.Some? && offset.value < 0) || (limit.Some? && limit.value < 0)
    ensures r.Err? ==> r.error == if offset.Some? && offset.value < 0 then NegativeOffset else NegativeLimit
  {
    if offset.Some? && offset.value < 0 then Err(NegativeOffset)
    else if limit.Some? && limit.value < 0 then Err(NegativeLimit)
    else
      var skip: Option<nat> := if offset.Some? then Some(offset.value) else None;
      var take: Option<nat> := if limit.Some? then Some(limit.value) else None;
      Ok(Window(SortNewestFirst(OfAccount(rows, accountId)), skip, take))
  }
  /** The sorted account rows are an arrangement of them, and hold no other rows. */
  lemma SortedAccountRows(rows: seq<Todo>, accountId: Int32)
    ensures Arrangement(SortNewestFirst(OfAccount(rows, accountId)), rows, accountId)
    ensures |SortNewestFirst(OfAccount(rows, accountId))| == |OfAccount(rows, accountId)|
    ensures forall t :: t in SortNewestFirst(OfAccount(rows, accountId)) ==> t in rows && t.accountId == accountId
  {
    var all := OfAccount(rows, accountId);
    var s := SortNewestFirst(all);
    assert |multiset(s)| == |multiset(all)|;
    forall t | t in s ensures t in rows && t.accountId == accountId {
      assert t in multiset(s);
      assert t in all;
    }
  }

  /** What the query promises: a slice of some newest-first arrangement of the account's
      rows, starting at the offset and at most `limit` long, both capped at the row count. */
  lemma QueryIsWindowOfArrangement(rows: seq<Todo>, accountId: Int32, offset: Option<nat>, limit: Option<nat>)
    ensures Query(rows, accountId, offset, limit).Ok?
    ensures var r := Query(rows, accountId, offset, limit).value;
            var n := |OfAccount(rows, accountId)|;
            && (forall t :: t in r ==> t in rows && t.accountId == accountId)
            && NewestFirst(r)
            && |r| == WindowEnd(n, offset, limit) - WindowStart(n, offset)
            && exists s :: Arrangement(s, rows, accountId) && r == Window(s, offset, limit)
  {
    var s := SortNewestFirst(OfAccount(rows, accountId));
    SortedAccountRows(rows, accountId);
    var r := Window(s, offset, limit);
    assert Query(rows, accountId, offset, limit) == Ok(r);
    WindowOfNewestFirst(s, offset, limit);
    assert Arrangement(s, rows, accountId) && r == Window(s, offset, limit);
  }

  /** A window of a newest-first sequence is newest first and holds only its rows. */
  lemma WindowOfNewestFirst(s: seq<Todo>, offset: Option<nat>, limit: Option<nat>)
    requires NewestFirst(s)
    ensures var r := Window(s, offset, limit);
            && NewestFirst(r)
            && (forall t :: t in r ==> t in s)
            && |r| == WindowEnd(|s|, offset, limit) - WindowStart(|s|, offset)
  {
    var lo := WindowStart(|s|, offset);
    var r := Window(s, offset, limit);
    assert forall i :: 0 <= i < |r| ==> r[i] == s[lo + i];
  }

  /** The expectations of `test_todos_get`: with three rows for the account, LIMIT 2 gives
      two, LIMIT 2 OFFSET 1 gives two, and neither gives all three. */
  lemma PaginationTestExpectations(rows: seq<Todo>, accountId: Int32)
    requires |OfAccount(rows, accountId)| == 3
    ensures |Query(rows, accountId, None, Some(2)).value| == 2
    ensures |Query(rows, accountId, Some(1), Some(2)).value| == 2
    ensures |Query(rows, accountId, None, None).value| == 3
  {
    QueryIsWindowOfArrangement(rows, accountId, None, Some(2));
    QueryIsWindowOfArrangement(rows, accountId, Some(1), Some(2));
    QueryIsWindowOfArrangement(rows, accountId, None, None);
  }

  // ---------------------------------------------------------------------------
  // UPDATE todo SET ... WHERE account_id = $5 AND id = $6

  /** The row the UPDATE's WHERE clause selects. */
  predicate Targets(t: Todo, accountId: Int32, id: Int32) {
    t.accountId == accountId && t.id == id
  }

  /** `SET title = COALESCE($1, title), body = COALESCE($2, body), done = COALESCE($3, done),
      last_edit_date = $4`. */
  function Updated(t: Todo, title: Option<string>, body: Option<string>, done: Option<bool>, lastEditDate: Timestamp): (u: Todo)
    ensures u.id == t.id && u.accountId == t.accountId && u.creationDate == t.creationDate
    ensures u.title == (if title.Some? then title.value else t.title)
    ensures u.body == (if body.Some? then body else t.body)
    ensures u.done == (if done.Some? then done.value else t.done)
    ensures u.lastEditDate == lastEditDate
  {
    t.(title := if title.Some? then title.value else t.title,
       body := if body.Some? then body else t.body,
       done := if done.Some? then done.value else t.done,
       lastEditDate := lastEditDate)
  }

  // ---------------------------------------------------------------------------
  // DELETE FROM todo WHERE account_id = $1 AND id = ANY($2)

  /** The rows the DELETE's WHERE clause selects. */
  predicate Doomed(t: Todo, accountId: Int32, ids: seq<Int32>) {
    t.accountId == accountId && t.id in ids
  }

  /** The table after the DELETE, in table order. */
  function Survivors(rows: seq<Todo>, accountId: Int32, ids: seq<Int32>): seq<Todo> {
    if rows == [] then []
    else
      var last := rows[|rows| - 1];
      Survivors(rows[..|rows| - 1], accountId, ids) + (if Doomed(last, accountId, ids) then [] else [last])
  }

  /** `RETURNING id` of the DELETE, in table order. */
  function RemovedIds(rows: seq<Todo>, accountId: Int32, ids: seq<Int32>): seq<Int32> {
    if rows == [] then []
    else
      var last := rows[|rows| - 1];
      RemovedIds(rows[..|rows| - 1], accountId, ids) + (if Doomed(last, accountId, ids) then [last.id] else [])
  }

  /** The DELETE keeps exactly the rows it does not select: every row of another account,
      and every row of this account whose id is not listed. */
  lemma {:induction false} SurvivorsAreExactlyTheUnselected(rows: seq<Todo>, accountId: Int32, ids: seq<Int32>)
    ensures forall t :: t in Survivors(rows, accountId, ids) <==> t in rows && !Doomed(t, accountId, ids)
  {
    if rows != [] {
      var init := rows[..|rows| - 1];
      SurvivorsAreExactlyTheUnselected(init, accountId, ids);
      assert rows == init + [rows[|rows| - 1]];
    }
  }

  /** The DELETE returns the id of each row it removes and of no other. */
  lemma {:induction false} RemovedIdsAreTheSelected(rows: seq<Todo>, accountId: Int32, ids: seq<Int32>)
    ensures forall x :: x in RemovedIds(rows, accountId, ids) <==>
                          exists t :: t in rows && Doomed(t, accountId, ids) && t.id == x
    ensures |RemovedIds(rows, accountId, ids)| + |Survivors(rows, accountId, ids)| == |rows|
  {
    if rows != [] {
      var init := rows[..|rows| - 1];
      RemovedIdsAreTheSelected(init, accountId, ids);
      assert rows == init + [rows[|rows| - 1]];
    }
  }

  // ---------------------------------------------------------------------------
  // The table itself

  /** The `todo` table and the `id` sequence behind it. */
  class TodoTable {
    var rows: seq<Todo>
    var nextId: int  // the next value the `id` sequence hands out

    /** Ids are unique and below the sequence's next value. */
    ghost predicate Valid()
      reads this
    {
      && 1 <= nextId
      && (forall i :: 0 <= i < |rows| ==> rows[i].id < nextId)
      && (forall i, j :: 0 <= i < j < |rows| ==> rows[i].id != rows[j].id)
    }

    constructor ()
      ensures Valid() && rows == [] && nextId == 1
    {
      rows := [];
      nextId := 1;
    }

    /** `create`: INSERT one row with a fresh id and `done` at its default, false;
        RETURNING its id and creation date. */
    method Create(accountId: Int32, title: string, body: Option<string>, creationDate: Timestamp, lastEditDate: Timestamp)
      returns (r: Result<seq<CreatedRow>, PgError>)
      requires Valid()
      modifies this
      ensures Valid()
      ensures old(nextId) > MaxInt32 ==> r == Err(SequenceExhausted) && rows == old(rows) && nextId == old(nextId)
      ensures old(nextId) <= MaxInt32 ==>
                && r == Ok([CreatedRow(old(nextId), creationDate)])
                && rows == old(rows) + [Todo(old(nextId), accountId, title, body, creationDate, lastEditDate, false)]
                && nextId == old(nextId) + 1
    {
      if nextId > MaxInt32 {
        return Err(SequenceExhausted);
      }
      var id: Int32 := nextId;
      rows := rows + [Todo(id, accountId, title, body, creationDate, lastEditDate, false)];
      nextId := nextId + 1;
      return Ok([CreatedRow(id, creationDate)]);
    }

    /** `edit`: update the one row with this account and id, if there is one. */
    method Edit(title: Option<string>, body: Option<string>, done: Option<bool>, lastEditDate: Timestamp,
                accountId: Int32, id: Int32)
      returns (r: seq<EditedRow>)
      requires Valid()
      modifies this
      ensures Valid() && nextId == old(nextId)
      ensures |rows| == |old(rows)|
      ensures forall i :: 0 <= i < |rows| ==>
                rows[i] == if Targets(old(rows)[i], accountId, id)
                           then Updated(old(rows)[i], title, body, done, lastEditDate)
                           else old(rows)[i]
      ensures r == if exists i :: 0 <= i < |old(rows)| && Targets(old(rows)[i], accountId, id)
                   then [EditedRow(id, lastEditDate)] else []
    {
      var updated: seq<Todo> := [];
      r := [];
      var i := 0;
      while i < |rows|
        invariant 0 <= i <= |rows| && |updated| == i
        invariant forall k :: 0 <= k < i ==>
                    updated[k] == if Targets(rows[k], accountId, id)
                                  then Updated(rows[k], title, body, done, lastEditDate)
                                  else rows[k]
        invariant r == if exists k :: 0 <= k < i && Targets(rows[k], accountId, id)
                       then [EditedRow(id, lastEditDate)] else []
      {
        var t := rows[i];
        if Targets(t, accountId, id) {
          assert forall k :: 0 <= k < i ==> !Targets(rows[k], accountId, id);
          updated := updated + [Updated(t, title, body, done, lastEditDate)];
          r := r + [EditedRow(t.id, lastEditDate)];
        } else {
          updated := updated + [t];
        }
        i := i + 1;
      }
      rows := updated;
    }

    /** `delete`: remove this account's rows whose id is listed; return their ids. */
    method Delete(accountId: Int32, ids: seq<Int32>) returns (r: seq<Int32>)
      requires Valid()
      modifies this
      ensures Valid() && nextId == old(nextId)
      ensures rows == Survivors(old(rows), accountId, ids)
      ensures r == RemovedIds(old(rows), accountId, ids)
    {
      var kept: seq<Todo> := [];
      r := [];
      var i := 0;
      while i < |rows|
        invariant 0 <= i <= |rows|
        invariant kept == Survivors(rows[..i], accountId, ids)
        invariant r == RemovedIds(rows[..i], accountId, ids)
      {
        assert rows[..i + 1][..i] == rows[..i];
        if Doomed(rows[i], accountId, ids) {
          r := r + [rows[i].id];
        } else {
          kept := kept + [rows[i]];
        }
        i := i + 1;
      }
      assert rows[..i] == rows;
      SurvivorsAreExactlyTheUnselected(rows, accountId, ids);
      SurvivorsKeepUniqueIds(rows, accountId, ids);
      forall k | 0 <= k < |kept| ensures kept[k].id < nextId {
        assert kept[k] in rows;
      }
      rows := kept;
    }

    /** `reset`: DELETE every row; the `id` sequence keeps counting. */
    method Reset()
      requires Valid()
      modifies this
      ensures Valid() && rows == [] && nextId == old(nextId)
    {
      rows := [];
    }
  }

  /** The DELETE keeps the uniqueness of ids. */
  lemma {:induction false} SurvivorsKeepUniqueIds(rows: seq<Todo>, accountId: Int32, ids: seq<Int32>)
    requires forall i, j :: 0 <= i < j < |rows| ==> rows[i].id != rows[j].id
    ensures forall i, j :: 0 <= i < j < |Survivors(rows, accountId, ids)| ==>
              Survivors(rows, accountId, ids)[i].id != Survivors(rows, accountId, ids)[j].id
  {
    if rows != [] {
      var init, last := rows[..|rows| - 1], rows[|rows| - 1];
      SurvivorsKeepUniqueIds(init, accountId, ids);
      SurvivorsAreExactlyTheUnselected(init, accountId, ids);
      var prev := Survivors(init, accountId, ids);
      forall x | x in prev ensures x.id != last.id {
        assert x in init;
        var i :| 0 <= i < |init| && init[i] == x;
        assert rows[i] == x;
      }
    }
  }
}
