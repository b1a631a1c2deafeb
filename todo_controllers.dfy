/** The four `/api/todo` handlers. Each runs `Guard::auth` with the body's `account_id`
    first; only when it passes does the handler run its statement on a pooled connection
    inside `web::block`, and shape the returned rows into the response's `data`. */
module TodoControllers {
  import opened Wrappers
  import opened Common
  import opened SessionStore
  import opened TodoModels
  import opened TodoErrors
  import opened Guards

  datatype TodoCreateRequest = TodoCreateRequest(accountId: Int32, title: string, body: Option<string>)
  /** `offset` and `limit` are `i64`s in the source; any integer is representable here. */
  datatype TodoGetRequest = TodoGetRequest(accountId: Int32, offset: Option<int>, limit: Option<int>)
  datatype TodoEditRequest = TodoEditRequest(accountId: Int32, id: Int32, title: Option<string>,
                                             body: Option<string>, done: Option<bool>)
  datatype TodoDeleteRequest = TodoDeleteRequest(accountId: Int32, todos: seq<Int32>)

  datatype TodoCreateResponse = TodoCreateResponse(id: Int32, creationDate: Timestamp)
  datatype TodoGetResponse = TodoGetResponse(todos: seq<Todo>)
  /** `last_edit_date` is left out of the JSON when it is None. */
  datatype TodoEditResponse = TodoEditResponse(id: Int32, lastEditDate: Option<Timestamp>)
  datatype TodoDeleteResponse = TodoDeleteResponse(todos: seq<Int32>)

  /** How `web::block` ends: the closure ran, or the pool canceled it before it ran. */
  datatype Blocking = Runs | Cancels

  /** The `match rows` of `todo_create`: the first returned row's id and creation date. */
  function CreateResponse(rows: seq<CreatedRow>): (r: TodoCreateResponse)
    requires |rows| > 0
    ensures r.id == rows[0].id && r.creationDate == rows[0].creationDate
  {
    TodoCreateResponse(rows[0].id, rows[0].creationDate)
  }

  /** The `match rows` of `todo_edit`: no row means the requested id and no date;
      otherwise the first row's id and date. */
  function EditResponse(requestedId: Int32, rows: seq<EditedRow>): (r: TodoEditResponse)
    ensures r.lastEditDate.None? <==> |rows| == 0
    ensures |rows| == 0 ==> r.id == requestedId
    ensures |rows| > 0 ==> r.id == rows[0].id && r.lastEditDate == Some(rows[0].lastEditDate)
  {
    if |rows| == 0 then TodoEditResponse(requestedId, None)
    else TodoEditResponse(rows[0].id, Some(rows[0].lastEditDate))
  }

  /** Since the UPDATE only returns the row it selected by id, the answer always names
      the requested id, whether or not a row was changed. */
  lemma EditResponseNamesTheRequest(requestedId: Int32, rows: seq<EditedRow>)
    requires forall k :: 0 <= k < |rows| ==> rows[k].id == requestedId
    ensures EditResponse(requestedId, rows).id == requestedId
  {
  }

  /** `todo_create`. */
  method TodoCreate(cookies: seq<Cookie>, state: AppState, table: TodoTable, req: TodoCreateRequest,
                    now: Timestamp, pool: Blocking)
    returns (r: Result<TodoCreateResponse, TodoError>)
    requires table.Valid()
    modifies table
    ensures table.Valid()
    ensures Auth(cookies, state.redis, req.accountId).Err? ==> r == Err(Forbidden) && unchanged(table)
    ensures Auth(cookies, state.redis, req.accountId).Ok? && pool == Cancels ==> r == Err(Server) && unchanged(table)
    ensures Auth(cookies, state.redis, req.accountId).Ok? && pool == Runs ==>
              if old(table.nextId) > MaxInt32 then
                r == Err(Db(SequenceExhausted)) && table.rows == old(table.rows) && table.nextId == old(table.nextId)
              else
                && r == Ok(TodoCreateResponse(old(table.nextId), now))
                && table.rows == old(table.rows) + [Todo(old(table.nextId), req.accountId, req.title, req.body, now, now, false)]
                && table.nextId == old(table.nextId) + 1
  {
    var auth := Auth(cookies, state.redis, req.accountId);
    if auth.Err? {
      return Err(auth.error);
    }
    if pool == Cancels {
      return Err(FromDbErrors(FromBlocking(BlockingError.Canceled)));
    }
    var rows := table.Create(req.accountId, req.title, req.body, now, now);
    match rows {
      case Ok(created) => r := Ok(CreateResponse(created));
      case Err(e) => r := Err(FromDbErrors(FromBlocking(BlockingError.Error(e))));
    }
  }

  /** `todo_get`: it changes nothing. */
  method TodoGet(cookies: seq<Cookie>, state: AppState, table: TodoTable, req: TodoGetRequest, pool: Blocking)
    returns (r: Result<TodoGetResponse, TodoError>)
    ensures Auth(cookies, state.redis, req.accountId).Err? ==> r == Err(Forbidden)
    ensures Auth(cookies, state.redis, req.accountId).Ok? && pool == Cancels ==> r == Err(Server)
    ensures Auth(cookies, state.redis, req.accountId).Ok? && pool == Runs ==>
              match Query(table.rows, req.accountId, req.offset, req.limit)
              case Ok(todos) => r == Ok(TodoGetResponse(todos))
              case Err(e) => r == Err(Db(e))
  {
    var auth := Auth(cookies, state.redis, req.accountId);
    if auth.Err? {
      return Err(auth.error);
    }
    if pool == Cancels {
      return Err(FromDbErrors(FromBlocking(BlockingError.Canceled)));
    }
    var rows := Query(table.rows, req.accountId, req.offset, req.limit);
    match rows {
      case Ok(todos) => r := Ok(TodoGetResponse(todos));
      case Err(e) => r := Err(FromDbErrors(FromBlocking(BlockingError.Error(e))));
    }
  }

  /** A guarded `todo_get` with no negative window answers with the account's todos only,
      newest first, at most `limit` of them. */
  lemma GetAnswersOnlyTheAccountsTodos(rows: seq<Todo>, accountId: Int32, offset: Option<nat>, limit: Option<nat>)
    ensures Query(rows, accountId, offset, limit).Ok?
    ensures var todos := Query(rows, accountId, offset, limit).value;
            && (forall t :: t in todos ==> t in rows && t.accountId == accountId)
            && NewestFirst(todos)
            && (limit.Some? ==> |todos| <= limit.value)
  {
    QueryIsWindowOfArrangement(rows, accountId, offset, limit);
  }

  /** `todo_edit`: the answer names the requested todo, with the new date exactly when
      a row of this account had that id. */
  method TodoEdit(cookies: seq<Cookie>, state: AppState, table: TodoTable, req: TodoEditRequest,
                  now: Timestamp, pool: Blocking)
    returns (r: Result<TodoEditResponse, TodoError>)
    requires table.Valid()
    modifies table
    ensures table.Valid()
    ensures Auth(cookies, state.redis, req.accountId).Err? ==> r == Err(Forbidden) && unchanged(table)
    ensures Auth(cookies, state.redis, req.accountId).Ok? && pool == Cancels ==> r == Err(Server) && unchanged(table)
    ensures Auth(cookies, state.redis, req.accountId).Ok? && pool == Runs ==>
              && r == Ok(TodoEditResponse(req.id,
                           if exists i :: 0 <= i < |old(table.rows)| && Targets(old(table.rows)[i], req.accountId, req.id)
                           then Some(now) else None))
              && |table.rows| == |old(table.rows)| && table.nextId == old(table.nextId)
              && forall i :: 0 <= i < |table.rows| ==>
                   table.rows[i] == if Targets(old(table.rows)[i], req.accountId, req.id)
                                    then Updated(old(table.rows)[i], req.title, req.body, req.done, now)
                                    else old(table.rows)[i]
  {
    var auth := Auth(cookies, state.redis, req.accountId);
    if auth.Err? {
      return Err(auth.error);
    }
    if pool == Cancels {
      return Err(FromDbErrors(FromBlocking(BlockingError.Canceled)));
    }
    var todoId := req.id;
    var rows := table.Edit(req.title, req.body, req.done, now, req.accountId, req.id);
    r := Ok(EditResponse(todoId, rows));
  }

  /** `todo_delete`: the answer lists the removed ids in table order. */
  method TodoDelete(cookies: seq<Cookie>, state: AppState, table: TodoTable, req: TodoDeleteRequest, pool: Blocking)
    returns (r: Result<TodoDeleteResponse, TodoError>)
    requires table.Valid()
    modifies table
    ensures table.Valid()
    ensures Auth(cookies, state.redis, req.accountId).Err? ==> r == Err(Forbidden) && unchanged(table)
    ensures Auth(cookies, state.redis, req.accountId).Ok? && pool == Cancels ==> r == Err(Server) && unchanged(table)
    ensures Auth(cookies, state.redis, req.accountId).Ok? && pool == Runs ==>
              && r == Ok(TodoDeleteResponse(RemovedIds(old(table.rows), req.accountId, req.todos)))
              && table.rows == Survivors(old(table.rows), req.accountId, req.todos)
              && table.nextId == old(table.nextId)
  {
    var auth := Auth(cookies, state.redis, req.accountId);
    if auth.Err? {
      return Err(auth.error);
    }
    if pool == Cancels {
      return Err(FromDbErrors(FromBlocking(BlockingError.Canceled)));
    }
    var ids := table.Delete(req.accountId, req.todos);
    r := Ok(TodoDeleteResponse(ids));
  }
}
