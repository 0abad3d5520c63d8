/**
  The five gin handlers of backend/internal/handlers/user.go. Each takes the
  store as a parameter (the Go handlers reach it through the global
  `database.DB`), runs its single SQL statement through the Store module and
  shapes one response.

  Failures of the store that the statements themselves do not explain (a lost
  connection, a driver error) are inputs: `storeFails` means the statement
  did not run and returned an error.
*/
module Handlers {
  import opened Wrappers
  import opened Models
  import opened Strconv
  import opened Store

  const StatusOK := 200
  const StatusCreated := 201
  const StatusBadRequest := 400
  const StatusNotFound := 404
  const StatusInternalServerError := 500

  /** The `gin.H` envelopes. `BindError` stands for `{"error": err.Error()}`
      with the binding library's own message. */
  datatype Payload =
    | One(user: User)
    | Many(users: seq<User>)
    | Error(error: string)
    | BindError(failure: BindFailure)
    | Message(message: string)

  datatype Response = Response(status: int, payload: Payload)

  const InvalidId := Response(StatusBadRequest, Error("Invalid user ID"))
  const UserNotFound := Response(StatusNotFound, Error("User not found"))

  /** How the cursor of the list query behaves. */
  datatype CursorFault =
    | Healthy
      /** `database.DB.Query` returns an error. */
    | QueryFails
      /** `rows.Scan` fails on the row with this index. */
    | ScanFailsAt(row: nat)
      /** `rows.Next()` reports no more rows before the row with this index
          (connection lost); the handler never consults `rows.Err()`. */
    | StopsAt(row: nat)

  function Min(a: int, b: int): int {
    if a <= b then a else b
  }

  /** A prefix of a listing keeps its order and its rows; the whole listing
      holds every stored row. */
  lemma PrefixOfListing(db: UsersTable, n: nat)
    requires db.Valid()
    requires n <= |db.SelectAllByCreatedDesc()|
    ensures var us := db.SelectAllByCreatedDesc()[..n];
      && SortedByCreatedDesc(us)
      && IdsStrictlyDescending(us)
      && (forall k :: 0 <= k < |us| ==> us[k].id in db.rows && db.rows[us[k].id] == us[k])
      && (n == |db.SelectAllByCreatedDesc()| ==> forall id :: id in db.rows ==> db.rows[id] in us)
  {
    db.SelectAllIsOrderedListing();
    assert n == |db.SelectAllByCreatedDesc()| ==> db.SelectAllByCreatedDesc()[..n] == db.SelectAllByCreatedDesc();
  }

  /** GET /users. */
  method GetUsers(db: UsersTable, fault: CursorFault) returns (r: Response)
    requires db.Valid()
    ensures var all := db.SelectAllByCreatedDesc();
      match fault
      case Healthy => r == Response(StatusOK, Many(all))
      case QueryFails => r == Response(StatusInternalServerError, Error("Failed to fetch users"))
      case ScanFailsAt(k) =>
        r == if k < |all| then Response(StatusInternalServerError, Error("Failed to scan user"))
             else Response(StatusOK, Many(all))
      case StopsAt(k) => r == Response(StatusOK, Many(all[..Min(k, |all|)]))
    ensures r.status == StatusOK ==>
      && r.payload.Many?
      && SortedByCreatedDesc(r.payload.users)
      && IdsStrictlyDescending(r.payload.users)
      && forall k :: 0 <= k < |r.payload.users| ==> r.payload.users[k].id in db.rows && db.rows[r.payload.users[k].id] == r.payload.users[k]
    ensures r.status != StatusOK ==> r.status == StatusInternalServerError && r.payload.Error?
    ensures fault == Healthy ==> forall id :: id in db.rows ==> db.rows[id] in r.payload.users
  {
    if fault == QueryFails {
      return Response(StatusInternalServerError, Error("Failed to fetch users"));
    }
    var all := db.SelectAllByCreatedDesc();
    var users: seq<User> := [];
    var i := 0;
    while i < |all| && fault != StopsAt(i)
      invariant 0 <= i <= |all|
      invariant users == all[..i]
      invariant fault.ScanFailsAt? ==> i <= fault.row
      invariant fault.StopsAt? ==> i <= fault.row
    {
      ScanRowOf(all[i]);
      var scanned := ScanUser(RowOf(all[i]));
      if scanned.None? || fault == ScanFailsAt(i) {
        return Response(StatusInternalServerError, Error("Failed to scan user"));
      }
      users := users + [scanned.value];
      assert all[..i + 1] == all[..i] + [all[i]];
      i := i + 1;
    }
    PrefixOfListing(db, i);
    if i == |all| {
      assert users == all;
    }
    return Response(StatusOK, Many(users));
  }

  /** GET /users/:id. Any failure of the query, a missing row included, is a 404. */
  method GetUser(db: UsersTable, idParam: string, storeFails: bool) returns (r: Response)
    requires db.Valid()
    ensures Atoi(idParam).None? ==> r == InvalidId
    ensures Atoi(idParam).Some? ==>
      var id := Atoi(idParam).value;
      r == if !storeFails && id in db.rows then Response(StatusOK, One(db.rows[id])) else UserNotFound
  {
    var parsed := Atoi(idParam);
    if parsed.None? {
      return InvalidId;
    }
    var found := db.SelectById(parsed.value);
    var scanned := if found.Some? then ScanUser(RowOf(found.value)) else None;
    if found.Some? {
      ScanRowOf(found.value);
    }
    if storeFails || scanned.None? {
      return UserNotFound;
    }
    return Response(StatusOK, One(scanned.value));
  }

  /** POST /users. A duplicate email is a store error like any other: 500. */
  method CreateUser(db: UsersTable, body: RequestBody, isEmail: string -> bool, storeFails: bool) returns (r: Response)
    requires db.Valid()
    modifies db
    ensures db.Valid()
    ensures BindCreate(body, isEmail).Failure? ==>
      r == Response(StatusBadRequest, BindError(BindCreate(body, isEmail).error)) && unchanged(db)
    ensures BindCreate(body, isEmail).Success? && storeFails ==>
      r == Response(StatusInternalServerError, Error("Failed to create user")) && unchanged(db)
    ensures BindCreate(body, isEmail).Success? && !storeFails ==>
      var req := BindCreate(body, isEmail).value;
      && db.nextId == old(db.nextId) + 1 && db.now == old(db.now)
      && (EmailTaken(old(db.rows), req.email) ==>
            r == Response(StatusInternalServerError, Error("Failed to create user")) && db.rows == old(db.rows))
      && (!EmailTaken(old(db.rows), req.email) ==>
            var u := User(old(db.nextId), req.email, req.name, old(db.now), old(db.now));
            && old(db.nextId) !in old(db.rows)
            && r == Response(StatusCreated, One(u))
            && db.rows == old(db.rows)[u.id := u])
  {
    var bound := BindCreate(body, isEmail);
    if bound.Failure? {
      return Response(StatusBadRequest, BindError(bound.error));
    }
    var req := bound.value;
    if storeFails {
      return Response(StatusInternalServerError, Error("Failed to create user"));
    }
    var inserted := db.Insert(req.email, req.name);
    var scanned := if inserted.Some? then ScanUser(RowOf(inserted.value)) else None;
    if inserted.Some? {
      ScanRowOf(inserted.value);
    }
    if scanned.None? {
      return Response(StatusInternalServerError, Error("Failed to create user"));
    }
    return Response(StatusCreated, One(scanned.value));
  }

  /** The statement parameters the handler passes for `$1` and `$2`. Go strings
      are never NULL, so both parameters are always present. */
  function UpdateParams(req: UpdateUserRequest): (Option<string>, Option<string>) {
    (Some(req.email), Some(req.name))
  }

  /** So COALESCE never falls back to the stored value: a field the client
      left out is written as "". */
  lemma UpdateParamsNeverNull(req: UpdateUserRequest, current: User)
    ensures Coalesce(UpdateParams(req).0, current.email) == req.email
    ensures Coalesce(UpdateParams(req).1, current.name) == req.name
  {
  }

  /** PUT /users/:id. A missing row makes the RETURNING scan fail: 500, not 404. */
  method UpdateUser(db: UsersTable, idParam: string, body: RequestBody, isEmail: string -> bool, storeFails: bool)
    returns (r: Response)
    requires db.Valid()
    modifies db
    ensures db.Valid()
    ensures Atoi(idParam).None? ==> r == InvalidId && unchanged(db)
    ensures Atoi(idParam).Some? && BindUpdate(body, isEmail).Failure? ==>
      r == Response(StatusBadRequest, BindError(BindUpdate(body, isEmail).error)) && unchanged(db)
    ensures Atoi(idParam).Some? && BindUpdate(body, isEmail).Success? ==>
      var id := Atoi(idParam).value;
      var req := BindUpdate(body, isEmail).value;
      && db.nextId == old(db.nextId) && db.now == old(db.now)
      && (storeFails || id !in old(db.rows) || EmailTakenByOther(old(db.rows), req.email, id) ==>
            r == Response(StatusInternalServerError, Error("Failed to update user")) && db.rows == old(db.rows))
      && (!storeFails && id in old(db.rows) && !EmailTakenByOther(old(db.rows), req.email, id) ==>
            var u := User(id, req.email, req.name, old(db.rows)[id].createdAt, old(db.now));
            && r == Response(StatusOK, One(u))
            && db.rows == old(db.rows)[id := u])
  {
    var parsed := Atoi(idParam);
    if parsed.None? {
      return InvalidId;
    }
    var id := parsed.value;
    var bound := BindUpdate(body, isEmail);
    if bound.Failure? {
      return Response(StatusBadRequest, BindError(bound.error));
    }
    var req := bound.value;
    if storeFails {
      return Response(StatusInternalServerError, Error("Failed to update user"));
    }
    var (emailParam, nameParam) := UpdateParams(req);
    var updated := db.Update(id, emailParam, nameParam);
    var scanned := if updated.Some? then ScanUser(RowOf(updated.value)) else None;
    if updated.Some? {
      ScanRowOf(updated.value);
    }
    if scanned.None? {
      return Response(StatusInternalServerError, Error("Failed to update user"));
    }
    return Response(StatusOK, One(scanned.value));
  }

  /** DELETE /users/:id. */
  method DeleteUser(db: UsersTable, idParam: string, storeFails: bool) returns (r: Response)
    requires db.Valid()
    modifies db
    ensures db.Valid()
    ensures db.nextId == old(db.nextId) && db.now == old(db.now)
    ensures Atoi(idParam).None? ==> r == InvalidId && db.rows == old(db.rows)
    ensures Atoi(idParam).Some? ==>
      var id := Atoi(idParam).value;
      && (storeFails ==>
            r == Response(StatusInternalServerError, Error("Failed to delete user")) && db.rows == old(db.rows))
      && (!storeFails && id !in old(db.rows) ==> r == UserNotFound && db.rows == old(db.rows))
      && (!storeFails && id in old(db.rows) ==>
            r == Response(StatusOK, Message("User deleted successfully")) && db.rows == old(db.rows) - {id})
  {
    var parsed := Atoi(idParam);
    if parsed.None? {
      return InvalidId;
    }
    if storeFails {
      return Response(StatusInternalServerError, Error("Failed to delete user"));
    }
    var affected := db.Delete(parsed.value);
    if affected == 0 {
      return UserNotFound;
    }
    return Response(StatusOK, Message("User deleted successfully"));
  }

  /** Once a delete has run, the same id reads as not found. */
  method DeleteThenGet(db: UsersTable, idParam: string) returns (deleted: Response, read: Response)
    requires db.Valid()
    modifies db
    ensures Atoi(idParam).Some? ==> read == UserNotFound
    ensures Atoi(idParam).Some? ==>
      deleted == if Atoi(idParam).value in old(db.rows) then Response(StatusOK, Message("User deleted successfully"))
                 else UserNotFound
    ensures Atoi(idParam).None? ==> deleted == InvalidId && read == InvalidId && db.rows == old(db.rows)
  {
    deleted := DeleteUser(db, idParam, false);
    read := GetUser(db, idParam, false);
  }

  /** Create a user, read it back, delete it, read it again. */
  method CreateReadDeleteScenario(db: UsersTable, isEmail: string -> bool)
    returns (created: Response, read: Response, deleted: Response, readAgain: Response)
    requires db.Valid()
    requires isEmail("ann@x.com") && !EmailTaken(db.rows, "ann@x.com")
    requires db.nextId <= MaxInt64
    modifies db
    ensures created.status == StatusCreated && created.payload.One?
    ensures created.payload.user.email == "ann@x.com" && created.payload.user.name == "Ann"
    ensures created.payload.user.id == old(db.nextId) && old(db.nextId) !in old(db.rows)
    ensures read == Response(StatusOK, created.payload)
    ensures deleted == Response(StatusOK, Message("User deleted successfully"))
    ensures readAgain == UserNotFound
    ensures db.rows == old(db.rows)
  {
    created := CreateUser(db, JsonObject(Some("ann@x.com"), Some("Ann")), isEmail, false);
    var id := created.payload.user.id;
    AtoiItoa(id);
    read := GetUser(db, Itoa(id), false);
    deleted := DeleteUser(db, Itoa(id), false);
    readAgain := GetUser(db, Itoa(id), false);
  }
}
