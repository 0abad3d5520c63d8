/**
  The user record, the two request payloads and their binding rules
  (backend/internal/models/user.go), together with the positional mapping
  between a result row of the users table and a User.

  Timestamps are modelled as integers on the store's clock. Name lengths are
  counted in Unicode code points, which is what the validator's min/max tags
  count for strings (a Dafny char is a Unicode scalar value).
*/
module Models {
  import opened Wrappers

  /** One row of the users table, fields in the order every query lists them. */
  datatype User = User(id: int, email: string, name: string, createdAt: int, updatedAt: int)

  datatype CreateUserRequest = CreateUserRequest(email: string, name: string)

  /** Both fields are plain strings, not `*string`: "not sent" and "" are the same value. */
  datatype UpdateUserRequest = UpdateUserRequest(email: string, name: string)

  const MinNameLength: nat := 2
  const MaxNameLength: nat := 100

  /** The `min=2,max=100` tags. */
  predicate NameLengthOk(name: string) {
    MinNameLength <= |name| <= MaxNameLength
  }

  /** `binding:"required,email"` on Email and `binding:"required,min=2,max=100"` on Name.
      `isEmail` is the validator library's e-mail syntax check. */
  predicate ValidCreate(req: CreateUserRequest, isEmail: string -> bool) {
    && req.email != "" && isEmail(req.email)
    && req.name != "" && NameLengthOk(req.name)
  }

  /** `omitempty` on both fields: an empty value skips the remaining rules of that field. */
  predicate ValidUpdate(req: UpdateUserRequest, isEmail: string -> bool) {
    && (req.email == "" || isEmail(req.email))
    && (req.name == "" || NameLengthOk(req.name))
  }

  /** Whatever passes the create rules passes the update rules. */
  lemma CreateValidIsUpdateValid(email: string, name: string, isEmail: string -> bool)
    requires ValidCreate(CreateUserRequest(email, name), isEmail)
    ensures ValidUpdate(UpdateUserRequest(email, name), isEmail)
  {
  }

  /** The empty update is accepted, although the empty create is not. */
  lemma EmptyUpdateAccepted(isEmail: string -> bool)
    ensures ValidUpdate(UpdateUserRequest("", ""), isEmail)
    ensures !ValidCreate(CreateUserRequest("", ""), isEmail)
  {
  }

  // ---------------------------------------------------------------------
  // JSON binding (gin's ShouldBindJSON: decode, then validate)
  // ---------------------------------------------------------------------

  /** A request body as the JSON decoder sees it. `Malformed` is any body the
      decoder rejects: bad syntax, an empty body, a number, string or array at
      the top level, or a field of the wrong type. The literal `null` is not
      rejected: decoding it into a struct has no effect, so every field keeps
      its zero value "". For an object, a field is `None` when it is missing
      or `null`, which Go's decoder treats alike for a plain string field. */
  datatype RequestBody = Malformed | JsonNull | JsonObject(email: Option<string>, name: Option<string>)

  /** Why binding failed; the text of the library's error is not modelled. */
  datatype BindFailure = DecodeFailed | ValidationFailed

  /** Go's decoder leaves a missing or null string field at its zero value "". */
  function DecodeField(f: Option<string>): string {
    f.GetOr("")
  }

  /** The `email` and `name` the decoder leaves in the request struct. */
  function DecodedEmail(body: RequestBody): string {
    if body.JsonObject? then DecodeField(body.email) else ""
  }

  function DecodedName(body: RequestBody): string {
    if body.JsonObject? then DecodeField(body.name) else ""
  }

  function BindCreate(body: RequestBody, isEmail: string -> bool): (r: Result<CreateUserRequest, BindFailure>)
    ensures r.Success? ==> r.value == CreateUserRequest(DecodedEmail(body), DecodedName(body))
    ensures r.Success? ==> ValidCreate(r.value, isEmail)
    ensures r.Success? <==> !body.Malformed? && ValidCreate(CreateUserRequest(DecodedEmail(body), DecodedName(body)), isEmail)
    ensures r.Failure? ==> r.error == if body.Malformed? then DecodeFailed else ValidationFailed
  {
    if body.Malformed? then Failure(DecodeFailed)
    else
      var req := CreateUserRequest(DecodedEmail(body), DecodedName(body));
      if ValidCreate(req, isEmail) then Success(req) else Failure(ValidationFailed)
  }

  function BindUpdate(body: RequestBody, isEmail: string -> bool): (r: Result<UpdateUserRequest, BindFailure>)
    ensures r.Success? ==> r.value == UpdateUserRequest(DecodedEmail(body), DecodedName(body))
    ensures r.Success? ==> ValidUpdate(r.value, isEmail)
    ensures r.Success? <==> !body.Malformed? && ValidUpdate(UpdateUserRequest(DecodedEmail(body), DecodedName(body)), isEmail)
    ensures r.Failure? ==> r.error == if body.Malformed? then DecodeFailed else ValidationFailed
  {
    if body.Malformed? then Failure(DecodeFailed)
    else
      var req := UpdateUserRequest(DecodedEmail(body), DecodedName(body));
      if ValidUpdate(req, isEmail) then Success(req) else Failure(ValidationFailed)
  }

  /** The body `null` binds like the empty object: an update with both fields
      "", which passes validation, and a create that fails it. */
  lemma NullBodyIsEmptyObject(isEmail: string -> bool)
    ensures BindUpdate(JsonNull, isEmail) == BindUpdate(JsonObject(None, None), isEmail)
    ensures BindUpdate(JsonNull, isEmail) == Success(UpdateUserRequest("", ""))
    ensures BindCreate(JsonNull, isEmail) == BindCreate(JsonObject(None, None), isEmail)
    ensures BindCreate(JsonNull, isEmail) == Failure(ValidationFailed)
  {
    EmptyUpdateAccepted(isEmail);
  }

  /** An update body that leaves a field out binds to exactly what the body
      that sends that field as "" binds to. */
  lemma OmittedFieldIsEmptyString(name: Option<string>, email: Option<string>, isEmail: string -> bool)
    ensures BindUpdate(JsonObject(None, name), isEmail) == BindUpdate(JsonObject(Some(""), name), isEmail)
    ensures BindUpdate(JsonObject(email, None), isEmail) == BindUpdate(JsonObject(email, Some("")), isEmail)
  {
  }

  /** A well-formed create body missing either field always fails validation. */
  lemma CreateNeedsBothFields(email: Option<string>, name: Option<string>, isEmail: string -> bool)
    requires email.None? || name.None?
    ensures BindCreate(JsonObject(email, name), isEmail) == Failure(ValidationFailed)
  {
  }

  // ---------------------------------------------------------------------
  // Result rows and positional scanning
  // ---------------------------------------------------------------------

  /** A column value as the database driver delivers it. */
  datatype SqlValue = SqlNull | SqlInt(i: int) | SqlText(text: string) | SqlTime(t: int)

  type Row = seq<SqlValue>

  /** The width of every SELECT and RETURNING clause on the users table:
      id, email, name, created_at, updated_at. */
  const UserColumnCount := 5

  /** The row the store delivers for a stored user. */
  function RowOf(u: User): (row: Row)
    ensures |row| == UserColumnCount
  {
    [SqlInt(u.id), SqlText(u.email), SqlText(u.name), SqlTime(u.createdAt), SqlTime(u.updatedAt)]
  }

  /** `rows.Scan(&user.ID, &user.Email, &user.Name, &user.CreatedAt, &user.UpdatedAt)`:
      the i-th column goes into the i-th field; a wrong column count, a NULL or a
      value of the wrong kind is a scan error. */
  function ScanUser(row: Row): (r: Option<User>)
  {
    if |row| != UserColumnCount then None
    else if !(row[0].SqlInt? && row[1].SqlText? && row[2].SqlText? && row[3].SqlTime? && row[4].SqlTime?) then None
    else Some(User(row[0].i, row[1].text, row[2].text, row[3].t, row[4].t))
  }

  /** Scanning a stored user's row gives that user back. */
  lemma ScanRowOf(u: User)
    ensures ScanUser(RowOf(u)) == Some(u)
  {
  }

  /** The scan and the store's row layout are inverse to each other. */
  lemma ScanIsPositional(row: Row, u: User)
    ensures ScanUser(row) == Some(u) <==> row == RowOf(u)
  {
    if row == RowOf(u) {
      ScanRowOf(u);
    }
  }

  /** No row with a NULL column scans into a User. */
  lemma ScanRejectsNull(row: Row, k: nat)
    requires k < |row| && row[k] == SqlNull
    ensures ScanUser(row).None?
  {
  }
}
