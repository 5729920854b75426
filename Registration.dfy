/** The two sign-up endpoints. `register` validates name, email and password in
    that order, checks for an existing account under the lower-cased email and
    stores a USER with trimmed name and lower-cased email. `register-admin` only
    checks presence, looks the email up exactly as given, and stores an ADMIN with
    the fields verbatim. The password hash is computed outside and passed in; the
    store generates the new row's id, passed in as `newId`. */
module Registration {
  import opened Wrappers
  import opened Text
  import opened Domain
  import opened UserStore
  import Credentials

  const NameError := "Name must be at least 2 characters long"
  const EmailError := "Please provide a valid email address"
  const PasswordError := "Password must be at least 8 characters long"
  const DuplicateError := "An account with this email already exists"
  const AdminMissingError := "Name, email, and password are required"
  const AdminDuplicateError := "User with this email already exists"
  const InternalError := "Internal server error"

  /** The JSON body; an absent member is `None`. */
  datatype Body = Body(name: Option<string>, email: Option<string>, password: Option<string>)

  datatype RegisterResponse =
    | Refused(code: nat, error: string)
    | Created(code: nat, userId: UserId)
    | CreatedAdmin(code: nat, userId: UserId, role: string)

  predicate NameOk(f: Option<string>) {
    Given(f) && |Trim(f.value)| >= 2
  }

  predicate EmailOk(f: Option<string>) {
    Given(f) && '@' in f.value
  }

  predicate PasswordOk(f: Option<string>) {
    Given(f) && |f.value| >= 8
  }

  /** The validation ladder of `register`: the first failing rule, in the order
      name, email, password, decides the message; `None` when all pass. */
  function ValidateRegistration(body: Body): (r: Option<string>)
    ensures r == None <==> NameOk(body.name) && EmailOk(body.email) && PasswordOk(body.password)
    ensures !NameOk(body.name) ==> r == Some(NameError)
    ensures NameOk(body.name) && !EmailOk(body.email) ==> r == Some(EmailError)
    ensures NameOk(body.name) && EmailOk(body.email) && !PasswordOk(body.password) ==> r == Some(PasswordError)
  {
    if !NameOk(body.name) then Some(NameError)
    else if !EmailOk(body.email) then Some(EmailError)
    else if !PasswordOk(body.password) then Some(PasswordError)
    else None
  }

  /** The row `register` stores for a validated body. */
  function NewUser(body: Body, newId: UserId, hash: string): (u: User)
    requires ValidateRegistration(body) == None
    ensures u.role == UserRole && u.id == newId && u.passwordHash == hash
    ensures u.name == Trim(body.name.value) && |u.name| >= 2
    ensures u.email == ToLower(body.email.value) && IsLowerCase(u.email) && '@' in u.email
  {
    var e := body.email.value;
    var i :| 0 <= i < |e| && e[i] == '@';
    assert ToLower(e)[i] == '@';
    User(newId, Trim(body.name.value), ToLower(e), hash, UserRole)
  }

  /** POST /api/auth/register. */
  method Register(table: UserTable, body: Body, newId: UserId, hash: string) returns (resp: RegisterResponse)
    requires table.Valid()
    modifies table
    ensures table.Valid() && table.emailWrites == old(table.emailWrites)
    ensures ValidateRegistration(body).Some? ==>
      resp == Refused(400, ValidateRegistration(body).value) && table.rows == old(table.rows)
    ensures ValidateRegistration(body) == None && FindByEmail(old(table.rows), ToLower(body.email.value)).Some? ==>
      resp == Refused(400, DuplicateError) && table.rows == old(table.rows)
    ensures ValidateRegistration(body) == None && FindByEmail(old(table.rows), ToLower(body.email.value)).None? ==>
      var u := NewUser(body, newId, hash);
      if Insertable(old(table.rows), u) then
        resp == Created(201, newId) && table.rows == old(table.rows) + [u]
      else
        // the unique-constraint error of `create` is reported as a duplicate
        resp == Refused(400, DuplicateError) && table.rows == old(table.rows)
  {
    var invalid := ValidateRegistration(body);
    if invalid.Some? {
      return Refused(400, invalid.value);
    }
    var existing := table.Find(ToLower(body.email.value));
    if existing.Some? {
      return Refused(400, DuplicateError);
    }
    var ok := table.Create(NewUser(body, newId, hash));
    if ok {
      resp := Created(201, newId);
    } else {
      resp := Refused(400, DuplicateError);
    }
  }

  /** The presence check of `register-admin`: no length or format rule applies. */
  function ValidateAdmin(body: Body): (r: Option<string>)
    ensures r == None <==> Given(body.name) && Given(body.email) && Given(body.password)
    ensures r.Some? ==> r.value == AdminMissingError
  {
    if !Given(body.name) || !Given(body.email) || !Given(body.password) then Some(AdminMissingError)
    else None
  }

  /** The row `register-admin` stores: role ADMIN, name and email verbatim. */
  function NewAdmin(body: Body, newId: UserId, hash: string): (u: User)
    requires ValidateAdmin(body) == None
    ensures u.role == AdminRole && u.id == newId && u.passwordHash == hash
    ensures u.name == body.name.value && u.email == body.email.value
  {
    User(newId, body.name.value, body.email.value, hash, AdminRole)
  }

  /** POST /api/auth/register-admin, as written: the email is neither lower-cased for
      the duplicate check nor for storage, and any store error becomes a 500. */
  method RegisterAdmin(table: UserTable, body: Body, newId: UserId, hash: string) returns (resp: RegisterResponse)
    requires table.Valid()
    modifies table
    ensures table.Valid() && table.emailWrites == old(table.emailWrites)
    ensures ValidateAdmin(body).Some? ==> resp == Refused(400, AdminMissingError) && table.rows == old(table.rows)
    ensures ValidateAdmin(body) == None && FindByEmail(old(table.rows), body.email.value).Some? ==>
      resp == Refused(400, AdminDuplicateError) && table.rows == old(table.rows)
    ensures ValidateAdmin(body) == None && FindByEmail(old(table.rows), body.email.value).None? ==>
      var u := NewAdmin(body, newId, hash);
      if Insertable(old(table.rows), u) then
        resp == CreatedAdmin(201, newId, "ADMIN") && table.rows == old(table.rows) + [u]
      else
        resp == Refused(500, InternalError) && table.rows == old(table.rows)
  {
    if ValidateAdmin(body).Some? {
      return Refused(400, AdminMissingError);
    }
    var existing := table.Find(body.email.value);
    if existing.Some? {
      return Refused(400, AdminDuplicateError);
    }
    var admin := NewAdmin(body, newId, hash);
    var ok := table.Create(admin);
    if ok {
      resp := CreatedAdmin(201, admin.id, RoleName(admin.role));
    } else {
      resp := Refused(500, InternalError);
    }
  }

  /** An account created by `register` can sign in with the same address typed in
      any case and a password the hash check accepts. */
  lemma RegisteredUserCanSignIn(rows: seq<User>, body: Body, newId: UserId, hash: string,
                                typed: string, passwordMatches: (string, string) -> bool)
    requires ValidateRegistration(body) == None
    requires FindByEmail(rows, ToLower(body.email.value)).None?
    requires ToLower(typed) == ToLower(body.email.value)
    requires passwordMatches(body.password.value, hash)
    requires !Credentials.IsDemo(typed, body.password.value)
    ensures var u := NewUser(body, newId, hash);
      Credentials.Authorize(Credentials.Form(Some(typed), body.password), Credentials.Available(rows + [u]), passwordMatches)
      == Some(Credentials.PrincipalOf(u))
  {
    var u := NewUser(body, newId, hash);
    FindAfterAppend(rows, u, ToLower(typed));
    assert |typed| == |ToLower(body.email.value)| > 0;
  }

  /** Looking up the email of a row appended to a table that lacked it finds that row. */
  lemma {:induction false} FindAfterAppend(rows: seq<User>, u: User, email: string)
    requires FindByEmail(rows, email).None? && u.email == email
    ensures FindByEmail(rows + [u], email) == Some(u)
  {
    if rows != [] {
      assert (rows + [u])[1..] == rows[1..] + [u];
      FindAfterAppend(rows[1..], u, email);
    }
  }

  /** Looking up an email other than the appended row's gives the same answer as before. */
  lemma {:induction false} FindPastAppend(rows: seq<User>, u: User, email: string)
    requires u.email != email
    ensures FindByEmail(rows + [u], email) == FindByEmail(rows, email)
  {
    if rows != [] {
      assert (rows + [u])[1..] == rows[1..] + [u];
      FindPastAppend(rows[1..], u, email);
    } else {
      assert ([] + [u])[1..] == [];
    }
  }

  /** As written, an administrator registered with a capital letter in the email
      can never sign in with that address: sign-in looks up the lower-cased form,
      which no row holds. */
  lemma MixedCaseAdminCannotSignIn(rows: seq<User>, body: Body, newId: UserId, hash: string,
                                   passwordMatches: (string, string) -> bool)
    requires ValidateAdmin(body) == None
    requires !IsLowerCase(body.email.value)
    requires FindByEmail(rows, ToLower(body.email.value)).None?
    requires !Credentials.IsDemo(body.email.value, body.password.value)
    ensures Credentials.Authorize(Credentials.Form(body.email, body.password),
                                  Credentials.Available(rows + [NewAdmin(body, newId, hash)]), passwordMatches) == None
  {
    ToLowerFixesLowerCase(body.email.value);
    FindPastAppend(rows, NewAdmin(body, newId, hash), ToLower(body.email.value));
  }

  /** The discrepancy on one concrete request: "Boss@Blog.com" is stored verbatim and
      the sign-in with the very same address is refused. */
  lemma MixedCaseAdminExample(passwordMatches: (string, string) -> bool)
    ensures var body := Body(Some("Boss"), Some("Boss@Blog.com"), Some("secret"));
      Credentials.Authorize(Credentials.Form(body.email, body.password),
                            Credentials.Available([NewAdmin(body, "u1", "h")]), passwordMatches) == None
  {
    var body := Body(Some("Boss"), Some("Boss@Blog.com"), Some("secret"));
    assert !IsLowerCase(body.email.value) by {
      assert IsUpper(body.email.value[0]);
    }
    MixedCaseAdminCannotSignIn([], body, "u1", "h", passwordMatches);
  }

  /** The row the corrected `register-admin` stores: like `register`, it keeps
      the lower-cased email. */
  function NewAdminLowercased(body: Body, newId: UserId, hash: string): (u: User)
    requires ValidateAdmin(body) == None
    ensures u.role == AdminRole && u.id == newId && u.passwordHash == hash && u.name == body.name.value
    ensures u.email == ToLower(body.email.value) && IsLowerCase(u.email)
  {
    User(newId, body.name.value, ToLower(body.email.value), hash, AdminRole)
  }

  /** POST /api/auth/register-admin as evidently intended: duplicate check and
      storage both use the lower-cased email, as `register` and sign-in do. */
  method RegisterAdminLowercased(table: UserTable, body: Body, newId: UserId, hash: string)
    returns (resp: RegisterResponse)
    requires table.Valid()
    modifies table
    ensures table.Valid() && table.emailWrites == old(table.emailWrites)
    ensures ValidateAdmin(body).Some? ==> resp == Refused(400, AdminMissingError) && table.rows == old(table.rows)
    ensures ValidateAdmin(body) == None && FindByEmail(old(table.rows), ToLower(body.email.value)).Some? ==>
      resp == Refused(400, AdminDuplicateError) && table.rows == old(table.rows)
    ensures ValidateAdmin(body) == None && FindByEmail(old(table.rows), ToLower(body.email.value)).None? ==>
      var u := NewAdminLowercased(body, newId, hash);
      if Insertable(old(table.rows), u) then
        resp == CreatedAdmin(201, newId, "ADMIN") && table.rows == old(table.rows) + [u]
      else
        resp == Refused(500, InternalError) && table.rows == old(table.rows)
  {
    if ValidateAdmin(body).Some? {
      return Refused(400, AdminMissingError);
    }
    var existing := table.Find(ToLower(body.email.value));
    if existing.Some? {
      return Refused(400, AdminDuplicateError);
    }
    var admin := NewAdminLowercased(body, newId, hash);
    var ok := table.Create(admin);
    if ok {
      resp := CreatedAdmin(201, admin.id, RoleName(admin.role));
    } else {
      resp := Refused(500, InternalError);
    }
  }

  /** With the correction, the new administrator signs in with the address typed in
      any case, and gets the ADMIN role. */
  lemma LowercasedAdminCanSignIn(rows: seq<User>, body: Body, newId: UserId, hash: string,
                                 typed: string, passwordMatches: (string, string) -> bool)
    requires ValidateAdmin(body) == None
    requires FindByEmail(rows, ToLower(body.email.value)).None?
    requires ToLower(typed) == ToLower(body.email.value)
    requires passwordMatches(body.password.value, hash)
    requires !Credentials.IsDemo(typed, body.password.value)
    ensures var u := NewAdminLowercased(body, newId, hash);
      Credentials.Authorize(Credentials.Form(Some(typed), body.password),
                            Credentials.Available(rows + [u]), passwordMatches)
      == Some(Credentials.Principal(newId, u.email, u.name, "ADMIN"))
  {
    var u := NewAdminLowercased(body, newId, hash);
    FindAfterAppend(rows, u, ToLower(typed));
    assert |typed| == |ToLower(body.email.value)| > 0;
  }
}
