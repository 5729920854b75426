/** The credentials provider and the token/session callbacks of the
    authentication configuration. The email is lower-cased before any
    comparison; a static demo principal is checked before the user table;
    password verification is an abstract predicate supplied by the caller. */
module Credentials {
  import opened Wrappers
  import opened Text
  import opened Domain
  import opened UserStore

  const DemoEmail := "admin@blogify.com"
  const DemoPassword := "admin123"

  /** The sign-in form fields as received; an absent field is `None`. */
  datatype Form = Form(email: Option<string>, password: Option<string>)

  /** The user object handed to the token callback. */
  datatype Principal = Principal(id: string, email: string, name: string, role: string)

  /** The user table as `authorize` reaches it: it may fail (raise) on access. */
  datatype StoreView = Unavailable | Available(rows: seq<User>)

  const DemoPrincipal := Principal("demo-admin-001", DemoEmail, "Demo Administrator", "ADMIN")

  function PrincipalOf(u: User): Principal {
    Principal(u.id, u.email, u.name, RoleName(u.role))
  }

  predicate IsDemo(email: string, password: string) {
    ToLower(email) == DemoEmail && password == DemoPassword
  }

  /** `authorize(credentials)`: `None` stands for the `null` result. The result is the
      demo principal exactly for the demo pair (email in any case), and otherwise
      the stored user whose email equals the lower-cased input, exactly when the
      store answers and the password check accepts the stored hash. */
  function Authorize(form: Form, store: StoreView, passwordMatches: (string, string) -> bool): (r: Option<Principal>)
    ensures !Given(form.email) || !Given(form.password) ==> r == None
    ensures Given(form.email) && Given(form.password) && IsDemo(form.email.value, form.password.value) ==>
      r == Some(DemoPrincipal)
    ensures (Given(form.email) && Given(form.password) && !IsDemo(form.email.value, form.password.value)) ==>
      (r.Some? <==>
        store.Available? &&
        FindByEmail(store.rows, ToLower(form.email.value)).Some? &&
        passwordMatches(form.password.value, FindByEmail(store.rows, ToLower(form.email.value)).value.passwordHash))
    ensures r.Some? && r != Some(DemoPrincipal) ==>
      store.Available? &&
      exists u :: u in store.rows && u.email == ToLower(form.email.value) && r == Some(PrincipalOf(u))
  {
    if !Given(form.email) || !Given(form.password) then None
    else
      var email := ToLower(form.email.value);
      var password := form.password.value;
      if email == DemoEmail && password == DemoPassword then Some(DemoPrincipal)
      else if store.Unavailable? then None
      else match FindByEmail(store.rows, email)
        case None => None
        case Some(u) => if passwordMatches(password, u.passwordHash) then Some(PrincipalOf(u)) else None
  }

  /** Sign-in is case-insensitive in the supplied address: two forms whose emails
      agree after lower-casing get the same answer. */
  lemma AuthorizeIgnoresCase(e1: string, e2: string, password: Option<string>, store: StoreView,
                             passwordMatches: (string, string) -> bool)
    requires ToLower(e1) == ToLower(e2)
    requires e1 != "" && e2 != ""
    ensures Authorize(Form(Some(e1), password), store, passwordMatches) ==
            Authorize(Form(Some(e2), password), store, passwordMatches)
  {
  }

  /** The demo pair is accepted without consulting the store, even when it is down. */
  lemma DemoNeedsNoStore(email: string, passwordMatches: (string, string) -> bool)
    requires ToLower(email) == DemoEmail
    ensures Authorize(Form(Some(email), Some(DemoPassword)), Unavailable, passwordMatches) == Some(DemoPrincipal)
  {
  }

  /** The token, kept between requests. `role` is absent until a sign-in sets it. */
  class Token {
    var sub: string
    var role: Option<string>

    constructor (sub: string)
      ensures this.sub == sub && role == None
    {
      this.sub := sub;
      role := None;
    }

    /** The `jwt` callback: copies the role of a freshly signed-in user, and leaves
        the token alone on every later call (when no user is passed). */
    method OnJwt(user: Option<Principal>)
      modifies this
      ensures sub == old(sub)
      ensures role == if user.Some? then Some(user.value.role) else old(role)
    {
      if user.Some? {
        role := Some(user.value.role);
      }
    }
  }

  /** The `user` part of the session sent to the client. */
  class SessionUser {
    var id: string
    var role: Option<string>

    constructor ()
      ensures id == "" && role == None
    {
      id := "";
      role := None;
    }

    /** The `session` callback: when a token is present, the session user takes the
        token's subject as its id and the token's role. */
    method OnSession(token: Token?)
      modifies this
      ensures token != null ==> id == token.sub && role == token.role
      ensures token == null ==> id == old(id) && role == old(role)
    {
      if token != null {
        id := token.sub;
        role := token.role;
      }
    }
  }

  /** A sign-in followed by the two callbacks gives the session the principal's
      role: the chain that the admin routes rely on. */
  method SignInChain(form: Form, store: StoreView, passwordMatches: (string, string) -> bool)
    returns (principal: Option<Principal>, sessionRole: Option<string>)
    ensures principal == Authorize(form, store, passwordMatches)
    ensures principal.Some? ==> sessionRole == Some(principal.value.role)
    ensures principal.None? ==> sessionRole == None
  {
    principal := Authorize(form, store, passwordMatches);
    var token := new Token(if principal.Some? then principal.value.id else "");
    token.OnJwt(principal);
    var user := new SessionUser();
    user.OnSession(token);
    sessionRole := user.role;
  }
}
