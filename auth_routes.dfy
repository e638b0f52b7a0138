/** The API's user registry and its `/login`, `/register` and `/me` routes: an
    in-memory list of users, seeded with one demo account, that registration
    appends to. Hashing, the email format check and the token library come
    in as `Services`. */
module AuthRoutes {
  import opened Common
  import opened AuthMiddleware

  /** A user entry; `passwordHash` is `hashPassword(password)`. */
  datatype User = User(id: string, name: string, email: string, passwordHash: string,
                       tenantId: string, role: string, createdAt: string)

  /** The fields a response shows of a user: all of them but the password. */
  datatype PublicUser = PublicUser(id: string, name: string, email: string, tenantId: string, role: string)

  function Public(u: User): PublicUser
  {
    PublicUser(u.id, u.name, u.email, u.tenantId, u.role)
  }

  /** A registry user handed to `generateToken`: it has `tenantId`, no `tenant_id`. */
  function Subject(u: User): TokenSubject
  {
    TokenSubject(u.id, u.email, None, Some(u.tenantId), u.role)
  }

  /** sha256-hex `hashPassword`, the schema's `format: 'email'`, and the token
      library with its secret. */
  datatype Services = Services(hashPassword: string -> string, isEmail: string -> bool,
                               jwt: JwtLibrary, secret: string)

  /** Request bodies; None is a missing property. */
  datatype LoginBody = LoginBody(email: Option<string>, password: Option<string>)
  datatype RegisterBody = RegisterBody(name: Option<string>, email: Option<string>, password: Option<string>)

  /** What a route answers. */
  datatype Response =
    | Success(token: Option<string>, user: PublicUser)  // { success: true, token, user }
    | Refused(reply: Reply)                            // reply.code(...).send(...)
    | SchemaRejected                                   // the framework's 400 for a body the schema refuses

  const InvalidCredentials: Reply := Reply(401, "Unauthorized", "Invalid email or password")
  const EmailTaken: Reply := Reply(400, "Bad Request", "User with this email already exists")
  const UserNotFound: Reply := Reply(404, "Not Found", "User not found")

  /** The demo account the registry starts with; `createdAt` is the start-up time. */
  function DemoUser(services: Services, createdAt: string): User
  {
    User("user-demo-001", "Demo User", "demo@bythewise.com", services.hashPassword("demo123"),
         "tenant-demo-001", "admin", createdAt)
  }

  // ---------------------------------------------------------------------------
  // Lookups: `users.find(...)`
  // ---------------------------------------------------------------------------

  predicate EmailRegistered(users: seq<User>, email: string)
  {
    exists i :: 0 <= i < |users| && users[i].email == email
  }

  /** The index at which `find` by email stops. */
  function FirstWithEmail(users: seq<User>, email: string): (r: Option<nat>)
    ensures r.Some? ==> r.value < |users| && users[r.value].email == email
                        && forall j :: 0 <= j < r.value ==> users[j].email != email
    ensures r.None? <==> !EmailRegistered(users, email)
    decreases |users|
  {
    if users == [] then None
    else if users[0].email == email then Some(0)
    else
      var rest := FirstWithEmail(users[1..], email);
      assert forall j :: 0 <= j < |users| - 1 ==> users[1..][j] == users[j + 1];
      if rest.None? then None else Some(rest.value + 1)
  }

  /** The index at which `find` by id stops. */
  function FirstWithId(users: seq<User>, id: string): (r: Option<nat>)
    ensures r.Some? ==> r.value < |users| && users[r.value].id == id
                        && forall j :: 0 <= j < r.value ==> users[j].id != id
    ensures r.None? <==> forall j :: 0 <= j < |users| ==> users[j].id != id
    decreases |users|
  {
    if users == [] then None
    else if users[0].id == id then Some(0)
    else
      var rest := FirstWithId(users[1..], id);
      assert forall j :: 0 <= j < |users| - 1 ==> users[1..][j] == users[j + 1];
      if rest.None? then None else Some(rest.value + 1)
  }

  /** No two users share an email. */
  predicate EmailsDistinct(users: seq<User>)
  {
    forall i, j :: 0 <= i < j < |users| ==> users[i].email != users[j].email
  }

  // ---------------------------------------------------------------------------
  // POST /login
  // ---------------------------------------------------------------------------

  /** The login schema: both properties present, an email address, a non-empty password. */
  predicate LoginSchemaOk(services: Services, body: LoginBody)
  {
    && body.email.Some? && body.password.Some?
    && services.isEmail(body.email.value) && |body.password.value| >= 1
  }

  function LoginResponse(users: seq<User>, services: Services, body: LoginBody): Response
  {
    if !LoginSchemaOk(services, body) then SchemaRejected
    else
      match FirstWithEmail(users, body.email.value)
      case None => Refused(InvalidCredentials)
      case Some(i) =>
        if users[i].passwordHash != services.hashPassword(body.password.value) then Refused(InvalidCredentials)
        else Success(Some(GenerateToken(services.jwt, services.secret, Subject(users[i]))), Public(users[i]))
  }

  /** An unknown email and a wrong password get the same 401, so the answer
      does not tell which accounts exist. */
  lemma LoginFailuresLookAlike(users: seq<User>, services: Services, body: LoginBody)
    requires LoginSchemaOk(services, body)
    ensures !EmailRegistered(users, body.email.value) ==>
              LoginResponse(users, services, body) == Refused(InvalidCredentials)
    ensures LoginResponse(users, services, body).Refused? ==>
              LoginResponse(users, services, body).reply == InvalidCredentials
  {
  }

  /** With distinct emails, a well-formed login succeeds exactly when some user
      has that email and the hash of that password, and it answers with that
      user, without the password, and a token for it. */
  lemma LoginSucceedsExactly(users: seq<User>, services: Services, body: LoginBody, k: nat)
    requires EmailsDistinct(users) && LoginSchemaOk(services, body)
    requires k < |users| && users[k].email == body.email.value
    ensures LoginResponse(users, services, body).Success? <==>
              users[k].passwordHash == services.hashPassword(body.password.value)
    ensures LoginResponse(users, services, body).Success? ==>
              LoginResponse(users, services, body) ==
                Success(Some(GenerateToken(services.jwt, services.secret, Subject(users[k]))), Public(users[k]))
  {
    assert EmailRegistered(users, body.email.value);
    var i := FirstWithEmail(users, body.email.value).value;
    assert i == k;
  }

  // ---------------------------------------------------------------------------
  // POST /register
  // ---------------------------------------------------------------------------

  /** The register schema: a non-empty name, an email address, a password of
      at least six characters. */
  predicate RegisterSchemaOk(services: Services, body: RegisterBody)
  {
    && body.name.Some? && |body.name.value| >= 1
    && body.email.Some? && services.isEmail(body.email.value)
    && body.password.Some? && |body.password.value| >= 6
  }

  /** The clock readings and random strings a registration draws: the
      milliseconds of `Date.now()` and the tail of `Math.random().toString(36)`
      for the user id and for the tenant id, and `new Date().toISOString()`. */
  datatype RegisterEnv = RegisterEnv(idMillis: nat, idRandom: string, tenantMillis: nat,
                                     tenantRandom: string, createdAt: string)

  /** The user a registration appends. */
  function NewUser(services: Services, body: RegisterBody, env: RegisterEnv): (u: User)
    requires RegisterSchemaOk(services, body)
    ensures u.role == "user" && u.email == body.email.value && u.name == body.name.value
    ensures u.passwordHash == services.hashPassword(body.password.value)
  {
    User("user-" + NatToString(env.idMillis) + "-" + env.idRandom, body.name.value, body.email.value,
         services.hashPassword(body.password.value),
         "tenant-" + NatToString(env.tenantMillis) + "-" + env.tenantRandom, "user", env.createdAt)
  }

  function RegisterResponse(users: seq<User>, services: Services, body: RegisterBody, env: RegisterEnv): Response
  {
    if !RegisterSchemaOk(services, body) then SchemaRejected
    else if EmailRegistered(users, body.email.value) then Refused(EmailTaken)
    else
      var u := NewUser(services, body, env);
      Success(Some(GenerateToken(services.jwt, services.secret, Subject(u))), Public(u))
  }

  function UsersAfterRegister(users: seq<User>, services: Services, body: RegisterBody, env: RegisterEnv): seq<User>
  {
    if RegisterResponse(users, services, body, env).Success? then users + [NewUser(services, body, env)]
    else users
  }

  /** A registration either appends exactly one user, with role 'user' and the
      hash of the given password, leaving the others as they were, or changes
      nothing; a taken email is refused with 400. */
  lemma RegisterAppendsOne(users: seq<User>, services: Services, body: RegisterBody, env: RegisterEnv)
    ensures var after := UsersAfterRegister(users, services, body, env);
            && (RegisterResponse(users, services, body, env).Success? ==>
                  && |after| == |users| + 1 && after[..|users|] == users
                  && after[|users|].role == "user"
                  && after[|users|].email == body.email.value
                  && after[|users|].passwordHash == services.hashPassword(body.password.value))
            && (!RegisterResponse(users, services, body, env).Success? ==> after == users)
    ensures RegisterSchemaOk(services, body) && EmailRegistered(users, body.email.value) ==>
              RegisterResponse(users, services, body, env) == Refused(EmailTaken)
  {
    var after := UsersAfterRegister(users, services, body, env);
    if RegisterResponse(users, services, body, env).Success? {
      assert after[..|users|] == users;
    }
  }

  /** Registration keeps emails distinct. */
  lemma RegisterKeepsEmailsDistinct(users: seq<User>, services: Services, body: RegisterBody, env: RegisterEnv)
    requires EmailsDistinct(users)
    ensures EmailsDistinct(UsersAfterRegister(users, services, body, env))
  {
    if RegisterResponse(users, services, body, env).Success? {
      var after := UsersAfterRegister(users, services, body, env);
      forall i, j | 0 <= i < j < |after| ensures after[i].email != after[j].email {
        assert after[i] == users[i];
        if j < |users| {
          assert after[j] == users[j];
        }
      }
    }
  }

  /** Round trip: whoever has just registered can log in with the same email
      and password, and gets themselves back. */
  lemma RegisterThenLogin(users: seq<User>, services: Services, body: RegisterBody, env: RegisterEnv)
    requires RegisterResponse(users, services, body, env).Success?
    ensures var u := NewUser(services, body, env);
            LoginResponse(UsersAfterRegister(users, services, body, env), services, LoginBody(body.email, body.password))
            == Success(Some(GenerateToken(services.jwt, services.secret, Subject(u))), Public(u))
  {
    var u := NewUser(services, body, env);
    var after := users + [u];
    assert after[|users|] == u;
    assert forall j :: 0 <= j < |users| ==> after[j] == users[j];
    assert FirstWithEmail(after, u.email) == Some(|users|);
  }

  // ---------------------------------------------------------------------------
  // GET /me, behind `authenticate`
  // ---------------------------------------------------------------------------

  function MeResponse(users: seq<User>, services: Services, authorization: Option<string>): Response
  {
    match AuthenticateOutcome(authorization, services.jwt, services.secret)
    case Rejected(reply) => Refused(reply)
    case Authenticated(claims) =>
      match FirstWithId(users, claims.id)
      case None => Refused(UserNotFound)
      case Some(i) => Success(None, Public(users[i]))
  }

  /** `/me` answers 404 exactly when the token is valid but no user has its id;
      otherwise a valid token gets the first user with that id. */
  lemma MeAnswersTokenOwner(users: seq<User>, services: Services, authorization: Option<string>)
    requires AuthenticateOutcome(authorization, services.jwt, services.secret).Authenticated?
    ensures var id := AuthenticateOutcome(authorization, services.jwt, services.secret).user.id;
            && (MeResponse(users, services, authorization) == Refused(UserNotFound) <==>
                  forall j :: 0 <= j < |users| ==> users[j].id != id)
            && (MeResponse(users, services, authorization).Success? ==>
                  MeResponse(users, services, authorization).user.id == id)
  {
  }

  /** The registry. */
  class UserRegistry {
    /** The module-level `users` array, in insertion order. */
    var users: seq<User>
    const services: Services

    ghost predicate Valid()
      reads this
    {
      EmailsDistinct(users)
    }

    /** Module load: the registry holds the demo account only. */
    constructor(services: Services, createdAt: string)
      ensures Valid()
      ensures this.services == services && users == [DemoUser(services, createdAt)]
    {
      this.services := services;
      users := [DemoUser(services, createdAt)];
    }

    /** The lookup by email, as a scan returning an index. */
    method FindByEmail(email: string) returns (k: Option<nat>)
      ensures k == FirstWithEmail(users, email)
    {
      var i := 0;
      while i < |users|
        invariant 0 <= i <= |users|
        invariant forall j :: 0 <= j < i ==> users[j].email != email
      {
        if users[i].email == email {
          FirstIsFound(users, email, i);
          return Some(i);
        }
        i := i + 1;
      }
      return None;
    }

    /** The lookup by id, as a scan returning an index. */
    method FindById(id: string) returns (k: Option<nat>)
      ensures k == FirstWithId(users, id)
    {
      var i := 0;
      while i < |users|
        invariant 0 <= i <= |users|
        invariant forall j :: 0 <= j < i ==> users[j].id != id
      {
        if users[i].id == id {
          FirstIdIsFound(users, id, i);
          return Some(i);
        }
        i := i + 1;
      }
      return None;
    }

    /** POST /login */
    method Login(body: LoginBody) returns (r: Response)
      ensures r == LoginResponse(users, services, body)
    {
      if body.email.None? || body.password.None? || !services.isEmail(body.email.value) || |body.password.value| < 1 {
        return SchemaRejected;
      }
      var found := FindByEmail(body.email.value);
      if found.None? {
        return Refused(InvalidCredentials);
      }
      var user := users[found.value];
      var hashedPassword := services.hashPassword(body.password.value);
      if user.passwordHash != hashedPassword {
        return Refused(InvalidCredentials);
      }
      var token := GenerateToken(services.jwt, services.secret, Subject(user));
      return Success(Some(token), Public(user));
    }

    /** POST /register */
    method Register(body: RegisterBody, env: RegisterEnv) returns (r: Response)
      requires Valid()
      modifies this`users
      ensures Valid()
      ensures r == RegisterResponse(old(users), services, body, env)
      ensures users == UsersAfterRegister(old(users), services, body, env)
    {
      RegisterKeepsEmailsDistinct(users, services, body, env);
      if body.name.None? || |body.name.value| < 1 || body.email.None? || !services.isEmail(body.email.value)
         || body.password.None? || |body.password.value| < 6 {
        return SchemaRejected;
      }
      var found := FindByEmail(body.email.value);
      if found.Some? {
        return Refused(EmailTaken);
      }
      var newUser := User("user-" + NatToString(env.idMillis) + "-" + env.idRandom, body.name.value, body.email.value,
                          services.hashPassword(body.password.value),
                          "tenant-" + NatToString(env.tenantMillis) + "-" + env.tenantRandom, "user", env.createdAt);
      users := users + [newUser];
      var token := GenerateToken(services.jwt, services.secret, Subject(newUser));
      return Success(Some(token), Public(newUser));
    }

    /** GET /me: the `authenticate` hook on `request`, then the lookup of its user. */
    method Me(request: Request) returns (r: Response)
      modifies request`user
      ensures r == MeResponse(users, services, request.authorization)
    {
      var reply := request.Authenticate(services.jwt, services.secret);
      if reply.Some? {
        return Refused(reply.value);
      }
      var found := FindById(request.user.value.id);
      if found.None? {
        return Refused(UserNotFound);
      }
      return Success(None, Public(users[found.value]));
    }
  }

  /** The demo account logs in with its documented password. */
  lemma DemoLogin(services: Services, createdAt: string)
    requires services.isEmail("demo@bythewise.com")
    ensures var demo := DemoUser(services, createdAt);
            LoginResponse([demo], services, LoginBody(Some("demo@bythewise.com"), Some("demo123")))
            == Success(Some(GenerateToken(services.jwt, services.secret, Subject(demo))), Public(demo))
  {
  }

  lemma FirstIsFound(users: seq<User>, email: string, i: nat)
    requires i < |users| && users[i].email == email
    requires forall j :: 0 <= j < i ==> users[j].email != email
    ensures FirstWithEmail(users, email) == Some(i)
  {
  }

  lemma FirstIdIsFound(users: seq<User>, id: string, i: nat)
    requires i < |users| && users[i].id == id
    requires forall j :: 0 <= j < i ==> users[j].id != id
    ensures FirstWithId(users, id) == Some(i)
  {
  }
}
