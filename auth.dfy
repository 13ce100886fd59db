/** Registration, login with lockout, token issue and verification, and the guards that read
    the bearer token of a request. */
module Auth {
  import opened Common
  import opened Db
  import Security
  import opened Validation

  /** Lifetime of an issued token, in seconds. */
  const TokenExpiry := 86400

  const RegisterLimit := 3
  const RegisterWindow := 3600
  const LoginLimit := 10
  const LoginWindow := 900

  const RegisterThrottled := "Too many registration attempts. Please try again later."
  const LoginThrottled := "Too many login attempts. Please try again later."
  const AccountLocked := "Account temporarily locked due to failed login attempts."
  const UserLocked := "Account is temporarily locked"
  const BadCredentials := "Invalid credentials"
  const MaliciousInput := "Invalid input detected"

  /** The payload of a token. */
  datatype Claims = Claims(userId: string, email: string, role: string, iat: int, exp: int)

  datatype UserView = UserView(id: string, email: string, role: string)

  /** What `register` and `login` return. */
  datatype TokenResponse = TokenResponse(token: string, user: UserView, expiresIn: int)

  /** The password hash and the signed token, both foreign: `encode` signs a payload with the
      server secret, `decode` yields the payload of a token whose signature checks out. */
  datatype Crypto = Crypto(
    hashPassword: string -> string,
    verifyPassword: (string, string) -> bool,
    encode: Claims -> string,
    decode: string -> Option<Claims>)

  /** What the flows consult besides the tables: the validator's foreign checks, the keyword
      regexes of `detectSQLInjection`, and the crypto. */
  datatype Env = Env(checks: Checks, sqlKeywordHit: string -> bool, crypto: Crypto)

  /** The part of the world `register` and `login` read and write. */
  datatype AuthState = AuthState(
    users: seq<User>,
    loginAttempts: seq<LoginAttempt>,
    securityLogs: seq<SecurityEvent>,
    rateLimits: map<string, seq<int>>)

  /** The outcome of one flow: the value returned or the message thrown, and the new state. */
  datatype Step = Step(result: Result<TokenResponse>, state: AuthState)

  function StateOf(db: Database, session: Session): AuthState
    reads db, session
  {
    AuthState(db.users, db.loginAttempts, db.securityLogs, session.rateLimits)
  }

  // ================================================================ tokens

  function IssuedClaims(userId: string, email: string, role: string, now: int): Claims
  {
    Claims(userId, email, role, now, now + TokenExpiry)
  }

  /** `createTokenResponse`: a token valid for a day from `now`, and the user it names. */
  function CreateTokenResponse(userId: string, email: string, role: string, now: int, crypto: Crypto): (r: TokenResponse)
    ensures r.user == UserView(userId, email, role) && r.expiresIn == TokenExpiry
    ensures r.token == crypto.encode(Claims(userId, email, role, now, now + 86400))
  {
    TokenResponse(crypto.encode(IssuedClaims(userId, email, role, now)), UserView(userId, email, role), TokenExpiry)
  }

  /** `verifyToken`: the payload of a correctly signed token that is already issued and not yet
      expired at `now`; any other token raises "Invalid token". */
  function VerifyToken(token: string, crypto: Crypto, now: int): (r: Result<Claims>)
    ensures r.Ok? <==> crypto.decode(token).Some? && crypto.decode(token).value.iat <= now < crypto.decode(token).value.exp
    ensures r.Ok? ==> crypto.decode(token) == Some(r.value)
    ensures r.Err? ==> r.msg == "Invalid token"
  {
    match crypto.decode(token)
    case None => Err("Invalid token")
    case Some(claims) => if claims.iat <= now < claims.exp then Ok(claims) else Err("Invalid token")
  }

  /** A token from `createTokenResponse` verifies, with its own user, for exactly one day. */
  lemma IssuedTokenVerifies(userId: string, email: string, role: string, issued: int, crypto: Crypto, now: int)
    requires crypto.decode(crypto.encode(IssuedClaims(userId, email, role, issued))) == Some(IssuedClaims(userId, email, role, issued))
    ensures var r := VerifyToken(CreateTokenResponse(userId, email, role, issued, crypto).token, crypto, now);
      (r.Ok? <==> issued <= now < issued + TokenExpiry) &&
      (r.Ok? ==> r.value.userId == userId && r.value.email == email && r.value.role == role)
  {
  }

  // ================================================================ the bearer header

  /** PCRE `\s`: space, tab, line feed, vertical tab, form feed, carriage return. */
  predicate IsSpace(c: char)
  {
    c == ' ' || c == '\t' || c == '\n' || c == '\U{B}' || c == '\U{C}' || c == '\r'
  }

  /** The end of the run of white space starting at `j`. */
  function SpaceEnd(h: string, j: nat): (m: nat)
    requires j <= |h|
    ensures j <= m <= |h|
    ensures forall i :: j <= i < m ==> IsSpace(h[i])
    ensures m < |h| ==> !IsSpace(h[m])
    decreases |h| - j
  {
    if j < |h| && IsSpace(h[j]) then SpaceEnd(h, j + 1) else j
  }

  /** Where `$` may match last: before a final line feed, or at the end. */
  function LineEnd(h: string): nat
  {
    if |h| > 0 && h[|h| - 1] == '\n' then |h| - 1 else |h|
  }

  /** The text `(.*)` captures when it starts at `m`. */
  function RestFrom(h: string, m: nat): string
  {
    if m < LineEnd(h) <= |h| then h[m..LineEnd(h)] else ""
  }

  /** `/Bearer\s+(.*)$/i` matches starting at `k`. The white-space run is taken whole; `.` stops at
      a line feed, so the match needs no line feed after the run but a final one. */
  predicate BearerAt(h: string, k: nat)
  {
    k + 6 < |h| && Lower(h[k..k + 6]) == "bearer" && IsSpace(h[k + 6]) && '\n' !in RestFrom(h, SpaceEnd(h, k + 6))
  }

  function TokenAt(h: string, k: nat): string
    requires k + 6 < |h|
  {
    RestFrom(h, SpaceEnd(h, k + 6))
  }

  /** The leftmost match at or after `k`. */
  function FindBearer(h: string, k: nat): (r: Option<string>)
    ensures r.None? <==> forall i :: k <= i < |h| ==> !BearerAt(h, i)
    ensures r.Some? ==> exists i :: k <= i && i + 6 < |h| && BearerAt(h, i) && r.value == TokenAt(h, i) &&
                         forall j :: k <= j < i ==> !BearerAt(h, j)
    decreases |h| - k
  {
    if k + 6 >= |h| then None
    else if BearerAt(h, k) then Some(TokenAt(h, k))
    else FindBearer(h, k + 1)
  }

  /** The token `requireAuth` captures from an `Authorization` header, if the pattern matches. */
  function BearerToken(header: string): Option<string>
  {
    FindBearer(header, 0)
  }

  /** `Bearer <token>` yields the token itself. */
  lemma BearerTokenOfHeader(h: string, token: string)
    requires h == "Bearer " + token
    requires token != [] && !IsSpace(token[0]) && '\n' !in token
    ensures BearerToken(h) == Some(token)
  {
    assert h[..6] == "Bearer" && h[6] == ' ';
    assert Lower(h[0..6]) == "bearer";
    assert h[7..] == token;
    assert SpaceEnd(h, 7) == 7;
    assert SpaceEnd(h, 6) == 7;
    assert h[|h| - 1] == token[|token| - 1] && token[|token| - 1] in token;
    assert LineEnd(h) == |h|;
    assert RestFrom(h, 7) == token;
    assert BearerAt(h, 0);
  }

  /** A missing header (read as the empty string) matches nothing. */
  lemma NoHeaderNoToken()
    ensures BearerToken("") == None
  {
  }

  // ================================================================ guards

  /** A guard either lets the request through with the token's payload or stops it, with the
      status code set before throwing (if any) and the message. */
  datatype Access = Granted(claims: Claims) | Denied(status: Option<int>, msg: string)

  /** `requireAuth`: a missing or unmatched header gives 401; otherwise the token must verify. */
  function RequireAuth(header: Option<string>, crypto: Crypto, now: int): (r: Access)
    ensures BearerToken(GetOr(header, "")).None? ==> r == Denied(Some(401), "Authorization token required")
    ensures BearerToken(GetOr(header, "")).Some? ==>
      var v := VerifyToken(BearerToken(GetOr(header, "")).value, crypto, now);
      (r.Granted? <==> v.Ok?) && (r.Granted? ==> r.claims == v.value) && (r.Denied? ==> r == Denied(None, "Invalid token"))
  {
    match BearerToken(GetOr(header, ""))
    case None => Denied(Some(401), "Authorization token required")
    case Some(token) =>
      match VerifyToken(token, crypto, now)
      case Ok(claims) => Granted(claims)
      case Err(msg) => Denied(None, msg)
  }

  /** The role test of `requireRole` on the outcome of `requireAuth`: an authenticated user
      holding the role, or an administrator, passes; another user gets 403. */
  function RoleCheck(auth: Access, requiredRole: string): (r: Access)
    ensures r.Granted? <==> auth.Granted? && (auth.claims.role == requiredRole || auth.claims.role == "admin")
    ensures r.Granted? || auth.Denied? ==> r == auth
    ensures auth.Granted? && !r.Granted? ==> r == Denied(Some(403), "Insufficient permissions")
  {
    match auth
    case Denied(_, _) => auth
    case Granted(claims) =>
      if claims.role != requiredRole && claims.role != "admin" then Denied(Some(403), "Insufficient permissions")
      else auth
  }

  /** `requireRole`. */
  function RequireRole(header: Option<string>, requiredRole: string, crypto: Crypto, now: int): (r: Access)
    ensures var auth := RequireAuth(header, crypto, now);
      (r.Granted? <==> auth.Granted? && (auth.claims.role == requiredRole || auth.claims.role == "admin")) &&
      (r.Granted? || auth.Denied? ==> r == auth) &&
      (auth.Granted? && r.Denied? ==> r == Denied(Some(403), "Insufficient permissions"))
  {
    RoleCheck(RequireAuth(header, crypto, now), requiredRole)
  }

  /** An administrator's token passes every role check; a user's token passes only "user". */
  lemma RoleHierarchy(claims: Claims, role: string)
    ensures claims.role == "admin" ==> RoleCheck(Granted(claims), role) == Granted(claims)
    ensures claims.role == "user" ==> (RoleCheck(Granted(claims), role).Granted? <==> role == "user")
  {
  }

  // ================================================================ users

  predicate EmailTaken(users: seq<User>, email: string)
  {
    exists i :: 0 <= i < |users| && users[i].email == email
  }

  predicate EmailsDistinct(users: seq<User>)
  {
    forall i, j :: 0 <= i < j < |users| ==> users[i].email != users[j].email
  }

  /** `SELECT ... FROM users WHERE email = ?` and `fetch()`: the first row with that address. */
  function FindByEmail(users: seq<User>, email: string): (r: Option<nat>)
    ensures r.Some? ==> r.value < |users| && users[r.value].email == email &&
                        forall j :: 0 <= j < r.value ==> users[j].email != email
    ensures r.None? <==> !EmailTaken(users, email)
    decreases |users|
  {
    if users == [] then None
    else if users[0].email == email then Some(0)
    else
      var rest := FindByEmail(users[1..], email);
      assert forall j :: 1 <= j < |users| ==> users[j] == users[1..][j - 1];
      match rest
      case None => None
      case Some(i) => Some(i + 1)
  }

  /** The profile `getCurrentUser` returns. */
  datatype Profile = Profile(id: nat, email: string, role: string, createdAt: int)

  /** `SELECT id, email, role, created_at FROM users WHERE id = ?` with the token's user id. */
  function FindById(users: seq<User>, idText: string): (r: Option<Profile>)
    ensures r.Some? ==> exists i :: (0 <= i < |users| && NatToString(users[i].id) == idText &&
      r.value == Profile(users[i].id, users[i].email, users[i].role, users[i].createdAt) &&
      forall j :: 0 <= j < i ==> NatToString(users[j].id) != idText)
    ensures r.None? <==> forall i :: 0 <= i < |users| ==> NatToString(users[i].id) != idText
    decreases |users|
  {
    if users == [] then None
    else if NatToString(users[0].id) == idText then Some(Profile(users[0].id, users[0].email, users[0].role, users[0].createdAt))
    else
      var rest := FindById(users[1..], idText);
      assert forall j :: 1 <= j < |users| ==> users[j] == users[1..][j - 1];
      rest
  }

  /** `getCurrentUser`: the row of the token's user, or nothing when the token does not verify
      or names no user. */
  function GetCurrentUser(users: seq<User>, token: string, crypto: Crypto, now: int): (r: Option<Profile>)
    ensures VerifyToken(token, crypto, now).Err? ==> r == None
    ensures r.Some? ==> (VerifyToken(token, crypto, now).Ok? &&
      exists i :: (0 <= i < |users| && NatToString(users[i].id) == VerifyToken(token, crypto, now).value.userId &&
        r.value == Profile(users[i].id, users[i].email, users[i].role, users[i].createdAt)))
    ensures VerifyToken(token, crypto, now).Ok? ==>
      (r.Some? <==> exists i :: 0 <= i < |users| && NatToString(users[i].id) == VerifyToken(token, crypto, now).value.userId)
  {
    match VerifyToken(token, crypto, now)
    case Err(_) => None
    case Ok(claims) => FindById(users, claims.userId)
  }

  /** The token of a freshly registered user leads back to that user's row, for a day. */
  lemma CurrentUserOfIssuedToken(users: seq<User>, i: nat, issued: int, crypto: Crypto, now: int)
    requires UsersNumbered(users) && i < |users|
    requires var c := IssuedClaims(NatToString(users[i].id), users[i].email, users[i].role, issued);
      crypto.decode(crypto.encode(c)) == Some(c)
    requires issued <= now < issued + TokenExpiry
    ensures GetCurrentUser(users, CreateTokenResponse(NatToString(users[i].id), users[i].email, users[i].role, issued, crypto).token, crypto, now)
      == Some(Profile(users[i].id, users[i].email, users[i].role, users[i].createdAt))
  {
    var r := FindById(users, NatToString(users[i].id));
    if r.None? {
      assert false;
    }
    var j :| 0 <= j < |users| && NatToString(users[j].id) == NatToString(users[i].id) &&
      r.value == Profile(users[j].id, users[j].email, users[j].role, users[j].createdAt);
    NatToStringInjective(users[j].id, users[i].id);
  }

  // ================================================================ registration

  /** The data handed to the validator by `register`. */
  function RegisterData(email: string, password: string, role: string): map<string, Value>
  {
    map["email" := Str(email), "password" := Str(password), "role" := Str(role)]
  }

  /** The rules of `register` as intended: the e-mail address must not belong to a user yet. */
  const RegisterRules: seq<(string, seq<Rule>)> := [
    ("email", [Required, Email, Unique("users", "email")]),
    ("password", [Required, MinLength(8)]),
    ("role", [Required, In(["user", "admin"])])]

  /** The rules of `register` as written: the uniqueness rule is spelt as one string, which is
      not a rule name `applyRule` knows. */
  const RegisterRulesAsWritten: seq<(string, seq<Rule>)> := [
    ("email", [Required, Email, Unrecognized("unique:users:email")]),
    ("password", [Required, MinLength(8)]),
    ("role", [Required, In(["user", "admin"])])]

  /** The rules `register` runs under a guard: the ones it has as written, or the corrected ones. */
  function RegisterRulesOf(g: Guard): seq<(string, seq<Rule>)>
  {
    if g.AsWritten? then RegisterRulesAsWritten else RegisterRules
  }

  /** `recordExists` over the users table. */
  function UsersChecks(checks: Checks, users: seq<User>): Checks
  {
    checks.(recordExists := (table: string, column: string, v: Value) =>
      table == "users" && column == "email" && v.Str? && EmailTaken(users, v.s))
  }

  /** The validator's messages for a registration: with `AsWritten` the code as it stands, with
      `Intended` the corrected guard and rules. */
  function RegisterErrors(g: Guard, email: string, password: string, role: string, checks: Checks, users: seq<User>): seq<string>
  {
    RuleSetErrors(g, RegisterData(email, password, role), RegisterRulesOf(g), UsersChecks(checks, users))
  }

  /** `detectXSS($email) || detectSQLInjection($email)`. */
  predicate Malicious(env: Env, email: string)
  {
    Security.DetectXss(email) || Security.DetectSqlInjection(email, env.sqlKeywordHit(email))
  }

  function Log(st: AuthState, client: Security.Client, event: string, context: seq<(string, string)>, now: int): AuthState
  {
    st.(securityLogs := st.securityLogs + [SecurityEvent(event, Security.LoggedIp(client), Security.LoggedUserAgent(client), context, now)])
  }

  function Attempt(st: AuthState, client: Security.Client, email: string, success: bool, now: int): AuthState
  {
    st.(loginAttempts := st.loginAttempts + [LoginAttempt(email, Security.LoggedIp(client), success, now)],
        securityLogs := st.securityLogs + Security.AttemptEvents(client, email, success, now))
  }

  function RegisterKey(client: Security.Client): string
  {
    "register:" + GetOr(client.remoteAddr, "")
  }

  function NewUser(st: AuthState, env: Env, email: string, password: string, role: string, now: int): User
  {
    User(|st.users| + 1, email, env.crypto.hashPassword(password), role, 0, None, None, now)
  }

  /** `register`: throttle, validate, screen, insert, log, issue a token, in that order. */
  function RegisterSpec(g: Guard, st: AuthState, client: Security.Client, env: Env, email: string, password: string, role: string, now: int): Step
  {
    var throttle := Security.RateLimit(st.rateLimits, RegisterKey(client), RegisterLimit, RegisterWindow, now);
    if !throttle.allowed then Step(Err(RegisterThrottled), st)
    else RegisterChecked(g, st.(rateLimits := throttle.store), client, env, email, password, role, now)
  }

  /** `register` past the throttle. */
  function RegisterChecked(g: Guard, st: AuthState, client: Security.Client, env: Env, email: string, password: string, role: string, now: int): Step
  {
    var errors := RegisterErrors(g, email, password, role, env.checks, st.users);
    if errors != [] then Step(Err(errors[0]), st)
    else if Malicious(env, email) then
      Step(Err(MaliciousInput), Log(st, client, "registration_attempt_malicious", [("email", email)], now))
    else RegisterInsert(st, client, env, email, password, role, now)
  }

  /** `register` past the checks: the new row, its event and the token. */
  function RegisterInsert(st: AuthState, client: Security.Client, env: Env, email: string, password: string, role: string, now: int): Step
  {
    var user := NewUser(st, env, email, password, role, now);
    var id := NatToString(user.id);
    Step(Ok(CreateTokenResponse(id, email, role, now, env.crypto)),
         Log(st.(users := st.users + [user]), client, "user_registered", [("user_id", id), ("email", email)], now))
  }

  method Register(g: Guard, db: Database, session: Session, client: Security.Client, env: Env, email: string, password: string, role: string, now: int)
    returns (r: Result<TokenResponse>)
    requires db.Valid()
    modifies db`users, db`securityLogs, session`rateLimits
    ensures db.Valid()
    ensures Step(r, StateOf(db, session)) == RegisterSpec(g, old(StateOf(db, session)), client, env, email, password, role, now)
  {
    var allowed := Security.CheckRateLimit(session, RegisterKey(client), RegisterLimit, RegisterWindow, now);
    if !allowed {
      return Err(RegisterThrottled);
    }
    r := CheckAndInsert(g, db, session, client, env, email, password, role, now);
  }

  method CheckAndInsert(g: Guard, db: Database, session: Session, client: Security.Client, env: Env, email: string, password: string, role: string, now: int)
    returns (r: Result<TokenResponse>)
    requires db.Valid()
    modifies db`users, db`securityLogs
    ensures db.Valid()
    ensures Step(r, StateOf(db, session)) == RegisterChecked(g, old(StateOf(db, session)), client, env, email, password, role, now)
  {
    ghost var st0 := StateOf(db, session);
    var validator := new Validator();
    var valid := validator.Validate(g, RegisterData(email, password, role), RegisterRulesOf(g), UsersChecks(env.checks, db.users));
    assert validator.errors == RegisterErrors(g, email, password, role, env.checks, st0.users);
    assert StateOf(db, session) == st0;
    if !valid {
      var first := validator.GetFirstError();
      assert RegisterChecked(g, st0, client, env, email, password, role, now) == Step(Err(first.value), st0);
      return Err(first.value);
    }
    if Security.DetectXss(email) || Security.DetectSqlInjection(email, env.sqlKeywordHit(email)) {
      Security.LogSecurityEvent(db, client, "registration_attempt_malicious", [("email", email)], now);
      assert StateOf(db, session) == Log(st0, client, "registration_attempt_malicious", [("email", email)], now);
      return Err(MaliciousInput);
    }
    assert RegisterChecked(g, st0, client, env, email, password, role, now) == RegisterInsert(st0, client, env, email, password, role, now);
    r := InsertUser(db, session, client, env, email, password, role, now);
  }

  method InsertUser(db: Database, session: Session, client: Security.Client, env: Env, email: string, password: string, role: string, now: int)
    returns (r: Result<TokenResponse>)
    requires db.Valid()
    modifies db`users, db`securityLogs
    ensures db.Valid()
    ensures Step(r, StateOf(db, session)) == RegisterInsert(old(StateOf(db, session)), client, env, email, password, role, now)
  {
    var hashed := env.crypto.hashPassword(password);
    var id := |db.users| + 1;
    db.users := db.users + [User(id, email, hashed, role, 0, None, None, now)];
    Security.LogSecurityEvent(db, client, "user_registered", [("user_id", NatToString(id)), ("email", email)], now);
    r := Ok(CreateTokenResponse(NatToString(id), email, role, now, env.crypto));
  }

  /** With the corrected guard and rules, registration passes validation exactly for a new,
      well-formed address, a password of at least eight characters and one of the two roles. */
  lemma RegisterErrorsEmpty(email: string, password: string, role: string, checks: Checks, users: seq<User>)
    ensures RegisterErrors(Intended, email, password, role, checks, users) == [] <==>
      email != "" && checks.isEmail(Str(email)) && !EmailTaken(users, email) &&
      |password| >= 8 && (role == "user" || role == "admin")
  {
    var uc := UsersChecks(checks, users);
    RegisterErrorsParts(Intended, email, password, role, checks, users);
    EmailRulesPass(email, uc);
    PasswordRulesPass(Intended, password, uc);
    RoleRulesPass(Intended, role, uc);
    assert uc.recordExists("users", "email", Str(email)) == EmailTaken(users, email);
  }

  /** As written, registration passes validation whenever each field is non-empty and either is
      "0" or passes its format check: the users table is never consulted, and "0" is taken for
      an address, an eight-character password and a role. */
  lemma RegisterErrorsEmptyAsWritten(email: string, password: string, role: string, checks: Checks, users: seq<User>)
    ensures RegisterErrors(AsWritten, email, password, role, checks, users) == [] <==>
      email != "" && (email == "0" || checks.isEmail(Str(email))) &&
      password != "" && (password == "0" || |password| >= 8) &&
      role != "" && (role == "0" || role == "user" || role == "admin")
  {
    var uc := UsersChecks(checks, users);
    RegisterErrorsParts(AsWritten, email, password, role, checks, users);
    EmailRulesPassAsWritten(email, uc);
    PasswordRulesPass(AsWritten, password, uc);
    RoleRulesPass(AsWritten, role, uc);
  }

  /** The registration errors are those of the e-mail, password and role fields, in that order. */
  lemma RegisterErrorsParts(g: Guard, email: string, password: string, role: string, checks: Checks, users: seq<User>)
    ensures var uc := UsersChecks(checks, users);
      RegisterErrors(g, email, password, role, checks, users) ==
        FieldErrors(g, "email", Str(email), RegisterRulesOf(g)[0].1, uc) +
        FieldErrors(g, "password", Str(password), [Required, MinLength(8)], uc) +
        FieldErrors(g, "role", Str(role), [Required, In(["user", "admin"])], uc)
  {
    var data := RegisterData(email, password, role);
    var uc := UsersChecks(checks, users);
    var rules := RegisterRulesOf(g);
    RuleSetErrorsOfThree(g, data, rules[0], rules[1], rules[2], uc);
    assert rules == [rules[0], rules[1], rules[2]];
    assert Lookup(data, "email") == Str(email);
    assert Lookup(data, "password") == Str(password);
    assert Lookup(data, "role") == Str(role);
  }

  lemma EmailRulesPass(email: string, uc: Checks)
    ensures FieldErrors(Intended, "email", Str(email), [Required, Email, Unique("users", "email")], uc) == [] <==>
      email != "" && uc.isEmail(Str(email)) && !uc.recordExists("users", "email", Str(email))
  {
    FieldErrorsOfThree(Intended, "email", Str(email), Required, Email, Unique("users", "email"), uc);
  }

  lemma EmailRulesPassAsWritten(email: string, uc: Checks)
    ensures FieldErrors(AsWritten, "email", Str(email), RegisterRulesAsWritten[0].1, uc) == [] <==>
      email != "" && (email == "0" || uc.isEmail(Str(email)))
  {
    UniqueRuleIgnoredAsWritten(AsWritten, Str(email), uc);
    FieldErrorsOfTwo(AsWritten, "email", Str(email), Required, Email, uc);
  }

  lemma PasswordRulesPass(g: Guard, password: string, uc: Checks)
    ensures g.Intended? ==> (FieldErrors(g, "password", Str(password), [Required, MinLength(8)], uc) == [] <==> |password| >= 8)
    ensures g.AsWritten? ==> (FieldErrors(g, "password", Str(password), [Required, MinLength(8)], uc) == [] <==>
      password != "" && (password == "0" || |password| >= 8))
  {
    FieldErrorsOfTwo(g, "password", Str(password), Required, MinLength(8), uc);
  }

  lemma RoleRulesPass(g: Guard, role: string, uc: Checks)
    ensures g.Intended? ==> (FieldErrors(g, "role", Str(role), [Required, In(["user", "admin"])], uc) == [] <==> role == "user" || role == "admin")
    ensures g.AsWritten? ==> (FieldErrors(g, "role", Str(role), [Required, In(["user", "admin"])], uc) == [] <==>
      role != "" && (role == "0" || role == "user" || role == "admin"))
  {
    FieldErrorsOfTwo(g, "role", Str(role), Required, In(["user", "admin"]), uc);
  }

  /** With the corrected rules, a well-formed address that is already registered is refused with
      "Email already exists". */
  lemma RegisterDuplicateEmail(email: string, password: string, role: string, checks: Checks, users: seq<User>)
    requires email != "" && checks.isEmail(Str(email)) && EmailTaken(users, email)
    ensures RegisterErrors(Intended, email, password, role, checks, users) != []
    ensures RegisterErrors(Intended, email, password, role, checks, users)[0] == "Email already exists"
  {
    var uc := UsersChecks(checks, users);
    var ef := FieldErrors(Intended, "email", Str(email), [Required, Email, Unique("users", "email")], uc);
    assert ef == ["Email already exists"] by {
      FieldErrorsOfThree(Intended, "email", Str(email), Required, Email, Unique("users", "email"), uc);
      assert !IsMissing(Str(email));
      assert uc.isEmail == checks.isEmail;
      assert RuleOutcome(Intended, "email", Str(email), Required, uc) == None;
      assert RuleOutcome(Intended, "email", Str(email), Email, uc) == None;
      assert uc.recordExists("users", "email", Str(email));
      assert RuleOutcome(Intended, "email", Str(email), Unique("users", "email"), uc) == Some(UcFirst("email") + " already exists");
      EmailMessages();
    }
    RegisterErrorsSplit(Intended, email, password, role, checks, users);
  }

  lemma EmailMessages()
    ensures UcFirst("email") + " already exists" == "Email already exists"
    ensures UcFirst("email") + " must be a valid email address" == "Email must be a valid email address"
  {
    TakenMessage();
    InvalidEmailMessage();
  }

  lemma TakenMessage()
    ensures UcFirst("email") + " already exists" == "Email already exists"
  {
    UcFirstEmail();
  }

  lemma InvalidEmailMessage()
    ensures UcFirst("email") + " must be a valid email address" == "Email must be a valid email address"
  {
    UcFirstEmail();
  }

  lemma UcFirstEmail()
    ensures UcFirst("email") == "Email"
  {
  }

  /** When the e-mail field has an error, it is the first error of the registration. */
  lemma RegisterErrorsSplit(g: Guard, email: string, password: string, role: string, checks: Checks, users: seq<User>)
    ensures var ef := FieldErrors(g, "email", Str(email), RegisterRulesOf(g)[0].1, UsersChecks(checks, users));
      ef != [] ==> RegisterErrors(g, email, password, role, checks, users) != [] &&
                   RegisterErrors(g, email, password, role, checks, users)[0] == ef[0]
  {
    var uc := UsersChecks(checks, users);
    RegisterErrorsParts(g, email, password, role, checks, users);
    var ef := FieldErrors(g, "email", Str(email), RegisterRulesOf(g)[0].1, uc);
    var pf := FieldErrors(g, "password", Str(password), [Required, MinLength(8)], uc);
    var rf := FieldErrors(g, "role", Str(role), [Required, In(["user", "admin"])], uc);
    if ef != [] {
      assert (ef + pf + rf)[0] == ef[0];
    }
  }

  /** As written, the e-mail rules never consult the users table: their messages are those of
      `required` and `email` alone, whatever `recordExists` answers. */
  lemma UniqueRuleIgnoredAsWritten(g: Guard, v: Value, checks: Checks)
    ensures FieldErrors(g, "email", v, RegisterRulesAsWritten[0].1, checks) == FieldErrors(g, "email", v, [Required, Email], checks)
  {
    var rules: seq<Rule> := [Required, Email];
    assert RegisterRulesAsWritten[0].1 == rules + [Unrecognized("unique:users:email")];
    UnrecognizedRuleIgnored(g, "email", v, rules, "unique:users:email", checks);
  }

  /** Registration is refused once three attempts from the address fall in the last hour, and
      nothing changes. */
  lemma RegisterRefusedAtLimit(g: Guard, st: AuthState, client: Security.Client, env: Env, email: string, password: string, role: string, now: int)
    requires |Security.Prune(Security.Attempts(st.rateLimits, RegisterKey(client)), now, RegisterWindow)| >= RegisterLimit
    ensures RegisterSpec(g, st, client, env, email, password, role, now) == Step(Err(RegisterThrottled), st)
  {
  }

  /** What a registration changes: one user appended on success and nothing on failure; the
      attempt log is never touched; every call past the throttle uses up a slot of it. */
  lemma RegisterEffects(g: Guard, st: AuthState, client: Security.Client, env: Env, email: string, password: string, role: string, now: int)
    ensures var s := RegisterSpec(g, st, client, env, email, password, role, now);
      s.state.loginAttempts == st.loginAttempts &&
      (s.result.Ok? <==>
        Security.RateLimit(st.rateLimits, RegisterKey(client), RegisterLimit, RegisterWindow, now).allowed &&
        RegisterErrors(g, email, password, role, env.checks, st.users) == [] && !Malicious(env, email)) &&
      (s.result.Ok? ==> s.state.users == st.users + [NewUser(st, env, email, password, role, now)] &&
                        s.result.value.user == UserView(NatToString(|st.users| + 1), email, role)) &&
      (s.result.Err? ==> s.state.users == st.users) &&
      (Security.RateLimit(st.rateLimits, RegisterKey(client), RegisterLimit, RegisterWindow, now).allowed ==>
        s.state.rateLimits == Security.RateLimit(st.rateLimits, RegisterKey(client), RegisterLimit, RegisterWindow, now).store)
  {
    var throttle := Security.RateLimit(st.rateLimits, RegisterKey(client), RegisterLimit, RegisterWindow, now);
    if throttle.allowed {
      RegisterCheckedEffects(g, st.(rateLimits := throttle.store), client, env, email, password, role, now);
    }
  }

  /** Past the throttle: the rate-limit store and the attempt log stay; one user is appended
      exactly when validation and the screen pass. */
  lemma RegisterCheckedEffects(g: Guard, st: AuthState, client: Security.Client, env: Env, email: string, password: string, role: string, now: int)
    ensures var s := RegisterChecked(g, st, client, env, email, password, role, now);
      s.state.loginAttempts == st.loginAttempts && s.state.rateLimits == st.rateLimits &&
      (s.result.Ok? <==> RegisterErrors(g, email, password, role, env.checks, st.users) == [] && !Malicious(env, email)) &&
      (s.result.Ok? ==> s.state.users == st.users + [NewUser(st, env, email, password, role, now)] &&
                        s.result.value.user == UserView(NatToString(|st.users| + 1), email, role)) &&
      (s.result.Err? ==> s.state.users == st.users)
  {
    var errors := RegisterErrors(g, email, password, role, env.checks, st.users);
    if errors != [] {
      assert RegisterChecked(g, st, client, env, email, password, role, now) == Step(Err(errors[0]), st);
    } else if Malicious(env, email) {
    } else {
      assert RegisterChecked(g, st, client, env, email, password, role, now) == RegisterInsert(st, client, env, email, password, role, now);
    }
  }

  /** With the corrected guard and rules, a registered user has a fresh address, a password of
      eight characters or more and one of the two roles, so addresses stay distinct and roles
      stay in range. */
  lemma RegisterKeepsUsersSound(st: AuthState, client: Security.Client, env: Env, email: string, password: string, role: string, now: int)
    requires EmailsDistinct(st.users)
    requires forall i :: 0 <= i < |st.users| ==> st.users[i].role == "user" || st.users[i].role == "admin"
    ensures var s := RegisterSpec(Intended, st, client, env, email, password, role, now);
      EmailsDistinct(s.state.users) &&
      (forall i :: 0 <= i < |s.state.users| ==> s.state.users[i].role == "user" || s.state.users[i].role == "admin") &&
      (s.result.Ok? ==> |password| >= 8 && !EmailTaken(st.users, email))
  {
    var s := RegisterSpec(Intended, st, client, env, email, password, role, now);
    RegisterEffects(Intended, st, client, env, email, password, role, now);
    if s.result.Ok? {
      RegisterErrorsEmpty(email, password, role, env.checks, st.users);
      AppendSoundUser(st.users, NewUser(st, env, email, password, role, now));
    }
  }

  /** A user with a fresh address and one of the two roles keeps the table sound. */
  lemma AppendSoundUser(users: seq<User>, user: User)
    requires EmailsDistinct(users) && !EmailTaken(users, user.email)
    requires forall i :: 0 <= i < |users| ==> users[i].role == "user" || users[i].role == "admin"
    requires user.role == "user" || user.role == "admin"
    ensures EmailsDistinct(users + [user])
    ensures forall i :: 0 <= i < |users + [user]| ==> (users + [user])[i].role == "user" || (users + [user])[i].role == "admin"
  {
    var t := users + [user];
    forall i, j | 0 <= i < j < |t| ensures t[i].email != t[j].email {
      if j == |users| {
        assert t[i] == users[i];
      } else {
        assert t[i] == users[i] && t[j] == users[j];
      }
    }
    forall i | 0 <= i < |t| ensures t[i].role == "user" || t[i].role == "admin" {
      if i < |users| { assert t[i] == users[i]; }
    }
  }

  /** As written, an address that is already registered is registered again: the call succeeds
      and the users table ends up with two rows for the address. */
  lemma RegisterDuplicateAsWritten(st: AuthState, client: Security.Client, env: Env, email: string, password: string, role: string, now: int)
    requires Security.RateLimit(st.rateLimits, RegisterKey(client), RegisterLimit, RegisterWindow, now).allowed
    requires EmailTaken(st.users, email) && email != "" && env.checks.isEmail(Str(email)) && !Malicious(env, email)
    requires |password| >= 8 && role == "user"
    ensures var s := RegisterSpec(AsWritten, st, client, env, email, password, role, now);
      s.result.Ok? && !EmailsDistinct(s.state.users)
  {
    var s := RegisterSpec(AsWritten, st, client, env, email, password, role, now);
    RegisterErrorsEmptyAsWritten(email, password, role, env.checks, st.users);
    RegisterEffects(AsWritten, st, client, env, email, password, role, now);
    var i :| 0 <= i < |st.users| && st.users[i].email == email;
    assert s.state.users[i] == st.users[i] && s.state.users[|st.users|].email == email;
  }

  /** As written, the password "0" and the role "0" are accepted and stored; with the corrected
      guard the same registration is refused and the users table is left alone. */
  lemma RegisterZeroAcceptedAsWritten(st: AuthState, client: Security.Client, env: Env, email: string, now: int)
    requires Security.RateLimit(st.rateLimits, RegisterKey(client), RegisterLimit, RegisterWindow, now).allowed
    requires email != "" && env.checks.isEmail(Str(email)) && !Malicious(env, email)
    ensures var s := RegisterSpec(AsWritten, st, client, env, email, "0", "0", now);
      s.result.Ok? && s.state.users == st.users + [NewUser(st, env, email, "0", "0", now)] && s.state.users[|st.users|].role == "0"
    ensures var s := RegisterSpec(Intended, st, client, env, email, "0", "0", now);
      s.result.Err? && s.state.users == st.users
  {
    RegisterErrorsEmptyAsWritten(email, "0", "0", env.checks, st.users);
    RegisterErrorsEmpty(email, "0", "0", env.checks, st.users);
    RegisterEffects(AsWritten, st, client, env, email, "0", "0", now);
    RegisterEffects(Intended, st, client, env, email, "0", "0", now);
  }

  /** The e-mail check comes before the malicious-input screen: an address the guard inspects and
      the format check refuses is reported as such and no security event is logged. */
  lemma RegisterValidatesBeforeScreening(g: Guard, st: AuthState, client: Security.Client, env: Env, email: string, password: string, role: string, now: int)
    requires Security.RateLimit(st.rateLimits, RegisterKey(client), RegisterLimit, RegisterWindow, now).allowed
    requires Inspected(g, Str(email)) && !env.checks.isEmail(Str(email))
    ensures var s := RegisterSpec(g, st, client, env, email, password, role, now);
      s.result == Err("Email must be a valid email address") && s.state.securityLogs == st.securityLogs
  {
    var uc := UsersChecks(env.checks, st.users);
    var ef := FieldErrors(g, "email", Str(email), RegisterRulesOf(g)[0].1, uc);
    assert ef[0] == "Email must be a valid email address" by {
      if g.AsWritten? {
        UniqueRuleIgnoredAsWritten(g, Str(email), uc);
        FieldErrorsOfTwo(g, "email", Str(email), Required, Email, uc);
      } else {
        FieldErrorsOfThree(g, "email", Str(email), Required, Email, Unique("users", "email"), uc);
      }
      assert RuleOutcome(g, "email", Str(email), Required, uc) == None;
      assert RuleOutcome(g, "email", Str(email), Email, uc) == Some(UcFirst("email") + " must be a valid email address");
      EmailMessages();
    }
    RegisterErrorsSplit(g, email, password, role, env.checks, st.users);
  }

  // ================================================================ login

  function LoginData(email: string, password: string): map<string, Value>
  {
    map["email" := Str(email), "password" := Str(password)]
  }

  const LoginRules: seq<(string, seq<Rule>)> := [("email", [Required, Email]), ("password", [Required])]

  function LoginKey(client: Security.Client): string
  {
    "login:" + GetOr(client.remoteAddr, "")
  }

  /** The user row after a successful login: stamped, unlocked, failure count reset. */
  function LoggedIn(user: User, now: int): User
  {
    user.(lastLogin := Some(now), lockedUntil := None, failedLoginAttempts := 0)
  }

  /** `login`: throttle, attempt-count lockout, validate, screen, look up, per-user lock,
      password, then record success, clear the attempts, update the user and issue a token. */
  function LoginSpec(g: Guard, st: AuthState, client: Security.Client, env: Env, email: string, password: string, now: int): Step
  {
    var throttle := Security.RateLimit(st.rateLimits, LoginKey(client), LoginLimit, LoginWindow, now);
    if !throttle.allowed then Step(Err(LoginThrottled), st)
    else LoginChecked(g, st.(rateLimits := throttle.store), client, env, email, password, now)
  }

  /** `login` past the throttle: the lockout count, the validator and the screen. */
  function LoginChecked(g: Guard, st: AuthState, client: Security.Client, env: Env, email: string, password: string, now: int): Step
  {
    if Security.CountRecent(st.loginAttempts, email, now - Security.LockoutDuration) >= Security.MaxLoginAttempts then
      Step(Err(AccountLocked), Log(st, client, "login_attempt_locked_account", [("email", email)], now))
    else
      var errors := RuleSetErrors(g, LoginData(email, password), LoginRules, env.checks);
      if errors != [] then Step(Err(errors[0]), st)
      else if Malicious(env, email) then
        Step(Err(MaliciousInput), Log(st, client, "login_attempt_malicious", [("email", email)], now))
      else LoginCredentials(st, client, env, email, password, now)
  }

  /** `login` past the checks: the user's row, its lock and the password. */
  function LoginCredentials(st: AuthState, client: Security.Client, env: Env, email: string, password: string, now: int): Step
  {
    match FindByEmail(st.users, email)
    case None => Step(Err(BadCredentials), Attempt(st, client, email, false, now))
    case Some(i) =>
      var user := st.users[i];
      if user.lockedUntil.Some? && user.lockedUntil.value > now then
        Step(Err(UserLocked), Log(st, client, "login_attempt_locked_user", [("email", email)], now))
      else if !env.crypto.verifyPassword(password, user.passwordHash) then
        Step(Err(BadCredentials), Attempt(st, client, email, false, now))
      else
        var st2 := Attempt(st, client, email, true, now);
        var st3 := st2.(loginAttempts := Security.WithoutEmail(st2.loginAttempts, email),
                        users := st.users[i := LoggedIn(user, now)]);
        var id := NatToString(user.id);
        Step(Ok(CreateTokenResponse(id, user.email, user.role, now, env.crypto)),
             Log(st3, client, "user_login_success", [("user_id", id), ("email", email)], now))
  }

  method Login(g: Guard, db: Database, session: Session, client: Security.Client, env: Env, email: string, password: string, now: int)
    returns (r: Result<TokenResponse>)
    requires db.Valid()
    modifies db`users, db`loginAttempts, db`securityLogs, session`rateLimits
    ensures db.Valid()
    ensures Step(r, StateOf(db, session)) == LoginSpec(g, old(StateOf(db, session)), client, env, email, password, now)
  {
    var allowed := Security.CheckRateLimit(session, LoginKey(client), LoginLimit, LoginWindow, now);
    if !allowed {
      return Err(LoginThrottled);
    }
    r := CheckLogin(g, db, session, client, env, email, password, now);
  }

  method CheckLogin(g: Guard, db: Database, session: Session, client: Security.Client, env: Env, email: string, password: string, now: int)
    returns (r: Result<TokenResponse>)
    requires db.Valid()
    modifies db`users, db`loginAttempts, db`securityLogs
    ensures db.Valid()
    ensures Step(r, StateOf(db, session)) == LoginChecked(g, old(StateOf(db, session)), client, env, email, password, now)
  {
    ghost var st0 := StateOf(db, session);
    var unlocked := Security.CheckLoginAttempts(db, email, now);
    if !unlocked {
      Security.LogSecurityEvent(db, client, "login_attempt_locked_account", [("email", email)], now);
      assert StateOf(db, session) == Log(st0, client, "login_attempt_locked_account", [("email", email)], now);
      return Err(AccountLocked);
    }
    var validator := new Validator();
    var valid := validator.Validate(g, LoginData(email, password), LoginRules, env.checks);
    assert StateOf(db, session) == st0;
    if !valid {
      var first := validator.GetFirstError();
      assert LoginChecked(g, st0, client, env, email, password, now) == Step(Err(first.value), st0);
      return Err(first.value);
    }
    if Security.DetectXss(email) || Security.DetectSqlInjection(email, env.sqlKeywordHit(email)) {
      Security.LogSecurityEvent(db, client, "login_attempt_malicious", [("email", email)], now);
      assert StateOf(db, session) == Log(st0, client, "login_attempt_malicious", [("email", email)], now);
      return Err(MaliciousInput);
    }
    assert LoginChecked(g, st0, client, env, email, password, now) == LoginCredentials(st0, client, env, email, password, now);
    r := CheckCredentials(db, session, client, env, email, password, now);
  }

  method CheckCredentials(db: Database, session: Session, client: Security.Client, env: Env, email: string, password: string, now: int)
    returns (r: Result<TokenResponse>)
    requires db.Valid()
    modifies db`users, db`loginAttempts, db`securityLogs
    ensures db.Valid()
    ensures Step(r, StateOf(db, session)) == LoginCredentials(old(StateOf(db, session)), client, env, email, password, now)
  {
    var found := FindByEmail(db.users, email);
    if found.None? {
      Security.RecordLoginAttempt(db, client, email, false, now);
      return Err(BadCredentials);
    }
    var i := found.value;
    var user := db.users[i];
    if user.lockedUntil.Some? && user.lockedUntil.value > now {
      Security.LogSecurityEvent(db, client, "login_attempt_locked_user", [("email", email)], now);
      return Err(UserLocked);
    }
    if !env.crypto.verifyPassword(password, user.passwordHash) {
      Security.RecordLoginAttempt(db, client, email, false, now);
      return Err(BadCredentials);
    }
    Security.RecordLoginAttempt(db, client, email, true, now);
    Security.ClearLoginAttempts(db, email);
    db.users := db.users[i := LoggedIn(user, now)];
    Security.LogSecurityEvent(db, client, "user_login_success", [("user_id", NatToString(user.id)), ("email", email)], now);
    r := Ok(CreateTokenResponse(NatToString(user.id), user.email, user.role, now, env.crypto));
  }

  /** The login rules pass exactly for a non-empty address that, with the corrected guard, is
      well formed (as written "0" need not be) and a non-empty password. */
  lemma LoginErrorsEmpty(g: Guard, email: string, password: string, checks: Checks)
    ensures g.Intended? ==> (RuleSetErrors(g, LoginData(email, password), LoginRules, checks) == [] <==>
      email != "" && checks.isEmail(Str(email)) && password != "")
    ensures g.AsWritten? ==> (RuleSetErrors(g, LoginData(email, password), LoginRules, checks) == [] <==>
      email != "" && (email == "0" || checks.isEmail(Str(email))) && password != "")
  {
    var data := LoginData(email, password);
    RuleSetErrorsOfTwo(g, data, LoginRules[0], LoginRules[1], checks);
    assert LoginRules == [LoginRules[0], LoginRules[1]];
    assert Lookup(data, "email") == Str(email);
    assert Lookup(data, "password") == Str(password);
    FieldErrorsOfTwo(g, "email", Str(email), Required, Email, checks);
    assert [Required][..0] == [];
    assert FieldErrors(g, "password", Str(password), [Required], checks) == Messages(RuleOutcome(g, "password", Str(password), Required, checks));
  }

  /** As written, the address "0" passes validation and the login goes on to the lookup: an
      unknown "0" answers "Invalid credentials" and records a failed attempt; with the corrected
      guard the same login is refused as a malformed address and records nothing. */
  lemma LoginZeroEmailAsWritten(st: AuthState, client: Security.Client, env: Env, password: string, now: int)
    requires Security.RateLimit(st.rateLimits, LoginKey(client), LoginLimit, LoginWindow, now).allowed
    requires Security.CountRecent(st.loginAttempts, "0", now - Security.LockoutDuration) < Security.MaxLoginAttempts
    requires password != "" && !env.checks.isEmail(Str("0")) && !Malicious(env, "0") && !EmailTaken(st.users, "0")
    ensures var s := LoginSpec(AsWritten, st, client, env, "0", password, now);
      s.result == Err(BadCredentials) && s.state.loginAttempts == st.loginAttempts + [LoginAttempt("0", Security.LoggedIp(client), false, now)]
  {
    LoginErrorsEmpty(AsWritten, "0", password, env.checks);
    LoginFailureIndistinguishable(AsWritten, st, client, env, "0", password, now);
  }

  /** Under the intended guard the same login stops at validation, recording nothing. */
  lemma LoginZeroEmailIntended(st: AuthState, client: Security.Client, env: Env, password: string, now: int)
    requires Security.RateLimit(st.rateLimits, LoginKey(client), LoginLimit, LoginWindow, now).allowed
    requires Security.CountRecent(st.loginAttempts, "0", now - Security.LockoutDuration) < Security.MaxLoginAttempts
    requires password != "" && !env.checks.isEmail(Str("0"))
    ensures var s := LoginSpec(Intended, st, client, env, "0", password, now);
      s.result == Err("Email must be a valid email address") && s.state.loginAttempts == st.loginAttempts
  {
    var data := LoginData("0", password);
    assert RuleSetErrors(Intended, data, LoginRules, env.checks)[0] == "Email must be a valid email address" by {
      RuleSetErrorsOfTwo(Intended, data, LoginRules[0], LoginRules[1], env.checks);
      assert LoginRules == [LoginRules[0], LoginRules[1]];
      assert Lookup(data, "email") == Str("0");
      FieldErrorsOfTwo(Intended, "email", Str("0"), Required, Email, env.checks);
      InvalidEmailMessage();
    }
  }

  /** Five attempts for the address in the last fifteen minutes lock the account: the login is
      refused before the password is looked at, and only a security event is added. */
  lemma LoginLockedOut(g: Guard, st: AuthState, client: Security.Client, env: Env, email: string, password: string, now: int)
    requires Security.RateLimit(st.rateLimits, LoginKey(client), LoginLimit, LoginWindow, now).allowed
    requires Security.CountRecent(st.loginAttempts, email, now - Security.LockoutDuration) >= Security.MaxLoginAttempts
    ensures var s := LoginSpec(g, st, client, env, email, password, now);
      s.result == Err(AccountLocked) && s.state.users == st.users && s.state.loginAttempts == st.loginAttempts &&
      |s.state.securityLogs| == |st.securityLogs| + 1 && s.state.securityLogs[|st.securityLogs|].event == "login_attempt_locked_account"
  {
  }

  /** The checks that come before the credentials pass. */
  predicate PastScreening(g: Guard, st: AuthState, client: Security.Client, env: Env, email: string, password: string, now: int)
  {
    Security.RateLimit(st.rateLimits, LoginKey(client), LoginLimit, LoginWindow, now).allowed &&
    Security.CountRecent(st.loginAttempts, email, now - Security.LockoutDuration) < Security.MaxLoginAttempts &&
    RuleSetErrors(g, LoginData(email, password), LoginRules, env.checks) == [] && !Malicious(env, email)
  }

  /** An unknown address and a wrong password look the same from outside: "Invalid credentials",
      one failed attempt recorded for the address, users untouched; each such failure brings the
      address one attempt closer to the lockout. */
  lemma LoginFailureIndistinguishable(g: Guard, st: AuthState, client: Security.Client, env: Env, email: string, password: string, now: int)
    requires PastScreening(g, st, client, env, email, password, now)
    requires FindByEmail(st.users, email).None? ||
      (var u := st.users[FindByEmail(st.users, email).value];
       !(u.lockedUntil.Some? && u.lockedUntil.value > now) && !env.crypto.verifyPassword(password, u.passwordHash))
    ensures var s := LoginSpec(g, st, client, env, email, password, now);
      s.result == Err(BadCredentials) && s.state.users == st.users &&
      s.state.loginAttempts == st.loginAttempts + [LoginAttempt(email, Security.LoggedIp(client), false, now)] &&
      Security.CountRecent(s.state.loginAttempts, email, now - Security.LockoutDuration)
        == Security.CountRecent(st.loginAttempts, email, now - Security.LockoutDuration) + 1
  {
    var st1 := st.(rateLimits := Security.RateLimit(st.rateLimits, LoginKey(client), LoginLimit, LoginWindow, now).store);
    assert LoginSpec(g, st, client, env, email, password, now) == LoginCredentials(st1, client, env, email, password, now);
    var a := LoginAttempt(email, Security.LoggedIp(client), false, now);
    Security.RecordedAttemptCounts(st.loginAttempts, a, email, now - Security.LockoutDuration);
  }

  /** A successful login belongs to the first user with the address and a matching password:
      that user is stamped and unlocked, other users are untouched, the address's attempts are
      all cleared and the token names that user. */
  lemma LoginSuccess(g: Guard, st: AuthState, client: Security.Client, env: Env, email: string, password: string, now: int)
    requires LoginSpec(g, st, client, env, email, password, now).result.Ok?
    ensures FindByEmail(st.users, email).Some?
    ensures var i := FindByEmail(st.users, email).value;
      var s := LoginSpec(g, st, client, env, email, password, now);
      env.crypto.verifyPassword(password, st.users[i].passwordHash) &&
      s.state.users == st.users[i := LoggedIn(st.users[i], now)] &&
      s.state.users[i].failedLoginAttempts == 0 && s.state.users[i].lockedUntil == None && s.state.users[i].lastLogin == Some(now) &&
      (forall c :: Security.CountRecent(s.state.loginAttempts, email, c) == 0) &&
      s.result.value.user == UserView(NatToString(st.users[i].id), st.users[i].email, st.users[i].role)
  {
    var s := LoginSpec(g, st, client, env, email, password, now);
    var throttle := Security.RateLimit(st.rateLimits, LoginKey(client), LoginLimit, LoginWindow, now);
    assert throttle.allowed;
    var st1 := st.(rateLimits := throttle.store);
    assert s == LoginChecked(g, st1, client, env, email, password, now);
    LoginCheckedOk(g, st1, client, env, email, password, now);
    LoginCredentialsOk(st1, client, env, email, password, now);
    var log2 := st.loginAttempts + [LoginAttempt(email, Security.LoggedIp(client), true, now)];
    forall c ensures Security.CountRecent(s.state.loginAttempts, email, c) == 0 {
      Security.ClearedEmailCountsZero(log2, email, c);
    }
  }

  /** Only the credentials step answers with a token. */
  lemma LoginCheckedOk(g: Guard, st: AuthState, client: Security.Client, env: Env, email: string, password: string, now: int)
    requires LoginChecked(g, st, client, env, email, password, now).result.Ok?
    ensures LoginChecked(g, st, client, env, email, password, now) == LoginCredentials(st, client, env, email, password, now)
  {
  }

  lemma LoginCredentialsOk(st: AuthState, client: Security.Client, env: Env, email: string, password: string, now: int)
    requires LoginCredentials(st, client, env, email, password, now).result.Ok?
    ensures FindByEmail(st.users, email).Some?
    ensures var i := FindByEmail(st.users, email).value;
      var s := LoginCredentials(st, client, env, email, password, now);
      env.crypto.verifyPassword(password, st.users[i].passwordHash) &&
      s.state.users == st.users[i := LoggedIn(st.users[i], now)] &&
      s.state.loginAttempts == Security.WithoutEmail(st.loginAttempts + [LoginAttempt(email, Security.LoggedIp(client), true, now)], email) &&
      s.result.value.user == UserView(NatToString(st.users[i].id), st.users[i].email, st.users[i].role)
  {
  }

  /** `login` never locks a user: a lock is only ever kept or lifted. */
  lemma LoginNeverLocks(g: Guard, st: AuthState, client: Security.Client, env: Env, email: string, password: string, now: int)
    ensures var s := LoginSpec(g, st, client, env, email, password, now);
      |s.state.users| == |st.users| &&
      forall i :: 0 <= i < |st.users| ==> s.state.users[i].lockedUntil == st.users[i].lockedUntil || s.state.users[i].lockedUntil == None
  {
    var s := LoginSpec(g, st, client, env, email, password, now);
    var throttle := Security.RateLimit(st.rateLimits, LoginKey(client), LoginLimit, LoginWindow, now);
    if throttle.allowed {
      var st1 := st.(rateLimits := throttle.store);
      LoginCheckedUsers(g, st1, client, env, email, password, now);
      if s.state.users != st.users {
        var k := FindByEmail(st.users, email).value;
        assert s.state.users == st.users[k := LoggedIn(st.users[k], now)];
      }
    }
  }

  /** Past the throttle, `login` leaves the users table alone, or logs in the row found for
      the address. */
  lemma LoginCheckedUsers(g: Guard, st: AuthState, client: Security.Client, env: Env, email: string, password: string, now: int)
    ensures var s := LoginChecked(g, st, client, env, email, password, now);
      s.state.users == st.users ||
      (FindByEmail(st.users, email).Some? &&
       s.state.users == st.users[FindByEmail(st.users, email).value := LoggedIn(st.users[FindByEmail(st.users, email).value], now)])
  {
    if Security.CountRecent(st.loginAttempts, email, now - Security.LockoutDuration) < Security.MaxLoginAttempts {
      var errors := RuleSetErrors(g, LoginData(email, password), LoginRules, env.checks);
      if errors == [] && !Malicious(env, email) {
        LoginCredentialsUsers(st, client, env, email, password, now);
      }
    }
  }

  lemma LoginCredentialsUsers(st: AuthState, client: Security.Client, env: Env, email: string, password: string, now: int)
    ensures var s := LoginCredentials(st, client, env, email, password, now);
      s.state.users == st.users ||
      (FindByEmail(st.users, email).Some? &&
       s.state.users == st.users[FindByEmail(st.users, email).value := LoggedIn(st.users[FindByEmail(st.users, email).value], now)])
  {
  }
}
