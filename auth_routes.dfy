/**
 * The `/auth` routes of `backend/routes/auth.py`: login issues a signed
 * token for the first active user with the email whose password verifies;
 * `forgot-password` and `reset-password` run a one-hour, single-use reset
 * token stored on the user row.
 *
 * The clock is a parameter in seconds; the fresh reset token that
 * `str(uuid4())` draws, bcrypt (`verify`, `hash`) and JWT signing (`encode`)
 * are parameters too. Sending the reset email is returned as a value.
 */
module AuthRoutes {
  import opened Common
  import opened Claims
  import opened Auth
  import opened Models

  /** How long a reset token stays valid: one hour of the clock. */
  const ResetLifetime: int := 3600

  function ActiveKey(u: User): (string, bool) { (u.email, u.isActive) }

  /** `query(User).filter(User.email == email, User.is_active == True).first()` */
  function FindActive(users: seq<User>, email: string): (r: Option<nat>)
    ensures r.Some? ==> r.value < |users| && users[r.value].email == email && users[r.value].isActive
    ensures r.Some? ==> forall j :: 0 <= j < r.value ==> !(users[j].email == email && users[j].isActive)
    ensures r.None? <==> forall i :: 0 <= i < |users| ==> !(users[i].email == email && users[i].isActive)
  {
    FirstWhere(users, ActiveKey, (email, true))
  }

  // ---------------------------------------------------------------------
  // Login
  // ---------------------------------------------------------------------

  /** A nullable integer column as a JSON claim. */
  function IdClaim(id: Option<int>): ClaimValue {
    if id.Some? then CInt(id.value) else CNull
  }

  /** The claims login signs: the user's id under `user_id`, the role and the company. */
  function LoginClaims(u: User): (p: Payload)
    ensures p.Keys == {"user_id", "role", "company_id"}
  {
    map["user_id" := CInt(u.id), "role" := CStr(u.role), "company_id" := IdClaim(u.companyId)]
  }

  /** The login response: the signed token and the user's role. */
  datatype LoginReply = LoginReply(accessToken: string, role: string)

  /** `login`: 401 unless an active user has the email and the password verifies against its hash. */
  function Login(users: seq<User>, email: string, password: string, verify: (string, string) -> bool,
                 encode: Payload -> string, now: int): (r: Result<LoginReply>)
    ensures r.Err? ==> r.error == HttpError(401, "Invalid credentials")
    ensures r.Ok? <==> FindActive(users, email).Some? && verify(password, users[FindActive(users, email).value].passwordHash)
    ensures r.Ok? ==> r.value.role == users[FindActive(users, email).value].role
    ensures r.Ok? ==>
              r.value.accessToken ==
              encode(TokenPayload(LoginClaims(users[FindActive(users, email).value]), now, DefaultExpiryMinutes))
  {
    match FindActive(users, email)
    case None => Err(HttpError(401, "Invalid credentials"))
    case Some(i) =>
      if !verify(password, users[i].passwordHash) then Err(HttpError(401, "Invalid credentials"))
      else Ok(LoginReply(encode(TokenPayload(LoginClaims(users[i]), now, DefaultExpiryMinutes)), users[i].role))
  }

  /** An inactive user cannot log in, whatever the password. */
  lemma InactiveCannotLogIn(users: seq<User>, email: string, password: string, verify: (string, string) -> bool,
                            encode: Payload -> string, now: int)
    requires forall i :: 0 <= i < |users| && users[i].email == email ==> !users[i].isActive
    ensures Login(users, email, password, verify, encode, now) == Err(HttpError(401, "Invalid credentials"))
  {
  }

  /**
   * What the guards read back from a signed login payload: the user id under `user_id`,
   * the company, the admin role exactly for admins, and no `id` claim, so reading
   * `current_user["id"]` fails with `KeyError`.
   */
  lemma IssuedClaims(u: User, now: int)
    ensures var p := TokenPayload(LoginClaims(u), now, DefaultExpiryMinutes);
            CallerId(p) == Ok(Some(u.id)) &&
            CompanyOf(p) == Ok(u.companyId) &&
            (IsAdmin(p) <==> u.role == "admin") &&
            CallerIdAsWritten(p) == Err(Crash("KeyError"))
  {
    var p := TokenPayload(LoginClaims(u), now, DefaultExpiryMinutes);
    assert "id" !in LoginClaims(u).Keys;
    assert p["user_id"] == CInt(u.id);
    assert p["company_id"] == IdClaim(u.companyId);
    assert p["role"] == CStr(u.role);
  }

  /**
   * A token from a successful login, sent back as `Bearer <token>` and decoded by the
   * inverse of the signer, authenticates as the user who logged in; the handlers that
   * read `current_user["id"]` fail on it.
   */
  lemma LoginTokenAuthenticates(users: seq<User>, email: string, password: string, verify: (string, string) -> bool,
                                encode: Payload -> string, decode: string -> Option<Payload>, now: int)
    requires Login(users, email, password, verify, encode, now).Ok?
    requires ' ' !in Login(users, email, password, verify, encode, now).value.accessToken
    requires forall p :: decode(encode(p)) == Some(p)
    ensures var token := Login(users, email, password, verify, encode, now).value.accessToken;
            var u := users[FindActive(users, email).value];
            var caller := GetCurrentUser(Some("Bearer " + token), decode);
            caller.Ok? && CallerId(caller.value) == Ok(Some(u.id)) && CompanyOf(caller.value) == Ok(u.companyId) &&
            CallerIdAsWritten(caller.value) == Err(Crash("KeyError"))
  {
    var token := Login(users, email, password, verify, encode, now).value.accessToken;
    var u := users[FindActive(users, email).value];
    var p := TokenPayload(LoginClaims(u), now, DefaultExpiryMinutes);
    assert decode(encode(p)) == Some(p);
    BearerRoundTrip(token);
    IssuedClaims(u, now);
  }

  // ---------------------------------------------------------------------
  // Password reset
  // ---------------------------------------------------------------------

  /** The reset email `send_reset_email` is asked to send. */
  datatype ResetMail = ResetMail(to: string, token: string)

  /** The user row after `forgot_password` stored a token for it. */
  function IssueReset(users: seq<User>, i: nat, token: string, now: int): (r: seq<User>)
    requires i < |users|
    ensures |r| == |users|
  {
    users[i := users[i].(resetToken := Some(token), resetTokenExpiry := Some(now + ResetLifetime))]
  }

  /** `User.reset_token == token, User.reset_token_expiry > now`; a `NULL` expiry matches nothing. */
  predicate Redeems(u: User, token: string, now: int) {
    u.resetToken == Some(token) && u.resetTokenExpiry.Some? && u.resetTokenExpiry.value > now
  }

  /** A user without a stored token, or without an expiry, is matched by no token at any time. */
  lemma ClearedNeverRedeems(u: User, token: string, now: int)
    requires u.resetToken.None? || u.resetTokenExpiry.None?
    ensures !Redeems(u, token, now)
  {
  }

  /** A stored token redeems exactly while the clock is strictly before its expiry. */
  lemma RedeemsBeforeExpiry(u: User, token: string, expiry: int, now: int)
    requires u.resetToken == Some(token) && u.resetTokenExpiry == Some(expiry)
    ensures Redeems(u, token, now) <==> now < expiry
  {
  }

  /** The first user whose stored token is `token` and still valid at `now`. */
  function ResetTarget(users: seq<User>, token: string, now: int): (r: Option<nat>)
    ensures r.Some? ==> r.value < |users| && Redeems(users[r.value], token, now)
    ensures r.Some? ==> forall j :: 0 <= j < r.value ==> !Redeems(users[j], token, now)
    ensures r.None? <==> forall i :: 0 <= i < |users| ==> !Redeems(users[i], token, now)
    decreases |users|
  {
    if |users| == 0 then None
    else if Redeems(users[0], token, now) then Some(0)
    else
      match ResetTarget(users[1..], token, now)
      case None => None
      case Some(k) => Some(k + 1)
  }

  /** The user row after a successful reset: the new hash, and no token. */
  function ApplyReset(users: seq<User>, i: nat, newHash: string): (r: seq<User>)
    requires i < |users|
    ensures |r| == |users|
  {
    users[i := users[i].(passwordHash := newHash, resetToken := None, resetTokenExpiry := None)]
  }

  /** Rewriting one user without touching its id or email keeps the table well-formed. */
  lemma KeepsUserKeys(db: Database, users: seq<User>)
    requires db.Valid()
    requires |users| == |db.users|
    requires forall i :: 0 <= i < |users| ==> users[i].id == db.users[i].id && users[i].email == db.users[i].email
    ensures IdsBelow(users, (u: User) => u.id, db.nextUserId) && Unique(users, EmailOf)
  {
  }

  /** `forgot_password`: an unknown or inactive email changes nothing; otherwise the first match gets a fresh one-hour token. */
  method ForgotPassword(db: Database, email: string, token: string, now: int) returns (mail: Option<ResetMail>)
    requires db.Valid()
    modifies db
    ensures db.Valid()
    ensures FindActive(old(db.users), email).None? ==> mail.None? && db.users == old(db.users)
    ensures FindActive(old(db.users), email).Some? ==>
              mail == Some(ResetMail(email, token)) &&
              db.users == IssueReset(old(db.users), FindActive(old(db.users), email).value, token, now)
    ensures db.companies == old(db.companies) && db.jobcards == old(db.jobcards)
    ensures db.clients == old(db.clients) && db.tasks == old(db.tasks)
    ensures db.nextCompanyId == old(db.nextCompanyId) && db.nextUserId == old(db.nextUserId)
    ensures db.nextJobCardId == old(db.nextJobCardId) && db.nextClientId == old(db.nextClientId)
    ensures db.nextTaskId == old(db.nextTaskId)
  {
    var found := FindActive(db.users, email);
    if found.None? {
      mail := None;
      return;
    }
    var users := IssueReset(db.users, found.value, token, now);
    KeepsUserKeys(db, users);
    db.users := users;
    mail := Some(ResetMail(email, token));
  }

  /** `reset_password`: 400 unless some user holds the token unexpired; then that user gets the new hash and loses the token. */
  method ResetPassword(db: Database, token: string, password: string, now: int, hash: string -> string)
    returns (r: Result<()>)
    requires db.Valid()
    modifies db
    ensures db.Valid()
    ensures ResetTarget(old(db.users), token, now).None? ==>
              r == Err(HttpError(400, "Invalid or expired token")) && db.users == old(db.users)
    ensures ResetTarget(old(db.users), token, now).Some? ==>
              r == Ok(()) &&
              db.users == ApplyReset(old(db.users), ResetTarget(old(db.users), token, now).value, hash(password))
    ensures db.companies == old(db.companies) && db.jobcards == old(db.jobcards)
    ensures db.clients == old(db.clients) && db.tasks == old(db.tasks)
    ensures db.nextCompanyId == old(db.nextCompanyId) && db.nextUserId == old(db.nextUserId)
    ensures db.nextJobCardId == old(db.nextJobCardId) && db.nextClientId == old(db.nextClientId)
    ensures db.nextTaskId == old(db.nextTaskId)
  {
    var found := ResetTarget(db.users, token, now);
    if found.None? {
      r := Err(HttpError(400, "Invalid or expired token"));
      return;
    }
    var users := ApplyReset(db.users, found.value, hash(password));
    KeepsUserKeys(db, users);
    db.users := users;
    r := Ok(());
  }

  /**
   * A freshly issued token, held by no other user, redeems for that user exactly while
   * the clock is before the expiry an hour on, and never for anyone else.
   */
  lemma IssuedTokenWindow(users: seq<User>, i: nat, token: string, now: int, t: int)
    requires i < |users|
    requires forall j :: 0 <= j < |users| && j != i ==> users[j].resetToken != Some(token)
    ensures t < now + ResetLifetime ==> ResetTarget(IssueReset(users, i, token, now), token, t) == Some(i)
    ensures t >= now + ResetLifetime ==> ResetTarget(IssueReset(users, i, token, now), token, t).None?
  {
    var u := IssueReset(users, i, token, now);
    assert forall j :: 0 <= j < |u| && j != i ==> u[j] == users[j];
    if t < now + ResetLifetime {
      assert Redeems(u[i], token, t);
    }
  }

  /** Issuing a new token revokes the earlier one of the same user. */
  lemma ReissueRevokes(users: seq<User>, i: nat, earlier: string, token: string, t0: int, t1: int, t: int)
    requires i < |users| && earlier != token
    ensures !Redeems(IssueReset(IssueReset(users, i, earlier, t0), i, token, t1)[i], earlier, t)
  {
  }

  /** A token works at most once: after the reset its user holds no token, so no later reset with it succeeds. */
  lemma ResetIsSingleUse(users: seq<User>, token: string, now: int, newHash: string, later: int)
    requires ResetTarget(users, token, now).Some?
    requires forall j :: 0 <= j < |users| && j != ResetTarget(users, token, now).value ==> users[j].resetToken != Some(token)
    ensures ResetTarget(ApplyReset(users, ResetTarget(users, token, now).value, newHash), token, later).None?
  {
    var i := ResetTarget(users, token, now).value;
    var u := ApplyReset(users, i, newHash);
    assert forall j :: 0 <= j < |u| && j != i ==> u[j] == users[j];
  }
}
