/**
 * The user administration routes of `backend/routes/users.py`: listing every
 * user and creating one after a fixed sequence of checks. The response model
 * `UserOut` leaves the password hash and the reset fields out.
 */
module Users {
  import opened Common
  import opened Utf8
  import opened Auth
  import opened Models
  import opened JobCards

  /** The JSON body of a create request; `role` already holds `"technician"` when the client left it out. */
  datatype UserCreate = UserCreate(name: string, email: string, password: string, role: string, companyId: Option<int>)

  /** What the routes return of a user. */
  datatype UserOut = UserOut(id: nat, name: string, email: string, role: string, companyId: Option<int>)

  function Out(u: User): UserOut {
    UserOut(u.id, u.name, u.email, u.role, u.companyId)
  }

  /** `list_users`: every user, in table order, without secrets. */
  function ListUsers(users: seq<User>): (r: seq<UserOut>)
    ensures |r| == |users|
    ensures forall i :: 0 <= i < |users| ==>
              r[i].id == users[i].id && r[i].email == users[i].email && r[i].name == users[i].name &&
              r[i].role == users[i].role && r[i].companyId == users[i].companyId
  {
    seq(|users|, i requires 0 <= i < |users| => Out(users[i]))
  }

  const MinPasswordLength: nat := 6

  /** `if user.company_id:` — `None` and `0` skip the company check. */
  predicate CompanyGiven(id: Option<int>) {
    id.Some? && id.value != 0
  }

  /** `None` and `0` alike skip the company check, so such a request never gets the 404. */
  lemma CompanyZeroSkipsCheck(companies: seq<Company>)
    ensures CompanyKnown(companies, None) && CompanyKnown(companies, Some(0))
    ensures forall id :: id != 0 && CompanyKnown(companies, Some(id)) ==>
              exists i :: 0 <= i < |companies| && companies[i].id == id
  {
  }

  predicate EmailTaken(users: seq<User>, email: string) {
    exists i :: 0 <= i < |users| && users[i].email == email
  }

  /** The company check passes: no company was named, or the named one exists. */
  predicate CompanyKnown(companies: seq<Company>, id: Option<int>) {
    !CompanyGiven(id) || CompanyById(companies, id).Some?
  }

  /** The row `create_user` adds: active, no reset token, the hashed password. */
  function NewUser(req: UserCreate, passwordHash: string, now: int): (u: User)
    ensures u.isActive && u.resetToken.None? && u.resetTokenExpiry.None?
    ensures u.email == req.email && u.role == req.role && u.companyId == req.companyId
    ensures u.passwordHash == passwordHash
  {
    User(0, req.name, req.email, passwordHash, req.role, req.companyId, true, now, None, None)
  }

  /**
   * `create_user`: refuses a taken email (400), then an unknown company (404), then a
   * password over 72 UTF-8 octets (`ValueError` from `hash_password`), then a password
   * under six characters (400); otherwise adds exactly one user.
   */
  method CreateUser(db: Database, req: UserCreate, hash: string -> string, now: int) returns (r: Result<UserOut>)
    requires db.Valid()
    modifies db
    ensures db.Valid()
    ensures r == Err(HttpError(400, "Email already exists")) <==> EmailTaken(old(db.users), req.email)
    ensures !EmailTaken(old(db.users), req.email) && !CompanyKnown(old(db.companies), req.companyId) ==>
              r == Err(HttpError(404, "Company not found"))
    ensures !EmailTaken(old(db.users), req.email) && CompanyKnown(old(db.companies), req.companyId) &&
            |Encode(req.password)| > MaxPasswordBytes ==>
              r == Err(Crash("ValueError"))
    ensures !EmailTaken(old(db.users), req.email) && CompanyKnown(old(db.companies), req.companyId) &&
            |Encode(req.password)| <= MaxPasswordBytes && |req.password| < MinPasswordLength ==>
              r == Err(HttpError(400, "Password too short"))
    ensures r.Ok? <==>
              !EmailTaken(old(db.users), req.email) && CompanyKnown(old(db.companies), req.companyId) &&
              |Encode(req.password)| <= MaxPasswordBytes && |req.password| >= MinPasswordLength
    ensures r.Err? ==> db.users == old(db.users) && db.nextUserId == old(db.nextUserId)
    ensures r.Ok? ==>
              var row := NewUser(req, hash(req.password), now).(id := old(db.nextUserId));
              r.value == Out(row) && db.users == old(db.users) + [row] && db.nextUserId == old(db.nextUserId) + 1
    ensures db.companies == old(db.companies) && db.jobcards == old(db.jobcards)
    ensures db.clients == old(db.clients) && db.tasks == old(db.tasks)
  {
    if EmailTaken(db.users, req.email) {
      r := Err(HttpError(400, "Email already exists"));
      return;
    }
    if CompanyGiven(req.companyId) && CompanyById(db.companies, req.companyId).None? {
      r := Err(HttpError(404, "Company not found"));
      return;
    }
    var hashed := HashPassword(req.password, hash);
    if hashed.Err? {
      r := Err(hashed.error);
      return;
    }
    if |req.password| < MinPasswordLength {
      r := Err(HttpError(400, "Password too short"));
      return;
    }
    var inserted := db.InsertUser(NewUser(req, hashed.value, now));
    r := Ok(Out(inserted.value));
  }

  /**
   * A password short enough to fail the length rule is never too long for bcrypt, so the
   * length rule, although checked after hashing, is what refuses it.
   */
  lemma ShortPasswordFitsBcrypt(password: string)
    requires |password| < MinPasswordLength
    ensures |Encode(password)| <= MaxPasswordBytes
  {
    LengthBounds(password);
  }

  /** A password the octet guard refuses has at least 19 characters, so the length rule could never have been the reason. */
  lemma OverlongIsLong(password: string)
    requires |Encode(password)| > MaxPasswordBytes
    ensures |password| >= 19
  {
    LengthBounds(password);
  }

  /** After a successful creation the email is taken, so repeating the request is refused with 400. */
  lemma CreatedEmailIsTaken(users: seq<User>, row: User)
    ensures EmailTaken(users + [row], row.email)
  {
    assert (users + [row])[|users|] == row;
  }
}
