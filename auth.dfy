/**
 * The credential helpers of `backend/auth.py`: the bcrypt length guard,
 * access-token claims, bearer-header parsing and the admin guard. Hashing and
 * JWT signing are cryptography and enter as function parameters.
 */
module Auth {
  import opened Common
  import opened Utf8
  import opened Claims

  /** bcrypt looks at no more than this many octets of a password. */
  const MaxPasswordBytes: nat := 72

  /** `hash_password`: refuses, before hashing, a password whose UTF-8 form exceeds 72 octets. */
  function HashPassword(password: string, hash: string -> string): (r: Result<string>)
    ensures r.Ok? <==> |Encode(password)| <= MaxPasswordBytes
    ensures r.Ok? ==> r.value == hash(password)
    ensures r.Err? ==> r.error == Crash("ValueError")
  {
    if |Encode(password)| > MaxPasswordBytes then Err(Crash("ValueError")) else Ok(hash(password))
  }

  /** The limit is on octets: 36 two-octet characters pass, 37 do not, while 72 ASCII letters pass and 73 do not. */
  lemma PasswordLimitCountsBytes(hash: string -> string)
    ensures HashPassword(seq(36, _ => 'é'), hash).Ok?
    ensures HashPassword(seq(37, _ => 'é'), hash) == Err(Crash("ValueError"))
    ensures HashPassword(seq(72, _ => 'a'), hash).Ok?
    ensures HashPassword(seq(73, _ => 'a'), hash) == Err(Crash("ValueError"))
  {
    LengthRepeat('é', 36);
    LengthRepeat('é', 37);
    LengthRepeat('a', 72);
    LengthRepeat('a', 73);
  }

  /** Lifetime of an access token unless the caller says otherwise. */
  const DefaultExpiryMinutes: int := 480

  /**
   * What `create_access_token` signs: a copy of the caller's claims with `exp`
   * set to the clock (in seconds) plus the lifetime; the caller's own map is a
   * value and stays as it was.
   */
  function TokenPayload(data: Payload, now: int, minutes: int): (p: Payload)
    ensures p.Keys == data.Keys + {"exp"}
    ensures p["exp"] == CInt(now + 60 * minutes)
    ensures forall k :: k in data && k != "exp" ==> p[k] == data[k]
  {
    data["exp" := CInt(now + 60 * minutes)]
  }

  /** `auth_header.split(" ")[1]`: the text after `"Bearer "` up to the next space. */
  function BearerToken(h: string): (t: string)
    requires StartsWith(h, "Bearer ")
    ensures ' ' !in t
    ensures StartsWith(h[7..], t)
    ensures |t| == |h[7..]| || h[7..][|t|] == ' '
  {
    assert h == "Bearer" + [' '] + h[7..] by { assert h[..7] == "Bearer "; }
    SplitAtFirst("Bearer", ' ', h[7..]);
    SplitFirst(h[7..], ' ');
    SplitJoin(h[7..], ' ');
    var t := Split(h, ' ')[1];
    assert t == Split(h[7..], ' ')[0];
    t
  }

  /** The token is determined by the header: a header built from a space-free token gives it back. */
  lemma BearerRoundTrip(t: string)
    requires ' ' !in t
    ensures StartsWith("Bearer " + t, "Bearer ") && BearerToken("Bearer " + t) == t
  {
    var h := "Bearer " + t;
    assert h[..7] == "Bearer ";
    assert h[7..] == t;
    var r := BearerToken(h);
    assert t[..|r|] == r;
  }

  /** Nothing after the scheme, or a second space right after it, gives the empty token (`Bearer ` and `Bearer  x`). */
  lemma BearerTokenEmpty(rest: string)
    ensures StartsWith("Bearer ", "Bearer ") && BearerToken("Bearer ") == ""
    ensures StartsWith("Bearer  " + rest, "Bearer ") && BearerToken("Bearer  " + rest) == ""
  {
    var h := "Bearer  " + rest;
    assert "Bearer "[..7] == "Bearer ";
    assert h[..7] == "Bearer ";
    assert h[7..][0] == ' ';
  }

  /** A space after the token cuts off what follows (`Bearer a b` gives `a`). */
  lemma BearerTokenCut(t: string, rest: string)
    requires ' ' !in t
    ensures StartsWith("Bearer " + t + " " + rest, "Bearer ") && BearerToken("Bearer " + t + " " + rest) == t
  {
    var h := "Bearer " + t + " " + rest;
    assert h[..7] == "Bearer ";
    var tail := h[7..];
    assert tail == t + " " + rest;
    var r := BearerToken(h);
    assert forall i :: 0 <= i < |t| ==> tail[i] == t[i] && tail[i] != ' ';
    assert forall i :: 0 <= i < |r| ==> tail[i] == r[i] && tail[i] != ' ';
    assert tail[|t|] == ' ';
    assert |r| == |t|;
    assert r == tail[..|t|] == t;
  }

  /** A header that is present and starts with `"Bearer "`, case-sensitively. */
  predicate WellFormedHeader(header: Option<string>) {
    header.Some? && StartsWith(header.value, "Bearer ")
  }

  /** The scheme is matched case-sensitively, and a missing header is refused like any other. */
  lemma BearerSchemeIsCaseSensitive(t: string)
    ensures WellFormedHeader(Some("Bearer " + t))
    ensures !WellFormedHeader(Some("bearer " + t)) && !WellFormedHeader(Some("")) && !WellFormedHeader(None)
  {
    assert ("Bearer " + t)[..7] == "Bearer ";
    assert ("bearer " + t)[0] == 'b';
  }

  /** `get_current_user`: the payload `decode` finds in the bearer token, or 401. */
  function GetCurrentUser(header: Option<string>, decode: string -> Option<Payload>): (r: Result<Payload>)
    ensures !WellFormedHeader(header) <==> r == Err(HttpError(401, "Not authenticated"))
    ensures WellFormedHeader(header) ==>
              (r == Err(HttpError(401, "Invalid token")) <==> decode(BearerToken(header.value)).None?)
    ensures WellFormedHeader(header) && decode(BearerToken(header.value)).Some? ==>
              r == Ok(decode(BearerToken(header.value)).value)
    ensures r.Ok? <==> WellFormedHeader(header) && decode(BearerToken(header.value)).Some?
  {
    if !WellFormedHeader(header) then Err(HttpError(401, "Not authenticated"))
    else
      match decode(BearerToken(header.value))
      case None => Err(HttpError(401, "Invalid token"))
      case Some(p) => Ok(p)
  }

  /** `require_admin`: the caller's payload, unchanged, when its role is `"admin"`; 403 otherwise. */
  function RequireAdmin(header: Option<string>, decode: string -> Option<Payload>): (r: Result<Payload>)
    ensures r.Ok? <==> GetCurrentUser(header, decode).Ok? && IsAdmin(GetCurrentUser(header, decode).value)
    ensures r.Ok? ==> r == GetCurrentUser(header, decode)
    ensures GetCurrentUser(header, decode).Err? ==> r == GetCurrentUser(header, decode)
    ensures GetCurrentUser(header, decode).Ok? && !IsAdmin(GetCurrentUser(header, decode).value) ==>
              r == Err(HttpError(403, "Admin access required"))
  {
    var u := GetCurrentUser(header, decode);
    if u.Err? then u
    else if !IsAdmin(u.value) then Err(HttpError(403, "Admin access required"))
    else u
  }

  /** A payload without a `role` claim is refused like any other non-admin. */
  lemma NoRoleIsNotAdmin(p: Payload)
    requires "role" !in p
    ensures !IsAdmin(p)
  {
  }
}
