/**
 * The decoded JWT payload the handlers receive as `current_user`: a JSON
 * object, modelled as a map from claim names to the three kinds of value the
 * backend puts in a token (integers, strings and `null`).
 */
module Claims {
  import opened Common

  datatype ClaimValue = CInt(i: int) | CStr(s: string) | CNull

  type Payload = map<string, ClaimValue>

  /** `payload.get(key)` */
  function Get(p: Payload, key: string): (r: Option<ClaimValue>)
    ensures r.Some? <==> key in p
    ensures r.Some? ==> r.value == p[key]
  {
    if key in p then Some(p[key]) else None
  }

  /** `payload[key]` where the value is used as a nullable integer column value. */
  function IntClaim(p: Payload, key: string): (r: Result<Option<int>>)
    ensures key !in p ==> r == Err(Crash("KeyError"))
    ensures r.Ok? ==> key in p && (r.value.None? <==> p[key] == CNull)
    ensures r.Ok? && r.value.Some? ==> p[key] == CInt(r.value.value)
  {
    if key !in p then Err(Crash("KeyError"))
    else
      match p[key]
      case CInt(i) => Ok(Some(i))
      case CNull => Ok(None)
      case CStr(_) => Err(Crash("DataError"))
  }

  /** `current_user["company_id"]`, the tenant every scoped query filters on. */
  function CompanyOf(p: Payload): (r: Result<Option<int>>)
    ensures "company_id" !in p ==> r == Err(Crash("KeyError"))
    ensures r.Ok? ==> (r.value.None? <==> p["company_id"] == CNull)
  {
    IntClaim(p, "company_id")
  }

  /** The caller's user id as the submission and task handlers read it: `current_user["id"]`. */
  function CallerIdAsWritten(p: Payload): (r: Result<Option<int>>)
    ensures "id" !in p ==> r == Err(Crash("KeyError"))
  {
    IntClaim(p, "id")
  }

  /** The caller's user id under the claim name the login route issues: `user_id`. */
  function CallerId(p: Payload): (r: Result<Option<int>>)
    ensures "user_id" !in p ==> r == Err(Crash("KeyError"))
    ensures r.Ok? && r.value.Some? ==> p["user_id"] == CInt(r.value.value)
  {
    IntClaim(p, "user_id")
  }

  /** `payload.get("role") == "admin"` */
  predicate IsAdmin(p: Payload) {
    Get(p, "role") == Some(CStr("admin"))
  }
}
