/** The admin routes: the session flag that gates them, login and logout,
    and the parameter list of the course-list query. The configured admin
    password is a parameter (`None` when the environment lacks it). */
module Admin {
  import opened Wrappers
  import opened Http
  import opened Strings

  /** What `authAdmin` does with a request. */
  datatype Gate = Proceed | Deny(status: nat)

  /** `authAdmin`: the handler runs exactly when the session's `isAdmin`
      flag is set; otherwise the answer is 401. */
  function AuthAdmin(isAdmin: bool): (g: Gate)
    ensures g.Proceed? <==> isAdmin
    ensures g.Deny? ==> g.status == Unauthorized
  {
    if isAdmin then Proceed else Deny(Unauthorized)
  }

  datatype AdminReply = AdminReply(status: nat, isAdmin: bool)

  /** `POST /login`. An unset or empty configured password is a 500; a
      matching password sets the flag; anything else is a 401. Only success
      changes the flag. */
  function Login(isAdmin: bool, password: Option<string>, adminPassword: Option<string>): (r: AdminReply)
    ensures adminPassword.None? || adminPassword == Some("") ==> r == AdminReply(ServerError, isAdmin)
    ensures adminPassword.Some? && adminPassword != Some("") ==>
      if password == adminPassword then r == AdminReply(Ok, true) else r == AdminReply(Unauthorized, isAdmin)
  {
    if adminPassword.None? || adminPassword.value == "" then AdminReply(ServerError, isAdmin)
    else if password == adminPassword then AdminReply(Ok, true)
    else AdminReply(Unauthorized, isAdmin)
  }

  /** `POST /logout`: the flag cleared, whatever it was. */
  function Logout(isAdmin: bool): (r: AdminReply)
    ensures r.status == Ok && !r.isAdmin
  {
    AdminReply(Ok, false)
  }

  /** The gate opens after a successful login and closes after logout; a
      failed login leaves it as it was. */
  lemma LoginOpensGate(isAdmin: bool, password: Option<string>, adminPassword: Option<string>)
    ensures Login(isAdmin, password, adminPassword).status == Ok ==> AuthAdmin(Login(isAdmin, password, adminPassword).isAdmin).Proceed?
    ensures Login(isAdmin, password, adminPassword).status != Ok ==> AuthAdmin(Login(isAdmin, password, adminPassword).isAdmin) == AuthAdmin(isAdmin)
    ensures AuthAdmin(Logout(isAdmin).isAdmin) == Deny(Unauthorized)
  {
  }

  // ---------------------------------------------------------------------------
  // GET /courses: the query and its parameters
  // ---------------------------------------------------------------------------

  /** A query parameter: the `ILIKE` pattern, a query-string value, or one of
      the numeric defaults. */
  datatype Value = Text(s: string) | Number(n: int)

  const SelectCourses: string := "SELECT * FROM courses"
  const SearchFilter: string := " WHERE course_name ILIKE $1 OR section_name ILIKE $1 OR lecturer ILIKE $1"
  const OrderLimit: string := " ORDER BY course_name ASC, section_name ASC LIMIT $"
  const OffsetAt: string := " OFFSET $"

  /** `limit = 50` and `offset = 0` apply only when the query string lacks
      the field. */
  function OrDefault(v: Option<string>, d: int): Value {
    match v
    case Some(s) => Text(s)
    case None => Number(d)
  }

  /** The SQL text and parameter list the handler builds. */
  function CoursesQuery(search: Option<string>, limit: Option<string>, offset: Option<string>): (q: (string, seq<Value>))
    ensures |q.1| == if search.Some? && search.value != "" then 3 else 2
  {
    var filtered := search.Some? && search.value != "";
    var params := if filtered then [Text("%" + search.value + "%")] else [];
    var text := SelectCourses + (if filtered then SearchFilter else "")
      + OrderLimit + NatToString(|params| + 1) + OffsetAt + NatToString(|params| + 2);
    (text, params + [OrDefault(limit, 50), OrDefault(offset, 0)])
  }

  /** Every placeholder names the parameter meant for it: with a search term
      `$1` is the pattern, and in both shapes the last two placeholders,
      `$n-1` and `$n`, are the limit and the offset. */
  lemma PlaceholdersMatch(search: Option<string>, limit: Option<string>, offset: Option<string>)
    ensures var (text, params) := CoursesQuery(search, limit, offset);
      var n := |params|;
      && params[n - 2] == OrDefault(limit, 50)
      && params[n - 1] == OrDefault(offset, 0)
      && text == SelectCourses + (if n == 3 then SearchFilter else "")
                   + OrderLimit + NatToString(n - 1) + OffsetAt + NatToString(n)
      && (n == 3 ==> params[0] == Text("%" + search.value + "%"))
  {
  }

  /** Without query fields the page is the first 50 rows. */
  lemma DefaultPage()
    ensures CoursesQuery(None, None, None).1 == [Number(50), Number(0)]
  {
  }
}
