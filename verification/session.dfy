/** Session handling: the `checkUsersExists` guard, resolution of the acting
    user from the `sessionId` cookie, and the registration handler
    (`POST /user`), which issues or reuses the session value. */
module Session {
  import opened Wrappers
  import opened JsString
  import opened Schema

  /** The guard run before every meal handler: it passes the cookie value
      on, and answers Unauthorized when the cookie is missing or empty. */
  function RequireSession(cookie: Option<string>): (r: Result<string, Error>)
    ensures r.Ok? <==> cookie.Some? && Truthy(cookie.value)
    ensures r.Ok? ==> r.value == cookie.value
    ensures r.Err? ==> r.error == Unauthorized
  {
    match cookie
    case Some(v) => if Truthy(v) then Ok(v) else Err(Unauthorized)
    case None => Err(Unauthorized)
  }

  /** Index of the first user row whose session value is `session`. */
  function FirstWithSession(users: seq<User>, session: string): (r: Option<nat>)
    ensures r.Some? ==> r.value < |users| && users[r.value].sessionId == session
    ensures r.Some? ==> forall j :: 0 <= j < r.value ==> users[j].sessionId != session
    ensures r.None? <==> forall u :: u in users ==> u.sessionId != session
  {
    if |users| == 0 then None
    else if users[0].sessionId == session then Some(0)
    else
      match FirstWithSession(users[1..], session)
      case Some(i) => Some(i + 1)
      case None => None
  }

  /** `const [user] = knex('user').where('session_id', sessionId)`: the
      first matching row. Where the handlers would crash on `user.id`
      because nothing matched, the model answers SessionNotFound. */
  function ResolveUser(users: seq<User>, session: string): (r: Result<User, Error>)
    ensures r.Ok? ==> r.value in users && r.value.sessionId == session
    ensures r.Err? <==> forall u :: u in users ==> u.sessionId != session
    ensures r.Err? ==> r.error == SessionNotFound
    ensures r.Ok? ==> exists i :: 0 <= i < |users| && users[i] == r.value && forall j :: 0 <= j < i ==> users[j].sessionId != session
  {
    match FirstWithSession(users, session)
    case Some(i) => Ok(users[i])
    case None => Err(SessionNotFound)
  }

  /** The guard followed by resolution, as every meal handler begins. */
  function Authenticate(users: seq<User>, cookie: Option<string>): (r: Result<User, Error>)
    ensures r.Ok? ==> cookie.Some? && r.value in users && r.value.sessionId == cookie.value
    ensures r.Err? && r.error == Unauthorized <==> !(cookie.Some? && Truthy(cookie.value))
    ensures cookie.Some? && Truthy(cookie.value) ==> (r.Err? <==> forall u :: u in users ==> u.sessionId != cookie.value)
    ensures r.Err? && r.error != Unauthorized ==> r.error == SessionNotFound
    ensures r.Ok? ==> exists i :: 0 <= i < |users| && users[i] == r.value && forall j :: 0 <= j < i ==> users[j].sessionId != cookie.value
  {
    match RequireSession(cookie)
    case Err(e) => Err(e)
    case Ok(session) => ResolveUser(users, session)
  }

  /** Resolution picks the earliest row carrying the session value, even
      when later rows (repeated registrations) carry it too. */
  lemma ResolveIsFirstMatch(users: seq<User>, session: string, i: nat)
    requires i < |users| && users[i].sessionId == session
    requires forall j :: 0 <= j < i ==> users[j].sessionId != session
    ensures ResolveUser(users, session) == Ok(users[i])
  {
  }

  /** Appending user rows never changes who an existing session resolves to. */
  lemma AppendKeepsResolution(users: seq<User>, extra: seq<User>, session: string)
    requires ResolveUser(users, session).Ok?
    ensures ResolveUser(users + extra, session) == ResolveUser(users, session)
  {
    var i := FirstWithSession(users, session).value;
    var all := users + extra;
    assert all[i] == users[i];
    forall j | 0 <= j < i
      ensures all[j].sessionId != session
    {
      assert all[j] == users[j];
    }
    ResolveIsFirstMatch(all, session, i);
  }

  /** The cookie set on a newly issued session. */
  datatype Cookie = Cookie(name: string, value: string, path: string, maxAge: nat)

  const CookieName: string := "sessionId"
  const CookiePath: string := "/"
  /** The cookie's `maxAge`, the number `1000 * 60 * 60 * 24 * 7` as written;
      its unit is the cookie plugin's and is not interpreted here. */
  const CookieMaxAge: nat := 1000 * 60 * 60 * 24 * 7

  /** Outcome of a registration: the new store and the cookie to set, if any. */
  datatype Registered = Registered(store: Store, setCookie: Option<Cookie>)

  /** The registration body: `name`, `email` and `age` must all be strings. */
  datatype Profile = Profile(name: string, email: string, age: string)

  function ParseUserBody(b: UserBody): (r: Result<Profile, Error>)
    ensures r.Ok? <==> b.name.Str? && b.email.Str? && b.age.Str?
    ensures r.Ok? ==> r.value == Profile(b.name.s, b.email.s, b.age.s)
    ensures r.Err? ==> r.error == ValidationError
  {
    if b.name.Str? && b.email.Str? && b.age.Str? then Ok(Profile(b.name.s, b.email.s, b.age.s))
    else Err(ValidationError)
  }

  /** The body of a profile, as a client sends it. */
  function ProfileBody(p: Profile): UserBody {
    UserBody(Str(p.name), Str(p.email), Str(p.age))
  }

  lemma ProfileRoundTrip(p: Profile)
    ensures ParseUserBody(ProfileBody(p)) == Ok(p)
  {
  }

  /** The session value a registration stores: the truthy cookie when there
      is one, otherwise the newly generated value. */
  function SessionFor(cookie: Option<string>, issued: string): (r: string)
    ensures cookie.Some? && Truthy(cookie.value) ==> r == cookie.value
    ensures r != issued ==> cookie.Some? && Truthy(cookie.value)
    ensures Truthy(issued) ==> Truthy(r)
  {
    if cookie.Some? && Truthy(cookie.value) then cookie.value else issued
  }

  /** `POST /user`. `userId` and `freshSession` stand for the two
      `randomUUID()` calls; there is no uniqueness check on the session, so
      registering twice with one cookie yields two rows sharing it. */
  function Register(st: Store, cookie: Option<string>, body: UserBody, userId: Id, freshSession: string): (r: Result<Registered, Error>)
    requires FreshUserId(st.users, userId)
    requires FreshSession(st.users, freshSession)
    ensures r.Err? <==> ParseUserBody(body).Err?
    ensures r.Err? ==> r.error == ValidationError
    ensures r.Ok? ==> r.value.store.meals == st.meals
    ensures r.Ok? ==> |r.value.store.users| == |st.users| + 1 && r.value.store.users[..|st.users|] == st.users
    ensures r.Ok? ==>
      var p := ParseUserBody(body).value;
      r.value.store.users[|st.users|] == User(userId, p.name, p.email, p.age, SessionFor(cookie, freshSession))
    ensures r.Ok? ==> (r.value.setCookie.Some? <==> !(cookie.Some? && Truthy(cookie.value)))
    ensures r.Ok? && r.value.setCookie.Some? ==>
      r.value.setCookie.value == Cookie(CookieName, freshSession, CookiePath, CookieMaxAge)
  {
    match ParseUserBody(body)
    case Err(e) => Err(e)
    case Ok(p) =>
      var issue := !(cookie.Some? && Truthy(cookie.value));
      var session := SessionFor(cookie, freshSession);
      var row := User(userId, p.name, p.email, p.age, session);
      var setCookie := if issue then Some(Cookie(CookieName, session, CookiePath, CookieMaxAge)) else None;
      Ok(Registered(Store(st.users + [row], st.meals), setCookie))
  }
}
