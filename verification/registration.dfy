/** What registration promises about sessions: a new session is issued
    only when the request carries none, an existing one is reused, and
    repeated registrations never change who a session resolves to. */
module Registration {
  import opened Wrappers
  import opened JsString
  import opened Schema
  import opened Session

  /** Without a truthy cookie, registration sets exactly one cookie: the new
      session value, path "/", max-age `CookieMaxAge`; that value then resolves to the
      row just inserted. */
  lemma NewSessionResolvesToNewUser(st: Store, cookie: Option<string>, body: UserBody, userId: Id, freshSession: string)
    requires FreshUserId(st.users, userId) && FreshSession(st.users, freshSession)
    requires !(cookie.Some? && Truthy(cookie.value))
    requires Register(st, cookie, body, userId, freshSession).Ok?
    ensures
      var reg := Register(st, cookie, body, userId, freshSession).value;
      && reg.setCookie == Some(Cookie(CookieName, freshSession, CookiePath, CookieMaxAge))
      && Authenticate(reg.store.users, Some(freshSession)) == Ok(reg.store.users[|st.users|])
      && reg.store.users[|st.users|].id == userId
  {
  }

  /** With a truthy cookie, no cookie is set and the new row carries the
      cookie's value. A session that already resolved keeps resolving to
      the same, earlier row; one that did not now resolves to the new row. */
  lemma CookieIsReused(st: Store, session: string, body: UserBody, userId: Id, freshSession: string)
    requires FreshUserId(st.users, userId) && FreshSession(st.users, freshSession)
    requires Truthy(session)
    requires Register(st, Some(session), body, userId, freshSession).Ok?
    ensures
      var reg := Register(st, Some(session), body, userId, freshSession).value;
      && reg.setCookie == None
      && reg.store.users[|st.users|].sessionId == session
      && (Authenticate(st.users, Some(session)).Ok? ==>
            Authenticate(reg.store.users, Some(session)) == Authenticate(st.users, Some(session)))
      && (Authenticate(st.users, Some(session)).Err? ==>
            Authenticate(reg.store.users, Some(session)) == Ok(reg.store.users[|st.users|]))
  {
  }

  /** Registering twice with one cookie stores two rows sharing the
      session value, and the meal handlers resolve that session to the
      first of them. */
  lemma TwiceWithOneCookie(st: Store, session: string, b1: UserBody, b2: UserBody, id1: Id, id2: Id, s1: string, s2: string)
    requires FreshUserId(st.users, id1) && FreshSession(st.users, s1)
    requires forall u :: u in st.users ==> u.sessionId != session
    requires Truthy(session)
    requires Register(st, Some(session), b1, id1, s1).Ok?
    requires
      var st1 := Register(st, Some(session), b1, id1, s1).value.store;
      FreshUserId(st1.users, id2) && FreshSession(st1.users, s2) && Register(st1, Some(session), b2, id2, s2).Ok?
    ensures
      var st1 := Register(st, Some(session), b1, id1, s1).value.store;
      var st2 := Register(st1, Some(session), b2, id2, s2).value.store;
      && |st2.users| == |st.users| + 2
      && st2.users[|st.users|].sessionId == session && st2.users[|st.users| + 1].sessionId == session
      && st2.users[|st.users|].id == id1 && st2.users[|st.users| + 1].id == id2
      && Authenticate(st2.users, Some(session)) == Ok(st2.users[|st.users|])
  {
  }
}
