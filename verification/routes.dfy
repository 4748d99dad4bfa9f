/** The application: `/user` and `/meals` routes dispatched to their
    handlers, each request taking the store to a new store and a response. */
module Routes {
  import opened Wrappers
  import opened JsString
  import opened Schema
  import opened Session
  import opened Meals
  import Invariants

  datatype Request =
    | PostUser(userBody: UserBody)
    | PostMeal(mealBody: MealBody)
    | GetMeals
    | GetMealById(id: Id)
    | PutMeal(id: Id, mealBody: MealBody)
    | DeleteMealById(id: Id)
    | GetMetrics

  /** Routes under `/meals`; every one of them runs the session guard first. */
  predicate GuardedRoute(req: Request) {
    !req.PostUser?
  }

  datatype Response =
    | Created(setCookie: Option<Cookie>)
    | MealList(meals: seq<Meal>)
    | OneMeal(meal: Meal)
    | MetricsReply(metrics: Metrics)
    | Failed(error: Error)

  /** The values `randomUUID()` would return during one request: a row id
      and, for a registration without a cookie, a session value. */
  datatype Uuids = Uuids(rowId: Id, session: string)

  /** Both values are new to the store, as UUIDs are. */
  predicate FreshFor(st: Store, ids: Uuids) {
    FreshUserId(st.users, ids.rowId) && FreshMealId(st.meals, ids.rowId) && FreshSession(st.users, ids.session)
  }

  /** A write's outcome as the new store and its response; a failed write
      keeps the old store. */
  function Written(st: Store, r: Result<Store, Error>): (out: (Store, Response))
    ensures r.Ok? ==> out == (r.value, Created(None))
    ensures r.Err? ==> out == (st, Failed(r.error))
  {
    match r
    case Ok(st') => (st', Created(None))
    case Err(e) => (st, Failed(e))
  }

  /** One request against the store. */
  function Handle(st: Store, cookie: Option<string>, req: Request, ids: Uuids): (out: (Store, Response))
    requires FreshFor(st, ids)
    ensures out.1.Failed? ==> out.0 == st
    ensures GuardedRoute(req) && !(cookie.Some? && Truthy(cookie.value)) ==> out == (st, Failed(Unauthorized))
    ensures req.GetMeals? || req.GetMealById? || req.GetMetrics? ==> out.0 == st
    ensures out.1.MetricsReply? ==> out.1.metrics.total == out.1.metrics.onDiet + out.1.metrics.offDiet
    ensures out.1.Created? && out.1.setCookie.Some? ==>
      req.PostUser? && out.1.setCookie.value == Cookie(CookieName, ids.session, CookiePath, CookieMaxAge)
    ensures |out.0.users| >= |st.users| && out.0.users[..|st.users|] == st.users
  {
    match req
    case PostUser(body) =>
      (match Register(st, cookie, body, ids.rowId, ids.session)
       case Ok(reg) => (reg.store, Created(reg.setCookie))
       case Err(e) => (st, Failed(e)))
    case PostMeal(body) => Written(st, CreateMeal(st, cookie, body, ids.rowId))
    case GetMeals =>
      (match ListMeals(st, cookie)
       case Ok(ms) => (st, MealList(ms))
       case Err(e) => (st, Failed(e)))
    case GetMealById(id) =>
      (match GetMeal(st, cookie, id)
       case Ok(m) => (st, OneMeal(m))
       case Err(e) => (st, Failed(e)))
    case PutMeal(id, body) => Written(st, UpdateMeal(st, cookie, id, body))
    case DeleteMealById(id) => Written(st, DeleteMeal(st, cookie, id))
    case GetMetrics =>
      match MealMetrics(st, cookie)
      case Ok(m) => (st, MetricsReply(m))
      case Err(e) => (st, Failed(e))
  }

  /** Every request keeps the store invariant. */
  lemma HandlePreservesValid(st: Store, cookie: Option<string>, req: Request, ids: Uuids)
    requires Valid(st) && FreshFor(st, ids)
    ensures Valid(Handle(st, cookie, req, ids).0)
  {
    match req
    case PostUser(body) =>
      if Register(st, cookie, body, ids.rowId, ids.session).Ok? {
        Invariants.RegisterPreservesValid(st, cookie, body, ids.rowId, ids.session);
      }
    case PostMeal(body) =>
      if CreateMeal(st, cookie, body, ids.rowId).Ok? {
        Invariants.CreatePreservesValid(st, cookie, body, ids.rowId);
      }
    case PutMeal(id, body) =>
      if UpdateMeal(st, cookie, id, body).Ok? {
        Invariants.UpdatePreservesValid(st, cookie, id, body);
      }
    case DeleteMealById(id) =>
      if DeleteMeal(st, cookie, id).Ok? {
        Invariants.DeletePreservesValid(st, cookie, id);
      }
    case _ =>
  }
}
