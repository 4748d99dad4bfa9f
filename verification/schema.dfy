/** Rows of the two tables, `user` and `meals`, the request bodies the
    handlers parse, and the outcomes they report. */
module Schema {
  import opened JsString

  /** A primary key or foreign key: an opaque UUID string. */
  type Id = string

  /** The `isOnDiet` column. The migration declares a boolean column, but
      the table types and every handler use the two strings "sim" / "não". */
  datatype DietFlag = Sim | Nao

  /** A row of the `user` table. */
  datatype User = User(id: Id, name: string, email: string, age: string, sessionId: string)

  /** A row of the `meals` table; `userId` is the owning user's `id`. */
  datatype Meal = Meal(
    id: Id,
    userId: Id,
    snack: string,
    description: string,
    date: string,
    time: string,
    isOnDiet: DietFlag)

  /** The database: both tables, rows in insertion (storage) order. */
  datatype Store = Store(users: seq<User>, meals: seq<Meal>)

  /** Why a handler refused a request. `SessionNotFound` stands for the crash
      on `user.id` when a present cookie matches no user row; `EmptyUpdate`
      for the query builder refusing an update that has no column to set. */
  datatype Error = Unauthorized | SessionNotFound | ValidationError | NotFound | EmptyUpdate

  /** One property of a JSON request body, as zod sees it: missing
      (`undefined`), a string, or any other JSON value. */
  datatype Json = Absent | Str(s: string) | NonString

  /** Body of `POST /user`. */
  datatype UserBody = UserBody(name: Json, email: Json, age: Json)

  /** Body of `POST /meals` and `PUT /meals/:id`. */
  datatype MealBody = MealBody(snack: Json, description: Json, date: Json, time: Json, isOnDiet: Json)

  /** Exact lengths zod demands of `date` and `time`. */
  const DateLength: nat := 10
  const TimeLength: nat := 5

  /** The `date` and `time` formats: `.length(10)` and `.length(5)`. */
  predicate WellFormedWhen(date: string, time: string) {
    Utf16Length(date) == DateLength && Utf16Length(time) == TimeLength
  }

  /** Column formats every stored meal satisfies. */
  predicate WellFormedMeal(m: Meal) {
    WellFormedWhen(m.date, m.time)
  }

  /** Some user row has primary key `id`. */
  predicate HasUser(users: seq<User>, id: Id) {
    exists u :: u in users && u.id == id
  }

  /** No two rows of `meals` share an id (the UUID primary key). */
  predicate UniqueMealIds(meals: seq<Meal>) {
    forall i, j :: 0 <= i < |meals| && 0 <= j < |meals| && meals[i].id == meals[j].id ==> i == j
  }

  /** No two rows of `user` share an id. */
  predicate UniqueUserIds(users: seq<User>) {
    forall i, j :: 0 <= i < |users| && 0 <= j < |users| && users[i].id == users[j].id ==> i == j
  }

  /** The store invariant: unique primary keys, every meal owned by an
      existing user, every meal well formed, every stored session truthy. */
  predicate Valid(st: Store) {
    && UniqueUserIds(st.users)
    && UniqueMealIds(st.meals)
    && (forall m :: m in st.meals ==> HasUser(st.users, m.userId) && WellFormedMeal(m))
    && (forall u :: u in st.users ==> Truthy(u.sessionId))
  }

  /** `id` occurs as no meal's primary key. */
  predicate FreshMealId(meals: seq<Meal>, id: Id) {
    forall m :: m in meals ==> m.id != id
  }

  /** `id` occurs as no user's primary key. */
  predicate FreshUserId(users: seq<User>, id: Id) {
    forall u :: u in users ==> u.id != id
  }

  /** `session` is a new, truthy session value no user row carries. */
  predicate FreshSession(users: seq<User>, session: string) {
    Truthy(session) && forall u :: u in users ==> u.sessionId != session
  }
}
