/** The meal handlers mounted under `/meals`. Each runs the session guard,
    parses its body, resolves the acting user, then queries or changes the
    rows that user owns. */
module Meals {
  import opened Wrappers
  import opened JsString
  import opened Schema
  import opened Session
  import opened Queries

  /** The two accepted spellings of `isOnDiet`. */
  const OnDietText: string := "sim"
  const OffDietText: string := "n\U{E3}o"

  /** `z.enum(['sim', 'não'])`: exact string match, nothing else accepted. */
  function ParseDiet(s: string): (r: Option<DietFlag>)
    ensures r == Some(Sim) <==> s == OnDietText
    ensures r == Some(Nao) <==> s == OffDietText
  {
    if s == OnDietText then Some(Sim)
    else if s == OffDietText then Some(Nao)
    else None
  }

  /** How a diet flag is written in a body and in the table. */
  function DietText(f: DietFlag): string {
    match f
    case Sim => OnDietText
    case Nao => OffDietText
  }

  /** `DietText` and `ParseDiet` are inverse: every flag survives the trip
      through its text, and every accepted text is a flag's text. */
  lemma DietRoundTrip(f: DietFlag, s: string)
    ensures ParseDiet(DietText(f)) == Some(f)
    ensures ParseDiet(s).Some? ==> DietText(ParseDiet(s).value) == s
  {
  }

  /** The validated fields of a new meal. */
  datatype MealFields = MealFields(snack: string, description: string, date: string, time: string, isOnDiet: DietFlag)

  /** Field formats the create schema enforces. */
  predicate FieldsWellFormed(f: MealFields) {
    WellFormedWhen(f.date, f.time)
  }

  /** A string of exactly `n` UTF-16 code units (`z.string().length(n)`). */
  predicate SizedString(j: Json, n: nat) {
    j.Str? && Utf16Length(j.s) == n
  }

  /** The create schema: all five fields required, `date` of length 10,
      `time` of length 5, `isOnDiet` one of the two accepted strings. */
  function ParseMealBody(b: MealBody): (r: Result<MealFields, Error>)
    ensures r.Ok? <==>
      && b.snack.Str? && b.description.Str?
      && SizedString(b.date, DateLength) && SizedString(b.time, TimeLength)
      && b.isOnDiet.Str? && (b.isOnDiet.s == OnDietText || b.isOnDiet.s == OffDietText)
    ensures r.Ok? ==> FieldsWellFormed(r.value)
    ensures r.Ok? ==>
      && r.value.snack == b.snack.s && r.value.description == b.description.s
      && r.value.date == b.date.s && r.value.time == b.time.s
      && DietText(r.value.isOnDiet) == b.isOnDiet.s
    ensures r.Err? ==> r.error == ValidationError
  {
    if && b.snack.Str? && b.description.Str?
       && SizedString(b.date, DateLength) && SizedString(b.time, TimeLength)
       && b.isOnDiet.Str? && ParseDiet(b.isOnDiet.s).Some?
    then Ok(MealFields(b.snack.s, b.description.s, b.date.s, b.time.s, ParseDiet(b.isOnDiet.s).value))
    else Err(ValidationError)
  }

  /** The body a client sends to create a meal with these fields. */
  function FieldsBody(f: MealFields): MealBody {
    MealBody(Str(f.snack), Str(f.description), Str(f.date), Str(f.time), Str(DietText(f.isOnDiet)))
  }

  /** Every well-formed set of fields is accepted back unchanged from its body. */
  lemma MealBodyRoundTrip(f: MealFields)
    requires FieldsWellFormed(f)
    ensures ParseMealBody(FieldsBody(f)) == Ok(f)
  {
  }

  /** `z.string().optional()`, with an exact length when `size` is given. */
  function ParseOptionalText(j: Json, size: Option<nat>): (r: Result<Option<string>, Error>)
    ensures r.Ok? <==> j.Absent? || (j.Str? && (size.None? || Utf16Length(j.s) == size.value))
    ensures r.Ok? ==> (r.value.Some? <==> j.Str?)
    ensures r.Ok? && j.Str? ==> r.value.value == j.s
    ensures r.Err? ==> r.error == ValidationError
  {
    match j
    case Absent => Ok(None)
    case Str(s) => if size.None? || Utf16Length(s) == size.value then Ok(Some(s)) else Err(ValidationError)
    case NonString => Err(ValidationError)
  }

  /** `z.enum(['sim', 'não']).optional()`. */
  function ParseOptionalDiet(j: Json): (r: Result<Option<DietFlag>, Error>)
    ensures r.Ok? <==> j.Absent? || (j.Str? && ParseDiet(j.s).Some?)
    ensures r.Ok? ==> (r.value.Some? <==> j.Str?)
    ensures r.Ok? && j.Str? ==> DietText(r.value.value) == j.s
    ensures r.Err? ==> r.error == ValidationError
  {
    match j
    case Absent => Ok(None)
    case Str(s) => if ParseDiet(s).Some? then Ok(ParseDiet(s)) else Err(ValidationError)
    case NonString => Err(ValidationError)
  }

  /** An update body that supplies none of the five fields. */
  predicate NothingSupplied(b: MealBody) {
    b.snack.Absent? && b.description.Absent? && b.date.Absent? && b.time.Absent? && b.isOnDiet.Absent?
  }

  /** The update schema: every field optional, each supplied field held to
      the same rule as on creation. */
  function ParsePatch(b: MealBody): (r: Result<Patch, Error>)
    ensures r.Ok? <==>
      && ParseOptionalText(b.snack, None).Ok? && ParseOptionalText(b.description, None).Ok?
      && ParseOptionalText(b.date, Some(DateLength)).Ok? && ParseOptionalText(b.time, Some(TimeLength)).Ok?
      && ParseOptionalDiet(b.isOnDiet).Ok?
    ensures r.Ok? ==> (r.value.snack.Some? <==> b.snack.Str?) && (r.value.date.Some? <==> b.date.Str?)
    ensures r.Ok? ==> (r.value.description.Some? <==> b.description.Str?) && (r.value.time.Some? <==> b.time.Str?)
    ensures r.Ok? ==> (r.value.isOnDiet.Some? <==> b.isOnDiet.Str?)
    ensures r.Ok? && r.value.date.Some? ==> Utf16Length(r.value.date.value) == DateLength
    ensures r.Ok? && r.value.time.Some? ==> Utf16Length(r.value.time.value) == TimeLength
    ensures r.Ok? && b.snack.Str? ==> r.value.snack == Some(b.snack.s)
    ensures r.Ok? && b.description.Str? ==> r.value.description == Some(b.description.s)
    ensures r.Ok? && b.date.Str? ==> r.value.date == Some(b.date.s)
    ensures r.Ok? && b.time.Str? ==> r.value.time == Some(b.time.s)
    ensures r.Ok? && b.isOnDiet.Str? ==> DietText(r.value.isOnDiet.value) == b.isOnDiet.s
    ensures r.Ok? ==> (r.value == NoChange <==> NothingSupplied(b))
    ensures r.Err? ==> r.error == ValidationError
  {
    match (ParseOptionalText(b.snack, None), ParseOptionalText(b.description, None),
           ParseOptionalText(b.date, Some(DateLength)), ParseOptionalText(b.time, Some(TimeLength)),
           ParseOptionalDiet(b.isOnDiet))
    case (Ok(snack), Ok(description), Ok(date), Ok(time), Ok(diet)) =>
      Ok(Patch(snack, description, date, time, diet))
    case _ => Err(ValidationError)
  }

  /** The new row `POST /meals` inserts. */
  function NewMeal(id: Id, owner: Id, f: MealFields): Meal {
    Meal(id, owner, f.snack, f.description, f.date, f.time, f.isOnDiet)
  }

  /** `POST /meals`. `mealId` stands for `randomUUID()`. The body is parsed
      before the user is resolved, so a bad body is reported as a
      ValidationError even when the session matches no user. */
  function CreateMeal(st: Store, cookie: Option<string>, body: MealBody, mealId: Id): (r: Result<Store, Error>)
    requires FreshMealId(st.meals, mealId)
    ensures r == Err(Unauthorized) <==> RequireSession(cookie).Err?
    ensures RequireSession(cookie).Ok? && ParseMealBody(body).Err? ==> r == Err(ValidationError)
    ensures r.Ok? <==> Authenticate(st.users, cookie).Ok? && ParseMealBody(body).Ok?
    ensures r.Ok? ==> r.value.users == st.users
    ensures r.Ok? ==> |r.value.meals| == |st.meals| + 1 && r.value.meals[..|st.meals|] == st.meals
    ensures r.Ok? ==>
      var m := r.value.meals[|st.meals|];
      && m.id == mealId && m.userId == Authenticate(st.users, cookie).value.id
      && m.snack == body.snack.s && m.description == body.description.s
      && m.date == body.date.s && m.time == body.time.s && DietText(m.isOnDiet) == body.isOnDiet.s
  {
    match RequireSession(cookie)
    case Err(e) => Err(e)
    case Ok(session) =>
      match ParseMealBody(body)
      case Err(e) => Err(e)
      case Ok(f) =>
        match ResolveUser(st.users, session)
        case Err(e) => Err(e)
        case Ok(u) => Ok(Store(st.users, st.meals + [NewMeal(mealId, u.id, f)]))
  }

  /** `GET /meals`: the acting user's meals in storage order. */
  function ListMeals(st: Store, cookie: Option<string>): (r: Result<seq<Meal>, Error>)
    ensures r.Ok? <==> Authenticate(st.users, cookie).Ok?
    ensures r.Err? ==> r.error == Authenticate(st.users, cookie).error
    ensures r.Ok? ==> forall m :: m in r.value <==> m in st.meals && m.userId == Authenticate(st.users, cookie).value.id
  {
    match Authenticate(st.users, cookie)
    case Err(e) => Err(e)
    case Ok(u) => Ok(OwnedBy(st.meals, u.id))
  }

  /** `GET /meals/:id`: the first meal with this id that the acting user
      owns; NotFound when there is none, whoever else may own the id. The
      handler tests `!meals?.id`, so a row found with an empty id is
      NotFound as well. */
  function GetMeal(st: Store, cookie: Option<string>, id: Id): (r: Result<Meal, Error>)
    ensures Authenticate(st.users, cookie).Err? ==> r == Err(Authenticate(st.users, cookie).error)
    ensures r.Ok? ==> r.value in st.meals && r.value.id == id && r.value.userId == Authenticate(st.users, cookie).value.id
    ensures Authenticate(st.users, cookie).Ok? ==>
      (r == Err(NotFound) <==>
        !Truthy(id) || forall m :: m in st.meals ==> !(m.id == id && m.userId == Authenticate(st.users, cookie).value.id))
    ensures
      && Authenticate(st.users, cookie).Ok? && Truthy(id)
      && (exists m :: m in st.meals && m.id == id && m.userId == Authenticate(st.users, cookie).value.id)
      ==> r.Ok?
  {
    match Authenticate(st.users, cookie)
    case Err(e) => Err(e)
    case Ok(u) =>
      match FindOwned(st.meals, id, u.id)
      case Some(i) => if Truthy(st.meals[i].id) then Ok(st.meals[i]) else Err(NotFound)
      case None => Err(NotFound)
  }

  /** `PUT /meals/:id`: ownership pre-check on (id, owner), then an update
      filtered by id alone. The query builder drops the omitted (`undefined`)
      fields and refuses an update left with nothing to set, so a body that
      supplies no field fails with EmptyUpdate once the pre-check passed. */
  function UpdateMeal(st: Store, cookie: Option<string>, id: Id, body: MealBody): (r: Result<Store, Error>)
    ensures r == Err(Unauthorized) <==> RequireSession(cookie).Err?
    ensures RequireSession(cookie).Ok? && ParsePatch(body).Err? ==> r == Err(ValidationError)
    ensures Authenticate(st.users, cookie).Ok? && ParsePatch(body).Ok? ==>
      (r == Err(NotFound) <==> forall m :: m in st.meals ==> !(m.id == id && m.userId == Authenticate(st.users, cookie).value.id))
    ensures
      && Authenticate(st.users, cookie).Ok? && ParsePatch(body).Ok?
      && (exists m :: m in st.meals && m.id == id && m.userId == Authenticate(st.users, cookie).value.id)
      ==> (r == Err(EmptyUpdate) <==> NothingSupplied(body))
    ensures r == Err(EmptyUpdate) ==> NothingSupplied(body)
    ensures
      && Authenticate(st.users, cookie).Ok? && ParsePatch(body).Ok? && !NothingSupplied(body)
      && (exists m :: m in st.meals && m.id == id && m.userId == Authenticate(st.users, cookie).value.id)
      ==> r.Ok?
    ensures r.Ok? ==> Authenticate(st.users, cookie).Ok? && ParsePatch(body).Ok? && !NothingSupplied(body)
    ensures r.Ok? ==> r.value.users == st.users && |r.value.meals| == |st.meals|
    ensures r.Ok? ==> forall i :: 0 <= i < |st.meals| && st.meals[i].id != id ==> r.value.meals[i] == st.meals[i]
    ensures r.Ok? ==> forall i :: 0 <= i < |st.meals| && st.meals[i].id == id ==>
      r.value.meals[i] == ApplyPatch(st.meals[i], ParsePatch(body).value)
  {
    match RequireSession(cookie)
    case Err(e) => Err(e)
    case Ok(session) =>
      match ParsePatch(body)
      case Err(e) => Err(e)
      case Ok(p) =>
        match ResolveUser(st.users, session)
        case Err(e) => Err(e)
        case Ok(u) =>
          if FindOwned(st.meals, id, u.id).None? then Err(NotFound)
          else if p == NoChange then Err(EmptyUpdate)
          else Ok(Store(st.users, UpdateWhereId(st.meals, id, p)))
  }

  /** `DELETE /meals/:id`: ownership pre-check on (id, owner), then a
      delete filtered by id alone. */
  function DeleteMeal(st: Store, cookie: Option<string>, id: Id): (r: Result<Store, Error>)
    ensures Authenticate(st.users, cookie).Err? ==> r == Err(Authenticate(st.users, cookie).error)
    ensures Authenticate(st.users, cookie).Ok? ==>
      (r == Err(NotFound) <==> forall m :: m in st.meals ==> !(m.id == id && m.userId == Authenticate(st.users, cookie).value.id))
    ensures
      && Authenticate(st.users, cookie).Ok?
      && (exists m :: m in st.meals && m.id == id && m.userId == Authenticate(st.users, cookie).value.id)
      ==> r.Ok?
    ensures r.Ok? ==> r.value.users == st.users
    ensures r.Ok? ==> |r.value.meals| < |st.meals|
    ensures r.Ok? ==> forall m :: m in r.value.meals <==> m in st.meals && m.id != id
  {
    match Authenticate(st.users, cookie)
    case Err(e) => Err(e)
    case Ok(u) =>
      match FindOwned(st.meals, id, u.id)
      case None => Err(NotFound)
      case Some(i) =>
        DeleteShrinks(st.meals, id, i);
        DeleteKeepsExactlyOthers(st.meals, id);
        Ok(Store(st.users, DeleteWhereId(st.meals, id)))
  }

  /** A delete that matches some row leaves fewer rows. */
  lemma {:induction false} DeleteShrinks(meals: seq<Meal>, id: Id, i: nat)
    requires i < |meals| && meals[i].id == id
    ensures |DeleteWhereId(meals, id)| < |meals|
  {
    if i > 0 {
      DeleteShrinks(meals[1..], id, i - 1);
    }
  }

  /** The three counts `GET /meals/metrics` answers. */
  datatype Metrics = Metrics(total: nat, offDiet: nat, onDiet: nat)

  /** `GET /meals/metrics`: three independent counts over the acting user's
      meals: all of them, those marked "não", those marked "sim". */
  function MealMetrics(st: Store, cookie: Option<string>): (r: Result<Metrics, Error>)
    ensures r.Ok? <==> Authenticate(st.users, cookie).Ok?
    ensures r.Err? ==> r.error == Authenticate(st.users, cookie).error
    ensures r.Ok? ==> r.value.total == r.value.onDiet + r.value.offDiet
    ensures r.Ok? ==>
      var owned := OwnedBy(st.meals, Authenticate(st.users, cookie).value.id);
      && r.value.total == |owned|
      && r.value.onDiet == FlagCount(owned, Sim)
      && r.value.offDiet == FlagCount(owned, Nao)
  {
    match Authenticate(st.users, cookie)
    case Err(e) => Err(e)
    case Ok(u) =>
      CountSplits(st.meals, u.id);
      CountIsListLength(st.meals, u.id);
      CountIsFlagCount(st.meals, u.id, Sim);
      CountIsFlagCount(st.meals, u.id, Nao);
      Ok(Metrics(CountWhere(st.meals, u.id, None), CountWhere(st.meals, u.id, Some(Nao)), CountWhere(st.meals, u.id, Some(Sim))))
  }
}
