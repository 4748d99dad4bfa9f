/** The integration tests' scenarios, stated for any store and any request
    bodies that take the same steps. */
module Scenarios {
  import opened Wrappers
  import opened JsString
  import opened Schema
  import opened Session
  import opened Queries
  import opened Meals
  import opened Ownership

  /** A first registration without a cookie answers with exactly one
      cookie, which carries the new session and reaches the new user. */
  lemma FirstRegistration(body: UserBody, userId: Id, session: string)
    requires Truthy(session)
    requires ParseUserBody(body).Ok?
    ensures
      var r := Register(Store([], []), None, body, userId, session);
      && r.Ok? && r.value.setCookie == Some(Cookie("sessionId", session, "/", 604800000))
      && Authenticate(r.value.store.users, Some(session)) == Ok(r.value.store.users[0])
  {
  }

  /** A user with no meals creates two: both are listed, in creation order,
      and the one at index 1 is the second, carrying its body's fields;
      asking for it by its id returns that same row. */
  lemma ListTwoMeals(st: Store, cookie: Option<string>, b1: MealBody, b2: MealBody, id1: Id, id2: Id)
    requires ListMeals(st, cookie) == Ok([])
    requires FreshMealId(st.meals, id1) && CreateMeal(st, cookie, b1, id1).Ok?
    requires
      var st1 := CreateMeal(st, cookie, b1, id1).value;
      FreshMealId(st1.meals, id2) && CreateMeal(st1, cookie, b2, id2).Ok?
    ensures
      var st1 := CreateMeal(st, cookie, b1, id1).value;
      var st2 := CreateMeal(st1, cookie, b2, id2).value;
      var listed := ListMeals(st2, cookie);
      && listed.Ok? && |listed.value| == 2
      && listed.value[0].id == id1 && listed.value[1].id == id2
      && listed.value[1].snack == b2.snack.s && listed.value[1].description == b2.description.s
      && listed.value[1].date == b2.date.s && listed.value[1].time == b2.time.s
      && DietText(listed.value[1].isOnDiet) == b2.isOnDiet.s
      && (Truthy(id2) ==> GetMeal(st2, cookie, id2) == Ok(listed.value[1]))
  {
    var st1 := CreateMeal(st, cookie, b1, id1).value;
    ListAfterCreate(st, cookie, b1, id1);
    ListAfterCreate(st1, cookie, b2, id2);
    if Truthy(id2) {
      GetAfterCreate(st1, cookie, b2, id2);
    }
  }

  /** A user whose only meal is edited with all five fields gets the update
      accepted, and the list then holds just the edited row: same id and
      owner, the body's fields. */
  lemma EditOnlyMeal(st: Store, cookie: Option<string>, m: Meal, body: MealBody)
    requires ListMeals(st, cookie) == Ok([m])
    requires ParseMealBody(body).Ok?
    ensures UpdateMeal(st, cookie, m.id, body).Ok?
    ensures
      var listed := ListMeals(UpdateMeal(st, cookie, m.id, body).value, cookie);
      && listed == Ok([ApplyPatch(m, ParsePatch(body).value)])
      && listed.value[0].id == m.id && listed.value[0].userId == m.userId
      && listed.value[0].snack == body.snack.s && listed.value[0].description == body.description.s
      && listed.value[0].date == body.date.s && listed.value[0].time == body.time.s
      && DietText(listed.value[0].isOnDiet) == body.isOnDiet.s
  {
    assert m in OwnedBy(st.meals, Authenticate(st.users, cookie).value.id);
    var p := ParsePatch(body).value;
    ListAfterUpdate(st, cookie, m.id, body);
    assert UpdateWhereId([m], m.id, p) == [ApplyPatch(m, p)];
  }

  /** Deleting the one meal a user has leaves the list empty; a second
      delete of the same id is NotFound. */
  lemma DeleteOnlyMeal(st: Store, cookie: Option<string>, m: Meal)
    requires Valid(st)
    requires ListMeals(st, cookie) == Ok([m])
    ensures DeleteMeal(st, cookie, m.id).Ok?
    ensures ListMeals(DeleteMeal(st, cookie, m.id).value, cookie) == Ok([])
    ensures DeleteMeal(DeleteMeal(st, cookie, m.id).value, cookie, m.id) == Err(NotFound)
  {
    DeleteOnlyMealEmptiesList(st, cookie, m);
  }

  /** The counts of a list of five meals marked não, sim, não, sim, sim:
      five registered, two off the diet, three on it. */
  lemma MetricsOfFive(st: Store, cookie: Option<string>, ms: seq<Meal>)
    requires ListMeals(st, cookie) == Ok(ms)
    requires |ms| == 5
    requires ms[0].isOnDiet == Nao && ms[1].isOnDiet == Sim && ms[2].isOnDiet == Nao
    requires ms[3].isOnDiet == Sim && ms[4].isOnDiet == Sim
    ensures MealMetrics(st, cookie) == Ok(Metrics(5, 2, 3))
  {
    var uid := Authenticate(st.users, cookie).value.id;
    assert OwnedBy(st.meals, uid) == ms;
    var t1, t2, t3, t4 := ms[1..], ms[2..], ms[3..], ms[4..];
    assert t1[1..] == t2 && t2[1..] == t3 && t3[1..] == t4 && t4[1..] == [];
    assert FlagCount(t4, Sim) == 1 && FlagCount(t4, Nao) == 0;
    assert FlagCount(t3, Sim) == 2 && FlagCount(t3, Nao) == 0;
    assert FlagCount(t2, Sim) == 2 && FlagCount(t2, Nao) == 1;
    assert FlagCount(t1, Sim) == 3 && FlagCount(t1, Nao) == 1;
  }

  /** Meal ids for a run of creations: none names a stored meal, and no
      two are the same. */
  predicate FreshIds(meals: seq<Meal>, ids: seq<Id>) {
    && (forall k :: 0 <= k < |ids| ==> FreshMealId(meals, ids[k]))
    && (forall j, k :: 0 <= j < k < |ids| ==> ids[j] != ids[k])
  }

  /** Once the first id is stored, the others are still fresh. */
  lemma FreshIdsAfterCreate(meals: seq<Meal>, m: Meal, ids: seq<Id>)
    requires FreshIds(meals, ids) && |ids| > 0 && m.id == ids[0]
    ensures FreshIds(meals + [m], ids[1..])
  {
    forall k | 0 <= k < |ids[1..]|
      ensures FreshMealId(meals + [m], ids[1..][k])
    {
      assert ids[1..][k] == ids[k + 1];
      forall x | x in meals + [m]
        ensures x.id != ids[k + 1]
      {
        if x !in meals {
          assert x == m;
        }
      }
    }
  }

  /** `POST /meals` with `bodies[k]` and id `ids[k]` for every k in turn;
      the first refusal ends the run. */
  function CreateAll(st: Store, cookie: Option<string>, bodies: seq<MealBody>, ids: seq<Id>): (r: Result<Store, Error>)
    requires |ids| == |bodies| && FreshIds(st.meals, ids)
    ensures r.Ok? ==> r.value.users == st.users
    ensures r.Ok? ==> |r.value.meals| == |st.meals| + |bodies|
    decreases |bodies|
  {
    if |bodies| == 0 then Ok(st)
    else
      match CreateMeal(st, cookie, bodies[0], ids[0])
      case Err(e) => Err(e)
      case Ok(next) =>
        assert next.meals == st.meals + [next.meals[|st.meals|]];
        FreshIdsAfterCreate(st.meals, next.meals[|st.meals|], ids);
        CreateAll(next, cookie, bodies[1..], ids[1..])
  }

  /** The row carries the diet flag its creation body spelled out. */
  predicate MarkedAsAsked(b: MealBody, m: Meal) {
    && (b.isOnDiet == Str(OnDietText) ==> m.isOnDiet == Sim)
    && (b.isOnDiet == Str(OffDietText) ==> m.isOnDiet == Nao)
  }

  /** One creation by a signed-in user with a valid body and a fresh id:
      it succeeds, and the user's list grows by the new row, which is
      marked as the body asked. */
  lemma CreateStep(st: Store, cookie: Option<string>, body: MealBody, mealId: Id, u: User, before: seq<Meal>)
    returns (m: Meal)
    requires FreshMealId(st.meals, mealId) && ParseMealBody(body).Ok?
    requires Authenticate(st.users, cookie) == Ok(u) && OwnedBy(st.meals, u.id) == before
    ensures CreateMeal(st, cookie, body, mealId).Ok?
    ensures m == CreateMeal(st, cookie, body, mealId).value.meals[|st.meals|]
    ensures OwnedBy(CreateMeal(st, cookie, body, mealId).value.meals, u.id) == before + [m]
    ensures MarkedAsAsked(body, m)
  {
    ListAfterCreate(st, cookie, body, mealId);
    m := CreateMeal(st, cookie, body, mealId).value.meals[|st.meals|];
  }

  /** Creations one after another by a signed-in user with valid bodies
      and fresh ids: every one succeeds, and the user's list grows by one
      new row per creation, in order, each marked as its body asked. */
  lemma {:induction false} ListAfterCreates(st: Store, cookie: Option<string>, bodies: seq<MealBody>, ids: seq<Id>,
                                            u: User, before: seq<Meal>)
    returns (added: seq<Meal>)
    requires |ids| == |bodies| && FreshIds(st.meals, ids)
    requires forall k :: 0 <= k < |bodies| ==> ParseMealBody(bodies[k]).Ok?
    requires Authenticate(st.users, cookie) == Ok(u) && OwnedBy(st.meals, u.id) == before
    ensures CreateAll(st, cookie, bodies, ids).Ok?
    ensures |added| == |bodies|
    ensures OwnedBy(CreateAll(st, cookie, bodies, ids).value.meals, u.id) == before + added
    ensures forall k :: 0 <= k < |bodies| ==> MarkedAsAsked(bodies[k], added[k])
    decreases |bodies|, 1
  {
    if |bodies| == 0 {
      added := [];
      assert before + added == before;
    } else {
      added := ListAfterFirstCreate(st, cookie, bodies, ids, u, before);
    }
  }

  /** `ListAfterCreates` when there is at least one creation: the first
      one, then the rest in turn. */
  lemma {:induction false} ListAfterFirstCreate(st: Store, cookie: Option<string>, bodies: seq<MealBody>, ids: seq<Id>,
                                                u: User, before: seq<Meal>)
    returns (added: seq<Meal>)
    requires |ids| == |bodies| > 0 && FreshIds(st.meals, ids)
    requires forall k :: 0 <= k < |bodies| ==> ParseMealBody(bodies[k]).Ok?
    requires Authenticate(st.users, cookie) == Ok(u) && OwnedBy(st.meals, u.id) == before
    ensures CreateAll(st, cookie, bodies, ids).Ok?
    ensures |added| == |bodies|
    ensures OwnedBy(CreateAll(st, cookie, bodies, ids).value.meals, u.id) == before + added
    ensures forall k :: 0 <= k < |bodies| ==> MarkedAsAsked(bodies[k], added[k])
    decreases |bodies|, 0
  {
    var m := CreateStep(st, cookie, bodies[0], ids[0], u, before);
    var next := CreateMeal(st, cookie, bodies[0], ids[0]).value;
    assert next.meals == st.meals + [m];
    FreshIdsAfterCreate(st.meals, m, ids);
    assert CreateAll(st, cookie, bodies, ids) == CreateAll(next, cookie, bodies[1..], ids[1..]);
    assert forall k :: 0 <= k < |bodies[1..]| ==> bodies[1..][k] == bodies[k + 1];
    var rest := ListAfterCreates(next, cookie, bodies[1..], ids[1..], u, before + [m]);
    added := JoinCreated(bodies, before, m, rest);
  }

  /** Puts the first creation's row in front of the rows of the later ones. */
  lemma JoinCreated(bodies: seq<MealBody>, before: seq<Meal>, m: Meal, rest: seq<Meal>) returns (added: seq<Meal>)
    requires |bodies| == |rest| + 1 && MarkedAsAsked(bodies[0], m)
    requires forall k :: 0 <= k < |rest| ==> MarkedAsAsked(bodies[1..][k], rest[k])
    ensures added == [m] + rest && before + [m] + rest == before + added
    ensures forall k :: 0 <= k < |bodies| ==> MarkedAsAsked(bodies[k], added[k])
  {
    added := [m] + rest;
    forall k | 0 <= k < |bodies|
      ensures MarkedAsAsked(bodies[k], added[k])
    {
      if k > 0 {
        assert added[k] == rest[k - 1] && bodies[k] == bodies[1..][k - 1];
      }
    }
  }

  /** A user with no meals creates five meals, marked não, sim, não, sim,
      sim, with valid bodies and fresh ids: every creation succeeds, and
      the metrics then report five registered, two off the diet and three
      on it. */
  lemma FiveMealMetrics(st: Store, cookie: Option<string>, bodies: seq<MealBody>, ids: seq<Id>)
    requires ListMeals(st, cookie) == Ok([])
    requires |bodies| == 5 && |ids| == 5 && FreshIds(st.meals, ids)
    requires forall k :: 0 <= k < |bodies| ==> ParseMealBody(bodies[k]).Ok?
    requires bodies[0].isOnDiet == Str(OffDietText) && bodies[1].isOnDiet == Str(OnDietText)
    requires bodies[2].isOnDiet == Str(OffDietText) && bodies[3].isOnDiet == Str(OnDietText)
    requires bodies[4].isOnDiet == Str(OnDietText)
    ensures CreateAll(st, cookie, bodies, ids).Ok?
    ensures MealMetrics(CreateAll(st, cookie, bodies, ids).value, cookie) == Ok(Metrics(5, 2, 3))
  {
    var u := Authenticate(st.users, cookie).value;
    var added := ListAfterCreates(st, cookie, bodies, ids, u, []);
    var after := CreateAll(st, cookie, bodies, ids).value;
    assert [] + added == added;
    assert MarkedAsAsked(bodies[0], added[0]) && MarkedAsAsked(bodies[1], added[1]) && MarkedAsAsked(bodies[2], added[2]);
    assert MarkedAsAsked(bodies[3], added[3]) && MarkedAsAsked(bodies[4], added[4]);
    MetricsOfFive(after, cookie, added);
  }
}
