/** Ownership: a user never sees or changes another user's meal, and each
    write changes exactly the rows it names. */
module Ownership {
  import opened Wrappers
  import opened JsString
  import opened Schema
  import opened Session
  import opened Queries
  import opened Meals

  /** Without a truthy `sessionId` cookie every meal handler answers
      Unauthorized and returns no new store. */
  lemma NoSessionIsUnauthorized(st: Store, cookie: Option<string>, id: Id, body: MealBody, mealId: Id)
    requires FreshMealId(st.meals, mealId)
    requires !(cookie.Some? && Truthy(cookie.value))
    ensures CreateMeal(st, cookie, body, mealId) == Err(Unauthorized)
    ensures ListMeals(st, cookie) == Err(Unauthorized)
    ensures GetMeal(st, cookie, id) == Err(Unauthorized)
    ensures UpdateMeal(st, cookie, id, body) == Err(Unauthorized)
    ensures DeleteMeal(st, cookie, id) == Err(Unauthorized)
    ensures MealMetrics(st, cookie) == Err(Unauthorized)
  {
  }

  /** A present cookie that matches no user row is SessionNotFound for the
      handlers without a body, and for the others once the body is valid. */
  lemma UnknownSessionIsSessionNotFound(st: Store, session: string, id: Id, body: MealBody, mealId: Id)
    requires FreshMealId(st.meals, mealId)
    requires Truthy(session)
    requires forall u :: u in st.users ==> u.sessionId != session
    ensures ListMeals(st, Some(session)) == Err(SessionNotFound)
    ensures GetMeal(st, Some(session), id) == Err(SessionNotFound)
    ensures DeleteMeal(st, Some(session), id) == Err(SessionNotFound)
    ensures MealMetrics(st, Some(session)) == Err(SessionNotFound)
    ensures ParseMealBody(body).Ok? ==> CreateMeal(st, Some(session), body, mealId) == Err(SessionNotFound)
    ensures ParsePatch(body).Ok? ==> UpdateMeal(st, Some(session), id, body) == Err(SessionNotFound)
  {
  }

  /** A meal owned by someone other than the acting user is NotFound to
      get, update and delete, exactly as an id that does not exist. */
  lemma ForeignMealIsNotFound(st: Store, cookie: Option<string>, m: Meal, body: MealBody)
    requires Valid(st)
    requires m in st.meals
    requires Authenticate(st.users, cookie).Ok? && m.userId != Authenticate(st.users, cookie).value.id
    requires ParsePatch(body).Ok?
    ensures GetMeal(st, cookie, m.id) == Err(NotFound)
    ensures UpdateMeal(st, cookie, m.id, body) == Err(NotFound)
    ensures DeleteMeal(st, cookie, m.id) == Err(NotFound)
  {
  }

  /** The list after a create is the list before, with the new meal last:
      lists follow insertion order. */
  lemma ListAfterCreate(st: Store, cookie: Option<string>, body: MealBody, mealId: Id)
    requires FreshMealId(st.meals, mealId)
    requires CreateMeal(st, cookie, body, mealId).Ok?
    ensures ListMeals(CreateMeal(st, cookie, body, mealId).value, cookie)
         == Ok(ListMeals(st, cookie).value + [CreateMeal(st, cookie, body, mealId).value.meals[|st.meals|]])
  {
    var st' := CreateMeal(st, cookie, body, mealId).value;
    var m := st'.meals[|st.meals|];
    var u := Authenticate(st.users, cookie).value;
    assert st'.meals == st.meals + [m];
    OwnedByAppend(st.meals, [m], u.id);
    OwnedBySingle(m, u.id);
  }

  /** After a create, asking for the new meal by its (non-empty, fresh) id
      returns the row just inserted. */
  lemma GetAfterCreate(st: Store, cookie: Option<string>, body: MealBody, mealId: Id)
    requires FreshMealId(st.meals, mealId) && Truthy(mealId)
    requires CreateMeal(st, cookie, body, mealId).Ok?
    ensures
      var st' := CreateMeal(st, cookie, body, mealId).value;
      GetMeal(st', cookie, mealId) == Ok(st'.meals[|st.meals|])
  {
    var st' := CreateMeal(st, cookie, body, mealId).value;
    var uid := Authenticate(st'.users, cookie).value.id;
    assert st'.meals[|st.meals|] in st'.meals;
    assert FindOwned(st'.meals, mealId, uid).Some?;
  }

  /** A create by one user leaves every other owner's list as it was. */
  lemma CreateIsolation(st: Store, cookie: Option<string>, body: MealBody, mealId: Id, other: Id)
    requires FreshMealId(st.meals, mealId)
    requires CreateMeal(st, cookie, body, mealId).Ok?
    requires other != Authenticate(st.users, cookie).value.id
    ensures OwnedBy(CreateMeal(st, cookie, body, mealId).value.meals, other) == OwnedBy(st.meals, other)
  {
    var st' := CreateMeal(st, cookie, body, mealId).value;
    var m := st'.meals[|st.meals|];
    assert st'.meals == st.meals + [m];
    OwnedByAppend(st.meals, [m], other);
    OwnedBySingle(m, other);
  }

  /** Patching rows whose ids no meal of `other` carries leaves `other`'s list alone. */
  lemma {:induction false} UpdateKeepsOthers(meals: seq<Meal>, id: Id, p: Patch, other: Id)
    requires forall m :: m in meals && m.id == id ==> m.userId != other
    ensures OwnedBy(UpdateWhereId(meals, id, p), other) == OwnedBy(meals, other)
  {
    if |meals| > 0 {
      assert meals[0] in meals;
      assert forall m :: m in meals[1..] ==> m in meals;
      UpdateKeepsOthers(meals[1..], id, p, other);
      var r := UpdateWhereId(meals, id, p);
      assert r[1..] == UpdateWhereId(meals[1..], id, p);
    }
  }

  /** Deleting rows whose ids no meal of `other` carries leaves `other`'s list alone. */
  lemma {:induction false} DeleteKeepsOthers(meals: seq<Meal>, id: Id, other: Id)
    requires forall m :: m in meals && m.id == id ==> m.userId != other
    ensures OwnedBy(DeleteWhereId(meals, id), other) == OwnedBy(meals, other)
  {
    if |meals| > 0 {
      assert meals[0] in meals;
      assert forall m :: m in meals[1..] ==> m in meals;
      DeleteKeepsOthers(meals[1..], id, other);
      var head := if meals[0].id == id then [] else [meals[0]];
      OwnedByAppend(head, DeleteWhereId(meals[1..], id), other);
      if meals[0].id != id {
        OwnedBySingle(meals[0], other);
      }
    }
  }

  /** In a valid store, the one row carrying a checked id belongs to the
      acting user, so no other owner's row carries it. */
  lemma CheckedIdIsOwn(st: Store, id: Id, uid: Id, other: Id)
    requires Valid(st)
    requires FindOwned(st.meals, id, uid).Some?
    requires other != uid
    ensures forall m :: m in st.meals && m.id == id ==> m.userId != other
  {
  }

  /** An update by one user leaves every other owner's list as it was. */
  lemma UpdateIsolation(st: Store, cookie: Option<string>, id: Id, body: MealBody, other: Id)
    requires Valid(st)
    requires UpdateMeal(st, cookie, id, body).Ok?
    requires other != Authenticate(st.users, cookie).value.id
    ensures OwnedBy(UpdateMeal(st, cookie, id, body).value.meals, other) == OwnedBy(st.meals, other)
  {
    var u := Authenticate(st.users, cookie).value;
    CheckedIdIsOwn(st, id, u.id, other);
    UpdateKeepsOthers(st.meals, id, ParsePatch(body).value, other);
  }

  /** A delete by one user leaves every other owner's list as it was. */
  lemma DeleteIsolation(st: Store, cookie: Option<string>, id: Id, other: Id)
    requires Valid(st)
    requires DeleteMeal(st, cookie, id).Ok?
    requires other != Authenticate(st.users, cookie).value.id
    ensures OwnedBy(DeleteMeal(st, cookie, id).value.meals, other) == OwnedBy(st.meals, other)
  {
    var u := Authenticate(st.users, cookie).value;
    CheckedIdIsOwn(st, id, u.id, other);
    DeleteKeepsOthers(st.meals, id, other);
  }

  /** In a valid store, an accepted update rewrites exactly the checked row:
      the unscoped `where({ id })` hits only the row that passed the
      `(id, user_id)` pre-check. */
  lemma UpdateRewritesCheckedRow(st: Store, cookie: Option<string>, id: Id, body: MealBody)
    requires Valid(st)
    requires UpdateMeal(st, cookie, id, body).Ok?
    ensures
      var i := FindOwned(st.meals, id, Authenticate(st.users, cookie).value.id).value;
      UpdateMeal(st, cookie, id, body).value.meals == st.meals[i := ApplyPatch(st.meals[i], ParsePatch(body).value)]
  {
  }

  /** The unscoped update never moves the first `(id, owner)` match: it
      keeps ids and owners of every row. */
  lemma {:induction false} FindAfterUpdate(meals: seq<Meal>, id: Id, uid: Id, p: Patch)
    ensures FindOwned(UpdateWhereId(meals, id, p), id, uid) == FindOwned(meals, id, uid)
  {
  }

  /** After an accepted update, the caller's list is their old list with
      the update applied: same rows in the same order, the rows with the id
      patched. */
  lemma ListAfterUpdate(st: Store, cookie: Option<string>, id: Id, body: MealBody)
    requires UpdateMeal(st, cookie, id, body).Ok?
    ensures ListMeals(UpdateMeal(st, cookie, id, body).value, cookie)
         == Ok(UpdateWhereId(ListMeals(st, cookie).value, id, ParsePatch(body).value))
  {
    OwnedByAfterUpdate(st.meals, id, ParsePatch(body).value, Authenticate(st.users, cookie).value.id);
  }

  /** After an accepted update, reading the meal shows every supplied field,
      and id and owner are unchanged. */
  lemma ReadAfterUpdate(st: Store, cookie: Option<string>, id: Id, body: MealBody)
    requires Truthy(id)
    requires UpdateMeal(st, cookie, id, body).Ok?
    ensures
      var before := GetMeal(st, cookie, id);
      var after := GetMeal(UpdateMeal(st, cookie, id, body).value, cookie, id);
      && before.Ok? && after == Ok(ApplyPatch(before.value, ParsePatch(body).value))
      && (body.snack.Str? ==> after.value.snack == body.snack.s)
      && (body.description.Str? ==> after.value.description == body.description.s)
      && (body.date.Str? ==> after.value.date == body.date.s)
      && (body.time.Str? ==> after.value.time == body.time.s)
      && (body.isOnDiet.Str? ==> DietText(after.value.isOnDiet) == body.isOnDiet.s)
  {
    var u := Authenticate(st.users, cookie).value;
    FindAfterUpdate(st.meals, id, u.id, ParsePatch(body).value);
  }

  /** In a valid store, an accepted delete cuts exactly the checked row out
      of the table and out of the owner's list, keeping the order of the rest. */
  lemma DeleteRemovesCheckedRow(st: Store, cookie: Option<string>, id: Id)
    requires Valid(st)
    requires DeleteMeal(st, cookie, id).Ok?
    ensures
      var uid := Authenticate(st.users, cookie).value.id;
      var i := FindOwned(st.meals, id, uid).value;
      var st' := DeleteMeal(st, cookie, id).value;
      && st'.meals == st.meals[..i] + st.meals[i + 1..]
      && OwnedBy(st.meals, uid) == OwnedBy(st.meals[..i], uid) + [st.meals[i]] + OwnedBy(st.meals[i + 1..], uid)
      && OwnedBy(st'.meals, uid) == OwnedBy(st.meals[..i], uid) + OwnedBy(st.meals[i + 1..], uid)
  {
    var uid := Authenticate(st.users, cookie).value.id;
    var i := FindOwned(st.meals, id, uid).value;
    DeleteHitsOneRow(st.meals, id, i);
    var a, m, b := st.meals[..i], st.meals[i], st.meals[i + 1..];
    assert st.meals == a + [m] + b;
    OwnedByAppend(a + [m], b, uid);
    OwnedByAppend(a, [m], uid);
    OwnedBySingle(m, uid);
    OwnedByAppend(a, b, uid);
  }

  /** Deleting a user's only meal leaves that user's list empty. */
  lemma DeleteOnlyMealEmptiesList(st: Store, cookie: Option<string>, m: Meal)
    requires Valid(st)
    requires ListMeals(st, cookie) == Ok([m])
    ensures DeleteMeal(st, cookie, m.id).Ok?
    ensures ListMeals(DeleteMeal(st, cookie, m.id).value, cookie) == Ok([])
  {
    var uid := Authenticate(st.users, cookie).value.id;
    assert m in OwnedBy(st.meals, uid);
    var st' := DeleteMeal(st, cookie, m.id).value;
    assert st'.users == st.users;
    assert |OwnedBy(st'.meals, uid)| == 0 by {
      if |OwnedBy(st'.meals, uid)| > 0 {
        assert OwnedBy(st'.meals, uid)[0] in OwnedBy(st'.meals, uid);
      }
    }
  }
}
