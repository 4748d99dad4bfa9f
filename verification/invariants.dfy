/** The store invariant `Valid` holds after every successful write:
    registration, creation, update and deletion. Reads return no store. */
module Invariants {
  import opened Wrappers
  import opened Schema
  import opened Session
  import opened Queries
  import opened Meals

  /** Removing one row keeps meal ids unique. */
  lemma RemoveKeepsUnique(meals: seq<Meal>, i: nat)
    requires UniqueMealIds(meals) && i < |meals|
    ensures UniqueMealIds(meals[..i] + meals[i + 1..])
  {
  }

  /** Registration with fresh ids keeps the invariant. */
  lemma RegisterPreservesValid(st: Store, cookie: Option<string>, body: UserBody, userId: Id, freshSession: string)
    requires Valid(st)
    requires FreshUserId(st.users, userId) && FreshSession(st.users, freshSession)
    requires Register(st, cookie, body, userId, freshSession).Ok?
    ensures Valid(Register(st, cookie, body, userId, freshSession).value.store)
  {
  }

  /** Creation with a fresh id keeps the invariant. */
  lemma CreatePreservesValid(st: Store, cookie: Option<string>, body: MealBody, mealId: Id)
    requires Valid(st)
    requires FreshMealId(st.meals, mealId)
    requires CreateMeal(st, cookie, body, mealId).Ok?
    ensures Valid(CreateMeal(st, cookie, body, mealId).value)
  {
  }

  /** An accepted update keeps ids, owners and field formats. */
  lemma UpdatePreservesValid(st: Store, cookie: Option<string>, id: Id, body: MealBody)
    requires Valid(st)
    requires UpdateMeal(st, cookie, id, body).Ok?
    ensures Valid(UpdateMeal(st, cookie, id, body).value)
  {
  }

  /** An accepted delete keeps the invariant: it cuts out one row. */
  lemma DeletePreservesValid(st: Store, cookie: Option<string>, id: Id)
    requires Valid(st)
    requires DeleteMeal(st, cookie, id).Ok?
    ensures Valid(DeleteMeal(st, cookie, id).value)
  {
    var u := Authenticate(st.users, cookie).value;
    var i := FindOwned(st.meals, id, u.id).value;
    DeleteHitsOneRow(st.meals, id, i);
    RemoveKeepsUnique(st.meals, i);
  }
}
