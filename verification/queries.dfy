/** The queries the meal handlers run against the `meals` table, each a
    function over the rows in storage order. */
module Queries {
  import opened Wrappers
  import opened Schema

  /** `where({ user_id })`: the rows owned by `uid`, in storage order. */
  function OwnedBy(meals: seq<Meal>, uid: Id): (r: seq<Meal>)
    ensures forall m :: m in r <==> m in meals && m.userId == uid
    ensures |r| <= |meals|
  {
    if |meals| == 0 then []
    else (if meals[0].userId == uid then [meals[0]] else []) + OwnedBy(meals[1..], uid)
  }

  /** Filtering distributes over concatenation, so the owned rows keep
      their relative storage order. */
  lemma {:induction false} OwnedByAppend(a: seq<Meal>, b: seq<Meal>, uid: Id)
    ensures OwnedBy(a + b, uid) == OwnedBy(a, uid) + OwnedBy(b, uid)
  {
    if |a| == 0 {
      assert a + b == b;
    } else {
      assert (a + b)[1..] == a[1..] + b;
      OwnedByAppend(a[1..], b, uid);
    }
  }

  /** A single row is listed exactly when it is owned. */
  lemma OwnedBySingle(m: Meal, uid: Id)
    ensures OwnedBy([m], uid) == if m.userId == uid then [m] else []
  {
  }

  /** `where({ user_id, id }).first()`: index of the first row with this
      id and this owner. */
  function FindOwned(meals: seq<Meal>, id: Id, uid: Id): (r: Option<nat>)
    ensures r.Some? ==> r.value < |meals| && meals[r.value].id == id && meals[r.value].userId == uid
    ensures r.Some? ==> forall j :: 0 <= j < r.value ==> !(meals[j].id == id && meals[j].userId == uid)
    ensures r.None? <==> forall m :: m in meals ==> !(m.id == id && m.userId == uid)
  {
    if |meals| == 0 then None
    else if meals[0].id == id && meals[0].userId == uid then Some(0)
    else
      match FindOwned(meals[1..], id, uid)
      case Some(i) => Some(i + 1)
      case None => None
  }

  /** When meal ids are unique, the row found is the one row with that id. */
  lemma FindOwnedUnique(meals: seq<Meal>, id: Id, uid: Id, i: nat)
    requires UniqueMealIds(meals)
    requires i < |meals| && meals[i].id == id && meals[i].userId == uid
    ensures FindOwned(meals, id, uid) == Some(i)
  {
  }

  /** The fields an update writes: `Some` for a field the body supplied.
      A field the body omits reaches the query builder as `undefined`, which
      it leaves out of the `SET` list, so that column keeps its value. */
  datatype Patch = Patch(
    snack: Option<string>,
    description: Option<string>,
    date: Option<string>,
    time: Option<string>,
    isOnDiet: Option<DietFlag>)

  /** The patch of a body that supplies no field. */
  const NoChange := Patch(None, None, None, None, None)

  /** One row after `update(patch)`. */
  function ApplyPatch(m: Meal, p: Patch): (r: Meal)
    ensures r.id == m.id && r.userId == m.userId
    ensures p.snack.Some? ==> r.snack == p.snack.value
    ensures p.description.Some? ==> r.description == p.description.value
    ensures p.date.Some? ==> r.date == p.date.value
    ensures p.time.Some? ==> r.time == p.time.value
    ensures p.isOnDiet.Some? ==> r.isOnDiet == p.isOnDiet.value
    ensures p.snack.None? ==> r.snack == m.snack
    ensures p.description.None? ==> r.description == m.description
    ensures p.date.None? ==> r.date == m.date
    ensures p.time.None? ==> r.time == m.time
    ensures p.isOnDiet.None? ==> r.isOnDiet == m.isOnDiet
  {
    m.(snack := p.snack.GetOr(m.snack),
       description := p.description.GetOr(m.description),
       date := p.date.GetOr(m.date),
       time := p.time.GetOr(m.time),
       isOnDiet := p.isOnDiet.GetOr(m.isOnDiet))
  }

  /** `where({ id }).update(patch)`: note that the filter is the id alone,
      not the owner. Every row with that id is patched, every other row kept. */
  function UpdateWhereId(meals: seq<Meal>, id: Id, p: Patch): (r: seq<Meal>)
    ensures |r| == |meals|
    ensures forall i :: 0 <= i < |meals| && meals[i].id != id ==> r[i] == meals[i]
    ensures forall i :: 0 <= i < |meals| && meals[i].id == id ==> r[i] == ApplyPatch(meals[i], p)
  {
    if |meals| == 0 then []
    else [if meals[0].id == id then ApplyPatch(meals[0], p) else meals[0]] + UpdateWhereId(meals[1..], id, p)
  }

  /** The update keeps every owner, so listing an owner's rows after it is
      the same as updating that owner's list. */
  lemma {:induction false} OwnedByAfterUpdate(meals: seq<Meal>, id: Id, p: Patch, uid: Id)
    ensures OwnedBy(UpdateWhereId(meals, id, p), uid) == UpdateWhereId(OwnedBy(meals, uid), id, p)
  {
    if |meals| > 0 {
      OwnedByAfterUpdate(meals[1..], id, p, uid);
      var head := if meals[0].id == id then ApplyPatch(meals[0], p) else meals[0];
      var after := UpdateWhereId(meals, id, p);
      assert after == [head] + UpdateWhereId(meals[1..], id, p);
      assert after[1..] == UpdateWhereId(meals[1..], id, p);
      if meals[0].userId == uid {
        var owned := [meals[0]] + OwnedBy(meals[1..], uid);
        assert OwnedBy(meals, uid) == owned;
        assert owned[0] == meals[0] && owned[1..] == OwnedBy(meals[1..], uid);
      }
    }
  }

  /** With unique ids, the unscoped update rewrites exactly row `i`. */
  lemma UpdateHitsOneRow(meals: seq<Meal>, id: Id, p: Patch, i: nat)
    requires UniqueMealIds(meals)
    requires i < |meals| && meals[i].id == id
    ensures UpdateWhereId(meals, id, p) == meals[i := ApplyPatch(meals[i], p)]
  {
  }

  /** `where({ id }).del()`: removes every row with that id, again without
      looking at the owner. */
  function DeleteWhereId(meals: seq<Meal>, id: Id): (r: seq<Meal>)
    ensures |r| <= |meals|
    ensures forall k :: 0 <= k < |r| ==> r[k].id != id
  {
    if |meals| == 0 then []
    else if meals[0].id == id then DeleteWhereId(meals[1..], id)
    else [meals[0]] + DeleteWhereId(meals[1..], id)
  }

  /** The rows kept by a delete are exactly the rows with another id. */
  lemma {:induction false} DeleteKeepsExactlyOthers(meals: seq<Meal>, id: Id)
    ensures forall m :: m in DeleteWhereId(meals, id) <==> m in meals && m.id != id
  {
    if |meals| > 0 {
      DeleteKeepsExactlyOthers(meals[1..], id);
      assert meals == [meals[0]] + meals[1..];
    }
  }

  /** Deleting distributes over concatenation. */
  lemma {:induction false} DeleteAppend(a: seq<Meal>, b: seq<Meal>, id: Id)
    ensures DeleteWhereId(a + b, id) == DeleteWhereId(a, id) + DeleteWhereId(b, id)
  {
    if |a| == 0 {
      assert a + b == b;
    } else {
      assert (a + b)[1..] == a[1..] + b;
      DeleteAppend(a[1..], b, id);
    }
  }

  /** With unique ids, no row before or after row `i` carries its id. */
  lemma OthersLackId(meals: seq<Meal>, i: nat)
    requires UniqueMealIds(meals) && i < |meals|
    ensures FreshMealId(meals[..i], meals[i].id)
    ensures FreshMealId(meals[i + 1..], meals[i].id)
  {
  }

  /** With unique ids, the unscoped delete cuts exactly row `i` out and
      keeps the others in order. */
  lemma DeleteHitsOneRow(meals: seq<Meal>, id: Id, i: nat)
    requires UniqueMealIds(meals)
    requires i < |meals| && meals[i].id == id
    ensures DeleteWhereId(meals, id) == meals[..i] + meals[i + 1..]
  {
    OthersLackId(meals, i);
    assert meals == meals[..i] + [meals[i]] + meals[i + 1..];
    DeleteCutsRow(meals[..i], meals[i], meals[i + 1..]);
  }

  /** Deleting the id of a row that no other row shares removes just that row. */
  lemma {:induction false} DeleteCutsRow(before: seq<Meal>, hit: Meal, after: seq<Meal>)
    requires FreshMealId(before, hit.id) && FreshMealId(after, hit.id)
    ensures DeleteWhereId(before + [hit] + after, hit.id) == before + after
  {
    var id := hit.id;
    var front := before + [hit];
    DeleteAppend(front, after, id);
    DeleteAppend(before, [hit], id);
    DeleteNoMatch(before, id);
    DeleteNoMatch(after, id);
    DeleteOnlyHit(hit);
    assert DeleteWhereId(front, id) == before;
  }

  lemma DeleteOnlyHit(hit: Meal)
    ensures DeleteWhereId([hit], hit.id) == []
  {
  }

  /** Deleting an id that occurs nowhere keeps every row. */
  lemma {:induction false} DeleteNoMatch(meals: seq<Meal>, id: Id)
    requires FreshMealId(meals, id)
    ensures DeleteWhereId(meals, id) == meals
  {
    if |meals| > 0 {
      assert meals[0] in meals;
      assert forall m :: m in meals[1..] ==> m in meals;
      DeleteNoMatch(meals[1..], id);
      assert meals == [meals[0]] + meals[1..];
    }
  }

  /** `count('id').where({ user_id [, isOnDiet] })`: the owned rows,
      restricted to one diet flag when `flag` is given. */
  function CountWhere(meals: seq<Meal>, uid: Id, flag: Option<DietFlag>): (n: nat)
    ensures n <= |meals|
  {
    if |meals| == 0 then 0
    else
      var hit := meals[0].userId == uid && (flag.None? || meals[0].isOnDiet == flag.value);
      (if hit then 1 else 0) + CountWhere(meals[1..], uid, flag)
  }

  /** Every owned meal is either on or off the diet, so the unrestricted
      count is the sum of the two restricted counts. */
  lemma {:induction false} CountSplits(meals: seq<Meal>, uid: Id)
    ensures CountWhere(meals, uid, None) == CountWhere(meals, uid, Some(Sim)) + CountWhere(meals, uid, Some(Nao))
  {
    if |meals| > 0 {
      CountSplits(meals[1..], uid);
    }
  }

  /** The unrestricted count is the length of the owner's list. */
  lemma {:induction false} CountIsListLength(meals: seq<Meal>, uid: Id)
    ensures CountWhere(meals, uid, None) == |OwnedBy(meals, uid)|
  {
    if |meals| > 0 {
      CountIsListLength(meals[1..], uid);
    }
  }

  /** Number of meals in a list carrying flag `f`. */
  function FlagCount(meals: seq<Meal>, f: DietFlag): nat {
    if |meals| == 0 then 0 else (if meals[0].isOnDiet == f then 1 else 0) + FlagCount(meals[1..], f)
  }

  /** A restricted count is read off the owner's list: the number of its
      meals carrying that flag. */
  lemma {:induction false} CountIsFlagCount(meals: seq<Meal>, uid: Id, f: DietFlag)
    ensures CountWhere(meals, uid, Some(f)) == FlagCount(OwnedBy(meals, uid), f)
  {
    if |meals| > 0 {
      CountIsFlagCount(meals[1..], uid, f);
      var rest := OwnedBy(meals[1..], uid);
      if meals[0].userId == uid {
        var all := [meals[0]] + rest;
        assert OwnedBy(meals, uid) == all;
        assert all[0] == meals[0] && all[1..] == rest;
        assert FlagCount(all, f) == (if meals[0].isOnDiet == f then 1 else 0) + FlagCount(rest, f);
      } else {
        assert OwnedBy(meals, uid) == rest;
      }
    }
  }
}
