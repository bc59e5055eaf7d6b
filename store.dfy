/**
 * The diary's list of meal records (`allMeals`) and its two update handlers:
 * `handleUpdateMeal`, an upsert by id, and `handleDeleteMeal`, a delete by id.
 */
module Store {
  import opened Types
  import opened ArrayOps

  /** The test `m.id === id`. */
  function HasId(id: string): MealEntry -> bool { (m: MealEntry) => m.id == id }

  /** The test `m.id !== id`. */
  function LacksId(id: string): MealEntry -> bool { (m: MealEntry) => m.id != id }

  predicate Contains(meals: seq<MealEntry>, id: string)
  {
    exists i :: 0 <= i < |meals| && meals[i].id == id
  }

  /** `k` is the first position holding an entry with this id. */
  predicate FirstWithId(meals: seq<MealEntry>, id: string, k: int)
  {
    0 <= k < |meals| && meals[k].id == id && forall j :: 0 <= j < k ==> meals[j].id != id
  }

  /**
   * The list after `handleUpdateMeal(entry)`: the first entry with the same id
   * is overwritten where it stands; without one, the entry is appended.
   */
  function Upserted(meals: seq<MealEntry>, entry: MealEntry): (r: seq<MealEntry>)
    ensures Contains(meals, entry.id) ==> |r| == |meals|
    ensures !Contains(meals, entry.id) ==> |r| == |meals| + 1 && r[|meals|] == entry
    ensures forall k :: 0 <= k < |meals| ==>
              if FirstWithId(meals, entry.id, k) then r[k] == entry else r[k] == meals[k]
  {
    var index := FindIndex(meals, HasId(entry.id));
    if index > -1 then meals[index := entry] else meals + [entry]
  }

  /** The list after `handleDeleteMeal(id)`: every entry with that id is dropped. */
  function DeleteById(meals: seq<MealEntry>, id: string): (r: seq<MealEntry>)
    ensures forall i :: 0 <= i < |r| ==> r[i].id != id && r[i] in meals
    ensures forall i :: 0 <= i < |meals| && meals[i].id != id ==> meals[i] in r
    ensures forall x :: multiset(r)[x] == if x.id != id then multiset(meals)[x] else 0
  {
    FilterCounts(meals, LacksId(id));
    Filter(meals, LacksId(id))
  }

  /** After an upsert the list holds the entry, under its id. */
  lemma UpsertStoresEntry(meals: seq<MealEntry>, entry: MealEntry)
    ensures entry in Upserted(meals, entry) && Contains(Upserted(meals, entry), entry.id)
  {
    var r := Upserted(meals, entry);
    if Contains(meals, entry.id) {
      var k := FindIndex(meals, HasId(entry.id));
      assert FirstWithId(meals, entry.id, k);
      assert r[k] == entry;
    } else {
      assert r[|meals|] == entry;
    }
  }

  /** With an entry of that id at first position `k`, an upsert overwrites position `k` and nothing else. */
  lemma UpsertReplacesFirstMatch(meals: seq<MealEntry>, entry: MealEntry, k: int)
    requires FirstWithId(meals, entry.id, k)
    ensures Upserted(meals, entry) == meals[k := entry]
  {
  }

  /** With no entry of that id, an upsert appends. */
  lemma UpsertAppendsNewId(meals: seq<MealEntry>, entry: MealEntry)
    requires !Contains(meals, entry.id)
    ensures Upserted(meals, entry) == meals + [entry]
  {
  }

  /** Saving the same record twice is saving it once. */
  lemma UpsertIdempotent(meals: seq<MealEntry>, entry: MealEntry)
    ensures Upserted(Upserted(meals, entry), entry) == Upserted(meals, entry)
  {
    var r := Upserted(meals, entry);
    var k := FindIndex(r, HasId(entry.id));
    UpsertStoresEntry(meals, entry);
    assert FirstWithId(r, entry.id, k);
    if Contains(meals, entry.id) {
      var i := FindIndex(meals, HasId(entry.id));
      assert FirstWithId(meals, entry.id, i);
    }
    assert r[k] == entry;
    assert r[k := entry] == r;
  }

  /** No two entries share an id. */
  predicate UniqueIds(meals: seq<MealEntry>)
  {
    forall i, j :: 0 <= i < j < |meals| ==> meals[i].id != meals[j].id
  }

  /** Upserts keep ids unique: a record is either replaced under its id or added under a new one. */
  lemma UpsertKeepsIdsUnique(meals: seq<MealEntry>, entry: MealEntry)
    requires UniqueIds(meals)
    ensures UniqueIds(Upserted(meals, entry))
  {
    var r := Upserted(meals, entry);
    forall i, j | 0 <= i < j < |r| ensures r[i].id != r[j].id {
      if Contains(meals, entry.id) {
        var k := FindIndex(meals, HasId(entry.id));
        assert FirstWithId(meals, entry.id, k);
        if i == k {
          assert r[j] == meals[j];
        } else if j == k {
          assert r[i] == meals[i];
        } else {
          assert r[i] == meals[i] && r[j] == meals[j];
        }
      } else if j == |meals| {
        assert r[i] == meals[i];
      } else {
        assert r[i] == meals[i] && r[j] == meals[j];
      }
    }
  }

  /** Delete leaves no entry with that id. */
  lemma DeleteRemovesEveryMatch(meals: seq<MealEntry>, id: string)
    ensures !Contains(DeleteById(meals, id), id)
  {
  }

  /** Deleting an id that is not there changes nothing. */
  lemma DeleteAbsentIsNoOp(meals: seq<MealEntry>, id: string)
    requires !Contains(meals, id)
    ensures DeleteById(meals, id) == meals
  {
    FilterKeepsAll(meals, LacksId(id));
  }

  /** Deleting twice is deleting once. */
  lemma DeleteIdempotent(meals: seq<MealEntry>, id: string)
    ensures DeleteById(DeleteById(meals, id), id) == DeleteById(meals, id)
  {
    FilterIdempotent(meals, LacksId(id));
  }

  /** Delete keeps the remaining entries in their relative order. */
  lemma DeleteKeepsOrder(meals: seq<MealEntry>, id: string)
    ensures IsSubsequence(DeleteById(meals, id), meals)
  {
    FilterIsSubsequence(meals, LacksId(id));
  }

  /** The in-memory `allMeals` collection and its two handlers. */
  class MealStore {
    var meals: seq<MealEntry>

    /** A diary with nothing stored yet starts empty. */
    constructor ()
      ensures meals == []
    {
      meals := [];
    }

    /** `handleUpdateMeal`: copy the list, overwrite the matching slot, or append. */
    method UpdateMeal(mealToUpdate: MealEntry)
      modifies this
      ensures meals == Upserted(old(meals), mealToUpdate)
      ensures mealToUpdate in meals
    {
      var index := FindIndex(meals, HasId(mealToUpdate.id));
      if index > -1 {
        var updatedMeals := meals;
        updatedMeals := updatedMeals[index := mealToUpdate];
        meals := updatedMeals;
      } else {
        meals := meals + [mealToUpdate];
      }
      UpsertStoresEntry(old(meals), mealToUpdate);
    }

    /** `handleDeleteMeal`: keep the entries whose id differs. */
    method DeleteMeal(mealIdToDelete: string)
      modifies this
      ensures meals == DeleteById(old(meals), mealIdToDelete)
      ensures !Contains(meals, mealIdToDelete)
    {
      meals := DeleteById(meals, mealIdToDelete);
    }
  }
}
