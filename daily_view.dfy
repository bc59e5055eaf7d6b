/**
 * The day view: one card per meal slot, each showing the first stored entry
 * for the selected day and that slot.
 */
module DailyView {
  import opened Wrappers
  import opened Types
  import opened ArrayOps
  import Store

  /** Entry `m` is logged for `day` (a `yyyy-MM-dd` string) in slot `t`. */
  predicate Occupies(m: MealEntry, day: string, t: MealType)
  {
    m.date == day && m.mealType == t
  }

  /** The test `meal.date === formattedDate && meal.type === mealType`. */
  function InSlot(day: string, t: MealType): MealEntry -> bool
  {
    (m: MealEntry) => Occupies(m, day, t)
  }

  /** `mealsForDayAndType(t)`: the first entry logged for that day and slot, if any. */
  function MealForSlot(meals: seq<MealEntry>, day: string, t: MealType): (r: Option<MealEntry>)
    ensures r.None? <==> forall i :: 0 <= i < |meals| ==> !Occupies(meals[i], day, t)
    ensures r.Some? ==> Occupies(r.value, day, t)
    ensures r.Some? ==> exists i :: 0 <= i < |meals| && meals[i] == r.value
                                    && forall j :: 0 <= j < i ==> !Occupies(meals[j], day, t)
  {
    Find(meals, InSlot(day, t))
  }

  /** What one `MealCard` is given: its slot and the entry shown in it. */
  datatype Card = Card(mealType: MealType, entry: Option<MealEntry>)

  /** `mealTypes.map(...)`: one card per slot, in `mealTypes` order. */
  function DayCards(meals: seq<MealEntry>, day: string): (r: seq<Card>)
    ensures |r| == |MealTypes| == 4
    ensures forall k :: 0 <= k < |r| ==> r[k].mealType == MealTypes[k]
    ensures forall k :: 0 <= k < |r| ==> r[k].entry == MealForSlot(meals, day, MealTypes[k])
    ensures forall k :: 0 <= k < |r| && r[k].entry.Some? ==> Occupies(r[k].entry.value, day, r[k].mealType)
    ensures forall k :: 0 <= k < |r| ==>
              (r[k].entry.None? <==> forall i :: 0 <= i < |meals| ==> !Occupies(meals[i], day, r[k].mealType))
  {
    seq(|MealTypes|, k requires 0 <= k < |MealTypes| => Card(MealTypes[k], MealForSlot(meals, day, MealTypes[k])))
  }

  /** The one-entry-per-slot convention the day view relies on and the store does not enforce. */
  predicate SlotsUnique(meals: seq<MealEntry>)
  {
    forall i, j :: 0 <= i < j < |meals| ==> !Occupies(meals[j], meals[i].date, meals[i].mealType)
  }

  /** Under the convention, every stored entry is what its own slot's card shows. */
  lemma LookupFindsOccupant(meals: seq<MealEntry>, i: int)
    requires SlotsUnique(meals) && 0 <= i < |meals|
    ensures MealForSlot(meals, meals[i].date, meals[i].mealType) == Some(meals[i])
  {
    var r := MealForSlot(meals, meals[i].date, meals[i].mealType);
    var k :| 0 <= k < |meals| && meals[k] == r.value
             && forall j :: 0 <= j < k ==> !Occupies(meals[j], meals[i].date, meals[i].mealType);
    if k < i {
      assert !Occupies(meals[i], meals[k].date, meals[k].mealType);
    }
  }

  /** Adding a record with a new id to an empty slot makes it the slot's entry. */
  lemma LookupAfterAddingToEmptySlot(meals: seq<MealEntry>, e: MealEntry)
    requires !Store.Contains(meals, e.id)
    requires MealForSlot(meals, e.date, e.mealType).None?
    ensures MealForSlot(Store.Upserted(meals, e), e.date, e.mealType) == Some(e)
  {
    var r := Store.Upserted(meals, e);
    Store.UpsertAppendsNewId(meals, e);
    var found := MealForSlot(r, e.date, e.mealType);
    assert Occupies(r[|meals|], e.date, e.mealType);
    var k :| 0 <= k < |r| && r[k] == found.value
             && forall j :: 0 <= j < k ==> !Occupies(r[j], e.date, e.mealType);
  }

  /**
   * Without the convention an upsert need not be what the slot shows: an older
   * entry for the same slot still comes first.
   */
  lemma LookupAfterUpsertCanShowOtherEntry()
    ensures exists meals: seq<MealEntry>, e: MealEntry ::
              MealForSlot(Store.Upserted(meals, e), e.date, e.mealType).Some?
              && MealForSlot(Store.Upserted(meals, e), e.date, e.mealType).value.id != e.id
  {
    var older := MealEntry("a", "2024-06-04", Lunch, "Soup", General, None, None, None, None, None, None, None, None);
    var e := older.(id := "b", name := "Salad");
    var r := Store.Upserted([older], e);
    Store.UpsertAppendsNewId([older], e);
    assert r == [older, e];
    assert MealForSlot(r, e.date, e.mealType) == Some(older);
  }

  /**
   * Saving from a card keeps the convention and the card then shows the saved
   * record: either a new id into an empty slot, or an edit of the entry
   * already shown in that slot (the dialog keeps its id, day and slot).
   */
  lemma SaveFromCardKeepsSlotsUnique(meals: seq<MealEntry>, e: MealEntry)
    requires SlotsUnique(meals)
    requires || (!Store.Contains(meals, e.id) && MealForSlot(meals, e.date, e.mealType).None?)
             || (exists k :: Store.FirstWithId(meals, e.id, k) && Occupies(meals[k], e.date, e.mealType))
    ensures SlotsUnique(Store.Upserted(meals, e))
    ensures MealForSlot(Store.Upserted(meals, e), e.date, e.mealType) == Some(e)
  {
    var r := Store.Upserted(meals, e);
    if !Store.Contains(meals, e.id) && MealForSlot(meals, e.date, e.mealType).None? {
      Store.UpsertAppendsNewId(meals, e);
      forall i, j | 0 <= i < j < |r| ensures !Occupies(r[j], r[i].date, r[i].mealType) {
        if j == |meals| {
          assert r[i] == meals[i];
          assert !Occupies(meals[i], e.date, e.mealType);
        } else {
          assert r[i] == meals[i] && r[j] == meals[j];
        }
      }
    } else {
      var k :| Store.FirstWithId(meals, e.id, k) && Occupies(meals[k], e.date, e.mealType);
      Store.UpsertReplacesFirstMatch(meals, e, k);
      forall i, j | 0 <= i < j < |r| ensures !Occupies(r[j], r[i].date, r[i].mealType) {
        if i == k {
          assert !Occupies(meals[j], meals[k].date, meals[k].mealType);
        } else if j == k {
          assert !Occupies(meals[k], meals[i].date, meals[i].mealType);
        } else {
          assert r[i] == meals[i] && r[j] == meals[j];
        }
      }
    }
    assert Occupies(e, e.date, e.mealType);
    assert e in r;
    var i :| 0 <= i < |r| && r[i] == e;
    LookupFindsOccupant(r, i);
  }
}
