/** The shared data model: the closed meal-slot and category sets and the meal record. */
module Types {
  import opened Wrappers
  import DateStrings
  import ArrayOps

  /** The four meal slots of a day. */
  datatype MealType = Breakfast | Lunch | Dinner | Snack {
    function Name(): string {
      match this
      case Breakfast => "Breakfast"
      case Lunch => "Lunch"
      case Dinner => "Dinner"
      case Snack => "Snack"
    }
  }

  /** `mealTypes`, in display order. */
  const MealTypes: seq<MealType> := [Breakfast, Lunch, Dinner, Snack]

  datatype MealCategory =
    | General | Vegetarian | Vegan | HighProtein | LowCarb | Homemade
    | Restaurant | FastFood | Dessert | Beverage | Other
  {
    function Name(): string {
      match this
      case General => "General"
      case Vegetarian => "Vegetarian"
      case Vegan => "Vegan"
      case HighProtein => "High Protein"
      case LowCarb => "Low Carb"
      case Homemade => "Homemade"
      case Restaurant => "Restaurant"
      case FastFood => "Fast Food"
      case Dessert => "Dessert"
      case Beverage => "Beverage"
      case Other => "Other"
    }

    /** Where the category stands in `mealCategories`. */
    function Position(): (k: nat)
      ensures k < |MealCategories| && MealCategories[k] == this
    {
      match this
      case General => 0
      case Vegetarian => 1
      case Vegan => 2
      case HighProtein => 3
      case LowCarb => 4
      case Homemade => 5
      case Restaurant => 6
      case FastFood => 7
      case Dessert => 8
      case Beverage => 9
      case Other => 10
    }
  }

  /** `mealCategories`, in display order. */
  const MealCategories: seq<MealCategory> :=
    [General, Vegetarian, Vegan, HighProtein, LowCarb, Homemade, Restaurant, FastFood, Dessert, Beverage, Other]

  /** `mealTypes` lists every slot exactly once, Breakfast first and Snack last, under distinct names. */
  lemma MealTypesEnumerateSlots()
    ensures |MealTypes| == 4
    ensures MealTypes[0] == Breakfast && MealTypes[1] == Lunch && MealTypes[2] == Dinner && MealTypes[3] == Snack
    ensures forall t: MealType :: t in MealTypes
    ensures forall i, j :: 0 <= i < j < |MealTypes| ==> MealTypes[i].Name() != MealTypes[j].Name()
  {
    forall t: MealType ensures t in MealTypes {
      match t
      case Breakfast => assert MealTypes[0] == t;
      case Lunch => assert MealTypes[1] == t;
      case Dinner => assert MealTypes[2] == t;
      case Snack => assert MealTypes[3] == t;
    }
  }

  /** `mealCategories` lists every category, "General" first. */
  lemma MealCategoriesListEveryCategory()
    ensures |MealCategories| == 11 && MealCategories[0] == General
    ensures forall c: MealCategory :: c in MealCategories
  {
    forall c: MealCategory ensures c in MealCategories {
      assert MealCategories[c.Position()] == c;
    }
  }

  /** No two categories share a name (each is told apart by its length and first letter). */
  lemma CategoryNameInjective(c: MealCategory, d: MealCategory)
    requires c.Name() == d.Name()
    ensures c == d
  {
    var n := c.Name();
    assert |n| == |d.Name()| && n[0] == d.Name()[0];
  }

  /** `mealCategories` lists each category once, under distinct names. */
  lemma MealCategoriesDistinct()
    ensures forall i, j :: 0 <= i < j < |MealCategories| ==> MealCategories[i].Name() != MealCategories[j].Name()
  {
    forall i, j | 0 <= i < j < |MealCategories| ensures MealCategories[i].Name() != MealCategories[j].Name() {
      if MealCategories[i].Name() == MealCategories[j].Name() {
        CategoryNameInjective(MealCategories[i], MealCategories[j]);
      }
    }
  }

  /** The test `c === s` of one category against a string. */
  function NameIs(s: string): MealCategory -> bool
  {
    (c: MealCategory) => c.Name() == s
  }

  /** The category whose name is `s`, as `z.enum(mealCategories)` parses it; None for any other string. */
  function CategoryNamed(s: string): (r: Option<MealCategory>)
    ensures r.Some? ==> r.value.Name() == s
  {
    var i := ArrayOps.FindIndex(MealCategories, NameIs(s));
    if i == -1 then None else Some(MealCategories[i])
  }

  /** Only the eleven category names parse: the closed set of `z.enum(mealCategories)`. */
  lemma CategoryNamedRejectsOnlyUnknownNames(s: string)
    ensures CategoryNamed(s).None? <==> forall c: MealCategory :: c.Name() != s
  {
    var i := ArrayOps.FindIndex(MealCategories, NameIs(s));
    if i == -1 {
      forall c: MealCategory ensures c.Name() != s {
        assert !NameIs(s)(MealCategories[c.Position()]);
      }
    }
  }

  /** Every category's own name parses back to it. */
  lemma CategoryNameRoundTrip(c: MealCategory)
    ensures CategoryNamed(c.Name()) == Some(c)
  {
    var r := CategoryNamed(c.Name());
    assert r.Some?;
    CategoryNameInjective(r.value, c);
  }

  /** `MealEntry`: id, date, slot, name and category always; the other eight fields each optional. */
  datatype MealEntry = MealEntry(
    id: string,
    date: string,
    mealType: MealType,
    name: string,
    category: MealCategory,
    notes: Option<string>,
    sideDishes: Option<string>,
    prepTime: Option<real>,
    cookTime: Option<real>,
    calories: Option<real>,
    protein: Option<real>,
    fats: Option<real>,
    sugar: Option<real>)
  {
    /** What the entry form guarantees of a record it produces (the store itself checks nothing). */
    predicate WellFormed() {
      && DateStrings.IsDate(date)
      && |name| >= 2
      && WholeMinutes(prepTime) && WholeMinutes(cookTime)
      && NonNegative(calories) && NonNegative(protein) && NonNegative(fats) && NonNegative(sugar)
    }
  }

  predicate IsInteger(v: real) { v == v.Floor as real }

  predicate NonNegative(x: Option<real>) { x.Some? ==> x.value >= 0.0 }

  predicate WholeMinutes(x: Option<real>) { x.Some? ==> x.value >= 0.0 && IsInteger(x.value) }
}
