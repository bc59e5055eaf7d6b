/**
 * The add/edit dialog: the form's initial values, the schema that accepts or
 * rejects what was typed, and the record that a successful submit saves.
 */
module MealForm {
  import opened Wrappers
  import opened Types
  import DateStrings
  import ArrayOps

  /** A numeric text box, by what its text denotes: empty, a number, or not a number. */
  datatype NumberInput = Blank | Entered(value: real) | NotANumber

  /** `MealFormInputValues`: what the form's inputs hold. */
  datatype FormInput = FormInput(
    name: string,
    category: string,
    notes: string,
    sideDishes: string,
    prepTime: NumberInput,
    cookTime: NumberInput,
    calories: NumberInput,
    protein: NumberInput,
    fats: NumberInput,
    sugar: NumberInput)

  /** `MealFormValues`: the form once the schema has accepted it. */
  datatype FormValues = FormValues(
    name: string,
    category: MealCategory,
    notes: Option<string>,
    sideDishes: Option<string>,
    prepTime: Option<real>,
    cookTime: Option<real>,
    calories: Option<real>,
    protein: Option<real>,
    fats: Option<real>,
    sugar: Option<real>)

  /** The schema fields that can report an error. */
  datatype Field = Name | Category | PrepTime | CookTime | Calories | Protein | Fats | Sugar
  {
    /** Where the field stands in the schema. */
    function Position(): (k: nat)
      ensures k < |SchemaOrder| && SchemaOrder[k] == this
    {
      match this
      case Name => 0
      case Category => 1
      case PrepTime => 2
      case CookTime => 3
      case Calories => 4
      case Protein => 5
      case Fats => 6
      case Sugar => 7
    }
  }

  datatype Validation = Accepted(values: FormValues) | Rejected(errors: seq<Field>)

  /**
   * One optional numeric field of the schema: an empty box is turned into
   * `undefined` first and passes; otherwise the text must be a number, at
   * least 0, and whole when `whole` (`.int()` on the two times).
   */
  predicate Acceptable(x: NumberInput, whole: bool)
  {
    match x
    case Blank => true
    case Entered(v) => v >= 0.0 && (whole ==> IsInteger(v))
    case NotANumber => false
  }

  /** What an accepted numeric box contributes: `undefined` for an empty one. */
  function AmountOf(x: NumberInput): Option<real>
  {
    if x.Entered? then Some(x.value) else None
  }

  /** The check of field `f` fails: a name under 2 characters, an unknown category, a bad number. */
  predicate Fails(input: FormInput, f: Field)
  {
    match f
    case Name => |input.name| < 2
    case Category => CategoryNamed(input.category).None?
    case PrepTime => !Acceptable(input.prepTime, true)
    case CookTime => !Acceptable(input.cookTime, true)
    case Calories => !Acceptable(input.calories, false)
    case Protein => !Acceptable(input.protein, false)
    case Fats => !Acceptable(input.fats, false)
    case Sugar => !Acceptable(input.sugar, false)
  }

  /** The schema's fields in declaration order, which is the order their errors are reported in. */
  const SchemaOrder: seq<Field> := [Name, Category, PrepTime, CookTime, Calories, Protein, Fats, Sugar]

  /** The failing fields, each reported once, in schema order. */
  function Errors(input: FormInput): (r: seq<Field>)
    ensures forall f :: f in r <==> Fails(input, f)
  {
    var r := ArrayOps.Filter(SchemaOrder, (f: Field) => Fails(input, f));
    forall f ensures f in r <==> Fails(input, f) {
      if Fails(input, f) {
        assert SchemaOrder[f.Position()] == f;
      }
    }
    r
  }

  /** A form that fails any check of the schema gets at least one error. */
  lemma ErrorsUnlessChecksPass(input: FormInput)
    requires !(&& |input.name| >= 2
               && CategoryNamed(input.category).Some?
               && Acceptable(input.prepTime, true) && Acceptable(input.cookTime, true)
               && Acceptable(input.calories, false) && Acceptable(input.protein, false)
               && Acceptable(input.fats, false) && Acceptable(input.sugar, false))
    ensures Errors(input) != []
  {
    var f :=
      if |input.name| < 2 then Name
      else if CategoryNamed(input.category).None? then Category
      else if !Acceptable(input.prepTime, true) then PrepTime
      else if !Acceptable(input.cookTime, true) then CookTime
      else if !Acceptable(input.calories, false) then Calories
      else if !Acceptable(input.protein, false) then Protein
      else if !Acceptable(input.fats, false) then Fats
      else Sugar;
    assert Fails(input, f);
    assert f in Errors(input);
  }

  /** `formSchema`: every failing field is reported, in schema order; the values only when none fails. */
  function Validate(input: FormInput): (r: Validation)
    ensures r.Accepted? <==>
              && |input.name| >= 2
              && CategoryNamed(input.category).Some?
              && Acceptable(input.prepTime, true) && Acceptable(input.cookTime, true)
              && Acceptable(input.calories, false) && Acceptable(input.protein, false)
              && Acceptable(input.fats, false) && Acceptable(input.sugar, false)
    ensures r.Rejected? ==> r.errors != [] && forall f :: f in r.errors <==> Fails(input, f)
    ensures r.Accepted? ==>
              && r.values.name == input.name
              && r.values.category.Name() == input.category
              && r.values.notes == Some(input.notes) && r.values.sideDishes == Some(input.sideDishes)
    ensures r.Accepted? ==>
              && r.values.prepTime == AmountOf(input.prepTime) && r.values.cookTime == AmountOf(input.cookTime)
              && r.values.calories == AmountOf(input.calories) && r.values.protein == AmountOf(input.protein)
              && r.values.fats == AmountOf(input.fats) && r.values.sugar == AmountOf(input.sugar)
  {
    if && |input.name| >= 2
       && CategoryNamed(input.category).Some?
       && Acceptable(input.prepTime, true) && Acceptable(input.cookTime, true)
       && Acceptable(input.calories, false) && Acceptable(input.protein, false)
       && Acceptable(input.fats, false) && Acceptable(input.sugar, false)
    then
      Accepted(FormValues(input.name, CategoryNamed(input.category).value, Some(input.notes), Some(input.sideDishes),
                          AmountOf(input.prepTime), AmountOf(input.cookTime), AmountOf(input.calories),
                          AmountOf(input.protein), AmountOf(input.fats), AmountOf(input.sugar)))
    else
      ErrorsUnlessChecksPass(input);
      Rejected(Errors(input))
  }

  /** An accepted box yields its number, or nothing when empty; the number is non-negative, and whole when asked. */
  lemma AmountOfAcceptable(x: NumberInput, whole: bool)
    requires Acceptable(x, whole)
    ensures AmountOf(x).None? <==> x == Blank
    ensures AmountOf(x).Some? ==> x == Entered(AmountOf(x).value)
    ensures NonNegative(AmountOf(x)) && (whole ==> WholeMinutes(AmountOf(x)))
  {
  }

  /**
   * The numbers of an accepted form are the boxes' numbers, missing exactly
   * where a box was empty: whole non-negative minutes for the two times and
   * non-negative amounts for the four nutrients.
   */
  lemma AcceptedAmountsFollowTheBoxes(input: FormInput)
    requires Validate(input).Accepted?
    ensures var v := Validate(input).values;
            && (v.prepTime.None? <==> input.prepTime == Blank)
            && (v.prepTime.Some? ==> input.prepTime == Entered(v.prepTime.value))
            && (v.cookTime.None? <==> input.cookTime == Blank)
            && (v.cookTime.Some? ==> input.cookTime == Entered(v.cookTime.value))
            && (v.calories.None? <==> input.calories == Blank)
            && (v.calories.Some? ==> input.calories == Entered(v.calories.value))
            && (v.protein.None? <==> input.protein == Blank)
            && (v.protein.Some? ==> input.protein == Entered(v.protein.value))
            && (v.fats.None? <==> input.fats == Blank)
            && (v.fats.Some? ==> input.fats == Entered(v.fats.value))
            && (v.sugar.None? <==> input.sugar == Blank)
            && (v.sugar.Some? ==> input.sugar == Entered(v.sugar.value))
    ensures var v := Validate(input).values;
            && WholeMinutes(v.prepTime) && WholeMinutes(v.cookTime)
            && NonNegative(v.calories) && NonNegative(v.protein) && NonNegative(v.fats) && NonNegative(v.sugar)
  {
    AmountOfAcceptable(input.prepTime, true);
    AmountOfAcceptable(input.cookTime, true);
    AmountOfAcceptable(input.calories, false);
    AmountOfAcceptable(input.protein, false);
    AmountOfAcceptable(input.fats, false);
    AmountOfAcceptable(input.sugar, false);
  }

  /** The text a numeric box starts with: the stored number, or empty when there is none. */
  function BoxFor(x: Option<real>): NumberInput
  {
    if x.Some? then Entered(x.value) else Blank
  }

  /** `getInitialFormInputValues`: an existing meal's fields, or an empty form in category "General". */
  function InitialValues(meal: Option<MealEntry>): (r: FormInput)
    ensures meal.None? ==>
              && r.name == "" && r.category == "General" && r.notes == "" && r.sideDishes == ""
              && r.prepTime == r.cookTime == r.calories == r.protein == r.fats == r.sugar == Blank
    ensures meal.Some? ==>
              && r.name == meal.value.name && r.category == meal.value.category.Name()
              && r.notes == meal.value.notes.GetOr("") && r.sideDishes == meal.value.sideDishes.GetOr("")
    ensures meal.Some? ==>
              && (r.prepTime == Blank <==> meal.value.prepTime.None?)
              && (r.cookTime == Blank <==> meal.value.cookTime.None?)
              && (r.calories == Blank <==> meal.value.calories.None?)
              && (r.protein == Blank <==> meal.value.protein.None?)
              && (r.fats == Blank <==> meal.value.fats.None?)
              && (r.sugar == Blank <==> meal.value.sugar.None?)
    ensures meal.Some? ==>
              && (meal.value.prepTime.Some? ==> r.prepTime == Entered(meal.value.prepTime.value))
              && (meal.value.cookTime.Some? ==> r.cookTime == Entered(meal.value.cookTime.value))
              && (meal.value.calories.Some? ==> r.calories == Entered(meal.value.calories.value))
              && (meal.value.protein.Some? ==> r.protein == Entered(meal.value.protein.value))
              && (meal.value.fats.Some? ==> r.fats == Entered(meal.value.fats.value))
              && (meal.value.sugar.Some? ==> r.sugar == Entered(meal.value.sugar.value))
  {
    match meal
    case None => FormInput("", General.Name(), "", "", Blank, Blank, Blank, Blank, Blank, Blank)
    case Some(m) =>
      FormInput(m.name, m.category.Name(), m.notes.GetOr(""), m.sideDishes.GetOr(""),
                BoxFor(m.prepTime), BoxFor(m.cookTime), BoxFor(m.calories),
                BoxFor(m.protein), BoxFor(m.fats), BoxFor(m.sugar))
  }

  /**
   * The record `onSubmit` builds: the existing meal's id (a fresh one when
   * there is no meal, or its id is empty), the dialog's day and slot, and the
   * accepted values.
   */
  function BuildEntry(values: FormValues, existingMeal: Option<MealEntry>, freshId: string,
                      selectedDate: string, mealType: MealType): (r: MealEntry)
    ensures existingMeal.Some? && existingMeal.value.id != "" ==> r.id == existingMeal.value.id
    ensures existingMeal.None? || existingMeal.value.id == "" ==> r.id == freshId
    ensures r.date == selectedDate && r.mealType == mealType
    ensures r.name == values.name && r.category == values.category
    ensures r.notes == values.notes && r.sideDishes == values.sideDishes
    ensures && r.prepTime == values.prepTime && r.cookTime == values.cookTime
            && r.calories == values.calories && r.protein == values.protein
            && r.fats == values.fats && r.sugar == values.sugar
  {
    var id := if existingMeal.Some? && existingMeal.value.id != "" then existingMeal.value.id else freshId;
    MealEntry(id, selectedDate, mealType, values.name, values.category, values.notes, values.sideDishes,
              values.prepTime, values.cookTime, values.calories, values.protein, values.fats, values.sugar)
  }

  /** `form.handleSubmit(onSubmit)`: the record handed to `onSave`, or nothing when the schema rejects the form. */
  function Submit(input: FormInput, existingMeal: Option<MealEntry>, freshId: string,
                  selectedDate: string, mealType: MealType): (r: Option<MealEntry>)
    ensures r.Some? <==> Validate(input).Accepted?
    ensures r.Some? ==> r.value == BuildEntry(Validate(input).values, existingMeal, freshId, selectedDate, mealType)
  {
    match Validate(input)
    case Accepted(values) => Some(BuildEntry(values, existingMeal, freshId, selectedDate, mealType))
    case Rejected(_) => None
  }

  /** Whatever the dialog saves for a `yyyy-MM-dd` day is a well-formed record. */
  lemma SubmittedEntryIsWellFormed(input: FormInput, existingMeal: Option<MealEntry>, freshId: string,
                                   selectedDate: string, mealType: MealType)
    requires DateStrings.IsDate(selectedDate)
    requires Submit(input, existingMeal, freshId, selectedDate, mealType).Some?
    ensures Submit(input, existingMeal, freshId, selectedDate, mealType).value.WellFormed()
  {
    AcceptedAmountsFollowTheBoxes(input);
  }

  /** A new dialog cannot be saved as it opens: its only complaint is the empty name. */
  lemma NewFormComplainsOnlyOfName(input: FormInput)
    requires input == InitialValues(None)
    ensures Validate(input).Rejected?
    ensures forall f :: f in Validate(input).errors <==> f == Name
  {
    CategoryNameRoundTrip(General);
    assert input.category == General.Name() && input.name == "";
    assert input.prepTime == input.cookTime == input.calories == input.protein == input.fats == input.sugar == Blank;
    forall f ensures Fails(input, f) <==> f == Name {
      match f
      case Name =>
      case Category =>
      case PrepTime =>
      case CookTime =>
      case Calories =>
      case Protein =>
      case Fats =>
      case Sugar =>
    }
  }

  /** Showing a stored amount in a box and accepting it again gives the amount back. */
  lemma BoxRoundTrip(x: Option<real>, whole: bool)
    requires NonNegative(x) && (whole ==> WholeMinutes(x))
    ensures Acceptable(BoxFor(x), whole) && AmountOf(BoxFor(x)) == x
  {
  }

  /**
   * Opening a well-formed meal for editing and saving it unchanged gives the
   * same record back, except that missing notes and side dishes come back as
   * empty text.
   */
  lemma EditUnchangedRoundTrip(m: MealEntry, freshId: string)
    requires m.WellFormed() && m.id != ""
    ensures Submit(InitialValues(Some(m)), Some(m), freshId, m.date, m.mealType)
            == Some(m.(notes := Some(m.notes.GetOr("")), sideDishes := Some(m.sideDishes.GetOr(""))))
  {
    var input := InitialValues(Some(m));
    CategoryNameRoundTrip(m.category);
    BoxRoundTrip(m.prepTime, true);
    BoxRoundTrip(m.cookTime, true);
    BoxRoundTrip(m.calories, false);
    BoxRoundTrip(m.protein, false);
    BoxRoundTrip(m.fats, false);
    BoxRoundTrip(m.sugar, false);
    forall f ensures !Fails(input, f) {
    }
    var values := Validate(input).values;
    assert values == FormValues(m.name, m.category, Some(m.notes.GetOr("")), Some(m.sideDishes.GetOr("")),
                                m.prepTime, m.cookTime, m.calories, m.protein, m.fats, m.sugar);
  }
}
